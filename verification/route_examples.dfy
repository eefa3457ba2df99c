/** The route vectors of the Jasmine route tests (tests/RouteSpec.js) and of the bundled build's
    end anchor, stated on routes built by the constructor. */
module RouteExamples {
  import opened Results
  import opened Ascii
  import opened Pattern
  import opened RegexSource
  import opened Routes

  /** A `get` route built like the tests build it: no options. */
  function GetRoute(f: Flavour, pattern: string): Route
    requires PlainPattern(pattern)
  {
    New(f, Str(pattern), Str("get"), Func(0), None).value
  }

  function GetQuery(url: string): Query {
    Query(url, "get", None)
  }

  lemma MatchesGet(f: Flavour, pattern: string, url: string)
    requires PlainPattern(pattern)
    ensures Matches(GetRoute(f, pattern), GetQuery(url)) <==> Test(AnchoringOf(f), Compile(pattern), url)
  {
    NewMatches(f, Str(pattern), Str("get"), Func(0), None, GetQuery(url));
  }

  // ---------------------------------------------------------------------------
  // The example patterns have no expression metacharacters

  lemma PlainUsersId() ensures PlainPattern("users/:id") { }
  lemma PlainUsersAlpha() ensures PlainPattern("users/:alpha") { }
  lemma PlainUsersAlphaNum() ensures PlainPattern("users/:alphanum") { }
  lemma PlainAlphaId() ensures PlainPattern(":alpha/:id") { }
  lemma PlainNested() ensures PlainPattern(":alpha/:id/users/:id/:alphanum") { }

  // ---------------------------------------------------------------------------
  // What the patterns compile to

  lemma CompileUsersId()
    ensures Compile("users/:id") == Lits("users/") + [Digits]
  {
    assert "users/:id" == "users/" + (":id" + "");
    CompileAfterText("users/", ":id" + "");
    CompileAnyId("");
  }

  lemma CompileUsersAlpha()
    ensures Compile("users/:alpha") == Lits("users/") + [Alpha]
  {
    assert "users/:alpha" == "users/" + (":alpha" + "");
    CompileAfterText("users/", ":alpha" + "");
    CompileAlpha("");
  }

  lemma CompileUsersAlphaNum()
    ensures Compile("users/:alphanum") == Lits("users/") + [AlphaNum]
  {
    assert "users/:alphanum" == "users/" + (":alphanum" + "");
    CompileAfterText("users/", ":alphanum" + "");
    CompileAlphaNum("");
  }

  lemma CompileAlphaId()
    ensures Compile(":alpha/:id") == [Alpha] + (Lits("/") + ([Digits] + []))
  {
    var q := "/" + (":id" + "");
    assert ":alpha/:id" == ":alpha" + q;
    CompileAlphaIdParts(q);
  }

  lemma CompileAlphaIdParts(q: string)
    requires q == "/" + (":id" + "")
    ensures Compile(":alpha" + q) == [Alpha] + (Lits("/") + ([Digits] + []))
  {
    assert LowerChar(q[0]) != "num"[0];
    CompileAlpha(q);
    CompileAfterText("/", ":id" + "");
    CompileAnyId("");
  }

  /** Placeholder names are recognised by prefix: `:identity` is a digit
      run followed by the literal text `entity`. */
  lemma CompileIdentity()
    ensures Compile(":identity") == [Digits] + Lits("entity")
  {
    assert ":identity" == ":id" + "entity";
    CompileAnyId("entity");
    CompileColonFree("entity");
  }

  /** Placeholder names are matched without regard to case: `:ID/` is a
      digit run followed by `/`. */
  lemma UpperIdVector()
    ensures Compile(":ID/") == [Digits, Lit('/')]
  {
    assert ":ID/" == ":ID" + "/";
    CompileUpperId("/");
    CompileColonFree("/");
  }

  /** The nested pattern of the route tests, cut into its three parts. */
  function NestedHead(): seq<Token> { [Alpha] + Lits("/") + [Digits] }
  function NestedMiddle(): seq<Token> { Lits("/users/") + [Digits] }
  function NestedTail(): seq<Token> { Lits("/") + [AlphaNum] }

  function NestedTokens(): seq<Token> {
    [Alpha] + (Lits("/") + ([Digits] + (Lits("/users/") + ([Digits] + (Lits("/") + ([AlphaNum] + []))))))
  }

  lemma NestedSplit()
    ensures NestedTokens() == NestedHead() + NestedMiddle() + NestedTail()
  {
    Regroup(Lits("/"), Lits("/users/"), Lits("/"));
  }

  lemma Regroup(a: seq<Token>, b: seq<Token>, c: seq<Token>)
    ensures [Alpha] + (a + ([Digits] + (b + ([Digits] + (c + ([AlphaNum] + []))))))
      == ([Alpha] + a + [Digits]) + (b + [Digits]) + (c + [AlphaNum])
  {
  }

  lemma CompileNested()
    ensures Compile(":alpha/:id/users/:id/:alphanum") == NestedTokens()
  {
    var q6 := ":alphanum" + "";
    var q5 := "/" + q6;
    var q4 := ":id" + q5;
    var q3 := "/users/" + q4;
    var q2 := ":id" + q3;
    var q1 := "/" + q2;
    assert ":alpha/:id/users/:id/:alphanum" == ":alpha" + q1;
    CompileNestedParts(q1, q2, q3, q4, q5, q6);
  }

  /** The scan of the nested pattern, one placeholder or literal run at a
      time. */
  lemma CompileNestedParts(q1: string, q2: string, q3: string, q4: string, q5: string, q6: string)
    requires q6 == ":alphanum" + "" && q5 == "/" + q6 && q4 == ":id" + q5
    requires q3 == "/users/" + q4 && q2 == ":id" + q3 && q1 == "/" + q2
    ensures Compile(":alpha" + q1) == NestedTokens()
  {
    NestedTail3(q4, q5, q6);
    NestedMiddle3(q2, q3, q4);
    NestedHead2(q1, q2);
  }

  lemma NestedTail3(q4: string, q5: string, q6: string)
    requires q6 == ":alphanum" + "" && q5 == "/" + q6 && q4 == ":id" + q5
    ensures Compile(q4) == [Digits] + (Lits("/") + ([AlphaNum] + []))
  {
    CompileAlphaNum("");
    CompileAfterText("/", q6);
    CompileAnyId(q5);
  }

  lemma NestedMiddle3(q2: string, q3: string, q4: string)
    requires q3 == "/users/" + q4 && q2 == ":id" + q3
    ensures Compile(q2) == [Digits] + (Lits("/users/") + Compile(q4))
  {
    CompileAfterText("/users/", q4);
    CompileAnyId(q3);
  }

  lemma NestedHead2(q1: string, q2: string)
    requires q1 == "/" + q2
    ensures Compile(":alpha" + q1) == [Alpha] + (Lits("/") + Compile(q2))
  {
    assert q1[0] == '/';
    CompileAlpha(q1);
    CompileAfterText("/", q2);
  }

  // ---------------------------------------------------------------------------
  // The modular build

  /** `'some-url'` is its own expression text, and the route keeps the given
      pattern, verb and handler with the default `'after'` timing. */
  lemma SomeUrlRoute(p: string)
    requires p == "some-url"
    ensures PlainPattern(p)
    ensures var r := New(Modular, Str(p), Str("get"), Func(7), None);
      && r.Success?
      && r.value.pattern == "some-url"
      && r.value.regex.source == "some-url"
      && r.value.verb == "get"
      && r.value.handler == 7
      && r.value.timing == Timed(Options(Some("after")))
  {
    PlainSomeUrl();
    RegexifyColonFree(p);
  }

  lemma PlainSomeUrl() ensures PlainPattern("some-url") && ColonFree("some-url") { }

  /** A route built without options is given `{when: 'after'}`. */
  lemma DefaultOptionsRoute(p: string)
    requires p == "lkjsflkj"
    ensures PlainPattern(p)
    ensures var r := New(Modular, Str(p), Str("get"), Func(0), None);
      r.Success? && r.value.timing == Timed(Options(Some("after")))
  {
    PlainDefault();
  }

  lemma PlainDefault() ensures PlainPattern("lkjsflkj") { }

  /** `p` followed by a run of class `t` matches `x + p + a` when `a` is a
      non-empty run of that class. */
  lemma LitsRunFound(p: string, t: Token, x: string, a: string)
    requires !t.Lit? && |a| >= 1 && AllIn(t, a)
    ensures Test(Unanchored, Lits(p) + [t], x + (p + a))
  {
    ClassThen(t, [], a, "");
    assert a + "" == a && [t] + [] == [t];
    LitsThen(p, [t], a);
    AcceptedFound(Lits(p) + [t], x, p + a, "");
    assert x + (p + a) + "" == x + (p + a);
  }

  lemma UsersIdAccepts()
    ensures Test(Unanchored, Lits("users/") + [Digits], "/users/76")
  {
    LitsRunFound("users/", Digits, "/", "76");
    assert "/users/76" == "/" + ("users/" + "76");
  }

  lemma UsersIdRejects()
    ensures !Test(Unanchored, Lits("users/") + [Digits], "/users/sdfsdf")
  {
    assert NoClassAfterFrom("/users/sdfsdf", "users/", Digits, 0);
    NoClassAfter("/users/sdfsdf", "users/", Digits, 0);
    RejectLitsThenClass("users/", Digits, [], "/users/sdfsdf");
    assert Lits("users/") + [Digits] + [] == Lits("users/") + [Digits];
  }

  lemma UsersIdRoute()
    ensures Matches(GetRoute(Modular, "users/:id"), GetQuery("/users/76"))
    ensures !Matches(GetRoute(Modular, "users/:id"), GetQuery("/users/sdfsdf"))
  {
    PlainUsersId();
    CompileUsersId();
    UsersIdAccepts();
    UsersIdRejects();
    MatchesGet(Modular, "users/:id", "/users/76");
    MatchesGet(Modular, "users/:id", "/users/sdfsdf");
  }

  lemma UsersAlphaRejects()
    ensures !Test(Unanchored, Lits("users/") + [Alpha], "/users/32")
  {
    assert NoClassAfterFrom("/users/32", "users/", Alpha, 0);
    NoClassAfter("/users/32", "users/", Alpha, 0);
    RejectLitsThenClass("users/", Alpha, [], "/users/32");
    assert Lits("users/") + [Alpha] + [] == Lits("users/") + [Alpha];
  }

  lemma UsersAlphaAccepts()
    ensures Test(Unanchored, Lits("users/") + [Alpha], "/users/asfasdf")
  {
    AlphaRunText("asfasdf");
    UsersText("/users/asfasdf", "asfasdf");
    UsersRunFound(Alpha, "/users/asfasdf", "asfasdf");
  }

  lemma UsersAlphaHyphenAccepts()
    ensures Test(Unanchored, Lits("users/") + [Alpha], "/users/asfasdf-khjasdf")
  {
    AlphaRunText("asfasdf-khjasdf");
    UsersText("/users/asfasdf-khjasdf", "asfasdf-khjasdf");
    UsersRunFound(Alpha, "/users/asfasdf-khjasdf", "asfasdf-khjasdf");
  }

  lemma AlphaRunText(a: string)
    requires a == "asfasdf-khjasdf" || a == "asfasdf"
    ensures AllIn(Alpha, a)
  {
  }

  /** The literal URL splits as `/`, `users/`, then the run. */
  lemma UsersText(url: string, a: string)
    requires (url == "/users/asfasdf-khjasdf" && a == "asfasdf-khjasdf")
          || (url == "/users/asfasdf" && a == "asfasdf")
          || (url == "/users/as56-sfdj1" && a == "as56-sfdj1")
    ensures url == "/" + ("users/" + a)
  {
  }

  /** `users/` followed by a run of class `t` occurs in `/users/` + run. */
  lemma UsersRunFound(t: Token, url: string, a: string)
    requires !t.Lit? && |a| >= 1 && AllIn(t, a) && url == "/" + ("users/" + a)
    ensures Test(Unanchored, Lits("users/") + [t], url)
  {
    LitsRunFound("users/", t, "/", a);
  }

  lemma UsersAlphaRoute()
    ensures !Matches(GetRoute(Modular, "users/:alpha"), GetQuery("/users/32"))
    ensures Matches(GetRoute(Modular, "users/:alpha"), GetQuery("/users/asfasdf"))
    ensures Matches(GetRoute(Modular, "users/:alpha"), GetQuery("/users/asfasdf-khjasdf"))
  {
    PlainUsersAlpha();
    CompileUsersAlpha();
    UsersAlphaRejects();
    UsersAlphaAccepts();
    UsersAlphaHyphenAccepts();
    MatchesGet(Modular, "users/:alpha", "/users/32");
    MatchesGet(Modular, "users/:alpha", "/users/asfasdf");
    MatchesGet(Modular, "users/:alpha", "/users/asfasdf-khjasdf");
  }

  lemma UsersAlphaNumDigitsAccepts()
    ensures Test(Unanchored, Lits("users/") + [AlphaNum], "/users/15")
  {
    LitsRunFound("users/", AlphaNum, "/", "15");
    assert "/users/15" == "/" + ("users/" + "15");
  }

  lemma UsersAlphaNumLettersAccepts()
    ensures Test(Unanchored, Lits("users/") + [AlphaNum], "/users/kjsdf")
  {
    LitsRunFound("users/", AlphaNum, "/", "kjsdf");
    assert "/users/kjsdf" == "/" + ("users/" + "kjsdf");
  }

  lemma UsersAlphaNumMixedAccepts()
    ensures Test(Unanchored, Lits("users/") + [AlphaNum], "/users/as56-sfdj1")
  {
    AlphaNumMixedRun("as56-sfdj1");
    UsersText("/users/as56-sfdj1", "as56-sfdj1");
    UsersRunFound(AlphaNum, "/users/as56-sfdj1", "as56-sfdj1");
  }

  lemma AlphaNumMixedRun(a: string)
    requires a == "as56-sfdj1"
    ensures AllIn(AlphaNum, a)
  {
  }

  lemma UsersAlphaNumRoute()
    ensures Matches(GetRoute(Modular, "users/:alphanum"), GetQuery("/users/15"))
    ensures Matches(GetRoute(Modular, "users/:alphanum"), GetQuery("/users/kjsdf"))
    ensures Matches(GetRoute(Modular, "users/:alphanum"), GetQuery("/users/as56-sfdj1"))
  {
    PlainUsersAlphaNum();
    CompileUsersAlphaNum();
    UsersAlphaNumDigitsAccepts();
    UsersAlphaNumLettersAccepts();
    UsersAlphaNumMixedAccepts();
    MatchesGet(Modular, "users/:alphanum", "/users/15");
    MatchesGet(Modular, "users/:alphanum", "/users/kjsdf");
    MatchesGet(Modular, "users/:alphanum", "/users/as56-sfdj1");
  }

  lemma AlphaIdAccepts()
    ensures Test(Unanchored, [Alpha] + (Lits("/") + ([Digits] + [])), "/users/15")
  {
    ClassThen(Digits, [], "15", "");
    LitsThen("/", [Digits] + [], "15" + "");
    ClassThen(Alpha, Lits("/") + ([Digits] + []), "users", "/" + ("15" + ""));
    var w := "users" + ("/" + ("15" + ""));
    assert "/users/15" == "/" + w + "";
    AcceptedFound([Alpha] + (Lits("/") + ([Digits] + [])), "/", w, "");
  }

  lemma AlphaIdRoute()
    ensures Matches(GetRoute(Modular, ":alpha/:id"), GetQuery("/users/15"))
  {
    PlainAlphaId();
    CompileAlphaId();
    AlphaIdAccepts();
    MatchesGet(Modular, ":alpha/:id", "/users/15");
  }

  lemma NestedAccepts()
    ensures Test(Unanchored, NestedTokens(), "/lkjsdf/23/users/765/lksdf-ksdf874")
  {
    var w := NestedText("lkjsdf", "23", "765", "lksdf-ksdf874");
    NestedRuns();
    NestedAcceptsText("lkjsdf", "23", "765", "lksdf-ksdf874");
    NestedUrl();
    AcceptedFound(NestedTokens(), "/", w, "");
  }

  lemma NestedRuns()
    ensures AllIn(Alpha, "lkjsdf") && AllIn(Digits, "23") && AllIn(Digits, "765")
    ensures AllIn(AlphaNum, "lksdf-ksdf874")
  {
  }

  lemma NestedUrl()
    ensures "/lkjsdf/23/users/765/lksdf-ksdf874" == "/" + NestedText("lkjsdf", "23", "765", "lksdf-ksdf874") + ""
  {
  }

  function NestedText(a: string, b: string, c: string, d: string): string {
    a + ("/" + (b + ("/users/" + (c + ("/" + (d + ""))))))
  }

  /** The nested pattern accepts its four runs joined by its literal text. */
  lemma NestedAcceptsText(a: string, b: string, c: string, d: string)
    requires |a| >= 1 && AllIn(Alpha, a)
    requires |b| >= 1 && AllIn(Digits, b)
    requires |c| >= 1 && AllIn(Digits, c)
    requires |d| >= 1 && AllIn(AlphaNum, d)
    ensures Accepts(NestedTokens(), NestedText(a, b, c, d))
  {
    var t6 := [AlphaNum] + [];
    var t5 := Lits("/") + t6;
    var t4 := [Digits] + t5;
    var t3 := Lits("/users/") + t4;
    var t2 := [Digits] + t3;
    var t1 := Lits("/") + t2;
    ClassThen(AlphaNum, [], d, "");
    LitsThen("/", t6, d + "");
    ClassThen(Digits, t5, c, "/" + (d + ""));
    LitsThen("/users/", t4, c + ("/" + (d + "")));
    ClassThen(Digits, t3, b, "/users/" + (c + ("/" + (d + ""))));
    LitsThen("/", t2, b + ("/users/" + (c + ("/" + (d + "")))));
    ClassThen(Alpha, t1, a, "/" + (b + ("/users/" + (c + ("/" + (d + ""))))));
  }

  lemma NestedRejects()
    ensures !Test(Unanchored, NestedTokens(), "/lkjsdf/23/users/sdfsdf/lksdf-ksdf874")
  {
    var url := "/lkjsdf/23/users/sdfsdf/lksdf-ksdf874";
    forall i | OccursAt(url, "/users/", i) && i + 7 < |url|
      ensures !InClass(Digits, url[i + 7])
    {
      assert url[i..i + 7][1] == 'u';
      assert url[i + 1] == 'u';
    }
    RejectLitsThenClass("/users/", Digits, [], url);
    assert NestedMiddle() == Lits("/users/") + [Digits] + [];
    NestedSplit();
    if Test(Unanchored, NestedHead() + NestedMiddle() + NestedTail(), url) {
      UnanchoredInfix(NestedHead(), NestedMiddle(), NestedTail(), url);
    }
  }

  lemma NestedRouteAccepts()
    ensures Matches(GetRoute(Modular, ":alpha/:id/users/:id/:alphanum"), GetQuery("/lkjsdf/23/users/765/lksdf-ksdf874"))
  {
    PlainNested();
    CompileNested();
    NestedAccepts();
    MatchesGet(Modular, ":alpha/:id/users/:id/:alphanum", "/lkjsdf/23/users/765/lksdf-ksdf874");
  }

  lemma NestedRouteRejects()
    ensures !Matches(GetRoute(Modular, ":alpha/:id/users/:id/:alphanum"), GetQuery("/lkjsdf/23/users/sdfsdf/lksdf-ksdf874"))
  {
    PlainNested();
    CompileNested();
    NestedRejects();
    MatchesGet(Modular, ":alpha/:id/users/:id/:alphanum", "/lkjsdf/23/users/sdfsdf/lksdf-ksdf874");
  }

  // ---------------------------------------------------------------------------
  // The bundled build's end anchor

  /** `p` followed by a run of class `t` matches `x + p + a`, with or without
      a trailing `/`, under the end anchor. */
  lemma EndLitsRunFound(p: string, t: Token, x: string, a: string)
    requires !t.Lit? && |a| >= 1 && AllIn(t, a)
    ensures Test(EndAnchored, Lits(p) + [t], x + (p + a))
    ensures Test(EndAnchored, Lits(p) + [t], x + (p + a) + "/")
  {
    ClassThen(t, [], a, "");
    assert a + "" == a && [t] + [] == [t];
    LitsThen(p, [t], a);
    EndAnchoredTrailingSlash(Lits(p) + [t], p + a, x);
  }

  lemma BundledUsersIdAccepts(p: string, u: string, v: string)
    requires p == "users/" && u == "/users/15" && v == "/users/15/"
    ensures Test(EndAnchored, Lits(p) + [Digits], u)
    ensures Test(EndAnchored, Lits(p) + [Digits], v)
  {
    var a := "15";
    DigitsRun(a);
    BundledUsersIdText(p, a, u, v);
    EndLitsRunFound(p, Digits, "/", a);
  }

  lemma DigitsRun(a: string)
    requires a == "15"
    ensures |a| >= 1 && AllIn(Digits, a)
  {
  }

  lemma BundledUsersIdText(p: string, a: string, u: string, v: string)
    requires p == "users/" && a == "15" && u == "/users/15" && v == "/users/15/"
    ensures u == "/" + (p + a) && v == "/" + (p + a) + "/"
  {
  }

  lemma BundledUsersIdHostAccepts()
    ensures Test(EndAnchored, Lits("users/") + [Digits], "http://host/users/15")
  {
    EndLitsRunFound("users/", Digits, "http://host/", "15");
    assert "http://host/users/15" == "http://host/" + ("users/" + "15");
  }

  lemma BundledUsersIdRejects()
    ensures !Test(EndAnchored, Lits("users/") + [Digits], "/users/15/edit")
  {
    assert BadAfterFrom("/users/15/edit", "users/", Digits, 9, 0);
    BadAfter("/users/15/edit", "users/", Digits, 9, 0);
    RejectEndAnchoredLitsThenClass("users/", Digits, "/users/15/edit", 9);
  }

  lemma BundledUsersIdRoute()
    ensures Matches(GetRoute(Bundled, "users/:id"), GetQuery("/users/15"))
    ensures Matches(GetRoute(Bundled, "users/:id"), GetQuery("/users/15/"))
    ensures Matches(GetRoute(Bundled, "users/:id"), GetQuery("http://host/users/15"))
    ensures !Matches(GetRoute(Bundled, "users/:id"), GetQuery("/users/15/edit"))
  {
    PlainUsersId();
    CompileUsersId();
    BundledUsersIdAccepts("users/", "/users/15", "/users/15/");
    BundledUsersIdHostAccepts();
    BundledUsersIdRejects();
    MatchesGet(Bundled, "users/:id", "/users/15");
    MatchesGet(Bundled, "users/:id", "/users/15/");
    MatchesGet(Bundled, "users/:id", "http://host/users/15");
    MatchesGet(Bundled, "users/:id", "/users/15/edit");
  }

  /** The source text of a `get` route, from its tokens. */
  lemma GetRouteSource(f: Flavour, pattern: string)
    requires PlainPattern(pattern)
    ensures GetRoute(f, pattern).regex.source == Render(Compile(pattern)) + (if f == Bundled then EndAnchorSource else "")
  {
  }

  /** The regular expression text the bundled build gives `users/:id`. */
  lemma BundledUsersIdSource()
    ensures GetRoute(Bundled, "users/:id").regex.source == "users/([0-9]+)\\/?$"
  {
    PlainUsersId();
    UsersIdSourceFor("users/:id", "users/([0-9]+)\\/?$");
  }

  lemma UsersIdSourceFor(p: string, src: string)
    requires p == "users/:id" && PlainPattern(p) && src == "users/([0-9]+)\\/?$"
    ensures GetRoute(Bundled, p).regex.source == src
  {
    GetRouteSource(Bundled, p);
    CompileUsersId();
    RenderLits("users/", [Digits]);
    RenderCons(Digits, []);
    UsersIdSourceText();
  }

  lemma UsersIdSourceText()
    ensures "users/([0-9]+)\\/?$" == "users/" + (DigitsSource + []) + EndAnchorSource
  {
  }
}
