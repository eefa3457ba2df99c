/** The vectors of the Jasmine router tests (tests/RouterSpec.js): after `clear`, each verb helper
    registers one route, and with one route per verb a URL equal to a
    pattern is answered by exactly that route under either policy. */
module RouterExamples {
  import opened Results
  import opened Pattern
  import opened RegexSource
  import opened Routes
  import opened Router

  /** A pattern without placeholders, used as a URL, matches the route built
      from it for the same verb. */
  lemma OwnTextMatches(p: string, verb: string, handler: nat)
    requires PlainPattern(p) && ColonFree(p)
    ensures Matches(New(Modular, Str(p), Str(verb), Func(handler), None).value, Query(p, verb, None))
  {
    NewMatches(Modular, Str(p), Str(verb), Func(handler), None, Query(p, verb, None));
    CompileColonFree(p);
    AcceptsOwnText(p, p);
    AcceptedFound(Lits(p), "", p, "");
    assert "" + p + "" == p;
  }

  /** `get`, `post`, `put` and `delete` on a cleared router each leave one
      route, with the given pattern and the helper's verb. */
  lemma RegisterOnCleared(t: Table, p: string)
    requires PlainPattern(p)
    ensures var r := Get(Clear(t), Modular, Str(p), Func(0), None);
      r.Success? && |RoutesOf(r.value)| == 1 && RoutesOf(r.value)[0].pattern == p && RoutesOf(r.value)[0].verb == "get"
    ensures var r := Post(Clear(t), Modular, Str(p), Func(0), None);
      r.Success? && |RoutesOf(r.value)| == 1 && RoutesOf(r.value)[0].pattern == p && RoutesOf(r.value)[0].verb == "post"
    ensures var r := Put(Clear(t), Modular, Str(p), Func(0), None);
      r.Success? && |RoutesOf(r.value)| == 1 && RoutesOf(r.value)[0].pattern == p && RoutesOf(r.value)[0].verb == "put"
    ensures var r := Delete(Clear(t), Modular, Str(p), Func(0), None);
      r.Success? && |RoutesOf(r.value)| == 1 && RoutesOf(r.value)[0].pattern == p && RoutesOf(r.value)[0].verb == "delete"
  {
  }

  /** The tests' instance: `get('users')` on a cleared router. */
  lemma RegisterUsers(t: Table, p: string)
    requires p == "users"
    ensures PlainPattern(p)
    ensures var r := Get(Clear(t), Modular, Str(p), Func(0), None);
      r.Success? && |RoutesOf(r.value)| == 1 && RoutesOf(r.value)[0].pattern == "users" && RoutesOf(r.value)[0].verb == "get"
  {
    TestNamesArePlain();
    RegisterOnCleared(t, p);
  }

  /** The table of the matching vector: a cleared router, then `get(a)`,
      `post(b)`, `put(c)` and `delete(d)`. */
  function FourRoutes(t: Table, a: string, b: string, c: string, d: string): Table
    requires PlainPattern(a) && PlainPattern(b) && PlainPattern(c) && PlainPattern(d)
  {
    var t1 := Get(Clear(t), Modular, Str(a), Func(0), None).value;
    var t2 := Post(t1, Modular, Str(b), Func(0), None).value;
    var t3 := Put(t2, Modular, Str(c), Func(0), None).value;
    Delete(t3, Modular, Str(d), Func(0), None).value
  }

  /** The four registrations append the four routes in call order. */
  lemma FourRoutesShape(t: Table, a: string, b: string, c: string, d: string)
    requires PlainPattern(a) && PlainPattern(b) && PlainPattern(c) && PlainPattern(d)
    ensures var s := FourRoutes(t, a, b, c, d);
      && |s| == 4
      && s[0] == New(Modular, Str(a), Str("get"), Func(0), None).value
      && s[1] == New(Modular, Str(b), Str("post"), Func(0), None).value
      && s[2] == New(Modular, Str(c), Str("put"), Func(0), None).value
      && s[3] == New(Modular, Str(d), Str("delete"), Func(0), None).value
  {
  }

  /** Each route of the four-route table matches its own pattern as URL. */
  lemma FourMatch(t: Table, a: string, b: string, c: string, d: string)
    requires PlainPattern(a) && PlainPattern(b) && PlainPattern(c) && PlainPattern(d)
    requires ColonFree(a) && ColonFree(b) && ColonFree(c) && ColonFree(d)
    ensures var s := FourRoutes(t, a, b, c, d);
      && |s| == 4
      && s[0].verb == "get" && s[1].verb == "post" && s[2].verb == "put" && s[3].verb == "delete"
      && Matches(s[0], Query(a, "get", None))
      && Matches(s[1], Query(b, "post", None))
      && Matches(s[2], Query(c, "put", None))
      && Matches(s[3], Query(d, "delete", None))
  {
    FourRoutesShape(t, a, b, c, d);
    OwnTextMatches(a, "get", 0);
    OwnTextMatches(b, "post", 0);
    OwnTextMatches(c, "put", 0);
    OwnTextMatches(d, "delete", 0);
  }

  /** A route that matches, in a table where no other route has the query's
      verb, is the whole answer under both policies. */
  lemma OnlyVerbMatches(s: Table, q: Query, i: int)
    requires 0 <= i < |s| && Matches(s[i], q)
    requires forall j | 0 <= j < |s| && j != i :: s[j].verb != q.verb
    ensures Filter(s, q) == [s[i]] == FirstMatch(s, q)
  {
    UniqueMatch(s, q, i);
  }

  /** In a table whose routes have pairwise distinct verbs, a query each
      route matches is answered by that route alone. */
  lemma DistinctVerbs(s: Table, qs: seq<Query>)
    requires |qs| == |s|
    requires forall i | 0 <= i < |s| :: Matches(s[i], qs[i]) && qs[i].verb == s[i].verb
    requires forall i, j | 0 <= i < |s| && 0 <= j < |s| && i != j :: s[j].verb != s[i].verb
    ensures forall i | 0 <= i < |s| :: Filter(s, qs[i]) == [s[i]] == FirstMatch(s, qs[i])
  {
    forall i | 0 <= i < |s|
      ensures Filter(s, qs[i]) == [s[i]] == FirstMatch(s, qs[i])
    {
      OnlyVerbMatches(s, qs[i], i);
    }
  }

  /** With one route per verb, a URL equal to a pattern is answered by that
      pattern's route alone, under both policies. */
  lemma MatchByPattern(t: Table, a: string, b: string, c: string, d: string)
    requires PlainPattern(a) && PlainPattern(b) && PlainPattern(c) && PlainPattern(d)
    requires ColonFree(a) && ColonFree(b) && ColonFree(c) && ColonFree(d)
    ensures var s := FourRoutes(t, a, b, c, d);
      && Filter(s, Query(a, "get", None)) == [s[0]] == FirstMatch(s, Query(a, "get", None))
      && Filter(s, Query(b, "post", None)) == [s[1]] == FirstMatch(s, Query(b, "post", None))
      && Filter(s, Query(c, "put", None)) == [s[2]] == FirstMatch(s, Query(c, "put", None))
      && Filter(s, Query(d, "delete", None)) == [s[3]] == FirstMatch(s, Query(d, "delete", None))
  {
    var s := FourRoutes(t, a, b, c, d);
    var qs := [Query(a, "get", None), Query(b, "post", None), Query(c, "put", None), Query(d, "delete", None)];
    FourMatch(t, a, b, c, d);
    DistinctVerbs(s, qs);
    assert qs[0] == Query(a, "get", None) && qs[1] == Query(b, "post", None);
    assert qs[2] == Query(c, "put", None) && qs[3] == Query(d, "delete", None);
  }

  /** The tests' names satisfy what `MatchByPattern` asks of them, so each
      of `users`, `cubs`, `dogs` and `cats` gets exactly its own route. */
  lemma TestNamesArePlain()
    ensures PlainPattern("users") && ColonFree("users")
    ensures PlainPattern("cubs") && ColonFree("cubs")
    ensures PlainPattern("dogs") && ColonFree("dogs")
    ensures PlainPattern("cats") && ColonFree("cats")
  {
  }

  lemma MatchTestRoutes(t: Table, a: string, b: string, c: string, d: string)
    requires a == "users" && b == "cubs" && c == "dogs" && d == "cats"
    ensures PlainPattern(a) && PlainPattern(b) && PlainPattern(c) && PlainPattern(d)
    ensures var s := FourRoutes(t, a, b, c, d);
      && |Filter(s, Query(a, "get", None))| == 1 && |FirstMatch(s, Query(a, "get", None))| == 1
      && |Filter(s, Query(b, "post", None))| == 1 && |FirstMatch(s, Query(b, "post", None))| == 1
      && |Filter(s, Query(c, "put", None))| == 1 && |FirstMatch(s, Query(c, "put", None))| == 1
      && |Filter(s, Query(d, "delete", None))| == 1 && |FirstMatch(s, Query(d, "delete", None))| == 1
  {
    TestNamesArePlain();
    MatchByPattern(t, a, b, c, d);
  }

  /** A URL and verb no route has give an empty answer. */
  lemma NoMatchIsEmpty(t: Table, p: string, url: string)
    requires p == "cats" && url == "ljsdfljsdf"
    ensures PlainPattern(p)
    ensures var s := Delete(Clear(t), Modular, Str(p), Func(0), None);
      && s.Success?
      && Filter(s.value, Query(url, "get", None)) == []
      && FirstMatch(s.value, Query(url, "get", None)) == []
  {
    TestNamesArePlain();
    OtherVerbEmpty(t, p, Query(url, "get", None));
  }

  /** A table holding one `delete` route answers a query for another verb
      with nothing. */
  lemma OtherVerbEmpty(t: Table, p: string, q: Query)
    requires PlainPattern(p) && q.verb != "delete"
    ensures var s := Delete(Clear(t), Modular, Str(p), Func(0), None);
      && s.Success?
      && Filter(s.value, q) == []
      && FirstMatch(s.value, q) == []
  {
    var s := Delete(Clear(t), Modular, Str(p), Func(0), None).value;
    assert |s| == 1 && s[0].verb == "delete";
    FilterNone(s, q);
  }
}
