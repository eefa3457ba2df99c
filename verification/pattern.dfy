/** The pattern compiler and the matcher of a route.

    A route pattern such as `users/:id` is compiled into a list of tokens: a
    literal character, or one of the five colon placeholders. A URL is tested
    against the tokens the way `RegExp.prototype.test` tests it against the
    regular expression the route builds (`RegexSource` shows that the two
    texts agree): the regular expression carries no `^`, so some substring of
    the URL has to be matched, and the bundled build adds `\/?$`, which pins
    the end of the match to the end of the URL, up to one trailing `/`. */
module Pattern {
  import opened Ascii

  datatype Token =
    | Lit(c: char)   // a pattern character copied into the expression
    | Any            // `:any`            becomes `(.*)`
    | Digits         // `:id`             becomes `([0-9]+)`
    | AlphaNum       // `:alphanum`       becomes `([a-z0-9\-]+)`
    | Alpha          // `:alpha`          becomes `([a-z\-]+)`
    | Segment        // `:` before a `/`  becomes `([^/]+)`

  /** Which end of the URL the compiled expression is tied to. */
  datatype Anchoring =
    | Unanchored     // src/Route.js and the legacy build: `new RegExp(pattern)`
    | EndAnchored    // pjax-router.js: `new RegExp(pattern + '\\/?$')`

  /** `.` of a JavaScript regular expression stops at these. */
  predicate IsLineTerminator(c: char) {
    c == '\n' || c == '\r' || c == '\U{2028}' || c == '\U{2029}'
  }

  /** The characters one repetition of `t` consumes; for a literal, its own
      character. No flag is given to the built expression, so the letter
      classes take lower-case letters only. */
  predicate InClass(t: Token, c: char) {
    match t
    case Lit(d) => c == d
    case Any => !IsLineTerminator(c)
    case Digits => IsDigit(c)
    case AlphaNum => IsLower(c) || IsDigit(c) || c == '-'
    case Alpha => IsLower(c) || c == '-'
    case Segment => c != '/'
  }

  predicate AllIn(t: Token, w: string) {
    forall i | 0 <= i < |w| :: InClass(t, w[i])
  }

  /** The language of one token, stated on its own: a literal is its character,
      `:any` is `*` over its class, every other placeholder is `+`. */
  ghost predicate TokenAccepts(t: Token, w: string) {
    match t
    case Lit(c) => w == [c]
    case Any => AllIn(t, w)
    case _ => |w| >= 1 && AllIn(t, w)
  }

  /** The token list of a pattern without placeholders. */
  function Lits(p: string): (toks: seq<Token>)
    ensures |toks| == |p|
    ensures forall i | 0 <= i < |p| :: toks[i] == Lit(p[i])
  {
    if |p| == 0 then [] else [Lit(p[0])] + Lits(p[1..])
  }

  /** The pattern compiler. Each colon is looked at once, left to right: the
      first placeholder name (case-insensitive) that follows it wins, in the
      order any, id, alphanum, alpha; failing those a colon directly before a
      `/` is a segment; any other colon stays a literal character. */
  function Compile(p: string): seq<Token>
    decreases |p|
  {
    if |p| == 0 then []
    else if p[0] != ':' then [Lit(p[0])] + Compile(p[1..])
    else if StartsWithCI(p[1..], "any") then [Any] + Compile(p[4..])
    else if StartsWithCI(p[1..], "id") then [Digits] + Compile(p[3..])
    else if StartsWithCI(p[1..], "alphanum") then [AlphaNum] + Compile(p[9..])
    else if StartsWithCI(p[1..], "alpha") then [Alpha] + Compile(p[6..])
    else if |p| > 1 && p[1] == '/' then [Segment] + Compile(p[1..])
    else [Lit(':')] + Compile(p[1..])
  }

  /** Whether the whole of `s` is matched by `toks`: the computable matcher. */
  function Accepts(toks: seq<Token>, s: string): bool
    decreases |toks|, |s|, 1
  {
    if |toks| == 0 then |s| == 0
    else match toks[0]
      case Lit(c) => |s| > 0 && s[0] == c && Accepts(toks[1..], s[1..])
      case Any => RunThen(Any, toks[1..], s)
      case _ => |s| > 0 && InClass(toks[0], s[0]) && RunThen(toks[0], toks[1..], s[1..])
  }

  /** Some prefix of `s` is a run of `t`'s class and `rest` matches the remainder. */
  function RunThen(t: Token, rest: seq<Token>, s: string): bool
    decreases |rest| + 1, |s|, 0
  {
    Accepts(rest, s) || (|s| > 0 && InClass(t, s[0]) && RunThen(t, rest, s[1..]))
  }

  /** `RegExp.prototype.test` of the compiled expression. */
  predicate Test(a: Anchoring, toks: seq<Token>, url: string) {
    match a
    case Unanchored =>
      exists i, j | 0 <= i <= j <= |url| :: Accepts(toks, url[i..j])
    case EndAnchored =>
      exists i | 0 <= i <= |url| :: MatchesToEnd(toks, url, i)
  }

  /** `\/?$`: from index `i`, the tokens match the rest of the URL, or all of it
      but a final `/`. */
  predicate MatchesToEnd(toks: seq<Token>, url: string, i: nat)
    requires i <= |url|
  {
    || Accepts(toks, url[i..])
    || (i < |url| && url[|url| - 1] == '/' && Accepts(toks, url[i..|url| - 1]))
  }

  // ---------------------------------------------------------------------------
  // The language of a token list, stated as a parse

  function Flatten(parts: seq<string>): string {
    if |parts| == 0 then [] else parts[0] + Flatten(parts[1..])
  }

  /** `parts` cuts `s` into one piece per token, each in that token's language. */
  ghost predicate IsParse(toks: seq<Token>, parts: seq<string>, s: string) {
    && |parts| == |toks|
    && Flatten(parts) == s
    && forall i | 0 <= i < |toks| :: TokenAccepts(toks[i], parts[i])
  }

  ghost predicate Derives(toks: seq<Token>, s: string) {
    exists parts :: IsParse(toks, parts, s)
  }

  lemma RunThenIff(t: Token, rest: seq<Token>, s: string)
    ensures RunThen(t, rest, s) <==>
      exists k | 0 <= k <= |s| :: AllIn(t, s[..k]) && Accepts(rest, s[k..])
  {
    if RunThen(t, rest, s) {
      RunThenSplits(t, rest, s);
    }
    if exists k | 0 <= k <= |s| :: AllIn(t, s[..k]) && Accepts(rest, s[k..]) {
      var k :| 0 <= k <= |s| && AllIn(t, s[..k]) && Accepts(rest, s[k..]);
      RunThenFrom(t, rest, s, k);
    }
  }

  /** A run followed by a match of the rest splits at some point. */
  lemma {:induction false} RunThenSplits(t: Token, rest: seq<Token>, s: string)
    requires RunThen(t, rest, s)
    ensures exists k | 0 <= k <= |s| :: AllIn(t, s[..k]) && Accepts(rest, s[k..])
    decreases |s|
  {
    if Accepts(rest, s) {
      assert AllIn(t, s[..0]) && s[0..] == s;
    } else {
      RunThenSplits(t, rest, s[1..]);
      var k :| 0 <= k <= |s[1..]| && AllIn(t, s[1..][..k]) && Accepts(rest, s[1..][k..]);
      assert s[..k + 1] == [s[0]] + s[1..][..k];
      assert s[k + 1..] == s[1..][k..];
      assert AllIn(t, s[..k + 1]);
    }
  }

  /** A split into a run of the class and a match of the rest is found. */
  lemma {:induction false} RunThenFrom(t: Token, rest: seq<Token>, s: string, k: int)
    requires 0 <= k <= |s| && AllIn(t, s[..k]) && Accepts(rest, s[k..])
    ensures RunThen(t, rest, s)
    decreases k
  {
    if k == 0 {
      assert s[k..] == s;
    } else {
      assert s[..k][0] == s[0];
      assert s[1..][..k - 1] == s[1..k];
      assert AllIn(t, s[1..][..k - 1]);
      assert s[1..][k - 1..] == s[k..];
      RunThenFrom(t, rest, s[1..], k - 1);
    }
  }

  lemma StepLit(c: char, rest: seq<Token>, s: string)
    ensures Accepts([Lit(c)] + rest, s) <==>
      exists k | 0 <= k <= |s| :: TokenAccepts(Lit(c), s[..k]) && Accepts(rest, s[k..])
  {
    var toks := [Lit(c)] + rest;
    assert toks[0] == Lit(c) && toks[1..] == rest;
    if Accepts(toks, s) {
      assert s[..1] == [c] && TokenAccepts(Lit(c), s[..1]);
    }
    if exists k | 0 <= k <= |s| :: TokenAccepts(Lit(c), s[..k]) && Accepts(rest, s[k..]) {
      var k :| 0 <= k <= |s| && TokenAccepts(Lit(c), s[..k]) && Accepts(rest, s[k..]);
      assert |s[..k]| == 1;
      assert s[0] == s[..k][0];
    }
  }

  lemma StepRun(t: Token, rest: seq<Token>, s: string)
    requires !t.Lit? && !t.Any?
    ensures Accepts([t] + rest, s) <==>
      exists k | 0 <= k <= |s| :: TokenAccepts(t, s[..k]) && Accepts(rest, s[k..])
  {
    var toks := [t] + rest;
    assert toks[0] == t && toks[1..] == rest;
    if Accepts(toks, s) {
      StepRunSplits(t, rest, s);
    }
    if exists k | 0 <= k <= |s| :: TokenAccepts(t, s[..k]) && Accepts(rest, s[k..]) {
      var k :| 0 <= k <= |s| && TokenAccepts(t, s[..k]) && Accepts(rest, s[k..]);
      StepRunFrom(t, rest, s, k);
    }
  }

  lemma StepRunSplits(t: Token, rest: seq<Token>, s: string)
    requires !t.Lit? && !t.Any?
    requires |s| > 0 && InClass(t, s[0]) && RunThen(t, rest, s[1..])
    ensures exists k | 0 <= k <= |s| :: TokenAccepts(t, s[..k]) && Accepts(rest, s[k..])
  {
    RunThenSplits(t, rest, s[1..]);
    var k :| 0 <= k <= |s[1..]| && AllIn(t, s[1..][..k]) && Accepts(rest, s[1..][k..]);
    assert s[..k + 1] == [s[0]] + s[1..][..k];
    assert s[k + 1..] == s[1..][k..];
    assert TokenAccepts(t, s[..k + 1]);
  }

  lemma StepRunFrom(t: Token, rest: seq<Token>, s: string, k: int)
    requires !t.Lit? && !t.Any?
    requires 0 <= k <= |s| && TokenAccepts(t, s[..k]) && Accepts(rest, s[k..])
    ensures |s| > 0 && InClass(t, s[0]) && RunThen(t, rest, s[1..])
  {
    assert s[..k][0] == s[0];
    assert s[1..][..k - 1] == s[1..k];
    assert AllIn(t, s[1..][..k - 1]);
    assert s[1..][k - 1..] == s[k..];
    RunThenFrom(t, rest, s[1..], k - 1);
  }

  /** Matching a non-empty token list is matching its first token against some
      prefix and the other tokens against the rest. */
  lemma AcceptsStep(toks: seq<Token>, s: string)
    requires |toks| > 0
    ensures Accepts(toks, s) <==>
      exists k | 0 <= k <= |s| :: TokenAccepts(toks[0], s[..k]) && Accepts(toks[1..], s[k..])
  {
    assert toks == [toks[0]] + toks[1..];
    match toks[0]
    case Lit(c) => StepLit(c, toks[1..], s);
    case Any => RunThenIff(Any, toks[1..], s);
    case _ => StepRun(toks[0], toks[1..], s);
  }

  /** The computable matcher agrees with the parse-based definition of the
      language, in both directions. */
  lemma {:induction false} AcceptsIffDerives(toks: seq<Token>, s: string)
    ensures Accepts(toks, s) <==> Derives(toks, s)
    decreases |toks|
  {
    if |toks| == 0 {
      if Accepts(toks, s) {
        assert IsParse(toks, [], s);
      }
      if Derives(toks, s) {
        var parts :| IsParse(toks, parts, s);
        assert parts == [];
      }
    } else {
      AcceptsStep(toks, s);
      if Accepts(toks, s) {
        var k :| 0 <= k <= |s| && TokenAccepts(toks[0], s[..k]) && Accepts(toks[1..], s[k..]);
        AcceptsIffDerives(toks[1..], s[k..]);
        var rest :| IsParse(toks[1..], rest, s[k..]);
        var parts := [s[..k]] + rest;
        assert parts[1..] == rest;
        assert Flatten(parts) == s[..k] + s[k..] == s;
        forall i | 0 <= i < |toks|
          ensures TokenAccepts(toks[i], parts[i])
        {
          if i > 0 {
            assert toks[i] == toks[1..][i - 1];
          }
        }
        assert IsParse(toks, parts, s);
      }
      if Derives(toks, s) {
        var parts :| IsParse(toks, parts, s);
        var k := |parts[0]|;
        assert s == parts[0] + Flatten(parts[1..]);
        assert s[..k] == parts[0];
        assert s[k..] == Flatten(parts[1..]);
        forall i | 0 <= i < |toks| - 1
          ensures TokenAccepts(toks[1..][i], parts[1..][i])
        {
          assert toks[1..][i] == toks[i + 1];
        }
        assert IsParse(toks[1..], parts[1..], s[k..]);
        AcceptsIffDerives(toks[1..], s[k..]);
        assert TokenAccepts(toks[0], s[..k]);
      }
    }
  }

  lemma {:induction false} FlattenAppend(p: seq<string>, q: seq<string>)
    ensures Flatten(p + q) == Flatten(p) + Flatten(q)
    decreases |p|
  {
    if |p| == 0 {
      assert p + q == q;
    } else {
      assert (p + q)[1..] == p[1..] + q;
      FlattenAppend(p[1..], q);
    }
  }

  lemma ParseSplit(a: seq<Token>, b: seq<Token>, parts: seq<string>, s: string)
    requires IsParse(a + b, parts, s)
    ensures IsParse(a, parts[..|a|], Flatten(parts[..|a|]))
    ensures IsParse(b, parts[|a|..], Flatten(parts[|a|..]))
    ensures Flatten(parts[..|a|]) + Flatten(parts[|a|..]) == s
  {
    var p, q := parts[..|a|], parts[|a|..];
    assert parts == p + q;
    FlattenAppend(p, q);
    forall i | 0 <= i < |a|
      ensures TokenAccepts(a[i], p[i])
    {
      assert (a + b)[i] == a[i];
    }
    forall i | 0 <= i < |b|
      ensures TokenAccepts(b[i], q[i])
    {
      assert (a + b)[|a| + i] == b[i];
    }
  }

  lemma ConcatSplit(a: seq<Token>, b: seq<Token>, s: string)
    requires Accepts(a + b, s)
    ensures exists k | 0 <= k <= |s| :: Accepts(a, s[..k]) && Accepts(b, s[k..])
  {
    AcceptsIffDerives(a + b, s);
    var parts :| IsParse(a + b, parts, s);
    ParseSplit(a, b, parts, s);
    var x, y := Flatten(parts[..|a|]), Flatten(parts[|a|..]);
    var k := |x|;
    assert s[..k] == x && s[k..] == y;
    AcceptsIffDerives(a, x);
    AcceptsIffDerives(b, y);
  }

  lemma ConcatJoin(a: seq<Token>, b: seq<Token>, s: string, k: nat)
    requires k <= |s| && Accepts(a, s[..k]) && Accepts(b, s[k..])
    ensures Accepts(a + b, s)
  {
    AcceptsIffDerives(a, s[..k]);
    AcceptsIffDerives(b, s[k..]);
    var p :| IsParse(a, p, s[..k]);
    var q :| IsParse(b, q, s[k..]);
    FlattenAppend(p, q);
    assert Flatten(p + q) == s[..k] + s[k..] == s;
    forall i | 0 <= i < |a + b|
      ensures TokenAccepts((a + b)[i], (p + q)[i])
    {
      if i < |a| {
        assert (a + b)[i] == a[i] && (p + q)[i] == p[i];
      } else {
        assert (a + b)[i] == b[i - |a|] && (p + q)[i] == q[i - |a|];
      }
    }
    assert IsParse(a + b, p + q, s);
    AcceptsIffDerives(a + b, s);
  }

  /** Matching a concatenation of token lists is matching each against one of
      two consecutive pieces of the input. */
  lemma AcceptsConcat(a: seq<Token>, b: seq<Token>, s: string)
    ensures Accepts(a + b, s) <==>
      exists k | 0 <= k <= |s| :: Accepts(a, s[..k]) && Accepts(b, s[k..])
  {
    if Accepts(a + b, s) {
      ConcatSplit(a, b, s);
    }
    if exists k | 0 <= k <= |s| :: Accepts(a, s[..k]) && Accepts(b, s[k..]) {
      var k :| 0 <= k <= |s| && Accepts(a, s[..k]) && Accepts(b, s[k..]);
      ConcatJoin(a, b, s, k);
    }
  }

  /** A run of literal tokens matches exactly its own text. */
  lemma {:induction false} AcceptsLits(p: string, rest: seq<Token>, w: string)
    ensures Accepts(Lits(p) + rest, w) <==>
      |p| <= |w| && w[..|p|] == p && Accepts(rest, w[|p|..])
    decreases |p|
  {
    if |p| == 0 {
      assert Lits(p) + rest == rest;
      assert w[..0] == p && w[0..] == w;
    } else {
      var toks := Lits(p) + rest;
      assert toks[0] == Lit(p[0]);
      assert toks[1..] == Lits(p[1..]) + rest;
      if |w| > 0 {
        assert Accepts(toks, w) == (w[0] == p[0] && Accepts(toks[1..], w[1..]));
        AcceptsLits(p[1..], rest, w[1..]);
        if |p| <= |w| {
          assert w[1..][|p| - 1..] == w[|p|..];
          assert w[..|p|] == [w[0]] + w[1..][..|p| - 1];
          assert w[1..][..|p| - 1] == w[..|p|][1..];
          assert p == [p[0]] + p[1..];
        }
      }
    }
  }

  /** A placeholder-free pattern accepts exactly its own text. */
  lemma AcceptsOwnText(p: string, w: string)
    ensures Accepts(Lits(p), w) <==> w == p
  {
    AcceptsLits(p, [], w);
    assert Lits(p) + [] == Lits(p);
    if |p| <= |w| && w[..|p|] == p && Accepts([], w[|p|..]) {
      assert w == w[..|p|] + w[|p|..];
    }
  }

  /** A single token accepts exactly its own language. */
  lemma AcceptsSingle(t: Token, w: string)
    ensures Accepts([t], w) <==> TokenAccepts(t, w)
  {
    AcceptsStep([t], w);
    assert [t][1..] == [];
    if TokenAccepts(t, w) {
      assert w[..|w|] == w && w[|w|..] == [];
    }
  }

  // ---------------------------------------------------------------------------
  // The compiler

  /** A pattern without a colon compiles to its own text. */
  lemma {:induction false} CompileColonFree(p: string)
    requires forall i | 0 <= i < |p| :: p[i] != ':'
    ensures Compile(p) == Lits(p)
    decreases |p|
  {
    if |p| > 0 {
      CompileColonFree(p[1..]);
    }
  }

  /** Colon-free text in front of a pattern compiles on its own. */
  lemma {:induction false} CompileAfterText(u: string, q: string)
    requires forall i | 0 <= i < |u| :: u[i] != ':'
    ensures Compile(u + q) == Lits(u) + Compile(q)
    decreases |u|
  {
    if |u| == 0 {
      assert u + q == q;
    } else {
      assert (u + q)[0] == u[0] && (u + q)[1..] == u[1..] + q;
      CompileAfterText(u[1..], q);
    }
  }

  /** How each placeholder is recognised: `:alphanum` is taken whole before
      `:alpha` is tried, and `:alpha` needs no `num` after it; a bare colon
      becomes a segment only directly before a `/`. */
  lemma CompilePlaceholders(q: string)
    ensures Compile(":any" + q) == [Any] + Compile(q)
    ensures Compile(":id" + q) == [Digits] + Compile(q)
    ensures Compile(":alphanum" + q) == [AlphaNum] + Compile(q)
    ensures !StartsWithCI(q, "num") ==> Compile(":alpha" + q) == [Alpha] + Compile(q)
    ensures Compile(":/" + q) == [Segment] + Compile("/" + q)
  {
    CompileAnyId(q);
    CompileAlphaNum(q);
    CompileAlpha(q);
    CompileSegment(q);
  }

  lemma CompileAnyId(q: string)
    ensures Compile(":any" + q) == [Any] + Compile(q)
    ensures Compile(":id" + q) == [Digits] + Compile(q)
  {
    assert (":any" + q)[1..] == "any" + q && (":any" + q)[4..] == q;
    assert (":id" + q)[1..] == "id" + q && (":id" + q)[3..] == q;
    assert ("id" + q)[0] == 'i';
  }

  /** The replace passes carry the `i` flag, so placeholder names are
      recognised in any case. */
  lemma CompileUpperId(q: string)
    ensures Compile(":ID" + q) == [Digits] + Compile(q)
  {
    var d := ":ID" + q;
    assert d[1..] == "ID" + q && d[3..] == q;
    assert !StartsWithCI(d[1..], "any") by {
      assert LowerChar(d[1..][0]) == 'i';
    }
    assert StartsWithCI(d[1..], "id") by {
      assert LowerChar(d[1..][0]) == 'i' && LowerChar(d[1..][1]) == 'd';
    }
  }

  lemma CompileMixedAny(q: string)
    ensures Compile(":Any" + q) == [Any] + Compile(q)
  {
    var a := ":Any" + q;
    assert a[1..] == "Any" + q && a[4..] == q;
    assert StartsWithCI(a[1..], "any") by {
      assert LowerChar(a[1..][0]) == 'a';
    }
  }

  lemma CompileAlphaNum(q: string)
    ensures Compile(":alphanum" + q) == [AlphaNum] + Compile(q)
  {
    var p := ":alphanum" + q;
    assert p[1..] == "alphanum" + q && p[9..] == q;
    assert p[1..][0] == 'a' && p[1..][1] == 'l';
  }

  lemma CompileAlpha(q: string)
    ensures !StartsWithCI(q, "num") ==> Compile(":alpha" + q) == [Alpha] + Compile(q)
  {
    var p := ":alpha" + q;
    assert p[1..] == "alpha" + q && p[6..] == q;
    assert p[1..][0] == 'a' && p[1..][1] == 'l';
    AlphaNumTail(q);
  }

  /** `alpha` followed by `q` spells `alphanum` only when `q` spells `num`. */
  lemma AlphaNumTail(q: string)
    ensures StartsWithCI("alpha" + q, "alphanum") ==> StartsWithCI(q, "num")
  {
    var s := "alpha" + q;
    if StartsWithCI(s, "alphanum") {
      forall i | 0 <= i < 3
        ensures LowerChar(q[i]) == "num"[i]
      {
        assert q[i] == s[5 + i];
        assert LowerChar(s[5 + i]) == "alphanum"[5 + i];
      }
    }
  }

  lemma CompileSegment(q: string)
    ensures Compile(":/" + q) == [Segment] + Compile("/" + q)
  {
    var p := ":/" + q;
    assert p[1..] == "/" + q && p[1..][0] == '/';
  }

  // ---------------------------------------------------------------------------
  // The matcher

  /** Acceptance is a substring search: a URL that contains an accepted URL is
      accepted. */
  lemma UnanchoredWiden(toks: seq<Token>, u: string, x: string, y: string)
    requires Test(Unanchored, toks, u)
    ensures Test(Unanchored, toks, x + u + y)
  {
    var i, j :| 0 <= i <= j <= |u| && Accepts(toks, u[i..j]);
    var url := x + u + y;
    assert url[|x| + i..|x| + j] == u[i..j];
  }

  /** `p` occurs in `s` at index `i`. */
  predicate OccursAt(s: string, p: string, i: int) {
    0 <= i && i + |p| <= |s| && s[i..i + |p|] == p
  }

  /** A placeholder-free pattern is accepted exactly by the URLs containing it. */
  lemma UnanchoredColonFree(p: string, url: string)
    requires forall i | 0 <= i < |p| :: p[i] != ':'
    ensures Test(Unanchored, Compile(p), url) <==> exists i :: OccursAt(url, p, i)
  {
    CompileColonFree(p);
    if Test(Unanchored, Compile(p), url) {
      var i, j :| 0 <= i <= j <= |url| && Accepts(Lits(p), url[i..j]);
      AcceptsOwnText(p, url[i..j]);
      assert OccursAt(url, p, i);
    }
    if exists i :: OccursAt(url, p, i) {
      var i :| OccursAt(url, p, i);
      AcceptsOwnText(p, url[i..i + |p|]);
    }
  }

  /** The end-anchored expression has no `^`: text in front of an accepted
      URL does not matter. */
  lemma EndAnchoredWiden(toks: seq<Token>, u: string, x: string)
    requires Test(EndAnchored, toks, u)
    ensures Test(EndAnchored, toks, x + u)
  {
    var i :| 0 <= i <= |u| && MatchesToEnd(toks, u, i);
    MatchesToEndShift(toks, u, x, i);
  }

  lemma MatchesToEndShift(toks: seq<Token>, u: string, x: string, i: nat)
    requires i <= |u| && MatchesToEnd(toks, u, i)
    ensures MatchesToEnd(toks, x + u, |x| + i)
  {
    var url := x + u;
    if Accepts(toks, u[i..]) {
      assert url[|x| + i..] == u[i..];
    } else {
      assert url[|url| - 1] == u[|u| - 1];
      assert url[|x| + i..|url| - 1] == u[i..|u| - 1];
    }
  }

  /** The end-anchored expression accepts a matched text at the end of the URL,
      with or without one trailing `/`. */
  lemma EndAnchoredTrailingSlash(toks: seq<Token>, w: string, x: string)
    requires Accepts(toks, w)
    ensures Test(EndAnchored, toks, x + w)
    ensures Test(EndAnchored, toks, x + w + "/")
  {
    var u := x + w;
    assert u[|x|..] == w;
    assert MatchesToEnd(toks, u, |x|);
    var v := x + w + "/";
    assert v[|v| - 1] == '/';
    assert v[|x|..|v| - 1] == w;
    assert MatchesToEnd(toks, v, |x|);
  }

  /** Every URL the end-anchored expression accepts is accepted without the anchor. */
  lemma EndAnchoredImpliesUnanchored(toks: seq<Token>, url: string)
    requires Test(EndAnchored, toks, url)
    ensures Test(Unanchored, toks, url)
  {
    var i :| 0 <= i <= |url| && MatchesToEnd(toks, url, i);
    if Accepts(toks, url[i..]) {
      assert url[i..] == url[i..|url|];
      assert Accepts(toks, url[i..|url|]);
    } else {
      assert Accepts(toks, url[i..|url| - 1]);
    }
  }

  /** A URL accepted by a token list is accepted by every infix of the list. */
  lemma UnanchoredInfix(a: seq<Token>, b: seq<Token>, c: seq<Token>, url: string)
    requires Test(Unanchored, a + b + c, url)
    ensures Test(Unanchored, b, url)
  {
    var i, j :| 0 <= i <= j <= |url| && Accepts(a + b + c, url[i..j]);
    var w := url[i..j];
    ConcatSplit(a + b, c, w);
    var k1 :| 0 <= k1 <= |w| && Accepts(a + b, w[..k1]) && Accepts(c, w[k1..]);
    ConcatSplit(a, b, w[..k1]);
    var k0 :| 0 <= k0 <= k1 && Accepts(a, w[..k1][..k0]) && Accepts(b, w[..k1][k0..]);
    assert w[..k1] == url[i..i + k1];
    assert w[..k1][k0..] == url[i + k0..i + k1];
    assert Accepts(b, url[i + k0..i + k1]);
  }

  /** A URL accepted by the end-anchored expression is accepted by every suffix
      of the token list. */
  lemma EndAnchoredSuffix(a: seq<Token>, b: seq<Token>, url: string)
    requires Test(EndAnchored, a + b, url)
    ensures Test(EndAnchored, b, url)
  {
    var i :| 0 <= i <= |url| && MatchesToEnd(a + b, url, i);
    if Accepts(a + b, url[i..]) {
      ConcatSplit(a, b, url[i..]);
      var k :| 0 <= k <= |url[i..]| && Accepts(a, url[i..][..k]) && Accepts(b, url[i..][k..]);
      assert url[i..][k..] == url[i + k..];
      assert MatchesToEnd(b, url, i + k);
    } else {
      var w := url[i..|url| - 1];
      ConcatSplit(a, b, w);
      var k :| 0 <= k <= |w| && Accepts(a, w[..k]) && Accepts(b, w[k..]);
      assert w[k..] == url[i + k..|url| - 1];
      assert MatchesToEnd(b, url, i + k);
    }
  }

  // ---------------------------------------------------------------------------
  // Reading off acceptance piece by piece

  lemma AcceptedFound(toks: seq<Token>, x: string, w: string, y: string)
    requires Accepts(toks, w)
    ensures Test(Unanchored, toks, x + w + y)
  {
    assert w[0..|w|] == w;
    UnanchoredWiden(toks, w, x, y);
  }

  /** A literal text followed by a match of the rest. */
  lemma LitsThen(p: string, rest: seq<Token>, x: string)
    requires Accepts(rest, x)
    ensures Accepts(Lits(p) + rest, p + x)
  {
    AcceptsLits(p, rest, p + x);
    assert (p + x)[..|p|] == p && (p + x)[|p|..] == x;
  }

  /** A non-empty run of a class followed by a match of the rest. */
  lemma ClassThen(t: Token, rest: seq<Token>, a: string, x: string)
    requires !t.Lit? && |a| >= 1 && AllIn(t, a) && Accepts(rest, x)
    ensures Accepts([t] + rest, a + x)
  {
    var w := a + x;
    AcceptsStep([t] + rest, w);
    assert ([t] + rest)[0] == t && ([t] + rest)[1..] == rest;
    assert w[..|a|] == a && w[|a|..] == x;
    assert TokenAccepts(t, w[..|a|]);
  }

  /** A text accepted by a literal followed by a class token starts with the
      literal, and the character after it is in the class. */
  lemma LitsThenClassHead(p: string, t: Token, rest: seq<Token>, w: string)
    requires !t.Lit? && !t.Any?
    requires Accepts(Lits(p) + [t] + rest, w)
    ensures |p| < |w| && w[..|p|] == p && InClass(t, w[|p|])
  {
    assert Lits(p) + [t] + rest == Lits(p) + ([t] + rest);
    AcceptsLits(p, [t] + rest, w);
    var v := w[|p|..];
    StepRun(t, rest, v);
  }

  /** The unanchored expression of a literal followed by a class token fails
      on a URL where every occurrence of the literal is followed by a
      character outside the class, or by nothing. */
  lemma RejectLitsThenClass(p: string, t: Token, rest: seq<Token>, url: string)
    requires !t.Lit? && !t.Any?
    requires forall i | OccursAt(url, p, i) && i + |p| < |url| :: !InClass(t, url[i + |p|])
    ensures !Test(Unanchored, Lits(p) + [t] + rest, url)
  {
    forall i, j | 0 <= i <= j <= |url|
      ensures !Accepts(Lits(p) + [t] + rest, url[i..j])
    {
      AcceptedSlice(p, t, rest, url, i, j);
    }
  }

  /** A slice accepted by a literal followed by a class token is an
      occurrence of the literal followed by a character of the class. */
  lemma AcceptedSlice(p: string, t: Token, rest: seq<Token>, url: string, i: int, j: int)
    requires !t.Lit? && !t.Any? && 0 <= i <= j <= |url|
    ensures Accepts(Lits(p) + [t] + rest, url[i..j]) ==>
      OccursAt(url, p, i) && i + |p| < |url| && InClass(t, url[i + |p|])
  {
    var w := url[i..j];
    if Accepts(Lits(p) + [t] + rest, w) {
      LitsThenClassHead(p, t, rest, w);
      assert url[i..i + |p|] == w[..|p|];
      assert url[i + |p|] == w[|p|];
    }
  }

  /** After every occurrence of `p` in `url`, the character at `bad` lies
      before the final one and outside the class of `t`. */
  ghost predicate BadAfterEach(url: string, p: string, t: Token, bad: int) {
    forall i | OccursAt(url, p, i) :: i + |p| <= bad < |url| - 1 && !InClass(t, url[bad])
  }

  /** The end-anchored expression of a literal followed by a class token fails
      on a URL where, after every occurrence of the literal, some character
      before the final one falls outside the class. */
  lemma RejectEndAnchoredLitsThenClass(p: string, t: Token, url: string, bad: int)
    requires !t.Lit? && !t.Any?
    requires BadAfterEach(url, p, t, bad)
    ensures !Test(EndAnchored, Lits(p) + [t], url)
  {
    var toks := Lits(p) + [t];
    forall i | 0 <= i <= |url|
      ensures !MatchesToEnd(toks, url, i)
    {
      EndRejectedAt(p, t, url, bad, i);
    }
  }

  lemma EndRejectedAt(p: string, t: Token, url: string, bad: int, i: int)
    requires !t.Lit? && !t.Any? && 0 <= i <= |url|
    requires BadAfterEach(url, p, t, bad)
    ensures !MatchesToEnd(Lits(p) + [t], url, i)
  {
    assert !Accepts(Lits(p) + [t], url[i..]) by {
      EndRejected(p, t, url, bad, i, |url|);
      assert url[i..] == url[i..|url|];
    }
    if i < |url| {
      EndRejected(p, t, url, bad, i, |url| - 1);
    }
  }

  lemma EndRejected(p: string, t: Token, url: string, bad: int, i: int, e: int)
    requires !t.Lit? && !t.Any? && 0 <= i <= e <= |url| && |url| - 1 <= e
    requires BadAfterEach(url, p, t, bad)
    ensures !Accepts(Lits(p) + [t], url[i..e])
  {
    var w := url[i..e];
    if Accepts(Lits(p) + [t], w) {
      LitsEnd(p, t, w);
      SliceOccurs(url, p, i, e);
      RunCovers(t, w[|p|..], bad - i - |p|);
    }
  }

  lemma SliceOccurs(url: string, p: string, i: int, e: int)
    requires 0 <= i <= e <= |url| && |p| <= e - i && url[i..e][..|p|] == p
    ensures OccursAt(url, p, i)
  {
    assert url[i..i + |p|] == url[i..e][..|p|];
  }

  lemma RunCovers(t: Token, v: string, k: int)
    requires 0 <= k < |v| && AllIn(t, v)
    ensures InClass(t, v[k])
  {
  }

  /** A text accepted by a literal followed by a class token is the literal
      and then a run of the class. */
  lemma LitsEnd(p: string, t: Token, w: string)
    requires !t.Lit? && !t.Any?
    requires Accepts(Lits(p) + [t], w)
    ensures |p| < |w| && w[..|p|] == p && AllIn(t, w[|p|..])
  {
    AcceptsLits(p, [t], w);
    AcceptsSingle(t, w[|p|..]);
  }

  // ---------------------------------------------------------------------------
  // Computable forms of the rejection conditions, for concrete URLs

  /** `p[k..]` occurs in `url` at `i + k`, compared one character at a time. */
  predicate PrefixFrom(url: string, p: string, i: nat, k: nat)
    decreases |p| - k
  {
    k >= |p| || (i + k < |url| && url[i + k] == p[k] && PrefixFrom(url, p, i, k + 1))
  }

  lemma {:induction false} PrefixFromOccurs(url: string, p: string, i: nat, k: nat)
    requires k <= |p| && i + |p| <= |url|
    requires url[i + k..i + |p|] == p[k..]
    ensures PrefixFrom(url, p, i, k)
    decreases |p| - k
  {
    if k < |p| {
      assert url[i + k] == url[i + k..i + |p|][0];
      assert url[i + k + 1..i + |p|] == url[i + k..i + |p|][1..];
      PrefixFromOccurs(url, p, i, k + 1);
    }
  }

  /** No occurrence of `p` at `i` or later is followed by a character of the
      class of `t`. */
  predicate NoClassAfterFrom(url: string, p: string, t: Token, i: nat)
    decreases |url| - i
  {
    i + |p| >= |url| ||
      ((PrefixFrom(url, p, i, 0) ==> !InClass(t, url[i + |p|])) && NoClassAfterFrom(url, p, t, i + 1))
  }

  lemma {:induction false} NoClassAfter(url: string, p: string, t: Token, i: nat)
    requires NoClassAfterFrom(url, p, t, i)
    ensures forall k | i <= k && OccursAt(url, p, k) && k + |p| < |url| :: !InClass(t, url[k + |p|])
    decreases |url| - i
  {
    if i + |p| < |url| {
      NoClassAfter(url, p, t, i + 1);
      if OccursAt(url, p, i) {
        PrefixFromOccurs(url, p, i, 0);
      }
    }
  }

  /** Every occurrence of `p` at `i` or later is followed, before the final
      character, by the character at `bad`, which lies outside the class. */
  predicate BadAfterFrom(url: string, p: string, t: Token, bad: int, i: nat)
    decreases |url| - i
  {
    i + |p| > |url| ||
      ((PrefixFrom(url, p, i, 0) ==> i + |p| <= bad < |url| - 1 && !InClass(t, url[bad]))
       && BadAfterFrom(url, p, t, bad, i + 1))
  }

  lemma {:induction false} BadAfter(url: string, p: string, t: Token, bad: int, i: nat)
    requires BadAfterFrom(url, p, t, bad, i)
    ensures forall k | i <= k && OccursAt(url, p, k) :: k + |p| <= bad < |url| - 1 && !InClass(t, url[bad])
    decreases |url| - i
  {
    if i + |p| <= |url| {
      BadAfter(url, p, t, bad, i + 1);
      if OccursAt(url, p, i) {
        PrefixFromOccurs(url, p, i, 0);
      }
    }
  }
}
