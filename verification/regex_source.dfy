/** The text of the regular expression a route builds, as the source writes
    it: five global, case-insensitive `String.prototype.replace` passes over the
    pattern, one per placeholder, in a fixed order. The main result is that the
    passes never interfere: their output is the rendering of `Pattern.Compile`,
    which looks at each colon once, left to right. */
module RegexSource {
  import opened Ascii
  import opened Pattern

  const AnySource: string := "(.*)"
  const DigitsSource: string := "([0-9]+)"
  const AlphaNumSource: string := "([a-z0-9\\-]+)"
  const AlphaSource: string := "([a-z\\-]+)"
  const SegmentSource: string := "([^/]+)"
  /** Appended by the bundled build: an optional `/`, then the end of input. */
  const EndAnchorSource: string := "\\/?$"

  /** The expression text one token stands for. */
  function Source(t: Token): string {
    match t
    case Lit(c) => [c]
    case Any => AnySource
    case Digits => DigitsSource
    case AlphaNum => AlphaNumSource
    case Alpha => AlphaSource
    case Segment => SegmentSource
  }

  function Render(toks: seq<Token>): string {
    if |toks| == 0 then [] else Source(toks[0]) + Render(toks[1..])
  }

  /** `s.replace(/:word/gi, repl)`: scanning left to right, every colon followed
      by `word` (in any case) is replaced, and the scan resumes after it. */
  function ReplaceWord(s: string, word: string, repl: string): string
    decreases |s|
  {
    if |s| == 0 then []
    else if s[0] == ':' && StartsWithCI(s[1..], word) then repl + ReplaceWord(s[1 + |word|..], word, repl)
    else [s[0]] + ReplaceWord(s[1..], word, repl)
  }

  /** `s.replace(/:(?=\/)+/gi, '([^/]+)')`: a colon directly before a `/` is
      replaced; the `/` itself is only looked at. */
  function ReplaceSegments(s: string): string
    decreases |s|
  {
    if |s| == 0 then []
    else if s[0] == ':' && |s| > 1 && s[1] == '/' then SegmentSource + ReplaceSegments(s[1..])
    else [s[0]] + ReplaceSegments(s[1..])
  }

  /** The four named placeholders, replaced in the order the source uses. */
  function ReplaceNamed(p: string): string {
    var a := ReplaceWord(p, "any", AnySource);
    var b := ReplaceWord(a, "id", DigitsSource);
    var c := ReplaceWord(b, "alphanum", AlphaNumSource);
    ReplaceWord(c, "alpha", AlphaSource)
  }

  /** `regexify` of src/Route.js and of the legacy build. */
  function Regexify(p: string): string {
    ReplaceSegments(ReplaceNamed(p))
  }

  /** `regexify` of the bundled build. */
  function RegexifyEndAnchored(p: string): string {
    Regexify(p) + EndAnchorSource
  }

  predicate ColonFree(u: string) {
    forall i | 0 <= i < |u| :: u[i] != ':'
  }

  // ---------------------------------------------------------------------------
  // How one pass treats text around a colon

  lemma {:induction false} ReplaceWordText(u: string, x: string, word: string, repl: string)
    requires ColonFree(u)
    ensures ReplaceWord(u + x, word, repl) == u + ReplaceWord(x, word, repl)
    decreases |u|
  {
    if |u| == 0 {
      assert u + x == x;
    } else {
      assert (u + x)[0] == u[0] && (u + x)[1..] == u[1..] + x;
      ReplaceWordText(u[1..], x, word, repl);
    }
  }

  lemma {:induction false} ReplaceSegmentsText(u: string, x: string)
    requires ColonFree(u)
    ensures ReplaceSegments(u + x) == u + ReplaceSegments(x)
    decreases |u|
  {
    if |u| == 0 {
      assert u + x == x;
    } else {
      assert (u + x)[0] == u[0] && (u + x)[1..] == u[1..] + x;
      ReplaceSegmentsText(u[1..], x);
    }
  }

  lemma ReplaceNamedText(u: string, x: string)
    requires ColonFree(u)
    ensures ReplaceNamed(u + x) == u + ReplaceNamed(x)
  {
    ReplaceWordText(u, x, "any", AnySource);
    var a := ReplaceWord(x, "any", AnySource);
    ReplaceWordText(u, a, "id", DigitsSource);
    var b := ReplaceWord(a, "id", DigitsSource);
    ReplaceWordText(u, b, "alphanum", AlphaNumSource);
    var c := ReplaceWord(b, "alphanum", AlphaNumSource);
    ReplaceWordText(u, c, "alpha", AlphaSource);
  }

  lemma StartsWithCICons(c: char, y: string, word: string)
    requires |word| > 0
    ensures StartsWithCI([c] + y, word) <==> LowerChar(c) == word[0] && StartsWithCI(y, word[1..])
  {
    var s := [c] + y;
    assert s[0] == c && s[1..] == y;
    if LowerChar(c) == word[0] && StartsWithCI(y, word[1..]) {
      forall i | 0 <= i < |word|
        ensures LowerChar(s[i]) == word[i]
      {
        if i > 0 {
          assert s[i] == y[i - 1] && word[i] == word[1..][i - 1];
        }
      }
    }
    if StartsWithCI(s, word) {
      forall i | 0 <= i < |word| - 1
        ensures LowerChar(y[i]) == word[1..][i]
      {
        assert y[i] == s[i + 1];
      }
    }
  }

  /** A pass never changes whether the text after a colon starts with a word of
      letters (or with `/`): it keeps every non-colon character and puts `:` or
      `(` where a colon was. */
  lemma {:induction false} ReplaceWordKeepsStart(x: string, word: string, repl: string, w: string)
    requires |repl| > 0 && repl[0] == '('
    requires forall i | 0 <= i < |w| :: w[i] != ':' && w[i] != '('
    ensures StartsWithCI(ReplaceWord(x, word, repl), w) <==> StartsWithCI(x, w)
    decreases |x|
  {
    var r := ReplaceWord(x, word, repl);
    if |w| == 0 || |x| == 0 {
    } else if x[0] == ':' {
      assert LowerChar(x[0]) != w[0];
      if StartsWithCI(x[1..], word) {
        assert r == repl + ReplaceWord(x[1 + |word|..], word, repl);
        assert r[0] == '(';
      } else {
        assert r[0] == ':';
      }
      assert LowerChar(r[0]) != w[0];
    } else {
      assert r == [x[0]] + ReplaceWord(x[1..], word, repl);
      assert x == [x[0]] + x[1..];
      StartsWithCICons(x[0], ReplaceWord(x[1..], word, repl), w);
      StartsWithCICons(x[0], x[1..], w);
      ReplaceWordKeepsStart(x[1..], word, repl, w[1..]);
    }
  }

  lemma ReplaceNamedKeepsStart(x: string, w: string)
    requires forall i | 0 <= i < |w| :: w[i] != ':' && w[i] != '('
    ensures StartsWithCI(ReplaceNamed(x), w) <==> StartsWithCI(x, w)
  {
    var a := ReplaceWord(x, "any", AnySource);
    var b := ReplaceWord(a, "id", DigitsSource);
    var c := ReplaceWord(b, "alphanum", AlphaNumSource);
    ReplaceWordKeepsStart(x, "any", AnySource, w);
    ReplaceWordKeepsStart(a, "id", DigitsSource, w);
    ReplaceWordKeepsStart(b, "alphanum", AlphaNumSource, w);
    ReplaceWordKeepsStart(c, "alpha", AlphaSource, w);
  }

  /** The first three passes leave a colon alone when their word does not
      follow it. */
  lemma ColonKept(x: string, word: string, repl: string)
    requires !StartsWithCI(x, word)
    ensures ReplaceWord(":" + x, word, repl) == ":" + ReplaceWord(x, word, repl)
  {
    assert (":" + x)[1..] == x;
  }

  lemma ColonReplaced(x: string, word: string, repl: string)
    requires StartsWithCI(x, word)
    ensures ReplaceWord(":" + x, word, repl) == repl + ReplaceWord(x[|word|..], word, repl)
  {
    assert (":" + x)[1..] == x && (":" + x)[1 + |word|..] == x[|word|..];
  }

  lemma StartsWithCIColonFree(x: string, word: string)
    requires StartsWithCI(x, word)
    requires forall i | 0 <= i < |word| :: word[i] != ':'
    ensures ColonFree(x[..|word|]) && x == x[..|word|] + x[|word|..]
  {
    forall i | 0 <= i < |word|
      ensures x[i] != ':'
    {
      assert LowerChar(x[i]) == word[i];
    }
  }

  // ---------------------------------------------------------------------------
  // The passes together compute the rendering of the left-to-right scan

  lemma RenderCons(t: Token, toks: seq<Token>)
    ensures Render([t] + toks) == Source(t) + Render(toks)
  {
    assert ([t] + toks)[0] == t && ([t] + toks)[1..] == toks;
  }

  /** Literal text renders as itself. */
  lemma {:induction false} RenderLits(p: string, rest: seq<Token>)
    ensures Render(Lits(p) + rest) == p + Render(rest)
    decreases |p|
  {
    if |p| > 0 {
      var q, tail := p[1..], Lits(p[1..]) + rest;
      assert Lits(p) == [Lit(p[0])] + Lits(q);
      assert Lits(p) + rest == [Lit(p[0])] + tail;
      RenderCons(Lit(p[0]), tail);
      assert Source(Lit(p[0])) == [p[0]];
      RenderLits(q, rest);
      assert p == [p[0]] + q;
    } else {
      assert Lits(p) == [];
      assert Lits(p) + rest == rest;
    }
  }

  /** `:any` is replaced by the first pass and then left alone. */
  lemma NamedAny(x: string)
    requires StartsWithCI(x, "any")
    ensures ReplaceNamed(":" + x) == AnySource + ReplaceNamed(x[3..])
  {
    ColonReplaced(x, "any", AnySource);
    var a := ReplaceWord(x[3..], "any", AnySource);
    ReplaceWordText(AnySource, a, "id", DigitsSource);
    var b := ReplaceWord(a, "id", DigitsSource);
    ReplaceWordText(AnySource, b, "alphanum", AlphaNumSource);
    var c := ReplaceWord(b, "alphanum", AlphaNumSource);
    ReplaceWordText(AnySource, c, "alpha", AlphaSource);
  }

  lemma NamedId(x: string)
    requires !StartsWithCI(x, "any") && StartsWithCI(x, "id")
    ensures ReplaceNamed(":" + x) == DigitsSource + ReplaceNamed(x[2..])
  {
    ColonKept(x, "any", AnySource);
    var a := ReplaceWord(x, "any", AnySource);
    ReplaceWordKeepsStart(x, "any", AnySource, "id");
    ColonReplaced(a, "id", DigitsSource);
    StartsWithCIColonFree(x, "id");
    ReplaceWordText(x[..2], x[2..], "any", AnySource);
    assert a[2..] == ReplaceWord(x[2..], "any", AnySource);
    var b := ReplaceWord(a[2..], "id", DigitsSource);
    ReplaceWordText(DigitsSource, b, "alphanum", AlphaNumSource);
    var c := ReplaceWord(b, "alphanum", AlphaNumSource);
    ReplaceWordText(DigitsSource, c, "alpha", AlphaSource);
  }

  lemma NamedAlphaNum(x: string)
    requires !StartsWithCI(x, "any") && !StartsWithCI(x, "id") && StartsWithCI(x, "alphanum")
    ensures ReplaceNamed(":" + x) == AlphaNumSource + ReplaceNamed(x[8..])
  {
    ColonKept(x, "any", AnySource);
    var a := ReplaceWord(x, "any", AnySource);
    ReplaceWordKeepsStart(x, "any", AnySource, "id");
    ColonKept(a, "id", DigitsSource);
    var b := ReplaceWord(a, "id", DigitsSource);
    ReplaceWordKeepsStart(x, "any", AnySource, "alphanum");
    ReplaceWordKeepsStart(a, "id", DigitsSource, "alphanum");
    ColonReplaced(b, "alphanum", AlphaNumSource);
    StartsWithCIColonFree(x, "alphanum");
    var u := x[..8];
    ReplaceWordText(u, x[8..], "any", AnySource);
    var a' := ReplaceWord(x[8..], "any", AnySource);
    ReplaceWordText(u, a', "id", DigitsSource);
    assert b[8..] == ReplaceWord(a', "id", DigitsSource);
    var c := ReplaceWord(b[8..], "alphanum", AlphaNumSource);
    ReplaceWordText(AlphaNumSource, c, "alpha", AlphaSource);
  }

  lemma NamedAlpha(x: string)
    requires !StartsWithCI(x, "any") && !StartsWithCI(x, "id") && !StartsWithCI(x, "alphanum")
    requires StartsWithCI(x, "alpha")
    ensures ReplaceNamed(":" + x) == AlphaSource + ReplaceNamed(x[5..])
  {
    ColonKept(x, "any", AnySource);
    var a := ReplaceWord(x, "any", AnySource);
    ReplaceWordKeepsStart(x, "any", AnySource, "id");
    ColonKept(a, "id", DigitsSource);
    var b := ReplaceWord(a, "id", DigitsSource);
    ReplaceWordKeepsStart(x, "any", AnySource, "alphanum");
    ReplaceWordKeepsStart(a, "id", DigitsSource, "alphanum");
    ColonKept(b, "alphanum", AlphaNumSource);
    var c := ReplaceWord(b, "alphanum", AlphaNumSource);
    ReplaceWordKeepsStart(x, "any", AnySource, "alpha");
    ReplaceWordKeepsStart(a, "id", DigitsSource, "alpha");
    ReplaceWordKeepsStart(b, "alphanum", AlphaNumSource, "alpha");
    ColonReplaced(c, "alpha", AlphaSource);
    StartsWithCIColonFree(x, "alpha");
    var u := x[..5];
    ReplaceWordText(u, x[5..], "any", AnySource);
    var a' := ReplaceWord(x[5..], "any", AnySource);
    ReplaceWordText(u, a', "id", DigitsSource);
    var b' := ReplaceWord(a', "id", DigitsSource);
    ReplaceWordText(u, b', "alphanum", AlphaNumSource);
    assert c[5..] == ReplaceWord(b', "alphanum", AlphaNumSource);
  }

  /** A colon followed by none of the four words survives the named passes. */
  lemma NamedColonKept(x: string)
    requires !StartsWithCI(x, "any") && !StartsWithCI(x, "id")
    requires !StartsWithCI(x, "alphanum") && !StartsWithCI(x, "alpha")
    ensures ReplaceNamed(":" + x) == ":" + ReplaceNamed(x)
  {
    ColonKept(x, "any", AnySource);
    var a := ReplaceWord(x, "any", AnySource);
    ReplaceWordKeepsStart(x, "any", AnySource, "id");
    ColonKept(a, "id", DigitsSource);
    var b := ReplaceWord(a, "id", DigitsSource);
    ReplaceWordKeepsStart(x, "any", AnySource, "alphanum");
    ReplaceWordKeepsStart(a, "id", DigitsSource, "alphanum");
    ColonKept(b, "alphanum", AlphaNumSource);
    var c := ReplaceWord(b, "alphanum", AlphaNumSource);
    ReplaceWordKeepsStart(x, "any", AnySource, "alpha");
    ReplaceWordKeepsStart(a, "id", DigitsSource, "alpha");
    ReplaceWordKeepsStart(b, "alphanum", AlphaNumSource, "alpha");
    ColonKept(c, "alpha", AlphaSource);
  }

  lemma SlashStart(y: string)
    ensures StartsWithCI(y, "/") <==> |y| > 0 && y[0] == '/'
  {
    if |y| > 0 {
      assert LowerChar(y[0]) == '/' <==> y[0] == '/';
    }
  }

  /** The five replace passes of the source build exactly the expression text of
      the scanned tokens, so no colon is rewritten twice or out of turn. */
  lemma {:induction false} RegexifyRendersCompile(p: string)
    ensures Regexify(p) == Render(Compile(p))
    decreases |p|
  {
    if |p| == 0 {
    } else if p[0] != ':' {
      var c := [p[0]];
      assert p == c + p[1..];
      ReplaceNamedText(c, p[1..]);
      ReplaceSegmentsText(c, ReplaceNamed(p[1..]));
      RegexifyRendersCompile(p[1..]);
      RenderCons(Lit(p[0]), Compile(p[1..]));
    } else {
      var x := p[1..];
      assert p == ":" + x;
      if StartsWithCI(x, "any") {
        NamedAny(x);
        ReplaceSegmentsText(AnySource, ReplaceNamed(x[3..]));
        assert x[3..] == p[4..];
        RegexifyRendersCompile(p[4..]);
        RenderCons(Any, Compile(p[4..]));
      } else if StartsWithCI(x, "id") {
        NamedId(x);
        ReplaceSegmentsText(DigitsSource, ReplaceNamed(x[2..]));
        assert x[2..] == p[3..];
        RegexifyRendersCompile(p[3..]);
        RenderCons(Digits, Compile(p[3..]));
      } else if StartsWithCI(x, "alphanum") {
        NamedAlphaNum(x);
        ReplaceSegmentsText(AlphaNumSource, ReplaceNamed(x[8..]));
        assert x[8..] == p[9..];
        RegexifyRendersCompile(p[9..]);
        RenderCons(AlphaNum, Compile(p[9..]));
      } else if StartsWithCI(x, "alpha") {
        NamedAlpha(x);
        ReplaceSegmentsText(AlphaSource, ReplaceNamed(x[5..]));
        assert x[5..] == p[6..];
        RegexifyRendersCompile(p[6..]);
        RenderCons(Alpha, Compile(p[6..]));
      } else {
        NamedColonKept(x);
        var n := ReplaceNamed(x);
        ReplaceNamedKeepsStart(x, "/");
        SlashStart(n);
        SlashStart(x);
        var s := ":" + n;
        assert s[0] == ':' && s[1..] == n;
        RegexifyRendersCompile(x);
        if |x| > 0 && x[0] == '/' {
          assert Regexify(p) == SegmentSource + Regexify(x);
          RenderCons(Segment, Compile(x));
        } else {
          assert Regexify(p) == ":" + Regexify(x);
          RenderCons(Lit(':'), Compile(x));
        }
      }
    }
  }

  /** A pattern without a colon is its own expression text. */
  lemma RegexifyColonFree(p: string)
    requires ColonFree(p)
    ensures Regexify(p) == p
  {
    ReplaceNamedText(p, []);
    ReplaceSegmentsText(p, []);
    assert p + [] == p;
  }
}
