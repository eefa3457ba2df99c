/** A single route: the constructor's argument checks, the default timing
    options, the compiled expression and the `matches` predicate. The three
    builds of the library share this logic and differ only in anchoring (the
    bundled build) or in having no timing at all (the legacy build). */
module Routes {
  import opened Results
  import opened Pattern
  import opened RegexSource

  /** The modules under `src`, the bundled `pjax-router.js`, the legacy `pjax-router.dev.js`. */
  datatype Flavour = Modular | Bundled | Legacy

  /** An argument as the constructor's `typeof` checks see it; a function is
      known only by an identity. */
  datatype Value = Str(s: string) | Func(id: nat) | Other

  /** The options object; `when` is absent when the caller left it out. */
  datatype Options = Options(when: Option<string>)

  /** Legacy routes carry no options and ignore timing. */
  datatype Timing = Untimed | Timed(options: Options)

  /** The built expression: its source text and what it means. */
  datatype Regex = Regex(source: string, toks: seq<Token>, anchoring: Anchoring)

  datatype Route = Route(pattern: string, regex: Regex, verb: string, handler: nat, timing: Timing)

  datatype RouteError = PatternNotString | MethodNotString | HandlerNotFunction

  /** The arguments of `matches(url, verb, when)`; `when` may be left out. */
  datatype Query = Query(url: string, verb: string, when: Option<string>)

  const DefaultOptions: Options := Options(Some("after"))

  /** `options || {when: 'after'}`: only a missing object is replaced. */
  function OrDefault(options: Option<Options>): Options {
    if options.Some? then options.value else DefaultOptions
  }

  function AnchoringOf(f: Flavour): Anchoring {
    if f == Bundled then EndAnchored else Unanchored
  }

  predicate IsMeta(c: char) {
    c in "\\^$.|?*+()[]{}"
  }

  /** Pattern text goes into the expression unescaped; the model covers the
      patterns whose literal text has no expression meaning. */
  predicate PlainPattern(p: string) {
    forall i | 0 <= i < |p| :: !IsMeta(p[i])
  }

  /** `regexify` followed by `new RegExp`: the source text is what the replace
      passes produce, and it spells out exactly the scanned tokens. */
  function Build(f: Flavour, p: string): (r: Regex)
    ensures r.toks == Compile(p) && r.anchoring == AnchoringOf(f)
    ensures r.source == Render(r.toks) + (if f == Bundled then EndAnchorSource else "")
  {
    RegexifyRendersCompile(p);
    Regex(if f == Bundled then RegexifyEndAnchored(p) else Regexify(p), Compile(p), AnchoringOf(f))
  }

  /** The constructor: argument checks in order, then the options default.
      `options || {when: 'after'}` replaces only a missing options object. */
  function New(f: Flavour, pattern: Value, verb: Value, handler: Value, options: Option<Options>): (r: Result<Route, RouteError>)
    requires pattern.Str? ==> PlainPattern(pattern.s)
    ensures r.Success? <==> pattern.Str? && verb.Str? && handler.Func?
    ensures !pattern.Str? ==> r == Failure(PatternNotString)
    ensures pattern.Str? && !verb.Str? ==> r == Failure(MethodNotString)
    ensures pattern.Str? && verb.Str? && !handler.Func? ==> r == Failure(HandlerNotFunction)
    ensures r.Success? ==>
      && r.value.pattern == pattern.s
      && r.value.verb == verb.s
      && r.value.handler == handler.id
      && r.value.regex.toks == Compile(pattern.s)
      && r.value.regex.anchoring == AnchoringOf(f)
    ensures r.Success? && f == Legacy ==> r.value.timing == Untimed
    ensures r.Success? && f != Legacy && options.Some? ==> r.value.timing == Timed(options.value)
    ensures r.Success? && f != Legacy && options.None? ==> r.value.timing == Timed(DefaultOptions)
  {
    if !pattern.Str? then Failure(PatternNotString)
    else if !verb.Str? then Failure(MethodNotString)
    else if !handler.Func? then Failure(HandlerNotFunction)
    else
      var timing := if f == Legacy then Untimed else Timed(OrDefault(options));
      Success(Route(pattern.s, Build(f, pattern.s), verb.s, handler.id, timing))
  }

  /** `when || 'after'`. */
  function EffectiveWhen(when: Option<string>): (w: string)
    ensures w != ""
    ensures (when.None? || when.value == "") ==> w == "after"
    ensures when.Some? && when.value != "" ==> w == when.value
  {
    if when.Some? && when.value != "" then when.value else "after"
  }

  /** `matches`: exact method comparison, then (for timed routes) the timing,
      then the expression test. */
  predicate Matches(route: Route, q: Query) {
    && route.verb == q.verb
    && (match route.timing
        case Untimed => true
        case Timed(o) => o.when == Some(EffectiveWhen(q.when)))
    && Test(route.regex.anchoring, route.regex.toks, q.url)
  }

  /** The timing a query asks for is met by a timed route exactly when the
      route's `when` equals the query's `when`, with an empty or missing query
      `when` read as `'after'`. */
  predicate TimingMet(options: Options, when: Option<string>) {
    if when.Some? && when.value != "" then options.when == when
    else options.when == Some("after")
  }

  /** What a freshly built route matches, stated from the constructor's
      arguments. */
  lemma NewMatches(f: Flavour, pattern: Value, verb: Value, handler: Value, options: Option<Options>, q: Query)
    requires pattern.Str? ==> PlainPattern(pattern.s)
    requires New(f, pattern, verb, handler, options).Success?
    ensures var r := New(f, pattern, verb, handler, options).value;
      Matches(r, q) <==>
        && q.verb == verb.s
        && (f == Legacy || TimingMet(OrDefault(options), q.when))
        && Test(AnchoringOf(f), Compile(pattern.s), q.url)
  {
  }

  /** A route built without options responds to the `'after'` timing only,
      and a query that leaves `when` out asks for exactly that. */
  lemma DefaultTimingIsAfter(f: Flavour, pattern: string, verb: string, handler: nat, q: Query)
    requires f != Legacy && PlainPattern(pattern)
    ensures var r := New(f, Str(pattern), Str(verb), Func(handler), None).value;
      && (Matches(r, q) <==> EffectiveWhen(q.when) == "after" && Matches(r, q.(when := None)))
      && Matches(r, q.(when := None)) == Matches(r, q.(when := Some("after")))
  {
    var r := New(f, Str(pattern), Str(verb), Func(handler), None).value;
    assert r.timing == Timed(DefaultOptions);
  }

  /** An options object without `when` is kept as given, and since every
      query asks for a non-empty timing, such a route never matches. */
  lemma OptionsWithoutWhenNeverMatch(f: Flavour, pattern: string, verb: string, handler: nat, q: Query)
    requires f != Legacy && PlainPattern(pattern)
    ensures !Matches(New(f, Str(pattern), Str(verb), Func(handler), Some(Options(None))).value, q)
  {
    var r := New(f, Str(pattern), Str(verb), Func(handler), Some(Options(None))).value;
    assert r.timing == Timed(Options(None));
  }

  /** Legacy routes: the method and the unanchored expression decide alone. */
  lemma LegacyIgnoresTiming(pattern: string, verb: string, handler: nat, options: Option<Options>, q: Query)
    requires PlainPattern(pattern)
    ensures var r := New(Legacy, Str(pattern), Str(verb), Func(handler), options).value;
      Matches(r, q) <==> q.verb == verb && Test(Unanchored, Compile(pattern), q.url)
  {
    var r := New(Legacy, Str(pattern), Str(verb), Func(handler), options).value;
    assert r.timing == Untimed;
  }

  /** The bundled build accepts the same arguments as the modular one, keeps
      the same fields, and matches no query the modular route does not. */
  lemma BundledWithinModular(pattern: Value, verb: Value, handler: Value, options: Option<Options>, q: Query)
    requires pattern.Str? ==> PlainPattern(pattern.s)
    ensures var b := New(Bundled, pattern, verb, handler, options);
            var m := New(Modular, pattern, verb, handler, options);
      && b.Success? == m.Success?
      && (b.Failure? ==> b.error == m.error)
      && (b.Success? ==> b.value == m.value.(regex := b.value.regex))
      && (b.Success? && Matches(b.value, q) ==> Matches(m.value, q))
  {
    var b := New(Bundled, pattern, verb, handler, options);
    var m := New(Modular, pattern, verb, handler, options);
    if b.Success? && Matches(b.value, q) {
      EndAnchoredImpliesUnanchored(b.value.regex.toks, q.url);
    }
  }

  /** Matching a modular route is a substring search: surrounding a matched
      URL with any text keeps it matched. */
  lemma ModularMatchWidens(r: Route, q: Query, x: string, y: string)
    requires r.regex.anchoring == Unanchored && Matches(r, q)
    ensures Matches(r, q.(url := x + q.url + y))
  {
    UnanchoredWiden(r.regex.toks, q.url, x, y);
  }

  /** A bundled route is anchored only at the end: any prefix is allowed. */
  lemma BundledMatchWidens(r: Route, q: Query, x: string)
    requires r.regex.anchoring == EndAnchored && Matches(r, q)
    ensures Matches(r, q.(url := x + q.url))
  {
    EndAnchoredWiden(r.regex.toks, q.url, x);
  }
}
