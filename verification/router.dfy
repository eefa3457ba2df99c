/** The route table: registration helpers, the six-route resource expansion,
    `match` under the single/all policy, `clear` and `getRoutes`. The table is
    a value; every registration returns the new table, and a failed
    construction (a thrown error in the source) leaves nothing appended. */
module Router {
  import opened Results
  import opened Pattern
  import opened Routes

  type Table = seq<Route>

  /** `'single'` stops at the first match; anything else collects all. */
  datatype Policy = Single | All

  /** The comparison `behaviour == 'single'` made inside the loop. */
  function PolicyOf(behaviour: Option<string>): (p: Policy)
    ensures p == Single <==> behaviour == Some("single")
  {
    if behaviour == Some("single") then Single else All
  }

  /** `add`: build the route and push it. */
  function Add(t: Table, f: Flavour, pattern: Value, verb: Value, handler: Value, options: Option<Options>): (r: Result<Table, RouteError>)
    requires pattern.Str? ==> PlainPattern(pattern.s)
    ensures r.Success? <==> New(f, pattern, verb, handler, options).Success?
    ensures r.Success? ==> r.value == t + [New(f, pattern, verb, handler, options).value]
    ensures r.Failure? ==> r.error == New(f, pattern, verb, handler, options).error
  {
    match New(f, pattern, verb, handler, options)
    case Failure(e) => Failure(e)
    case Success(route) => Success(t + [route])
  }

  /** What a verb helper promises: one route with that pattern and that
      lower-case verb is appended, and the earlier routes are untouched. */
  predicate Registered(t: Table, t': Table, pattern: string, verb: string, handler: nat) {
    && |t'| == |t| + 1
    && t'[..|t|] == t
    && t'[|t|].pattern == pattern
    && t'[|t|].verb == verb
    && t'[|t|].handler == handler
  }

  function Register(t: Table, f: Flavour, verb: string, pattern: Value, handler: Value, options: Option<Options>): (r: Result<Table, RouteError>)
    requires pattern.Str? ==> PlainPattern(pattern.s)
    ensures r.Success? <==> pattern.Str? && handler.Func?
    ensures !pattern.Str? ==> r == Failure(PatternNotString)
    ensures pattern.Str? && !handler.Func? ==> r == Failure(HandlerNotFunction)
    ensures r.Success? ==> Registered(t, r.value, pattern.s, verb, handler.id)
    ensures r.Success? ==> r.value[|t|] == New(f, pattern, Str(verb), handler, options).value
  {
    var t' := Add(t, f, pattern, Str(verb), handler, options);
    if t'.Success? then
      assert t'.value[..|t|] == t;
      t'
    else t'
  }

  function Get(t: Table, f: Flavour, pattern: Value, handler: Value, options: Option<Options>): (r: Result<Table, RouteError>)
    requires pattern.Str? ==> PlainPattern(pattern.s)
    ensures r.Success? <==> pattern.Str? && handler.Func?
    ensures r.Success? ==> Registered(t, r.value, pattern.s, "get", handler.id)
    ensures r.Success? ==> r.value[|t|] == New(f, pattern, Str("get"), handler, options).value
  {
    Register(t, f, "get", pattern, handler, options)
  }

  function Post(t: Table, f: Flavour, pattern: Value, handler: Value, options: Option<Options>): (r: Result<Table, RouteError>)
    requires pattern.Str? ==> PlainPattern(pattern.s)
    ensures r.Success? <==> pattern.Str? && handler.Func?
    ensures r.Success? ==> Registered(t, r.value, pattern.s, "post", handler.id)
    ensures r.Success? ==> r.value[|t|] == New(f, pattern, Str("post"), handler, options).value
  {
    Register(t, f, "post", pattern, handler, options)
  }

  function Put(t: Table, f: Flavour, pattern: Value, handler: Value, options: Option<Options>): (r: Result<Table, RouteError>)
    requires pattern.Str? ==> PlainPattern(pattern.s)
    ensures r.Success? <==> pattern.Str? && handler.Func?
    ensures r.Success? ==> Registered(t, r.value, pattern.s, "put", handler.id)
    ensures r.Success? ==> r.value[|t|] == New(f, pattern, Str("put"), handler, options).value
  {
    Register(t, f, "put", pattern, handler, options)
  }

  /** `del`, exported both as `del` and as `delete`. */
  function Delete(t: Table, f: Flavour, pattern: Value, handler: Value, options: Option<Options>): (r: Result<Table, RouteError>)
    requires pattern.Str? ==> PlainPattern(pattern.s)
    ensures r.Success? <==> pattern.Str? && handler.Func?
    ensures r.Success? ==> Registered(t, r.value, pattern.s, "delete", handler.id)
    ensures r.Success? ==> r.value[|t|] == New(f, pattern, Str("delete"), handler, options).value
  {
    Register(t, f, "delete", pattern, handler, options)
  }

  function IdPattern(name: string): string {
    name + "/:id"
  }

  /** The six routes a resource stands for, in registration order. */
  function ResourceRoutes(f: Flavour, name: string, handler: nat, options: Option<Options>): (rs: Table)
    requires PlainPattern(name)
    ensures |rs| == 6
  {
    var h := Func(handler);
    var id := Str(IdPattern(name));
    [ New(f, Str(name), Str("get"), h, options).value,
      New(f, Str(name), Str("post"), h, options).value,
      New(f, id, Str("delete"), h, options).value,
      New(f, id, Str("get"), h, options).value,
      New(f, id, Str("put"), h, options).value,
      New(f, id, Str("post"), h, options).value ]
  }

  lemma PlainIdPattern(name: string)
    requires PlainPattern(name)
    ensures PlainPattern(IdPattern(name))
  {
    var p := IdPattern(name);
    forall i | 0 <= i < |p|
      ensures !IsMeta(p[i])
    {
      if i < |name| {
        assert p[i] == name[i];
      }
    }
  }

  /** `resource`: six registrations in a row through the verb helpers, each
      of which is `add` with its verb. The first one fails exactly when any
      would, so the table either gains all six or nothing. */
  function Resource(t: Table, f: Flavour, name: Value, handler: Value, options: Option<Options>): (r: Result<Table, RouteError>)
    requires name.Str? ==> PlainPattern(name.s)
    ensures r.Success? <==> name.Str? && handler.Func?
    ensures !name.Str? ==> r == Failure(PatternNotString)
    ensures name.Str? && !handler.Func? ==> r == Failure(HandlerNotFunction)
    ensures r.Success? ==> r.value == t + ResourceRoutes(f, name.s, handler.id, options)
  {
    var first := Add(t, f, name, Str("get"), handler, options);
    if first.Failure? then first
    else
      PlainIdPattern(name.s);
      var id := Str(IdPattern(name.s));
      var t2 := Add(first.value, f, name, Str("post"), handler, options).value;
      var t3 := Add(t2, f, id, Str("delete"), handler, options).value;
      var t4 := Add(t3, f, id, Str("get"), handler, options).value;
      var t5 := Add(t4, f, id, Str("put"), handler, options).value;
      var t6 := Add(t5, f, id, Str("post"), handler, options).value;
      assert t6 == t + ResourceRoutes(f, name.s, handler.id, options);
      Success(t6)
  }

  /** The six routes, one by one: GET and POST on the name, then DELETE,
      GET, PUT and POST on the name followed by `/:id`, all with the same
      handler, after the routes already registered. */
  lemma ResourceOrder(t: Table, f: Flavour, name: string, handler: nat, options: Option<Options>)
    requires PlainPattern(name)
    ensures var r := Resource(t, f, Str(name), Func(handler), options);
      && r.Success?
      && |r.value| == |t| + 6
      && r.value[..|t|] == t
      && (forall k | |t| <= k < |t| + 6 :: r.value[k].handler == handler)
      && r.value[|t|].verb == "get" && r.value[|t|].pattern == name
      && r.value[|t| + 1].verb == "post" && r.value[|t| + 1].pattern == name
      && r.value[|t| + 2].verb == "delete" && r.value[|t| + 2].pattern == name + "/:id"
      && r.value[|t| + 3].verb == "get" && r.value[|t| + 3].pattern == name + "/:id"
      && r.value[|t| + 4].verb == "put" && r.value[|t| + 4].pattern == name + "/:id"
      && r.value[|t| + 5].verb == "post" && r.value[|t| + 5].pattern == name + "/:id"
  {
    PlainIdPattern(name);
    var r := Resource(t, f, Str(name), Func(handler), options);
    var rs := ResourceRoutes(f, name, handler, options);
    assert r.value == t + rs;
    assert r.value[..|t|] == t;
    forall k | 0 <= k < 6
      ensures r.value[|t| + k] == rs[k]
    {
    }
  }

  /** `clear`. */
  function Clear(t: Table): (r: Table)
    ensures |r| == 0
  {
    []
  }

  /** `getRoutes`: the table itself, in registration order. */
  function RoutesOf(t: Table): (r: Table)
    ensures |r| == |t| && forall i | 0 <= i < |t| :: r[i] == t[i]
  {
    t
  }

  // ---------------------------------------------------------------------------
  // Matching

  /** Reference for the `'all'` policy: the matching routes, in order. */
  function Filter(t: Table, q: Query): (r: Table)
    ensures |r| <= |t|
    ensures forall x :: x in r <==> x in t && Matches(x, q)
  {
    if |t| == 0 then []
    else
      var last := t[|t| - 1];
      Filter(t[..|t| - 1], q) + (if Matches(last, q) then [last] else [])
  }

  /** Reference for the `'single'` policy: the earliest matching route. */
  function FirstMatch(t: Table, q: Query): (r: Table)
    ensures |r| <= 1
    ensures |r| == 0 <==> forall i | 0 <= i < |t| :: !Matches(t[i], q)
    ensures |r| == 1 ==> r[0] in t && Matches(r[0], q)
  {
    if |t| == 0 then []
    else if Matches(t[0], q) then [t[0]]
    else FirstMatch(t[1..], q)
  }

  /** The route `FirstMatch` picks sits at an index no matching route
      precedes. */
  lemma {:induction false} FirstMatchIsEarliest(t: Table, q: Query)
    requires |FirstMatch(t, q)| == 1
    ensures exists i | 0 <= i < |t| :: FirstMatch(t, q)[0] == t[i] && EarliestMatch(t, q, i)
    decreases |t|
  {
    if Matches(t[0], q) {
      assert EarliestMatch(t, q, 0);
    } else {
      FirstMatchIsEarliest(t[1..], q);
      var i :| 0 <= i < |t[1..]| && FirstMatch(t[1..], q)[0] == t[1..][i] && EarliestMatch(t[1..], q, i);
      assert EarliestMatch(t, q, i + 1) by {
        forall j | 0 <= j < i + 1
          ensures !Matches(t[j], q)
        {
          if j > 0 {
            assert t[j] == t[1..][j - 1];
          }
        }
      }
    }
  }

  /** Index `i` holds a matching route and no earlier one matches. */
  predicate EarliestMatch(t: Table, q: Query, i: int) {
    && 0 <= i < |t|
    && Matches(t[i], q)
    && forall j | 0 <= j < i :: !Matches(t[j], q)
  }

  function Select(t: Table, q: Query, p: Policy): Table {
    if p == Single then FirstMatch(t, q) else Filter(t, q)
  }

  /** `match`: one pass over the table, stopping after the first hit under
      the `'single'` policy. */
  method Match(t: Table, q: Query, p: Policy) returns (r: Table)
    ensures p == All ==> r == Filter(t, q)
    ensures p == Single ==> r == FirstMatch(t, q)
  {
    r := [];
    var i := 0;
    while i < |t|
      invariant 0 <= i <= |t|
      invariant p == All ==> r == Filter(t[..i], q)
      invariant p == Single ==> r == [] && FirstMatch(t, q) == FirstMatch(t[i..], q)
    {
      FilterSnoc(t, q, i);
      FirstMatchAt(t, q, i);
      if Matches(t[i], q) {
        r := r + [t[i]];
        if p == Single {
          return;
        }
      }
      i := i + 1;
    }
    assert t[..i] == t;
  }

  /** The `'all'` answer of one more route of the table. */
  lemma FilterSnoc(t: Table, q: Query, i: int)
    requires 0 <= i < |t|
    ensures Filter(t[..i + 1], q) == Filter(t[..i], q) + (if Matches(t[i], q) then [t[i]] else [])
  {
    assert t[..i + 1][..i] == t[..i];
    assert t[..i + 1][i] == t[i];
  }

  /** The `'single'` answer from index `i` on. */
  lemma FirstMatchAt(t: Table, q: Query, i: int)
    requires 0 <= i < |t|
    ensures FirstMatch(t[i..], q) == if Matches(t[i], q) then [t[i]] else FirstMatch(t[i + 1..], q)
  {
    assert t[i..][0] == t[i];
    assert t[i..][1..] == t[i + 1..];
  }

  lemma {:induction false} FilterConcat(a: Table, b: Table, q: Query)
    ensures Filter(a + b, q) == Filter(a, q) + Filter(b, q)
    decreases |b|
  {
    if |b| == 0 {
      assert a + b == a;
    } else {
      var b' := b[..|b| - 1];
      assert (a + b)[..|a + b| - 1] == a + b';
      assert (a + b)[|a + b| - 1] == b[|b| - 1];
      FilterConcat(a, b', q);
    }
  }

  /** The `'single'` answer is the head of the `'all'` answer: a prefix of
      it, and empty only when that is empty. */
  lemma {:induction false} SinglePrefixOfAll(t: Table, q: Query)
    ensures FirstMatch(t, q) <= Filter(t, q)
    ensures |FirstMatch(t, q)| == 0 <==> |Filter(t, q)| == 0
    decreases |t|
  {
    if |t| > 0 {
      assert t == [t[0]] + t[1..];
      FilterConcat([t[0]], t[1..], q);
      assert Filter([t[0]], q) == Filter([], q) + (if Matches(t[0], q) then [t[0]] else []) by {
        assert [t[0]][..0] == [];
      }
      SinglePrefixOfAll(t[1..], q);
    }
  }

  /** Registration order is kept: routes added later come later in every
      answer, and the earlier table's answer is a prefix of the new one. */
  lemma MatchAfterRegistration(t: Table, extra: Table, q: Query)
    ensures Filter(t + extra, q) == Filter(t, q) + Filter(extra, q)
    ensures |FirstMatch(t, q)| == 1 ==> FirstMatch(t + extra, q) == FirstMatch(t, q)
  {
    FilterConcat(t, extra, q);
    if |FirstMatch(t, q)| == 1 {
      FirstMatchExtend(t, extra, q);
    }
  }

  lemma {:induction false} FirstMatchExtend(t: Table, extra: Table, q: Query)
    requires |FirstMatch(t, q)| == 1
    ensures FirstMatch(t + extra, q) == FirstMatch(t, q)
    decreases |t|
  {
    assert (t + extra)[0] == t[0];
    if !Matches(t[0], q) {
      assert (t + extra)[1..] == t[1..] + extra;
      FirstMatchExtend(t[1..], extra, q);
    }
  }

  /** When exactly one route of the table matches, both policies answer
      with that route alone. */
  lemma UniqueMatch(t: Table, q: Query, i: int)
    requires 0 <= i < |t| && Matches(t[i], q)
    requires forall j | 0 <= j < |t| && j != i :: !Matches(t[j], q)
    ensures Filter(t, q) == [t[i]]
    ensures FirstMatch(t, q) == [t[i]]
  {
    FilterUnique(t, q, i);
    FirstMatchUnique(t, q, i);
  }

  lemma {:induction false} FilterUnique(t: Table, q: Query, i: int)
    requires 0 <= i < |t| && Matches(t[i], q)
    requires forall j | 0 <= j < |t| && j != i :: !Matches(t[j], q)
    ensures Filter(t, q) == [t[i]]
    decreases |t|
  {
    var init := t[..|t| - 1];
    if i < |t| - 1 {
      FilterUnique(init, q, i);
    } else {
      FilterNone(init, q);
    }
  }

  lemma {:induction false} FilterNone(t: Table, q: Query)
    requires forall j | 0 <= j < |t| :: !Matches(t[j], q)
    ensures Filter(t, q) == []
    ensures FirstMatch(t, q) == []
    decreases |t|
  {
    if |t| > 0 {
      FilterNone(t[..|t| - 1], q);
    }
  }

  lemma {:induction false} FirstMatchUnique(t: Table, q: Query, i: int)
    requires 0 <= i < |t| && Matches(t[i], q)
    requires forall j | 0 <= j < |t| && j != i :: !Matches(t[j], q)
    ensures FirstMatch(t, q) == [t[i]]
    decreases |t|
  {
    if i > 0 {
      assert !Matches(t[0], q);
      FirstMatchUnique(t[1..], q, i - 1);
    }
  }

  /** After `clear`, one registration gives a one-route table holding it. */
  lemma ClearThenRegister(t: Table, f: Flavour, verb: string, pattern: string, handler: nat, options: Option<Options>)
    requires PlainPattern(pattern)
    ensures var r := Register(Clear(t), f, verb, Str(pattern), Func(handler), options);
      && r.Success?
      && |RoutesOf(r.value)| == 1
      && RoutesOf(r.value)[0] == New(f, Str(pattern), Str(verb), Func(handler), options).value
  {
  }
}
