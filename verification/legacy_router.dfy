/** The older build in `pjax-router.dev.js`: routes have no timing, the
    match policy lives in the router itself, and there is no `clear`. It reuses
    the route and table logic with the `Legacy` flavour. */
module LegacyRouter {
  import opened Results
  import opened Pattern
  import opened Routes
  import opened Router
  import Config

  datatype LegacyRouter = LegacyRouter(routes: Table, matchBehaviour: string)

  /** An empty table and first-match routing. */
  function Initial(): (r: LegacyRouter)
    ensures |r.routes| == 0 && r.matchBehaviour == "single"
  {
    LegacyRouter([], "single")
  }

  /** `setMatchBehaviour`: only the two policies are accepted. */
  function SetMatchBehaviour(r: LegacyRouter, behaviour: string): (res: Result<LegacyRouter, Config.ConfigError>)
    ensures res.Success? <==> Config.ValidBehaviour(behaviour)
    ensures res.Failure? ==> res.error == Config.InvalidMatchBehaviour
    ensures res.Success? ==> res.value == r.(matchBehaviour := behaviour)
  {
    if behaviour != "single" && behaviour != "all" then Failure(Config.InvalidMatchBehaviour)
    else Success(r.(matchBehaviour := behaviour))
  }

  datatype Verb = GetVerb | PostVerb | PutVerb | DeleteVerb

  function VerbName(v: Verb): string {
    match v
    case GetVerb => "get"
    case PostVerb => "post"
    case PutVerb => "put"
    case DeleteVerb => "delete"
  }

  /** `get`, `post`, `put` and `del`: no options argument. */
  function Register(r: LegacyRouter, v: Verb, pattern: Value, handler: Value): (res: Result<LegacyRouter, RouteError>)
    requires pattern.Str? ==> PlainPattern(pattern.s)
    ensures res.Success? <==> pattern.Str? && handler.Func?
    ensures res.Success? ==> res.value.matchBehaviour == r.matchBehaviour
    ensures res.Success? ==> Registered(r.routes, res.value.routes, pattern.s, VerbName(v), handler.id)
    ensures res.Success? ==> res.value.routes[|r.routes|].timing == Untimed
    ensures res.Success? ==> res.value.routes[|r.routes|] == New(Legacy, pattern, Str(VerbName(v)), handler, None).value
  {
    match Router.Register(r.routes, Legacy, VerbName(v), pattern, handler, None)
    case Failure(e) => Failure(e)
    case Success(t) => Success(r.(routes := t))
  }

  /** `resource`: the same six routes, in the same order, as the newer build. */
  function Resource(r: LegacyRouter, name: Value, handler: Value): (res: Result<LegacyRouter, RouteError>)
    requires name.Str? ==> PlainPattern(name.s)
    ensures res.Success? <==> name.Str? && handler.Func?
    ensures res.Success? ==> res.value.routes == r.routes + ResourceRoutes(Legacy, name.s, handler.id, None)
    ensures res.Success? ==> res.value.matchBehaviour == r.matchBehaviour
  {
    match Router.Resource(r.routes, Legacy, name, handler, None)
    case Failure(e) => Failure(e)
    case Success(t) => Success(r.(routes := t))
  }

  /** `match(url, method)`: the policy is read from the router. */
  method Match(r: LegacyRouter, url: string, verb: string) returns (m: Table)
    ensures r.matchBehaviour == "single" ==> m == FirstMatch(r.routes, Query(url, verb, None))
    ensures r.matchBehaviour != "single" ==> m == Filter(r.routes, Query(url, verb, None))
  {
    m := Router.Match(r.routes, Query(url, verb, None), PolicyOf(Some(r.matchBehaviour)));
  }

  /** The calls that change the legacy router (`resource` is defined but
      not exported). */
  datatype Op =
    | RegisterOp(v: Verb, pattern: Value, handler: Value)
    | ResourceOp(name: Value, handler: Value)
    | SetBehaviourOp(behaviour: string)

  predicate PlainOp(op: Op) {
    match op
    case RegisterOp(_, pattern, _) => pattern.Str? ==> PlainPattern(pattern.s)
    case ResourceOp(name, _) => name.Str? ==> PlainPattern(name.s)
    case SetBehaviourOp(_) => true
  }

  /** One call; a call that throws leaves the router as it was. */
  function Step(r: LegacyRouter, op: Op): LegacyRouter
    requires PlainOp(op)
  {
    match op
    case RegisterOp(v, pattern, handler) =>
      var res := Register(r, v, pattern, handler);
      if res.Success? then res.value else r
    case ResourceOp(name, handler) =>
      var res := Resource(r, name, handler);
      if res.Success? then res.value else r
    case SetBehaviourOp(b) =>
      var res := SetMatchBehaviour(r, b);
      if res.Success? then res.value else r
  }

  function Run(r: LegacyRouter, ops: seq<Op>): LegacyRouter
    requires forall i | 0 <= i < |ops| :: PlainOp(ops[i])
    decreases |ops|
  {
    if |ops| == 0 then r
    else Run(Step(r, ops[0]), ops[1..])
  }

  /** Every route of a legacy table is untimed and unanchored. */
  predicate LegacyRoutes(t: Table) {
    forall i | 0 <= i < |t| :: t[i].timing == Untimed && t[i].regex.anchoring == Unanchored
  }

  /** What every reachable legacy router satisfies. */
  predicate Valid(r: LegacyRouter) {
    Config.ValidBehaviour(r.matchBehaviour) && LegacyRoutes(r.routes)
  }

  lemma StepGrows(r: LegacyRouter, op: Op)
    requires PlainOp(op) && Valid(r)
    ensures r.routes <= Step(r, op).routes
    ensures Valid(Step(r, op))
  {
    match op
    case RegisterOp(v, pattern, handler) =>
    case ResourceOp(name, handler) =>
      var res := Resource(r, name, handler);
      if res.Success? {
        var rs := ResourceRoutes(Legacy, name.s, handler.id, None);
        assert LegacyRoutes(rs);
        assert res.value.routes == r.routes + rs;
      }
    case SetBehaviourOp(b) =>
  }

  /** The legacy table only grows: no call removes or reorders routes, the
      policy stays one of the two, and no route ever acquires a timing. */
  lemma {:induction false} RunOnlyGrows(r: LegacyRouter, ops: seq<Op>)
    requires forall i | 0 <= i < |ops| :: PlainOp(ops[i])
    requires Valid(r)
    ensures r.routes <= Run(r, ops).routes
    ensures Valid(Run(r, ops))
    decreases |ops|
  {
    if |ops| > 0 {
      StepGrows(r, ops[0]);
      RunOnlyGrows(Step(r, ops[0]), ops[1..]);
    }
  }

  /** In a legacy table the `when` argument plays no part: a route matches
      exactly when its verb is the one asked for and its expression occurs in
      the URL. */
  lemma LegacyMatchIgnoresWhen(t: Table, url: string, verb: string, when: Option<string>)
    requires LegacyRoutes(t)
    ensures Filter(t, Query(url, verb, when)) == Filter(t, Query(url, verb, None))
    ensures forall i | 0 <= i < |t| ::
      Matches(t[i], Query(url, verb, when)) <==> t[i].verb == verb && Test(Unanchored, t[i].regex.toks, url)
  {
    FilterSameMatches(t, Query(url, verb, when), Query(url, verb, None));
  }

  lemma {:induction false} FilterSameMatches(t: Table, q: Query, q': Query)
    requires forall i | 0 <= i < |t| :: Matches(t[i], q) == Matches(t[i], q')
    ensures Filter(t, q) == Filter(t, q')
    decreases |t|
  {
    if |t| > 0 {
      FilterSameMatches(t[..|t| - 1], q, q');
    }
  }
}
