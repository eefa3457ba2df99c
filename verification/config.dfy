/** The configuration store: a closed set of settings, of which only
    `matchBehaviour` exists, with a validating setter for it. A failed `set`
    throws in the source; here it returns an error and the caller keeps the
    store it had. */
module Config {
  import opened Results
  import opened Router

  datatype Config = Config(settings: map<string, string>)

  datatype ConfigError = InvalidMatchBehaviour | NotConfigurable(setting: string)

  const MatchBehaviourKey: string := "matchBehaviour"

  predicate ValidBehaviour(b: string) {
    b == "single" || b == "all"
  }

  /** The store as the module starts: first-match routing. */
  function Initial(): (c: Config)
    ensures Valid(c)
    ensures c.settings[MatchBehaviourKey] == "single"
  {
    Config(map[MatchBehaviourKey := "single"])
  }

  /** `get`: an unknown setting reads as absent, not as an error. */
  function Get(c: Config, setting: string): (v: Option<string>)
    ensures v.Some? <==> setting in c.settings
    ensures v.Some? ==> v.value == c.settings[setting]
  {
    if setting in c.settings then Some(c.settings[setting]) else None
  }

  /** `setMethods.matchBehaviour`: only the two policies are accepted. */
  function SetMatchBehaviour(c: Config, behaviour: string): (r: Result<Config, ConfigError>)
    ensures r.Success? <==> ValidBehaviour(behaviour)
    ensures r.Failure? ==> r.error == InvalidMatchBehaviour
    ensures r.Success? ==> r.value.settings == c.settings[MatchBehaviourKey := behaviour]
  {
    if behaviour != "single" && behaviour != "all" then Failure(InvalidMatchBehaviour)
    else Success(Config(c.settings[MatchBehaviourKey := behaviour]))
  }

  /** `set`: a setting with a validator goes through it; any other setting
      must already hold a non-empty value to be overwritten. */
  function Set(c: Config, setting: string, value: string): (r: Result<Config, ConfigError>)
    ensures setting == MatchBehaviourKey ==> (r.Success? <==> ValidBehaviour(value))
    ensures setting == MatchBehaviourKey && r.Failure? ==> r.error == InvalidMatchBehaviour
    ensures setting != MatchBehaviourKey ==> (r.Success? <==> setting in c.settings && c.settings[setting] != "")
    ensures setting != MatchBehaviourKey && r.Failure? ==> r.error == NotConfigurable(setting)
    ensures r.Success? ==> Get(r.value, setting) == Some(value)
    ensures r.Success? ==> forall k | k != setting :: Get(r.value, k) == Get(c, k)
    ensures r.Success? ==> r.value.settings.Keys == c.settings.Keys + {setting}
  {
    if setting == MatchBehaviourKey then SetMatchBehaviour(c, value)
    else if setting !in c.settings || c.settings[setting] == "" then Failure(NotConfigurable(setting))
    else Success(Config(c.settings[setting := value]))
  }

  /** The store after a `set` call, whether it succeeded or threw. */
  function Apply(c: Config, setting: string, value: string): Config {
    var r := Set(c, setting, value);
    if r.Success? then r.value else c
  }

  function Run(c: Config, calls: seq<(string, string)>): Config
    decreases |calls|
  {
    if |calls| == 0 then c
    else Run(Apply(c, calls[0].0, calls[0].1), calls[1..])
  }

  /** The store's invariant: exactly one setting, holding a valid policy. */
  predicate Valid(c: Config) {
    && c.settings.Keys == {MatchBehaviourKey}
    && ValidBehaviour(c.settings[MatchBehaviourKey])
  }

  /** The policy `match` reads from the store. */
  function Behaviour(c: Config): (p: Policy)
    requires Valid(c)
    ensures p == Single <==> c.settings[MatchBehaviourKey] == "single"
    ensures p == All <==> c.settings[MatchBehaviourKey] == "all"
  {
    PolicyOf(Get(c, MatchBehaviourKey))
  }

  /** In a valid store every setting but `matchBehaviour` is refused. */
  lemma UnknownSettingRejected(c: Config, setting: string, value: string)
    requires Valid(c) && setting != MatchBehaviourKey
    ensures Set(c, setting, value) == Failure(NotConfigurable(setting))
    ensures Apply(c, setting, value) == c
  {
  }

  /** One `set` call keeps the invariant, whatever its arguments. */
  lemma SetPreservesValid(c: Config, setting: string, value: string)
    requires Valid(c)
    ensures Valid(Apply(c, setting, value))
  {
    if setting == MatchBehaviourKey && ValidBehaviour(value) {
      assert Apply(c, setting, value).settings == c.settings[setting := value];
    }
  }

  /** Any sequence of `set` calls from the initial store keeps
      `matchBehaviour` one of the two policies. */
  lemma {:induction false} RunPreservesValid(c: Config, calls: seq<(string, string)>)
    requires Valid(c)
    ensures Valid(Run(c, calls))
    decreases |calls|
  {
    if |calls| > 0 {
      SetPreservesValid(c, calls[0].0, calls[0].1);
      RunPreservesValid(Apply(c, calls[0].0, calls[0].1), calls[1..]);
    }
  }

  /** A valid policy set through `set` is what `get` and `match` see next. */
  lemma SetThenGet(c: Config, behaviour: string)
    requires Valid(c) && ValidBehaviour(behaviour)
    ensures Get(Apply(c, MatchBehaviourKey, behaviour), MatchBehaviourKey) == Some(behaviour)
    ensures Behaviour(Apply(c, MatchBehaviourKey, behaviour)) == if behaviour == "single" then Single else All
  {
    SetPreservesValid(c, MatchBehaviourKey, behaviour);
  }
}
