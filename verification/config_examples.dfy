/** The vectors of the Jasmine config tests (tests/ConfigSpec.js), run against the store as the
    module starts. */
module ConfigExamples {
  import opened Results
  import opened Config

  /** `'gawd'` is refused; `'single'` and `'all'` are accepted. */
  lemma MatchBehaviourValues(c: Config)
    ensures Set(c, "matchBehaviour", "gawd") == Failure(InvalidMatchBehaviour)
    ensures Set(c, "matchBehaviour", "single").Success?
    ensures Set(c, "matchBehaviour", "all").Success?
  {
  }

  /** After the three calls of the first vector, `get` reads back `'all'`. */
  lemma ReadsBackLastValid()
    ensures Get(Run(Initial(), [("matchBehaviour", "gawd"), ("matchBehaviour", "single"), ("matchBehaviour", "all")]), "matchBehaviour") == Some("all")
  {
    var c0 := Initial();
    var c1 := Apply(c0, "matchBehaviour", "gawd");
    assert c1 == c0;
    var c2 := Apply(c1, "matchBehaviour", "single");
    var c3 := Apply(c2, "matchBehaviour", "all");
    var calls := [("matchBehaviour", "gawd"), ("matchBehaviour", "single"), ("matchBehaviour", "all")];
    assert calls[1..][1..][1..] == [];
    assert Run(c0, calls) == c3;
  }

  /** A setting the store does not have is not configurable. */
  lemma UnknownSetting()
    ensures Set(Initial(), "invalid", "value") == Failure(NotConfigurable("invalid"))
  {
    UnknownSettingRejected(Initial(), "invalid", "value");
  }

  /** A refused policy leaves the store as it was. */
  lemma InvalidBehaviourKeepsStore(c: Config, behaviour: string)
    requires !ValidBehaviour(behaviour)
    ensures Set(c, "matchBehaviour", behaviour) == Failure(InvalidMatchBehaviour)
    ensures Apply(c, "matchBehaviour", behaviour) == c
  {
  }

  /** Reading a setting the store does not have gives nothing, not an error. */
  lemma UnknownSettingReadsAbsent()
    ensures Get(Initial(), "invalid") == None
  {
  }
}
