/** The vectors of the Jasmine utility tests (tests/UtilitySpec.js). */
module UtilityExamples {
  import opened Utility

  /** The request type is the verb when the data has no `_method`. */
  lemma TypeIsTheVerb()
    ensures DetermineHttpVerb(AjaxOptions("get", NoData)) == "get"
  {
  }

  /** A `_method` field in the form data wins over the request type. */
  lemma MethodFieldWins()
    ensures DetermineHttpVerb(AjaxOptions("get", Fields(map["_method" := "delete"]))) == "delete"
  {
  }

  /** The verb is lower-cased. */
  lemma VerbIsLowerCased()
    ensures DetermineHttpVerb(AjaxOptions("POST", NoData)) == "post"
  {
  }
}
