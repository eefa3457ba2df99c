/** `determineHttpVerb`: the verb of an outgoing request, honouring the
    `_method` field frameworks put into form data to tunnel PUT, PATCH and
    DELETE through POST. */
module Utility {
  import opened Results
  import opened Ascii

  /** The request's `data`: missing, a set of form fields, or already encoded
      text (which has no `_method` property). */
  datatype Data = NoData | Fields(fields: map<string, string>) | Encoded(text: string)

  /** The request options: `type` and `data`. */
  datatype AjaxOptions = AjaxOptions(requestType: string, data: Data)

  const MethodField: string := "_method"

  /** `toLowerCase`, on the ASCII letters. */
  function LowerAscii(s: string): (r: string)
    ensures |r| == |s|
    ensures forall i | 0 <= i < |s| :: r[i] == LowerChar(s[i])
  {
    if |s| == 0 then [] else [LowerChar(s[0])] + LowerAscii(s[1..])
  }

  predicate NoUpper(s: string) {
    forall i | 0 <= i < |s| :: !IsUpper(s[i])
  }

  /** `options.data && options.data._method`: a present, non-empty field. */
  function Override(data: Data): (m: Option<string>)
    ensures m.Some? ==> m.value != ""
    ensures m.Some? <==> data.Fields? && MethodField in data.fields && data.fields[MethodField] != ""
    ensures m.Some? ==> m.value == data.fields[MethodField]
  {
    if data.Fields? && MethodField in data.fields && data.fields[MethodField] != ""
    then Some(data.fields[MethodField])
    else None
  }

  function DetermineHttpVerb(options: AjaxOptions): (m: string)
    ensures NoUpper(m)
    ensures LowerAscii(m) == m
    ensures Override(options.data).None? ==> |m| == |options.requestType|
    ensures Override(options.data).Some? ==> |m| == |Override(options.data).value|
  {
    var verb := match Override(options.data)
      case Some(v) => v
      case None => options.requestType;
    LowerAscii(verb)
  }

  /** Lower-casing is idempotent and leaves text without capitals alone. */
  lemma {:induction false} LowerAsciiFixed(s: string)
    ensures NoUpper(s) <==> LowerAscii(s) == s
  {
    if NoUpper(s) {
      assert LowerAscii(s) == s;
    } else {
      var i :| 0 <= i < |s| && IsUpper(s[i]);
      assert LowerAscii(s)[i] != s[i];
    }
  }

  /** Two texts lower-case to the same verb exactly when they agree letter by
      letter up to ASCII case. */
  predicate SameIgnoringCase(a: string, b: string) {
    |a| == |b| && forall i | 0 <= i < |a| :: LowerChar(a[i]) == LowerChar(b[i])
  }

  /** Without a usable `_method` field the verb is the request type, up to
      case; with one, it is that field, up to case. */
  lemma VerbSource(options: AjaxOptions)
    ensures Override(options.data).None? ==> SameIgnoringCase(DetermineHttpVerb(options), options.requestType)
    ensures Override(options.data).Some? ==> SameIgnoringCase(DetermineHttpVerb(options), Override(options.data).value)
    ensures options.data.Fields? && MethodField in options.data.fields && options.data.fields[MethodField] != "" ==>
      DetermineHttpVerb(options) == LowerAscii(options.data.fields[MethodField])
    ensures !options.data.Fields? || MethodField !in options.data.fields || options.data.fields[MethodField] == "" ==>
      DetermineHttpVerb(options) == LowerAscii(options.requestType)
  {
  }
}
