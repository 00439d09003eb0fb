/**
 * The handler's `catch` block: the message returned to the caller is chosen by a
 * priority-ordered, case-insensitive substring test on the extractor's diagnostic text.
 */
module Errors {
  import opened Wrappers
  import opened Text

  const GenericMessage: string := "Could not fetch video information. The URL may be unsupported or private."
  const PrivateMessage: string := "This video is private and cannot be downloaded."
  const GeoMessage: string := "This video is geo-restricted."
  const UnsupportedMessage: string := "This video platform is not supported or the URL is incorrect."

  /**
   * The message for a caught error whose diagnostic text is `stderr`. It is always one
   * of the four fixed texts, so no diagnostic text reaches the caller, and the generic
   * text is used exactly when there is no diagnostic text.
   */
  function ErrorMessage(stderr: Option<string>): (m: string)
    ensures m in {GenericMessage, PrivateMessage, GeoMessage, UnsupportedMessage}
    ensures m == GenericMessage <==> !TruthyString(stderr)
  {
    if !TruthyString(stderr) then GenericMessage
    else
      var lower := ToLower(stderr.value);
      if Contains(lower, "private") then PrivateMessage
      else if Contains(lower, "geo-restricted") then GeoMessage
      else UnsupportedMessage
  }

  /** The lower-cased diagnostic text mentions `pat` somewhere. */
  ghost predicate Mentions(stderr: string, pat: string)
  {
    exists i :: OccursAt(ToLower(stderr), pat, i)
  }

  /**
   * Each of the four messages is chosen exactly in its own case: no diagnostic text
   * gives the generic message; otherwise a mention of `private` gives the private
   * message whatever else the text says; failing that, a mention of `geo-restricted`
   * gives the geo message; and any other text gives the unsupported message.
   */
  lemma {:induction false} ErrorMessageCases(stderr: Option<string>)
    ensures var m := ErrorMessage(stderr);
      && (m == GenericMessage <==> !TruthyString(stderr))
      && (m == PrivateMessage <==> TruthyString(stderr) && Mentions(stderr.value, "private"))
      && (m == GeoMessage <==>
            TruthyString(stderr) && !Mentions(stderr.value, "private") && Mentions(stderr.value, "geo-restricted"))
      && (m == UnsupportedMessage <==>
            TruthyString(stderr) && !Mentions(stderr.value, "private") && !Mentions(stderr.value, "geo-restricted"))
  {
    if TruthyString(stderr) {
      ContainsIff(ToLower(stderr.value), "private");
      ContainsIff(ToLower(stderr.value), "geo-restricted");
    }
  }

  /** A diagnostic mentioning `Private` in any case yields the private message. */
  lemma {:induction false} PrivateInAnyCase(stderr: string, pat: string, i: int)
    requires ToLower(pat) == "private" && OccursAt(stderr, pat, i)
    ensures ErrorMessage(Some(stderr)) == PrivateMessage
  {
    OccursLowered(stderr, pat, i);
    ErrorMessageCases(Some(stderr));
  }

  /** A diagnostic mentioning `geo-restricted` in any case, and nothing private, yields the geo message. */
  lemma {:induction false} GeoInAnyCase(stderr: string, pat: string, i: int)
    requires ToLower(pat) == "geo-restricted" && OccursAt(stderr, pat, i)
    requires !Mentions(stderr, "private")
    ensures ErrorMessage(Some(stderr)) == GeoMessage
  {
    OccursLowered(stderr, pat, i);
    ErrorMessageCases(Some(stderr));
  }

  /** Two diagnostics that agree once lower-cased get the same message. */
  lemma CaseInsensitive(s: string, t: string)
    requires ToLower(s) == ToLower(t)
    ensures ErrorMessage(Some(s)) == ErrorMessage(Some(t))
  {
    assert |s| == |ToLower(s)| == |ToLower(t)| == |t|;
  }
}
