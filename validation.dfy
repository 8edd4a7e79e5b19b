/** The check on the "required info" text that runs before any request is sent. */
module Validation {
  import opened Text

  /** The outcome of the check: the warning the form would show, or Ok. */
  datatype Verdict = Empty | TooShort | TooLong | Ok

  const MinLength: nat := 10
  const MaxLength: nat := 4000

  /** Three checks run in order and the first that fails decides: blank text,
      then fewer than MinLength characters, then more than MaxLength. Only the
      blank test looks at the stripped text; both length bounds count the raw
      text, surrounding whitespace included. */
  function Validate(requiredInfo: string): (v: Verdict)
    ensures v == Empty <==> forall i :: 0 <= i < |requiredInfo| ==> IsSpace(requiredInfo[i])
    ensures v == TooShort <==> Strip(requiredInfo) != [] && |requiredInfo| < MinLength
    ensures v == TooLong <==> Strip(requiredInfo) != [] && |requiredInfo| > MaxLength
    ensures v == Ok <==>
              (exists i :: 0 <= i < |requiredInfo| && !IsSpace(requiredInfo[i]))
              && MinLength <= |requiredInfo| <= MaxLength
  {
    if Strip(requiredInfo) == [] then Empty
    else if |requiredInfo| < MinLength then TooShort
    else if |requiredInfo| > MaxLength then TooLong
    else Ok
  }

  /** The minimum counts raw characters: one letter padded with nine spaces
      passes, although its stripped text is a single character. */
  lemma PaddingCountsTowardsMinimum()
    ensures |Strip("a         ")| == 1
    ensures Validate("a         ") == Ok
  {
    var s := "a         ";
    assert !IsSpace(s[0]);
    StripAfterPrefix("a", "         ");
    assert s == "a" + "         ";
    TrimRightAllSpace("         ");
  }
}
