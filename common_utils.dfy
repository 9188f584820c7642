/** CommonUtils.isNumeric: a full match of the pattern [0-9]*. */
module Numeric {
  import opened JavaLang

  /** Whether the regular expression [0-9]* matches all of s: the empty match, or one class char and a match of the rest. */
  predicate MatchesDigitStar(s: string)
    decreases |s|
  {
    s == [] || ('0' <= s[0] <= '9' && MatchesDigitStar(s[1..]))
  }

  /** CommonUtils.isNumeric; a null argument throws in Pattern.matcher. */
  function IsNumeric(str: Option<string>): (r: Result<bool>)
    ensures str.None? <==> r == Throws(NullPointerException)
  {
    match str
    case None => Throws(NullPointerException)
    case Some(s) => Ok(MatchesDigitStar(s))
  }

  /** Numeric exactly when every char is one of '0'..'9'. */
  lemma {:induction false} IsNumericIffDigits(s: string)
    ensures IsNumeric(Some(s)) == Ok(true) <==> forall i :: 0 <= i < |s| ==> IsDigit(s[i])
  {
    if s != [] {
      IsNumericIffDigits(s[1..]);
      assert forall i :: 1 <= i < |s| ==> s[i] == s[1..][i - 1];
    }
  }

  /** The empty string is numeric; a sign, a point, white space or a non-ASCII digit is not. */
  lemma IsNumericExamples()
    ensures IsNumeric(Some("")) == Ok(true)
    ensures IsNumeric(Some("-1")) == Ok(false)
    ensures IsNumeric(Some("1.5")) == Ok(false)
    ensures IsNumeric(Some(" 1")) == Ok(false)
    ensures IsNumeric(Some("٣")) == Ok(false)
    ensures IsNumeric(Some("007")) == Ok(true)
  {
    IsNumericIffDigits("-1");
    IsNumericIffDigits("1.5");
    IsNumericIffDigits(" 1");
    IsNumericIffDigits("٣");
    IsNumericIffDigits("007");
  }
}
