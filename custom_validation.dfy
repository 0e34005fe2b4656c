/** The password-strength rule that registration applies through a custom Joi
    validator: at least 8 characters, then at least one ASCII digit and one ASCII
    letter. */
module CustomValidation {
  import opened Results

  const TooShort := "Password must be at least 8 characters long"
  const MissingLetterOrNumber := "Password must contain at least 1 letter and 1 number"

  /** Outcome of the validator: the value itself, or the error code handed to
      `helpers.error`. */
  datatype Checked = Accepted(value: string) | Rejected(code: string)

  /** The two regular-expression character classes the rule searches for:
      `\d` (without the `u` flag) and `[a-zA-Z]`. */
  datatype CharClass = Digit | AsciiLetter

  predicate InClass(c: char, k: CharClass)
  {
    match k
    case Digit => '0' <= c <= '9'
    case AsciiLetter => 'a' <= c <= 'z' || 'A' <= c <= 'Z'
  }

  /** Reference definition: some character of `s` belongs to `k`. */
  ghost predicate Contains(s: string, k: CharClass)
  {
    exists i :: 0 <= i < |s| && InClass(s[i], k)
  }

  /** `s.match(re)` for a one-character class: the index of the leftmost
      character of `s` in `k`, or None when there is none (`null`). */
  function FirstMatch(s: string, k: CharClass): (r: Option<nat>)
    ensures r.Some? ==> r.value < |s| && InClass(s[r.value], k)
    ensures r.Some? ==> forall j :: 0 <= j < r.value ==> !InClass(s[j], k)
    ensures r.None? <==> !Contains(s, k)
  {
    if |s| == 0 then None
    else if InClass(s[0], k) then Some(0)
    else
      match FirstMatch(s[1..], k)
      case None =>
        assert forall j :: 1 <= j < |s| ==> s[j] == s[1..][j - 1];
        None
      case Some(i) =>
        assert s[1..][i] == s[i + 1];
        Some(i + 1)
  }

  /** The `password` validator: length first, then composition. */
  function Password(value: string): (r: Checked)
    ensures |value| < 8 ==> r == Rejected(TooShort)
    ensures |value| >= 8 && !Contains(value, Digit) ==> r == Rejected(MissingLetterOrNumber)
    ensures |value| >= 8 && !Contains(value, AsciiLetter) ==> r == Rejected(MissingLetterOrNumber)
    ensures r.Accepted? <==> |value| >= 8 && Contains(value, Digit) && Contains(value, AsciiLetter)
    ensures r.Accepted? ==> r.value == value
  {
    if |value| < 8 then Rejected(TooShort)
    else if FirstMatch(value, Digit).None? || FirstMatch(value, AsciiLetter).None? then
      Rejected(MissingLetterOrNumber)
    else Accepted(value)
  }

  /** Characters outside ASCII (accented letters among them) do not satisfy
      the letter class, so a long password of digits and non-ASCII characters
      is refused. */
  lemma AccentedLettersDoNotCount(digits: string, accented: string)
    requires |digits| + |accented| >= 8
    requires forall i :: 0 <= i < |digits| ==> '0' <= digits[i] <= '9'
    requires forall i :: 0 <= i < |accented| ==> accented[i] > '\U{7F}'
    ensures Password(digits + accented) == Rejected(MissingLetterOrNumber)
  {
    var s := digits + accented;
    forall i | 0 <= i < |s| ensures !InClass(s[i], AsciiLetter) {
      if i < |digits| { assert s[i] == digits[i]; } else { assert s[i] == accented[i - |digits|]; }
    }
  }

  /** Concrete cases: the order of the checks decides the code a short password gets. */
  lemma Examples()
    ensures Password("secret123") == Accepted("secret123")
    ensures Password("abc") == Rejected(TooShort)
    ensures Password("!!") == Rejected(TooShort)
    ensures Password("12345678") == Rejected(MissingLetterOrNumber)
    ensures Password("abcdefgh") == Rejected(MissingLetterOrNumber)
  {
    assert InClass("secret123"[6], Digit);
    assert InClass("secret123"[0], AsciiLetter);
  }
}
