/**
 * The password module: the strength validator and an ideal stand-in for the
 * bcrypt hash and its verification.
 */
module Password {
  import opened Results

  /** Why `validate_password_strength` rejects a password, one case per guard. */
  datatype Weakness = TooShort | TooLong | NoUppercase | NoLowercase | NoDigit | NoSpecialChar

  const MinLength := 8
  const MaxLength := 72
  const SpecialChars := "@$!%*?#&"

  /** The text of the `ValueError` raised for each weakness. */
  function Message(w: Weakness): string
  {
    match w
    case TooShort => "Password must contain at least 8 characters."
    case TooLong => "Password must not exceed 72 characters."
    case NoUppercase => "Password must contain at least one uppercase letter."
    case NoLowercase => "Password must contain at least one lower letter."
    case NoDigit => "Password must contain at least one digit."
    case NoSpecialChar => "Password must contain at least one special character: @, $, !, %, *, ?, #, &."
  }

  /** The four character classes the guards search for: `[A-Z]`, `[a-z]`, `\d`, `[@$!%*?#&]`. */
  datatype CharClass = Upper | LowerCase | Digit | Special

  predicate InClass(c: char, k: CharClass)
  {
    match k
    case Upper => 'A' <= c <= 'Z'
    case LowerCase => 'a' <= c <= 'z'
    case Digit => '0' <= c <= '9'
    case Special => c in SpecialChars
  }

  /** Some character of `s` lies in class `k`. */
  ghost predicate HasSome(s: string, k: CharClass)
  {
    exists i :: 0 <= i < |s| && InClass(s[i], k)
  }

  /** `re.search` of a one-class pattern: scans `s` from the left. */
  function Search(s: string, k: CharClass): (found: bool)
    ensures found <==> HasSome(s, k)
  {
    if s == [] then false
    else if InClass(s[0], k) then true
    else
      var rest := Search(s[1..], k);
      assert forall i :: 0 < i < |s| ==> s[i] == s[1..][i - 1];
      rest
  }

  /** All six conditions of the validator hold. */
  ghost predicate IsStrong(p: string)
  {
    MinLength <= |p| <= MaxLength
    && HasSome(p, Upper) && HasSome(p, LowerCase) && HasSome(p, Digit) && HasSome(p, Special)
  }

  /**
   * `validate_password_strength`: the input comes back unchanged exactly when it is
   * strong, and otherwise the reason is the first guard that fails, in the order
   * length >= 8, length <= 72, uppercase, lowercase, digit, special character.
   */
  function ValidateStrength(p: string): (r: Result<string, Weakness>)
    ensures r.Ok? <==> IsStrong(p)
    ensures r.Ok? ==> r.value == p
    ensures r == Err(TooShort) <==> |p| < MinLength
    ensures r == Err(TooLong) <==> MinLength <= |p| && |p| > MaxLength
    ensures r == Err(NoUppercase) <==> MinLength <= |p| <= MaxLength && !HasSome(p, Upper)
    ensures r == Err(NoLowercase) <==>
      MinLength <= |p| <= MaxLength && HasSome(p, Upper) && !HasSome(p, LowerCase)
    ensures r == Err(NoDigit) <==>
      MinLength <= |p| <= MaxLength && HasSome(p, Upper) && HasSome(p, LowerCase) && !HasSome(p, Digit)
    ensures r == Err(NoSpecialChar) <==>
      MinLength <= |p| <= MaxLength && HasSome(p, Upper) && HasSome(p, LowerCase) && HasSome(p, Digit)
      && !HasSome(p, Special)
  {
    if |p| < MinLength then Err(TooShort)
    else if |p| > MaxLength then Err(TooLong)
    else if !Search(p, Upper) then Err(NoUppercase)
    else if !Search(p, LowerCase) then Err(NoLowercase)
    else if !Search(p, Digit) then Err(NoDigit)
    else if !Search(p, Special) then Err(NoSpecialChar)
    else Ok(p)
  }

  /** A password that is too short is rejected whatever characters it has. */
  lemma ShortRejected(p: string)
    requires |p| < MinLength
    ensures ValidateStrength(p) == Err(TooShort)
  {
  }

  /** Seventy-three capital letters are rejected as too long. */
  lemma {:induction false} SeventyThreeCapitalsRejected()
    ensures ValidateStrength(seq(73, i => 'A')) == Err(TooLong)
  {
    var p := seq(73, i => 'A');
    assert |p| == 73;
  }

  /** The accepted example: `Password123!`. */
  lemma ExampleAccepted()
    ensures ValidateStrength("Password123!") == Ok("Password123!")
  {
    var p := "Password123!";
    assert InClass(p[0], Upper);
    assert InClass(p[1], LowerCase);
    assert InClass(p[8], Digit);
    assert InClass(p[11], Special);
  }

  /** A password in which no character lies in class `k` has none of that class. */
  lemma {:induction false} NoneOfClass(p: string, k: CharClass)
    requires forall c :: c in p ==> !InClass(c, k)
    ensures !HasSome(p, k)
  {
    forall i | 0 <= i < |p| ensures !InClass(p[i], k) {
      assert p[i] in p;
    }
  }

  /** The rejected examples: each fails at its own guard. */
  lemma ExampleTooShortRejected()
    ensures ValidateStrength("short") == Err(TooShort)
  {
  }

  lemma ExampleNoUppercaseRejected()
    ensures ValidateStrength("onlylowercase1!") == Err(NoUppercase)
  {
    NoneOfClass("onlylowercase1!", Upper);
  }

  lemma ExampleNoLowercaseRejected()
    ensures ValidateStrength("ONLYUPPERCASE1!") == Err(NoLowercase)
  {
    var p := "ONLYUPPERCASE1!";
    assert InClass(p[0], Upper);
    NoneOfClass(p, LowerCase);
  }

  lemma ExampleNoDigitRejected()
    ensures ValidateStrength("NoDigits!") == Err(NoDigit)
  {
    var p := "NoDigits!";
    assert InClass(p[0], Upper) && InClass(p[1], LowerCase);
    NoneOfClass(p, Digit);
  }

  lemma ExampleNoSpecialCharRejected()
    ensures ValidateStrength("NoSpecialChar123") == Err(NoSpecialChar)
  {
    var p := "NoSpecialChar123";
    assert InClass(p[0], Upper) && InClass(p[1], LowerCase) && InClass(p[13], Digit);
    NoneOfClass(p, Special);
  }

  /**
   * The stored digest of a password. bcrypt is modelled as an ideal, injective
   * hash: only the password it was made from verifies against it.
   */
  datatype Digest = Bcrypt(preimage: string)

  function Hash(p: string): Digest
  {
    Bcrypt(p)
  }

  /** `verify_password`: true exactly for the password the digest was made from. */
  function Verify(p: string, d: Digest): (ok: bool)
    ensures ok <==> d == Hash(p)
  {
    d.preimage == p
  }

  lemma HashVerifies(p: string, q: string)
    ensures Verify(p, Hash(p))
    ensures q != p ==> !Verify(q, Hash(p))
  {
  }
}
