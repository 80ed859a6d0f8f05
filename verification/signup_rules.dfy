/**
  The two value checks of the signup form (src/components/Signup.jsx):
  the email pattern `^[a-zA-Z0-9._%+-]+@[a-zA-Z0-9.-]+\.[a-zA-Z]{2,}$` and
  the five password rules.
 */
module SignupRules {
  import opened Optional
  import opened Text

  /** The class of the part before `@`: `[a-zA-Z0-9._%+-]`. */
  predicate IsLocalChar(c: char) {
    IsAsciiLetter(c) || IsAsciiDigit(c) || c == '.' || c == '_' || c == '%' || c == '+' || c == '-'
  }

  /** The class of the domain: `[a-zA-Z0-9.-]`. */
  predicate IsDomainChar(c: char) {
    IsAsciiLetter(c) || IsAsciiDigit(c) || c == '.' || c == '-'
  }

  /**
    `s` is `local@domain.tld` with the `@` at `at` and the final `.` at
    `dot`: a non-empty local part, a non-empty domain, and a top-level
    domain of at least two ASCII letters.
   */
  predicate SplitsAsEmail(s: string, at: nat, dot: nat) {
    && 0 < at && at + 1 < dot && dot + 2 < |s|
    && s[at] == '@' && s[dot] == '.'
    && AllChars(s[..at], IsLocalChar)
    && AllChars(s[at + 1..dot], IsDomainChar)
    && AllChars(s[dot + 1..], IsAsciiLetter)
  }

  /** The regular expression's meaning: some way of splitting `s` matches. */
  ghost predicate MatchesEmailRegex(s: string) {
    exists at: nat, dot: nat :: SplitsAsEmail(s, at, dot)
  }

  /**
    `emailRegex.test(s)`, decided without search: the only candidate `@` is
    the first one and the only candidate separator is the last `.`.
   */
  predicate IsValidEmail(s: string) {
    match (IndexOf(s, '@'), LastIndexOf(s, '.'))
    case (Some(at), Some(dot)) => SplitsAsEmail(s, at, dot)
    case _ => false
  }

  /** The direct check accepts exactly the strings the regular expression matches. */
  lemma EmailTestMatchesRegex(s: string)
    ensures IsValidEmail(s) <==> MatchesEmailRegex(s)
  {
    if MatchesEmailRegex(s) {
      var at: nat, dot: nat :| SplitsAsEmail(s, at, dot);
      var first := IndexOf(s, '@');
      var last := LastIndexOf(s, '.');
      assert first.Some? && first.value == at;
      assert last.Some? && last.value == dot;
    }
  }

  /** `[!@#$%^&*(),.?":{}|<>]`. */
  predicate IsSpecialChar(c: char) {
    c in "!@#$%^&*(),.?\":{}|<>"
  }

  /** The five rules `getPasswordRules` reports, each shown as a checklist item. */
  datatype PasswordRules = PasswordRules(
    minLength: bool,
    hasUppercase: bool,
    hasLowercase: bool,
    hasNumber: bool,
    hasSpecialChar: bool)

  function GetPasswordRules(v: string): (r: PasswordRules)
    ensures r.minLength <==> |v| >= 8
    ensures r.hasUppercase <==> exists i :: 0 <= i < |v| && IsAsciiUpper(v[i])
    ensures r.hasLowercase <==> exists i :: 0 <= i < |v| && IsAsciiLower(v[i])
    ensures r.hasNumber <==> exists i :: 0 <= i < |v| && IsAsciiDigit(v[i])
    ensures r.hasSpecialChar <==> exists i :: 0 <= i < |v| && IsSpecialChar(v[i])
  {
    PasswordRules(
      |v| >= 8,
      AnyChar(v, IsAsciiUpper),
      AnyChar(v, IsAsciiLower),
      AnyChar(v, IsAsciiDigit),
      AnyChar(v, IsSpecialChar))
  }

  /** `isPasswordValid(v)`: every rule holds. */
  predicate IsPasswordValid(v: string) {
    var r := GetPasswordRules(v);
    r.minLength && r.hasUppercase && r.hasLowercase && r.hasNumber && r.hasSpecialChar
  }

  /** A valid password has all five kinds of content; one missing kind makes it invalid. */
  lemma PasswordValidIffAllRules(v: string)
    ensures IsPasswordValid(v) <==>
              && |v| >= 8
              && (exists i :: 0 <= i < |v| && IsAsciiUpper(v[i]))
              && (exists i :: 0 <= i < |v| && IsAsciiLower(v[i]))
              && (exists i :: 0 <= i < |v| && IsAsciiDigit(v[i]))
              && (exists i :: 0 <= i < |v| && IsSpecialChar(v[i]))
    ensures IsPasswordValid(v) ==> v != ""
  {
  }

  /** Typing more characters after a valid password keeps it valid. */
  lemma PasswordValidityIsMonotone(v: string, w: string)
    requires IsPasswordValid(v)
    ensures IsPasswordValid(v + w)
  {
    var r := GetPasswordRules(v);
    var i1 :| 0 <= i1 < |v| && IsAsciiUpper(v[i1]);
    var i2 :| 0 <= i2 < |v| && IsAsciiLower(v[i2]);
    var i3 :| 0 <= i3 < |v| && IsAsciiDigit(v[i3]);
    var i4 :| 0 <= i4 < |v| && IsSpecialChar(v[i4]);
    assert (v + w)[i1] == v[i1] && (v + w)[i2] == v[i2] && (v + w)[i3] == v[i3] && (v + w)[i4] == v[i4];
  }

  /** A password without an upper-case letter fails, however long it is. */
  lemma NoUpperCaseIsInvalid(v: string)
    requires forall i :: 0 <= i < |v| ==> !IsAsciiUpper(v[i])
    ensures !IsPasswordValid(v)
  {
  }
}
