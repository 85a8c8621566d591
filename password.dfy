/** `IsStrongPasswordConstraint.validate`
    (src/common/decorators/is-strong-password.decorator.ts) and the identical
    pattern written inline on the registration body (src/auth/dto/register.dto.ts).

    The pattern `^(?=.*[a-z])(?=.*[A-Z])(?=.*\d)(?=.*[!@#$%^&*])\S{8,}$` is
    modelled as one left-to-right scan that records what it has seen, and
    proved equal to the rules it is meant to state. */
module PasswordValidator {
  import opened Common
  import TimeUtils

  predicate IsLower(c: char) { 'a' <= c <= 'z' }
  predicate IsUpper(c: char) { 'A' <= c <= 'Z' }
  predicate IsDigit(c: char) { '0' <= c <= '9' }
  predicate IsSymbol(c: char) {
    c == '!' || c == '@' || c == '#' || c == '$' || c == '%' || c == '^' || c == '&' || c == '*'
  }

  // ---- the rules ----

  ghost predicate Has(s: string, p: char -> bool) { exists i :: 0 <= i < |s| && p(s[i]) }

  ghost predicate PasswordRules(s: string) {
    && |s| >= 8
    && (forall i :: 0 <= i < |s| ==> !TimeUtils.IsJsSpace(s[i]))
    && Has(s, IsLower) && Has(s, IsUpper) && Has(s, IsDigit) && Has(s, IsSymbol)
  }

  // ---- the scan ----

  datatype Seen = Seen(lower: bool, upper: bool, digit: bool, symbol: bool, space: bool)

  function Scan(s: string): Seen {
    if |s| == 0 then Seen(false, false, false, false, false)
    else
      var q := Scan(s[..|s| - 1]);
      var c := s[|s| - 1];
      Seen(q.lower || IsLower(c), q.upper || IsUpper(c), q.digit || IsDigit(c),
           q.symbol || IsSymbol(c), q.space || TimeUtils.IsJsSpace(c))
  }

  /** `strongPasswordRegex.test(s)` */
  predicate PatternMatches(s: string) {
    var q := Scan(s);
    q.lower && q.upper && q.digit && q.symbol && !q.space && |s| >= 8
  }

  lemma {:induction false} ScanMeaning(s: string)
    ensures Scan(s).lower <==> Has(s, IsLower)
    ensures Scan(s).upper <==> Has(s, IsUpper)
    ensures Scan(s).digit <==> Has(s, IsDigit)
    ensures Scan(s).symbol <==> Has(s, IsSymbol)
    ensures Scan(s).space <==> exists i :: 0 <= i < |s| && TimeUtils.IsJsSpace(s[i])
  {
    if |s| > 0 {
      var p := s[..|s| - 1];
      ScanMeaning(p);
      assert forall i :: 0 <= i < |p| ==> p[i] == s[i];
      assert s == p + [s[|s| - 1]];
    }
  }

  /** `validate(password)`: a string the pattern accepts. */
  function IsStrongPassword(password: Input): (ok: bool)
    ensures ok <==> password.Text? && PasswordRules(password.s)
  {
    ScanMeaning(if password.Text? then password.s else "");
    match password
    case NotText => false
    case Text(s) => PatternMatches(s)
  }

  /** The registration body's own rule: `@IsNotEmpty`, `@IsString` and
      `@Matches` with the same pattern. */
  predicate RegisterPasswordAccepted(password: Input) {
    password.Text? && password.s != "" && PatternMatches(password.s)
  }

  /** Registration accepts exactly the passwords the decorator accepts. */
  lemma RegisterRuleIsStrongPassword(password: Input)
    ensures RegisterPasswordAccepted(password) == IsStrongPassword(password)
  {
  }
}
