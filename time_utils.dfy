/** `parseTimeStringToMs` (src/common/utils/time.utils.ts): a duration such as
    "15m" or "7 d" read as milliseconds, 0 for anything else. The pattern is
    `^(\d+)\s*(d|h|m|s)$`: decimal digits, optional white space, one unit
    letter, and nothing before or after. Numbers are exact integers here;
    JavaScript's are doubles, which agree only below 2^53. */
module TimeUtils {

  const MsPerSecond: nat := 1000
  const MsPerMinute: nat := 60 * 1000
  const MsPerHour: nat := 60 * 60 * 1000
  const MsPerDay: nat := 24 * 60 * 60 * 1000

  predicate IsDigit(c: char) { '0' <= c <= '9' }

  /** JavaScript's `\s`. */
  predicate IsJsSpace(c: char) {
    || c == ' ' || c == '\t' || c == '\n' || c == '\r'
    || c == '\U{000B}' || c == '\U{000C}' || c == '\U{00A0}' || c == '\U{1680}'
    || ('\U{2000}' <= c <= '\U{200A}') || c == '\U{2028}' || c == '\U{2029}'
    || c == '\U{202F}' || c == '\U{205F}' || c == '\U{3000}' || c == '\U{FEFF}'
  }

  predicate IsUnit(c: char) { c == 'd' || c == 'h' || c == 'm' || c == 's' }

  predicate AllDigits(s: string) { forall i :: 0 <= i < |s| ==> IsDigit(s[i]) }

  predicate AllSpace(s: string) { forall i :: 0 <= i < |s| ==> IsJsSpace(s[i]) }

  /** `s` is matched, with the digit group `s[..k]`. */
  predicate MatchesAt(s: string, k: nat) {
    && 1 <= k < |s|
    && AllDigits(s[..k])
    && AllSpace(s[k..|s| - 1])
    && IsUnit(s[|s| - 1])
  }

  /** `s` is matched by the pattern. */
  ghost predicate Matches(s: string) {
    exists k :: MatchesAt(s, k)
  }

  /** `parseInt(digits, 10)` */
  function DecimalValue(s: string): nat
    requires AllDigits(s)
  {
    if |s| == 0 then 0
    else DecimalValue(s[..|s| - 1]) * 10 + (s[|s| - 1] as int - '0' as int)
  }

  /** Decimal notation of `n`, without leading zeros. */
  function Decimal(n: nat): (s: string)
    ensures |s| > 0 && AllDigits(s)
  {
    var d := ['0' + (n % 10) as char];
    if n < 10 then d else Decimal(n / 10) + d
  }

  function UnitMs(u: char): nat {
    match u
    case 'd' => MsPerDay
    case 'h' => MsPerHour
    case 'm' => MsPerMinute
    case 's' => MsPerSecond
    case _ => 0
  }

  /** Length of the longest run of digits `s` starts with (`\d+` is greedy). */
  function DigitRun(s: string): (k: nat)
    ensures k <= |s| && AllDigits(s[..k])
    ensures k < |s| ==> !IsDigit(s[k])
  {
    if |s| == 0 || !IsDigit(s[0]) then 0
    else
      var k := 1 + DigitRun(s[1..]);
      assert s[..k] == [s[0]] + s[1..][..k - 1];
      k
  }

  function ParseTimeStringToMs(timeString: string): (ms: nat) {
    var k := DigitRun(timeString);
    if MatchesAt(timeString, k) then
      DecimalValue(timeString[..k]) * UnitMs(timeString[|timeString| - 1])
    else 0
  }

  /** A run of digits followed by a non-digit (or the end) is the leading run. */
  lemma {:induction false} DigitRunUnique(s: string, k: nat)
    requires k <= |s| && AllDigits(s[..k])
    requires k < |s| ==> !IsDigit(s[k])
    ensures DigitRun(s) == k
  {
    if k > 0 {
      assert IsDigit(s[..k][0]);
      assert s[1..][..k - 1] == s[..k][1..];
      DigitRunUnique(s[1..], k - 1);
    }
  }

  /** The digit group of a match is the whole leading run of digits. */
  lemma MatchIsDigitRun(s: string, k: nat)
    requires MatchesAt(s, k)
    ensures k == DigitRun(s)
  {
    if k < |s| - 1 { assert s[k] == s[k..|s| - 1][0]; }
    DigitRunUnique(s, k);
  }

  /** Anything the pattern rejects, leading or trailing characters included, gives 0. */
  lemma NoMatchIsZero(s: string)
    requires !Matches(s)
    ensures ParseTimeStringToMs(s) == 0
  {
  }

  /** A match gives its number times the length of its unit. */
  lemma MatchIsProduct(s: string, k: nat)
    requires MatchesAt(s, k)
    ensures ParseTimeStringToMs(s) == DecimalValue(s[..k]) * UnitMs(s[|s| - 1])
  {
    MatchIsDigitRun(s, k);
  }

  lemma {:induction false} DecimalRoundTrip(n: nat)
    ensures DecimalValue(Decimal(n)) == n
  {
    var d := ['0' + (n % 10) as char];
    if n >= 10 {
      DecimalRoundTrip(n / 10);
      var s := Decimal(n / 10) + d;
      assert s[..|s| - 1] == Decimal(n / 10);
    }
  }

  /** `"<n><spaces><unit>"` reads back as `n` units: days, hours, minutes or seconds. */
  lemma WrittenDuration(n: nat, spaces: string, u: char)
    requires AllSpace(spaces) && IsUnit(u)
    ensures ParseTimeStringToMs(Decimal(n) + spaces + [u])
         == n * (if u == 'd' then 86400000 else if u == 'h' then 3600000
                 else if u == 'm' then 60000 else 1000)
  {
    var s := Decimal(n) + spaces + [u];
    var k := |Decimal(n)|;
    assert s[..k] == Decimal(n);
    assert s[k..|s| - 1] == spaces;
    assert MatchesAt(s, k);
    MatchIsProduct(s, k);
    DecimalRoundTrip(n);
  }
}
