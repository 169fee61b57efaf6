/**
 * Shared vocabulary for the model: an option type, bytes, character classes,
 * C-string views of platform strings, decimal conversion and the C integer
 * division the sources rely on.
 */
module Common {

  datatype Option<+T> = None | Some(value: T)

  /**
   * The two revisions of the program: `Current` is the newer one (under Code/),
   * `Legacy` the older one (under Windows/SmsRouterPi/).
   */
  datatype Revision = Current | Legacy

  /** One octet; bit-vector arithmetic makes the sources' shifts and masks exact. */
  type byte = bv8

  const Int32Min: int := -0x8000_0000
  const Int32Max: int := 0x7FFF_FFFF

  /**
   * `b << k` and `b >> k` on one byte (bits moved past either end are dropped),
   * written out per shift amount so that every shift the verifier sees is by a constant.
   */
  function Shl(b: byte, k: nat): byte
  {
    match k
    case 0 => b
    case 1 => b << 1
    case 2 => b << 2
    case 3 => b << 3
    case 4 => b << 4
    case 5 => b << 5
    case 6 => b << 6
    case 7 => b << 7
    case _ => 0
  }

  function Shr(b: byte, k: nat): byte
  {
    match k
    case 0 => b
    case 1 => b >> 1
    case 2 => b >> 2
    case 3 => b >> 3
    case 4 => b >> 4
    case 5 => b >> 5
    case 6 => b >> 6
    case 7 => b >> 7
    case _ => 0
  }

  predicate IsDigit(ch: char) { '0' <= ch <= '9' }

  predicate IsAllDigits(s: string) { forall i :: 0 <= i < |s| ==> IsDigit(s[i]) }

  predicate IsHexDigit(ch: char) { '0' <= ch <= '9' || 'a' <= ch <= 'f' || 'A' <= ch <= 'F' }

  function HexDigitValue(ch: char): (v: int)
    requires IsHexDigit(ch)
    ensures 0 <= v < 16
    ensures IsDigit(ch) ==> v == ch as int - '0' as int
  {
    if '0' <= ch <= '9' then ch as int - '0' as int
    else if 'a' <= ch <= 'f' then ch as int - 'a' as int + 10
    else ch as int - 'A' as int + 10
  }

  /** The upper-case hexadecimal digit for a nibble. */
  function HexChar(n: int): (ch: char)
    requires 0 <= n < 16
    ensures IsHexDigit(ch) && HexDigitValue(ch) == n
  {
    if n < 10 then ('0' as int + n) as char else ('A' as int + n - 10) as char
  }

  /** The characters `iswspace` accepts in the "C" locale. */
  predicate IsSpace(ch: char) {
    ch == ' ' || ch == '\t' || ch == '\n' || ch == '\r' || ch == '\U{B}' || ch == '\U{C}'
  }

  /** The view of a string that the C string functions (`wcscmp`, `wcsstr`) see: up to the first NUL. */
  function CStr(s: string): (r: string)
    ensures |r| <= |s| && r == s[..|r|]
    ensures '\0' !in r
    ensures |r| < |s| ==> s[|r|] == '\0'
    ensures '\0' !in s ==> r == s
  {
    if s == [] || s[0] == '\0' then [] else [s[0]] + CStr(s[1..])
  }

  /** Concatenation regrouped, for the loops that build a result front to back. */
  lemma AppendAssoc<T>(a: seq<T>, b: seq<T>, c: seq<T>)
    ensures a + (b + c) == (a + b) + c
  {
  }

  lemma CStrOfNulFree(s: string)
    requires '\0' !in s
    ensures CStr(s) == s
  {
  }

  predicate StartsWith(s: string, prefix: string) {
    |prefix| <= |s| && s[..|prefix|] == prefix
  }

  /** `needle` occurs somewhere in `s` (what a successful `find` or `wcsstr` reports). */
  predicate Contains(s: string, needle: string)
    decreases |s|
  {
    StartsWith(s, needle) || (s != [] && Contains(s[1..], needle))
  }

  /** Value of a run of decimal digits, most significant first. */
  function DecimalValue(s: string): (n: nat)
    requires IsAllDigits(s)
  {
    if s == [] then 0 else 10 * DecimalValue(s[..|s| - 1]) + (s[|s| - 1] as int - '0' as int)
  }

  /** The shortest decimal spelling of a natural number (what `%i` prints for it). */
  function NatToDecimal(n: nat): (s: string)
    ensures |s| >= 1 && IsAllDigits(s)
    ensures n < 10 <==> |s| == 1
    ensures s[0] != '0' || n == 0
  {
    if n < 10 then [('0' as int + n) as char] else NatToDecimal(n / 10) + [('0' as int + n % 10) as char]
  }

  lemma {:induction false} DecimalRoundTrip(n: nat)
    ensures DecimalValue(NatToDecimal(n)) == n
  {
    if n >= 10 {
      var s := NatToDecimal(n);
      assert s[..|s| - 1] == NatToDecimal(n / 10);
      DecimalRoundTrip(n / 10);
    }
  }

  /**
   * `printf` conversion of an int with a minimum field width: an optional sign
   * ('-' for negatives, '+' when `plus` is set), then zeros up to `width`, then the digits.
   * `%i` is width 0, `%02i` is width 2, `%+02i` is width 2 with `plus`.
   */
  function FormatInt(n: int, width: nat, plus: bool): (s: string)
    ensures |s| >= width
  {
    var sign := if n < 0 then "-" else if plus then "+" else "";
    var digits := NatToDecimal(if n < 0 then -n else n);
    var padding := if |sign| + |digits| < width then width - |sign| - |digits| else 0;
    sign + seq(padding, _ => '0') + digits
  }

  /**
   * C's `/` on ints: the quotient truncated toward zero. The remainder `a - b * q`
   * is smaller than `b` in magnitude and has the sign of `a`, which fixes `q`.
   */
  function TruncDiv(a: int, b: int): (q: int)
    requires b > 0
    ensures var r := a - b * q; -b < r < b && (a >= 0 ==> r >= 0) && (a <= 0 ==> r <= 0)
  {
    if a >= 0 then a / b else -((-a) / b)
  }
}
