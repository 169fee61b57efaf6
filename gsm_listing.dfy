/**
 * `GetMessageIndexFromListing`: the message index of a `+CMGL: <index>,...`
 * listing line, the decimal digits that follow the first space.
 */
module GsmListing {
  import opened Common

  /** Position of the first `c` in `s`, or |s| when there is none. */
  function IndexOf(s: string, c: char): (i: nat)
    ensures i <= |s| && (i < |s| ==> s[i] == c)
    ensures forall j :: 0 <= j < i ==> s[j] != c
  {
    if s == [] then 0 else if s[0] == c then 0 else 1 + IndexOf(s[1..], c)
  }

  /** Length of the run of decimal digits that starts `s`. */
  function DigitRun(s: string): (k: nat)
    ensures k <= |s| && IsAllDigits(s[..k])
    ensures k < |s| ==> !IsDigit(s[k])
  {
    if s == [] || !IsDigit(s[0]) then 0
    else
      var k := 1 + DigitRun(s[1..]);
      assert s[..k] == [s[0]] + s[1..][..k - 1];
      k
  }

  /** The first position holding `c` is determined by the characters before it. */
  lemma IndexOfUnique(s: string, c: char, i: nat)
    requires i <= |s| && (i < |s| ==> s[i] == c)
    requires forall j :: 0 <= j < i ==> s[j] != c
    ensures IndexOf(s, c) == i
  {
  }

  /** A digit run ends at the first non-digit. */
  lemma {:induction false} DigitRunUnique(s: string, k: nat)
    requires k <= |s| && IsAllDigits(s[..k]) && (k < |s| ==> !IsDigit(s[k]))
    ensures DigitRun(s) == k
  {
    if k > 0 {
      assert IsDigit(s[..k][0]);
      assert s[1..][..k - 1] == s[..k][1..];
      DigitRunUnique(s[1..], k - 1);
    }
  }

  /** The value of the digit run from `start`, or `None` where it runs to the end of `value`. */
  function DigitsAt(value: string, start: nat): Option<int>
    requires start <= |value|
  {
    var k := DigitRun(value[start..]);
    assert value[start..][..k] == value[start..start + k];
    if start + k == |value| then None else Some(DecimalValue(value[start..start + k]))
  }

  /**
   * The index in a listing line: the value of the digits right after the first
   * space (0 when there are none); `None` where there is no space, where the space
   * ends the line, or where the digits run to its end.
   */
  function ListingIndex(value: string): Option<int>
  {
    var space := IndexOf(value, ' ');
    if space + 1 >= |value| then None else DigitsAt(value, space + 1)
  }

  /** The walk to just past the first space, failing at the end of `value`. */
  method SkipPastSpace(value: string) returns (ok: bool, next: nat)
    ensures ok <==> IndexOf(value, ' ') + 1 < |value|
    ensures ok ==> next == IndexOf(value, ' ') + 1
  {
    var it := 0;
    if it == |value| {
      return false, it;
    }
    while true
      invariant 0 <= it < |value|
      invariant forall j :: 0 <= j < it ==> value[j] != ' '
      decreases |value| - it
    {
      var c := value[it];
      it := it + 1;
      if c == ' ' {
        break;
      }
      if it == |value| {
        IndexOfUnique(value, ' ', |value|);
        return false, it;
      }
    }
    IndexOfUnique(value, ' ', it - 1);
    return it < |value|, it;
  }

  /** The digit loop: accumulate `num` and fail when the end follows a digit. */
  method ReadDigits(value: string, start: nat) returns (num: Option<int>)
    requires start < |value|
    ensures num == DigitsAt(value, start)
  {
    var it := start;
    var n := 0;
    while IsDigit(value[it])
      invariant start <= it < |value|
      invariant IsAllDigits(value[start..it]) && n == DecimalValue(value[start..it])
      decreases |value| - it
    {
      DigitStep(value, start, it);
      n := n * 10 + (value[it] as int - '0' as int);
      it := it + 1;
      if it == |value| {
        DigitRunEndsAt(value, start, it);
        return None;
      }
    }
    DigitRunEndsAt(value, start, it);
    num := Some(n);
  }

  /** One more digit: the value so far shifted by one decimal place, plus the digit. */
  lemma DigitStep(value: string, start: nat, it: nat)
    requires start <= it < |value| && IsAllDigits(value[start..it]) && IsDigit(value[it])
    ensures IsAllDigits(value[start..it + 1])
    ensures DecimalValue(value[start..it + 1]) == 10 * DecimalValue(value[start..it]) + (value[it] as int - '0' as int)
  {
    var s := value[start..it + 1];
    assert |s| - 1 == it - start && s[|s| - 1] == value[it];
    forall k | 0 <= k < it - start ensures s[..|s| - 1][k] == value[start..it][k] {
    }
    assert s[..|s| - 1] == value[start..it];
    forall k | 0 <= k < |s| ensures IsDigit(s[k]) {
      if k < it - start {
        assert s[k] == value[start..it][k];
      }
    }
  }

  /** The digits from `start` end at `it`: at the end of the line there is no value. */
  lemma DigitRunEndsAt(value: string, start: nat, it: nat)
    requires start <= it <= |value| && IsAllDigits(value[start..it]) && (it < |value| ==> !IsDigit(value[it]))
    ensures DigitsAt(value, start) == if it == |value| then None else Some(DecimalValue(value[start..it]))
  {
    assert value[start..][..it - start] == value[start..it];
    DigitRunUnique(value[start..], it - start);
  }

  /** `GetMessageIndexFromListing`: past the first space, then the digits. */
  method GetMessageIndexFromListing(value: string) returns (index: Option<int>)
    ensures index == ListingIndex(value)
  {
    var ok, it := SkipPastSpace(value);
    if !ok {
      return None;
    }
    index := ReadDigits(value, it);
  }

  /** A line with no space has no index. */
  lemma NoSpaceFails(value: string)
    requires forall j :: 0 <= j < |value| ==> value[j] != ' '
    ensures ListingIndex(value) == None
  {
    IndexOfUnique(value, ' ', |value|);
  }

  /** Digits that run to the end of the line give no index: the walk checks for the end after each one. */
  lemma DigitsToEndFail(prefix: string, digits: string)
    requires forall j :: 0 <= j < |prefix| ==> prefix[j] != ' '
    requires IsAllDigits(digits)
    ensures ListingIndex(prefix + " " + digits) == None
  {
    var value := prefix + " " + digits;
    IndexOfUnique(value, ' ', |prefix|);
    assert value[|prefix| + 1..] == digits;
    assert digits[..|digits|] == digits;
    DigitRunUnique(digits, |digits|);
  }

  /**
   * The index printed after the first space and ended by any non-digit is read
   * back: for `"+CMGL: 7,1,,23"` the index is 7.
   */
  lemma ListingRoundTrip(prefix: string, n: nat, rest: string)
    requires forall j :: 0 <= j < |prefix| ==> prefix[j] != ' '
    requires rest != [] && !IsDigit(rest[0])
    ensures ListingIndex(prefix + " " + NatToDecimal(n) + rest) == Some(n)
  {
    var digits := NatToDecimal(n);
    var value := prefix + " " + digits + rest;
    IndexOfUnique(value, ' ', |prefix|);
    var after := value[|prefix| + 1..];
    assert after == digits + rest;
    assert after[..|digits|] == digits;
    DigitRunUnique(after, |digits|);
    assert value[|prefix| + 1..|prefix| + 1 + |digits|] == digits;
    DecimalRoundTrip(n);
  }

  /** A space followed at once by a non-digit gives index 0. */
  lemma EmptyRunIsZero(prefix: string, rest: string)
    requires forall j :: 0 <= j < |prefix| ==> prefix[j] != ' '
    requires rest != [] && !IsDigit(rest[0])
    ensures ListingIndex(prefix + " " + rest) == Some(0)
  {
    var value := prefix + " " + rest;
    IndexOfUnique(value, ' ', |prefix|);
    assert value[|prefix| + 1..] == rest;
    DigitRunUnique(rest, 0);
  }
}
