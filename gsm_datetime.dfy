/**
 * `ParseGsmDateTime`: the service-centre time stamp of an SMS-DELIVER (3GPP TS
 * 23.040 section 9.2.3.11), handed over as fourteen characters (two per field,
 * year first, then the two time-zone digits), turned into the text
 * `%i-%02i-%02iT%02i:%02i:%02i%+02i:00`.
 *
 * The current revision matches the fourteen characters against a digits-only
 * pattern; the legacy revision reads the six two-digit fields with
 * `ParseDateTimeNumber` and takes the two time-zone characters unchecked.
 * The current year, which both read from the local clock, is a parameter.
 */
module GsmDateTime {
  import opened Common

  datatype Timestamp = Timestamp(year: int, month: int, day: int, hour: int, minute: int, second: int, zone: int)

  /** The value of a character as a decimal digit, `ch - '0'`, also for characters that are not digits. */
  function DigitValue(ch: char): int
  {
    ch as int - '0' as int
  }

  /** `(d1 - '0') * 10 + (d2 - '0')` for the characters at i and i + 1. */
  function TwoDigits(value: string, i: nat): int
    requires i + 1 < |value|
  {
    DigitValue(value[i]) * 10 + DigitValue(value[i + 1])
  }

  /** Two-digit year placed in the century of the current year, or the one before when it would lie in the future. */
  function CenturyYear(yy: int, currentYear: nat): int
  {
    var year := yy + (currentYear / 100) * 100;
    if year > currentYear then year - 100 else year
  }

  /** The range checks made on month, day, hour, minute and second. */
  predicate FieldsInRange(month: int, day: int, hour: int, minute: int, second: int)
  {
    1 <= month <= 12 && 1 <= day <= 31 && 0 <= hour <= 23 && 0 <= minute <= 59 && 0 <= second <= 59
  }

  /**
   * `tz = (((tz1 & 0x7F) + tz) * 15) / 60`, negated when `tz1 & 0x80`: the masks on the
   * two's-complement int are the residues modulo 128 and 256, and `/` truncates.
   */
  function ZoneHours(tz: int, tz1: int): int
  {
    var h := TruncDiv((tz1 % 128 + tz) * 15, 60);
    if tz1 % 256 >= 128 then -h else h
  }

  /** The fields read from fourteen characters, before any check. */
  function Fields(value: string, currentYear: nat): Timestamp
    requires |value| >= 14
  {
    Timestamp(CenturyYear(TwoDigits(value, 0), currentYear), TwoDigits(value, 2), TwoDigits(value, 4),
              TwoDigits(value, 6), TwoDigits(value, 8), TwoDigits(value, 10),
              ZoneHours(DigitValue(value[12]), DigitValue(value[13])))
  }

  /** The current revision: fourteen leading digits, then the range checks. */
  function ParseTimestamp(value: string, currentYear: nat): (r: Option<Timestamp>)
    ensures r.Some? <==> |value| >= 14 && IsAllDigits(value[..14]) &&
                         FieldsInRange(TwoDigits(value, 2), TwoDigits(value, 4), TwoDigits(value, 6),
                                       TwoDigits(value, 8), TwoDigits(value, 10))
    ensures r.Some? ==> r.value == Fields(value, currentYear)
  {
    if |value| < 14 || !IsAllDigits(value[..14]) then None
    else
      var t := Fields(value, currentYear);
      if FieldsInRange(t.month, t.day, t.hour, t.minute, t.second) then Some(t) else None
  }

  /** The text `%i-%02i-%02iT%02i:%02i:%02i%+02i:00` prints for a time stamp. */
  function FormatTimestamp(t: Timestamp): string
  {
    DateText(t) + "T" + TimeText(t) + ZoneText(t)
  }

  /** `%i-%02i-%02i` */
  function DateText(t: Timestamp): string
  {
    FormatInt(t.year, 0, false) + "-" + FormatInt(t.month, 2, false) + "-" + FormatInt(t.day, 2, false)
  }

  /** `%02i:%02i:%02i` */
  function TimeText(t: Timestamp): string
  {
    FormatInt(t.hour, 2, false) + ":" + FormatInt(t.minute, 2, false) + ":" + FormatInt(t.second, 2, false)
  }

  /** `%+02i:00` */
  function ZoneText(t: Timestamp): string
  {
    FormatInt(t.zone, 2, true) + ":00"
  }

  /** `ParseGsmDateTime` of the current revision: the text, or `None` where it returns false. */
  function ParseGsmDateTime(value: string, currentYear: nat): Option<string>
  {
    match ParseTimestamp(value, currentYear)
    case None => None
    case Some(t) => Some(FormatTimestamp(t))
  }

  /** The year lies within the hundred years ending with the current one and keeps its last two digits. */
  lemma YearWindow(value: string, currentYear: nat)
    requires ParseTimestamp(value, currentYear).Some?
    ensures currentYear - 99 <= ParseTimestamp(value, currentYear).value.year <= currentYear
    ensures ParseTimestamp(value, currentYear).value.year % 100 == TwoDigits(value, 0)
  {
    assert IsDigit(value[..14][0]) && IsDigit(value[..14][1]);
    CenturyWindow(TwoDigits(value, 0), currentYear);
  }

  /** A two-digit year is placed in the hundred years ending with the current one. */
  lemma CenturyWindow(yy: int, currentYear: nat)
    requires 0 <= yy <= 99
    ensures currentYear - 99 <= CenturyYear(yy, currentYear) <= currentYear
    ensures CenturyYear(yy, currentYear) % 100 == yy
  {
    var c := currentYear / 100;
    assert currentYear == 100 * c + currentYear % 100;
    var y := yy + c * 100;
    if y > currentYear {
      assert (y - 100) % 100 == yy by {
        assert y - 100 == yy + (c - 1) * 100;
      }
    } else {
      assert y % 100 == yy;
    }
  }

  /**
   * In the current revision both time-zone characters are digits, so the zone is
   * (d13 + d14) * 15 / 60 with the digits added: between 0 and 4 hours, never negative.
   */
  lemma ZoneOfDigits(value: string, currentYear: nat)
    requires ParseTimestamp(value, currentYear).Some?
    ensures ParseTimestamp(value, currentYear).value.zone == (DigitValue(value[12]) + DigitValue(value[13])) * 15 / 60
    ensures 0 <= ParseTimestamp(value, currentYear).value.zone <= 4
  {
    assert IsDigit(value[..14][12]) && IsDigit(value[..14][13]);
    ZoneOfDigitPair(value[12], value[13]);
  }

  /** Two zone digits: the masks change nothing and the sign bit is clear. */
  lemma ZoneOfDigitPair(a: char, b: char)
    requires IsDigit(a) && IsDigit(b)
    ensures ZoneHours(DigitValue(a), DigitValue(b)) == (DigitValue(a) + DigitValue(b)) * 15 / 60
    ensures 0 <= ZoneHours(DigitValue(a), DigitValue(b)) <= 4
  {
  }

  /** A one-digit zone is printed with its sign and no padding: zone 1 gives "+1:00". */
  lemma ZoneSuffix(zone: int)
    requires 0 <= zone <= 9
    ensures ZoneText(Timestamp(0, 0, 0, 0, 0, 0, zone)) == ['+', ('0' as int + zone) as char, ':', '0', '0']
  {
  }

  /** 21 March 2024, 14:07:09, zone digits 0 and 4: "2024-03-21T14:07:09+1:00". */
  lemma FormatExample()
    ensures ParseGsmDateTime("24032114070904", 2025) == Some("2024-03-21T14:07:09+1:00")
  {
    var value := "24032114070904";
    assert IsAllDigits(value[..14]);
    var t := Timestamp(2024, 3, 21, 14, 7, 9, 1);
    assert Fields(value, 2025) == t;
    FormatExampleText();
  }

  lemma FormatExampleText()
    ensures FormatTimestamp(Timestamp(2024, 3, 21, 14, 7, 9, 1)) == "2024-03-21T14:07:09+1:00"
  {
    var t := Timestamp(2024, 3, 21, 14, 7, 9, 1);
    DateExample();
    TimeExample();
    ZoneSuffix(1);
    assert "2024-03-21" + "T" + "14:07:09" + "+1:00" == "2024-03-21T14:07:09+1:00";
  }

  lemma DateExample()
    ensures DateText(Timestamp(2024, 3, 21, 14, 7, 9, 1)) == "2024-03-21"
  {
    assert FormatInt(2024, 0, false) == "2024" by {
      assert NatToDecimal(2024) == NatToDecimal(202) + ['4'];
      assert NatToDecimal(202) == NatToDecimal(20) + ['2'];
      assert NatToDecimal(20) == NatToDecimal(2) + ['0'];
    }
    PaddedField(3);
    PaddedField(21);
  }

  lemma TimeExample()
    ensures TimeText(Timestamp(2024, 3, 21, 14, 7, 9, 1)) == "14:07:09"
  {
    PaddedField(14);
    PaddedField(7);
    PaddedField(9);
  }

  /** The two digits `%02i` prints for a value from 0 to 99, tens first. */
  function TwoDigitText(n: int): (s: string)
    requires 0 <= n <= 99
    ensures |s| == 2 && IsAllDigits(s)
  {
    [('0' as int + n / 10) as char, ('0' as int + n % 10) as char]
  }

  /** A date prints as the year's decimal digits, then the month and the day as two digits each, joined by '-'. */
  lemma DateLayout(t: Timestamp)
    requires 0 <= t.year && 1 <= t.month <= 12 && 1 <= t.day <= 31
    ensures DateText(t) == NatToDecimal(t.year) + "-" + TwoDigitText(t.month) + "-" + TwoDigitText(t.day)
    ensures |DateText(t)| == |NatToDecimal(t.year)| + 6
  {
    PaddedField(t.month);
    PaddedField(t.day);
  }

  /** A time prints as hours, minutes and seconds, two digits each, joined by ':'. */
  lemma TimeLayout(t: Timestamp)
    requires 0 <= t.hour <= 23 && 0 <= t.minute <= 59 && 0 <= t.second <= 59
    ensures TimeText(t) == TwoDigitText(t.hour) + ":" + TwoDigitText(t.minute) + ":" + TwoDigitText(t.second)
    ensures |TimeText(t)| == 8
  {
    PaddedField(t.hour);
    PaddedField(t.minute);
    PaddedField(t.second);
  }

  /** `%02i` prints a value from 0 to 99 as exactly two digits, tens first. */
  lemma PaddedField(n: int)
    requires 0 <= n <= 99
    ensures FormatInt(n, 2, false) == [('0' as int + n / 10) as char, ('0' as int + n % 10) as char]
  {
    if n >= 10 {
      assert NatToDecimal(n) == NatToDecimal(n / 10) + [('0' as int + n % 10) as char];
    }
  }

  // The legacy revision.

  /**
   * `ParseDateTimeNumber`: two decimal digits at `it` and `it + 1` give their value and
   * leave the iterator on the second digit; a missing or non-digit character fails.
   */
  function ParseDateTimeNumber(value: string, it: nat): (r: Option<(int, nat)>)
    requires it <= |value|
    ensures r.Some? <==> it + 1 < |value| && IsDigit(value[it]) && IsDigit(value[it + 1])
    ensures r.Some? ==> r.value == (TwoDigits(value, it), it + 1) && 0 <= r.value.0 <= 99
  {
    if it == |value| || !IsDigit(value[it]) then None
    else if it + 1 == |value| || !IsDigit(value[it + 1]) then None
    else Some((DigitValue(value[it]) * 10 + DigitValue(value[it + 1]), it + 1))
  }

  /**
   * What the legacy revision accepts: twelve leading digits (the six fields) in
   * range and two more characters of any kind for the time zone.
   */
  function LegacyTimestamp(value: string, currentYear: nat): Option<Timestamp>
  {
    if |value| < 14 || !IsAllDigits(value[..12]) then None
    else
      var t := Fields(value, currentYear);
      if FieldsInRange(t.month, t.day, t.hour, t.minute, t.second) then Some(t) else None
  }

  /** The text the legacy revision prints, or `None` where it returns false. */
  function LegacyDateTime(value: string, currentYear: nat): Option<string>
  {
    match LegacyTimestamp(value, currentYear)
    case None => None
    case Some(t) => Some(FormatTimestamp(t))
  }

  /**
   * The legacy `ParseGsmDateTime`, walking an iterator through the text; `localYear`
   * is `None` when `localtime_s` fails.
   */
  method ParseGsmDateTimeLegacy(value: string, localYear: Option<nat>) returns (datetime: Option<string>)
    ensures localYear.None? ==> datetime.None?
    ensures localYear.Some? ==> datetime == LegacyDateTime(value, localYear.value)
  {
    if localYear.None? {
      return None;
    }
    var currentYear := localYear.value;
    var it := 0;
    var n := ParseDateTimeNumber(value, it);
    if n.None? {
      LegacyNumberFails(value, currentYear, 0);
      return None;
    }
    var year;
    year, it := n.value.0, n.value.1;
    year := year + (currentYear / 100) * 100;
    if year > currentYear {
      year := year - 100;
    }
    it := it + 1;
    var month := LegacyField(value, currentYear, it);
    if month.None? {
      return None;
    }
    it := it + 2;
    var day := LegacyField(value, currentYear, it);
    if day.None? {
      return None;
    }
    it := it + 2;
    var hour := LegacyField(value, currentYear, it);
    if hour.None? {
      return None;
    }
    it := it + 2;
    var minute := LegacyField(value, currentYear, it);
    if minute.None? {
      return None;
    }
    it := it + 2;
    var second := LegacyField(value, currentYear, it);
    if second.None? {
      return None;
    }
    it := it + 2;
    if it == |value| {
      return None;
    }
    var tz := value[it] as int - '0' as int;
    it := it + 1;
    if it == |value| {
      return None;
    }
    var tz1 := value[it] as int - '0' as int;
    tz := TruncDiv((tz1 % 128 + tz) * 15, 60);
    if tz1 % 256 >= 128 {
      tz := -tz;
    }
    LegacyAccepts(value, currentYear);
    assert Timestamp(year, month.value, day.value, hour.value, minute.value, second.value, tz) == Fields(value, currentYear);
    datetime := Some(FormatTimestamp(Timestamp(year, month.value, day.value, hour.value, minute.value, second.value, tz)));
  }

  /**
   * One field after the year: `ParseDateTimeNumber` at `i` and the field's range
   * check; `None` where the legacy revision returns false.
   */
  method LegacyField(value: string, currentYear: nat, i: nat) returns (v: Option<int>)
    requires 2 <= i <= 10 && i % 2 == 0 && i <= |value|
    ensures v.None? ==> LegacyTimestamp(value, currentYear).None?
    ensures v.Some? ==> ParseDateTimeNumber(value, i).Some? && v.value == TwoDigits(value, i) && FieldOk(i, v.value)
  {
    var n := ParseDateTimeNumber(value, i);
    if n.None? {
      LegacyNumberFails(value, currentYear, i);
      return None;
    }
    if !FieldOk(i, n.value.0) {
      LegacyRangeFails(value, currentYear, i);
      return None;
    }
    return Some(n.value.0);
  }

  /** The range check the legacy revision makes on the field at position `i`. */
  predicate FieldOk(i: nat, v: int)
  {
    if i == 2 then 1 <= v <= 12
    else if i == 4 then 1 <= v <= 31
    else if i == 6 then 0 <= v <= 23
    else 0 <= v <= 59
  }

  /** A field that is not two digits makes the whole text unacceptable. */
  lemma LegacyNumberFails(value: string, currentYear: nat, i: nat)
    requires i <= 10 && i % 2 == 0 && i <= |value|
    requires ParseDateTimeNumber(value, i).None?
    ensures LegacyTimestamp(value, currentYear).None?
  {
    if |value| >= 14 {
      var j := if !IsDigit(value[i]) then i else i + 1;
      assert value[..12][j] == value[j];
      assert !IsDigit(value[..12][j]);
    }
  }

  /** A field out of range makes the whole text unacceptable. */
  lemma LegacyRangeFails(value: string, currentYear: nat, i: nat)
    requires 2 <= i <= 10 && i % 2 == 0 && i + 1 < |value|
    requires !FieldOk(i, TwoDigits(value, i))
    ensures LegacyTimestamp(value, currentYear).None?
  {
  }

  /** Six two-digit fields in range and two more characters are accepted. */
  lemma LegacyAccepts(value: string, currentYear: nat)
    requires |value| >= 14
    requires ParseDateTimeNumber(value, 0).Some? && ParseDateTimeNumber(value, 2).Some?
    requires ParseDateTimeNumber(value, 4).Some? && ParseDateTimeNumber(value, 6).Some?
    requires ParseDateTimeNumber(value, 8).Some? && ParseDateTimeNumber(value, 10).Some?
    requires FieldOk(2, TwoDigits(value, 2)) && FieldOk(4, TwoDigits(value, 4)) && FieldOk(6, TwoDigits(value, 6))
    requires FieldOk(8, TwoDigits(value, 8)) && FieldOk(10, TwoDigits(value, 10))
    ensures LegacyTimestamp(value, currentYear) == Some(Fields(value, currentYear))
  {
    forall i | 0 <= i < 12 ensures IsDigit(value[..12][i]) {
      var k := i / 2;
      assert i == 2 * k || i == 2 * k + 1;
      assert ParseDateTimeNumber(value, 2 * k).Some? by {
        assert k == 0 || k == 1 || k == 2 || k == 3 || k == 4 || k == 5;
      }
    }
  }

  /**
   * The revisions agree wherever the current one accepts; the legacy one also
   * accepts time-zone characters that are not digits.
   */
  lemma RevisionsAgree(value: string, currentYear: nat)
    requires ParseTimestamp(value, currentYear).Some?
    ensures LegacyTimestamp(value, currentYear) == ParseTimestamp(value, currentYear)
  {
    assert value[..14][..12] == value[..12];
  }

  /** "2403211407090:" (zone characters '0' and ':') is refused by the current revision and accepted by the legacy one. */
  lemma LegacyAcceptsNonDigitZone()
    ensures ParseTimestamp("2403211407090:", 2025).None?
    ensures LegacyTimestamp("2403211407090:", 2025) == Some(Timestamp(2024, 3, 21, 14, 7, 9, 2))
  {
    var value := "2403211407090:";
    assert !IsDigit(value[..14][13]);
    assert IsAllDigits(value[..12]);
  }

  /**
   * Time-zone characters built from a semi-octet ('0' plus a nibble, as the PDU
   * walker does) give a zone between 0 and 7 hours in the legacy revision.
   */
  lemma LegacyZoneOfNibbles(a: int, b: int)
    requires 0 <= a < 16 && 0 <= b < 16
    ensures 0 <= ZoneHours(a, b) <= 7
  {
  }
}
