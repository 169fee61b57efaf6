/**
 * The SMS-DELIVER walker `ParseGsmPDU` (3GPP TS 23.040 section 9.2.2.1) of both
 * revisions, and `GetMessageIndexFromListing` of the legacy revision.
 *
 * The walker decodes the hex text into bytes and then reads the fields in order:
 * the service-centre address (skipped), the first octet (`flags`), the sender's
 * digit count, its type and its semi-octets, the protocol identifier, the data
 * coding scheme, seven timestamp semi-octet pairs, an optional validity period,
 * the user-data length and the user data. Before every read it checks that a
 * byte is left and returns false otherwise.
 *
 * `Deliver` states the walk in terms of field offsets; the method `ParseDeliver`
 * walks an iterator as the sources do and is proved to compute `Deliver`.
 */
module GsmPdu {
  import opened Common
  import opened LinuxEnv
  import opened GsmSeptets
  import opened GsmHex
  import opened GsmDateTime

  /** The three strings the caller passes by reference. */
  datatype Outputs = Outputs(from: string, datetime: string, message: string)

  /** The return value of the walker and what it left in the caller's strings. */
  datatype PduResult = PduResult(ok: bool, out: Outputs)

  /** `'0' + n`, the character pushed for a nibble (a digit for the nibbles 0 to 9). */
  function NibbleChar(n: int): char
    requires 0 <= n < 16
  {
    ('0' as int + n) as char
  }

  /** The two characters pushed for one byte: `'0' + (b & 0xF)`, then `'0' + ((b >> 4) & 0xF)`. */
  function SemiOctetPair(b: byte): string
  {
    [NibbleChar((b & 0xF) as int), NibbleChar(((b >> 4) & 0xF) as int)]
  }

  lemma SemiOctetPairValues(b: byte)
    ensures SemiOctetPair(b) == [NibbleChar(b as int % 16), NibbleChar(b as int / 16)]
  {
  }

  /** Two characters per byte, low nibble first (TS 23.040 section 9.1.2.3). */
  function SemiOctets(bytes: seq<byte>): (s: string)
    ensures |s| == 2 * |bytes|
  {
    if bytes == [] then [] else SemiOctetPair(bytes[0]) + SemiOctets(bytes[1..])
  }

  /** The 16-bit little-endian code units of a byte string; an odd last byte is dropped. */
  function Utf16Units(bytes: seq<byte>): (units: seq<int>)
    ensures |units| == |bytes| / 2
  {
    if |bytes| < 2 then [] else [bytes[0] as int + 256 * bytes[1] as int] + Utf16Units(bytes[2..])
  }

  /** The date parser of each revision; the clock's current year is a parameter. */
  function DateTimeOf(rev: Revision, timestamp: string, currentYear: nat): Option<string>
  {
    match rev
    case Current => ParseGsmDateTime(timestamp, currentYear)
    case Legacy => LegacyDateTime(timestamp, currentYear)
  }

  /** Bytes of validity period: 7 when bits 0x10 and 0x08 are set, 1 for 0x10 alone, else 0. */
  function ValidityLength(flags: byte): nat
  {
    if flags & 0x10 != 0 then (if flags & 0x08 != 0 then 7 else 1) else 0
  }

  /** Offset of the first octet: after the length byte and the service-centre address. */
  function FlagsAt(buffer: seq<byte>): nat
    requires |buffer| > 0
  {
    1 + buffer[0] as int
  }

  /** Offset of the sender's semi-octets: after the first octet, the digit count and the type. */
  function NumberAt(buffer: seq<byte>): nat
    requires |buffer| > 0
  {
    FlagsAt(buffer) + 3
  }

  /** Offset just past the sender's semi-octets: one byte per two digits, rounded up. */
  function NumberEnd(buffer: seq<byte>): nat
    requires 0 < |buffer| && NumberAt(buffer) <= |buffer|
  {
    NumberAt(buffer) + (buffer[FlagsAt(buffer) + 1] as int + 1) / 2
  }

  /** Offset of the user-data length byte: after PID, DCS, the timestamp and the validity period. */
  function LengthAt(buffer: seq<byte>): nat
    requires 0 < |buffer| && NumberAt(buffer) <= |buffer|
  {
    NumberEnd(buffer) + 2 + 7 + ValidityLength(buffer[FlagsAt(buffer)])
  }

  /** The sender's semi-octets are all present (the walk fails before them otherwise). */
  predicate HasSender(buffer: seq<byte>)
  {
    0 < |buffer| && NumberAt(buffer) <= |buffer| && NumberEnd(buffer) <= |buffer|
  }

  /** The sender's number: its `senderNum` digits, two per byte, low nibble first. */
  function SenderDigits(buffer: seq<byte>): (digits: string)
    requires HasSender(buffer)
    ensures |digits| == buffer[FlagsAt(buffer) + 1] as int
  {
    var senderNum := buffer[FlagsAt(buffer) + 1] as int;
    DigitBytes(senderNum);
    SemiOctets(buffer[NumberAt(buffer)..NumberEnd(buffer)])[..senderNum]
  }

  /** The seven timestamp bytes after the protocol identifier at `at` and the coding scheme, as 14 digits. */
  function TimestampText(buffer: seq<byte>, at: nat): (text: string)
    requires at + 2 + 7 <= |buffer|
    ensures |text| == 14
  {
    SemiOctets(buffer[at + 2..at + 2 + 7])
  }

  /** The header length byte at `at`, or 0 where the source reads it past the end (see `UncheckedHeaderRead`). */
  function HeaderLengthAt(buffer: seq<byte>, at: nat): int
  {
    if at < |buffer| then buffer[at] as int else 0
  }

  /**
   * Septets the 7-bit decoder skips: with a user-data header (flag 0x40) the header
   * length byte plus one, in octets, converted by `MulDiv(n + 1, 8, 7)`; else none.
   */
  function HeaderSkip(buffer: seq<byte>, dataAt: nat, flags: byte): int
  {
    if flags & 0x40 != 0 then MulDiv(HeaderLengthAt(buffer, dataAt) + 1, 8, 7) else 0
  }

  /**
   * The walk over the decoded bytes, by offsets: up to the sender's number, which is
   * appended to `from` before anything later can fail. `ucs2` is the platform's
   * conversion of UTF-16 code units into its string type.
   */
  function Deliver(rev: Revision, buffer: seq<byte>, currentYear: nat,
                   ucs2: seq<int> -> string, prior: Outputs): PduResult
  {
    if !HasSender(buffer) then PduResult(false, prior)
    else
      AfterSender(rev, buffer, NumberEnd(buffer), buffer[FlagsAt(buffer)], currentYear, ucs2,
                  prior.(from := prior.from + SenderDigits(buffer)))
  }

  /**
   * From the protocol identifier at `at`: the coding scheme and the timestamp,
   * which sets `datetime`.
   */
  function AfterSender(rev: Revision, buffer: seq<byte>, at: nat, flags: byte, currentYear: nat,
                       ucs2: seq<int> -> string, out: Outputs): PduResult
    requires at <= |buffer|
  {
    if |buffer| < at + 2 + 7 then PduResult(false, out)
    else
      match DateTimeOf(rev, TimestampText(buffer, at), currentYear)
      case None => PduResult(false, out)
      case Some(datetime) => UserData(buffer, at + 2 + 7, flags, buffer[at + 1], ucs2, out.(datetime := datetime))
  }

  /** From the validity period at `at`: the user-data length and the user data, by coding scheme. */
  function UserData(buffer: seq<byte>, at: nat, flags: byte, scheme: byte,
                    ucs2: seq<int> -> string, out: Outputs): PduResult
    requires at <= |buffer|
  {
    var n := |buffer|;
    var lenAt := at + ValidityLength(flags);
    if n <= lenAt then PduResult(false, out)
    else
      var len := buffer[lenAt] as int;
      var dataAt := lenAt + 1;
      if scheme & 0x08 != 0 then
        match Ucs2Message(buffer, dataAt, len, flags & 0x40 != 0, ucs2)
        case None => PduResult(false, out)
        case Some(message) => PduResult(true, out.(message := message))
      else if scheme & 0x04 != 0 then PduResult(false, out)
      else PduResult(true, out.(message := SevenBitMessage(buffer, dataAt, len, flags)))
  }

  /**
   * The UCS-2 user data from `dataAt`: past the user-data header when there is one
   * (its length byte, then that many bytes), then `len` bytes taken as 16-bit
   * little-endian units; `None` where a byte is missing.
   */
  function Ucs2Message(buffer: seq<byte>, dataAt: nat, len: nat, hasHeader: bool,
                       ucs2: seq<int> -> string): Option<string>
    requires dataAt <= |buffer|
  {
    if hasHeader && |buffer| <= dataAt then None
    else
      var unitsAt := if hasHeader then dataAt + 1 + buffer[dataAt] as int else dataAt;
      if |buffer| < unitsAt + len then None
      else Some(ucs2(Utf16Units(buffer[unitsAt..unitsAt + len])))
  }

  /** The 7-bit user data from `dataAt`: the text the septet decoder leaves, whether or not it failed. */
  function SevenBitMessage(buffer: seq<byte>, dataAt: nat, len: nat, flags: byte): string
    requires dataAt <= |buffer|
  {
    DecodeSeptets(buffer[dataAt..], len, HeaderSkip(buffer, dataAt, flags)).1
  }

  /**
   * `ParseGsmPDU`: `None` where the current revision's hex decoder throws (the
   * exception leaves the function); otherwise the walk over the decoded bytes.
   */
  function ParsePdu(rev: Revision, pdu: string, currentYear: nat,
                    ucs2: seq<int> -> string, prior: Outputs): Option<PduResult>
  {
    match rev
    case Current =>
      (match DecodeHex(pdu)
       case None => None
       case Some(buffer) => Some(Deliver(rev, buffer, currentYear, ucs2, prior)))
    case Legacy => Some(Deliver(rev, DecodeHexLegacy(pdu), currentYear, ucs2, prior))
  }

  lemma {:induction false} SemiOctetsSnoc(bytes: seq<byte>, b: byte)
    ensures SemiOctets(bytes + [b]) == SemiOctets(bytes) + SemiOctetPair(b)
  {
    if bytes != [] {
      assert (bytes + [b])[1..] == bytes[1..] + [b];
      SemiOctetsSnoc(bytes[1..], b);
    }
  }

  /** The number loop runs `senderNum + senderNum % 2` in steps of two: one byte per two digits, rounded up. */
  lemma DigitBytes(senderNum: nat)
    ensures (senderNum + senderNum % 2) / 2 == (senderNum + 1) / 2
    ensures senderNum <= 2 * ((senderNum + 1) / 2)
  {
  }

  /** The skip loop: step over `count` bytes one at a time, failing when the buffer ends first. */
  method SkipBytes(buffer: seq<byte>, it: nat, count: int) returns (ok: bool, next: nat)
    requires it <= |buffer|
    ensures ok <==> it + Max0(count) <= |buffer|
    ensures ok ==> next == it + Max0(count)
  {
    var num := count;
    next := it;
    while num > 0
      invariant next <= |buffer|
      invariant next + Max0(num) == it + Max0(count)
    {
      if next == |buffer| {
        return false, next;
      }
      next := next + 1;
      num := num - 1;
    }
    return true, next;
  }

  /** The nibble loops of the sender number and the timestamp: two characters per byte, `count` bytes. */
  method ReadSemiOctets(buffer: seq<byte>, it: nat, count: nat) returns (ok: bool, next: nat, digits: string)
    requires it <= |buffer|
    ensures ok <==> it + count <= |buffer|
    ensures ok ==> next == it + count && digits == SemiOctets(buffer[it..next])
  {
    digits := [];
    next := it;
    var i := 0;
    while i < count
      invariant next == it + i && next <= |buffer| && i <= count
      invariant digits == SemiOctets(buffer[it..next])
    {
      if next == |buffer| {
        return false, next, digits;
      }
      SemiOctetsSnoc(buffer[it..next], buffer[next]);
      assert buffer[it..next + 1] == buffer[it..next] + [buffer[next]];
      digits := digits + SemiOctetPair(buffer[next]);
      i := i + 1;
      next := next + 1;
    }
    return true, next, digits;
  }

  /** The UCS-2 copy loop: `len` bytes into `temp`, or fail at the end. */
  method CopyBytes(buffer: seq<byte>, it: nat, len: nat) returns (ok: bool, next: nat, temp: seq<byte>)
    requires it <= |buffer|
    ensures ok <==> it + len <= |buffer|
    ensures ok ==> next == it + len && temp == buffer[it..next]
  {
    temp := [];
    next := it;
    var i := 0;
    while i < len
      invariant next == it + i && next <= |buffer| && i <= len
      invariant temp == buffer[it..next]
    {
      if next == |buffer| {
        return false, next, temp;
      }
      assert buffer[it..next + 1] == buffer[it..next] + [buffer[next]];
      temp := temp + [buffer[next]];
      i := i + 1;
      next := next + 1;
    }
    return true, next, temp;
  }

  /**
   * The start of the walk: the service-centre address is skipped, then the first
   * octet, the sender's digit count and its type are passed; on success the
   * iterator stands on the sender's semi-octets.
   */
  method SkipToNumber(buffer: seq<byte>) returns (ok: bool, it: nat)
    ensures ok <==> 0 < |buffer| && NumberAt(buffer) <= |buffer|
    ensures ok ==> it == NumberAt(buffer)
  {
    it := 0;
    if it == |buffer| {
      return false, it;
    }
    var num := buffer[it] as int;
    it := it + 1;
    ok, it := SkipBytes(buffer, it, num);
    if !ok || it == |buffer| {
      return false, it;
    }
    // the first octet (`flags`) is read again from its offset where it is used
    it := it + 1;
    if it == |buffer| {
      return false, it;
    }
    it := it + 1;
    if it == |buffer| {
      return false, it;
    }
    it := it + 1;
    return true, it;
  }

  /**
   * The walk after the hex decoding, iterator by iterator as in the sources, up to
   * the sender's number; `ParseAfterSender` and `ParseUserData` go on from there.
   */
  method ParseDeliver(rev: Revision, buffer: seq<byte>, currentYear: nat,
                      ucs2: seq<int> -> string, prior: Outputs) returns (r: PduResult)
    ensures r == Deliver(rev, buffer, currentYear, ucs2, prior)
  {
    var ok, it := SkipToNumber(buffer);
    if !ok {
      return PduResult(false, prior);
    }
    assert it - 3 == FlagsAt(buffer);
    var flags := buffer[it - 3];
    var senderNum := buffer[it - 2] as int;
    DigitBytes(senderNum);
    assert NumberEnd(buffer) == it + (senderNum + senderNum % 2) / 2;
    // The source's check that `number` holds at least `senderNum` digits cannot fail:
    // two digits are pushed per byte.
    var number: string;
    ok, it, number := ReadSemiOctets(buffer, it, (senderNum + senderNum % 2) / 2);
    if !ok {
      return PduResult(false, prior);
    }
    assert HasSender(buffer) && it == NumberEnd(buffer);
    assert number == SemiOctets(buffer[NumberAt(buffer)..NumberEnd(buffer)]);
    SenderStep(rev, buffer, currentYear, ucs2, prior);
    var out := prior.(from := prior.from + number[..senderNum]);
    r := ParseAfterSender(rev, buffer, it, flags, currentYear, ucs2, out);
  }

  /**
   * Past the protocol identifier and the coding scheme, then the seven timestamp
   * bytes as semi-octets.
   */
  method ReadTimestamp(buffer: seq<byte>, it: nat) returns (ok: bool, next: nat, scheme: byte, timestamp: string)
    requires it <= |buffer|
    ensures ok <==> it + 2 + 7 <= |buffer|
    ensures ok ==> next == it + 2 + 7 && scheme == buffer[it + 1] && timestamp == TimestampText(buffer, it)
  {
    next := it;
    timestamp := [];
    scheme := 0;
    if next == |buffer| {
      return false, next, scheme, timestamp;
    }
    next := next + 1;
    if next == |buffer| {
      return false, next, scheme, timestamp;
    }
    scheme := buffer[next];
    next := next + 1;
    if next == |buffer| {
      return false, next, scheme, timestamp;
    }
    ok, next, timestamp := ReadSemiOctets(buffer, next, 7);
  }

  /** The revision's `ParseGsmDateTime`, with a clock that answers `currentYear`. */
  method ParseDateTime(rev: Revision, timestamp: string, currentYear: nat) returns (datetime: Option<string>)
    ensures datetime == DateTimeOf(rev, timestamp, currentYear)
  {
    if rev == Current {
      datetime := ParseGsmDateTime(timestamp, currentYear);
    } else {
      datetime := ParseGsmDateTimeLegacy(timestamp, Some(currentYear));
    }
  }

  /** From the protocol identifier: the coding scheme and the timestamp, which sets `datetime`. */
  method ParseAfterSender(rev: Revision, buffer: seq<byte>, it: nat, flags: byte, currentYear: nat,
                          ucs2: seq<int> -> string, out: Outputs) returns (r: PduResult)
    requires it <= |buffer|
    ensures r == AfterSender(rev, buffer, it, flags, currentYear, ucs2, out)
  {
    var ok, next, scheme, timestamp := ReadTimestamp(buffer, it);
    if !ok {
      return PduResult(false, out);
    }
    var datetime := ParseDateTime(rev, timestamp, currentYear);
    if datetime.None? {
      return PduResult(false, out);
    }
    r := ParseUserData(buffer, next, flags, scheme, ucs2, out.(datetime := datetime.value));
  }

  /** The validity period: 7 bytes with flags 0x10 and 0x08, 1 byte with 0x10 alone. */
  method SkipValidity(buffer: seq<byte>, it: nat, flags: byte) returns (ok: bool, next: nat)
    requires it <= |buffer|
    ensures ok <==> it + ValidityLength(flags) <= |buffer|
    ensures ok ==> next == it + ValidityLength(flags)
  {
    ok, next := true, it;
    if flags & 0x10 != 0 {
      var num := if flags & 0x08 != 0 then 7 else 1;
      ok, next := SkipBytes(buffer, next, num);
    }
  }

  /** The UCS-2 branch: the header skip and the copy loop, then the conversion of the units. */
  method ReadUcs2Message(buffer: seq<byte>, it: nat, len: nat, hasHeader: bool,
                         ucs2: seq<int> -> string) returns (message: Option<string>)
    requires it <= |buffer|
    ensures message == Ucs2Message(buffer, it, len, hasHeader, ucs2)
  {
    var ok: bool;
    var next := it;
    if hasHeader {
      if next == |buffer| {
        return None;
      }
      var num := buffer[next] as int;
      next := next + 1;
      ok, next := SkipBytes(buffer, next, num);
      if !ok {
        return None;
      }
    }
    var temp: seq<byte>;
    ok, next, temp := CopyBytes(buffer, next, len);
    if !ok {
      return None;
    }
    message := Some(ucs2(Utf16Units(temp)));
  }

  /** The 7-bit branch: the header skip in septets, then `DecodeGsmSeptetData`, whose result is ignored. */
  method DecodeSevenBit(buffer: seq<byte>, it: nat, len: nat, flags: byte) returns (message: string)
    requires it <= |buffer|
    ensures message == SevenBitMessage(buffer, it, len, flags)
  {
    var num := 0;
    if flags & 0x40 != 0 {
      num := HeaderLengthAt(buffer, it);
      HeaderSeptetsRounded(num);
      num := MulDiv(num + 1, 8, 7);
    }
    var decodedOk;
    decodedOk, message := DecodeGsmSeptetData(buffer[it..], len, num);
  }

  /** From the validity period: the user-data length and the user data, by coding scheme. */
  method ParseUserData(buffer: seq<byte>, it: nat, flags: byte, scheme: byte,
                       ucs2: seq<int> -> string, out: Outputs) returns (r: PduResult)
    requires it <= |buffer|
    ensures r == UserData(buffer, it, flags, scheme, ucs2, out)
  {
    var ok, next := SkipValidity(buffer, it, flags);
    if !ok || next == |buffer| {
      return PduResult(false, out);
    }
    var len := buffer[next] as int;
    next := next + 1;
    if scheme & 0x08 != 0 {
      var message := ReadUcs2Message(buffer, next, len, flags & 0x40 != 0, ucs2);
      UserDataUcs2(buffer, it, flags, scheme, ucs2, out);
      if message.None? {
        return PduResult(false, out);
      }
      r := PduResult(true, out.(message := message.value));
    } else if scheme & 0x04 != 0 {
      UserDataBinary(buffer, it, flags, scheme, ucs2, out);
      r := PduResult(false, out);
    } else {
      var message := DecodeSevenBit(buffer, next, len, flags);
      UserDataSevenBit(buffer, it, flags, scheme, ucs2, out);
      r := PduResult(true, out.(message := message));
    }
  }

  /** `ParseGsmPDU` of either revision: decode the hex text, then walk the bytes. */
  method ParseGsmPDU(rev: Revision, pdu: string, currentYear: nat,
                     ucs2: seq<int> -> string, prior: Outputs) returns (r: Option<PduResult>)
    ensures r == ParsePdu(rev, pdu, currentYear, ucs2, prior)
  {
    var buffer: seq<byte>;
    if rev == Current {
      var decoded := DecodeHexToBin(pdu);
      if decoded.None? {
        return None;
      }
      buffer := decoded.value;
    } else {
      buffer := DecodeHexToBinLegacy(pdu);
    }
    var result := ParseDeliver(rev, buffer, currentYear, ucs2, prior);
    return Some(result);
  }

  /** Character `k` of the semi-octet text: the low nibble of byte k/2 for even k, the high one for odd k. */
  lemma {:induction false} SemiOctetsAt(bytes: seq<byte>, k: nat)
    requires k < 2 * |bytes|
    ensures SemiOctets(bytes)[k]
            == NibbleChar(if k % 2 == 0 then bytes[k / 2] as int % 16 else bytes[k / 2] as int / 16)
  {
    SemiOctetPairValues(bytes[0]);
    if k >= 2 {
      SemiOctetsAt(bytes[1..], k - 2);
    }
  }

  /** Unit `i` of the UCS-2 text is byte 2i plus 256 times byte 2i+1. */
  lemma {:induction false} Utf16UnitsAt(bytes: seq<byte>, i: nat)
    requires i < |bytes| / 2
    ensures Utf16Units(bytes)[i] == bytes[2 * i] as int + 256 * bytes[2 * i + 1] as int
  {
    if i > 0 {
      Utf16UnitsAt(bytes[2..], i - 1);
    }
  }

  /** From the timestamp on, the walk leaves `from` alone, and sets `datetime` only from the parsed timestamp. */
  lemma AfterSenderOutputs(rev: Revision, buffer: seq<byte>, at: nat, flags: byte, currentYear: nat,
                           ucs2: seq<int> -> string, out: Outputs)
    requires at <= |buffer|
    ensures AfterSender(rev, buffer, at, flags, currentYear, ucs2, out).out.from == out.from
    ensures AfterSender(rev, buffer, at, flags, currentYear, ucs2, out).ok ==>
              at + 2 + 7 < |buffer| &&
              DateTimeOf(rev, TimestampText(buffer, at), currentYear)
                == Some(AfterSender(rev, buffer, at, flags, currentYear, ucs2, out).out.datetime)
  {
  }

  /** Where the walk past the sender accepts, the user-data length byte was there. */
  lemma AfterSenderAccepted(rev: Revision, buffer: seq<byte>, at: nat, flags: byte, currentYear: nat,
                            ucs2: seq<int> -> string, out: Outputs)
    requires at <= |buffer| && AfterSender(rev, buffer, at, flags, currentYear, ucs2, out).ok
    ensures at + 2 + 7 + ValidityLength(flags) < |buffer|
  {
  }

  /** Character `k` of the sender's number is the low nibble of its byte k/2 for even k, the high one for odd k. */
  lemma SenderDigitsAt(buffer: seq<byte>, k: nat)
    requires HasSender(buffer) && k < buffer[FlagsAt(buffer) + 1] as int
    ensures NumberAt(buffer) + k / 2 < |buffer|
    ensures SenderDigits(buffer)[k]
            == NibbleChar(if k % 2 == 0 then buffer[NumberAt(buffer) + k / 2] as int % 16
                          else buffer[NumberAt(buffer) + k / 2] as int / 16)
  {
    var senderNum := buffer[FlagsAt(buffer) + 1] as int;
    DigitBytes(senderNum);
    SemiOctetsAt(buffer[NumberAt(buffer)..NumberEnd(buffer)], k);
  }

  /** Before the sender's semi-octets are complete the walk fails and leaves every output as it was. */
  lemma ShortHeaderFails(rev: Revision, buffer: seq<byte>, currentYear: nat,
                         ucs2: seq<int> -> string, prior: Outputs)
    requires !HasSender(buffer)
    ensures Deliver(rev, buffer, currentYear, ucs2, prior) == PduResult(false, prior)
  {
  }

  /**
   * Once the sender's semi-octets are present, the walk goes on past them with the
   * sender's number appended to `from`, and `from` ends up so whatever happens later.
   */
  lemma SenderStep(rev: Revision, buffer: seq<byte>, currentYear: nat,
                   ucs2: seq<int> -> string, prior: Outputs)
    requires HasSender(buffer)
    ensures Deliver(rev, buffer, currentYear, ucs2, prior)
            == AfterSender(rev, buffer, NumberEnd(buffer), buffer[FlagsAt(buffer)], currentYear, ucs2,
                           prior.(from := prior.from + SenderDigits(buffer)))
    ensures Deliver(rev, buffer, currentYear, ucs2, prior).out.from == prior.from + SenderDigits(buffer)
  {
    AfterSenderOutputs(rev, buffer, NumberEnd(buffer), buffer[FlagsAt(buffer)], currentYear, ucs2,
                       prior.(from := prior.from + SenderDigits(buffer)));
  }

  /** With the timestamp parsed the walk goes on with the user data, `datetime` set. */
  lemma TimestampStep(rev: Revision, buffer: seq<byte>, at: nat, flags: byte, currentYear: nat,
                      ucs2: seq<int> -> string, out: Outputs)
    requires at + 2 + 7 <= |buffer|
    requires DateTimeOf(rev, TimestampText(buffer, at), currentYear).Some?
    ensures AfterSender(rev, buffer, at, flags, currentYear, ucs2, out)
            == UserData(buffer, at + 2 + 7, flags, buffer[at + 1], ucs2,
                        out.(datetime := DateTimeOf(rev, TimestampText(buffer, at), currentYear).value))
  {
  }

  /** An accepted PDU held every field up to the user-data length byte. */
  lemma AcceptedLayout(rev: Revision, buffer: seq<byte>, currentYear: nat,
                       ucs2: seq<int> -> string, prior: Outputs)
    requires Deliver(rev, buffer, currentYear, ucs2, prior).ok
    ensures HasSender(buffer) && LengthAt(buffer) < |buffer|
  {
    SenderStep(rev, buffer, currentYear, ucs2, prior);
    AfterSenderAccepted(rev, buffer, NumberEnd(buffer), buffer[FlagsAt(buffer)], currentYear, ucs2,
                        prior.(from := prior.from + SenderDigits(buffer)));
  }

  /** The `datetime` of an accepted PDU is its parsed timestamp. */
  lemma AcceptedDateTime(rev: Revision, buffer: seq<byte>, currentYear: nat,
                         ucs2: seq<int> -> string, prior: Outputs)
    requires Deliver(rev, buffer, currentYear, ucs2, prior).ok
    ensures HasSender(buffer) && NumberEnd(buffer) + 2 + 7 < |buffer|
    ensures DateTimeOf(rev, TimestampText(buffer, NumberEnd(buffer)), currentYear)
              == Some(Deliver(rev, buffer, currentYear, ucs2, prior).out.datetime)
  {
    SenderStep(rev, buffer, currentYear, ucs2, prior);
    AfterSenderOutputs(rev, buffer, NumberEnd(buffer), buffer[FlagsAt(buffer)], currentYear, ucs2,
                       prior.(from := prior.from + SenderDigits(buffer)));
  }

  /** In the user data: a coding scheme with bit 0x04 and without bit 0x08 (8-bit data) is refused. */
  lemma UserDataBinary(buffer: seq<byte>, at: nat, flags: byte, scheme: byte,
                       ucs2: seq<int> -> string, out: Outputs)
    requires at <= |buffer|
    requires scheme & 0x08 == 0 && scheme & 0x04 != 0
    ensures UserData(buffer, at, flags, scheme, ucs2, out) == PduResult(false, out)
  {
  }

  /**
   * 7-bit user data is accepted as soon as the length byte is there, even where the
   * septet decoder runs out of bytes; the message is whatever the decoder produced,
   * and the other outputs are kept.
   */
  lemma UserDataSevenBit(buffer: seq<byte>, at: nat, flags: byte, scheme: byte,
                         ucs2: seq<int> -> string, out: Outputs)
    requires at + ValidityLength(flags) < |buffer|
    requires scheme & 0x08 == 0 && scheme & 0x04 == 0
    ensures var lenAt := at + ValidityLength(flags);
            UserData(buffer, at, flags, scheme, ucs2, out)
              == PduResult(true, out.(message := SevenBitMessage(buffer, lenAt + 1, buffer[lenAt] as int, flags)))
  {
  }

  /** UCS-2 user data is accepted exactly when its bytes are there, and then the message is that text. */
  lemma UserDataUcs2(buffer: seq<byte>, at: nat, flags: byte, scheme: byte,
                     ucs2: seq<int> -> string, out: Outputs)
    requires at + ValidityLength(flags) < |buffer|
    requires scheme & 0x08 != 0
    ensures var lenAt := at + ValidityLength(flags);
            var m := Ucs2Message(buffer, lenAt + 1, buffer[lenAt] as int, flags & 0x40 != 0, ucs2);
            var r := UserData(buffer, at, flags, scheme, ucs2, out);
            (r.ok <==> m.Some?) && r.out.from == out.from && r.out.datetime == out.datetime &&
            (m.Some? ==> r.out.message == m.value) && (m.None? ==> r.out == out)
  {
  }

  /**
   * UCS-2 text is `len` bytes after the optional header, read as len / 2
   * little-endian units (an odd last byte is dropped; see `Utf16UnitsAt`).
   */
  lemma Ucs2Bytes(buffer: seq<byte>, dataAt: nat, len: nat, hasHeader: bool, ucs2: seq<int> -> string)
    requires dataAt <= |buffer| && Ucs2Message(buffer, dataAt, len, hasHeader, ucs2).Some?
    ensures var unitsAt := if hasHeader then dataAt + 1 + buffer[dataAt] as int else dataAt;
            unitsAt + len <= |buffer| &&
            Ucs2Message(buffer, dataAt, len, hasHeader, ucs2) == Some(ucs2(Utf16Units(buffer[unitsAt..unitsAt + len])))
  {
  }

  /**
   * The header length the 7-bit branch reads without an end check does not matter
   * when it is past the end: every value from 0 to 255 gives a skip of at least one
   * septet, and the decoder then fails at once with no text.
   */
  lemma UncheckedHeaderRead(len: int, v: int)
    requires 0 <= v < 256
    ensures DecodeSeptets([], len, MulDiv(v + 1, 8, 7)) == (false, [])
  {
    HeaderSeptetsRounded(v);
    var skip := MulDiv(v + 1, 8, 7);
    assert Steps(len, skip) >= 1;
    assert Unpack([], 0, 0, 0, Steps(len, skip)) == ([], false);
  }

  /** Where the current revision accepts the bytes, the legacy revision gives the same result. */
  lemma WalkRevisionsAgree(buffer: seq<byte>, currentYear: nat, ucs2: seq<int> -> string, prior: Outputs)
    requires Deliver(Current, buffer, currentYear, ucs2, prior).ok
    ensures Deliver(Legacy, buffer, currentYear, ucs2, prior) == Deliver(Current, buffer, currentYear, ucs2, prior)
  {
    AcceptedDateTime(Current, buffer, currentYear, ucs2, prior);
    var timestamp := TimestampText(buffer, NumberEnd(buffer));
    GsmDateTime.RevisionsAgree(timestamp, currentYear);
    var out := prior.(from := prior.from + SenderDigits(buffer));
    SenderStep(Current, buffer, currentYear, ucs2, prior);
    SenderStep(Legacy, buffer, currentYear, ucs2, prior);
    TimestampStep(Current, buffer, NumberEnd(buffer), buffer[FlagsAt(buffer)], currentYear, ucs2, out);
    TimestampStep(Legacy, buffer, NumberEnd(buffer), buffer[FlagsAt(buffer)], currentYear, ucs2, out);
  }

  /** The same for the whole `ParseGsmPDU`, hex decoding included. */
  lemma PduRevisionsAgree(pdu: string, currentYear: nat, ucs2: seq<int> -> string, prior: Outputs)
    requires ParsePdu(Current, pdu, currentYear, ucs2, prior).Some?
    requires ParsePdu(Current, pdu, currentYear, ucs2, prior).value.ok
    ensures ParsePdu(Legacy, pdu, currentYear, ucs2, prior) == ParsePdu(Current, pdu, currentYear, ucs2, prior)
  {
    GsmHex.RevisionsAgree(pdu);
    WalkRevisionsAgree(DecodeHex(pdu).value, currentYear, ucs2, prior);
  }
}
