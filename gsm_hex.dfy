/**
 * `DecodeHexToBin`: the hexadecimal text of a PDU turned into bytes, two characters
 * at a time, each pair converted with `strtoul(buff, nullptr, 16)` and truncated to
 * a byte. The current revision converts with `std::stoul`, which throws when a pair
 * holds no hex digit at all; the legacy revision uses `wcstoul`, which gives 0 then.
 */
module GsmHex {
  import opened Common

  /** Number of leading characters that `iswspace` accepts. */
  function LeadingSpaces(s: string): (n: nat)
    ensures n <= |s|
  {
    if s != [] && IsSpace(s[0]) then 1 + LeadingSpaces(s[1..]) else 0
  }

  /** Number of leading hexadecimal digits. */
  function LeadingHexDigits(s: string): (n: nat)
    ensures n <= |s|
    ensures IsAllHex(s[..n])
  {
    if s != [] && IsHexDigit(s[0]) then 1 + LeadingHexDigits(s[1..]) else 0
  }

  predicate IsAllHex(s: string) { forall i :: 0 <= i < |s| ==> IsHexDigit(s[i]) }

  /** Value of a run of hexadecimal digits, most significant first. */
  function HexValue(s: string): (v: nat)
    requires IsAllHex(s)
    ensures |s| <= 1 ==> v < 16
    ensures |s| <= 2 ==> v < 256
  {
    if s == [] then 0 else 16 * HexValue(s[..|s| - 1]) + HexDigitValue(s[|s| - 1])
  }

  /**
   * `strtoul(s, _, 16)` on a C string of at most two characters (the conversion
   * buffer): leading white space, an optional sign, then the longest run of hex
   * digits. `None` when there is no digit; a '-' sign negates the value (as
   * unsigned long arithmetic does, which the byte truncation below reduces modulo
   * 256). A `0x` prefix is skipped only when a digit follows it, which needs a
   * third character, so in a two-character buffer "0x" reads as the digit 0.
   */
  function StrToUL16(s: string): (r: Option<int>)
    requires |s| <= 2
    ensures r.Some? ==> -15 <= r.value <= 255
  {
    var p := LeadingSpaces(s);
    var signed := p < |s| && (s[p] == '+' || s[p] == '-');
    var negative := signed && s[p] == '-';
    var d := if signed then p + 1 else p;
    var n := LeadingHexDigits(s[d..]);
    if n == 0 then None
    else
      var v: int := HexValue(s[d..][..n]);
      Some(if negative then -v else v)
  }

  /** The `(BYTE)` / `(byte)` cast of an unsigned long: its low eight bits. */
  function ToByte(v: int): byte
  {
    (v % 256) as byte
  }

  /** The conversion buffer for the pair starting at the front of `data`: NUL-padded when one character is left. */
  function PairBuffer(data: string): (b: string)
    requires data != []
    ensures |b| == 2
  {
    if |data| == 1 then [data[0], '\0'] else data[..2]
  }

  /** The characters a pair consumes. */
  function PairLength(data: string): nat
  {
    if |data| == 1 then 1 else 2
  }

  /** `std::stoul(buff, nullptr, 16)` / `wcstoul(buff, NULL, 16)` on the two-character buffer, up to its first NUL. */
  function ConvertBuffer(buff: string): Option<int>
    requires |buff| == 2
  {
    StrToUL16(CStr(buff))
  }

  /** The current revision (`std::stoul`): `None` stands for the exception thrown by a pair with no digit. */
  function DecodeHex(data: string): Option<seq<byte>>
    decreases |data|
  {
    if data == [] then Some([])
    else
      match ConvertBuffer(PairBuffer(data))
      case None => None
      case Some(v) => Prepend([ToByte(v)], DecodeHex(data[PairLength(data)..]))
  }

  /** What `wcstoul` gives for a buffer: 0 when there is no digit. */
  function ConvertBufferLegacy(buff: string): int
    requires |buff| == 2
  {
    match ConvertBuffer(buff) case None => 0 case Some(v) => v
  }

  /** The legacy revision (`wcstoul`): a pair with no digit converts to 0. */
  function DecodeHexLegacy(data: string): seq<byte>
    decreases |data|
  {
    if data == [] then []
    else [ToByte(ConvertBufferLegacy(PairBuffer(data)))] + DecodeHexLegacy(data[PairLength(data)..])
  }

  /** `prefix` followed by the outcome of the rest, failure staying failure. */
  function Prepend(prefix: seq<byte>, rest: Option<seq<byte>>): Option<seq<byte>>
  {
    match rest case None => None case Some(r) => Some(prefix + r)
  }

  lemma PrependAssoc(a: seq<byte>, b: seq<byte>, rest: Option<seq<byte>>)
    ensures Prepend(a, Prepend(b, rest)) == Prepend(a + b, rest)
  {
    if rest.Some? {
      AppendAssoc(a, b, rest.value);
    }
  }

  /** The buffer the loop fills at index i is the pair buffer of the rest, and the rest after it starts at i + PairLength. */
  lemma BufferAt(data: string, i: nat, buff: string)
    requires i < |data|
    requires buff == if i + 1 == |data| then [data[i], '\0'] else [data[i], data[i + 1]]
    ensures buff == PairBuffer(data[i..])
    ensures i + PairLength(data[i..]) <= |data|
    ensures data[i..][PairLength(data[i..])..] == data[i + PairLength(data[i..])..]
  {
  }

  /** The loop of the current revision; `None` when `std::stoul` throws. */
  method DecodeHexToBin(data: string) returns (decoded: Option<seq<byte>>)
    ensures decoded == DecodeHex(data)
  {
    var bytes: seq<byte> := [];
    var i := 0;
    assert DecodeHex(data).Some? ==> [] + DecodeHex(data).value == DecodeHex(data).value;
    while i < |data|
      invariant i <= |data|
      invariant DecodeHex(data) == Prepend(bytes, DecodeHex(data[i..]))
      decreases |data| - i
    {
      var buff := if i + 1 == |data| then [data[i], '\0'] else [data[i], data[i + 1]];
      BufferAt(data, i, buff);
      var v := ConvertBuffer(buff);
      if v.None? {
        return None;
      }
      PrependAssoc(bytes, [ToByte(v.value)], DecodeHex(data[i + PairLength(data[i..])..]));
      bytes := bytes + [ToByte(v.value)];
      i := i + PairLength(data[i..]);
    }
    assert data[i..] == [] && bytes + [] == bytes;
    decoded := Some(bytes);
  }

  /** The legacy decoding of a non-empty text: the byte of its first pair, then the rest. */
  lemma LegacyUnfold(d: string)
    requires d != []
    ensures DecodeHexLegacy(d) == [ToByte(ConvertBufferLegacy(PairBuffer(d)))] + DecodeHexLegacy(d[PairLength(d)..])
  {
  }

  /** One turn of the legacy loop: the pair at i contributes one byte and the rest starts after the pair. */
  lemma LegacyStep(data: string, i: nat, buff: string, decoded: seq<byte>)
    requires i < |data|
    requires buff == if i + 1 == |data| then [data[i], '\0'] else [data[i], data[i + 1]]
    requires DecodeHexLegacy(data) == decoded + DecodeHexLegacy(data[i..])
    ensures DecodeHexLegacy(data) ==
              (decoded + [ToByte(ConvertBufferLegacy(buff))]) + DecodeHexLegacy(data[if i + 1 == |data| then |data| else i + 2..])
  {
    BufferAt(data, i, buff);
    LegacyUnfold(data[i..]);
    AppendAssoc(decoded, [ToByte(ConvertBufferLegacy(buff))], DecodeHexLegacy(data[i + PairLength(data[i..])..]));
  }

  /** The loop of the legacy revision. */
  method DecodeHexToBinLegacy(data: string) returns (decoded: seq<byte>)
    ensures decoded == DecodeHexLegacy(data)
  {
    decoded := [];
    var i := 0;
    while i < |data|
      invariant i <= |data|
      invariant DecodeHexLegacy(data) == decoded + DecodeHexLegacy(data[i..])
      decreases |data| - i
    {
      var buff := if i + 1 == |data| then [data[i], '\0'] else [data[i], data[i + 1]];
      LegacyStep(data, i, buff, decoded);
      decoded := decoded + [ToByte(ConvertBufferLegacy(buff))];
      i := if i + 1 == |data| then |data| else i + 2;
    }
    assert data[i..] == [] && decoded + [] == decoded;
  }

  /** One byte for every two characters, the last one for a single character left over. */
  lemma {:induction false} DecodeHexLegacyLength(data: string)
    ensures |DecodeHexLegacy(data)| == (|data| + 1) / 2
    decreases |data|
  {
    if data != [] {
      DecodeHexLegacyLength(data[PairLength(data)..]);
    }
  }

  /** Where the current revision succeeds, the legacy revision produces the same bytes. */
  lemma {:induction false} RevisionsAgree(data: string)
    requires DecodeHex(data).Some?
    ensures DecodeHexLegacy(data) == DecodeHex(data).value
    decreases |data|
  {
    if data != [] {
      RevisionsAgree(data[PairLength(data)..]);
    }
  }

  /** Two hex digits convert to 16 * high + low, one hex digit to its value. */
  lemma PairValue(a: char, b: char)
    requires IsHexDigit(a)
    ensures ConvertBuffer([a, b]) == Some(if IsHexDigit(b) then 16 * HexDigitValue(a) + HexDigitValue(b) else HexDigitValue(a))
  {
    if IsHexDigit(b) {
      TwoDigitValue(a, b);
    } else {
      OneDigitValue(a, b);
    }
  }

  lemma TwoDigitValue(a: char, b: char)
    requires IsHexDigit(a) && IsHexDigit(b)
    ensures ConvertBuffer([a, b]) == Some(16 * HexDigitValue(a) + HexDigitValue(b))
  {
    var s := CStr([a, b]);
    assert s == [a, b];
    assert LeadingSpaces(s) == 0;
    assert HexValue([a]) == HexDigitValue(a) by {
      assert [a][..0] == [];
    }
    assert LeadingHexDigits(s) == 2;
    assert s[0..][..2] == s && s[..1] == [a];
  }

  lemma OneDigitValue(a: char, b: char)
    requires IsHexDigit(a) && !IsHexDigit(b)
    ensures ConvertBuffer([a, b]) == Some(HexDigitValue(a))
  {
    var s := CStr([a, b]);
    assert s[0] == a;
    assert LeadingSpaces(s) == 0;
    assert HexValue([a]) == HexDigitValue(a) by {
      assert [a][..0] == [];
    }
    assert LeadingHexDigits(s) == 1;
    assert s[0..][..1] == [a];
  }

  /** A buffer without any hex digit (for instance two spaces) makes `std::stoul` throw and `wcstoul` give 0. */
  lemma NoDigitPair()
    ensures StrToUL16(CStr("  ")) == None
    ensures DecodeHex("  ") == None
    ensures DecodeHexLegacy("  ") == [0]
  {
    assert CStr("  ") == "  ";
    assert PairBuffer("  ") == "  ";
  }

  /** The bytes that text made of hex digits stands for: one per pair, a lone final digit on its own. */
  function DigitBytes(data: string): (r: seq<byte>)
    requires IsAllHex(data)
    ensures |r| == (|data| + 1) / 2
    decreases |data|
  {
    if data == [] then []
    else if |data| == 1 then [ToByte(HexDigitValue(data[0]))]
    else [ToByte(16 * HexDigitValue(data[0]) + HexDigitValue(data[1]))] + DigitBytes(data[2..])
  }

  lemma HexSuffix(data: string, k: nat)
    requires IsAllHex(data) && k <= |data|
    ensures IsAllHex(data[k..])
  {
    forall i | 0 <= i < |data| - k ensures IsHexDigit(data[k..][i]) {
      assert data[k..][i] == data[k + i];
    }
  }

  /** For text made of hex digits only, the current revision never throws and decodes each pair to its value. */
  lemma {:induction false} DecodeHexDigits(data: string)
    requires IsAllHex(data)
    ensures DecodeHex(data) == Some(DigitBytes(data))
    decreases |data|
  {
    if data != [] {
      var rest := data[PairLength(data)..];
      HexSuffix(data, PairLength(data));
      DecodeHexDigits(rest);
      var v := FirstPairDigits(data);
      assert DecodeHex(data) == Prepend([ToByte(v)], DecodeHex(rest));
    }
  }

  /** The first pair of a text of hex digits converts to the value that the first byte of `DigitBytes` holds. */
  lemma FirstPairDigits(data: string) returns (v: int)
    requires IsAllHex(data) && data != []
    ensures ConvertBuffer(PairBuffer(data)) == Some(v)
    ensures DigitBytes(data) == [ToByte(v)] + DigitBytes(data[PairLength(data)..])
  {
    if |data| == 1 {
      v := LoneDigit(data);
    } else {
      v := PairOfDigits(data);
    }
  }

  lemma LoneDigit(data: string) returns (v: int)
    requires IsAllHex(data) && |data| == 1
    ensures ConvertBuffer(PairBuffer(data)) == Some(v)
    ensures DigitBytes(data) == [ToByte(v)] + DigitBytes(data[PairLength(data)..])
  {
    assert PairBuffer(data) == [data[0], '\0'];
    OneDigitValue(data[0], '\0');
    v := HexDigitValue(data[0]);
    assert data[1..] == [];
    assert [ToByte(v)] + [] == [ToByte(v)];
  }

  lemma PairOfDigits(data: string) returns (v: int)
    requires IsAllHex(data) && |data| >= 2
    ensures ConvertBuffer(PairBuffer(data)) == Some(v)
    ensures DigitBytes(data) == [ToByte(v)] + DigitBytes(data[PairLength(data)..])
  {
    assert IsHexDigit(data[0]) && IsHexDigit(data[1]);
    assert PairBuffer(data) == [data[0], data[1]];
    TwoDigitValue(data[0], data[1]);
    v := 16 * HexDigitValue(data[0]) + HexDigitValue(data[1]);
  }

  /** Byte i of the digits' bytes is the value of digits 2i and 2i + 1; a lone last digit is its own byte. */
  lemma {:induction false} DigitBytesAt(data: string, i: nat)
    requires IsAllHex(data) && i < (|data| + 1) / 2
    ensures 2 * i + 1 < |data| ==>
              DigitBytes(data)[i] == ToByte(16 * HexDigitValue(data[2 * i]) + HexDigitValue(data[2 * i + 1]))
    ensures 2 * i + 1 == |data| ==> DigitBytes(data)[i] == ToByte(HexDigitValue(data[2 * i]))
    decreases i
  {
    if i > 0 {
      var rest := data[2..];
      HexSuffix(data, 2);
      DigitBytesAt(rest, i - 1);
      assert rest[2 * (i - 1)] == data[2 * i];
      if 2 * i + 1 < |data| {
        assert rest[2 * (i - 1) + 1] == data[2 * i + 1];
      }
    }
  }

  /** Upper-case hexadecimal text of bytes, two digits each, high nibble first. */
  function EncodeHex(bytes: seq<byte>): (s: string)
    ensures |s| == 2 * |bytes| && IsAllHex(s)
  {
    if bytes == [] then []
    else [HexChar(bytes[0] as int / 16), HexChar(bytes[0] as int % 16)] + EncodeHex(bytes[1..])
  }

  lemma ByteNibbles(b: byte)
    ensures ToByte(16 * (b as int / 16) + b as int % 16) == b
  {
    var x := b as int;
    assert 16 * (x / 16) + x % 16 == x;
    assert x % 256 == x;
  }

  /** Decoding inverts encoding, in both revisions. */
  lemma DecodeEncodeHex(bytes: seq<byte>)
    ensures DecodeHex(EncodeHex(bytes)) == Some(bytes)
    ensures DecodeHexLegacy(EncodeHex(bytes)) == bytes
  {
    DecodeHexDigits(EncodeHex(bytes));
    DigitBytesOfEncode(bytes);
    RevisionsAgree(EncodeHex(bytes));
  }

  /** The bytes that the encoded digits stand for are the encoded bytes. */
  lemma {:induction false} DigitBytesOfEncode(bytes: seq<byte>)
    ensures DigitBytes(EncodeHex(bytes)) == bytes
  {
    if bytes != [] {
      DigitBytesOfEncode(bytes[1..]);
      var s := EncodeHex(bytes);
      assert s[2..] == EncodeHex(bytes[1..]);
      ByteNibbles(bytes[0]);
      assert [bytes[0]] + bytes[1..] == bytes;
    }
  }
}
