/**
 * Unpacking of GSM 7-bit user data (`DecodeGsmSeptetData`), the packing it is
 * meant to invert (3GPP TS 23.038 section 6.1.2.1) and the relation between the two.
 *
 * The unpacker keeps the high bits of the last byte read in a carry `c` and the
 * number of bytes read in `num`. Each code is `(c | byte << (num % 7)) & 0x7F`;
 * when `num % 7 == 0` and the carry is non-zero, the carry alone is the next code
 * and no byte is read. A zero carry at that point (the code 0x00, '@', in the
 * eighth position of a group of eight) is therefore not seen as a code.
 */
module GsmSeptets {
  import opened Common
  import opened GsmAlphabet

  function Max0(x: int): nat { if x < 0 then 0 else x }

  /** The code built from the carry and the next byte when `num % 7 == k`. */
  function NextCode(carry: byte, b: byte, k: nat): Septet
    requires k < 7
  {
    (carry | Shl(b, k)) & 0x7F
  }

  /** The bits of byte `b` that belong to later codes when `num % 7 == k`. */
  function NextCarry(b: byte, k: nat): byte
    requires k < 7
  {
    Shr(b, 7 - k)
  }

  /**
   * The codes produced by `n` unpacking steps over `data` from byte `pos`, with
   * carry `carry` after `num` bytes, and whether all `n` steps found the byte they
   * needed. On failure the codes are those produced before the missing byte.
   */
  function Unpack(data: seq<byte>, pos: nat, carry: byte, num: nat, n: nat): (r: (seq<Septet>, bool))
    requires pos <= |data|
    ensures |r.0| <= n
    ensures r.1 <==> |r.0| == n
    decreases n
  {
    if n == 0 then ([], true)
    else if num % 7 == 0 && carry > 0 then
      var rest := Unpack(data, pos, 0, num, n - 1);
      ([carry & 0x7F] + rest.0, rest.1)
    else if pos == |data| then ([], false)
    else
      var rest := Unpack(data, pos + 1, NextCarry(data[pos], num % 7), num + 1, n - 1);
      ([NextCode(carry, data[pos], num % 7)] + rest.0, rest.1)
  }

  /** Steps the decoder takes in total: the skipped codes and the emitted ones. */
  function Steps(chars: int, skip: int): nat
  {
    Max0(if chars > skip then chars else skip)
  }

  /** The codes the second loop of `DecodeGsmSeptetData` hands to `DecodeGsmSeptet`. */
  function EmittedCodes(data: seq<byte>, chars: int, skip: int): seq<Septet>
  {
    var produced := Unpack(data, 0, 0, 0, Steps(chars, skip)).0;
    var s := if Max0(skip) <= |produced| then Max0(skip) else |produced|;
    produced[s..]
  }

  /**
   * What `DecodeGsmSeptetData(it, end, chars, skip, &decoded)` leaves behind:
   * whether no needed byte was missing, and the text of the codes after the
   * first `skip` (the partial text when a byte was missing).
   */
  function DecodeSeptets(data: seq<byte>, chars: int, skip: int): (r: (bool, string))
  {
    (Unpack(data, 0, 0, 0, Steps(chars, skip)).1, Render(EmittedCodes(data, chars, skip), Default))
  }

  /**
   * Loop bookkeeping of the decoder: after producing `codes` (one per step taken,
   * `cchar` of them) it stands at byte `it` with carry `c` after `num` bytes, and
   * the remaining steps complete `whole`, the result of all `total` steps.
   */
  ghost predicate Tracks(data: seq<byte>, total: nat, whole: (seq<Septet>, bool),
                         codes: seq<Septet>, it: nat, c: byte, num: nat)
  {
    it <= |data| && |codes| <= total &&
    var rest := Unpack(data, it, c, num, total - |codes|);
    whole == (codes + rest.0, rest.1)
  }

  lemma TracksStart(data: seq<byte>, total: nat)
    ensures Tracks(data, total, Unpack(data, 0, 0, 0, total), [], 0, 0, 0)
  {
    assert [] + Unpack(data, 0, 0, 0, total).0 == Unpack(data, 0, 0, 0, total).0;
  }

  /** A step where the carry alone is the next code. */
  lemma TracksCarry(data: seq<byte>, total: nat, whole: (seq<Septet>, bool),
                    codes: seq<Septet>, it: nat, c: byte, num: nat)
    requires Tracks(data, total, whole, codes, it, c, num)
    requires |codes| < total && num % 7 == 0 && c > 0
    ensures Tracks(data, total, whole, codes + [c & 0x7F], it, 0, num)
  {
    var next := Unpack(data, it, 0, num, total - |codes| - 1);
    AppendAssoc(codes, [c & 0x7F], next.0);
  }

  /** A step that reads byte `it`. */
  lemma TracksRead(data: seq<byte>, total: nat, whole: (seq<Septet>, bool),
                   codes: seq<Septet>, it: nat, c: byte, num: nat)
    requires Tracks(data, total, whole, codes, it, c, num)
    requires |codes| < total && !(num % 7 == 0 && c > 0) && it < |data|
    ensures Tracks(data, total, whole, codes + [NextCode(c, data[it], num % 7)],
                   it + 1, NextCarry(data[it], num % 7), num + 1)
  {
    var code := NextCode(c, data[it], num % 7);
    var next := Unpack(data, it + 1, NextCarry(data[it], num % 7), num + 1, total - |codes| - 1);
    AppendAssoc(codes, [code], next.0);
  }

  /** A step that needs a byte when none is left ends the whole computation with failure. */
  lemma TracksEnd(data: seq<byte>, total: nat, whole: (seq<Septet>, bool),
                  codes: seq<Septet>, it: nat, c: byte, num: nat)
    requires Tracks(data, total, whole, codes, it, c, num)
    requires |codes| < total && !(num % 7 == 0 && c > 0) && it == |data|
    ensures whole == (codes, false)
  {
    assert codes + [] == codes;
  }

  /** After all steps the bookkeeping gives the whole result. */
  lemma TracksDone(data: seq<byte>, total: nat, whole: (seq<Septet>, bool),
                   codes: seq<Septet>, it: nat, c: byte, num: nat)
    requires Tracks(data, total, whole, codes, it, c, num) && |codes| == total
    ensures whole == (codes, true)
  {
    assert codes + [] == codes;
  }

  /** The text of the codes after the first `s`, extended by one more code. */
  lemma EmitStep(codes: seq<Septet>, s: nat, code: Septet, page: Page, decoded: string)
    requires s <= |codes|
    requires decoded == Render(codes[s..], Default) && page == EndPage(codes[s..], Default)
    ensures DecodeGsmSeptet(code, page, decoded).1 == Render((codes + [code])[s..], Default)
    ensures DecodeGsmSeptet(code, page, decoded).0 == EndPage((codes + [code])[s..], Default)
  {
    RenderSnoc(codes[s..], code, Default);
    assert (codes + [code])[s..] == codes[s..] + [code];
  }

  /** The decoder's result once all steps are accounted for. */
  lemma DecodeResult(data: seq<byte>, chars: int, skip: int, codes: seq<Septet>, ok: bool)
    requires Unpack(data, 0, 0, 0, Steps(chars, skip)) == (codes, ok)
    ensures DecodeSeptets(data, chars, skip).0 == ok
    ensures EmittedCodes(data, chars, skip) == if Max0(skip) <= |codes| then codes[Max0(skip)..] else []
  {
  }

  /**
   * `DecodeGsmSeptetData`, over the bytes from the iterator to the end of the
   * buffer: a first loop steps over `skip` codes, a second decodes up to `chars`.
   */
  method DecodeGsmSeptetData(data: seq<byte>, chars: int, skip: int) returns (ok: bool, decoded: string)
    ensures (ok, decoded) == DecodeSeptets(data, chars, skip)
  {
    decoded := [];
    var c: byte := 0;
    var page := Default;
    var num: nat := 0;
    var cchar: nat := 0;
    var it: nat := 0;
    ghost var total := Steps(chars, skip);
    ghost var whole := Unpack(data, 0, 0, 0, total);
    ghost var codes: seq<Septet> := [];
    TracksStart(data, total);
    while cchar < skip
      invariant cchar <= Max0(skip) <= total && |codes| == cchar
      invariant Tracks(data, total, whole, codes, it, c, num)
      invariant decoded == []
    {
      if num % 7 == 0 && c > 0 {
        TracksCarry(data, total, whole, codes, it, c, num);
        codes := codes + [c & 0x7F];
        c := 0;
        cchar := cchar + 1;
        continue;
      }
      if it == |data| {
        TracksEnd(data, total, whole, codes, it, c, num);
        DecodeResult(data, chars, skip, codes, false);
        return false, decoded;
      }
      TracksRead(data, total, whole, codes, it, c, num);
      codes := codes + [NextCode(c, data[it], num % 7)];
      c := NextCarry(data[it], num % 7);
      it, num := it + 1, num + 1;
      cchar := cchar + 1;
    }
    while cchar < chars
      invariant Max0(skip) <= cchar <= total && |codes| == cchar
      invariant Tracks(data, total, whole, codes, it, c, num)
      invariant decoded == Render(codes[Max0(skip)..], Default)
      invariant page == EndPage(codes[Max0(skip)..], Default)
    {
      var code: Septet;
      if num % 7 == 0 && c > 0 {
        TracksCarry(data, total, whole, codes, it, c, num);
        code := c & 0x7F;
        c := 0;
      } else {
        if it == |data| {
          TracksEnd(data, total, whole, codes, it, c, num);
          DecodeResult(data, chars, skip, codes, false);
          return false, decoded;
        }
        TracksRead(data, total, whole, codes, it, c, num);
        code := NextCode(c, data[it], num % 7);
        c := NextCarry(data[it], num % 7);
        it, num := it + 1, num + 1;
      }
      EmitStep(codes, Max0(skip), code, page, decoded);
      codes := codes + [code];
      page, decoded := DecodeGsmSeptet(code, page, decoded).0, DecodeGsmSeptet(code, page, decoded).1;
      cchar := cchar + 1;
    }
    TracksDone(data, total, whole, codes, it, c, num);
    DecodeResult(data, chars, skip, codes, true);
    return true, decoded;
  }

  // Packing (3GPP TS 23.038 section 6.1.2.1) and what unpacking does with it.

  /** Bit mask of the low `j` bits. */
  function LowBits(j: nat): byte
  {
    if j >= 8 then 0xFF else Shl(1, j) - 1
  }

  /**
   * Packs codes whose first one sits at position `j` of its group of eight: the
   * code at position j < 7 fills the low 8 - j bits of a byte with its high bits
   * and the next code's low bits fill the rest; the code at position 7 lives
   * entirely in the top seven bits of the byte before it.
   */
  function PackFrom(codes: seq<Septet>, j: nat): seq<byte>
    requires j < 8
  {
    if codes == [] then []
    else if j == 7 then PackFrom(codes[1..], 0)
    else
      var next: byte := if |codes| > 1 then codes[1] else 0;
      [Shr(codes[0], j) | Shl(next, 7 - j)] + PackFrom(codes[1..], j + 1)
  }

  function Pack(codes: seq<Septet>): seq<byte>
  {
    PackFrom(codes, 0)
  }

  /** Packing takes ceil(7n/8) octets for n septets. */
  lemma {:induction false} PackFromLength(codes: seq<Septet>, j: nat)
    requires j < 8
    ensures |PackFrom(codes, j)| == |codes| - (|codes| + j) / 8
  {
    if codes != [] {
      if j == 7 {
        PackFromLength(codes[1..], 0);
      } else {
        PackFromLength(codes[1..], j + 1);
      }
    }
  }

  lemma PackLength(codes: seq<Septet>)
    ensures |Pack(codes)| == (7 * |codes| + 7) / 8
  {
    PackFromLength(codes, 0);
    var n := |codes|;
    assert n == 8 * (n / 8) + n % 8;
  }

  /** The carry the unpacker holds when the code at group position `j` is next. */
  function CarryBefore(codes: seq<Septet>, j: nat): byte
    requires j < 8
  {
    if codes == [] || j == 0 then 0
    else if j == 7 then codes[0]
    else codes[0] & LowBits(j)
  }

  /**
   * Within one byte, unpacking undoes packing: for the byte `b` that packs code
   * `s` at group position `j` with the low bits of the following code `t`, and the
   * carry the unpacker holds before it, the code comes back and the new carry
   * holds the low bits of `t`.
   */
  lemma ByteRoundTrip(s: Septet, t: Septet, j: nat, carry: byte, b: byte, k: nat)
    requires j < 7 && k == j
    requires b == Shr(s, j) | Shl(t, 7 - j)
    requires carry == if j == 0 then 0 else s & LowBits(j)
    ensures NextCode(carry, b, k) == s
    ensures NextCarry(b, k) == if j == 6 then t else t & LowBits(j + 1)
    ensures t == 0 ==> NextCarry(b, k) == 0
  {
    match j
    case 0 => ByteRoundTrip0(s, t, j, carry, b, k);
    case 1 => ByteRoundTrip1(s, t, j, carry, b, k);
    case 2 => ByteRoundTrip2(s, t, j, carry, b, k);
    case 3 => ByteRoundTrip3(s, t, j, carry, b, k);
    case 4 => ByteRoundTrip4(s, t, j, carry, b, k);
    case 5 => ByteRoundTrip5(s, t, j, carry, b, k);
    case 6 => ByteRoundTrip6(s, t, j, carry, b, k);
  }

  lemma ByteRoundTrip0(s: Septet, t: Septet, j: nat, carry: byte, b: byte, k: nat)
    requires j == 0 && k == j
    requires b == Shr(s, j) | Shl(t, 7 - j)
    requires carry == 0
    ensures NextCode(carry, b, k) == s
    ensures NextCarry(b, k) == t & LowBits(j + 1)
    ensures t == 0 ==> NextCarry(b, k) == 0
  {
  }

  lemma ByteRoundTrip1(s: Septet, t: Septet, j: nat, carry: byte, b: byte, k: nat)
    requires j == 1 && k == j
    requires b == Shr(s, j) | Shl(t, 7 - j)
    requires carry == s & LowBits(j)
    ensures NextCode(carry, b, k) == s
    ensures NextCarry(b, k) == t & LowBits(j + 1)
    ensures t == 0 ==> NextCarry(b, k) == 0
  {
  }

  lemma ByteRoundTrip2(s: Septet, t: Septet, j: nat, carry: byte, b: byte, k: nat)
    requires j == 2 && k == j
    requires b == Shr(s, j) | Shl(t, 7 - j)
    requires carry == s & LowBits(j)
    ensures NextCode(carry, b, k) == s
    ensures NextCarry(b, k) == t & LowBits(j + 1)
    ensures t == 0 ==> NextCarry(b, k) == 0
  {
  }

  lemma ByteRoundTrip3(s: Septet, t: Septet, j: nat, carry: byte, b: byte, k: nat)
    requires j == 3 && k == j
    requires b == Shr(s, j) | Shl(t, 7 - j)
    requires carry == s & LowBits(j)
    ensures NextCode(carry, b, k) == s
    ensures NextCarry(b, k) == t & LowBits(j + 1)
    ensures t == 0 ==> NextCarry(b, k) == 0
  {
  }

  lemma ByteRoundTrip4(s: Septet, t: Septet, j: nat, carry: byte, b: byte, k: nat)
    requires j == 4 && k == j
    requires b == Shr(s, j) | Shl(t, 7 - j)
    requires carry == s & LowBits(j)
    ensures NextCode(carry, b, k) == s
    ensures NextCarry(b, k) == t & LowBits(j + 1)
    ensures t == 0 ==> NextCarry(b, k) == 0
  {
  }

  lemma ByteRoundTrip5(s: Septet, t: Septet, j: nat, carry: byte, b: byte, k: nat)
    requires j == 5 && k == j
    requires b == Shr(s, j) | Shl(t, 7 - j)
    requires carry == s & LowBits(j)
    ensures NextCode(carry, b, k) == s
    ensures NextCarry(b, k) == t & LowBits(j + 1)
    ensures t == 0 ==> NextCarry(b, k) == 0
  {
  }

  lemma ByteRoundTrip6(s: Septet, t: Septet, j: nat, carry: byte, b: byte, k: nat)
    requires j == 6 && k == j
    requires b == Shr(s, j) | Shl(t, 7 - j)
    requires carry == s & LowBits(j)
    ensures NextCode(carry, b, k) == s
    ensures NextCarry(b, k) == t
    ensures t == 0 ==> NextCarry(b, k) == 0
  {
  }

  /** No code in the last position (7) of a group of eight is 0x00 ('@'). */
  predicate NoAtGroupEnd(codes: seq<Septet>, j: nat)
  {
    forall i :: 0 <= i < |codes| && (i + j) % 8 == 7 ==> codes[i] != 0
  }

  lemma {:induction false} UnpackPackFrom(codes: seq<Septet>, j: nat, num: nat)
    requires j < 8 && num % 7 == j % 7 && NoAtGroupEnd(codes, j)
    ensures Unpack(PackFrom(codes, j), 0, CarryBefore(codes, j), num, |codes|) == (codes, true)
  {
    if codes != [] {
      NoAtGroupEndTail(codes, j);
      if j == 7 {
        UnpackPackFrom(codes[1..], 0, num);
        UnpackPackCarry(codes, num);
      } else {
        UnpackPackFrom(codes[1..], j + 1, num + 1);
        UnpackPackRead(codes, j, num);
      }
    }
  }

  lemma NoAtGroupEndTail(codes: seq<Septet>, j: nat)
    requires codes != [] && NoAtGroupEnd(codes, j)
    ensures NoAtGroupEnd(codes[1..], (j + 1) % 8)
    ensures j % 8 == 7 ==> codes[0] != 0
  {
    var tail := codes[1..];
    forall i | 0 <= i < |tail| && (i + (j + 1) % 8) % 8 == 7
      ensures tail[i] != 0
    {
      assert (i + 1 + j) % 8 == 7;
      assert tail[i] == codes[i + 1];
    }
    if j % 8 == 7 {
      assert (0 + j) % 8 == 7;
    }
  }

  /** Position 7: the non-zero carry is emitted as the code and no byte is read. */
  lemma UnpackPackCarry(codes: seq<Septet>, num: nat)
    requires codes != [] && codes[0] != 0 && num % 7 == 0
    requires Unpack(PackFrom(codes[1..], 0), 0, 0, num, |codes| - 1) == (codes[1..], true)
    ensures Unpack(PackFrom(codes, 7), 0, CarryBefore(codes, 7), num, |codes|) == (codes, true)
  {
    var tail := codes[1..];
    assert PackFrom(codes, 7) == PackFrom(tail, 0);
    assert CarryBefore(codes, 7) == codes[0];
    UnpackCarryStep(PackFrom(tail, 0), codes[0], num, |codes|);
    assert [codes[0]] + tail == codes;
  }

  /** Unpacking that starts with a non-zero carry at a multiple of seven emits the carry as the code. */
  lemma UnpackCarryStep(data: seq<byte>, carry: Septet, num: nat, n: nat)
    requires n >= 1 && carry != 0 && num % 7 == 0
    ensures Unpack(data, 0, carry, num, n)
            == ([carry] + Unpack(data, 0, 0, num, n - 1).0, Unpack(data, 0, 0, num, n - 1).1)
  {
    assert carry & 0x7F == carry;
  }

  /** Positions 0 to 6: one byte is read, giving back the code and the carry for the next one. */
  lemma UnpackPackRead(codes: seq<Septet>, j: nat, num: nat)
    requires codes != [] && j < 7 && num % 7 == j
    requires Unpack(PackFrom(codes[1..], j + 1), 0, CarryBefore(codes[1..], j + 1), num + 1, |codes| - 1)
             == (codes[1..], true)
    ensures Unpack(PackFrom(codes, j), 0, CarryBefore(codes, j), num, |codes|) == (codes, true)
  {
    var data := PackFrom(codes, j);
    PackedByte(codes, j);
    UnpackShift(data, CarryBefore(codes[1..], j + 1), num + 1, |codes| - 1);
    UnpackReadStep(data, CarryBefore(codes, j), num, |codes|);
    assert [codes[0]] + codes[1..] == codes;
  }

  /** The first byte packed at positions 0 to 6 unpacks to the first code and the next carry. */
  lemma PackedByte(codes: seq<Septet>, j: nat)
    requires codes != [] && j < 7
    ensures PackFrom(codes, j) != [] && PackFrom(codes, j)[1..] == PackFrom(codes[1..], j + 1)
    ensures NextCode(CarryBefore(codes, j), PackFrom(codes, j)[0], j) == codes[0]
    ensures NextCarry(PackFrom(codes, j)[0], j) == CarryBefore(codes[1..], j + 1)
  {
    var next: Septet := if |codes| > 1 then codes[1] else 0;
    var b := Shr(codes[0], j) | Shl(next, 7 - j);
    ByteRoundTrip(codes[0], next, j, CarryBefore(codes, j), b, j);
    assert PackFrom(codes, j) == [b] + PackFrom(codes[1..], j + 1);
  }

  /** Unpacking that starts by reading byte 0. */
  lemma UnpackReadStep(data: seq<byte>, carry: byte, num: nat, n: nat)
    requires |data| >= 1 && n >= 1 && !(num % 7 == 0 && carry > 0)
    ensures Unpack(data, 0, carry, num, n)
            == ([NextCode(carry, data[0], num % 7)] + Unpack(data, 1, NextCarry(data[0], num % 7), num + 1, n - 1).0,
                Unpack(data, 1, NextCarry(data[0], num % 7), num + 1, n - 1).1)
  {
  }

  /** Unpacking from byte 1 of `data` is unpacking `data[1..]` from byte 0. */
  lemma {:induction false} UnpackShift(data: seq<byte>, carry: byte, num: nat, n: nat)
    requires |data| >= 1
    ensures Unpack(data, 1, carry, num, n) == Unpack(data[1..], 0, carry, num, n)
  {
    UnpackFromSuffix(data, 1, carry, num, n);
  }

  lemma {:induction false} UnpackFromSuffix(data: seq<byte>, pos: nat, carry: byte, num: nat, n: nat)
    requires pos <= |data|
    ensures Unpack(data, pos, carry, num, n) == Unpack(data[pos..], 0, carry, num, n)
    decreases n, 1
  {
    if n > 0 {
      if num % 7 == 0 && carry > 0 {
        UnpackFromSuffix(data, pos, 0, num, n - 1);
      } else if pos < |data| {
        ReadFromSuffix(data, pos, carry, num, n);
      }
    }
  }

  /** The case of `UnpackFromSuffix` where a byte is read. */
  lemma {:induction false} ReadFromSuffix(data: seq<byte>, pos: nat, carry: byte, num: nat, n: nat)
    requires pos < |data| && n > 0 && !(num % 7 == 0 && carry > 0)
    ensures Unpack(data, pos, carry, num, n) == Unpack(data[pos..], 0, carry, num, n)
    decreases n, 0
  {
    var next := NextCarry(data[pos], num % 7);
    UnpackFromSuffix(data, pos + 1, next, num + 1, n - 1);
    UnpackFromSuffix(data[pos..], 1, next, num + 1, n - 1);
    assert data[pos..][1..] == data[pos + 1..];
  }

  /**
   * Round trip: decoding the packing of n codes as n characters gives back the
   * codes, provided no code at position 7, 15, 23, ... is 0x00 ('@').
   */
  lemma UnpackPack(codes: seq<Septet>)
    requires NoAtGroupEnd(codes, 0)
    ensures DecodeSeptets(Pack(codes), |codes|, 0) == (true, Render(codes, Default))
  {
    UnpackPackFrom(codes, 0, 0);
    assert Steps(|codes|, 0) == |codes|;
    assert codes[0..] == codes;
  }

  /**
   * The same round trip fails for an '@' at position 7: "@@@@@@@@" packs into
   * seven zero bytes, and decoding eight characters from them asks for an
   * eighth byte, so the decoder reports failure with seven characters decoded.
   */
  lemma AtInEighthPositionIsLost()
    ensures Pack([0, 0, 0, 0, 0, 0, 0, 0]) == [0, 0, 0, 0, 0, 0, 0]
    ensures DecodeSeptets([0, 0, 0, 0, 0, 0, 0], 8, 0) == (false, "@@@@@@@")
  {
    AtSignsPack();
    ZeroBytesDecode();
  }

  lemma AtSignsPack()
    ensures Pack([0, 0, 0, 0, 0, 0, 0, 0]) == [0, 0, 0, 0, 0, 0, 0]
  {
  }

  lemma ZeroBytesDecode()
    ensures DecodeSeptets([0, 0, 0, 0, 0, 0, 0], 8, 0) == (false, "@@@@@@@")
  {
    ZeroBytesCodes();
    AtSignsText();
  }

  /** Eight steps over seven zero bytes emit seven codes 0x00 and find no eighth byte. */
  lemma ZeroBytesCodes()
    ensures Unpack([0, 0, 0, 0, 0, 0, 0], 0, 0, 0, Steps(8, 0)).1 == false
    ensures EmittedCodes([0, 0, 0, 0, 0, 0, 0], 8, 0) == [0, 0, 0, 0, 0, 0, 0]
  {
    ZeroBytesUnpack([0, 0, 0, 0, 0, 0, 0], 0);
    var codes: seq<Septet> := [0, 0, 0, 0, 0, 0, 0];
    assert AtSigns(7) == codes;
    assert Steps(8, 0) == 8;
    assert codes[0..] == codes;
  }

  /** Seven codes 0x00 are seven '@'. */
  lemma AtSignsText()
    ensures Render([0, 0, 0, 0, 0, 0, 0], Default) == "@@@@@@@"
  {
    var codes: seq<Septet> := [0, 0, 0, 0, 0, 0, 0];
    RenderPlain(codes, Default);
    assert GsmPage0[0] == '@';
  }

  /** A zero byte read with no carry yields the code 0x00 and no carry. */
  lemma ZeroByteStep(data: seq<byte>, pos: nat, num: nat, n: nat)
    requires pos < |data| && data[pos] == 0 && n > 0
    ensures Unpack(data, pos, 0, num, n)
            == ([0] + Unpack(data, pos + 1, 0, num + 1, n - 1).0, Unpack(data, pos + 1, 0, num + 1, n - 1).1)
  {
    assert NextCode(0, 0, num % 7) == 0 && NextCarry(0, num % 7) == 0;
  }

  function AtSigns(n: nat): seq<Septet>
  {
    if n == 0 then [] else [0] + AtSigns(n - 1)
  }

  /** Seven zero bytes unpack to seven '@' codes, and the eighth code finds no byte. */
  lemma {:induction false} ZeroBytesUnpack(data: seq<byte>, p: nat)
    requires data == [0, 0, 0, 0, 0, 0, 0] && p <= 7
    ensures Unpack(data, p, 0, p, 8 - p) == (AtSigns(7 - p), false)
    decreases 7 - p
  {
    if p < 7 {
      ZeroBytesUnpack(data, p + 1);
      ZeroByteStep(data, p, p, 8 - p);
    }
  }

  /** Each step reads at most one byte: n bytes are always enough for n codes. */
  lemma {:induction false} UnpackEnoughBytes(data: seq<byte>, pos: nat, carry: byte, num: nat, n: nat)
    requires pos <= |data| && |data| - pos >= n
    ensures Unpack(data, pos, carry, num, n).1
    decreases n
  {
    if n > 0 {
      if num % 7 == 0 && carry > 0 {
        UnpackEnoughBytes(data, pos, 0, num, n - 1);
      } else {
        UnpackEnoughBytes(data, pos + 1, NextCarry(data[pos], num % 7), num + 1, n - 1);
      }
    }
  }

  /**
   * On success the text has one character per emitted code except escapes:
   * max(0, chars - skip) codes are emitted.
   */
  lemma DecodedLength(data: seq<byte>, chars: int, skip: int)
    requires DecodeSeptets(data, chars, skip).0
    ensures |EmittedCodes(data, chars, skip)| == Max0(chars - Max0(skip))
    ensures |DecodeSeptets(data, chars, skip).1|
            == Max0(chars - Max0(skip)) - EscapeCount(EmittedCodes(data, chars, skip))
  {
    RenderLength(EmittedCodes(data, chars, skip), Default);
  }
}
