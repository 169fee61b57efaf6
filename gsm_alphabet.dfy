/**
 * The GSM 7-bit default alphabet and its extension table, as the decoder holds
 * them (3GPP TS 23.038 sections 6.2.1 and 6.2.1.1), and the per-code step that
 * looks a code up and handles the 0x1B escape to the extension page.
 */
module GsmAlphabet {
  import opened Common

  /** Which of the two tables the next code is looked up in. */
  datatype Page = Default | Extension

  /** A 7-bit code: what the unpacker hands to `DecodeGsmSeptet` after masking with 0x7F. */
  type Septet = b: byte | b < 0x80

  /** The escape code: it prints nothing and selects the extension page for one code. */
  const Escape: Septet := 0x1B

  /** The default alphabet, one character per code 0x00..0x7F. */
  const GsmPage0: string :=
      "@\U{A3}$\U{A5}\U{E8}\U{E9}\U{F9}\U{EC}\U{F2}\U{C7}\U{A}\U{D8}\U{F8}\U{D}\U{C5}\U{E5}"  // 0x00
    + "\U{394}_\U{3A6}\U{393}\U{39B}\U{3A9}\U{3A0}\U{3A8}\U{3A3}\U{398}\U{39E}\U{1B}\U{C6}\U{E6}\U{DF}\U{C9}"  // 0x10
    + " !\"#\U{A4}%&'()*+,-./"  // 0x20
    + "0123456789:;<=>?"  // 0x30
    + "\U{A1}ABCDEFGHIJKLMNO"  // 0x40
    + "PQRSTUVWXYZ\U{C4}\U{D6}\U{D1}\U{DC}\U{A7}"  // 0x50
    + "\U{BF}abcdefghijklmno"  // 0x60
    + "pqrstuvwxyz\U{E4}\U{F6}\U{F1}\U{FC}\U{E0}"  // 0x70

  /** The extension table as the decoder has it: '?' wherever no character is defined. */
  const GsmPage1: string :=
      "??????????\U{A}??\U{D}??"  // 0x00
    + "????^??????\U{1B}????"  // 0x10
    + "????????{}?????\\"  // 0x20
    + "????????????[~]?"  // 0x30
    + "|???????????????"  // 0x40
    + "????????????????"  // 0x50
    + "?????\U{20AC}??????????"  // 0x60
    + "????????????????"  // 0x70

  function Table(page: Page): (t: string)
    ensures |t| == 128
  {
    if page == Default then GsmPage0 else GsmPage1
  }

  /**
   * `DecodeGsmSeptet(code, &page, decoded)`: the escape only switches to the
   * extension page; any other code appends its character from the current page
   * and switches back to the default page.
   */
  function DecodeGsmSeptet(code: Septet, page: Page, decoded: string): (r: (Page, string))
    ensures code == Escape ==> r == (Extension, decoded)
    ensures code != Escape ==>
              r.0 == Default && |r.1| == |decoded| + 1 && r.1[..|decoded|] == decoded
              && r.1[|decoded|] == Table(page)[code as int]
  {
    if code == Escape then (Extension, decoded)
    else (Default, decoded + [Table(page)[code as int]])
  }

  /** Number of escape codes in a code sequence. */
  function EscapeCount(codes: seq<Septet>): nat
  {
    if codes == [] then 0 else (if codes[0] == Escape then 1 else 0) + EscapeCount(codes[1..])
  }

  /** The text a sequence of codes renders to, starting on `page`: `DecodeGsmSeptet` folded over the codes. */
  function Render(codes: seq<Septet>, page: Page): string
  {
    if codes == [] then []
    else
      var (next, out) := DecodeGsmSeptet(codes[0], page, []);
      out + Render(codes[1..], next)
  }

  /** Every code but the escape yields exactly one character. */
  lemma {:induction false} RenderLength(codes: seq<Septet>, page: Page)
    ensures |Render(codes, page)| == |codes| - EscapeCount(codes)
  {
    if codes != [] {
      RenderLength(codes[1..], DecodeGsmSeptet(codes[0], page, []).0);
    }
  }

  /** The page that `DecodeGsmSeptet` is on after the codes. */
  function EndPage(codes: seq<Septet>, page: Page): Page
  {
    if codes == [] then page else EndPage(codes[1..], DecodeGsmSeptet(codes[0], page, []).0)
  }

  /** Rendering distributes over concatenation; the page carried across is the one the first part ends on. */
  lemma {:induction false} RenderAppend(a: seq<Septet>, b: seq<Septet>, page: Page)
    ensures Render(a + b, page) == Render(a, page) + Render(b, EndPage(a, page))
    ensures EndPage(a + b, page) == EndPage(b, EndPage(a, page))
  {
    if a == [] {
      assert a + b == b;
    } else {
      var (next, out) := DecodeGsmSeptet(a[0], page, []);
      assert (a + b)[0] == a[0];
      assert (a + b)[1..] == a[1..] + b;
      RenderAppend(a[1..], b, next);
      AppendAssoc(out, Render(a[1..], next), Render(b, EndPage(a[1..], next)));
    }
  }

  /** Rendering one more code is one more `DecodeGsmSeptet` step on the text and page reached so far. */
  lemma RenderSnoc(a: seq<Septet>, code: Septet, page: Page)
    ensures (EndPage(a + [code], page), Render(a + [code], page))
            == DecodeGsmSeptet(code, EndPage(a, page), Render(a, page))
  {
    RenderAppend(a, [code], page);
    var p := EndPage(a, page);
    var step := DecodeGsmSeptet(code, p, []);
    assert [code][1..] == [];
    assert EndPage([code], p) == step.0;
    assert Render([code], p) == step.1 + Render([], step.0);
    var full := DecodeGsmSeptet(code, p, Render(a, page));
    if code != Escape {
      assert step.1 == [Table(p)[code as int]];
      assert full.1 == Render(a, page) + [Table(p)[code as int]];
    }
    assert Render(a + [code], page) == full.1;
  }

  /** An escape applies to exactly the next code: after it, rendering is back on the default page. */
  lemma EscapeAppliesOnce(code: Septet, rest: seq<Septet>, page: Page)
    requires code != Escape
    ensures Render([Escape, code] + rest, page) == [GsmPage1[code as int]] + Render(rest, Default)
  {
    var s := [Escape, code] + rest;
    assert s[1..] == [code] + rest;
    assert s[1..][1..] == rest;
  }

  /** The euro sign is the extension character of code 0x65; the same code alone is 'e'. */
  lemma EuroSign()
    ensures Render([Escape, 0x65], Default) == "\U{20AC}"
    ensures Render([0x65], Default) == "e"
  {
    EscapeAppliesOnce(0x65, [], Default);
    assert GsmPage1[0x65] == '\U{20AC}';
    assert [Escape, 0x65] + [] == [Escape, 0x65];
  }

  /** Without escapes the text is the default-page lookup of each code. */
  lemma {:induction false} RenderPlain(codes: seq<Septet>, page: Page)
    requires Escape !in codes && (page == Default || codes == [])
    ensures |Render(codes, page)| == |codes|
    ensures forall i :: 0 <= i < |codes| ==> Render(codes, page)[i] == GsmPage0[codes[i] as int]
  {
    if codes != [] {
      RenderPlain(codes[1..], Default);
    }
  }
}
