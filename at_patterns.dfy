/**
 * The four patterns the SIM800C session matches modem lines against, written
 * out as the matches the ECMAScript regular-expression engine finds for them
 * (anchored at the start, case-insensitive, backtracking in priority order).
 */
module AtPatterns {
  import opened Common

  /** `[0-9a-z]` under case-insensitive matching. */
  predicate IsAlnum(c: char) { '0' <= c <= '9' || 'a' <= c <= 'z' || 'A' <= c <= 'Z' }

  /** `[\t ]` */
  predicate IsBlank(c: char) { c == '\t' || c == ' ' }

  /** `['"]` */
  predicate IsQuote(c: char) { c == '\'' || c == '"' }

  /** `[^,'"]` */
  predicate IsCallerChar(c: char) { c != ',' && !IsQuote(c) }

  /** `.`: anything but a line terminator. */
  predicate IsDot(c: char) { c != '\n' && c != '\r' && c != '\U{2028}' && c != '\U{2029}' }

  /** The character classes the patterns repeat, and the comma search of `PrintNetworkState`. */
  datatype CharClass = Alnum | Blank | Digit | CallerChar | NotComma

  predicate InClass(c: char, cls: CharClass)
  {
    match cls
    case Alnum => IsAlnum(c)
    case Blank => IsBlank(c)
    case Digit => IsDigit(c)
    case CallerChar => IsCallerChar(c)
    case NotComma => c != ','
  }

  /** End of the longest run of characters of class `cls` that starts at `i`. */
  function Span(s: string, i: nat, cls: CharClass): (e: nat)
    requires i <= |s|
    ensures i <= e <= |s|
    ensures forall k :: i <= k < e ==> InClass(s[k], cls)
    ensures e < |s| ==> !InClass(s[e], cls)
    decreases |s| - i
  {
    if i == |s| || !InClass(s[i], cls) then i else Span(s, i + 1, cls)
  }

  /** A run is ended by the first character outside it. */
  lemma {:induction false} SpanAt(s: string, i: nat, e: nat, cls: CharClass)
    requires i <= e <= |s|
    requires forall k :: i <= k < e ==> InClass(s[k], cls)
    requires e < |s| ==> !InClass(s[e], cls)
    ensures Span(s, i, cls) == e
    decreases e - i
  {
    if i < e {
      SpanAt(s, i + 1, e, cls);
    }
  }

  /**
   * `^(\+[0-9a-z]+):[\t ]+`: the result code ("+" and its name) and the text
   * after the blanks (the match's suffix).
   */
  function MatchATResult(line: string): (r: Option<(string, string)>)
    ensures r.Some? ==>
              var (code, suffix) := r.value;
              |code| >= 2 && code[0] == '+' && (forall k :: 1 <= k < |code| ==> IsAlnum(code[k])) &&
              |code| + 2 + |suffix| <= |line| && line[..|code|] == code && line[|code|] == ':' &&
              (forall k :: |code| < k < |line| - |suffix| ==> IsBlank(line[k])) &&
              line[|line| - |suffix|..] == suffix && (suffix != [] ==> !IsBlank(suffix[0]))
  {
    if line == [] || line[0] != '+' then None
    else
      var e := Span(line, 1, Alnum);
      if e == 1 || e == |line| || line[e] != ':' then None
      else
        var w := Span(line, e + 1, Blank);
        if w == e + 1 then None else Some((line[..e], line[w..]))
  }

  /** Every line of the shape the pattern describes is matched, with exactly its code and suffix. */
  lemma ATResultRoundTrip(name: string, blanks: string, rest: string)
    requires name != [] && forall k :: 0 <= k < |name| ==> IsAlnum(name[k])
    requires blanks != [] && forall k :: 0 <= k < |blanks| ==> IsBlank(blanks[k])
    requires rest != [] ==> !IsBlank(rest[0])
    ensures MatchATResult("+" + name + ":" + blanks + rest) == Some(("+" + name, rest))
  {
    var line := "+" + name + ":" + blanks + rest;
    var e := 1 + |name|;
    SpanAt(line, 1, e, Alnum);
    SpanAt(line, e + 1, e + 1 + |blanks|, Blank);
    assert line[..e] == "+" + name;
    assert line[e + 1 + |blanks|..] == rest;
  }

  /** A status line such as "OK" or "ERROR" is never taken for a result code. */
  lemma ATResultNeedsPlus(line: string)
    requires line == [] || line[0] != '+'
    ensures MatchATResult(line) == None
  {
  }

  /** `^([0-9]+),`: the index digits at the start of a `+CMGL` value. */
  function MatchSmsIndex(value: string): (r: Option<string>)
    ensures r.Some? ==> r.value != [] && IsAllDigits(r.value) && StartsWith(value, r.value + ",")
  {
    var e := Span(value, 0, Digit);
    if e == 0 || e == |value| || value[e] != ',' then None
    else
      assert value[..e + 1] == value[..e] + ",";
      Some(value[..e])
  }

  /** The digits before the first comma are the index, whatever follows the comma. */
  lemma SmsIndexRoundTrip(digits: string, rest: string)
    requires digits != [] && IsAllDigits(digits)
    ensures MatchSmsIndex(digits + "," + rest) == Some(digits)
  {
    var value := digits + "," + rest;
    SpanAt(value, 0, |digits|, Digit);
    assert value[..|digits|] == digits;
  }

  /** A value that does not start with a digit has no index. */
  lemma SmsIndexNeedsDigit(value: string)
    requires value == [] || !IsDigit(value[0])
    ensures MatchSmsIndex(value) == None
  {
  }

  /**
   * `^['"]?([^,'"]+)['"]?,`: the caller ID of a `+CLIP` value, the first field
   * with one optional quote on each side.
   */
  function MatchCallerId(value: string): (r: Option<string>)
    ensures r.Some? ==>
              var c := r.value;
              var i := if value != [] && IsQuote(value[0]) then 1 else 0;
              c != [] && (forall k :: 0 <= k < |c| ==> IsCallerChar(c[k])) &&
              i + |c| < |value| && value[i..i + |c|] == c &&
              (value[i + |c|] == ',' || (i + |c| + 1 < |value| && IsQuote(value[i + |c|]) && value[i + |c| + 1] == ','))
  {
    var i := if value != [] && IsQuote(value[0]) then 1 else 0;
    var e := Span(value, i, CallerChar);
    if e == i then None
    else if e < |value| && value[e] == ',' then Some(value[i..e])
    else if e + 1 < |value| && IsQuote(value[e]) && value[e + 1] == ',' then Some(value[i..e])
    else None
  }

  /** An optional quote: nothing, `'` or `"`. */
  predicate OptionalQuote(q: string) { q == [] || (|q| == 1 && IsQuote(q[0])) }

  /** A caller ID between optional quotes and followed by a comma is recovered exactly. */
  lemma CallerIdRoundTrip(open: string, caller: string, close: string, rest: string)
    requires OptionalQuote(open) && OptionalQuote(close)
    requires caller != [] && forall k :: 0 <= k < |caller| ==> IsCallerChar(caller[k])
    ensures MatchCallerId(open + caller + close + "," + rest) == Some(caller)
  {
    var value := open + caller + close + "," + rest;
    var i := |open|;
    assert value != [] && (IsQuote(value[0]) <==> open != []);
    SpanAt(value, i, i + |caller|, CallerChar);
    assert value[i..i + |caller|] == caller;
  }

  /** A field ended by the line instead of a comma gives no caller ID. */
  lemma CallerIdNeedsComma(caller: string)
    requires forall k :: 0 <= k < |caller| ==> IsCallerChar(caller[k])
    ensures MatchCallerId(caller) == None
  {
    SpanAt(caller, 0, |caller|, CallerChar);
  }

  /**
   * The lazy `(.*?)\2,` from `start`: the text up to the first quote `q` that is
   * followed by a comma, with no line terminator before it.
   */
  function CloseQuoted(s: string, q: char, start: nat, j: nat): (r: Option<string>)
    requires start <= j <= |s| && forall k :: start <= k < j ==> IsDot(s[k])
    ensures r.Some? ==> start + |r.value| + 1 < |s| && s[start..start + |r.value|] == r.value &&
                        s[start + |r.value|] == q && s[start + |r.value| + 1] == ','
    ensures r.Some? ==> forall k :: 0 <= k < |r.value| ==> IsDot(r.value[k])
    decreases |s| - j
  {
    if j + 1 < |s| && s[j] == q && s[j + 1] == ',' then Some(s[start..j])
    else if j < |s| && IsDot(s[j]) then CloseQuoted(s, q, start, j + 1)
    else None
  }

  /** `,(['"])(.*?)\2,` at position `p`: the quoted number field. */
  function NumberFrom(s: string, p: nat): (r: Option<string>)
    requires p <= |s|
    ensures r.Some? ==> p + 2 + |r.value| + 1 < |s| && s[p] == ',' && IsQuote(s[p + 1]) &&
                        s[p + 2..p + 2 + |r.value|] == r.value &&
                        s[p + 2 + |r.value|] == s[p + 1] && s[p + 3 + |r.value|] == ','
    ensures r.Some? ==> forall k :: 0 <= k < |r.value| ==> IsDot(r.value[k])
  {
    if p + 1 < |s| && s[p] == ',' && IsQuote(s[p + 1]) then CloseQuoted(s, s[p + 1], p + 2, p + 2) else None
  }

  /**
   * `(['"]).*?\1` with its quote `q` at position 0, tried with each closing quote
   * from `a` on in turn, each followed by the number field.
   */
  function AfterAlpha(s: string, q: char, a: nat): (r: Option<string>)
    requires 1 <= a <= |s|
    ensures r.Some? ==> forall k :: 0 <= k < |r.value| ==> IsDot(r.value[k])
    decreases |s| - a
  {
    if a == |s| then None
    else if s[a] == q && NumberFrom(s, a + 1).Some? then NumberFrom(s, a + 1)
    else if IsDot(s[a]) then AfterAlpha(s, q, a + 1)
    else None
  }

  /**
   * `^(?:(['"]).*?\1)?,(['"])(.*?)\2,`: the subscriber number of a `+CNUM` value,
   * after an optional quoted alpha field; the optional group is tried first.
   */
  function MatchSubscriberNumber(value: string): (r: Option<string>)
    ensures r.Some? ==> forall k :: 0 <= k < |r.value| ==> IsDot(r.value[k])
  {
    var withAlpha := if value != [] && IsQuote(value[0]) then AfterAlpha(value, value[0], 1) else None;
    if withAlpha.Some? then withAlpha else NumberFrom(value, 0)
  }

  /** The closing quote is found at the end of a number that has no quote of its own. */
  lemma {:induction false} CloseQuotedAt(s: string, q: char, start: nat, j: nat, end: nat)
    requires start <= j <= end && end + 1 < |s| && s[end] == q && s[end + 1] == ','
    requires forall k :: start <= k < j ==> IsDot(s[k])
    requires forall k :: j <= k < end ==> s[k] != q && IsDot(s[k])
    ensures CloseQuoted(s, q, start, j) == Some(s[start..end])
    decreases end - j
  {
    if j < end {
      CloseQuotedAt(s, q, start, j + 1, end);
    }
  }

  /** The number field read back: a quoted number without quotes or line breaks, after a comma. */
  lemma NumberFromRoundTrip(prefix: string, number: string, rest: string)
    requires forall k :: 0 <= k < |number| ==> number[k] != '"' && IsDot(number[k])
    ensures NumberFrom(prefix + ",\"" + number + "\"," + rest, |prefix|) == Some(number)
  {
    var s := prefix + ",\"" + number + "\"," + rest;
    var p := |prefix|;
    CloseQuotedAt(s, '"', p + 2, p + 2, p + 2 + |number|);
    assert s[p + 2..p + 2 + |number|] == number;
  }

  /** Without the alpha field, `,"<number>",...` gives the number. */
  lemma SubscriberRoundTrip(number: string, rest: string)
    requires forall k :: 0 <= k < |number| ==> number[k] != '"' && IsDot(number[k])
    ensures MatchSubscriberNumber(",\"" + number + "\"," + rest) == Some(number)
  {
    NumberFromRoundTrip([], number, rest);
    assert [] + ",\"" + number + "\"," + rest == ",\"" + number + "\"," + rest;
  }

  /** The alpha field is skipped up to the first closing quote that the number field follows. */
  lemma {:induction false} AfterAlphaAt(s: string, a: nat, close: nat)
    requires 1 <= a <= close < |s| && s[close] == '"' && NumberFrom(s, close + 1).Some?
    requires forall k :: a <= k < close ==> s[k] != '"' && IsDot(s[k])
    ensures AfterAlpha(s, '"', a) == NumberFrom(s, close + 1)
    decreases close - a
  {
    if a < close {
      AfterAlphaAt(s, a + 1, close);
    }
  }

  /** With a quoted alpha field, `"<alpha>","<number>",...` gives the number. */
  lemma SubscriberAfterAlpha(alpha: string, number: string, rest: string)
    requires forall k :: 0 <= k < |alpha| ==> alpha[k] != '"' && IsDot(alpha[k])
    requires forall k :: 0 <= k < |number| ==> number[k] != '"' && IsDot(number[k])
    ensures MatchSubscriberNumber("\"" + alpha + "\",\"" + number + "\"," + rest) == Some(number)
  {
    var prefix := "\"" + alpha + "\"";
    var s := prefix + ",\"" + number + "\"," + rest;
    assert s == "\"" + alpha + "\",\"" + number + "\"," + rest;
    NumberFromRoundTrip(prefix, number, rest);
    AfterAlphaAt(s, 1, |alpha| + 1);
  }

  /** An unquoted, non-empty alpha field gives no number. */
  lemma UnquotedAlphaFails(value: string)
    requires value != [] && !IsQuote(value[0]) && value[0] != ','
    ensures MatchSubscriberNumber(value) == None
  {
  }

  /** A typical `+CNUM` value. */
  lemma SubscriberExample()
    ensures MatchSubscriberNumber("\"\",\"+4367612345678\",145,7,4") == Some("+4367612345678")
  {
    SubscriberAfterAlpha("", "+4367612345678", "145,7,4");
    assert "\"" + "" + "\",\"" + "+4367612345678" + "\"," + "145,7,4" == "\"\",\"+4367612345678\",145,7,4";
  }
}
