/**
 * Splitting received text into lines: a line ends at the first CR or LF, and
 * the whole run of CR and LF characters after it is the terminator.
 */
module LineFraming {
  import opened Common

  predicate IsEndLine(c: char) { c == '\r' || c == '\n' }

  predicate NoEndLine(s: string) { forall i :: 0 <= i < |s| ==> !IsEndLine(s[i]) }

  predicate AllEndLine(s: string) { forall i :: 0 <= i < |s| ==> IsEndLine(s[i]) }

  /** Position of the first CR or LF, or |s| when there is none. */
  function FirstEndLine(s: string): (i: nat)
    ensures i <= |s| && NoEndLine(s[..i])
    ensures i < |s| ==> IsEndLine(s[i])
  {
    if s == [] || IsEndLine(s[0]) then 0
    else
      var i := 1 + FirstEndLine(s[1..]);
      assert s[..i] == [s[0]] + s[1..][..i - 1];
      i
  }

  /** End of the run of CR and LF characters that starts at `i`. */
  function RunEnd(s: string, i: nat): (e: nat)
    requires i <= |s|
    ensures i <= e <= |s| && AllEndLine(s[i..e])
    ensures e < |s| ==> !IsEndLine(s[e])
    decreases |s| - i
  {
    if i == |s| || !IsEndLine(s[i]) then i
    else
      var e := RunEnd(s, i + 1);
      assert s[i..e] == [s[i]] + s[i + 1..e];
      e
  }

  /**
   * The first line of `buffer` and what follows its terminator, or `None` when
   * `buffer` holds no CR or LF yet.
   */
  function NextLine(buffer: string): Option<(string, string)>
  {
    var i := FirstEndLine(buffer);
    if i == |buffer| then None else Some((buffer[..i], buffer[RunEnd(buffer, i)..]))
  }

  /**
   * A split is the buffer cut into the line, a non-empty terminator run and the
   * rest: the line holds no CR or LF, and the rest does not start with one.
   */
  lemma NextLineSplits(buffer: string)
    ensures NextLine(buffer).None? <==> NoEndLine(buffer)
    ensures NextLine(buffer).Some? ==>
              var (line, rest) := NextLine(buffer).value;
              |line| + |rest| < |buffer| && NoEndLine(line) &&
              AllEndLine(buffer[|line|..|buffer| - |rest|]) &&
              buffer == line + buffer[|line|..|buffer| - |rest|] + rest &&
              (rest != [] ==> !IsEndLine(rest[0]))
  {
    var i := FirstEndLine(buffer);
    if i == |buffer| {
      assert buffer[..i] == buffer;
    } else {
      var e := RunEnd(buffer, i);
      assert buffer == buffer[..i] + buffer[i..e] + buffer[e..];
    }
  }

  /** A line that is sent with its terminator is the line read back: framing and splitting are inverse. */
  lemma NextLineOfFramed(line: string, run: string, rest: string)
    requires NoEndLine(line) && run != [] && AllEndLine(run)
    requires rest != [] ==> !IsEndLine(rest[0])
    ensures NextLine(line + run + rest) == Some((line, rest))
  {
    var buffer := line + run + rest;
    FirstEndLineAt(buffer, |line|);
    RunEndAt(buffer, |line|, |line| + |run|);
    assert buffer[..|line|] == line && buffer[|line| + |run|..] == rest;
  }

  /** The first CR or LF is determined by the characters before it. */
  lemma {:induction false} FirstEndLineAt(s: string, i: nat)
    requires i <= |s| && NoEndLine(s[..i]) && (i < |s| ==> IsEndLine(s[i]))
    ensures FirstEndLine(s) == i
  {
    if i > 0 {
      assert !IsEndLine(s[..i][0]);
      assert s[1..][..i - 1] == s[..i][1..];
      FirstEndLineAt(s[1..], i - 1);
    }
  }

  /** A run ends at the first character that is neither CR nor LF. */
  lemma {:induction false} RunEndAt(s: string, i: nat, e: nat)
    requires i <= e <= |s| && AllEndLine(s[i..e]) && (e < |s| ==> !IsEndLine(s[e]))
    ensures RunEnd(s, i) == e
    decreases e - i
  {
    if i < e {
      assert IsEndLine(s[i..e][0]);
      assert s[i + 1..e] == s[i..e][1..];
      RunEndAt(s, i + 1, e);
    }
  }

  /**
   * The line reader of `PlatformSerial`: the text received so far, from which
   * `CanReadLine` cuts one line by the pattern `^([^\r\n]*)[\r\n]+`.
   */
  class PlatformSerial {
    var readLineBuffer: string

    constructor()
      ensures readLineBuffer == []
    {
      readLineBuffer := [];
    }

    /**
     * `CanReadLine`: without a CR or LF in the buffer, false and nothing changes;
     * otherwise the text before the first one is the line, which may be empty,
     * and the buffer keeps what follows the whole terminator run.
     */
    method CanReadLine() returns (ok: bool, line: string)
      modifies this
      ensures ok <==> NextLine(old(readLineBuffer)).Some?
      ensures ok ==> (line, readLineBuffer) == NextLine(old(readLineBuffer)).value
      ensures !ok ==> readLineBuffer == old(readLineBuffer)
    {
      var i := FirstEndLine(readLineBuffer);
      if i == |readLineBuffer| {
        return false, [];
      }
      line := readLineBuffer[..i];
      readLineBuffer := readLineBuffer[RunEnd(readLineBuffer, i)..];
      return true, line;
    }
  }

  /** Unlike the other line readers, `CanReadLine` can hand out an empty line: "\r\nOK" gives "" first. */
  lemma EmptyLineExample()
    ensures NextLine("\r\nOK") == Some(("", "OK"))
  {
    NextLineOfFramed("", "\r\n", "OK");
  }
}
