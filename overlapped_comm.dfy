/**
 * `OverlappedComm`: the serial port wrapper of the older message-listing loop.
 * It keeps the bytes read so far, cuts lines out of them, and runs AT commands
 * by writing the command and collecting the response lines. Both revisions
 * share this model; they differ only in how the echo is compared.
 *
 * The port is a value `Port`: the text read so far, the results the reads will
 * have with how many of them were taken, whether the cancel event is signalled,
 * whether writes succeed, and the lines written.
 */
module Overlapped {
  import opened Common
  import opened LineFraming
  import Shared

  /** What one overlapped `ReadFile` gives: some text, a failure, or a wait ended by the cancel event. */
  datatype ReadResult = Chunk(data: string) | ReadFailed | Cancelled

  datatype Port = Port(buffer: string, pending: seq<ReadResult>, taken: nat, cancelled: bool, writeOk: bool, written: seq<string>)

  /** `q` is `p` after some reading and writing: reads are only taken, and text is taken from the buffer only when no read was. */
  predicate Later(p: Port, q: Port)
  {
    q.writeOk == p.writeOk && q.pending == p.pending &&
    p.taken <= q.taken && (p.taken < q.taken ==> q.taken <= |p.pending|) &&
    (q.taken == p.taken ==> |q.buffer| <= |p.buffer|)
  }

  /** How many reads are still to come. */
  function Remaining(p: Port): nat
  {
    if p.taken < |p.pending| then |p.pending| - p.taken else 0
  }

  /** `Later`, with a read consumed or, failing that, some text taken. */
  predicate StrictlyLater(p: Port, q: Port)
  {
    Later(p, q) && (Remaining(q) < Remaining(p) || (q.taken == p.taken && |q.buffer| < |p.buffer|))
  }

  lemma LaterTransitive(p: Port, q: Port, r: Port)
    requires Later(p, q) && Later(q, r)
    ensures Later(p, r)
    ensures StrictlyLater(p, q) || StrictlyLater(q, r) ==> StrictlyLater(p, r)
  {
  }

  /** `WriteLine`: the command as a C string, then CR LF. */
  function Write(p: Port, cmd: string): (r: (bool, Port))
    ensures Later(p, r.1) && r.1.buffer == p.buffer && r.1.taken == p.taken && r.1.cancelled == p.cancelled
    ensures r.0 <==> p.writeOk
    ensures r.1.written == if r.0 then p.written + [CStr(cmd) + "\r\n"] else p.written
  {
    if p.writeOk then (true, p.(written := p.written + [CStr(cmd) + "\r\n"])) else (false, p)
  }

  /**
   * `ReadLine`: while the cancel event is not signalled, cut the first line out of
   * the buffer, dropping empty ones, and read more text when there is no line yet.
   * The line is never empty and holds no CR or LF.
   */
  function Read(p: Port): (r: (bool, string, Port))
    ensures Later(p, r.2) && r.2.written == p.written
    ensures r.0 ==> StrictlyLater(p, r.2) && r.1 != [] && NoEndLine(r.1)
    ensures p.cancelled ==> !r.0 && r.2 == p
    decreases Remaining(p), |p.buffer|
  {
    if p.cancelled then (false, "", p)
    else
      match NextLine(p.buffer)
      case Some((line, rest)) =>
        NextLineSplits(p.buffer);
        if line == [] then
          var r := Read(p.(buffer := rest));
          LaterTransitive(p, p.(buffer := rest), r.2);
          r
        else (true, line, p.(buffer := rest))
      case None =>
        if p.taken >= |p.pending| then (false, "", p)
        else
          match p.pending[p.taken]
          case Chunk(data) =>
            var r := Read(p.(buffer := p.buffer + data, taken := p.taken + 1));
            LaterTransitive(p, p.(buffer := p.buffer + data, taken := p.taken + 1), r.2);
            r
          case ReadFailed => (false, "", p.(taken := p.taken + 1))
          case Cancelled => (false, "", p.(taken := p.taken + 1, cancelled := true))
  }

  /** An empty line at the front of the buffer is dropped. */
  lemma ReadSkips(p: Port, rest: string)
    requires !p.cancelled && NextLine(p.buffer) == Some(([], rest))
    ensures Read(p) == Read(p.(buffer := rest))
  {
  }

  /** A non-empty line at the front of the buffer is the line read. */
  lemma ReadGives(p: Port, line: string, rest: string)
    requires !p.cancelled && NextLine(p.buffer) == Some((line, rest)) && line != []
    ensures Read(p) == (true, line, p.(buffer := rest))
  {
  }

  /** Without a line in the buffer, a chunk read is appended to it. */
  lemma ReadAppends(p: Port)
    requires !p.cancelled && NextLine(p.buffer).None? && p.taken < |p.pending| && p.pending[p.taken].Chunk?
    ensures Read(p) == Read(p.(buffer := p.buffer + p.pending[p.taken].data, taken := p.taken + 1))
  {
  }

  /** Without a line in the buffer, a failed or cancelled read ends the call. */
  lemma ReadFails(p: Port)
    requires !p.cancelled && NextLine(p.buffer).None? && (p.taken >= |p.pending| || !p.pending[p.taken].Chunk?)
    ensures !Read(p).0
  {
  }

  /**
   * The line as the caller gets it: the current revision converts it through
   * its C string, so it ends at the first NUL; the legacy one keeps it whole.
   */
  function LineText(rev: Revision, raw: string): (line: string)
    ensures line <= raw
    ensures rev == Legacy || '\0' !in raw ==> line == raw
    ensures rev == Current ==> '\0' !in line
  {
    match rev
    case Current => CStr(raw)
    case Legacy => raw
  }

  /** `ReadLine` as the caller sees it: `Read`, with the line given as `LineText`. */
  function ReadText(rev: Revision, p: Port): (r: (bool, string, Port))
    ensures Later(p, r.2) && r.2.written == p.written
    ensures r.0 ==> StrictlyLater(p, r.2) && NoEndLine(r.1) && (rev == Legacy ==> r.1 != [])
    ensures p.cancelled ==> !r.0 && r.2 == p
  {
    var (ok, raw, q) := Read(p);
    if ok then (true, LineText(rev, raw), q) else (false, "", q)
  }

  /** `wcscmp(L"OK", line.c_str()) == 0`: the line up to its first NUL is "OK". */
  predicate IsOK(line: string) { CStr(line) == "OK" }

  predicate IsError(line: string) { CStr(line) == "ERROR" }

  /** The echo check: `Equal(cmd, line)` in the current revision, `wcscmp` of the C strings in the legacy one. */
  predicate EchoMatches(rev: Revision, cmd: string, line: string)
  {
    match rev
    case Current => Shared.Equal(cmd, line)
    case Legacy => CStr(cmd) == CStr(line)
  }

  /** `ExecuteATCommand`: write, read the echo, then one more line, which must be "OK". */
  function Execute(rev: Revision, p: Port, cmd: string): (r: (bool, Port))
    ensures Later(p, r.1)
  {
    var (written, p1) := Write(p, cmd);
    if !written then (false, p1)
    else
      var (echoed, echo, p2) := ReadText(rev, p1);
      if !echoed || !EchoMatches(rev, cmd, echo) then (false, p2)
      else
        var (answered, answer, p3) := ReadText(rev, p2);
        LaterTransitive(p1, p2, p3);
        (answered && IsOK(answer), p3)
  }

  /** Lines without CR or LF, none of them "OK" or "ERROR" up to its first NUL. */
  predicate Responses(lines: seq<string>)
  {
    lines == [] || (NoEndLine(lines[0]) && !IsOK(lines[0]) && !IsError(lines[0]) && Responses(lines[1..]))
  }

  /**
   * The loop of `ExecuteATCommandResults`: the lines read up to "OK" or "ERROR"
   * (success), or up to a failed read (failure).
   */
  function Collect(rev: Revision, p: Port): (r: (bool, seq<string>, Port))
    ensures Later(p, r.2) && r.2.written == p.written
    ensures Responses(r.1)
    decreases Remaining(p), |p.buffer|
  {
    var (ok, raw, p1) := Read(p);
    var line := LineText(rev, raw);
    if !ok then (false, [], p1)
    else if IsOK(line) || IsError(line) then (true, [], p1)
    else
      var r := Collect(rev, p1);
      LaterTransitive(p, p1, r.2);
      assert ([line] + r.1)[1..] == r.1;
      (r.0, [line] + r.1, r.2)
  }

  /**
   * `ExecuteATCommandResults`: write, require the echo, then collect the lines
   * up to "OK" or "ERROR"; either terminator is success.
   */
  function ExecuteResults(rev: Revision, p: Port, cmd: string): (r: (bool, seq<string>, Port))
    ensures Later(p, r.2)
  {
    var (written, p1) := Write(p, cmd);
    if !written then (false, [], p1)
    else
      var (echoed, echo, p2) := ReadText(rev, p1);
      if !echoed || !EchoMatches(rev, cmd, echo) then (false, [], p2)
      else
        var r := Collect(rev, p2);
        LaterTransitive(p1, p2, r.2);
        r
  }

  /** `ExecuteATCommandResult`: the first collected line, or `line` as it was when there is none. */
  function ExecuteResult(rev: Revision, p: Port, cmd: string, line: string): (r: (bool, string, Port))
    ensures Later(p, r.2)
  {
    var (ok, lines, p1) := ExecuteResults(rev, p, cmd);
    if !ok then (false, line, p1)
    else (true, if lines != [] then lines[0] else line, p1)
  }

  /** The port object, with the state above in its fields. */
  class OverlappedComm {
    const rev: Revision
    var buffer: string
    const pending: seq<ReadResult>
    var taken: nat
    var cancelled: bool
    const writeOk: bool
    var written: seq<string>

    function State(): Port
      reads this
    {
      Port(buffer, pending, taken, cancelled, writeOk, written)
    }

    constructor(rev: Revision, pending: seq<ReadResult>, writeOk: bool)
      ensures this.rev == rev && State() == Port([], pending, 0, false, writeOk, [])
    {
      this.rev := rev;
      buffer := [];
      this.pending := pending;
      taken := 0;
      cancelled := false;
      this.writeOk := writeOk;
      written := [];
    }

    method WriteLine(cmd: string) returns (ok: bool)
      modifies this
      ensures (ok, State()) == Write(old(State()), cmd)
    {
      if !writeOk {
        return false;
      }
      written := written + [CStr(cmd) + "\r\n"];
      return true;
    }

    /**
     * `GetNewLinePos`: the first CR or LF (or the end of the buffer) and, when
     * there is one, the end of the run of CR and LF that starts there.
     */
    method GetNewLinePos() returns (it: nat, end: nat)
      ensures it == FirstEndLine(buffer)
      ensures it < |buffer| ==> end == RunEnd(buffer, it)
    {
      it := 0;
      while it < |buffer|
        invariant it <= |buffer| && NoEndLine(buffer[..it])
      {
        if IsEndLine(buffer[it]) {
          end := it + 1;
          assert buffer[it..end] == [buffer[it]];
          while end < |buffer| && IsEndLine(buffer[end])
            invariant it < end <= |buffer| && AllEndLine(buffer[it..end])
          {
            assert buffer[it..end + 1] == buffer[it..end] + [buffer[end]];
            end := end + 1;
          }
          FirstEndLineAt(buffer, it);
          RunEndAt(buffer, it, end);
          return;
        }
        assert buffer[..it + 1] == buffer[..it] + [buffer[it]];
        it := it + 1;
      }
      FirstEndLineAt(buffer, it);
      end := it;
    }

    /** `ReadLine`; the line it gives on failure is not used by any caller. */
    method ReadLine() returns (ok: bool, line: string)
      modifies this
      ensures (ok, line, State()) == ReadText(rev, old(State()))
    {
      while !cancelled
        invariant Read(old(State())) == Read(State())
        decreases Remaining(State()), |buffer|
      {
        var it, end := GetNewLinePos();
        if it < |buffer| {
          var str := buffer[..it];
          assert NextLine(buffer) == Some((str, buffer[end..]));
          if str == [] {
            ReadSkips(State(), buffer[end..]);
            buffer := buffer[end..];
            continue;
          }
          ReadGives(State(), str, buffer[end..]);
          buffer := buffer[end..];
          return true, LineText(rev, str);
        }
        if taken >= |pending| || !pending[taken].Chunk? {
          ReadFails(State());
        }
        if taken >= |pending| {
          return false, "";
        }
        match pending[taken]
        case Chunk(data) =>
          ReadAppends(State());
          buffer := buffer + data;
          taken := taken + 1;
        case ReadFailed =>
          taken := taken + 1;
          return false, "";
        case Cancelled =>
          taken := taken + 1;
          cancelled := true;
          return false, "";
      }
      return false, "";
    }

    method ExecuteATCommand(cmd: string) returns (ok: bool)
      modifies this
      ensures (ok, State()) == Execute(rev, old(State()), cmd)
    {
      ok := WriteLine(cmd);
      if !ok {
        return false;
      }
      var line;
      ok, line := ReadLine();
      if !ok {
        return false;
      }
      if !EchoMatches(rev, cmd, line) {
        return false;
      }
      ok, line := ReadLine();
      if !ok {
        return false;
      }
      return IsOK(line);
    }

    method ExecuteATCommandResults(cmd: string) returns (ok: bool, lines: seq<string>)
      modifies this
      ensures (ok, lines, State()) == ExecuteResults(rev, old(State()), cmd)
    {
      lines := [];
      ok := WriteLine(cmd);
      if !ok {
        return false, lines;
      }
      var line;
      ok, line := ReadLine();
      if !ok {
        return false, lines;
      }
      if !EchoMatches(rev, cmd, line) {
        return false, lines;
      }
      ok, lines := CollectLines();
    }

    /** The loop of `ExecuteATCommandResults`. */
    method CollectLines() returns (ok: bool, lines: seq<string>)
      modifies this
      ensures (ok, lines, State()) == Collect(rev, old(State()))
    {
      lines := [];
      ghost var start := State();
      assert lines + Collect(rev, start).1 == Collect(rev, start).1;
      while true
        invariant CollectsTo(rev, start, lines, State())
        decreases Remaining(State()), |buffer|
      {
        ghost var before := State();
        var line;
        ok, line := ReadLine();
        if !ok || IsOK(line) || IsError(line) {
          CollectStepStops(rev, start, lines, before);
          return ok, lines;
        }
        CollectStepGoesOn(rev, start, lines, before);
        lines := lines + [line];
      }
    }

    method ExecuteATCommandResult(cmd: string, line0: string) returns (ok: bool, line: string)
      modifies this
      ensures (ok, line, State()) == ExecuteResult(rev, old(State()), cmd, line0)
    {
      line := line0;
      var lines;
      ok, lines := ExecuteATCommandResults(cmd);
      if !ok {
        return false, line;
      }
      if lines != [] {
        line := lines[0];
      }
      return true, line;
    }
  }

  // ---------------------------------------------------------------------------
  // Properties

  /** The text of the chunks among `results[from..to]`, in order. */
  function ChunkText(results: seq<ReadResult>, from: nat, to: nat): string
    decreases to - from
  {
    if from >= to || from >= |results| then []
    else (if results[from].Chunk? then results[from].data else []) + ChunkText(results, from + 1, to)
  }

  /** The text of the reads taken going from `p` to `q`. */
  function Consumed(p: Port, q: Port): string
  {
    ChunkText(p.pending, p.taken, q.taken)
  }

  /** A run of CR and LF in front of some text moves the end of the run at 0 by its length. */
  lemma RunEndAfter(x: string, y: string)
    requires AllEndLine(x)
    ensures RunEnd(x + y, 0) == |x| + RunEnd(y, 0)
  {
    var s := x + y;
    var e := RunEnd(y, 0);
    assert s[..|x|] == x && s[|x|..] == y;
    assert s[0..|x| + e] == x + y[0..e];
    assert AllEndLine(s[0..|x| + e]);
    RunEndAt(s, 0, |x| + e);
  }

  /**
   * `all` is a run of CR and LF, then `line`, then a non-empty run of CR and
   * LF, then `after`.
   */
  predicate Splits(all: string, line: string, after: string)
  {
    var j := RunEnd(all, 0);
    var k := |all| - |after|;
    j + |line| < k && all[j..j + |line|] == line && AllEndLine(all[j + |line|..k]) && all[k..] == after
  }

  /** A run of CR and LF put in front keeps a split. */
  lemma SplitsAfterRun(run: string, all: string, line: string, after: string)
    requires AllEndLine(run) && Splits(all, line, after)
    ensures Splits(run + all, line, after)
  {
    RunEndAfter(run, all);
    var j1 := RunEnd(all, 0);
    var k1 := |all| - |after|;
    SliceAfter(run, all, j1, j1 + |line|);
    SliceAfter(run, all, j1 + |line|, k1);
    SliceAfter(run, all, k1, |all|);
  }

  /** A slice of `all` is the same slice, moved by |run|, of `run + all`. */
  lemma SliceAfter(run: string, all: string, i: nat, j: nat)
    requires i <= j <= |all|
    ensures (run + all)[|run| + i..|run| + j] == all[i..j]
  {
  }

  /**
   * Nothing is lost or reordered from `p` to the result `r`: the old buffer
   * followed by the text of the reads consumed is a run of CR and LF (the empty
   * lines dropped), then the line, then a non-empty run of CR and LF, then the
   * new buffer.
   */
  predicate KeepsText(p: Port, r: (bool, string, Port))
  {
    r.0 ==> Splits(p.buffer + Consumed(p, r.2), r.1, r.2.buffer)
  }

  lemma KeepsTextLine(p: Port, line: string, run: string, rest: string)
    requires p.buffer == line + run + rest && line != [] && NoEndLine(line) && run != [] && AllEndLine(run)
    ensures KeepsText(p, (true, line, p.(buffer := rest)))
  {
    var q := p.(buffer := rest);
    var all := p.buffer + Consumed(p, q);
    assert all == p.buffer && all[0] == line[0];
    RunEndAt(all, 0, 0);
    assert all[..|line|] == line;
    assert all[|line|..|all| - |rest|] == run;
    assert all[|all| - |rest|..] == rest;
  }

  lemma KeepsTextSkip(p: Port, run: string, rest: string, r: (bool, string, Port))
    requires p.buffer == run + rest && AllEndLine(run)
    requires KeepsText(p.(buffer := rest), r)
    ensures KeepsText(p, r)
  {
    var p1 := p.(buffer := rest);
    assert Consumed(p1, r.2) == Consumed(p, r.2);
    assert p.buffer + Consumed(p, r.2) == run + (rest + Consumed(p1, r.2));
    if r.0 {
      SplitsAfterRun(run, rest + Consumed(p1, r.2), r.1, r.2.buffer);
    }
  }

  lemma KeepsTextChunk(p: Port, r: (bool, string, Port))
    requires p.taken < |p.pending| && p.pending[p.taken].Chunk?
    requires var p1 := p.(buffer := p.buffer + p.pending[p.taken].data, taken := p.taken + 1);
             p1.taken <= r.2.taken && KeepsText(p1, r)
    ensures KeepsText(p, r)
  {
    var p1 := p.(buffer := p.buffer + p.pending[p.taken].data, taken := p.taken + 1);
    assert Consumed(p, r.2) == p.pending[p.taken].data + Consumed(p1, r.2);
    assert p.buffer + Consumed(p, r.2) == p1.buffer + Consumed(p1, r.2);
  }

  /** `ReadLine` loses and reorders nothing of what it reads. */
  lemma {:induction false} ReadKeepsText(p: Port)
    ensures KeepsText(p, Read(p))
    decreases Remaining(p), |p.buffer|
  {
    if !p.cancelled {
      match NextLine(p.buffer)
      case Some((line, rest)) =>
        NextLineSplits(p.buffer);
        var run := p.buffer[|line|..|p.buffer| - |rest|];
        if line == [] {
          ReadSkips(p, rest);
          ReadKeepsText(p.(buffer := rest));
          assert p.buffer == run + rest;
          KeepsTextSkip(p, run, rest, Read(p.(buffer := rest)));
        } else {
          ReadGives(p, line, rest);
          KeepsTextLine(p, line, run, rest);
        }
      case None =>
        if p.taken < |p.pending| && p.pending[p.taken].Chunk? {
          ReadAppends(p);
          ReadKeepsText(p.(buffer := p.buffer + p.pending[p.taken].data, taken := p.taken + 1));
          KeepsTextChunk(p, Read(p));
        } else {
          ReadFails(p);
        }
    }
  }

  /** A line other than "OK" or "ERROR" is collected and the loop goes on. */
  lemma CollectGoesOn(rev: Revision, p: Port, line: string, p1: Port)
    requires Read(p) == (true, line, p1) && !IsOK(LineText(rev, line)) && !IsError(LineText(rev, line))
    ensures var r := Collect(rev, p1); Collect(rev, p) == (r.0, [LineText(rev, line)] + r.1, r.2)
  {
  }

  /** `lines` have been collected on the way from `start` to `p`. */
  ghost predicate CollectsTo(rev: Revision, start: Port, lines: seq<string>, p: Port)
  {
    var r := Collect(rev, p);
    Collect(rev, start) == (r.0, lines + r.1, r.2)
  }

  /** A failed read or a final answer ends the collecting loop with the lines gathered so far. */
  lemma CollectStepStops(rev: Revision, start: Port, lines: seq<string>, p: Port)
    requires CollectsTo(rev, start, lines, p)
    requires var t := ReadText(rev, p); !t.0 || IsOK(t.1) || IsError(t.1)
    ensures var t := ReadText(rev, p); Collect(rev, start) == (t.0, lines, t.2)
  {
    var t := ReadText(rev, p);
    CollectAfterRead(rev, p);
    assert Collect(rev, p) == (t.0, [], t.2);
    assert lines + [] == lines;
  }

  /** Any other line is kept, and the loop goes on from the port after the read. */
  lemma CollectStepGoesOn(rev: Revision, start: Port, lines: seq<string>, p: Port)
    requires CollectsTo(rev, start, lines, p)
    requires var t := ReadText(rev, p); t.0 && !IsOK(t.1) && !IsError(t.1)
    ensures var t := ReadText(rev, p); CollectsTo(rev, start, lines + [t.1], t.2)
  {
    var t := ReadText(rev, p);
    CollectAfterRead(rev, p);
    var r := Collect(rev, t.2);
    assert Collect(rev, p) == (r.0, [t.1] + r.1, r.2);
    AppendAssoc(lines, [t.1], r.1);
  }

  /** One turn of the loop: `Collect` after one `ReadText`. */
  lemma CollectAfterRead(rev: Revision, p: Port)
    ensures var (ok, line, q) := ReadText(rev, p);
            var r := Collect(rev, q);
            Collect(rev, p) ==
              if !ok then (false, [], q)
              else if IsOK(line) || IsError(line) then (true, [], q)
              else (r.0, [line] + r.1, r.2)
  {
  }

  /** "OK" or "ERROR" ends the loop with success. */
  lemma CollectStops(rev: Revision, p: Port, line: string, p1: Port)
    requires Read(p) == (true, line, p1) && (IsOK(LineText(rev, line)) || IsError(LineText(rev, line)))
    ensures Collect(rev, p) == (true, [], p1)
  {
  }

  /** A written command whose echo is read back: the rest of `ExecuteATCommand` is reading the answer. */
  lemma ExecuteOfReads(rev: Revision, p: Port, cmd: string, p2: Port, answer: string, p3: Port)
    requires p.writeOk && ReadText(rev, Write(p, cmd).1) == (true, cmd, p2)
    requires ReadText(rev, p2) == (true, answer, p3)
    ensures Execute(rev, p, cmd) == (IsOK(answer), p3)
  {
    EchoSelf(rev, cmd);
  }

  /** A written command whose echo is read back: the rest of `ExecuteATCommandResults` is the loop. */
  lemma ExecuteResultsOfReads(rev: Revision, p: Port, cmd: string, p2: Port)
    requires p.writeOk && ReadText(rev, Write(p, cmd).1) == (true, cmd, p2)
    ensures ExecuteResults(rev, p, cmd) == Collect(rev, p2)
  {
    EchoSelf(rev, cmd);
  }

  /** Every command is its own echo. */
  lemma EchoSelf(rev: Revision, cmd: string)
    ensures EchoMatches(rev, cmd, cmd)
  {
    Shared.EqualIsEquality(cmd, cmd);
  }

  /** Lines each sent with CR LF after them, one after another. */
  function Framed(lines: seq<string>): string
  {
    if lines == [] then [] else lines[0] + "\r\n" + Framed(lines[1..])
  }

  /** A line that is a proper response line: not empty, and no CR or LF in it. */
  predicate IsLine(line: string) { line != [] && NoEndLine(line) }

  /** Proper lines without NUL, none of them "OK" or "ERROR": what a command answers before its terminator. */
  predicate ResponseLines(lines: seq<string>)
  {
    lines == [] ||
    (IsLine(lines[0]) && '\0' !in lines[0] && !IsOK(lines[0]) && !IsError(lines[0]) && ResponseLines(lines[1..]))
  }

  /** A framed line at the front of the buffer is read back as it was. */
  lemma ReadFramed(p: Port, line: string, rest: string)
    requires !p.cancelled && IsLine(line) && p.buffer == line + "\r\n" + rest
    requires rest != [] ==> !IsEndLine(rest[0])
    ensures Read(p) == (true, line, p.(buffer := rest))
  {
    NextLineOfFramed(line, "\r\n", rest);
    ReadGives(p, line, rest);
  }

  /** A framed line without NUL is given to the caller as it was, in both revisions. */
  lemma ReadTextFramed(rev: Revision, p: Port, line: string, rest: string)
    requires !p.cancelled && IsLine(line) && '\0' !in line && p.buffer == line + "\r\n" + rest
    requires rest != [] ==> !IsEndLine(rest[0])
    ensures ReadText(rev, p) == (true, line, p.(buffer := rest))
  {
    ReadFramed(p, line, rest);
  }

  /** Framing goes on with its first line, so it does not start with CR or LF when that line does not. */
  lemma FramedStart(lines: seq<string>, tail: string)
    requires lines != [] ==> IsLine(lines[0])
    requires tail != [] ==> !IsEndLine(tail[0])
    ensures var s := Framed(lines) + tail; s != [] ==> !IsEndLine(s[0])
  {
    if lines != [] {
      assert (Framed(lines) + tail)[0] == lines[0][0];
    }
  }

  /** The terminators are what `IsOK` and `IsError` look for. */
  lemma Terminators()
    ensures IsOK("OK") && IsError("ERROR") && IsLine("OK") && IsLine("ERROR")
    ensures '\0' !in "OK" && '\0' !in "ERROR"
  {
    CStrOfNulFree("OK");
    CStrOfNulFree("ERROR");
  }

  /** Lines ended by a terminator start with a proper line. */
  lemma FirstIsLine(lines: seq<string>, term: string)
    requires term == "OK" || term == "ERROR"
    requires lines != [] ==> IsLine(lines[0])
    ensures IsLine((lines + [term])[0])
  {
    Terminators();
    if lines != [] {
      assert (lines + [term])[0] == lines[0];
    }
  }

  /** A first line in front of framed lines: that line, CR LF, then the framing of the others. */
  lemma FramedCons(first: string, lines: seq<string>, tail: string)
    requires lines != [] ==> IsLine(lines[0])
    requires tail != [] ==> !IsEndLine(tail[0])
    ensures Framed([first] + lines) + tail == first + "\r\n" + (Framed(lines) + tail)
    ensures var rest := Framed(lines) + tail; rest != [] ==> !IsEndLine(rest[0])
  {
    assert ([first] + lines)[1..] == lines;
    FramedStart(lines, tail);
  }

  /** A framed line other than a terminator is collected. */
  lemma CollectFramedStep(rev: Revision, p: Port, line: string, rest: string)
    requires !p.cancelled && IsLine(line) && '\0' !in line && !IsOK(line) && !IsError(line)
    requires rest != [] ==> !IsEndLine(rest[0])
    requires p.buffer == line + "\r\n" + rest
    ensures var r := Collect(rev, p.(buffer := rest)); Collect(rev, p) == (r.0, [line] + r.1, r.2)
  {
    ReadFramed(p, line, rest);
    CollectGoesOn(rev, p, line, p.(buffer := rest));
  }

  /** A framed terminator ends the collection. */
  lemma CollectFramedEnd(rev: Revision, p: Port, term: string, tail: string)
    requires !p.cancelled && (term == "OK" || term == "ERROR")
    requires tail != [] ==> !IsEndLine(tail[0])
    requires p.buffer == term + "\r\n" + tail
    ensures Collect(rev, p) == (true, [], p.(buffer := tail))
  {
    Terminators();
    ReadFramed(p, term, tail);
    CollectStops(rev, p, term, p.(buffer := tail));
  }

  /** The framed lines, taken apart after the first one. */
  lemma FramedShape(lines: seq<string>, term: string, tail: string)
    requires lines != [] && ResponseLines(lines) && (term == "OK" || term == "ERROR")
    requires tail != [] ==> !IsEndLine(tail[0])
    ensures Framed(lines + [term]) + tail == lines[0] + "\r\n" + (Framed(lines[1..] + [term]) + tail)
    ensures var rest := Framed(lines[1..] + [term]) + tail; rest != [] ==> !IsEndLine(rest[0])
  {
    assert lines + [term] == [lines[0]] + (lines[1..] + [term]);
    FirstIsLine(lines[1..], term);
    FramedCons(lines[0], lines[1..] + [term], tail);
  }

  /** The framed terminator alone. */
  lemma FramedLast(term: string, tail: string)
    ensures Framed([] + [term]) + tail == term + "\r\n" + tail
  {
    assert [] + [term] == [term];
    assert [term][1..] == [];
  }

  /** A framed line in front of what collects to `lines`. */
  lemma CollectFramedCons(rev: Revision, p: Port, line: string, rest: string, lines: seq<string>, tail: string)
    requires !p.cancelled && IsLine(line) && '\0' !in line && !IsOK(line) && !IsError(line)
    requires rest != [] ==> !IsEndLine(rest[0])
    requires p.buffer == line + "\r\n" + rest
    requires Collect(rev, p.(buffer := rest)) == (true, lines, p.(buffer := tail))
    ensures Collect(rev, p) == (true, [line] + lines, p.(buffer := tail))
  {
    CollectFramedStep(rev, p, line, rest);
  }

  /** Collecting framed lines up to a framed "OK" or "ERROR" gives those lines back, and success. */
  lemma {:induction false} CollectFramed(rev: Revision, p: Port, lines: seq<string>, term: string, tail: string)
    requires !p.cancelled && (term == "OK" || term == "ERROR")
    requires ResponseLines(lines)
    requires tail != [] ==> !IsEndLine(tail[0])
    requires p.buffer == Framed(lines + [term]) + tail
    ensures Collect(rev, p) == (true, lines, p.(buffer := tail))
    decreases |lines|
  {
    if lines == [] {
      FramedLast(term, tail);
      CollectFramedEnd(rev, p, term, tail);
    } else {
      FramedShape(lines, term, tail);
      var rest := Framed(lines[1..] + [term]) + tail;
      CollectFramed(rev, p.(buffer := rest), lines[1..], term, tail);
      CollectFramedCons(rev, p, lines[0], rest, lines[1..], tail);
      assert [lines[0]] + lines[1..] == lines;
    }
  }

  /** The command is written and its echo, framed at the front of the buffer, read back. */
  lemma EchoFramed(rev: Revision, p: Port, cmd: string, rest: string)
    requires p.writeOk && !p.cancelled && IsLine(cmd) && '\0' !in cmd
    requires rest != [] ==> !IsEndLine(rest[0])
    requires p.buffer == cmd + "\r\n" + rest
    ensures Write(p, cmd) == (true, p.(written := p.written + [cmd + "\r\n"]))
    ensures ReadText(rev, Write(p, cmd).1) == (true, cmd, p.(buffer := rest, written := p.written + [cmd + "\r\n"]))
  {
    CStrOfNulFree(cmd);
    ReadTextFramed(rev, Write(p, cmd).1, cmd, rest);
  }

  /**
   * A modem that echoes the command, answers with some lines and then "OK" or
   * "ERROR": `ExecuteATCommandResults` succeeds with exactly those lines, and the
   * command went out with CR LF.
   */
  lemma ExecuteResultsFramed(rev: Revision, p: Port, cmd: string, lines: seq<string>, term: string, tail: string)
    requires p.writeOk && !p.cancelled && IsLine(cmd) && '\0' !in cmd && (term == "OK" || term == "ERROR")
    requires ResponseLines(lines)
    requires tail != [] ==> !IsEndLine(tail[0])
    requires p.buffer == Framed([cmd] + lines + [term]) + tail
    ensures ExecuteResults(rev, p, cmd)
            == (true, lines, p.(buffer := tail, written := p.written + [cmd + "\r\n"]))
  {
    var rest := Framed(lines + [term]) + tail;
    assert [cmd] + lines + [term] == [cmd] + (lines + [term]);
    FirstIsLine(lines, term);
    FramedCons(cmd, lines + [term], tail);
    assert p.buffer == Framed([cmd] + (lines + [term])) + tail;
    assert p.buffer == cmd + "\r\n" + rest;
    EchoFramed(rev, p, cmd, rest);
    var p2 := p.(buffer := rest, written := p.written + [cmd + "\r\n"]);
    ExecuteResultsOfReads(rev, p, cmd, p2);
    CollectFramed(rev, p2, lines, term, tail);
  }

  /** A modem that echoes the command and answers "OK": `ExecuteATCommand` succeeds. */
  lemma ExecuteFramed(rev: Revision, p: Port, cmd: string, tail: string)
    requires p.writeOk && !p.cancelled && IsLine(cmd) && '\0' !in cmd
    requires tail != [] ==> !IsEndLine(tail[0])
    requires p.buffer == cmd + "\r\n" + "OK\r\n" + tail
    ensures Execute(rev, p, cmd) == (true, p.(buffer := tail, written := p.written + [cmd + "\r\n"]))
  {
    EchoFramed(rev, p, cmd, "OK\r\n" + tail);
    var p2 := p.(buffer := "OK\r\n" + tail, written := p.written + [cmd + "\r\n"]);
    Terminators();
    ReadTextFramed(rev, p2, "OK", tail);
    ExecuteOfReads(rev, p, cmd, p2, "OK", p2.(buffer := tail));
  }

  /** Once the cancel event is signalled every command fails without reading. */
  lemma CancelledFails(rev: Revision, p: Port, cmd: string)
    requires p.cancelled
    ensures !Execute(rev, p, cmd).0 && !ExecuteResults(rev, p, cmd).0
    ensures Execute(rev, p, cmd).1.buffer == p.buffer && Execute(rev, p, cmd).1.taken == p.taken
  {
  }

  /**
   * For a command without NUL the two revisions accept the same echo: the line
   * up to its first NUL must be the command. A NUL in the command makes the
   * current revision reject every echo.
   */
  lemma EchoRevisions(cmd: string, raw: string)
    ensures '\0' !in cmd ==>
              (EchoMatches(Current, cmd, LineText(Current, raw)) <==> cmd == CStr(raw)) &&
              (EchoMatches(Legacy, cmd, LineText(Legacy, raw)) <==> cmd == CStr(raw))
    ensures '\0' in cmd ==> !EchoMatches(Current, cmd, LineText(Current, raw))
  {
    Shared.EqualIsEquality(cmd, CStr(raw));
    if '\0' !in cmd {
      CStrOfNulFree(cmd);
    }
  }

  /** The answer test is the same in both revisions: it looks only up to the first NUL. */
  lemma AnswerRevisions(raw: string)
    ensures IsOK(LineText(Current, raw)) == IsOK(LineText(Legacy, raw))
    ensures IsError(LineText(Current, raw)) == IsError(LineText(Legacy, raw))
  {
    CStrOfNulFree(CStr(raw));
  }

  /** `ExecuteATCommand` behaves the same in both revisions for a command without NUL. */
  lemma ExecuteRevisions(p: Port, cmd: string)
    requires '\0' !in cmd
    ensures Execute(Current, p, cmd) == Execute(Legacy, p, cmd)
  {
    var p1 := Write(p, cmd).1;
    var (echoed, raw, p2) := Read(p1);
    if echoed {
      EchoRevisions(cmd, raw);
      var (answered, answer, p3) := Read(p2);
      AnswerRevisions(answer);
    }
  }

  /** `ExecuteATCommandResult` gives the first collected line, or leaves the line as it was when there are none. */
  lemma ExecuteResultFirst(rev: Revision, p: Port, cmd: string, line: string)
    ensures var (ok, lines, q) := ExecuteResults(rev, p, cmd);
            var (ok', line', q') := ExecuteResult(rev, p, cmd, line);
            ok' == ok && q' == q &&
            line' == (if ok && lines != [] then lines[0] else line)
  {
  }
}
