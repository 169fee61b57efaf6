/**
 * The message-listing loop of both revisions (`ProcessCommLoop` and
 * `ProcessMessages`): start-up commands over an `OverlappedComm`, then every
 * listed message is parsed, mailed when it parses, and deleted; afterwards each
 * `+CMTI` notice lists the messages again.
 *
 * Sending mail retries every 30 minutes until it succeeds, so it is modelled
 * as always succeeding: the mails sent are an output. The subscriber-number
 * parser is a parameter.
 */
module MainLoop {
  import opened Common
  import opened Overlapped
  import opened GsmListing
  import opened GsmPdu

  /** One mail handed to `SendEmail`: sender, own number, time stamp and text. */
  datatype Email = Email(from: string, to: string, datetime: string, message: string)

  /** What the loop takes from outside: the year for the time stamps, the UCS-2 converter and `ParseSubscriberNumber`. */
  datatype Context = Context(currentYear: nat, ucs2: seq<int> -> string, parseNumber: string -> string)

  /**
   * The outcome of a stage: its return value, the port after it, the mails sent,
   * and whether `ParseGsmPDU` threw (which ends the whole loop).
   */
  datatype Run = Run(ok: bool, port: Port, emails: seq<Email>, aborted: bool)

  /** `r` with `emails` sent before it. */
  function Prefixed(emails: seq<Email>, r: Run): Run
  {
    r.(emails := emails + r.emails)
  }

  /**
   * The prefix test on a line: `starts_with` in the current revision; in the
   * legacy one `wcsstr(line.c_str(), prefix) == line.c_str()`, which looks only
   * at the text before the first NUL.
   */
  predicate HasPrefix(rev: Revision, line: string, prefix: string)
  {
    match rev
    case Current => StartsWith(line, prefix)
    case Legacy => StartsWith(CStr(line), prefix)
  }

  predicate IsListing(rev: Revision, line: string) { HasPrefix(rev, line, "+CMGL") }

  predicate IsNotice(rev: Revision, line: string) { HasPrefix(rev, line, "+CMTI") }

  /**
   * The PIN check on the answer to `AT+CPIN?`. The current revision tests
   * `line.find("READY") < 0`, and `find` gives an unsigned position, so the
   * test never rejects; the legacy one rejects unless "READY" occurs before
   * the first NUL.
   */
  predicate PinAccepted(rev: Revision, line: string)
  {
    match rev
    case Current => true
    case Legacy => Contains(CStr(line), "READY")
  }

  /** `FormatStr("AT+CMGD=%i", index)`. */
  function ListingDelete(index: int): string
  {
    "AT+CMGD=" + FormatInt(index, 0, false)
  }

  /**
   * The mails for one listing entry: none without a PDU line or when the PDU
   * does not parse, one when it does, and `None` when `ParseGsmPDU` throws.
   */
  function EntryMails(ctx: Context, rev: Revision, pdu: Option<string>, number: string): Option<seq<Email>>
  {
    match pdu
    case None => Some([])
    case Some(text) =>
      match ParsePdu(rev, text, ctx.currentYear, ctx.ucs2, Outputs("", "", ""))
      case None => None
      case Some(res) =>
        Some(if res.ok then [Email(res.out.from, number, res.out.datetime, res.out.message)] else [])
  }

  /**
   * The walk of `ProcessMessages` over the listed lines from `i`: while the line
   * is a listing line, read its index (failing without one), take the next line,
   * if any, as its PDU and mail it, then delete the message (failing when the
   * command fails).
   */
  function WalkS(ctx: Context, rev: Revision, p: Port, lines: seq<string>, i: nat, number: string): (r: Run)
    requires i <= |lines|
    ensures Later(p, r.port)
    ensures r.aborted ==> !r.ok
    decreases |lines| - i
  {
    if i == |lines| || !IsListing(rev, lines[i]) then Run(true, p, [], false)
    else
      match ListingIndex(lines[i])
      case None => Run(false, p, [], false)
      case Some(index) =>
        var pdu := if i + 1 < |lines| then Some(lines[i + 1]) else None;
        match EntryMails(ctx, rev, pdu, number)
        case None => Run(false, p, [], true)
        case Some(sent) =>
          var (deleted, p1) := Execute(rev, p, ListingDelete(index));
          if !deleted then Run(false, p1, sent, false)
          else
            var r := WalkS(ctx, rev, p1, lines, if i + 1 < |lines| then i + 2 else i + 1, number);
            LaterTransitive(p, p1, r.port);
            Prefixed(sent, r)
  }

  /** `ProcessMessages`: list the stored messages with `AT+CMGL=4`, then walk the listing. */
  function ProcessMessagesS(ctx: Context, rev: Revision, p: Port, number: string): (r: Run)
    ensures Later(p, r.port)
    ensures r.aborted ==> !r.ok
  {
    var (listed, lines, p1) := ExecuteResults(rev, p, ListCommand);
    if !listed then Run(false, p1, [], false)
    else
      var r := WalkS(ctx, rev, p1, lines, 0, number);
      LaterTransitive(p, p1, r.port);
      r
  }

  /**
   * The listening loop: read lines until a read fails; a `+CMTI` notice runs
   * `ProcessMessages`, whose failure ends the loop (`ok` false).
   */
  function ListenS(ctx: Context, rev: Revision, p: Port, number: string): (r: Run)
    ensures Later(p, r.port)
    decreases Remaining(p), |p.buffer|
  {
    var (read, line, p1) := ReadText(rev, p);
    if !read then Run(true, p1, [], false)
    else if !IsNotice(rev, line) then
      var r := ListenS(ctx, rev, p1, number);
      LaterTransitive(p, p1, r.port);
      r
    else
      var m := ProcessMessagesS(ctx, rev, p1, number);
      LaterTransitive(p, p1, m.port);
      if !m.ok then m
      else
        var r := ListenS(ctx, rev, m.port, number);
        LaterTransitive(p, m.port, r.port);
        Prefixed(m.emails, r)
  }

  /**
   * The set-up commands of `ProcessCommLoop`: `AT`, then `AT+CPIN?` with the
   * PIN check, `AT+CMGF=0` and `AT+CNUM`, whose first response line is the own
   * number ("" when there is none).
   */
  function SetupS(rev: Revision, p: Port): (r: (bool, string, Port))
    ensures Later(p, r.2)
  {
    var (alive, p1) := Execute(rev, p, "AT");
    if !alive then (false, "", p1)
    else
      var r := PinStage(rev, p1);
      LaterTransitive(p, p1, r.2);
      r
  }

  /** `AT+CPIN?` and the PIN check, then the rest of the set-up. */
  function PinStage(rev: Revision, p: Port): (r: (bool, string, Port))
    ensures Later(p, r.2)
  {
    var (pinRead, pin, p1) := ExecuteResult(rev, p, "AT+CPIN?", "");
    if !pinRead || !PinAccepted(rev, pin) then (false, "", p1)
    else
      var r := ModeStage(rev, p1);
      LaterTransitive(p, p1, r.2);
      r
  }

  /** `AT+CMGF=0` (PDU mode), then `AT+CNUM`. */
  function ModeStage(rev: Revision, p: Port): (r: (bool, string, Port))
    ensures Later(p, r.2)
  {
    var (pdu, p1) := Execute(rev, p, "AT+CMGF=0");
    if !pdu then (false, "", p1)
    else
      var r := ExecuteResult(rev, p1, "AT+CNUM", "");
      LaterTransitive(p, p1, r.2);
      r
  }

  /**
   * The start of `ProcessCommLoop`, up to the listening loop: the set-up, the
   * stored messages, then `AT+CNMI=2`. `ok` says that all of them succeeded;
   * the string is the parsed own number.
   */
  function StartS(ctx: Context, rev: Revision, p: Port): (r: (Run, string))
    ensures Later(p, r.0.port)
  {
    var (ready, number, p4) := SetupS(rev, p);
    if !ready then (Run(false, p4, [], false), "")
    else
      var pnumber := ctx.parseNumber(number);
      var m := ProcessMessagesS(ctx, rev, p4, pnumber);
      LaterTransitive(p, p4, m.port);
      if !m.ok then (m, pnumber)
      else
        var (notify, p5) := Execute(rev, m.port, "AT+CNMI=2");
        LaterTransitive(p, m.port, p5);
        (Run(notify, p5, m.emails, false), pnumber)
  }

  /** `ProcessCommLoop`: the start, then the listening loop when the start succeeded; `ok` says that the loop was reached. */
  function CommLoopS(ctx: Context, rev: Revision, p: Port): (r: Run)
    ensures Later(p, r.port)
  {
    var (start, number) := StartS(ctx, rev, p);
    if !start.ok then start
    else
      var r := ListenS(ctx, rev, start.port, number);
      LaterTransitive(p, start.port, r.port);
      Prefixed(start.emails, r).(ok := true)
  }

  // The reference the walk is proved against: the listing cut into entries.

  /** A listing line and the PDU line after it, if there is one. */
  datatype Entry = Entry(listing: string, pdu: Option<string>)

  /** The entries the walk visits from `i`: the leading listing lines, each with the line after it. */
  function Entries(rev: Revision, lines: seq<string>, i: nat): (es: seq<Entry>)
    requires i <= |lines|
    ensures forall k :: 0 <= k < |es| ==> IsListing(rev, es[k].listing)
    decreases |lines| - i
  {
    if i == |lines| || !IsListing(rev, lines[i]) then []
    else if i + 1 < |lines| then [Entry(lines[i], Some(lines[i + 1]))] + Entries(rev, lines, i + 2)
    else [Entry(lines[i], None)]
  }

  /** The delete command written for each entry that has an index. */
  function Deletes(es: seq<Entry>): seq<string>
  {
    if es == [] then []
    else
      (match ListingIndex(es[0].listing)
       case None => []
       case Some(index) => [WrittenLine(ListingDelete(index))]) + Deletes(es[1..])
  }

  /** The mails for the entries, in order. */
  function Mails(ctx: Context, rev: Revision, es: seq<Entry>, number: string): seq<Email>
  {
    if es == [] then []
    else
      (match EntryMails(ctx, rev, es[0].pdu, number)
       case None => []
       case Some(sent) => sent) + Mails(ctx, rev, es[1..], number)
  }

  /** `after` is `before` with delete commands appended, and nothing else. */
  predicate DeletesAdded(before: seq<string>, after: seq<string>)
  {
    before <= after && forall j :: |before| <= j < |after| ==> StartsWith(after[j], "AT+CMGD=")
  }

  /** `after` is `before` with listing and delete commands appended, and nothing else. */
  predicate ListingsAdded(before: seq<string>, after: seq<string>)
  {
    before <= after && forall j :: |before| <= j < |after| ==> after[j] == WrittenLine(ListCommand) || StartsWith(after[j], "AT+CMGD=")
  }

  /** A command as written to the port, with CR LF after it. */
  function WrittenLine(cmd: string): string { cmd + "\r\n" }

  /** The listing command of `ProcessMessages`: all stored messages, in PDU mode. */
  const ListCommand := "AT+CMGL=4"

  /** The commands the start writes before the listing is walked, framed. */
  const StartupCommands: seq<string> := SetupCommands + [WrittenLine(ListCommand)]

  /** The four set-up commands, framed, and the tails of the set-up that its stages write. */
  const SetupCommands: seq<string> := [WrittenLine("AT")] + PinCommands

  const PinCommands: seq<string> := [WrittenLine("AT+CPIN?")] + ModeCommands

  const ModeCommands: seq<string> := [WrittenLine("AT+CMGF=0")] + [WrittenLine("AT+CNUM")]

  // What the stages write.

  /** `ExecuteATCommand` writes its command once, when writes succeed. */
  lemma ExecuteWrites(rev: Revision, p: Port, cmd: string)
    ensures Execute(rev, p, cmd).1.written == if p.writeOk then p.written + [WrittenLine(CStr(cmd))] else p.written
    ensures Execute(rev, p, cmd).0 ==> p.writeOk
  {
  }

  /** So does `ExecuteATCommandResults`. */
  lemma ExecuteResultsWrites(rev: Revision, p: Port, cmd: string)
    ensures ExecuteResults(rev, p, cmd).2.written == if p.writeOk then p.written + [WrittenLine(CStr(cmd))] else p.written
    ensures ExecuteResults(rev, p, cmd).0 ==> p.writeOk
  {
  }

  /** The delete command holds no NUL, so it is written whole, and it starts as a delete. */
  lemma ListingDeleteText(index: int)
    ensures CStr(ListingDelete(index)) == ListingDelete(index)
    ensures StartsWith(WrittenLine(ListingDelete(index)), "AT+CMGD=")
  {
    var digits := NatToDecimal(if index < 0 then -index else index);
    var text := (if index < 0 then "-" else "") + digits;
    assert FormatInt(index, 0, false) == text;
    assert '\0' !in digits by {
      forall j | 0 <= j < |digits|
        ensures digits[j] != '\0'
      {
        assert IsDigit(digits[j]);
      }
    }
    assert ListingDelete(index) == "AT+CMGD=" + text;
    CStrOfNulFree(ListingDelete(index));
    assert WrittenLine(ListingDelete(index))[..8] == "AT+CMGD=";
  }

  /**
   * The walk against the entries: it writes delete commands and nothing else,
   * and when it succeeds it has written one delete per entry, in order, and
   * sent the mails of the entries whose PDU parsed.
   */
  lemma {:induction false} WalkAgainstEntries(ctx: Context, rev: Revision, p: Port, lines: seq<string>, i: nat, number: string)
    requires i <= |lines|
    ensures var r := WalkS(ctx, rev, p, lines, i, number);
            DeletesAdded(p.written, r.port.written) &&
            (r.ok ==> !r.aborted &&
                      r.port.written == p.written + Deletes(Entries(rev, lines, i)) &&
                      r.emails == Mails(ctx, rev, Entries(rev, lines, i), number))
    decreases |lines| - i
  {
    if i < |lines| && IsListing(rev, lines[i]) && ListingIndex(lines[i]).Some? {
      var index := ListingIndex(lines[i]).value;
      var pdu := if i + 1 < |lines| then Some(lines[i + 1]) else None;
      if EntryMails(ctx, rev, pdu, number).Some? {
        var (deleted, p1) := Execute(rev, p, ListingDelete(index));
        DeleteWritten(rev, p, index);
        if deleted {
          var next := if i + 1 < |lines| then i + 2 else i + 1;
          var r := WalkS(ctx, rev, p1, lines, next, number);
          WalkAgainstEntries(ctx, rev, p1, lines, next, number);
          DeletesAddedTransitive(p.written, p1.written, r.port.written);
          EntriesStep(rev, lines, i);
          ReferenceStep(ctx, rev, Entry(lines[i], pdu), Entries(rev, lines, next), number);
          if r.ok {
            AppendAssoc(p.written, [WrittenLine(ListingDelete(index))], Deletes(Entries(rev, lines, next)));
          }
        }
      }
    }
  }

  /** One delete: only a delete command is written, and it is written when the command succeeds. */
  lemma DeleteWritten(rev: Revision, p: Port, index: int)
    ensures var (deleted, p1) := Execute(rev, p, ListingDelete(index));
            DeletesAdded(p.written, p1.written) &&
            (deleted ==> p1.written == p.written + [WrittenLine(ListingDelete(index))])
  {
    ExecuteWrites(rev, p, ListingDelete(index));
    ListingDeleteText(index);
  }

  lemma DeletesAddedTransitive(a: seq<string>, b: seq<string>, c: seq<string>)
    requires DeletesAdded(a, b) && DeletesAdded(b, c)
    ensures DeletesAdded(a, c)
  {
    forall j | |a| <= j < |c|
      ensures StartsWith(c[j], "AT+CMGD=")
    {
      if j < |b| {
        assert c[j] == b[j];
      }
    }
  }

  /** A listing line starts an entry, with the line after it when there is one. */
  lemma EntriesStep(rev: Revision, lines: seq<string>, i: nat)
    requires i < |lines| && IsListing(rev, lines[i])
    ensures Entries(rev, lines, i) ==
            [Entry(lines[i], if i + 1 < |lines| then Some(lines[i + 1]) else None)] +
            Entries(rev, lines, if i + 1 < |lines| then i + 2 else i + 1)
  {
  }

  /** The reference for an entry followed by others. */
  lemma ReferenceStep(ctx: Context, rev: Revision, e: Entry, rest: seq<Entry>, number: string)
    ensures Deletes([e] + rest) ==
            (match ListingIndex(e.listing) case None => [] case Some(index) => [WrittenLine(ListingDelete(index))]) + Deletes(rest)
    ensures Mails(ctx, rev, [e] + rest, number) ==
            (match EntryMails(ctx, rev, e.pdu, number) case None => [] case Some(sent) => sent) + Mails(ctx, rev, rest, number)
  {
    assert ([e] + rest)[1..] == rest;
  }

  /**
   * `ProcessMessages` writes the listing command, then deletes only; when the
   * listing fails it sends nothing and fails; when it succeeds it has deleted
   * and mailed exactly the entries of the listing.
   */
  lemma ProcessMessagesAgainstEntries(ctx: Context, rev: Revision, p: Port, number: string)
    ensures var r := ProcessMessagesS(ctx, rev, p, number);
            var (listed, lines, _) := ExecuteResults(rev, p, ListCommand);
            ListingsAdded(p.written, r.port.written) &&
            (!listed ==> !r.ok && r.emails == []) &&
            (r.ok ==> DeletesAdded(p.written + [WrittenLine(ListCommand)], r.port.written) &&
                      r.port.written == p.written + [WrittenLine(ListCommand)] + Deletes(Entries(rev, lines, 0)) &&
                      r.emails == Mails(ctx, rev, Entries(rev, lines, 0), number))
  {
    var (listed, lines, p1) := ExecuteResults(rev, p, ListCommand);
    ExecuteResultsWrites(rev, p, ListCommand);
    CStrOfNulFree(ListCommand);
    if listed {
      WalkAgainstEntries(ctx, rev, p1, lines, 0, number);
      ListingThenDeletes(p.written, p1.written, WalkS(ctx, rev, p1, lines, 0, number).port.written);
    } else {
      ListingThenDeletes(p.written, p1.written, p1.written);
    }
  }

  /** The listing command, if written, then deletes. */
  lemma ListingThenDeletes(before: seq<string>, mid: seq<string>, after: seq<string>)
    requires mid == before + [WrittenLine(ListCommand)] || mid == before
    requires DeletesAdded(mid, after)
    ensures ListingsAdded(before, after)
  {
    forall j | |before| <= j < |after|
      ensures after[j] == WrittenLine(ListCommand) || StartsWith(after[j], "AT+CMGD=")
    {
      if j < |mid| {
        assert after[j] == mid[j];
      }
    }
  }

  /** `ListingsAdded` composes. */
  lemma ListingsAddedTransitive(a: seq<string>, b: seq<string>, c: seq<string>)
    requires ListingsAdded(a, b) && ListingsAdded(b, c)
    ensures ListingsAdded(a, c)
  {
    forall j | |a| <= j < |c|
      ensures c[j] == WrittenLine(ListCommand) || StartsWith(c[j], "AT+CMGD=")
    {
      if j < |b| {
        assert c[j] == b[j];
      }
    }
  }

  /** The listening loop writes nothing but listing and delete commands. */
  lemma {:induction false} ListenWritesListings(ctx: Context, rev: Revision, p: Port, number: string)
    ensures ListingsAdded(p.written, ListenS(ctx, rev, p, number).port.written)
    decreases Remaining(p), |p.buffer|
  {
    var (read, line, p1) := ReadText(rev, p);
    if read {
      if !IsNotice(rev, line) {
        ListenWritesListings(ctx, rev, p1, number);
      } else {
        var m := ProcessMessagesS(ctx, rev, p1, number);
        ProcessMessagesAgainstEntries(ctx, rev, p1, number);
        LaterTransitive(p, p1, m.port);
        if m.ok {
          ListenWritesListings(ctx, rev, m.port, number);
          ListingsAddedTransitive(p.written, m.port.written, ListenS(ctx, rev, m.port, number).port.written);
        }
      }
    }
  }

  /**
   * A start that succeeds has written `AT`, `AT+CPIN?`, `AT+CMGF=0`, `AT+CNUM`
   * and `AT+CMGL=4` in this order, then delete commands only, and `AT+CNMI=2` last.
   */
  lemma StartOrder(ctx: Context, rev: Revision, p: Port)
    ensures var w := StartS(ctx, rev, p).0.port.written;
            StartS(ctx, rev, p).0.ok ==>
              |w| > 0 && w[|w| - 1] == WrittenLine("AT+CNMI=2") &&
              DeletesAdded(p.written + StartupCommands, w[..|w| - 1])
  {
    var r := StartS(ctx, rev, p).0;
    if r.ok {
      var (_, number, p4) := SetupS(rev, p);
      SetupWritten(rev, p);
      var m := ProcessMessagesS(ctx, rev, p4, ctx.parseNumber(number));
      ProcessMessagesAgainstEntries(ctx, rev, p4, ctx.parseNumber(number));
      NulFreeCommands();
      ExecuteOkWrites(rev, m.port, "AT+CNMI=2");
      AppendAssoc(p.written, SetupCommands, [WrittenLine(ListCommand)]);
      var w := r.port.written;
      assert w[..|w| - 1] == m.port.written;
    }
  }

  /** A set-up that succeeds has written its four commands in order. */
  lemma SetupWritten(rev: Revision, p: Port)
    ensures SetupS(rev, p).0 ==> SetupS(rev, p).2.written == p.written + SetupCommands
  {
    var p1 := Execute(rev, p, "AT").1;
    NulFreeCommands();
    ExecuteOkWrites(rev, p, "AT");
    PinWritten(rev, p1);
    AppendAssoc(p.written, [WrittenLine("AT")], PinCommands);
  }

  lemma PinWritten(rev: Revision, p: Port)
    ensures PinStage(rev, p).0 ==> PinStage(rev, p).2.written == p.written + PinCommands
  {
    var p1 := ExecuteResult(rev, p, "AT+CPIN?", "").2;
    NulFreeCommands();
    ExecuteResultOkWrites(rev, p, "AT+CPIN?");
    ModeWritten(rev, p1);
    AppendAssoc(p.written, [WrittenLine("AT+CPIN?")], ModeCommands);
  }

  lemma ModeWritten(rev: Revision, p: Port)
    ensures ModeStage(rev, p).0 ==> ModeStage(rev, p).2.written == p.written + ModeCommands
  {
    var p1 := Execute(rev, p, "AT+CMGF=0").1;
    NulFreeCommands();
    ExecuteOkWrites(rev, p, "AT+CMGF=0");
    ExecuteResultOkWrites(rev, p1, "AT+CNUM");
    AppendAssoc(p.written, [WrittenLine("AT+CMGF=0")], [WrittenLine("AT+CNUM")]);
  }

  /** The commands of the start hold no NUL. */
  lemma NulFreeCommands()
    ensures '\0' !in "AT" && '\0' !in "AT+CPIN?" && '\0' !in "AT+CMGF=0"
    ensures '\0' !in "AT+CNUM" && '\0' !in "AT+CNMI=2"
  {
  }

  /** A command without NUL that succeeds has been written as it stands. */
  lemma ExecuteOkWrites(rev: Revision, p: Port, cmd: string)
    requires '\0' !in cmd
    ensures Execute(rev, p, cmd).0 ==> Execute(rev, p, cmd).1.written == p.written + [WrittenLine(cmd)]
  {
    ExecuteWrites(rev, p, cmd);
    CStrOfNulFree(cmd);
  }

  lemma ExecuteResultOkWrites(rev: Revision, p: Port, cmd: string)
    requires '\0' !in cmd
    ensures ExecuteResult(rev, p, cmd, "").0 ==> ExecuteResult(rev, p, cmd, "").2.written == p.written + [WrittenLine(cmd)]
  {
    ExecuteResultsWrites(rev, p, cmd);
    CStrOfNulFree(cmd);
  }

  /**
   * `ProcessCommLoop` against its start: it reaches the listening loop exactly
   * when the start succeeds, and the loop then writes only listing and delete
   * commands; a start that fails is the whole outcome.
   */
  lemma CommLoopAgainstStart(ctx: Context, rev: Revision, p: Port)
    ensures var (start, _) := StartS(ctx, rev, p);
            var r := CommLoopS(ctx, rev, p);
            r.ok == start.ok &&
            (r.ok ==> ListingsAdded(start.port.written, r.port.written) && start.emails <= r.emails) &&
            (!r.ok ==> r == start)
  {
    var (start, number) := StartS(ctx, rev, p);
    if start.ok {
      ListenWritesListings(ctx, rev, start.port, number);
    }
  }

  /**
   * A listing line without an index makes `ProcessMessages` fail at once: after
   * the listing command, nothing is written and nothing is mailed.
   */
  lemma MissingIndexStops(ctx: Context, rev: Revision, p: Port, number: string)
    requires var (listed, lines, _) := ExecuteResults(rev, p, ListCommand);
             listed && lines != [] && IsListing(rev, lines[0]) && ListingIndex(lines[0]).None?
    ensures ProcessMessagesS(ctx, rev, p, number) == Run(false, ExecuteResults(rev, p, ListCommand).2, [], false)
  {
  }

  /**
   * The two prefix tests agree for a prefix without NUL: `wcsstr(line.c_str(),
   * prefix) == line.c_str()` holds exactly when `line` starts with `prefix`.
   */
  lemma PrefixTestsAgree(line: string, prefix: string)
    requires '\0' !in prefix
    ensures HasPrefix(Current, line, prefix) <==> HasPrefix(Legacy, line, prefix)
  {
    var c := CStr(line);
    if StartsWith(line, prefix) {
      assert c[..|prefix|] == line[..|prefix|];
    }
    if StartsWith(c, prefix) {
      assert line[..|prefix|] == c[..|prefix|];
    }
  }

  /** So the revisions pick the same listing lines and the same notices. */
  lemma LineTestsAgree(line: string)
    ensures IsListing(Current, line) <==> IsListing(Legacy, line)
    ensures IsNotice(Current, line) <==> IsNotice(Legacy, line)
  {
    PrefixTestsAgree(line, "+CMGL");
    PrefixTestsAgree(line, "+CMTI");
  }

  /**
   * The PIN check differs: an answer without an 'R', such as "+CPIN: SIM PIN",
   * passes the current revision's check and fails the legacy one.
   */
  lemma LockedSimPassesCurrentOnly(line: string)
    requires forall j :: 0 <= j < |line| ==> line[j] != 'R'
    ensures PinAccepted(Current, line) && !PinAccepted(Legacy, line)
  {
    var c := CStr(line);
    assert forall j :: 0 <= j < |c| ==> c[j] == line[j];
    NoReady(c);
  }

  /** An answer with "READY" before any NUL, such as "+CPIN: READY", passes both checks. */
  lemma ReadySimPasses(line: string, i: nat)
    requires i + 5 <= |line| && line[i..i + 5] == "READY"
    requires forall j :: 0 <= j < i + 5 ==> line[j] != '\0'
    ensures PinAccepted(Current, line) && PinAccepted(Legacy, line)
  {
    var c := CStr(line);
    assert |c| >= i + 5;
    assert c[i..][..5] == line[i..i + 5];
    ContainsAt(c, i, "READY");
  }

  /** `needle` at position `i` is contained. */
  lemma {:induction false} ContainsAt(s: string, i: nat, needle: string)
    requires i <= |s| && StartsWith(s[i..], needle)
    ensures Contains(s, needle)
    decreases i
  {
    if i > 0 {
      assert s[1..][i - 1..] == s[i..];
      ContainsAt(s[1..], i - 1, needle);
    }
  }

  /** A text with no 'R' does not contain "READY". */
  lemma {:induction false} NoReady(s: string)
    requires forall j :: 0 <= j < |s| ==> s[j] != 'R'
    ensures !Contains(s, "READY")
    decreases |s|
  {
    if 5 <= |s| {
      assert s[..5][0] != 'R';
    }
    if s != [] {
      NoReady(s[1..]);
    }
  }

  // The loop itself, over the port object.

  /** `ProcessMessages`. */
  method ProcessMessages(ofm: OverlappedComm, ctx: Context, number: string) returns (ok: bool, emails: seq<Email>, aborted: bool)
    modifies ofm
    ensures Run(ok, ofm.State(), emails, aborted) == ProcessMessagesS(ctx, ofm.rev, old(ofm.State()), number)
  {
    var listed, lines := ofm.ExecuteATCommandResults(ListCommand);
    if !listed {
      return false, [], false;
    }
    ok, emails, aborted := WalkListing(ofm, ctx, number, lines);
  }

  /** The loop of `ProcessMessages` over the listed lines. */
  method WalkListing(ofm: OverlappedComm, ctx: Context, number: string, lines: seq<string>)
    returns (ok: bool, emails: seq<Email>, aborted: bool)
    modifies ofm
    ensures Run(ok, ofm.State(), emails, aborted) == WalkS(ctx, ofm.rev, old(ofm.State()), lines, 0, number)
  {
    ghost var goal := WalkS(ctx, ofm.rev, ofm.State(), lines, 0, number);
    var i := 0;
    emails := [];
    while i < |lines| && IsListing(ofm.rev, lines[i])
      invariant i <= |lines|
      invariant goal == Prefixed(emails, WalkS(ctx, ofm.rev, ofm.State(), lines, i, number))
      decreases |lines| - i
    {
      var index := GetMessageIndexFromListing(lines[i]);
      if index.None? {
        return false, emails, false;
      }
      ghost var pdu := if i + 1 < |lines| then Some(lines[i + 1]) else None;
      var sent: seq<Email> := [];
      i := i + 1;
      if i < |lines| {
        var parsed := ParseGsmPDU(ofm.rev, lines[i], ctx.currentYear, ctx.ucs2, Outputs("", "", ""));
        i := i + 1;
        if parsed.None? {
          return false, emails, true;
        }
        if parsed.value.ok {
          sent := [Email(parsed.value.out.from, number, parsed.value.out.datetime, parsed.value.out.message)];
        }
      }
      assert EntryMails(ctx, ofm.rev, pdu, number) == Some(sent);
      var deleted := ofm.ExecuteATCommand(ListingDelete(index.value));
      AppendAssoc(emails, sent, WalkS(ctx, ofm.rev, ofm.State(), lines, i, number).emails);
      emails := emails + sent;
      if !deleted {
        return false, emails, false;
      }
    }
    return true, emails, false;
  }

  /** The set-up commands at the start of `ProcessCommLoop`; `number` is the first line answering `AT+CNUM`. */
  method Setup(ofm: OverlappedComm) returns (ready: bool, number: string)
    modifies ofm
    ensures (ready, number, ofm.State()) == SetupS(ofm.rev, old(ofm.State()))
  {
    var alive := ofm.ExecuteATCommand("AT");
    if !alive {
      return false, "";
    }
    var pinRead, pin := ofm.ExecuteATCommandResult("AT+CPIN?", "");
    if !pinRead || !PinAccepted(ofm.rev, pin) {
      return false, "";
    }
    var pdu := ofm.ExecuteATCommand("AT+CMGF=0");
    if !pdu {
      return false, "";
    }
    ready, number := ofm.ExecuteATCommandResult("AT+CNUM", "");
  }

  /** The start of `ProcessCommLoop`: set-up, the stored messages, then `AT+CNMI=2`. */
  method Start(ofm: OverlappedComm, ctx: Context) returns (ok: bool, emails: seq<Email>, aborted: bool, pnumber: string)
    modifies ofm
    ensures (Run(ok, ofm.State(), emails, aborted), pnumber) == StartS(ctx, ofm.rev, old(ofm.State()))
  {
    var ready, number := Setup(ofm);
    if !ready {
      return false, [], false, "";
    }
    pnumber := ctx.parseNumber(number);
    ok, emails, aborted := ProcessMessages(ofm, ctx, pnumber);
    if !ok {
      return;
    }
    ok := ofm.ExecuteATCommand("AT+CNMI=2");
  }

  /** The listening loop of `ProcessCommLoop`. */
  method Listen(ofm: OverlappedComm, ctx: Context, number: string) returns (ok: bool, emails: seq<Email>, aborted: bool)
    modifies ofm
    ensures Run(ok, ofm.State(), emails, aborted) == ListenS(ctx, ofm.rev, old(ofm.State()), number)
  {
    ghost var goal := ListenS(ctx, ofm.rev, ofm.State(), number);
    emails := [];
    while true
      invariant goal == Prefixed(emails, ListenS(ctx, ofm.rev, ofm.State(), number))
      decreases Remaining(ofm.State()), |ofm.buffer|
    {
      ghost var before := ofm.State();
      var read, line := ofm.ReadLine();
      if !read {
        return true, emails, false;
      }
      if IsNotice(ofm.rev, line) {
        ghost var after := ofm.State();
        var processed, sent, thrown := ProcessMessages(ofm, ctx, number);
        LaterTransitive(before, after, ofm.State());
        if !processed {
          return false, emails + sent, thrown;
        }
        AppendAssoc(emails, sent, ListenS(ctx, ofm.rev, ofm.State(), number).emails);
        emails := emails + sent;
      }
    }
  }

  /**
   * `ProcessCommLoop`: `started` says that the start succeeded and the
   * listening loop ran; the loop returns when a read fails, when
   * `ProcessMessages` fails, and (`aborted`) when a PDU makes the parser throw.
   */
  method ProcessCommLoop(ofm: OverlappedComm, ctx: Context) returns (started: bool, emails: seq<Email>, aborted: bool)
    modifies ofm
    ensures Run(started, ofm.State(), emails, aborted) == CommLoopS(ctx, ofm.rev, old(ofm.State()))
  {
    var ok, sent, thrown, number := Start(ofm, ctx);
    if !ok {
      return false, sent, thrown;
    }
    var _, more, stopped := Listen(ofm, ctx, number);
    return true, sent + more, stopped;
  }
}
