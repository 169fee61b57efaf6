/**
 * The SIM800C modem session: AT commands and their replies over a line source,
 * the unsolicited result codes the modem sends on its own, the key/value store,
 * the SMS and caller caches, and the fixed start-up and steady-state loops.
 *
 * The session's fields live in the class `SIM800C` (module `Sim800cDevice`); each
 * of its methods is specified by a function here over a `Session` value, which the
 * lemmas below are about.
 */
module Sim800c {
  import opened Common
  import opened AtPatterns
  import Shared
  import GsmPdu

  /**
   * What one read of the port yields: a line, with the steady-clock time and the
   * local-time text that handling it reads, or a failed read.
   */
  datatype Incoming = Received(text: string, now: int, date: string) | Failed

  datatype SmsCacheItem = SmsCacheItem(command: string, pdu: string)

  datatype CallerCacheItem = CallerCacheItem(caller: string, date: string)

  /** A call of the `OnNewSms` or `OnNewCaller` callback. */
  datatype Event = NewSms(from: string, datetime: string, message: string) | NewCaller(caller: string, date: string)

  /**
   * The surroundings of a session: the reads the port will yield in order, whether
   * writes reach the port, and `ParseGsmPDU` as the session calls it (`SIM800C`
   * supplies the current revision's decoder, see `SIM800C.Env`).
   */
  datatype Env = Env(input: seq<Incoming>, writeOk: bool, parse: string -> Option<GsmPdu.PduResult>)

  /**
   * The session's state: the fields of `SIM800C` (with a flag per callback saying
   * whether it is set), how many reads were made, the commands written, the
   * callbacks made, and whether an exception has left the session.
   */
  datatype Session = Session(
    store: map<string, string>,
    smsCache: seq<SmsCacheItem>,
    needCheckSms: bool,
    callerCache: seq<CallerCacheItem>,
    recentCaller: string,
    recentCallerTime: int,
    onNewSms: bool,
    onNewCaller: bool,
    taken: nat,
    sent: seq<string>,
    events: seq<Event>,
    aborted: bool)

  /** Steady-clock ticks per second (nanoseconds). */
  const TicksPerSecond: int := 1_000_000_000

  function Remaining(env: Env, s: Session): nat
  {
    if s.taken < |env.input| then |env.input| - s.taken else 0
  }

  /** The line the last read yielded. */
  predicate EndedWith(env: Env, s: Session, text: string)
  {
    0 < s.taken <= |env.input| && env.input[s.taken - 1].Received? && env.input[s.taken - 1].text == text
  }

  /** The last read failed: the port reported a failure or has nothing more. */
  predicate ReadFailedLast(env: Env, s: Session)
  {
    s.taken >= |env.input| || (0 < s.taken && env.input[s.taken - 1].Failed?)
  }

  /**
   * What handling modem lines may change: reads go forward, the caches only grow
   * at their ends, the SMS flag is only set, and nothing is written or called back.
   */
  predicate Follows(s: Session, t: Session)
  {
    s.taken <= t.taken && s.smsCache <= t.smsCache && s.callerCache <= t.callerCache &&
    (s.needCheckSms ==> t.needCheckSms) &&
    t.sent == s.sent && t.events == s.events && t.aborted == s.aborted &&
    t.onNewSms == s.onNewSms && t.onNewCaller == s.onNewCaller
  }

  lemma FollowsTransitive(s: Session, t: Session, u: Session)
    requires Follows(s, t) && Follows(t, u)
    ensures Follows(s, u)
  {
  }

  /** `ReadLine`: the next entry of the input, or a failure once it is exhausted. */
  function ReadLineS(env: Env, s: Session): (r: (bool, Incoming, Session))
    ensures s.taken <= r.2.taken && (r.0 ==> Remaining(env, r.2) < Remaining(env, s))
  {
    if s.taken >= |env.input| then (false, Failed, s)
    else
      var line := env.input[s.taken];
      (line.Received?, line, s.(taken := s.taken + 1))
  }

  /** `WriteLine`: the command goes out when the port takes it. */
  function WriteS(env: Env, s: Session, cmd: string): (bool, Session)
  {
    if env.writeOk then (true, s.(sent := s.sent + [cmd])) else (false, s)
  }

  /** `mStore[key]`: the value under `key`; a missing key is first inserted with an empty value. */
  function Index(store: map<string, string>, key: string): (r: (string, map<string, string>))
    ensures key in r.1 && r.1[key] == r.0 && r.1.Keys == store.Keys + {key}
    ensures forall k :: k in store ==> r.1[k] == store[k]
    ensures key !in store ==> r.0 == ""
  {
    if key in store then (store[key], store) else ("", store[key := ""])
  }

  /**
   * A caller is cached unless it is the recent caller, seen less than 61 seconds
   * ago (`RepeatWindow`: more than 60 whole seconds, as the clock difference is
   * truncated to seconds).
   */
  predicate NewCall(s: Session, caller: string, now: int)
  {
    caller != s.recentCaller || now - s.recentCallerTime >= 61 * TicksPerSecond
  }

  /**
   * `OnCommand`: "+CPIN" stores its value, "+CNUM" stores the subscriber number,
   * "+CMGL" reads the PDU line and caches both, "+CMTI" asks for a listing, "+CLIP"
   * caches a caller that is not a repeat; the other codes are only printed.
   */
  function OnCommandS(env: Env, s: Session, code: string, value: string, now: int, date: string): (t: Session)
    ensures s.taken <= t.taken && |s.smsCache| <= |t.smsCache|
  {
    if code == "+CPIN" then s.(store := s.store[code := value])
    else if code == "+CNUM" then
      match MatchSubscriberNumber(value)
      case Some(number) => s.(store := s.store[code := number])
      case None => s
    else if code == "+CMGL" then ListingS(env, s, value)
    else if code == "+CMTI" then s.(needCheckSms := true)
    else if code == "+CLIP" then CallerS(s, value, now, date)
    else s
  }

  /** "+CMGL": the PDU is the next line; it is cached with the listing value. */
  function ListingS(env: Env, s: Session, value: string): (t: Session)
    ensures s.taken <= t.taken && |s.smsCache| <= |t.smsCache|
  {
    var (ok, line, s1) := ReadLineS(env, s);
    if ok then s1.(smsCache := s1.smsCache + [SmsCacheItem(value, line.text)]) else s1
  }

  /** "+CLIP": the caller is cached unless it is the recent caller within the repeat window. */
  function CallerS(s: Session, value: string, now: int, date: string): Session
  {
    match MatchCallerId(value)
    case Some(caller) =>
      var cache := if NewCall(s, caller, now) then s.callerCache + [CallerCacheItem(caller, date)] else s.callerCache;
      s.(callerCache := cache, recentCaller := caller, recentCallerTime := now)
    case None => s
  }

  /**
   * The reply loop of `ExecuteATCommand`: empty lines and echoes are skipped,
   * result codes go to `OnCommand`, "OK" is success, "ERROR" and a failed read
   * are failure, anything else is printed and skipped.
   */
  function ExecLoop(env: Env, s: Session, cmd: string): (r: (bool, Session))
    ensures s.taken <= r.1.taken && |s.smsCache| <= |r.1.smsCache|
    ensures r.0 ==> Remaining(env, r.1) < Remaining(env, s)
    decreases Remaining(env, s)
  {
    var (ok, line, s1) := ReadLineS(env, s);
    if !ok then (false, s1)
    else if line.text == "" || line.text == cmd then ExecLoop(env, s1, cmd)
    else
      match MatchATResult(line.text)
      case Some((code, suffix)) => ExecLoop(env, OnCommandS(env, s1, code, suffix, line.now, line.date), cmd)
      case None =>
        if line.text == "OK" then (true, s1)
        else if line.text == "ERROR" then (false, s1)
        else ExecLoop(env, s1, cmd)
  }

  /** `ExecuteATCommand`: write the command, then read replies up to "OK" or "ERROR". */
  function ExecuteS(env: Env, s: Session, cmd: string): (r: (bool, Session))
    ensures s.taken <= r.1.taken && |s.smsCache| <= |r.1.smsCache|
    ensures r.0 ==> Remaining(env, r.1) < Remaining(env, s)
  {
    var (written, s1) := WriteS(env, s, cmd);
    if !written then (false, s1) else ExecLoop(env, s1, cmd)
  }

  /** The delete command for a message index: `AT+CMGD=%i`. */
  function DeleteCommand(index: nat): string
  {
    "AT+CMGD=" + NatToDecimal(index)
  }

  /**
   * `sent` grows from `before` by delete commands only.
   */
  predicate DeletesOnly(before: seq<string>, after: seq<string>)
  {
    before <= after && forall i :: |before| <= i < |after| ==> StartsWith(after[i], "AT+CMGD=")
  }

  /** The start of `DeleteCommand`, for `DeletesOnly`. */
  lemma DeleteCommandPrefix(index: nat)
    ensures StartsWith(DeleteCommand(index), "AT+CMGD=")
  {
    assert DeleteCommand(index)[..8] == "AT+CMGD=";
  }

  /**
   * `ProcessSms`: without an index in the listing line nothing happens; an index
   * beyond `int` makes `stoi` throw, and so does a PDU the hex decoder rejects;
   * otherwise a parsed message is handed to `OnNewSms`, and the message is deleted
   * whether or not it parsed.
   */
  function ProcessSmsS(env: Env, s: Session, item: SmsCacheItem): (r: (bool, Session))
    ensures s.taken <= r.1.taken && |s.smsCache| <= |r.1.smsCache|
    ensures r.0 ==> |r.1.smsCache| == |s.smsCache| || Remaining(env, r.1) < Remaining(env, s)
  {
    match MatchSmsIndex(item.command)
    case None => (true, s)
    case Some(digits) =>
      var index := DecimalValue(digits);
      if index > Int32Max then (false, s.(aborted := true))
      else
        match env.parse(item.pdu)
        case None => (false, s.(aborted := true))
        case Some(parsed) =>
          var s1 := if parsed.ok && s.onNewSms
                    then s.(events := s.events + [NewSms(parsed.out.from, parsed.out.datetime, parsed.out.message)])
                    else s;
          ExecuteS(env, s1, DeleteCommand(index))
  }

  /** The `OnNewCaller` calls for the cached callers, in cache order. */
  function CallerEvents(items: seq<CallerCacheItem>): (events: seq<Event>)
    ensures |events| == |items|
    ensures forall i :: 0 <= i < |items| ==> events[i] == NewCaller(items[i].caller, items[i].date)
  {
    if items == [] then [] else [NewCaller(items[0].caller, items[0].date)] + CallerEvents(items[1..])
  }

  /** The second loop of `ProcessCache`: every cached caller goes to `OnNewCaller` when it is set, and is erased. */
  function DrainCallers(s: Session): Session
  {
    s.(callerCache := [], events := s.events + if s.onNewCaller then CallerEvents(s.callerCache) else [])
  }

  /**
   * `ProcessCache`: the SMS cache is processed from its head, each entry erased
   * once it is processed; a failure stops there. Then the caller cache is drained.
   */
  function ProcessCacheS(env: Env, s: Session): (r: (bool, Session))
    ensures s.taken <= r.1.taken
    decreases Remaining(env, s), |s.smsCache|
  {
    if s.smsCache == [] then (true, DrainCallers(s))
    else
      var (ok, s1) := ProcessSmsS(env, s, s.smsCache[0]);
      if !ok then (false, s1)
      else
        ProcessCacheS(env, s1.(smsCache := s1.smsCache[1..]))
  }

  /**
   * The commands of a straight run of `ExecuteATCommand` calls, stopping at the
   * first that fails.
   */
  function RunAll(env: Env, s: Session, cmds: seq<string>): (bool, Session)
    decreases |cmds|
  {
    if cmds == [] then (true, s)
    else
      var (ok, s1) := ExecuteS(env, s, cmds[0]);
      if !ok then (false, s1) else RunAll(env, s1, cmds[1..])
  }

  const InitHead: seq<string> := ["AT", "ATE0", "AT+CPIN?"]
  const InitSetup: seq<string> := ["AT+CMGF=0", "AT+CRC=1", "AT+CNUM"]
  const InitTail: seq<string> := ["AT+CREG=1", "AT+CLIP=1", "AT+CNMI=2", "AT+CREG?"]

  /**
   * What a successful `Init`, from some step on, adds to `before`: the commands
   * `head`, then only deletes, then the last four commands of `Init`.
   */
  predicate InitOrder(before: seq<string>, after: seq<string>, head: seq<string>)
  {
    |before| + |head| + 4 <= |after| && after[..|before| + |head|] == before + head &&
    after[|after| - 4..] == InitTail && DeletesOnly(before + head, after[..|after| - 4])
  }

  lemma TailOrder(before: seq<string>, mid: seq<string>, after: seq<string>)
    requires DeletesOnly(before + ["AT+CMGL=4"], mid) && after == mid + InitTail
    ensures InitOrder(before, after, ["AT+CMGL=4"])
  {
    assert after[..|after| - 4] == mid;
    assert after[..|before| + 1] == mid[..|before| + 1];
  }

  lemma ExtendOrder(before: seq<string>, extra: seq<string>, after: seq<string>, head: seq<string>)
    requires InitOrder(before + extra, after, head)
    ensures InitOrder(before, after, extra + head)
  {
    assert before + extra + head == before + (extra + head);
  }

  /**
   * `Init`: AT, ATE0 and AT+CPIN?; the PIN state must be "READY"; AT+CMGF=0,
   * AT+CRC=1 and AT+CNUM; the subscriber number must not be empty; AT+CMGL=4 and
   * `ProcessCache`; AT+CREG=1, AT+CLIP=1, AT+CNMI=2 and AT+CREG?. The first failure
   * ends it.
   */
  function InitS(env: Env, s: Session): (bool, Session)
  {
    var (ok, s1) := RunAll(env, s, InitHead);
    if !ok then (false, s1) else PinStepS(env, s1)
  }

  /** The rest of `Init` once AT+CPIN? has succeeded: the PIN check, then the setup commands. */
  function PinStepS(env: Env, s: Session): (bool, Session)
  {
    var (pin, store) := Index(s.store, "+CPIN");
    if pin != "READY" then (false, s.(store := store))
    else
      var (ok, s1) := RunAll(env, s.(store := store), InitSetup);
      if !ok then (false, s1) else NumberStepS(env, s1)
  }

  /** The rest of `Init` once AT+CNUM has succeeded: the number check, the listing, the caches and the last commands. */
  function NumberStepS(env: Env, s: Session): (bool, Session)
  {
    var (number, store) := Index(s.store, "+CNUM");
    if number == "" then (false, s.(store := store))
    else
      var (ok1, s1) := ExecuteS(env, s.(store := store), "AT+CMGL=4");
      if !ok1 then (false, s1)
      else
        var (ok2, s2) := ProcessCacheS(env, s1);
        if !ok2 then (false, s2) else RunAll(env, s2, InitTail)
  }

  /**
   * The loop of `PerformLoop`: list the messages when a "+CMTI" asked for it,
   * process the caches, then handle one unsolicited line; a failed read ends the
   * loop with success.
   */
  function LoopS(env: Env, s: Session): (bool, Session)
    decreases Remaining(env, s)
  {
    var (ok2, s2) := TurnStartS(env, s);
    if !ok2 then (false, s2)
    else
      var (ok3, line, s3) := ReadLineS(env, s2);
      if !ok3 then (true, s3)
      else if line.text == "" then LoopS(env, s3)
      else
        match MatchATResult(line.text)
        case Some((code, suffix)) => LoopS(env, OnCommandS(env, s3, code, suffix, line.now, line.date))
        case None => LoopS(env, s3)
  }

  /** The session at the start of the loop's last turn: the turn whose start fails or whose read fails. */
  function LastTurn(env: Env, s: Session): (t: Session)
    ensures s.taken <= t.taken
    decreases Remaining(env, s)
  {
    var (ok2, s2) := TurnStartS(env, s);
    if !ok2 then s
    else
      var (ok3, line, s3) := ReadLineS(env, s2);
      if !ok3 then s
      else if line.text == "" then LastTurn(env, s3)
      else
        match MatchATResult(line.text)
        case Some((code, suffix)) => LastTurn(env, OnCommandS(env, s3, code, suffix, line.now, line.date))
        case None => LastTurn(env, s3)
  }

  /** The start of each turn of the loop: the listing a "+CMTI" asked for, then `ProcessCache`. */
  function TurnStartS(env: Env, s: Session): (r: (bool, Session))
    ensures s.taken <= r.1.taken
  {
    var (ok1, s1) := if s.needCheckSms then ExecuteS(env, s.(needCheckSms := false), "AT+CMGL=4") else (true, s);
    if !ok1 then (false, s1) else ProcessCacheS(env, s1)
  }

  /** `PerformLoop`: an initial AT, then the loop. */
  function PerformLoopS(env: Env, s: Session): (bool, Session)
  {
    var (ok, s1) := ExecuteS(env, s, "AT");
    if !ok then (false, s1) else LoopS(env, s1)
  }

  /** `GetSubscriberNumber`: `mStore["+CNUM"]`, inserting an empty entry when there is none. */
  function SubscriberNumberS(s: Session): (r: (string, Session))
  {
    var (number, store) := Index(s.store, "+CNUM");
    (number, s.(store := store))
  }

  /**
   * `PrintNetworkState`: the message printed for a "+CREG" value. The state is the
   * text after the first comma when there is one; 0, 1 and 2 are named.
   */
  function NetworkStateMessage(value: string): (message: string)
    ensures "Network state change: " <= message
  {
    var pos := Span(value, 0, NotComma);
    var state := if pos < |value| then value[pos + 1..] else value;
    if Shared.Equal("0", state) then "Network state change: Disconnected"
    else if Shared.Equal("1", state) then "Network state change: Connected"
    else if Shared.Equal("2", state) then "Network state change: Searching..."
    else "Network state change: " + state
  }

  // ---------------------------------------------------------------------------
  // What each operation may change

  /** A read takes the next entry: a line, or a failure when the port fails or has nothing more. */
  lemma ReadLineResult(env: Env, s: Session)
    ensures var (ok, line, t) := ReadLineS(env, s);
            t == s.(taken := t.taken) && (ok <==> line.Received?) &&
            (ok ==> EndedWith(env, t, line.text)) && (!ok ==> ReadFailedLast(env, t))
  {
  }

  /** Handling a result code only reads, caches, raises the flag and stores. */
  lemma OnCommandFollows(env: Env, s: Session, code: string, value: string, now: int, date: string)
    ensures Follows(s, OnCommandS(env, s, code, value, now, date))
  {
    if code == "+CMGL" {
      ListingFollows(env, s, code, value, now, date);
    } else if code == "+CLIP" {
      CallerFollows(env, s, code, value, now, date);
    } else {
      OtherFollows(env, s, code, value, now, date);
    }
  }

  lemma ListingFollows(env: Env, s: Session, code: string, value: string, now: int, date: string)
    requires code == "+CMGL"
    ensures Follows(s, OnCommandS(env, s, code, value, now, date))
  {
    var (ok, line, s1) := ReadLineS(env, s);
    ReadLineResult(env, s);
    if ok {
      PrefixOfAppend(s1.smsCache, [SmsCacheItem(value, line.text)]);
    }
  }

  lemma CallerFollows(env: Env, s: Session, code: string, value: string, now: int, date: string)
    requires code == "+CLIP"
    ensures Follows(s, OnCommandS(env, s, code, value, now, date))
  {
    if MatchCallerId(value).Some? {
      PrefixOfAppend(s.callerCache, [CallerCacheItem(MatchCallerId(value).value, date)]);
    }
  }

  lemma OtherFollows(env: Env, s: Session, code: string, value: string, now: int, date: string)
    requires code != "+CMGL" && code != "+CLIP"
    ensures Follows(s, OnCommandS(env, s, code, value, now, date))
  {
    if code == "+CPIN" {
    } else if code == "+CNUM" {
    } else if code == "+CMTI" {
    }
  }

  lemma PrefixOfAppend<T>(a: seq<T>, b: seq<T>)
    ensures a <= a + b
  {
    assert (a + b)[..|a|] == a;
  }

  /**
   * The reply loop succeeds only on an "OK" line and fails on "ERROR" or a failed
   * read; it writes nothing and calls nothing back.
   */
  lemma {:induction false} ExecLoopResult(env: Env, s: Session, cmd: string)
    ensures ReplyOutcome(env, s, ExecLoop(env, s, cmd))
    decreases Remaining(env, s), 1
  {
    if s.taken < |env.input| && env.input[s.taken].Received? {
      var line := env.input[s.taken];
      if Skipped(cmd, line) {
        SkippedOutcome(env, s, cmd);
      } else if MatchATResult(line.text).Some? {
        DispatchedOutcome(env, s, cmd);
      } else {
        ReplyStatus(env, s, cmd, s.taken);
      }
    }
  }

  /**
   * How the reply loop ends: it only read, cached, raised the flag and stored;
   * success comes from an "OK" line, failure from "ERROR" or a failed read.
   */
  predicate ReplyOutcome(env: Env, s: Session, r: (bool, Session))
  {
    Follows(s, r.1) &&
    (r.0 ==> EndedWith(env, r.1, "OK")) &&
    (!r.0 ==> ReadFailedLast(env, r.1) || EndedWith(env, r.1, "ERROR"))
  }

  lemma {:induction false} SkippedOutcome(env: Env, s: Session, cmd: string)
    requires s.taken < |env.input| && Skipped(cmd, env.input[s.taken])
    ensures ReplyOutcome(env, s, ExecLoop(env, s, cmd))
    decreases Remaining(env, s), 0
  {
    var s1 := s.(taken := s.taken + 1);
    SkipStep(env, s, cmd);
    ExecLoopResult(env, s1, cmd);
    FollowsTransitive(s, s1, ExecLoop(env, s1, cmd).1);
  }

  lemma {:induction false} DispatchedOutcome(env: Env, s: Session, cmd: string)
    requires s.taken < |env.input| && env.input[s.taken].Received?
    requires var text := env.input[s.taken].text; text != "" && text != cmd && MatchATResult(text).Some?
    ensures ReplyOutcome(env, s, ExecLoop(env, s, cmd))
    decreases Remaining(env, s), 0
  {
    var line := env.input[s.taken];
    var s1 := s.(taken := s.taken + 1);
    var (code, suffix) := MatchATResult(line.text).value;
    var next := OnCommandS(env, s1, code, suffix, line.now, line.date);
    ReplyDispatches(env, s, cmd, code, suffix);
    OnCommandFollows(env, s1, code, suffix, line.now, line.date);
    ExecLoopResult(env, next, cmd);
    FollowsTransitive(s, s1, next);
    FollowsTransitive(s, next, ExecLoop(env, next, cmd).1);
  }

  /** `ExecuteATCommand` writes the command when the port takes it and succeeds only on "OK". */
  lemma ExecuteResult(env: Env, s: Session, cmd: string)
    ensures var r := ExecuteS(env, s, cmd);
            r.1.sent == s.sent + (if env.writeOk then [cmd] else []) &&
            Follows(s.(sent := r.1.sent), r.1) &&
            (r.0 ==> env.writeOk && EndedWith(env, r.1, "OK"))
  {
    if env.writeOk {
      ExecLoopResult(env, s.(sent := s.sent + [cmd]), cmd);
    }
  }

  lemma DeletesOnlyTransitive(a: seq<string>, b: seq<string>, c: seq<string>)
    requires DeletesOnly(a, b) && DeletesOnly(b, c)
    ensures DeletesOnly(a, c)
  {
    forall i | |a| <= i < |c| ensures StartsWith(c[i], "AT+CMGD=") {
      if i < |b| {
        assert c[i] == b[i];
      }
    }
  }

  /** `ProcessSms` keeps both caches' entries and writes nothing but a delete. */
  lemma ProcessSmsResult(env: Env, s: Session, item: SmsCacheItem)
    ensures var r := ProcessSmsS(env, s, item);
            s.smsCache <= r.1.smsCache && s.callerCache <= r.1.callerCache && DeletesOnly(s.sent, r.1.sent)
  {
    match MatchSmsIndex(item.command)
    case None =>
    case Some(digits) =>
      var index := DecimalValue(digits);
      if index <= Int32Max && env.parse(item.pdu).Some? {
        var parsed := env.parse(item.pdu).value;
        var s1 := if parsed.ok && s.onNewSms
                  then s.(events := s.events + [NewSms(parsed.out.from, parsed.out.datetime, parsed.out.message)])
                  else s;
        DeleteResult(env, s1, index);
      }
  }

  /** Writing a delete keeps both caches' entries and adds nothing but that delete. */
  lemma DeleteResult(env: Env, s: Session, index: nat)
    ensures var r := ExecuteS(env, s, DeleteCommand(index));
            s.smsCache <= r.1.smsCache && s.callerCache <= r.1.callerCache && DeletesOnly(s.sent, r.1.sent)
  {
    ExecuteResult(env, s, DeleteCommand(index));
    DeleteCommandPrefix(index);
    DeletesOnlyAppend(s.sent, if env.writeOk then [DeleteCommand(index)] else []);
  }

  lemma DeletesOnlyAppend(before: seq<string>, cmds: seq<string>)
    requires forall i :: 0 <= i < |cmds| ==> StartsWith(cmds[i], "AT+CMGD=")
    ensures DeletesOnly(before, before + cmds)
  {
    PrefixOfAppend(before, cmds);
    forall i | |before| <= i < |before + cmds| ensures StartsWith((before + cmds)[i], "AT+CMGD=") {
      assert (before + cmds)[i] == cmds[i - |before|];
    }
  }

  /**
   * A successful `ProcessCache` leaves both caches empty; a failed one leaves the
   * failing entry cached and the callers still cached. Only deletes are written.
   */
  lemma {:induction false} ProcessCacheResult(env: Env, s: Session)
    ensures var r := ProcessCacheS(env, s);
            (r.0 ==> r.1.smsCache == [] && r.1.callerCache == []) &&
            (!r.0 ==> r.1.smsCache != [] && s.callerCache <= r.1.callerCache) &&
            DeletesOnly(s.sent, r.1.sent)
    decreases Remaining(env, s), |s.smsCache|
  {
    if s.smsCache != [] {
      var (ok, s1) := ProcessSmsS(env, s, s.smsCache[0]);
      ProcessSmsResult(env, s, s.smsCache[0]);
      if ok {
        var s2 := s1.(smsCache := s1.smsCache[1..]);
        var r := ProcessCacheS(env, s2);
        ProcessCacheResult(env, s2);
        DeletesOnlyTransitive(s.sent, s2.sent, r.1.sent);
        assert s.callerCache <= s2.callerCache;
      }
    }
  }

  /** A run of commands writes a prefix of them, all of them when it succeeds. */
  lemma {:induction false} RunAllSends(env: Env, s: Session, cmds: seq<string>)
    ensures var r := RunAll(env, s, cmds);
            s.sent <= r.1.sent && r.1.sent[|s.sent|..] <= cmds && (r.0 ==> r.1.sent == s.sent + cmds)
    decreases |cmds|
  {
    if cmds != [] {
      var (ok, s1) := ExecuteS(env, s, cmds[0]);
      ExecuteResult(env, s, cmds[0]);
      if ok {
        var r := RunAll(env, s1, cmds[1..]);
        RunAllSends(env, s1, cmds[1..]);
        SentAfterFirst(s.sent, cmds, r.1.sent);
      } else {
        SentOfFirst(s.sent, cmds, s1.sent);
      }
    }
  }

  /** What a run has written, once the first command went out and the rest of the run is accounted for. */
  lemma SentAfterFirst(before: seq<string>, cmds: seq<string>, after: seq<string>)
    requires cmds != [] && before + [cmds[0]] <= after && after[|before| + 1..] <= cmds[1..]
    ensures before <= after && after[|before|..] <= cmds
    ensures after == before + [cmds[0]] + cmds[1..] ==> after == before + cmds
  {
    assert after[..|before|] == before;
    assert after[|before|..] == [cmds[0]] + after[|before| + 1..];
    AppendAssoc(before, [cmds[0]], cmds[1..]);
    assert [cmds[0]] + cmds[1..] == cmds;
  }

  /** A run that stopped at its first command has written at most that command. */
  lemma SentOfFirst(before: seq<string>, cmds: seq<string>, after: seq<string>)
    requires cmds != [] && (after == before || after == before + [cmds[0]])
    ensures before <= after && after[|before|..] <= cmds
  {
    PrefixOfAppend(before, [cmds[0]]);
    assert after[|before|..] == [] || after[|before|..] == [cmds[0]];
  }

  lemma NumberStepOrder(env: Env, s: Session)
    ensures var r := NumberStepS(env, s); r.0 ==> InitOrder(s.sent, r.1.sent, ["AT+CMGL=4"])
  {
    var (number, store) := Index(s.store, "+CNUM");
    if number != "" {
      var (ok1, s1) := ExecuteS(env, s.(store := store), "AT+CMGL=4");
      ExecuteResult(env, s.(store := store), "AT+CMGL=4");
      if ok1 {
        var (ok2, s2) := ProcessCacheS(env, s1);
        ProcessCacheResult(env, s1);
        if ok2 {
          var r := RunAll(env, s2, InitTail);
          RunAllSends(env, s2, InitTail);
          if r.0 {
            TailOrder(s.sent, s2.sent, r.1.sent);
          }
        }
      }
    }
  }

  lemma PinStepOrder(env: Env, s: Session)
    ensures var r := PinStepS(env, s); r.0 ==> InitOrder(s.sent, r.1.sent, InitSetup + ["AT+CMGL=4"])
  {
    var (pin, store) := Index(s.store, "+CPIN");
    if pin == "READY" {
      var (ok, s1) := RunAll(env, s.(store := store), InitSetup);
      RunAllSends(env, s.(store := store), InitSetup);
      if ok {
        var r := NumberStepS(env, s1);
        NumberStepOrder(env, s1);
        if r.0 {
          ExtendOrder(s.sent, InitSetup, r.1.sent, ["AT+CMGL=4"]);
        }
      }
    }
  }

  /**
   * A successful `Init` writes its commands in order: AT, ATE0, AT+CPIN?, AT+CMGF=0,
   * AT+CRC=1, AT+CNUM and AT+CMGL=4, then only deletes, then AT+CREG=1, AT+CLIP=1,
   * AT+CNMI=2 and AT+CREG?.
   */
  lemma InitSendsInOrder(env: Env, s: Session)
    ensures var r := InitS(env, s); r.0 ==> InitOrder(s.sent, r.1.sent, InitHead + (InitSetup + ["AT+CMGL=4"]))
  {
    var (ok, s1) := RunAll(env, s, InitHead);
    RunAllSends(env, s, InitHead);
    if ok {
      var r := PinStepS(env, s1);
      PinStepOrder(env, s1);
      if r.0 {
        ExtendOrder(s.sent, InitHead, r.1.sent, InitSetup + ["AT+CMGL=4"]);
      }
    }
  }

  /**
   * The loop only appends to what was written, starting with the listing AT+CMGL=4
   * when a "+CMTI" asked for it, and ends with success only when a read fails with
   * both caches processed.
   */
  lemma {:induction false} LoopResult(env: Env, s: Session)
    ensures var r := LoopS(env, s);
            s.sent <= r.1.sent &&
            (s.needCheckSms && env.writeOk ==> s.sent + ["AT+CMGL=4"] <= r.1.sent) &&
            (r.0 ==> r.1.smsCache == [] && r.1.callerCache == [] && ReadFailedLast(env, r.1))
    decreases Remaining(env, s)
  {
    var (ok2, s2) := TurnStartS(env, s);
    TurnStartResult(env, s);
    if ok2 {
      var (ok3, line, s3) := ReadLineS(env, s2);
      ReadLineResult(env, s2);
      if ok3 {
        var next := s3;
        if line.text != "" && MatchATResult(line.text).Some? {
          var (code, suffix) := MatchATResult(line.text).value;
          next := OnCommandS(env, s3, code, suffix, line.now, line.date);
          OnCommandFollows(env, s3, code, suffix, line.now, line.date);
        }
        LoopResult(env, next);
      }
    }
  }

  /** The start of a turn lists the messages when asked to; when it succeeds, both caches are empty. */
  lemma TurnStartResult(env: Env, s: Session)
    ensures var r := TurnStartS(env, s);
            s.sent <= r.1.sent &&
            (s.needCheckSms && env.writeOk ==> s.sent + ["AT+CMGL=4"] <= r.1.sent) &&
            (!s.needCheckSms ==> r == ProcessCacheS(env, s)) &&
            (r.0 ==> r.1.smsCache == [] && r.1.callerCache == [])
  {
    var (ok1, s1) := if s.needCheckSms then ExecuteS(env, s.(needCheckSms := false), "AT+CMGL=4") else (true, s);
    if s.needCheckSms {
      ExecuteResult(env, s.(needCheckSms := false), "AT+CMGL=4");
    }
    if ok1 {
      ProcessCacheResult(env, s1);
    }
  }

  /**
   * How the loop ends: in its last turn either the start (the listing or
   * `ProcessCache`) fails, and the loop returns false, or the start succeeds and
   * the read after it fails, and the loop returns true.
   */
  lemma {:induction false} LoopOutcome(env: Env, s: Session)
    ensures var (ok2, s2) := TurnStartS(env, LastTurn(env, s));
            var (ok3, _, s3) := ReadLineS(env, s2);
            LoopS(env, s) == (if ok2 then (true, s3) else (false, s2)) && (ok2 ==> !ok3)
    decreases Remaining(env, s)
  {
    var (ok2, s2) := TurnStartS(env, s);
    if ok2 {
      var (ok3, line, s3) := ReadLineS(env, s2);
      if ok3 {
        if line.text != "" && MatchATResult(line.text).Some? {
          var (code, suffix) := MatchATResult(line.text).value;
          LoopOutcome(env, OnCommandS(env, s3, code, suffix, line.now, line.date));
        } else {
          LoopOutcome(env, s3);
        }
      }
    }
  }

  /** A turn whose start succeeds and whose read then fails ends the loop with true. */
  lemma ReadFailureEndsLoop(env: Env, s: Session)
    requires TurnStartS(env, s).0 && !ReadLineS(env, TurnStartS(env, s).1).0
    ensures LoopS(env, s) == (true, ReadLineS(env, TurnStartS(env, s).1).2)
  {
  }

  /** `PerformLoop` returns true iff the initial AT succeeds and the start of the loop's last turn succeeds. */
  lemma PerformLoopOutcome(env: Env, s: Session)
    ensures var (ok, s1) := ExecuteS(env, s, "AT");
            PerformLoopS(env, s).0 <==> ok && TurnStartS(env, LastTurn(env, s1)).0
  {
    var (ok, s1) := ExecuteS(env, s, "AT");
    if ok {
      LoopOutcome(env, s1);
    }
  }

  /** `PerformLoop` succeeds only as the loop does. */
  lemma PerformLoopResult(env: Env, s: Session)
    ensures var r := PerformLoopS(env, s);
            s.sent <= r.1.sent && (r.0 ==> r.1.smsCache == [] && r.1.callerCache == [] && ReadFailedLast(env, r.1))
  {
    var (ok, s1) := ExecuteS(env, s, "AT");
    ExecuteResult(env, s, "AT");
    if ok {
      LoopResult(env, s1);
    }
  }

  // ---------------------------------------------------------------------------
  // Unsolicited result codes

  /** The store changes only for "+CPIN" (its value) and "+CNUM" (the matched number). */
  lemma OnCommandStore(env: Env, s: Session, code: string, value: string, now: int, date: string)
    ensures var t := OnCommandS(env, s, code, value, now, date);
            (code != "+CPIN" && code != "+CNUM" ==> t.store == s.store) &&
            (code == "+CPIN" ==> t == s.(store := s.store[code := value])) &&
            (code == "+CNUM" ==> t == match MatchSubscriberNumber(value)
                                      case Some(number) => s.(store := s.store[code := number])
                                      case None => s)
  {
    if code == "+CMGL" {
      ReadLineResult(env, s);
    } else if code == "+CLIP" {
      assert CallerS(s, value, now, date).store == s.store;
    }
  }

  /** "+CMGL" reads exactly one more line and caches it with the listing value; a failed read caches nothing. */
  lemma ListingCachesNextLine(env: Env, s: Session, value: string, now: int, date: string)
    ensures var t := OnCommandS(env, s, "+CMGL", value, now, date);
            var (ok, line, s1) := ReadLineS(env, s);
            t.taken == s1.taken &&
            t.smsCache == s.smsCache + (if ok then [SmsCacheItem(value, line.text)] else []) &&
            t == s.(taken := t.taken, smsCache := t.smsCache)
  {
  }

  /** "+CMTI" only raises the flag that asks for a listing. */
  lemma NewMessageRaisesFlag(env: Env, s: Session, value: string, now: int, date: string)
    ensures OnCommandS(env, s, "+CMTI", value, now, date) == s.(needCheckSms := true)
  {
  }

  /** Codes other than these five ("+CREG", "+CRING", ...) are only printed. */
  lemma OtherCodesPrinted(env: Env, s: Session, code: string, value: string, now: int, date: string)
    requires code !in {"+CPIN", "+CNUM", "+CMGL", "+CMTI", "+CLIP"}
    ensures OnCommandS(env, s, code, value, now, date) == s
  {
  }

  /**
   * "+CLIP": a value without a caller ID changes nothing; otherwise the caller is
   * appended to the cache exactly when it is new or its last call is more than 60
   * whole seconds back, and it becomes the recent caller either way.
   */
  lemma CallerDedup(env: Env, s: Session, value: string, now: int, date: string)
    ensures var t := OnCommandS(env, s, "+CLIP", value, now, date);
            match MatchCallerId(value)
            case None => t == s
            case Some(caller) =>
              t.recentCaller == caller && t.recentCallerTime == now &&
              (NewCall(s, caller, now) ==> t.callerCache == s.callerCache + [CallerCacheItem(caller, date)]) &&
              (!NewCall(s, caller, now) ==> t.callerCache == s.callerCache) &&
              t == s.(callerCache := t.callerCache, recentCaller := caller, recentCallerTime := now)
  {
  }

  /** A call is new when the caller differs or more than 60 whole seconds have passed since the recent call. */
  lemma RepeatWindow(s: Session, caller: string, now: int)
    ensures NewCall(s, caller, now) <==>
            caller != s.recentCaller || TruncDiv(now - s.recentCallerTime, TicksPerSecond) > 60
  {
  }

  /** The same caller 30 seconds later is not cached again; 61 seconds after that, it is. */
  lemma CallerRepeatExample(env: Env, s: Session)
    requires s.recentCaller == "" && s.callerCache == []
    ensures var v := "\"+4312345\",145";
            var t1 := OnCommandS(env, s, "+CLIP", v, 0, "d1");
            var t2 := OnCommandS(env, t1, "+CLIP", v, 30 * TicksPerSecond, "d2");
            var t3 := OnCommandS(env, t2, "+CLIP", v, 91 * TicksPerSecond, "d3");
            t2.callerCache == [CallerCacheItem("+4312345", "d1")] &&
            t3.callerCache == [CallerCacheItem("+4312345", "d1"), CallerCacheItem("+4312345", "d3")]
  {
    var v := "\"+4312345\",145";
    CallerIdRoundTrip("\"", "+4312345", "\"", "145");
    assert "\"" + "+4312345" + "\"" + "," + "145" == v;
    var t1 := OnCommandS(env, s, "+CLIP", v, 0, "d1");
    CallerDedup(env, s, v, 0, "d1");
    var t2 := OnCommandS(env, t1, "+CLIP", v, 30 * TicksPerSecond, "d2");
    CallerDedup(env, t1, v, 30 * TicksPerSecond, "d2");

    CallerDedup(env, t2, v, 91 * TicksPerSecond, "d3");

  }

  // ---------------------------------------------------------------------------
  // Commands

  /** A write that fails ends the command at once. */
  lemma ExecuteWriteFails(env: Env, s: Session, cmd: string)
    requires !env.writeOk
    ensures ExecuteS(env, s, cmd) == (false, s)
  {
  }

  /** A line the reply loop passes over: empty, the echo, or neither a result code nor a status. */
  predicate Skipped(cmd: string, line: Incoming)
  {
    line.Received? &&
    (line.text == "" || line.text == cmd ||
     (MatchATResult(line.text).None? && line.text != "OK" && line.text != "ERROR"))
  }

  /**
   * A reply made of skipped lines and then "OK" or "ERROR" gives success for "OK"
   * and failure for "ERROR", with every one of its lines read and nothing else changed.
   */
  lemma {:induction false} ReplyStatus(env: Env, s: Session, cmd: string, k: nat)
    requires s.taken <= k < |env.input|
    requires forall i :: s.taken <= i < k ==> Skipped(cmd, env.input[i])
    requires env.input[k].Received? && env.input[k].text in {"OK", "ERROR"} && env.input[k].text != cmd
    ensures ExecLoop(env, s, cmd) == (env.input[k].text == "OK", s.(taken := k + 1))
    decreases k - s.taken
  {
    if s.taken < k {
      SkipStep(env, s, cmd);
      ReplyStatus(env, s.(taken := s.taken + 1), cmd, k);
      assert s.(taken := s.taken + 1).(taken := k + 1) == s.(taken := k + 1);
    } else {
      ATResultNeedsPlus(env.input[k].text);
    }
  }

  /** A skipped line is read and nothing else happens. */
  lemma SkipStep(env: Env, s: Session, cmd: string)
    requires s.taken < |env.input| && Skipped(cmd, env.input[s.taken])
    ensures ExecLoop(env, s, cmd) == ExecLoop(env, s.(taken := s.taken + 1), cmd)
  {
  }

  /** A result code in a reply is handed to `OnCommand`, and the reply goes on. */
  lemma ReplyDispatches(env: Env, s: Session, cmd: string, code: string, suffix: string)
    requires s.taken < |env.input| && env.input[s.taken].Received?
    requires var text := env.input[s.taken].text; text != "" && text != cmd && MatchATResult(text) == Some((code, suffix))
    ensures var line := env.input[s.taken];
            ExecLoop(env, s, cmd) ==
              ExecLoop(env, OnCommandS(env, s.(taken := s.taken + 1), code, suffix, line.now, line.date), cmd)
  {
  }

  /** The command round trip: a command answered by its echo and "OK" succeeds. */
  lemma EchoThenOK(env: Env, s: Session, cmd: string)
    requires env.writeOk && cmd != "OK"
    requires s.taken + 2 <= |env.input|
    requires env.input[s.taken].Received? && (env.input[s.taken].text == cmd || env.input[s.taken].text == "")
    requires env.input[s.taken + 1].Received? && env.input[s.taken + 1].text == "OK"
    ensures ExecuteS(env, s, cmd) == (true, s.(taken := s.taken + 2, sent := s.sent + [cmd]))
  {
    ReplyStatus(env, s.(sent := s.sent + [cmd]), cmd, s.taken + 1);
  }

  // ---------------------------------------------------------------------------
  // Messages

  /** A listing line without an index is skipped: nothing is deleted and nothing changes. */
  lemma NoIndexIgnored(env: Env, s: Session, item: SmsCacheItem)
    requires MatchSmsIndex(item.command).None?
    ensures ProcessSmsS(env, s, item) == (true, s)
  {
  }

  /** An index beyond `int`, or a PDU the decoder throws on, leaves the session by an exception. */
  lemma ProcessSmsThrows(env: Env, s: Session, item: SmsCacheItem, digits: string)
    requires MatchSmsIndex(item.command) == Some(digits)
    requires DecimalValue(digits) > Int32Max || env.parse(item.pdu).None?
    ensures ProcessSmsS(env, s, item) == (false, s.(aborted := true))
  {
  }

  /**
   * With an index, the message is deleted whether or not it parsed; `OnNewSms` is
   * called only for a parsed message and only when it is set; the result is the
   * delete's.
   */
  lemma ProcessSmsDeletes(env: Env, s: Session, item: SmsCacheItem, digits: string)
    requires MatchSmsIndex(item.command) == Some(digits)
    requires DecimalValue(digits) <= Int32Max && env.parse(item.pdu).Some?
    ensures var parsed := env.parse(item.pdu).value;
            var r := ProcessSmsS(env, s, item);
            r.1.sent == s.sent + (if env.writeOk then [DeleteCommand(DecimalValue(digits))] else []) &&
            r.1.events == s.events + (if parsed.ok && s.onNewSms
                                      then [NewSms(parsed.out.from, parsed.out.datetime, parsed.out.message)]
                                      else []) &&
            (r.0 ==> EndedWith(env, r.1, "OK"))
  {
    var parsed := env.parse(item.pdu).value;
    var s1 := if parsed.ok && s.onNewSms
              then s.(events := s.events + [NewSms(parsed.out.from, parsed.out.datetime, parsed.out.message)])
              else s;
    ExecuteResult(env, s1, DeleteCommand(DecimalValue(digits)));
  }

  /** The message deleted is the one listed: index n in the listing line gives `AT+CMGD=n`. */
  lemma DeletesListedIndex(env: Env, s: Session, n: nat, rest: string, pdu: string)
    requires n <= Int32Max && env.parse(pdu).Some? && env.writeOk
    ensures ProcessSmsS(env, s, SmsCacheItem(NatToDecimal(n) + "," + rest, pdu)).1.sent ==
            s.sent + ["AT+CMGD=" + NatToDecimal(n)]
  {
    SmsIndexRoundTrip(NatToDecimal(n), rest);
    DecimalRoundTrip(n);
    ProcessSmsDeletes(env, s, SmsCacheItem(NatToDecimal(n) + "," + rest, pdu), NatToDecimal(n));
  }

  /** No entry of the cache has an index. */
  predicate NoIndices(items: seq<SmsCacheItem>)
  {
    forall i :: 0 <= i < |items| ==> MatchSmsIndex(items[i].command).None?
  }

  /** Entries without an index are dropped one by one; then the callers are drained. */
  lemma {:induction false} UnindexedDropped(env: Env, s: Session)
    requires NoIndices(s.smsCache)
    ensures ProcessCacheS(env, s) == (true, DrainCallers(s.(smsCache := [])))
    decreases |s.smsCache|
  {
    if s.smsCache != [] {
      NoIndexIgnored(env, s, s.smsCache[0]);
      var s1 := s.(smsCache := s.smsCache[1..]);
      assert NoIndices(s1.smsCache) by {
        forall i | 0 <= i < |s1.smsCache| ensures MatchSmsIndex(s1.smsCache[i].command).None? {
          assert s1.smsCache[i] == s.smsCache[i + 1];
        }
      }
      UnindexedDropped(env, s1);
    }
  }

  /**
   * A failing entry stops `ProcessCache` with that entry still at the head of the
   * cache and the cached callers not handed out.
   */
  lemma FailureKeepsEntry(env: Env, s: Session)
    requires s.smsCache != [] && !ProcessSmsS(env, s, s.smsCache[0]).0
    ensures var s1 := ProcessSmsS(env, s, s.smsCache[0]).1;
            ProcessCacheS(env, s) == (false, s1) &&
            s1.smsCache[0] == s.smsCache[0] && s.callerCache <= s1.callerCache &&
            DeletesOnly(s.sent, s1.sent)
  {
    ProcessSmsResult(env, s, s.smsCache[0]);
  }

  // ---------------------------------------------------------------------------
  // Start-up and the loop

  /** `Init` fails unless the PIN state read by AT+CPIN? is "READY", and sends nothing more. */
  lemma InitNeedsReadyPin(env: Env, s: Session)
    requires RunAll(env, s, InitHead).0
    requires Index(RunAll(env, s, InitHead).1.store, "+CPIN").0 != "READY"
    ensures !InitS(env, s).0 && InitS(env, s).1.sent == s.sent + InitHead
  {
    RunAllSends(env, s, InitHead);
  }

  /** `Init` fails when AT+CNUM gave no subscriber number, before the listing is asked for. */
  lemma InitNeedsNumber(env: Env, s: Session, s1: Session, s3: Session)
    requires RunAll(env, s, InitHead) == (true, s1)
    requires Index(s1.store, "+CPIN").0 == "READY"
    requires RunAll(env, s1.(store := Index(s1.store, "+CPIN").1), InitSetup) == (true, s3)
    requires Index(s3.store, "+CNUM").0 == ""
    ensures !InitS(env, s).0 && InitS(env, s).1.sent == s.sent + InitHead + InitSetup
  {
    RunAllSends(env, s, InitHead);
    RunAllSends(env, s1.(store := Index(s1.store, "+CPIN").1), InitSetup);
  }

  /** The network state's message does not depend on the mode that a query reply puts before it. */
  lemma NetworkStateOfQuery(mode: string, state: string)
    requires ',' !in mode && ',' !in state
    ensures NetworkStateMessage(mode + "," + state) == NetworkStateMessage(state)
  {
    var value := mode + "," + state;
    SpanAt(value, 0, |mode|, NotComma);
    SpanAt(state, 0, |state|, NotComma);
    assert value[|mode| + 1..] == state;
  }

  /** Every state other than 0, 1 and 2 is printed as it came. */
  lemma OtherStatesPassThrough(state: string)
    requires ',' !in state && state != "0" && state != "1" && state != "2"
    ensures NetworkStateMessage(state) == "Network state change: " + state
  {
    SpanAt(state, 0, |state|, NotComma);
    Shared.EqualIsEquality("0", state);
    Shared.EqualIsEquality("1", state);
    Shared.EqualIsEquality("2", state);
  }

  /** The three named states. */
  lemma NetworkStateNames()
    ensures NetworkStateMessage("1,0") == "Network state change: Disconnected"
    ensures NetworkStateMessage("1") == "Network state change: Connected"
    ensures NetworkStateMessage("0,2") == "Network state change: Searching..."
    ensures NetworkStateMessage("5") == "Network state change: 5"
  {
    NetworkStateOfQuery("1", "0");
    NetworkStateOfQuery("0", "2");
    SingleDigitStates();
  }

  /** A state on its own, without a mode before it. */
  lemma SingleDigitStates()
    ensures NetworkStateMessage("0") == "Network state change: Disconnected"
    ensures NetworkStateMessage("1") == "Network state change: Connected"
    ensures NetworkStateMessage("2") == "Network state change: Searching..."
    ensures NetworkStateMessage("5") == "Network state change: 5"
  {
    assert Span("0", 0, NotComma) == 1;
    assert Span("1", 0, NotComma) == 1;
    assert Span("2", 0, NotComma) == 1;
    assert Span("5", 0, NotComma) == 1;
  }

  /** After a "+CNUM" reply, `GetSubscriberNumber` yields the number the reply matched. */
  lemma SubscriberNumberStored(env: Env, s: Session, value: string, number: string, now: int, date: string)
    requires MatchSubscriberNumber(value) == Some(number)
    ensures SubscriberNumberS(OnCommandS(env, s, "+CNUM", value, now, date)).0 == number
  {
  }

  /** Reading the subscriber number adds at most an empty entry, and never changes a stored one. */
  lemma SubscriberNumberReads(s: Session)
    ensures var (number, t) := SubscriberNumberS(s);
            (number == if "+CNUM" in s.store then s.store["+CNUM"] else "") &&
            t.store.Keys == s.store.Keys + {"+CNUM"} && forall k :: k in s.store ==> t.store[k] == s.store[k]
  {
  }

  /** One turn of the caller-draining loop. */
  lemma DrainOne(s: Session)
    requires s.callerCache != []
    ensures var head := s.callerCache[0];
            DrainCallers(s) == DrainCallers(s.(callerCache := s.callerCache[1..],
                                               events := s.events + if s.onNewCaller then [NewCaller(head.caller, head.date)] else []))
  {
    var first := if s.onNewCaller then [NewCaller(s.callerCache[0].caller, s.callerCache[0].date)] else [];
    var rest := if s.onNewCaller then CallerEvents(s.callerCache[1..]) else [];
    assert (if s.onNewCaller then CallerEvents(s.callerCache) else []) == first + rest;
    AppendAssoc(s.events, first, rest);
  }
}
