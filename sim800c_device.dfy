/**
 * The `SIM800C` object: the session's fields, updated in place by methods that
 * follow the source's control flow, each proved to compute the session function
 * of the same name in `Sim800c`.
 */
module Sim800cDevice {
  import opened Common
  import opened AtPatterns
  import opened Sim800c
  import GsmPdu

  /**
   * A SIM800C modem on a serial port. `input` is what the port's reads will yield
   * in order and `writeOk` whether its writes succeed; `currentYear` and `ucs2`
   * are what the PDU decoder needs from its surroundings.
   */
  class SIM800C {
    var store: map<string, string>
    var smsCache: seq<SmsCacheItem>
    var needCheckSms: bool
    var callerCache: seq<CallerCacheItem>
    var recentCaller: string
    var recentCallerTime: int
    /** Whether `OnNewSms` and `OnNewCaller` are set. */
    var onNewSms: bool
    var onNewCaller: bool

    const input: seq<Incoming>
    const writeOk: bool
    const currentYear: nat
    const ucs2: seq<int> -> string
    /** `ParseGsmPDU` as the object calls it, see `UsesDecoder`. */
    const parse: string -> Option<GsmPdu.PduResult>
    /** Reads made so far, commands written, callbacks made. */
    var taken: nat
    var sent: seq<string>
    var events: seq<Event>
    /** An exception has left the object. */
    var aborted: bool

    /** `parse` is the current revision's `ParseGsmPDU`, called with empty outputs. */
    ghost predicate UsesDecoder()
    {
      forall pdu {:trigger GsmPdu.ParsePdu(Current, pdu, currentYear, ucs2, GsmPdu.Outputs("", "", ""))} ::
        parse(pdu) == GsmPdu.ParsePdu(Current, pdu, currentYear, ucs2, GsmPdu.Outputs("", "", ""))
    }

    function Environment(): Env
    {
      Env(input, writeOk, parse)
    }

    function State(): Session
      reads this
    {
      Session(store, smsCache, needCheckSms, callerCache, recentCaller, recentCallerTime,
              onNewSms, onNewCaller, taken, sent, events, aborted)
    }

    /** The recent caller starts empty, seen at `startTime`; no callback is set. */
    constructor(input: seq<Incoming>, writeOk: bool, currentYear: nat, ucs2: seq<int> -> string, startTime: int)
      ensures this.input == input && this.writeOk == writeOk
      ensures this.currentYear == currentYear && this.ucs2 == ucs2 && UsesDecoder()
      ensures State() == Session(map[], [], false, [], "", startTime, false, false, 0, [], [], false)
    {
      this.input := input;
      this.writeOk := writeOk;
      this.currentYear := currentYear;
      this.ucs2 := ucs2;
      this.parse := pdu => GsmPdu.ParsePdu(Current, pdu, currentYear, ucs2, GsmPdu.Outputs("", "", ""));
      store := map[];
      smsCache := [];
      needCheckSms := false;
      callerCache := [];
      recentCaller := "";
      recentCallerTime := startTime;
      onNewSms := false;
      onNewCaller := false;
      taken := 0;
      sent := [];
      events := [];
      aborted := false;
    }

    method WriteLine(cmd: string) returns (ok: bool)
      modifies this
      ensures (ok, State()) == WriteS(Environment(), old(State()), cmd)
    {
      ok := writeOk;
      if ok {
        sent := sent + [cmd];
      }
    }

    method ReadLine() returns (ok: bool, line: Incoming)
      modifies this
      ensures (ok, line, State()) == ReadLineS(Environment(), old(State()))
    {
      if taken >= |input| {
        return false, Failed;
      }
      line := input[taken];
      taken := taken + 1;
      ok := line.Received?;
    }

    /** `now` and `date` are the clock readings taken while handling the code. */
    method OnCommand(code: string, value: string, now: int, date: string)
      modifies this
      ensures State() == OnCommandS(Environment(), old(State()), code, value, now, date)
    {
      if code == "+CPIN" {
        store := store[code := value];
      } else if code == "+CNUM" {
        var number := MatchSubscriberNumber(value);
        if number.Some? {
          store := store[code := number.value];
        }
      } else if code == "+CMGL" {
        OnListing(value);
      } else if code == "+CMTI" {
        needCheckSms := true;
      } else if code == "+CLIP" {
        OnCaller(value, now, date);
      }
    }

    /** The "+CMGL" branch of `OnCommand`. */
    method OnListing(value: string)
      modifies this
      ensures State() == ListingS(Environment(), old(State()), value)
    {
      var ok, line := ReadLine();
      if ok {
        smsCache := smsCache + [SmsCacheItem(value, line.text)];
      }
    }

    /** The "+CLIP" branch of `OnCommand`. */
    method OnCaller(value: string, now: int, date: string)
      modifies this
      ensures State() == CallerS(old(State()), value, now, date)
    {
      var caller := MatchCallerId(value);
      if caller.Some? {
        RepeatWindow(State(), caller.value, now);
        if recentCaller != caller.value || TruncDiv(now - recentCallerTime, TicksPerSecond) > 60 {
          callerCache := callerCache + [CallerCacheItem(caller.value, date)];
        }
        recentCaller := caller.value;
        recentCallerTime := now;
      }
    }

    method ExecuteATCommand(cmd: string) returns (ok: bool)
      modifies this
      ensures (ok, State()) == ExecuteS(Environment(), old(State()), cmd)
    {
      ok := WriteLine(cmd);
      if !ok {
        return;
      }
      ghost var goal := ExecLoop(Environment(), State(), cmd);
      while true
        invariant ExecLoop(Environment(), State(), cmd) == goal
        decreases Remaining(Environment(), State())
      {
        var got, line := ReadLine();
        if !got {
          return false;
        }
        if line.text == "" || line.text == cmd {
          continue;
        }
        var result := MatchATResult(line.text);
        if result.Some? {
          OnCommand(result.value.0, result.value.1, line.now, line.date);
        } else if line.text == "OK" {
          return true;
        } else if line.text == "ERROR" {
          return false;
        }
      }
    }

    method ProcessSms(command: string, pdu: string) returns (ok: bool)
      requires UsesDecoder()
      modifies this
      ensures (ok, State()) == ProcessSmsS(Environment(), old(State()), SmsCacheItem(command, pdu))
    {
      var digits := MatchSmsIndex(command);
      if digits.None? {
        return true;
      }
      var index := DecimalValue(digits.value);
      if index > Int32Max {
        aborted := true;
        return false;
      }
      var parsed := GsmPdu.ParseGsmPDU(Current, pdu, currentYear, ucs2, GsmPdu.Outputs("", "", ""));
      if parsed.None? {
        aborted := true;
        return false;
      }
      if parsed.value.ok && onNewSms {
        var out := parsed.value.out;
        events := events + [NewSms(out.from, out.datetime, out.message)];
      }
      ok := ExecuteATCommand(DeleteCommand(index));
    }

    method ProcessCache() returns (ok: bool)
      requires UsesDecoder()
      modifies this
      ensures (ok, State()) == ProcessCacheS(Environment(), old(State()))
    {
      ghost var goal := ProcessCacheS(Environment(), State());
      while smsCache != []
        invariant ProcessCacheS(Environment(), State()) == goal
        decreases Remaining(Environment(), State()), |smsCache|
      {
        ok := ProcessSms(smsCache[0].command, smsCache[0].pdu);
        if !ok {
          return;
        }
        smsCache := smsCache[1..];
      }
      NotifyCallers();
      return true;
    }

    /** The second loop of `ProcessCache`: each cached caller goes to `OnNewCaller`, when set, and is erased. */
    method NotifyCallers()
      modifies this
      ensures State() == DrainCallers(old(State()))
    {
      ghost var goal := DrainCallers(State());
      while callerCache != []
        invariant goal == DrainCallers(State())
      {
        ghost var before := State();
        if onNewCaller {
          events := events + [NewCaller(callerCache[0].caller, callerCache[0].date)];
        }
        callerCache := callerCache[1..];
        DrainOne(before);
      }
      assert State() == DrainCallers(State());
    }

    /**
     * `Init`, in the stages of `InitS`: a run of commands, the PIN check, a run of
     * commands, the number check, the listing, `ProcessCache` and a last run.
     */
    method Init() returns (ok: bool)
      requires UsesDecoder()
      modifies this
      ensures (ok, State()) == InitS(Environment(), old(State()))
    {
      ok := RunCommands(InitHead);
      if !ok { return; }
      ok := PinStep();
    }

    method PinStep() returns (ok: bool)
      requires UsesDecoder()
      modifies this
      ensures (ok, State()) == PinStepS(Environment(), old(State()))
    {
      var pin := Index(store, "+CPIN");
      store := pin.1;
      if pin.0 != "READY" {
        return false;
      }
      ok := RunCommands(InitSetup);
      if !ok { return; }
      ok := NumberStep();
    }

    method NumberStep() returns (ok: bool)
      requires UsesDecoder()
      modifies this
      ensures (ok, State()) == NumberStepS(Environment(), old(State()))
    {
      var number := GetSubscriberNumber();
      if number == "" {
        return false;
      }
      ok := ExecuteATCommand("AT+CMGL=4");
      if !ok { return; }
      ok := ProcessCache();
      if !ok { return; }
      ok := RunCommands(InitTail);
    }

    /** `ExecuteATCommand` for each command in turn, stopping at the first that fails. */
    method RunCommands(cmds: seq<string>) returns (ok: bool)
      modifies this
      ensures (ok, State()) == RunAll(Environment(), old(State()), cmds)
    {
      ghost var goal := RunAll(Environment(), State(), cmds);
      var i := 0;
      while i < |cmds|
        invariant i <= |cmds| && RunAll(Environment(), State(), cmds[i..]) == goal
      {
        ok := ExecuteATCommand(cmds[i]);
        if !ok { return; }
        i := i + 1;
      }
      return true;
    }

    method PerformLoop() returns (ok: bool)
      requires UsesDecoder()
      modifies this
      ensures (ok, State()) == PerformLoopS(Environment(), old(State()))
    {
      ok := ExecuteATCommand("AT");
      if !ok {
        return;
      }
      ghost var goal := LoopS(Environment(), State());
      while true
        invariant LoopS(Environment(), State()) == goal
        decreases Remaining(Environment(), State())
      {
        ok := TurnStart();
        if !ok {
          return;
        }
        var got, line := ReadLine();
        if !got {
          return true;
        }
        if line.text == "" {
          continue;
        }
        var result := MatchATResult(line.text);
        if result.Some? {
          OnCommand(result.value.0, result.value.1, line.now, line.date);
        }
      }
    }

    /** The start of each turn of `PerformLoop`: the listing a "+CMTI" asked for, then `ProcessCache`. */
    method TurnStart() returns (ok: bool)
      requires UsesDecoder()
      modifies this
      ensures (ok, State()) == TurnStartS(Environment(), old(State()))
    {
      if needCheckSms {
        needCheckSms := false;
        ok := ExecuteATCommand("AT+CMGL=4");
        if !ok {
          return;
        }
      }
      ok := ProcessCache();
    }

    method GetSubscriberNumber() returns (number: string)
      modifies this
      ensures (number, State()) == SubscriberNumberS(old(State()))
    {
      var r := Index(store, "+CNUM");
      number := r.0;
      store := r.1;
    }
  }

}
