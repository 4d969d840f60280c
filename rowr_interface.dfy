/**
  The session object of lib/rowr_interface.rb. The serial port is its closed flag and the
  frames written to it; the line `read` returns and every `Time.now` reading are arguments;
  callbacks are handles, and each invocation is appended to `notifications`.
*/
module RowrSession {
  import opened Text
  import opened Console
  import opened RowrProtocol

  class RowrInterface {
    /** Every frame written to the port, one entry per `@port.write`. */
    var sent: seq<string>
    var portClosed: bool
    var closing: bool
    var lastUpdate: int
    var lastStrokeStart: int
    var lastStrokeEnd: int
    var data: map<string, nat>
    var strokeCallback: Option<nat>
    var resetCallback: Option<nat>
    var notifications: seq<Notification>

    /** `end` closes the port and latches `@closing` together, and `@data` holds only catalogued counters. */
    ghost predicate Valid()
      reads this
    {
      portClosed == closing && data.Keys <= CounterNames()
    }

    function Times(): StrokeTimes
      reads this`lastStrokeStart, this`lastStrokeEnd
    {
      StrokeTimes(lastStrokeStart, lastStrokeEnd)
    }

    /** `initialize` followed by `start`: every timestamp is `now`, the port is open and `USB` is written. */
    constructor Start(now: int)
      ensures Valid()
      ensures sent == [Frame(COMMAND_START)] && !portClosed && !closing
      ensures lastUpdate == now && Times() == StrokeTimes(now, now) && data == map[]
      ensures strokeCallback == None && resetCallback == None && notifications == []
    {
      lastUpdate, lastStrokeStart, lastStrokeEnd := now, now, now;
      data := map[];
      closing := false;
      strokeCallback, resetCallback := None, None;
      notifications := [];
      portClosed := false;
      sent := [];
      new;
      Write(COMMAND_START);
    }

    /** `each_stroke`: the last registration wins; a call without a block (`None`) removes the callback. */
    method EachStroke(handler: Option<nat>)
      modifies this`strokeCallback
      ensures strokeCallback == handler
    {
      strokeCallback := handler;
    }

    /** `on_reset`: the last registration wins; a call without a block (`None`) removes the callback. */
    method OnReset(handler: Option<nat>)
      modifies this`resetCallback
      ensures resetCallback == handler
    {
      resetCallback := handler;
    }

    /** `current_status`: a copy of `@data`; later updates of `@data` do not reach it. */
    method CurrentStatus() returns (snapshot: map<string, nat>)
      requires Valid()
      ensures snapshot == data && snapshot.Keys <= CounterNames()
    {
      snapshot := data;
    }

    /** `end`: `EXIT` is written while the port is still open, then `@closing` is latched and the port closed. */
    method End()
      requires Valid()
      modifies this`sent, this`closing, this`portClosed
      ensures Valid()
      ensures sent == old(sent) + (if old(portClosed) then [] else [Frame(COMMAND_EXIT)])
      ensures closing && portClosed
    {
      Write(COMMAND_EXIT);
      closing := true;
      portClosed := true;
    }

    /** `write`: the command and CR-LF when the port is open; dropped when it is closed. */
    method Write(command: string)
      modifies this`sent
      ensures sent == old(sent) + (if portClosed then [] else [command + "\r\n"])
    {
      if !portClosed {
        sent := sent + [Frame(command)];
      }
    }

    /** `read`: the line the console sends, or `nil` once the port is closed. */
    method Read(incoming: string) returns (line: Option<string>)
      ensures portClosed ==> line == None
      ensures !portClosed ==> line == Some(incoming)
    {
      line := if portClosed then None else Some(incoming);
    }

    /**
      The shared body of `request_data_16_bit` and `request_data_24_bit`: look `name` up in
      catalogue `t` and write `command` followed by its address, or nothing for a name `t` does not list.
    */
    method RequestData(command: string, t: Table, name: string)
      modifies this`sent
      ensures Request(command, t, name).Some? && !portClosed ==> sent == old(sent) + [Frame(Request(command, t, name).value)]
      ensures Request(command, t, name).None? || portClosed ==> sent == old(sent)
    {
      var location := Lookup(t, name);
      if location.Some? {
        Write(command + location.value);
      }
    }

    /** `request_data_16_bit`: one `IRD` request for a catalogued 16-bit name, nothing for any other name. */
    method RequestData16Bit(name: string)
      modifies this`sent
      ensures Request16(name).Some? && !portClosed ==> sent == old(sent) + [Frame(Request16(name).value)]
      ensures Request16(name).None? || portClosed ==> sent == old(sent)
    {
      RequestData(COMMAND_READ_DATA_16_BIT, MEMORY_LOCATIONS_16_BIT, name);
    }

    /** `request_data_24_bit`: one `IRT` request for a catalogued 24-bit name, nothing for any other name. */
    method RequestData24Bit(name: string)
      modifies this`sent
      ensures Request24(name).Some? && !portClosed ==> sent == old(sent) + [Frame(Request24(name).value)]
      ensures Request24(name).None? || portClosed ==> sent == old(sent)
    {
      RequestData(COMMAND_READ_DATA_24_BIT, MEMORY_LOCATIONS_24_BIT, name);
    }

    /** One of the two `each` loops of `query!`: a request per entry of `t`, in catalogue order. */
    method RequestEach(command: string, t: Table)
      requires UniqueNames(t)
      modifies this`sent
      ensures sent == old(sent) + (if portClosed then [] else Framed(RequestsFor(command, t)))
    {
      var i := 0;
      while i < |t|
        invariant 0 <= i <= |t|
        invariant sent == old(sent) + (if portClosed then [] else Framed(RequestsFor(command, t[..i])))
      {
        RequestsForStep(command, t, i);
        FramedAppend(RequestsFor(command, t[..i]), [command + t[i].1]);
        RequestData(command, t, t[i].0);
        i := i + 1;
      }
      assert t[..i] == t;
    }

    /** `query!`: one request per catalogued register, the 16-bit table first, each in table order. */
    method Query()
      modifies this`sent
      ensures sent == old(sent) + (if portClosed then [] else Framed(QueryCommands()))
    {
      assert UniqueNames(MEMORY_LOCATIONS_16_BIT) && UniqueNames(MEMORY_LOCATIONS_24_BIT);
      RequestEach(COMMAND_READ_DATA_16_BIT, MEMORY_LOCATIONS_16_BIT);
      RequestEach(COMMAND_READ_DATA_24_BIT, MEMORY_LOCATIONS_24_BIT);
      FramedAppend(RequestsFor(COMMAND_READ_DATA_16_BIT, MEMORY_LOCATIONS_16_BIT), RequestsFor(COMMAND_READ_DATA_24_BIT, MEMORY_LOCATIONS_24_BIT));
    }

    /** `query_if_necessary`: poll and move `@last_update` to `now` once strictly more than the interval has passed. */
    method QueryIfNecessary(now: int) returns (polled: bool)
      modifies this`sent, this`lastUpdate
      ensures polled == PollDue(now, old(lastUpdate))
      ensures lastUpdate == if polled then now else old(lastUpdate)
      ensures sent == old(sent) + (if polled && !portClosed then Framed(QueryCommands()) else [])
    {
      polled := PollDue(now, lastUpdate);
      if polled {
        Query();
        lastUpdate := now;
      }
    }

    /** `parse_and_update_internals`: classify the line read at `now` and apply its effect. */
    method ParseAndUpdateInternals(line: Option<string>, now: int)
      requires Valid()
      modifies this`data, this`lastStrokeStart, this`lastStrokeEnd, this`notifications
      ensures Valid()
      ensures data == UpdateCounters(old(data), DecodeRead(line))
      ensures Times() == Track(old(Times()), DecodeRead(line), now)
      ensures notifications == old(notifications) + Dispatch(Times(), DecodeRead(line), strokeCallback, resetCallback)
    {
      match DecodeRead(line)
      case Pulse =>
      case StrokeStart =>
        lastStrokeStart := now;
      case StrokeEnd =>
        lastStrokeEnd := now;
        NotifyOfStroke();
      case RegisterData(selector, address, payload) =>
        var dataType := RegisterTarget(selector, address);
        if dataType.Some? {
          RegisterTargetIsCounter(selector, address);
          data := data[dataType.value := Hex.ParseHex(payload)];
        }
      case ErrorNotice =>
      case ResetAcknowledged =>
        if resetCallback.Some? {
          notifications := notifications + [ResetNotified(resetCallback.value)];
        }
      case Unrecognized =>
    }

    /** `notify_of_stroke`: report `@last_stroke_end - @last_stroke_start` when a stroke callback is registered. */
    method NotifyOfStroke()
      modifies this`notifications
      ensures strokeCallback.Some? ==> notifications == old(notifications) + [StrokeCompleted(strokeCallback.value, lastStrokeEnd - lastStrokeStart)]
      ensures strokeCallback.None? ==> notifications == old(notifications)
    {
      if strokeCallback.Some? {
        var timeForStroke := lastStrokeEnd - lastStrokeStart;
        notifications := notifications + [StrokeCompleted(strokeCallback.value, timeForStroke)];
      }
    }

    /** `@last_update` and the frames written after the polls of the ticks in `done`. */
    ghost predicate PollsReached(lastUpdate0: int, sent0: seq<string>, done: seq<Tick>)
      reads this`lastUpdate, this`sent
    {
      && lastUpdate == LastOf(lastUpdate0, PollTimes(lastUpdate0, done))
      && sent == sent0 + Repeat(Framed(QueryCommands()), |PollTimes(lastUpdate0, done)|)
    }

    /** `@data`, the stroke times and the callback invocations after the lines of the ticks in `done`. */
    ghost predicate LinesReached(data0: map<string, nat>, times0: StrokeTimes, notifications0: seq<Notification>, done: seq<Tick>)
      reads this`data, this`lastStrokeStart, this`lastStrokeEnd, this`notifications, this`strokeCallback, this`resetCallback
    {
      && data == CountersAfter(data0, done)
      && Times() == TimesAfter(times0, done)
      && notifications == notifications0 + NotificationsAfter(times0, strokeCallback, resetCallback, done)
    }

    /**
      The state `main_loop` reaches from (`lastUpdate0`, `sent0`, `data0`, `times0`,
      `notifications0`) by handling the ticks in `done`.
    */
    ghost predicate Reached(lastUpdate0: int, sent0: seq<string>, data0: map<string, nat>, times0: StrokeTimes,
                            notifications0: seq<Notification>, done: seq<Tick>)
      reads this
    {
      PollsReached(lastUpdate0, sent0, done) && LinesReached(data0, times0, notifications0, done)
    }

    /** `query_if_necessary` at the poll time of tick `i`, extending the polls by that tick. */
    method PollStep(ticks: seq<Tick>, i: int, ghost lastUpdate0: int, ghost sent0: seq<string>)
      requires 0 <= i < |ticks| && !portClosed
      requires PollsReached(lastUpdate0, sent0, ticks[..i])
      modifies this`sent, this`lastUpdate
      ensures PollsReached(lastUpdate0, sent0, ticks[..i + 1])
    {
      ghost var p := PollTimes(lastUpdate0, ticks[..i]);
      ghost var frames := Framed(QueryCommands());
      PollTimesStep(lastUpdate0, ticks, i);
      var polled := QueryIfNecessary(ticks[i].pollTime);
      if polled {
        assert Repeat(frames, |p| + 1) == Repeat(frames, |p|) + frames;
      }
    }

    /** `read` and `parse_and_update_internals` of the line of tick `i`, extending the lines by that tick. */
    method LineStep(ticks: seq<Tick>, i: int, ghost data0: map<string, nat>, ghost times0: StrokeTimes, ghost notifications0: seq<Notification>)
      requires 0 <= i < |ticks| && Valid() && !portClosed
      requires LinesReached(data0, times0, notifications0, ticks[..i])
      modifies this`data, this`lastStrokeStart, this`lastStrokeEnd, this`notifications
      ensures Valid()
      ensures LinesReached(data0, times0, notifications0, ticks[..i + 1])
    {
      LineFoldsStep(data0, times0, strokeCallback, resetCallback, ticks, i);
      var line := Read(ticks[i].line);
      ParseAndUpdateInternals(line, ticks[i].lineTime);
    }

    /**
      One pass of the body of `main_loop` on tick `i`: leave at once when `@closing` is set;
      otherwise poll if due, then read and classify the line. The state moves from the one
      reached after `ticks[..i]` to the one reached after `ticks[..i + 1]`.
    */
    method Iterate(ticks: seq<Tick>, i: int, ghost lastUpdate0: int, ghost sent0: seq<string>, ghost data0: map<string, nat>,
                   ghost times0: StrokeTimes, ghost notifications0: seq<Notification>) returns (ran: bool)
      requires Valid() && 0 <= i < |ticks|
      requires Reached(lastUpdate0, sent0, data0, times0, notifications0, ticks[..i])
      modifies this`sent, this`lastUpdate, this`data, this`lastStrokeStart, this`lastStrokeEnd, this`notifications
      ensures Valid()
      ensures ran == !closing
      ensures !ran ==> (sent == old(sent) && lastUpdate == old(lastUpdate) && data == old(data) &&
                        Times() == old(Times()) && notifications == old(notifications))
      ensures Reached(lastUpdate0, sent0, data0, times0, notifications0, if ran then ticks[..i + 1] else ticks[..i])
    {
      if closing {
        return false;
      }
      ran := true;
      PollStep(ticks, i, lastUpdate0, sent0);
      LineStep(ticks, i, data0, times0, notifications0);
    }

    /**
      `main_loop` over the lines the console sends: it stops at the first iteration that
      finds `@closing` set, and otherwise works through every tick.
    */
    method MainLoop(ticks: seq<Tick>) returns (iterations: nat)
      requires Valid()
      modifies this`sent, this`lastUpdate, this`data, this`lastStrokeStart, this`lastStrokeEnd, this`notifications
      ensures Valid()
      ensures old(closing) ==> (iterations == 0 && sent == old(sent) && lastUpdate == old(lastUpdate) &&
                                data == old(data) && Times() == old(Times()) && notifications == old(notifications))
      ensures !old(closing) ==> iterations == |ticks|
      ensures !old(closing) ==> Reached(old(lastUpdate), old(sent), old(data), old(Times()), old(notifications), ticks)
    {
      iterations := 0;
      while iterations < |ticks|
        invariant Valid()
        invariant iterations <= |ticks|
        invariant closing == old(closing)
        invariant closing ==> iterations == 0
        invariant Reached(old(lastUpdate), old(sent), old(data), old(Times()), old(notifications), ticks[..iterations])
      {
        var ran := Iterate(ticks, iterations, old(lastUpdate), old(sent), old(data), old(Times()), old(notifications));
        if !ran {
          break;
        }
        iterations := iterations + 1;
      }
      if !closing {
        assert ticks[..iterations] == ticks;
      }
    }
  }

  /** A snapshot taken before a line is handled keeps the values it was taken with. */
  method SnapshotIsACopy(session: RowrInterface, line: string, now: int) returns (snapshot: map<string, nat>)
    requires session.Valid()
    modifies session
    ensures snapshot == old(session.data)
    ensures session.data == UpdateCounters(old(session.data), Decode(line))
  {
    snapshot := session.CurrentStatus();
    session.ParseAndUpdateInternals(Some(line), now);
  }

  /** After `end` the loop performs no iteration, touches nothing, and `@closing` stays set. */
  method EndStopsTheLoop(session: RowrInterface, ticks: seq<Tick>) returns (iterations: nat)
    requires session.Valid()
    modifies session
    ensures iterations == 0 && session.closing
    ensures session.sent == old(session.sent) + (if old(session.portClosed) then [] else [Frame(COMMAND_EXIT)])
    ensures session.data == old(session.data)
  {
    session.End();
    iterations := session.MainLoop(ticks);
  }

  /** `SS` at 0 ms and `SE` at 850 ms report a stroke of 850 ms to the stroke callback and leave `@data` alone. */
  method StrokeScenario() returns (session: RowrInterface)
    ensures session.notifications == [StrokeCompleted(7, 850)]
    ensures session.data == map[]
  {
    session := new RowrInterface.Start(0);
    session.EachStroke(Some(7));
    LeadingMarkers(CRLF);
    assert "SS" + CRLF == "SS\r\n" && "SE" + CRLF == "SE\r\n";
    session.ParseAndUpdateInternals(Some("SS\r\n"), 0);
    session.ParseAndUpdateInternals(Some("SE\r\n"), 850);
  }

  /** A distance report `IDD0570A0D` lands in `@data` as 2573 meters and notifies no one. */
  method ReportScenario() returns (session: RowrInterface)
    ensures session.data == map["total_distance" := 2573]
    ensures session.notifications == []
  {
    session := new RowrInterface.Start(0);
    DistanceReport(map[]);
    session.ParseAndUpdateInternals(Some("IDD0570A0D\r\n"), 900);
  }
}
