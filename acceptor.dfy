/**
  acceptor.rb, the older variant of the session: a single catalogue read with `IRD`, stroke
  markers matched anywhere in a line, register reports with three decimal address digits, and a
  poll timer whose reference time is never moved.
*/
module AcceptorVariant {
  import opened Text
  import opened Console
  import RowrProtocol

  /** `COMMAND_READ_DATA`: the one read request of this variant, the same `IRD` as the 16-bit request. */
  const COMMAND_READ_DATA: string := COMMAND_READ_DATA_16_BIT

  const MEMORY_LOCATIONS: Table := [
    ("total_distance", "057"),  // meters
    ("total_time", "05b"),      // seconds
    ("total_calories", "08a"),  // kcal
    ("total_strokes", "140"),
    ("current_speed", "148")    // cm/s
  ]

  lemma CatalogueWellFormed()
    ensures UniqueNames(MEMORY_LOCATIONS) && UniqueAddresses(MEMORY_LOCATIONS)
  {
  }

  // ---------------------------------------------------------------- commands

  /** `request_data(name)`: `IRD` and the address of `name`, if the catalogue lists it. */
  function RequestFor(name: string): Option<string> {
    Request(COMMAND_READ_DATA, MEMORY_LOCATIONS, name)
  }

  lemma RequestsOnlyForCatalogued(name: string)
    ensures RequestFor(name).Some? <==> name in Names(MEMORY_LOCATIONS)
    ensures RequestFor("total_time") == Some("IRD05b")
    ensures RequestFor("current_energy") == None
  {
    LookupEntry(MEMORY_LOCATIONS, 1);
    assert COMMAND_READ_DATA + "05b" == "IRD05b";
    var t := MEMORY_LOCATIONS;
    assert Names(t) == {t[0].0, t[1].0, t[2].0, t[3].0, t[4].0};
  }

  /** `query!`: one request per catalogue entry, in catalogue order. */
  function QueryCommands(): seq<string> {
    RequestsFor(COMMAND_READ_DATA, MEMORY_LOCATIONS)
  }

  lemma QueryCommandsInOrder()
    ensures QueryCommands() == ["IRD057", "IRD05b", "IRD08a", "IRD140", "IRD148"]
  {
    var r := QueryCommands();
    assert r == [r[0], r[1], r[2], r[3], r[4]];
    RequestsForAt(COMMAND_READ_DATA, MEMORY_LOCATIONS, 0);
    RequestsForAt(COMMAND_READ_DATA, MEMORY_LOCATIONS, 1);
    RequestsForAt(COMMAND_READ_DATA, MEMORY_LOCATIONS, 2);
    RequestsForAt(COMMAND_READ_DATA, MEMORY_LOCATIONS, 3);
    RequestsForAt(COMMAND_READ_DATA, MEMORY_LOCATIONS, 4);
    assert r[0] == "IRD057" && r[1] == "IRD05b" && r[2] == "IRD08a" && r[3] == "IRD140" && r[4] == "IRD148";
  }

  // ---------------------------------------------------------------- classification

  /** The classes of this variant's `case/when`: three `when`s, and no `else`. */
  datatype LineClass =
    | StrokeStart
    | StrokeEnd
    | RegisterReport(address: string, payload: string)
    | Ignored

  predicate IsDecimalDigit(c: char) {
    '0' <= c <= '9'
  }

  /** `/^IDD([0-9]{3})(.*)\r\n$/`: `IDD`, three decimal digits, a payload, and the terminator. */
  predicate IsRegisterLine(line: string) {
    && |line| >= 8 && StartsWith(line, "IDD")
    && IsDecimalDigit(line[3]) && IsDecimalDigit(line[4]) && IsDecimalDigit(line[5])
    && EndsWith(line, CRLF) && NoNewline(line[6..|line| - 2])
  }

  /** `/SS/`, then `/SE/`, both unanchored, then the register pattern. */
  function Classify(line: string): LineClass {
    if Contains(line, "SS") then StrokeStart
    else if Contains(line, "SE") then StrokeEnd
    else if IsRegisterLine(line) then RegisterReport(line[3..6], line[6..|line| - 2])
    else Ignored
  }

  /** What `read` hands over: `nil` once the port is closed, which no `when` matches. */
  function ClassifyRead(line: Option<string>): LineClass {
    match line
    case Some(l) => Classify(l)
    case None => Ignored
  }

  /**
    The order of the `when`s, each class in terms of the patterns alone: `SS` anywhere wins,
    `SE` anywhere comes next, and only a line matching none of the three is ignored.
  */
  lemma ClassificationOrder(line: string)
    ensures Classify(line) == StrokeStart <==> Contains(line, "SS")
    ensures Classify(line) == StrokeEnd <==> !Contains(line, "SS") && Contains(line, "SE")
    ensures Classify(line).RegisterReport? <==> !Contains(line, "SS") && !Contains(line, "SE") && IsRegisterLine(line)
    ensures Classify(line) == Ignored <==> !Contains(line, "SS") && !Contains(line, "SE") && !IsRegisterLine(line)
  {
  }

  /** A line holding both markers, in either order, is a stroke start. */
  lemma BothMarkersStartAStroke(before: string, between: string, after: string)
    ensures Classify(before + "SE" + between + "SS" + after) == StrokeStart
    ensures Classify(before + "SS" + between + "SE" + after) == StrokeStart
  {
    assert before + "SE" + between + "SS" + after == (before + "SE" + between) + "SS" + after;
    ContainsInfix(before + "SE" + between, "SS", after);
    ContainsInfix(before, "SS", between + "SE" + after);
    assert before + "SS" + between + "SE" + after == before + "SS" + (between + "SE" + after);
  }

  /** Unlike the anchored patterns of the newer classifier, a marker is found anywhere: `PSS` is a start here and a pulse there. */
  lemma UnanchoredMarkers()
    ensures Classify("PSS\r\n") == StrokeStart
    ensures RowrProtocol.Decode("PSS\r\n") == RowrProtocol.Pulse
    ensures Classify("xSE\r\n") == StrokeEnd
  {
    ContainsInfix("P", "SS", "\r\n");
    ContainsInfix("x", "SE", "\r\n");
    assert "P" + "SS" + "\r\n" == "PSS\r\n" && "x" + "SE" + "\r\n" == "xSE\r\n";
    var l := "xSE\r\n";
    forall i | 0 <= i <= |l| - 2
      ensures !OccursAt(l, "SS", i)
    {
      if i == 1 {
        assert l[2] != 'S';
      } else {
        assert l[i] != 'S';
      }
    }
    assert ("PSS\r\n")[..1] == "P";
  }

  /** A report line carries its three address digits and its payload, and is exactly `IDD`, those, and CR-LF. */
  lemma RegisterLineShape(line: string)
    requires Classify(line).RegisterReport?
    ensures var r := Classify(line);
      |r.address| == 3 && (forall i | 0 <= i < 3 :: IsDecimalDigit(r.address[i])) && NoNewline(r.payload) &&
      line == "IDD" + r.address + r.payload + CRLF
  {
    assert line == line[..3] + line[3..6] + line[6..|line| - 2] + line[|line| - 2..];
  }

  /** The address digits are decimal, so the catalogued registers `05b` and `08a` are never reported. */
  lemma HexAddressesUnreachable(line: string)
    ensures Classify(line).RegisterReport? ==> Classify(line).address != MEMORY_LOCATIONS[1].1
    ensures Classify(line).RegisterReport? ==> Classify(line).address != MEMORY_LOCATIONS[2].1
  {
    if Classify(line).RegisterReport? {
      RegisterLineShape(line);
      assert !IsDecimalDigit(MEMORY_LOCATIONS[1].1[2]) && !IsDecimalDigit(MEMORY_LOCATIONS[2].1[2]);
    }
  }

  /** A distance report reaches the register branch with its address and payload. */
  lemma DistanceReport()
    ensures Classify("IDD0570A0D\r\n") == RegisterReport("057", "0A0D")
  {
    var l := "IDD0570A0D\r\n";
    forall i | 0 <= i <= |l| - 2
      ensures !OccursAt(l, "SS", i) && !OccursAt(l, "SE", i)
    {
      assert l[i..i + 2][0] == l[i] != 'S';
    }
    assert l[..3] == "IDD" && l[|l| - 2..] == CRLF;
    assert l[3..6] == "057" && l[6..|l| - 2] == "0A0D";
  }

  // ---------------------------------------------------------------- strokes and the poll timer

  /** The stroke timestamps after a line of class `c` arrived at time `now`. */
  function Track(times: StrokeTimes, c: LineClass, now: int): StrokeTimes {
    match c
    case StrokeStart => times.(start := now)
    case StrokeEnd => times.(finish := now)
    case _ => times
  }

  /** The callbacks a line of class `c` invokes, given the timestamps after it. */
  function Dispatch(times: StrokeTimes, c: LineClass, strokeCallback: Option<nat>): seq<Notification> {
    if c.StrokeEnd? then StrokeNotice(times, strokeCallback) else []
  }

  /** Only stroke lines move the timestamps, each its own one, and only a stroke end notifies. */
  lemma OnlyStrokeLinesMoveTimes(times: StrokeTimes, c: LineClass, now: int, sc: Option<nat>)
    ensures Track(times, c, now).start == (if c.StrokeStart? then now else times.start)
    ensures Track(times, c, now).finish == (if c.StrokeEnd? then now else times.finish)
    ensures Dispatch(times, c, sc) == (if c.StrokeEnd? && sc.Some? then [StrokeCompleted(sc.value, times.finish - times.start)] else [])
  {
  }

  /** The poll times of the iterations that poll; the reference time stays where it started. */
  function DuePolls(lastUpdate: int, ticks: seq<Tick>): seq<int> {
    if |ticks| == 0 then []
    else
      var earlier := DuePolls(lastUpdate, ticks[..|ticks| - 1]);
      var now := ticks[|ticks| - 1].pollTime;
      if PollDue(now, lastUpdate) then earlier + [now] else earlier
  }

  /** The poll times of a stretch of ticks. */
  function PollTimesOf(ticks: seq<Tick>): (r: seq<int>)
    ensures |r| == |ticks|
    ensures forall k | 0 <= k < |r| :: r[k] == ticks[k].pollTime
  {
    if |ticks| == 0 then [] else PollTimesOf(ticks[..|ticks| - 1]) + [ticks[|ticks| - 1].pollTime]
  }

  predicate NonDecreasing(ticks: seq<Tick>) {
    forall i, j | 0 <= i < j < |ticks| :: ticks[i].pollTime <= ticks[j].pollTime
  }

  /**
    With a clock that never goes back, once one iteration polls, every later one polls too:
    the polls are the earlier due ones followed by every poll time from then on.
  */
  lemma {:induction false} DueForever(lastUpdate: int, ticks: seq<Tick>, i: int)
    requires NonDecreasing(ticks) && 0 <= i < |ticks| && PollDue(ticks[i].pollTime, lastUpdate)
    ensures DuePolls(lastUpdate, ticks) == DuePolls(lastUpdate, ticks[..i]) + PollTimesOf(ticks[i..])
  {
    if |ticks| - 1 == i {
      assert ticks[i..] == [ticks[i]];
      assert ticks[..|ticks| - 1] == ticks[..i];
    } else {
      var init := ticks[..|ticks| - 1];
      assert init[..i] == ticks[..i] && init[i] == ticks[i];
      DueForever(lastUpdate, init, i);
      assert ticks[i..][..|ticks[i..]| - 1] == init[i..];
    }
  }

  /** The timer of this variant against the newer one: polls 1 ms apart here, where the newer one polls once. */
  lemma PollsUnspaced()
    ensures DuePolls(0, [Tick(1001, 1001, ""), Tick(1002, 1002, "")]) == [1001, 1002]
    ensures RowrProtocol.PollTimes(0, [Tick(1001, 1001, ""), Tick(1002, 1002, "")]) == [1001]
  {
    var ts := [Tick(1001, 1001, ""), Tick(1002, 1002, "")];
    assert ts[..1] == [Tick(1001, 1001, "")] && ts[..1][..0] == [];
    assert RowrProtocol.PollTimes(0, ts[..1]) == [1001];
  }

  /** The stroke timestamps after the lines of `ticks`. */
  function TimesAfter(times: StrokeTimes, ticks: seq<Tick>): StrokeTimes {
    if |ticks| == 0 then times
    else
      var last := ticks[|ticks| - 1];
      Track(TimesAfter(times, ticks[..|ticks| - 1]), Classify(last.line), last.lineTime)
  }

  /** The callback invocations of the lines of `ticks`. */
  function NotificationsAfter(times: StrokeTimes, strokeCallback: Option<nat>, ticks: seq<Tick>): seq<Notification> {
    if |ticks| == 0 then []
    else
      NotificationsAfter(times, strokeCallback, ticks[..|ticks| - 1]) +
      Dispatch(TimesAfter(times, ticks), Classify(ticks[|ticks| - 1].line), strokeCallback)
  }

  lemma DuePollsStep(lastUpdate: int, ticks: seq<Tick>, i: int)
    requires 0 <= i < |ticks|
    ensures DuePolls(lastUpdate, ticks[..i + 1]) ==
      DuePolls(lastUpdate, ticks[..i]) + (if PollDue(ticks[i].pollTime, lastUpdate) then [ticks[i].pollTime] else [])
  {
    assert ticks[..i + 1][..i] == ticks[..i];
  }

  lemma LineFoldsStep(times: StrokeTimes, sc: Option<nat>, ticks: seq<Tick>, i: int)
    requires 0 <= i < |ticks|
    ensures TimesAfter(times, ticks[..i + 1]) == Track(TimesAfter(times, ticks[..i]), Classify(ticks[i].line), ticks[i].lineTime)
    ensures NotificationsAfter(times, sc, ticks[..i + 1]) ==
      NotificationsAfter(times, sc, ticks[..i]) + Dispatch(TimesAfter(times, ticks[..i + 1]), Classify(ticks[i].line), sc)
  {
    assert ticks[..i + 1][..i] == ticks[..i];
  }

  /**
    A register report ends `main_loop`: the branch of acceptor.rb for it concatenates an
    Enumerator to a string and raises, and nothing rescues the error.
  */
  predicate Raises(tick: Tick) {
    Classify(tick.line).RegisterReport?
  }

  /** The position of the first tick whose line raises, or `None` when no line of `ticks` does. */
  function FirstRaise(ticks: seq<Tick>): (r: Option<nat>)
    ensures r.None? <==> forall k | 0 <= k < |ticks| :: !Raises(ticks[k])
    ensures r.Some? ==> r.value < |ticks| && Raises(ticks[r.value]) && forall k | 0 <= k < r.value :: !Raises(ticks[k])
  {
    if |ticks| == 0 then None
    else if Raises(ticks[0]) then Some(0)
    else
      assert forall k | 0 < k < |ticks| :: ticks[1..][k - 1] == ticks[k];
      match FirstRaise(ticks[1..])
      case None => None
      case Some(k) => Some(k + 1)
  }

  // ---------------------------------------------------------------- the session object

  /**
    The instance state of `Acceptor`, with the port as a closed flag and the frames written to
    it; the timestamps are set at construction, as the class-level assignments intend.
  */
  class Acceptor {
    var sent: seq<string>
    var portClosed: bool
    var closing: bool
    var lastUpdate: int
    var lastStrokeStart: int
    var lastStrokeEnd: int
    var strokeCallback: Option<nat>
    var notifications: seq<Notification>

    ghost predicate Valid()
      reads this`portClosed, this`closing
    {
      portClosed == closing
    }

    function Times(): StrokeTimes
      reads this`lastStrokeStart, this`lastStrokeEnd
    {
      StrokeTimes(lastStrokeStart, lastStrokeEnd)
    }

    /** `start` up to its `main_loop` call: keep the block, open the port and write `USB`. */
    constructor Start(now: int, callback: Option<nat>)
      ensures Valid()
      ensures sent == [Frame(COMMAND_START)] && !portClosed && !closing
      ensures lastUpdate == now && Times() == StrokeTimes(now, now)
      ensures strokeCallback == callback && notifications == []
    {
      lastUpdate, lastStrokeStart, lastStrokeEnd := now, now, now;
      strokeCallback := callback;
      notifications := [];
      closing, portClosed := false, false;
      sent := [];
      new;
      Write(COMMAND_START);
    }

    /** `end`: `EXIT` is written while the port is still open, then `@closing` is latched and the port closed. */
    method End()
      requires Valid()
      modifies this`sent, this`closing, this`portClosed
      ensures Valid()
      ensures sent == old(sent) + (if old(portClosed) then [] else [Frame(COMMAND_EXIT)])
      ensures closing && portClosed
    {
      Write(COMMAND_EXIT);
      closing := true;
      portClosed := true;
    }

    /** `write`: the command and CR-LF when the port is open; dropped when it is closed. */
    method Write(command: string)
      modifies this`sent
      ensures sent == old(sent) + (if portClosed then [] else [command + "\r\n"])
    {
      if !portClosed {
        sent := sent + [Frame(command)];
      }
    }

    /** `read`: the line the console sends, or `nil` once the port is closed. */
    method Read(incoming: string) returns (line: Option<string>)
      ensures portClosed ==> line == None
      ensures !portClosed ==> line == Some(incoming)
    {
      line := if portClosed then None else Some(incoming);
    }

    /** The body of `request_data`, over catalogue `t` with request `command`: the request for `name`, or nothing. */
    method RequestIn(command: string, t: Table, name: string)
      modifies this`sent
      ensures Request(command, t, name).Some? && !portClosed ==> sent == old(sent) + [Frame(Request(command, t, name).value)]
      ensures Request(command, t, name).None? || portClosed ==> sent == old(sent)
    {
      var memoryLocation := Lookup(t, name);
      if memoryLocation.Some? {
        Write(command + memoryLocation.value);
      }
    }

    /** `request_data`: one `IRD` request for a catalogued name, nothing for any other name. */
    method RequestData(name: string)
      modifies this`sent
      ensures RequestFor(name).Some? && !portClosed ==> sent == old(sent) + [Frame(RequestFor(name).value)]
      ensures RequestFor(name).None? || portClosed ==> sent == old(sent)
    {
      RequestIn(COMMAND_READ_DATA, MEMORY_LOCATIONS, name);
    }

    /** The `each` loop of `query!` over catalogue `t`, one request per entry. */
    method RequestEach(command: string, t: Table)
      requires UniqueNames(t)
      modifies this`sent
      ensures sent == old(sent) + (if portClosed then [] else Framed(RequestsFor(command, t)))
    {
      var i := 0;
      while i < |t|
        invariant 0 <= i <= |t|
        invariant sent == old(sent) + (if portClosed then [] else Framed(RequestsFor(command, t[..i])))
      {
        RequestsForStep(command, t, i);
        FramedAppend(RequestsFor(command, t[..i]), [command + t[i].1]);
        RequestIn(command, t, t[i].0);
        i := i + 1;
      }
      assert t[..i] == t;
    }

    /** `query!`: one request per catalogue entry, in catalogue order. */
    method Query()
      modifies this`sent
      ensures sent == old(sent) + (if portClosed then [] else Framed(QueryCommands()))
    {
      assert UniqueNames(MEMORY_LOCATIONS);
      RequestEach(COMMAND_READ_DATA, MEMORY_LOCATIONS);
    }

    /** `query_if_necessary`: poll once strictly more than the interval has passed since `@last_update`, which it never moves. */
    method QueryIfNecessary(now: int) returns (polled: bool)
      modifies this`sent
      ensures polled == PollDue(now, lastUpdate)
      ensures sent == old(sent) + (if polled && !portClosed then Framed(QueryCommands()) else [])
    {
      polled := PollDue(now, lastUpdate);
      if polled {
        Query();
      }
    }

    /**
      `parse_and_update_internals`: a stroke start or end sets its own timestamp, and an end
      notifies the stroke callback. A register report raises (`raised`) before it changes
      anything.
    */
    method ParseAndUpdateInternals(line: Option<string>, now: int) returns (raised: bool)
      modifies this`lastStrokeStart, this`lastStrokeEnd, this`notifications
      ensures raised == ClassifyRead(line).RegisterReport?
      ensures Times() == Track(old(Times()), ClassifyRead(line), now)
      ensures notifications == old(notifications) + Dispatch(Times(), ClassifyRead(line), strokeCallback)
    {
      raised := false;
      match ClassifyRead(line)
      case StrokeStart =>
        lastStrokeStart := now;
      case StrokeEnd =>
        lastStrokeEnd := now;
        NotifyOfStroke();
      case RegisterReport(_, _) =>
        raised := true;
      case Ignored =>
    }

    /** `notify_of_stroke`: report `@last_stroke_end - @last_stroke_start` when a block was given to `start`. */
    method NotifyOfStroke()
      modifies this`notifications
      ensures strokeCallback.Some? ==> notifications == old(notifications) + [StrokeCompleted(strokeCallback.value, lastStrokeEnd - lastStrokeStart)]
      ensures strokeCallback.None? ==> notifications == old(notifications)
    {
      if strokeCallback.Some? {
        var timeForStroke := lastStrokeEnd - lastStrokeStart;
        notifications := notifications + [StrokeCompleted(strokeCallback.value, timeForStroke)];
      }
    }

    /** The state `main_loop` reaches from (`sent0`, `times0`, `notifications0`) by handling the ticks in `done`. */
    ghost predicate Reached(sent0: seq<string>, times0: StrokeTimes, notifications0: seq<Notification>, done: seq<Tick>)
      reads this`sent, this`lastUpdate, this`lastStrokeStart, this`lastStrokeEnd, this`notifications, this`strokeCallback
    {
      && sent == sent0 + Repeat(Framed(QueryCommands()), |DuePolls(lastUpdate, done)|)
      && Times() == TimesAfter(times0, done)
      && notifications == notifications0 + NotificationsAfter(times0, strokeCallback, done)
    }

    /** `query_if_necessary` at the poll time of tick `i`, extending the frames written by that tick's poll. */
    method PollStep(ticks: seq<Tick>, i: int, ghost sent0: seq<string>)
      requires 0 <= i < |ticks| && !portClosed
      requires sent == sent0 + Repeat(Framed(QueryCommands()), |DuePolls(lastUpdate, ticks[..i])|)
      modifies this`sent
      ensures sent == sent0 + Repeat(Framed(QueryCommands()), |DuePolls(lastUpdate, ticks[..i + 1])|)
    {
      ghost var n := |DuePolls(lastUpdate, ticks[..i])|;
      ghost var frames := Framed(QueryCommands());
      DuePollsStep(lastUpdate, ticks, i);
      var polled := QueryIfNecessary(ticks[i].pollTime);
      if polled {
        assert Repeat(frames, n + 1) == Repeat(frames, n) + frames;
      }
    }

    /** `read` and `parse_and_update_internals` of the line of tick `i`. */
    method LineStep(ticks: seq<Tick>, i: int, ghost times0: StrokeTimes, ghost notifications0: seq<Notification>)
      returns (raised: bool)
      requires 0 <= i < |ticks| && !portClosed
      requires Times() == TimesAfter(times0, ticks[..i])
      requires notifications == notifications0 + NotificationsAfter(times0, strokeCallback, ticks[..i])
      modifies this`lastStrokeStart, this`lastStrokeEnd, this`notifications
      ensures Times() == TimesAfter(times0, ticks[..i + 1])
      ensures notifications == notifications0 + NotificationsAfter(times0, strokeCallback, ticks[..i + 1])
      ensures raised == Raises(ticks[i])
    {
      LineFoldsStep(times0, strokeCallback, ticks, i);
      var line := Read(ticks[i].line);
      raised := ParseAndUpdateInternals(line, ticks[i].lineTime);
    }

    /**
      One pass of the body of `main_loop` on tick `i`: leave at once when `@closing` is set,
      otherwise poll if due, then read and classify, which raises on a register report.
    */
    method Iterate(ticks: seq<Tick>, i: int, ghost sent0: seq<string>, ghost times0: StrokeTimes, ghost notifications0: seq<Notification>)
      returns (ran: bool, raised: bool)
      requires Valid() && 0 <= i < |ticks|
      requires Reached(sent0, times0, notifications0, ticks[..i])
      modifies this`sent, this`lastStrokeStart, this`lastStrokeEnd, this`notifications
      ensures ran == !closing
      ensures raised == (ran && Raises(ticks[i]))
      ensures !ran ==> sent == old(sent) && Times() == old(Times()) && notifications == old(notifications)
      ensures Reached(sent0, times0, notifications0, if ran then ticks[..i + 1] else ticks[..i])
    {
      if closing {
        return false, false;
      }
      ran := true;
      PollStep(ticks, i, sent0);
      raised := LineStep(ticks, i, times0, notifications0);
    }

    /**
      `main_loop` over the lines the console sends: it stops at the first iteration that finds
      `@closing` set, and otherwise works through the ticks, polling on each one that is due,
      until the first register report raises (`raised`) and ends the loop and `start` with it.
    */
    method MainLoop(ticks: seq<Tick>) returns (iterations: nat, raised: bool)
      requires Valid()
      modifies this`sent, this`lastStrokeStart, this`lastStrokeEnd, this`notifications
      ensures old(closing) ==> iterations == 0 && !raised && sent == old(sent) && Times() == old(Times()) && notifications == old(notifications)
      ensures !old(closing) ==> raised == FirstRaise(ticks).Some?
      ensures !old(closing) ==> iterations == (if raised then FirstRaise(ticks).value + 1 else |ticks|)
      ensures !old(closing) ==> Reached(old(sent), old(Times()), old(notifications), ticks[..iterations])
    {
      iterations, raised := 0, false;
      while iterations < |ticks| && !raised
        invariant iterations <= |ticks|
        invariant closing ==> iterations == 0 && !raised
        invariant !raised ==> forall k | 0 <= k < iterations :: !Raises(ticks[k])
        invariant raised ==> 0 < iterations && Raises(ticks[iterations - 1]) && forall k | 0 <= k < iterations - 1 :: !Raises(ticks[k])
        invariant Reached(old(sent), old(Times()), old(notifications), ticks[..iterations])
      {
        var ran, r := Iterate(ticks, iterations, old(sent), old(Times()), old(notifications));
        if !ran {
          break;
        }
        iterations, raised := iterations + 1, r;
      }
      if raised {
        assert FirstRaise(ticks) == Some(iterations - 1);
      } else if !closing {
        assert FirstRaise(ticks) == None;
      }
    }
  }

  /**
    A distance report ends the loop on its own tick, as the raise in the register branch does:
    the stroke end after it is never read, so no stroke is reported.
  */
  method ReportEndsTheLoop() returns (iterations: nat, raised: bool, notified: seq<Notification>)
    ensures iterations == 1 && raised && notified == []
  {
    var session := new Acceptor.Start(0, Some(7));
    var ticks := [Tick(0, 0, "IDD0570A0D\r\n"), Tick(0, 500, "SE\r\n")];
    DistanceReport();
    assert FirstRaise(ticks) == Some(0);
    iterations, raised := session.MainLoop(ticks);
    assert ticks[..1] == [ticks[0]] && ticks[..1][..0] == [];
    assert NotificationsAfter(StrokeTimes(0, 0), Some(7), ticks[..1]) == [];
    notified := session.notifications;
  }
}
