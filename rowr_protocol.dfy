/**
  The pure part of `RowrInterface` (lib/rowr_interface.rb): its register catalogues, the
  commands `query!` sends, the line classifier of `parse_and_update_internals`, and what each
  classified line does to the counters, the stroke timestamps and the callbacks. The session
  class in module RowrSession is specified in terms of these functions.
*/
module RowrProtocol {
  import opened Text
  import opened Hex
  import opened Console

  const MEMORY_LOCATIONS_16_BIT: Table := [
    ("total_distance", "057"),  // meters
    ("total_strokes", "140"),
    ("current_speed", "148"),   // cm/s
    ("current_energy", "088")   // watt
  ]

  const MEMORY_LOCATIONS_24_BIT: Table := [
    ("total_calories", "08A")
  ]

  /** Every key `@data` can ever hold. */
  function CounterNames(): set<string> {
    Names(MEMORY_LOCATIONS_16_BIT) + Names(MEMORY_LOCATIONS_24_BIT)
  }

  lemma CataloguesWellFormed()
    ensures UniqueNames(MEMORY_LOCATIONS_16_BIT) && UniqueAddresses(MEMORY_LOCATIONS_16_BIT)
    ensures UniqueNames(MEMORY_LOCATIONS_24_BIT) && UniqueAddresses(MEMORY_LOCATIONS_24_BIT)
    ensures Names(MEMORY_LOCATIONS_16_BIT) !! Names(MEMORY_LOCATIONS_24_BIT)
  {
  }

  // ---------------------------------------------------------------- commands

  /** `request_data_16_bit(name)`: `IRD` and the 16-bit address of `name`, if it has one. */
  function Request16(name: string): Option<string> {
    Request(COMMAND_READ_DATA_16_BIT, MEMORY_LOCATIONS_16_BIT, name)
  }

  /** `request_data_24_bit(name)`: `IRT` and the 24-bit address of `name`, if it has one. */
  function Request24(name: string): Option<string> {
    Request(COMMAND_READ_DATA_24_BIT, MEMORY_LOCATIONS_24_BIT, name)
  }

  lemma RequestsOnlyForCatalogued(name: string)
    ensures Request16(name).Some? <==> name in Names(MEMORY_LOCATIONS_16_BIT)
    ensures Request24(name).Some? <==> name in Names(MEMORY_LOCATIONS_24_BIT)
    ensures Request16("total_calories") == None && Request24("total_calories") == Some("IRT08A")
    ensures Request16("total_distance") == Some("IRD057") && Request24("total_distance") == None
  {
    LookupEntry(MEMORY_LOCATIONS_24_BIT, 0);
    LookupEntry(MEMORY_LOCATIONS_16_BIT, 0);
    CatalogueNames();
    assert COMMAND_READ_DATA_24_BIT + "08A" == "IRT08A";
    assert COMMAND_READ_DATA_16_BIT + "057" == "IRD057";
  }

  lemma CatalogueNames()
    ensures Names(MEMORY_LOCATIONS_16_BIT) == {"total_distance", "total_strokes", "current_speed", "current_energy"}
    ensures Names(MEMORY_LOCATIONS_24_BIT) == {"total_calories"}
  {
    var t := MEMORY_LOCATIONS_16_BIT;
    assert t[0].0 in Names(t) && t[1].0 in Names(t) && t[2].0 in Names(t) && t[3].0 in Names(t);
    assert MEMORY_LOCATIONS_24_BIT[0].0 in Names(MEMORY_LOCATIONS_24_BIT);
  }

  /** `query!`: every 16-bit request in table order, then every 24-bit request. */
  function QueryCommands(): seq<string> {
    RequestsFor(COMMAND_READ_DATA_16_BIT, MEMORY_LOCATIONS_16_BIT) + RequestsFor(COMMAND_READ_DATA_24_BIT, MEMORY_LOCATIONS_24_BIT)
  }

  lemma QueryCommandsInOrder()
    ensures QueryCommands() == ["IRD057", "IRD140", "IRD148", "IRD088", "IRT08A"]
  {
    var r16 := RequestsFor(COMMAND_READ_DATA_16_BIT, MEMORY_LOCATIONS_16_BIT);
    var r24 := RequestsFor(COMMAND_READ_DATA_24_BIT, MEMORY_LOCATIONS_24_BIT);
    assert r16 == [r16[0], r16[1], r16[2], r16[3]];
    assert r24 == [r24[0]];
    RequestsForAt(COMMAND_READ_DATA_16_BIT, MEMORY_LOCATIONS_16_BIT, 0);
    RequestsForAt(COMMAND_READ_DATA_16_BIT, MEMORY_LOCATIONS_16_BIT, 1);
    RequestsForAt(COMMAND_READ_DATA_16_BIT, MEMORY_LOCATIONS_16_BIT, 2);
    RequestsForAt(COMMAND_READ_DATA_16_BIT, MEMORY_LOCATIONS_16_BIT, 3);
    RequestsForAt(COMMAND_READ_DATA_24_BIT, MEMORY_LOCATIONS_24_BIT, 0);
    assert r16[0] == "IRD057" && r16[1] == "IRD140" && r16[2] == "IRD148" && r16[3] == "IRD088";
    assert r24[0] == "IRT08A";
  }

  // ---------------------------------------------------------------- decoding

  /** The classes of `parse_and_update_internals`' `case`, one per `when` and one for `else`. */
  datatype DecodedEvent =
    | Pulse
    | StrokeStart
    | StrokeEnd
    | RegisterData(selector: char, address: string, payload: string)
    | ErrorNotice
    | ResetAcknowledged
    | Unrecognized

  /**
    `/^ID(.)(.{3})(.*)\r\n$/`: `ID`, one width selector, three address characters, a payload,
    and the terminator, no line feed before it.
  */
  predicate IsRegisterLine(line: string) {
    |line| >= 8 && StartsWith(line, "ID") && EndsWith(line, CRLF) && NoNewline(line[2..|line| - 2])
  }

  /** The ordered `case/when` classification of one line read from the console. */
  function Decode(line: string): DecodedEvent {
    if StartsWith(line, "P") then Pulse
    else if StartsWith(line, "SS") then StrokeStart
    else if StartsWith(line, "SE") then StrokeEnd
    else if IsRegisterLine(line) then RegisterData(line[2], line[3..6], line[6..|line| - 2])
    else if Contains(line, "ERROR") then ErrorNotice
    else if Contains(line, "AKR") then ResetAcknowledged
    else Unrecognized
  }

  /** What `read` hands over: `nil` once the port is closed, which no `when` matches. */
  function DecodeRead(line: Option<string>): DecodedEvent {
    match line
    case Some(l) => Decode(l)
    case None => Unrecognized
  }

  /** The events a line can carry: a register report has a three-character address and no line feed. */
  predicate WellFormed(e: DecodedEvent) {
    e.RegisterData? ==> |e.address| == 3 && NoNewline([e.selector] + e.address + e.payload)
  }

  /** The canonical line the console sends for each event. */
  function Encode(e: DecodedEvent): string {
    match e
    case Pulse => "P" + CRLF
    case StrokeStart => "SS" + CRLF
    case StrokeEnd => "SE" + CRLF
    case RegisterData(selector, address, payload) => "ID" + [selector] + address + payload + CRLF
    case ErrorNotice => "ERROR" + CRLF
    case ResetAcknowledged => "AKR" + CRLF
    case Unrecognized => CRLF
  }

  /** Every event the console can send is classified as itself. */
  lemma DecodeEncode(e: DecodedEvent)
    requires WellFormed(e)
    ensures Decode(Encode(e)) == e
  {
    var line := Encode(e);
    match e
    case RegisterData(selector, address, payload) =>
      assert line[..1] == "I" && line[..2] == "ID";
      assert line[|line| - 2..] == CRLF;
      assert line[2..|line| - 2] == [selector] + address + payload;
      assert line[3..6] == address;
      assert line[6..|line| - 2] == payload;
    case ErrorNotice =>
      assert line[..1][0] == 'E' && line[..2][0] == 'E';
      assert OccursAt(line, "ERROR", 0);
    case ResetAcknowledged =>
      assert line[..1][0] == 'A' && line[..2][0] == 'A';
      assert line[0..5] == line && line[0] != "ERROR"[0];
      assert !OccursAt(line, "ERROR", 0);
      assert OccursAt(line, "AKR", 0);
    case Unrecognized =>
      assert line[..1][0] == '\r';
    case _ =>
      LeadingMarkers(CRLF);
  }

  /** Conversely, a line classified as a register report is exactly that report's canonical line. */
  lemma RegisterLineShape(line: string)
    requires Decode(line).RegisterData?
    ensures WellFormed(Decode(line)) && Encode(Decode(line)) == line
  {
    var e := Decode(line);
    assert [e.selector] + e.address + e.payload == line[2..|line| - 2];
    assert line == line[..2] + line[2..|line| - 2] + line[|line| - 2..];
  }

  /** Anything that starts with `P` is a pulse, whatever follows; `SS` and `SE` come next. */
  lemma LeadingMarkers(rest: string)
    ensures Decode("P" + rest) == Pulse
    ensures Decode("SS" + rest) == StrokeStart
    ensures Decode("SE" + rest) == StrokeEnd
  {
    assert ("P" + rest)[..1] == "P";
    assert ("SS" + rest)[..2] == "SS" && ("SS" + rest)[..1] == "S";
    assert ("SE" + rest)[..2] == "SE" && ("SE" + rest)[..1] == "S";
  }

  /** A line that starts with none of `P`, `S` and `I` is classified by `ERROR` and `AKR` alone. */
  lemma LaterPatterns(line: string)
    requires |line| > 0 && line[0] != 'P' && line[0] != 'S' && line[0] != 'I'
    ensures Decode(line) == if Contains(line, "ERROR") then ErrorNotice else if Contains(line, "AKR") then ResetAcknowledged else Unrecognized
  {
    assert line[..1][0] == line[0];
    if |line| >= 2 {
      assert line[..2][0] == line[0];
    }
  }

  lemma RegisterBeforeError()
    ensures Decode("IDDERROR\r\n") == RegisterData('D', "ERR", "OR")
  {
    var reg := RegisterData('D', "ERR", "OR");
    assert NoNewline([reg.selector] + reg.address + reg.payload) by {
      var body := [reg.selector] + reg.address + reg.payload;
      forall i | 0 <= i < |body|
        ensures body[i] != '\n'
      {
      }
    }
    assert Encode(reg) == "IDDERROR\r\n";
    DecodeEncode(reg);
  }

  lemma ErrorBeforeReset()
    ensures Decode("AKR ERROR\r\n") == ErrorNotice
  {
    var both := "AKR ERROR\r\n";
    LaterPatterns(both);
    ContainsInfix("AKR ", "ERROR", CRLF);
    assert "AKR " + "ERROR" + CRLF == both;
  }

  /** The priority order on lines that match several patterns. */
  lemma ClassificationPriority()
    ensures Decode("PSS\r\n") == Pulse
    ensures Decode("SSERROR\r\n") == StrokeStart
    ensures Decode("IDDERROR\r\n") == RegisterData('D', "ERR", "OR")
    ensures Decode("AKR ERROR\r\n") == ErrorNotice
  {
    LeadingMarkers("SS\r\n");
    assert "P" + "SS\r\n" == "PSS\r\n";
    LeadingMarkers("ERROR\r\n");
    assert "SS" + "ERROR\r\n" == "SSERROR\r\n";
    RegisterBeforeError();
    ErrorBeforeReset();
  }

  /** A line that matches no pattern is unrecognized. */
  lemma GarbageIsUnrecognized()
    ensures Decode("garbage\r\n") == Unrecognized
  {
    var g := "garbage\r\n";
    LaterPatterns(g);
    forall i | 0 <= i <= |g| - 5
      ensures !OccursAt(g, "ERROR", i)
    {
      assert g[i..i + 5][0] == g[i] != 'E';
    }
    forall i | 0 <= i <= |g| - 3
      ensures !OccursAt(g, "AKR", i)
    {
      assert g[i..i + 3][0] == g[i] != 'A';
    }
  }

  // ---------------------------------------------------------------- counters

  /** The counter a register report names: `D` selects the 16-bit table, `T` the 24-bit one. */
  function RegisterTarget(selector: char, address: string): Option<string> {
    if selector == 'D' then ReverseLookup(MEMORY_LOCATIONS_16_BIT, address)
    else if selector == 'T' then ReverseLookup(MEMORY_LOCATIONS_24_BIT, address)
    else None
  }

  /** A report answers to counter `name` exactly when `name` is stored at that address in the table of that width. */
  lemma RegisterTargetSpec(selector: char, address: string, name: string)
    ensures RegisterTarget(selector, address) == Some(name) <==>
      (selector == 'D' && Lookup(MEMORY_LOCATIONS_16_BIT, name) == Some(address)) ||
      (selector == 'T' && Lookup(MEMORY_LOCATIONS_24_BIT, name) == Some(address))
  {
    CataloguesWellFormed();
    LookupInverse(MEMORY_LOCATIONS_16_BIT, name, address);
    LookupInverse(MEMORY_LOCATIONS_24_BIT, name, address);
  }

  /** Address matching is exact: by width, and by case. */
  lemma AddressMatchingIsExact()
    ensures RegisterTarget('T', "08A") == Some("total_calories")
    ensures RegisterTarget('T', "08a") == None
    ensures RegisterTarget('D', "08A") == None
    ensures RegisterTarget('D', "057") == Some("total_distance")
    ensures RegisterTarget('X', "057") == None
  {
  }

  lemma RegisterTargetIsCounter(selector: char, address: string)
    ensures RegisterTarget(selector, address).Some? ==> RegisterTarget(selector, address).value in CounterNames()
  {
  }

  /** The `@data` update of one classified line: only a report for a catalogued register changes it. */
  function UpdateCounters(data: map<string, nat>, e: DecodedEvent): (r: map<string, nat>)
    ensures r.Keys <= data.Keys + CounterNames()
  {
    if e.RegisterData? then
      match RegisterTarget(e.selector, e.address)
      case Some(name) =>
        RegisterTargetIsCounter(e.selector, e.address);
        data[name := ParseHex(e.payload)]
      case None => data
    else data
  }

  /** A report for a catalogued register sets exactly that counter to the payload's value. */
  lemma KnownRegisterSetsOneCounter(data: map<string, nat>, selector: char, address: string, payload: string, name: string)
    requires (selector == 'D' && Lookup(MEMORY_LOCATIONS_16_BIT, name) == Some(address)) ||
             (selector == 'T' && Lookup(MEMORY_LOCATIONS_24_BIT, name) == Some(address))
    ensures UpdateCounters(data, RegisterData(selector, address, payload)) == data[name := ParseHex(payload)]
  {
    RegisterTargetSpec(selector, address, name);
  }

  /** A report with another selector, or for an address not in that width's table, changes nothing. */
  lemma UnknownRegisterKeepsCounters(data: map<string, nat>, selector: char, address: string, payload: string)
    requires selector == 'D' ==> forall i | 0 <= i < |MEMORY_LOCATIONS_16_BIT| :: MEMORY_LOCATIONS_16_BIT[i].1 != address
    requires selector == 'T' ==> forall i | 0 <= i < |MEMORY_LOCATIONS_24_BIT| :: MEMORY_LOCATIONS_24_BIT[i].1 != address
    ensures UpdateCounters(data, RegisterData(selector, address, payload)) == data
  {
  }

  /** Every other class of line leaves the counters alone. */
  lemma OtherLinesKeepCounters(data: map<string, nat>, line: string)
    requires !Decode(line).RegisterData?
    ensures UpdateCounters(data, Decode(line)) == data
  {
  }

  /** `IDD0570A0D` reports a total distance of 0x0A0D = 2573 meters. */
  lemma DistanceReport(data: map<string, nat>)
    ensures UpdateCounters(data, Decode("IDD0570A0D\r\n")) == data["total_distance" := 2573]
  {
    var line := "IDD0570A0D\r\n";
    var e := RegisterData('D', "057", "0A0D");
    assert Encode(e) == line;
    DecodeEncode(e);
    CaseInsensitive();
  }

  // ---------------------------------------------------------------- strokes and callbacks

  /** The stroke timestamps after a line classified as `e` arrived at time `now`. */
  function Track(times: StrokeTimes, e: DecodedEvent, now: int): StrokeTimes {
    match e
    case StrokeStart => times.(start := now)
    case StrokeEnd => times.(finish := now)
    case _ => times
  }

  /**
    The callbacks a line classified as `e` invokes, given the timestamps after it: a stroke end
    reports the duration, a reset acknowledgement calls the reset callback.
  */
  function Dispatch(times: StrokeTimes, e: DecodedEvent, strokeCallback: Option<nat>, resetCallback: Option<nat>): seq<Notification> {
    match e
    case StrokeEnd => StrokeNotice(times, strokeCallback)
    case ResetAcknowledged => if resetCallback.Some? then [ResetNotified(resetCallback.value)] else []
    case _ => []
  }

  /** A start at `t1` and an end at `t2` report `t2 - t1` to the stroke callback, and only to it. */
  lemma StrokeCycle(times: StrokeTimes, t1: int, t2: int, h: nat, resetCallback: Option<nat>)
    ensures Track(Track(times, StrokeStart, t1), StrokeEnd, t2) == StrokeTimes(t1, t2)
    ensures Dispatch(StrokeTimes(t1, t2), StrokeEnd, Some(h), resetCallback) == [StrokeCompleted(h, t2 - t1)]
    ensures Dispatch(StrokeTimes(t1, t2), StrokeEnd, None, resetCallback) == []
  {
  }

  /** There is no phase guard: a second end with no new start reports again, measured from the old start. */
  lemma RepeatedStrokeEnd(times: StrokeTimes, t1: int, t2: int, t3: int, h: nat)
    ensures Track(Track(Track(times, StrokeStart, t1), StrokeEnd, t2), StrokeEnd, t3) == StrokeTimes(t1, t3)
    ensures Dispatch(StrokeTimes(t1, t3), StrokeEnd, Some(h), None) == [StrokeCompleted(h, t3 - t1)]
  {
  }

  /** Only stroke lines move the timestamps, each its own one; only stroke ends and resets notify. */
  lemma OnlyStrokeLinesMoveTimes(times: StrokeTimes, e: DecodedEvent, now: int, sc: Option<nat>, rc: Option<nat>)
    ensures Track(times, e, now).start == (if e.StrokeStart? then now else times.start)
    ensures Track(times, e, now).finish == (if e.StrokeEnd? then now else times.finish)
    ensures !e.StrokeEnd? && !e.ResetAcknowledged? ==> Dispatch(times, e, sc, rc) == []
  {
  }

  /** A pulse line changes nothing, even one that also carries a stroke marker. */
  lemma PulseChangesNothing(data: map<string, nat>, times: StrokeTimes, now: int, sc: Option<nat>, rc: Option<nat>)
    ensures UpdateCounters(data, Decode("PSS\r\n")) == data
    ensures Track(times, Decode("PSS\r\n"), now) == times
    ensures Dispatch(times, Decode("PSS\r\n"), sc, rc) == []
  {
    ClassificationPriority();
  }

  // ---------------------------------------------------------------- the loop over many lines

  /** The times at which `query_if_necessary` polls over successive iterations. */
  function PollTimes(lastUpdate: int, ticks: seq<Tick>): seq<int> {
    if |ticks| == 0 then []
    else
      var earlier := PollTimes(lastUpdate, ticks[..|ticks| - 1]);
      var now := ticks[|ticks| - 1].pollTime;
      if PollDue(now, LastOf(lastUpdate, earlier)) then earlier + [now] else earlier
  }

  /** `@last_update` after polls at `polls`. */
  function LastOf(lastUpdate: int, polls: seq<int>): int {
    if |polls| == 0 then lastUpdate else polls[|polls| - 1]
  }

  /** Polls happen more than `UPDATE_STATE_EVERY` apart, the first one that long after `lastUpdate`. */
  lemma {:induction false} PollsSpaced(lastUpdate: int, ticks: seq<Tick>)
    ensures var p := PollTimes(lastUpdate, ticks);
      (|p| > 0 ==> p[0] - lastUpdate > UPDATE_STATE_EVERY) &&
      forall i | 0 < i < |p| :: p[i] - p[i - 1] > UPDATE_STATE_EVERY
  {
    if |ticks| > 0 {
      PollsSpaced(lastUpdate, ticks[..|ticks| - 1]);
    }
  }

  /** One more tick adds its poll time to the polls exactly when a poll is due then. */
  lemma PollTimesStep(lastUpdate: int, ticks: seq<Tick>, i: int)
    requires 0 <= i < |ticks|
    ensures var p := PollTimes(lastUpdate, ticks[..i]);
      PollTimes(lastUpdate, ticks[..i + 1]) == if PollDue(ticks[i].pollTime, LastOf(lastUpdate, p)) then p + [ticks[i].pollTime] else p
  {
    assert ticks[..i + 1][..i] == ticks[..i];
  }

  /** One more tick applies its line to the counters, the stroke times and the notifications. */
  lemma LineFoldsStep(data: map<string, nat>, times: StrokeTimes, sc: Option<nat>, rc: Option<nat>, ticks: seq<Tick>, i: int)
    requires 0 <= i < |ticks|
    ensures CountersAfter(data, ticks[..i + 1]) == UpdateCounters(CountersAfter(data, ticks[..i]), Decode(ticks[i].line))
    ensures TimesAfter(times, ticks[..i + 1]) == Track(TimesAfter(times, ticks[..i]), Decode(ticks[i].line), ticks[i].lineTime)
    ensures NotificationsAfter(times, sc, rc, ticks[..i + 1]) ==
      NotificationsAfter(times, sc, rc, ticks[..i]) + Dispatch(TimesAfter(times, ticks[..i + 1]), Decode(ticks[i].line), sc, rc)
  {
    assert ticks[..i + 1][..i] == ticks[..i];
  }

  function CountersAfter(data: map<string, nat>, ticks: seq<Tick>): map<string, nat> {
    if |ticks| == 0 then data
    else UpdateCounters(CountersAfter(data, ticks[..|ticks| - 1]), Decode(ticks[|ticks| - 1].line))
  }

  function TimesAfter(times: StrokeTimes, ticks: seq<Tick>): StrokeTimes {
    if |ticks| == 0 then times
    else
      var last := ticks[|ticks| - 1];
      Track(TimesAfter(times, ticks[..|ticks| - 1]), Decode(last.line), last.lineTime)
  }

  function NotificationsAfter(times: StrokeTimes, strokeCallback: Option<nat>, resetCallback: Option<nat>, ticks: seq<Tick>): seq<Notification> {
    if |ticks| == 0 then []
    else
      NotificationsAfter(times, strokeCallback, resetCallback, ticks[..|ticks| - 1]) +
      Dispatch(TimesAfter(times, ticks), Decode(ticks[|ticks| - 1].line), strokeCallback, resetCallback)
  }

  /** Over a whole run, `@data` only ever holds catalogued counters. */
  lemma {:induction false} CountersAfterKeys(data: map<string, nat>, ticks: seq<Tick>)
    ensures CountersAfter(data, ticks).Keys <= data.Keys + CounterNames()
  {
    if |ticks| > 0 {
      CountersAfterKeys(data, ticks[..|ticks| - 1]);
    }
  }

  /** Lines that are not register reports leave the counters of a run unchanged. */
  lemma {:induction false} CountersOnlyFromReports(data: map<string, nat>, ticks: seq<Tick>)
    requires forall i | 0 <= i < |ticks| :: !Decode(ticks[i].line).RegisterData?
    ensures CountersAfter(data, ticks) == data
  {
    if |ticks| > 0 {
      CountersOnlyFromReports(data, ticks[..|ticks| - 1]);
    }
  }
}
