/**
  What both session variants share: the command constants and polling interval, register
  catalogues and their two lookups, the framing of a command on the wire, the poll test, and
  the records of stroke timing and of callback invocations.
*/
module Console {
  import opened Text

  /** Milliseconds between two polls of the counters. */
  const UPDATE_STATE_EVERY: int := 1000

  const COMMAND_START: string := "USB"
  const COMMAND_EXIT: string := "EXIT"
  /** The 16-bit read request; the older variant uses it for every register. */
  const COMMAND_READ_DATA_16_BIT: string := "IRD"
  const COMMAND_READ_DATA_24_BIT: string := "IRT"

  /** A register catalogue: (counter name, address code) pairs in the order a Ruby Hash literal keeps them. */
  type Table = seq<(string, string)>

  function Names(t: Table): set<string> {
    set i | 0 <= i < |t| :: t[i].0
  }

  predicate UniqueNames(t: Table) {
    forall i, j | 0 <= i < j < |t| :: t[i].0 != t[j].0
  }

  predicate UniqueAddresses(t: Table) {
    forall i, j | 0 <= i < j < |t| :: t[i].1 != t[j].1
  }

  /** `table[name]`: the address of the entry named `name`, or `nil`. */
  function Lookup(t: Table, name: string): (r: Option<string>)
    ensures r.None? <==> name !in Names(t)
    ensures r.Some? ==> exists i | 0 <= i < |t| :: t[i] == (name, r.value)
  {
    if |t| == 0 then None
    else if t[0].0 == name then Some(t[0].1)
    else
      var r := Lookup(t[1..], name);
      assert forall i | 0 < i < |t| :: t[1..][i - 1] == t[i];
      assert Names(t) == {t[0].0} + Names(t[1..]);
      r
  }

  /** `table.select { |k, v| v == address }.first`: the name of the first entry whose address is `address`, or `nil`. */
  function ReverseLookup(t: Table, address: string): (r: Option<string>)
    ensures r.None? <==> forall i | 0 <= i < |t| :: t[i].1 != address
    ensures r.Some? ==> exists i | 0 <= i < |t| :: t[i] == (r.value, address) && forall j | 0 <= j < i :: t[j].1 != address
  {
    if |t| == 0 then None
    else if t[0].1 == address then Some(t[0].0)
    else
      var r := ReverseLookup(t[1..], address);
      assert forall i | 0 < i < |t| :: t[1..][i - 1] == t[i];
      r
  }

  /** In a catalogue whose names are distinct, looking an entry up by its name finds its own address. */
  lemma LookupEntry(t: Table, i: int)
    requires UniqueNames(t) && 0 <= i < |t|
    ensures Lookup(t, t[i].0) == Some(t[i].1)
  {
    var r := Lookup(t, t[i].0);
    assert t[i].0 in Names(t);
    var j :| 0 <= j < |t| && t[j] == (t[i].0, r.value);
    assert j == i;
  }

  /**
    When names and addresses are both distinct, the reverse lookup inverts the lookup: an
    address answers to exactly the name stored with it.
  */
  lemma LookupInverse(t: Table, name: string, address: string)
    requires UniqueNames(t) && UniqueAddresses(t)
    ensures Lookup(t, name) == Some(address) <==> ReverseLookup(t, address) == Some(name)
  {
    if Lookup(t, name) == Some(address) {
      var i :| 0 <= i < |t| && t[i] == (name, address);
      var r := ReverseLookup(t, address);
      assert r.Some?;
      var j :| 0 <= j < |t| && t[j] == (r.value, address) && forall k | 0 <= k < j :: t[k].1 != address;
      assert i == j;
    }
    if ReverseLookup(t, address) == Some(name) {
      var j :| 0 <= j < |t| && t[j] == (name, address) && forall k | 0 <= k < j :: t[k].1 != address;
      LookupEntry(t, j);
    }
  }

  /**
    `request_data_…(name)`: the read request the named counter is polled with, `command`
    followed by its address, or nothing for a name the catalogue does not list.
  */
  function Request(command: string, t: Table, name: string): (r: Option<string>)
    ensures r.Some? <==> name in Names(t)
    ensures r.Some? ==> exists i | 0 <= i < |t| :: t[i].0 == name && r.value == command + t[i].1
  {
    match Lookup(t, name)
    case Some(address) => Some(command + address)
    case None => None
  }

  /** The read requests of `query!` over one catalogue: one per entry, in catalogue order. */
  function RequestsFor(command: string, t: Table): (r: seq<string>)
    ensures |r| == |t|
  {
    if |t| == 0 then [] else RequestsFor(command, t[..|t| - 1]) + [command + t[|t| - 1].1]
  }

  /** The request at position `i` is the one for the catalogue entry at position `i`. */
  lemma {:induction false} RequestsForAt(command: string, t: Table, i: int)
    requires 0 <= i < |t|
    ensures RequestsFor(command, t)[i] == command + t[i].1
  {
    if i < |t| - 1 {
      RequestsForAt(command, t[..|t| - 1], i);
    }
  }

  /** One more entry of a catalogue adds its own request, and `request_data_…` of that entry's name issues it. */
  lemma RequestsForStep(command: string, t: Table, i: int)
    requires UniqueNames(t) && 0 <= i < |t|
    ensures Request(command, t, t[i].0) == Some(command + t[i].1)
    ensures RequestsFor(command, t[..i + 1]) == RequestsFor(command, t[..i]) + [command + t[i].1]
  {
    LookupEntry(t, i);
    assert t[..i + 1][..i] == t[..i];
  }

  /** What `write(command)` puts on the wire. */
  function Frame(command: string): string {
    command + CRLF
  }

  /** The frames of a sequence of commands, one write each. */
  function Framed(commands: seq<string>): (r: seq<string>)
    ensures |r| == |commands|
  {
    if |commands| == 0 then [] else Framed(commands[..|commands| - 1]) + [Frame(commands[|commands| - 1])]
  }

  lemma {:induction false} FramedAppend(a: seq<string>, b: seq<string>)
    ensures Framed(a + b) == Framed(a) + Framed(b)
  {
    if |b| == 0 {
      assert a + b == a;
    } else {
      assert (a + b)[..|a + b| - 1] == a + b[..|b| - 1];
      FramedAppend(a, b[..|b| - 1]);
    }
  }

  /** `n` repetitions of `frames` back to back. */
  function Repeat(frames: seq<string>, n: nat): (r: seq<string>)
    ensures |r| == n * |frames|
  {
    if n == 0 then [] else Repeat(frames, n - 1) + frames
  }

  /**
    `Time.now - @last_update > UPDATE_STATE_EVERY / 1000.0`, with both times in whole
    milliseconds: polling is due only once strictly more than the interval has passed.
  */
  predicate PollDue(now: int, lastUpdate: int) {
    now - lastUpdate > UPDATE_STATE_EVERY
  }

  lemma PollBoundary(lastUpdate: int)
    ensures !PollDue(lastUpdate + UPDATE_STATE_EVERY, lastUpdate)
    ensures PollDue(lastUpdate + UPDATE_STATE_EVERY + 1, lastUpdate)
    ensures forall now :: PollDue(now, lastUpdate) ==> now > lastUpdate + UPDATE_STATE_EVERY
  {
  }

  /**
    One iteration of `main_loop` as the loop sees it: the clock when polling is considered, the
    line `read` returns and the clock when that line is classified.
  */
  datatype Tick = Tick(pollTime: int, lineTime: int, line: string)

  /** The times the console last reported a stroke start (`SS`) and a stroke end (`SE`). */
  datatype StrokeTimes = StrokeTimes(start: int, finish: int) {
    /** `@last_stroke_end - @last_stroke_start`, the duration reported at a stroke end. */
    function Duration(): int {
      finish - start
    }
  }

  /**
    A callback invocation, recorded in order instead of being run on a thread of its own.
    A registered callback is identified by a handle.
  */
  datatype Notification = StrokeCompleted(handler: nat, duration: int) | ResetNotified(handler: nat)

  /** `notify_of_stroke`: one stroke notification when a stroke callback is registered, none otherwise. */
  function StrokeNotice(times: StrokeTimes, strokeCallback: Option<nat>): (r: seq<Notification>)
    ensures strokeCallback.None? ==> r == []
    ensures strokeCallback.Some? ==> r == [StrokeCompleted(strokeCallback.value, times.finish - times.start)]
  {
    match strokeCallback
    case Some(h) => [StrokeCompleted(h, times.Duration())]
    case None => []
  }
}
