# rowr_interface in Dafny

A model of the session engine that drives a WaterRower rowing-machine console over its
serial line protocol. There are two variants:

- `RowrInterface` (lib/rowr_interface.rb). It writes `USB` on start and `EXIT` on end. It polls
  five counter registers with `IRD`/`IRT` requests at most once a second. It classifies every
  line the console sends: pulse, stroke start, stroke end, register report, error, reset
  acknowledgement, or anything else. It keeps the counters in `@data` and times each stroke,
  notifying the registered callbacks.
- `Acceptor` (acceptor.rb), the older variant. It has one `IRD` catalogue and stroke markers
  matched anywhere in a line. Register reports need three decimal address digits, and the first one
  it receives raises and ends its loop. Its poll timer never moves its reference time.

Modules (one file each):

- `Text` (text.dfy): string predicates and `Option`.
- `Hex` (hex.dfy): the payload parse `("0x" + s).hex`, and a renderer to check it against.
- `Console` (console.dfy): what both variants share:
  - command constants and the 1000 ms interval;
  - register catalogues and their two lookups;
  - frames on the wire and the poll test;
  - stroke times, callback notifications and loop ticks.
- `RowrProtocol` (rowr_protocol.dfy): the pure part of `RowrInterface`:
  - the catalogues and the commands `query!` sends;
  - the classifier `Decode` and its partner `Encode`;
  - the updates of `@data`, of the stroke times and of the callbacks;
  - folds of those over a run of loop iterations.
- `RowrSession` (rowr_interface.dfy): the class `RowrInterface`, whose fields the methods update.
  Each method is specified by the functions of `RowrProtocol`.
- `AcceptorVariant` (acceptor.dfy): the catalogue, classifier, timer and class of acceptor.rb.

Modelling choices:

- **Serial port.** The port is a closed flag plus `sent`, the sequence of frames written to it.
  The line `readline` returns is an argument.
- **Time.** `Time.now` is an integer count of milliseconds, passed in.
- **Callbacks.** A callback is a handle (`nat`), and `None` stands for a call made without a block. Each callback invocation is appended to
  `notifications` instead of running on a thread of its own.
- **Main loop.** `main_loop` runs over a sequence of `Tick`s. Each tick is one iteration: the
  clock when polling is considered, the line read, and the clock when that line is handled.

Three behaviours of the code are worth stating on their own:

- Polling needs strictly more than 1000 ms since the last update; exactly 1000 ms does not poll (`Console.PollBoundary`).
- There is no stroke phase guard: a stroke end with no new stroke start reports again, from the old start (`RowrProtocol.RepeatedStrokeEnd`).
- A register payload with no leading hexadecimal digit reads as 0 rather than being rejected (`Hex.NoDigitsIsZero`).

## Model

| member | source | states |
|---|---|---|
| `Console.Lookup` | lib/rowr_interface.rb:93-94 | `table[name]` is nil exactly when the catalogue lists no such name; otherwise it is the address stored with that name |
| `Console.ReverseLookup` | lib/rowr_interface.rb:134 | `select { v == address }.first` is nil exactly when no entry has that address; otherwise it names the first entry that does |
| `Console.LookupInverse` | lib/rowr_interface.rb:134-136 | with distinct names and addresses, the reverse lookup returns `name` for `address` exactly when the lookup returns `address` for `name` |
| `Console.Request` | lib/rowr_interface.rb:92-104 | a request exists exactly for catalogued names, and it is the command followed by that name's address |
| `Console.RequestsForAt` | lib/rowr_interface.rb:180-185 | the i-th request of a catalogue loop is the command followed by the i-th entry's address |
| `Console.RequestsFor` | lib/rowr_interface.rb:180-185 | the requests of one `each` loop over a catalogue, one per entry; its ensures gives the length, and `Console.RequestsForAt` and `Console.RequestsForStep` give the request at each position and the step the loop takes |
| `Console.Frame` | lib/rowr_interface.rb:79 | what `write` puts on the wire, the command followed by CR-LF; no ensures of its own, `RowrSession.RowrInterface.Write` and `AcceptorVariant.Acceptor.Write` state it |
| `Console.Framed` | lib/rowr_interface.rb:76-82 | the frames of a sequence of writes, one per command; its ensures gives the length, and `Console.FramedAppend` shows that consecutive writes concatenate |
| `Console.PollBoundary` | lib/rowr_interface.rb:173 | exactly 1000 ms after the last update does not poll, 1001 ms does, and polling is never due at or before 1000 ms |
| `Console.PollDue` | lib/rowr_interface.rb:173 | the poll test: strictly more than 1000 ms since the last update; no ensures of its own, its boundary is stated by `Console.PollBoundary` |
| `Console.StrokeNotice` | lib/rowr_interface.rb:158-169 | a registered stroke callback gets one call with end minus start; with none registered nothing is called |
| `Hex.LeadingDigits` | lib/rowr_interface.rb:131 | the longest run of hexadecimal digits at the front of the payload: a prefix, all digits, and followed by no digit |
| `Hex.ParseHex` | lib/rowr_interface.rb:131 | `("0x" + payload).hex`: the value of the leading hexadecimal digits; no ensures of its own, it is specified by `Hex.ParseHexRoundTrip`, `Hex.LeadingZero`, `Hex.CaseInsensitive` and `Hex.NoDigitsIsZero` |
| `Hex.ParseHexRoundTrip` | lib/rowr_interface.rb:131 | parsing the rendering of any `n`, followed by anything that is not a digit, gives `n` back |
| `Hex.LeadingZero` | lib/rowr_interface.rb:131 | a leading zero leaves the value unchanged, so fixed-width reports read as their value |
| `Hex.CaseInsensitive` | lib/rowr_interface.rb:131 | `0a0d` and `0A0D` both read as 2573 |
| `Hex.NoDigitsIsZero` | lib/rowr_interface.rb:131 | a payload that starts with no digit reads as 0 rather than failing |
| `RowrProtocol.CataloguesWellFormed` | lib/rowr_interface.rb:14-23 | each catalogue has distinct names and distinct addresses, and no name is in both |
| `RowrProtocol.Request16` | lib/rowr_interface.rb:92-97 | `request_data_16_bit(name)`: `IRD` and the 16-bit address of `name`, or nothing; no ensures of its own, it is specified by `RowrProtocol.RequestsOnlyForCatalogued` and `Console.Request` |
| `RowrProtocol.Request24` | lib/rowr_interface.rb:99-104 | `request_data_24_bit(name)`: `IRT` and the 24-bit address of `name`, or nothing; no ensures of its own, it is specified by `RowrProtocol.RequestsOnlyForCatalogued` and `Console.Request` |
| `RowrProtocol.RequestsOnlyForCatalogued` | lib/rowr_interface.rb:92-104 | each width has a request exactly for its own names: `total_calories` is read only with `IRT08A`, `total_distance` only with `IRD057` |
| `RowrProtocol.QueryCommands` | lib/rowr_interface.rb:179-186 | the command list of `query!`; no ensures of its own, it is pinned to the five literal commands by `RowrProtocol.QueryCommandsInOrder` |
| `RowrProtocol.QueryCommandsInOrder` | lib/rowr_interface.rb:179-186 | `query!` sends exactly `IRD057`, `IRD140`, `IRD148`, `IRD088`, `IRT08A`, in that order |
| `RowrProtocol.Decode` | lib/rowr_interface.rb:119-155 | the ordered `case/when` classifier; no ensures of its own, it is specified by `RowrProtocol.DecodeEncode`, `RowrProtocol.RegisterLineShape`, `RowrProtocol.LeadingMarkers`, `RowrProtocol.LaterPatterns`, `RowrProtocol.ClassificationPriority` and `RowrProtocol.GarbageIsUnrecognized` |
| `RowrProtocol.DecodeRead` | lib/rowr_interface.rb:113-120 | `case data` on what `read` returns, where `nil` falls through to the else branch; no ensures of its own, the lines are specified through `RowrProtocol.DecodeEncode` and `RowrProtocol.OtherLinesKeepCounters` |
| `RowrProtocol.IsRegisterLine` | lib/rowr_interface.rb:130 | the register pattern; no ensures of its own, the shape of the lines it accepts is stated by `RowrProtocol.RegisterLineShape` |
| `RowrProtocol.DecodeEncode` | lib/rowr_interface.rb:119-155 | every event the console can send, written as its line, is classified as that event |
| `RowrProtocol.RegisterLineShape` | lib/rowr_interface.rb:130 | a line classified as a register report is `ID`, selector, three address characters, payload and CR-LF, and is exactly the line that report encodes to |
| `RowrProtocol.LeadingMarkers` | lib/rowr_interface.rb:121-129 | whatever follows, a line starting `P` is a pulse, one starting `SS` a stroke start, one starting `SE` a stroke end |
| `RowrProtocol.LaterPatterns` | lib/rowr_interface.rb:145-155 | a line that starts with none of `P`, `S`, `I` is an error if it holds `ERROR`, otherwise a reset if it holds `AKR`, otherwise unrecognized |
| `RowrProtocol.ClassificationPriority` | lib/rowr_interface.rb:119-155 | the order of the branches: `PSS` is a pulse, `SSERROR` a stroke start, `IDDERROR` a register report, `AKR ERROR` an error |
| `RowrProtocol.GarbageIsUnrecognized` | lib/rowr_interface.rb:153-155 | a line matching no pattern falls through to the else branch |
| `RowrProtocol.RegisterTarget` | lib/rowr_interface.rb:132-137 | the counter a report names by its selector and address; no ensures of its own, it is specified by `RowrProtocol.RegisterTargetSpec`, `RowrProtocol.AddressMatchingIsExact` and `RowrProtocol.RegisterTargetIsCounter` |
| `RowrProtocol.RegisterTargetSpec` | lib/rowr_interface.rb:132-137 | a report answers to counter `name` exactly when its selector is `D` and the 16-bit table stores it at that address, or `T` and the 24-bit table does |
| `RowrProtocol.AddressMatchingIsExact` | lib/rowr_interface.rb:132-137 | address matching depends on width and case: `T08A` is `total_calories`; `T08a`, `D08A` and selector `X` match nothing |
| `RowrProtocol.RegisterTargetIsCounter` | lib/rowr_interface.rb:132-137 | whatever the selector and address, a report names a catalogued counter or none |
| `RowrProtocol.UpdateCounters` | lib/rowr_interface.rb:139-143 | `@data` only ever gains catalogued counter names |
| `RowrProtocol.KnownRegisterSetsOneCounter` | lib/rowr_interface.rb:130-144 | a report for a catalogued register sets exactly that counter to the payload's value and keeps every other key |
| `RowrProtocol.UnknownRegisterKeepsCounters` | lib/rowr_interface.rb:132-139 | a report with another selector, or an address its width's table lacks, leaves `@data` unchanged |
| `RowrProtocol.OtherLinesKeepCounters` | lib/rowr_interface.rb:119-155 | every line that is not a register report leaves `@data` unchanged |
| `RowrProtocol.DistanceReport` | lib/rowr_interface.rb:130-143 | `IDD0570A0D` sets `total_distance` to 2573 |
| `RowrProtocol.Track` | lib/rowr_interface.rb:123-127 | the stroke times after a line; no ensures of its own, it is specified by `RowrProtocol.StrokeCycle`, `RowrProtocol.RepeatedStrokeEnd` and `RowrProtocol.OnlyStrokeLinesMoveTimes` |
| `RowrProtocol.Dispatch` | lib/rowr_interface.rb:126-152 | the callbacks a line invokes (`notify_of_stroke` at line 129, the reset callback at 147-152); no ensures of its own, it is specified by `RowrProtocol.StrokeCycle`, `RowrProtocol.OnlyStrokeLinesMoveTimes` and `RowrProtocol.PulseChangesNothing` |
| `RowrProtocol.StrokeCycle` | lib/rowr_interface.rb:123-129 | a start at t1 then an end at t2 leave the times (t1, t2) and report t2 - t1 to the stroke callback and nothing without one |
| `RowrProtocol.RepeatedStrokeEnd` | lib/rowr_interface.rb:126-129 | with no phase guard, a second end at t3 reports again, t3 - t1, from the old start |
| `RowrProtocol.OnlyStrokeLinesMoveTimes` | lib/rowr_interface.rb:121-152 | `SS` sets only the start time and `SE` only the end time; only stroke ends and reset acknowledgements call anything |
| `RowrProtocol.PulseChangesNothing` | lib/rowr_interface.rb:121-122 | `PSS` changes neither `@data` nor the stroke times and calls nothing |
| `RowrProtocol.PollTimes` | lib/rowr_interface.rb:171-177 | the clock readings at which a run polls; no ensures of its own, it is specified by `RowrProtocol.PollsSpaced` |
| `RowrProtocol.PollsSpaced` | lib/rowr_interface.rb:171-177 | over any run, the first poll comes more than 1000 ms after the last update and successive polls more than 1000 ms apart |
| `RowrProtocol.CountersAfterKeys` | lib/rowr_interface.rb:106-117 | over any run of the loop, `@data` holds only the keys it began with and catalogued counters |
| `RowrProtocol.CountersOnlyFromReports` | lib/rowr_interface.rb:106-117 | a run with no register report leaves `@data` as it was |
| `RowrSession.RowrInterface.Start` | lib/rowr_interface.rb:25-56 | `initialize` then `start`: all timestamps are the current time, `@data` is empty, no callbacks, the port is open and `USB` is its only frame |
| `RowrSession.RowrInterface.EachStroke` | lib/rowr_interface.rb:58-60 | the last call decides the stroke callback: its block, or none when called without one |
| `RowrSession.RowrInterface.OnReset` | lib/rowr_interface.rb:62-64 | the last call decides the reset callback: its block, or none when called without one |
| `RowrSession.RowrInterface.CurrentStatus` | lib/rowr_interface.rb:39-46 | returns a value equal to `@data`, holding only catalogued counters |
| `RowrSession.RowrInterface.End` | lib/rowr_interface.rb:66-72 | `EXIT` is written if the port was open, then `@closing` is set and the port is closed |
| `RowrSession.RowrInterface.Write` | lib/rowr_interface.rb:76-82 | an open port gets exactly the command plus CR-LF appended; a closed port gets nothing |
| `RowrSession.RowrInterface.Read` | lib/rowr_interface.rb:84-90 | the console's line while the port is open, nil once it is closed |
| `RowrSession.RowrInterface.RequestData16Bit` | lib/rowr_interface.rb:92-97 | one `IRD` frame for a name in the 16-bit table, nothing for any other name or on a closed port |
| `RowrSession.RowrInterface.RequestData24Bit` | lib/rowr_interface.rb:99-104 | one `IRT` frame for a name in the 24-bit table, nothing for any other name or on a closed port |
| `RowrSession.RowrInterface.RequestEach` | lib/rowr_interface.rb:180-185 | one catalogue loop appends the frames of its requests, in catalogue order |
| `RowrSession.RowrInterface.Query` | lib/rowr_interface.rb:179-186 | appends the frames of `IRD057`, `IRD140`, `IRD148`, `IRD088`, `IRT08A`, in that order, with the help of the in-order lemma |
| `RowrSession.RowrInterface.QueryIfNecessary` | lib/rowr_interface.rb:171-177 | polls exactly when more than 1000 ms have passed; a poll sends the query and moves `@last_update` to now, otherwise nothing changes |
| `RowrSession.RowrInterface.ParseAndUpdateInternals` | lib/rowr_interface.rb:119-156 | the new `@data`, stroke times and callback calls are those of the line's class; nil changes nothing |
| `RowrSession.RowrInterface.NotifyOfStroke` | lib/rowr_interface.rb:158-169 | one stroke report with end minus start when a stroke callback is registered, none otherwise |
| `RowrSession.RowrInterface.Iterate` | lib/rowr_interface.rb:108-115 | one pass of the loop body: nothing at all when `@closing` is set, otherwise poll, read and handle one more tick |
| `RowrSession.RowrInterface.MainLoop` | lib/rowr_interface.rb:106-117 | after `end`, no iteration and no change; otherwise every tick is handled, and the state is that of the folds over the run |
| `RowrSession.SnapshotIsACopy` | lib/rowr_interface.rb:39-46 | a snapshot taken before a line is handled keeps its values while `@data` moves on |
| `RowrSession.EndStopsTheLoop` | lib/rowr_interface.rb:109 | after `end`, `@closing` stays set and the loop runs no iteration and leaves `@data` alone |
| `RowrSession.StrokeScenario` | lib/rowr_interface.rb:123-129 | `SS` at 0 ms then `SE` at 850 ms report one 850 ms stroke to the registered handler |
| `RowrSession.ReportScenario` | lib/rowr_interface.rb:130-143 | a distance report lands in `@data` as 2573 and notifies no one |
| `AcceptorVariant.CatalogueWellFormed` | acceptor.rb:15-21 | the catalogue has distinct names and distinct addresses |
| `AcceptorVariant.RequestFor` | acceptor.rb:68-73 | `request_data(name)`: `IRD` and the address of `name`, or nothing; no ensures of its own, it is specified by `AcceptorVariant.RequestsOnlyForCatalogued` and `Console.Request` |
| `AcceptorVariant.RequestsOnlyForCatalogued` | acceptor.rb:68-73 | a request exists exactly for catalogued names: `total_time` gives `IRD05b`, and the newer `current_energy` gives none |
| `AcceptorVariant.QueryCommands` | acceptor.rb:131-135 | the command list of `query!`; no ensures of its own, it is pinned to the five `IRD` commands by `AcceptorVariant.QueryCommandsInOrder` |
| `AcceptorVariant.QueryCommandsInOrder` | acceptor.rb:131-135 | `query!` sends exactly `IRD057`, `IRD05b`, `IRD08a`, `IRD140`, `IRD148`, in catalogue order |
| `AcceptorVariant.Classify` | acceptor.rb:89-108 | the older `case/when` classifier; no ensures of its own, it is specified by `AcceptorVariant.ClassificationOrder`, `AcceptorVariant.BothMarkersStartAStroke`, `AcceptorVariant.UnanchoredMarkers` and `AcceptorVariant.RegisterLineShape` |
| `AcceptorVariant.ClassifyRead` | acceptor.rb:82-90 | `case data` on what `read` returns, where `nil` matches no `when`; no ensures of its own, the lines are specified through `AcceptorVariant.ClassificationOrder` |
| `AcceptorVariant.IsRegisterLine` | acceptor.rb:98 | the pattern `/^IDD([0-9]{3})(.*)\r\n$/` on one line; no ensures of its own, the shape of the lines it accepts is stated by `AcceptorVariant.RegisterLineShape` and its place in the order by `AcceptorVariant.ClassificationOrder` |
| `AcceptorVariant.ClassificationOrder` | acceptor.rb:89-108 | each class by the patterns alone: `SS` anywhere starts a stroke, otherwise `SE` anywhere ends one, otherwise the register pattern, and only a line matching none is ignored |
| `AcceptorVariant.BothMarkersStartAStroke` | acceptor.rb:91-97 | a line holding both `SS` and `SE`, in either order, is a stroke start |
| `AcceptorVariant.UnanchoredMarkers` | acceptor.rb:91-96 | `PSS` is a stroke start here while the newer classifier calls it a pulse; `xSE` is a stroke end |
| `AcceptorVariant.RegisterLineShape` | acceptor.rb:98 | a register line is `IDD`, three decimal digits, a payload without line feed, and CR-LF |
| `AcceptorVariant.HexAddressesUnreachable` | acceptor.rb:98 | no line reaches the register branch with the address of `total_time` (`05b`) or `total_calories` (`08a`) |
| `AcceptorVariant.DistanceReport` | acceptor.rb:98 | `IDD0570A0D` reaches the register branch with address `057` and payload `0A0D` |
| `AcceptorVariant.OnlyStrokeLinesMoveTimes` | acceptor.rb:89-97 | `SS` sets only the start time, `SE` only the end time, and only a stroke end reports |
| `AcceptorVariant.Track` | acceptor.rb:91-96 | the stroke times after a line: `SS` sets the start, `SE` the end; no ensures of its own, it is specified by `AcceptorVariant.OnlyStrokeLinesMoveTimes` |
| `AcceptorVariant.Dispatch` | acceptor.rb:97-122 | the stroke report a line triggers through `notify_of_stroke` (line 97, lines 111-122); no ensures of its own, it is specified by `AcceptorVariant.OnlyStrokeLinesMoveTimes` |
| `AcceptorVariant.DuePolls` | acceptor.rb:124-129 | the clock readings at which a run polls, against a reference time that never moves; no ensures of its own, it is specified by `AcceptorVariant.DueForever` and `AcceptorVariant.PollsUnspaced` |
| `AcceptorVariant.DueForever` | acceptor.rb:124-129 | with a clock that never goes back, once one iteration polls, every later iteration polls too |
| `AcceptorVariant.PollsUnspaced` | acceptor.rb:124-129 | ticks at 1001 and 1002 ms poll twice here, where `RowrInterface` polls once |
| `AcceptorVariant.Raises` | acceptor.rb:100-104 | a tick raises exactly when its line reaches the register branch; no ensures of its own, the first such tick is located by `AcceptorVariant.FirstRaise` |
| `AcceptorVariant.FirstRaise` | acceptor.rb:98-104 | the first tick whose line reaches the register branch, which raises; none exactly when no line of the run does |
| `AcceptorVariant.Acceptor.Start` | acceptor.rb:31-36 | the block is kept, all timestamps are the current time, and the port is open with `USB` its only frame |
| `AcceptorVariant.Acceptor.End` | acceptor.rb:42-48 | `EXIT` is written if the port was open, then `@closing` is set and the port is closed |
| `AcceptorVariant.Acceptor.Write` | acceptor.rb:52-58 | an open port gets exactly the command plus CR-LF appended; a closed port gets nothing |
| `AcceptorVariant.Acceptor.Read` | acceptor.rb:60-66 | the console's line while the port is open, nil once it is closed |
| `AcceptorVariant.Acceptor.RequestData` | acceptor.rb:68-73 | one `IRD` frame for a catalogued name, nothing for any other name or on a closed port |
| `AcceptorVariant.Acceptor.RequestEach` | acceptor.rb:132-134 | the `each` loop appends the frames of the catalogue's requests, in catalogue order |
| `AcceptorVariant.Acceptor.Query` | acceptor.rb:131-135 | appends the frames of the five `IRD` requests in catalogue order |
| `AcceptorVariant.Acceptor.QueryIfNecessary` | acceptor.rb:124-129 | polls exactly when more than 1000 ms have passed since `@last_update`, which it cannot change |
| `AcceptorVariant.Acceptor.ParseAndUpdateInternals` | acceptor.rb:89-108 | the new stroke times and reports are those of the line's class; a register report raises before it changes anything, and an ignored line changes nothing |
| `AcceptorVariant.Acceptor.NotifyOfStroke` | acceptor.rb:111-122 | one stroke report with end minus start when a block was given, none otherwise |
| `AcceptorVariant.Acceptor.Iterate` | acceptor.rb:77-85 | one pass of the loop body: nothing when `@closing` is set, otherwise poll if due, read and handle one more tick, raising exactly when its line is a register report |
| `AcceptorVariant.Acceptor.MainLoop` | acceptor.rb:75-104 | after `end` no iteration; otherwise the loop handles the ticks up to and including the first register report, whose raise ends it, or every tick when there is none, and the state is that of the folds over the ticks handled |
| `AcceptorVariant.ReportEndsTheLoop` | acceptor.rb:75-104 | a distance report followed by a stroke end ends the loop after one iteration, and the stroke is never reported |

## Left out

- The serial transport is not modelled: `SerialPort.new`, the baud rate and the device path, `readline` blocking, and `close`. The port is a flag and a list of frames.
- Threads and mutexes are not modelled. `start` returns a thread running `main_loop`, each callback runs on a thread of its own, and the `synchronize` blocks lock the port and `@data`. The model is sequential and records callback calls in order. If `end` ran from another thread, it could interleave with an iteration of the loop (between the `@closing` test and `read`); that interleaving is also left out.
- `Time.now` is not modelled. Clock readings are integer milliseconds passed in, in place of float seconds. `query_if_necessary` reads the clock twice, once for the test and once after `query!`, and the model takes both readings as the same instant. Sub-millisecond differences are left out.
- `puts` output is not modelled: the `ERROR.` message and, in acceptor.rb, the `Read:`/`Understood:` messages.
- Lines are modelled as strings of characters, so both classifiers accept every line. The port is opened without binmode, so `readline` returns a String in the default external encoding, usually UTF-8. A line holding a byte sequence invalid in that encoding makes the first `when` raise (lib/rowr_interface.rb:121, acceptor.rb:91), and that stops `main_loop`: the loop thread in `RowrInterface`, and `start` itself in `Acceptor`. The model classifies such a line and carries on; it does not capture this raise.
- Regular expressions are modelled as prefix, suffix and substring tests. `^` and `$` are read as the start and end of the line, which holds for what `readline` returns: one line, ending in its only line feed. Their multi-line meaning inside a longer string is left out.
- `Hex.ParseHex`: Ruby's `String#hex` also skips underscores between digits. Payloads with `_` are left out because the console sends none.
- Calling `write`, `read` or `end` before `start`, when `@port` is nil and Ruby raises, is left out. The constructors `RowrInterface.Start` and `Acceptor.Start` open the port.
- `current_status` returns a clone of a Ruby Hash. The model returns the map value, which later updates of `@data` cannot reach either.
- The register branch of acceptor.rb (lines 99-106) raises at line 104, before its update of `@data` at line 105. `MEMORY_LOCATIONS.find($1)` has no block, so it returns an Enumerator rather than a key, and line 104 raises a `TypeError` when it concatenates that Enumerator to a string. The model returns that raise as a flag: `Acceptor.ParseAndUpdateInternals` reports it and changes nothing, and `Acceptor.MainLoop` ends with it, as `start` would. `Acceptor` carries no `@data`. The exception object and its message are not modelled.
- acceptor.rb assigns `@port_mutex`, `@data_mutex`, `@last_update`, the stroke times and `@data` at class level (lines 23-29), where instances never see them. As written, an instance's `@port_mutex` is nil, so the first `write` of `start` raises at line 53 before `USB` is sent, and no session ever runs. `Acceptor.Start` and the rest of `Acceptor` describe the per-instance reading those lines intend: the mutexes exist and the timestamps are set when the session starts.
- In acceptor.rb, printing a nil line (line 83) raises. Without concurrency the loop never reads from a closed port, so this case is not reached in the model.
- run.rb is not part of this model: it is an entry point that calls `current_status`, which `Acceptor` does not define.
