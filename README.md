# ShinySDR: Flightradar24 telemetry and the concatenated stream reader

This project models two pieces of ShinySDR in Dafny and proves properties
of them.

**The Flightradar24 plugin** polls a web feed of aircraft positions. It
hands each aircraft record to the telemetry store's `Aircraft` objects.

- `Aircraft.receive` takes a positional record of at least 17 fields. It
  builds a sparse `Track` update: a field is written only when its source
  value is truthy. Latitude and longitude are written only together. Feet,
  knots and feet per minute are converted to metric units. It replaces the
  seven-field `FlightInfo` wholesale and records the record's time as
  last-heard.
- `is_interesting` and `get_object_expiry` are queries on that state.
- The client `_Flightradar24Client` has two parts:
  - an enable/disable state machine, which holds a polling loop exactly
    while enabled;
  - a poll, which requests nothing when no device context is attached and
    otherwise hands every array entry of the feed body to every attached
    context, until a context's `output_message` raises.

**The HTTP application's helpers** are these:

- `ConcatenatedReaders` presents several file-like buffers as one stream,
  with `seek` and `read`;
- `WrappedStaticFile` serves a file between a prefix and a suffix;
- the manifest's `short_name` rule;
- `_make_cap_url`.

Files:

- `telemetry.dfy` (module `Telemetry`) defines the shared values:
  - loosely typed feed fields (`Raw`) and Python truthiness;
  - `TelemetryItem`;
  - the `Track` record and its `_replace`.
- `flightradar24.dfy` (module `Flightradar24`) defines:
  - the unit constants;
  - `FlightInfo`;
  - the value-level meaning of a receive (`Received`);
  - the `Aircraft` class, whose `Receive` updates its fields in place;
  - a `LoopingCall` stand-in;
  - the `Flightradar24Client` class.
- `flightradar24_properties.dfy` (module `Flightradar24Properties`) holds
  lemmas about single records, sequences of records, concrete records and
  the fan-out of a poll.
- `app.dfy` (module `App`) holds the buffers and the `ConcatenatedReaders`
  class, whose `Seek` and `Read` loop over the files in place. It also
  holds the wrapped static file, `ShortName` and `MakeCapUrl`.

Modelling choices:

- A feed field is `Null`, a number (an exact `real`) or a string.
- Multiplying a truthy string by a unit factor raises `TypeError`.
- A record shorter than 17 fields raises `IndexError`.
- Both errors are modelled, and on either one nothing changes, as in the
  source, where every read and multiplication comes before the first
  assignment.
- Each unit constant is built from its parts as in the source.

The climb-rate factor is modelled as written. The plugin's
`_FEET_PER_MINUTE_TO_METERS_PER_SECOND` is `_METERS_PER_FEET * 60` =
18.288, which multiplies by 60 where the physical feet-per-minute
conversion divides by 60. `ConversionFactors` states its value and its
ratio to the physical factor.

## Model

| member | source | states |
|---|---|---|
| Telemetry.Track.Replace | shinysdr/plugins/flightradar24/__init__.py:221-222 | `_replace(**new)`: each field named in the update takes the given item; every other field keeps its own |
| Telemetry.ReplaceNothing | shinysdr/plugins/flightradar24/__init__.py:221-222 | an empty update leaves the track unchanged, so skipping `_replace` when `new` is empty changes nothing |
| Telemetry.ReplaceTwice | shinysdr/plugins/flightradar24/__init__.py:221-222 | applying the same update twice equals applying it once |
| Flightradar24.ConversionFactors | shinysdr/plugins/flightradar24/__init__.py:46-52 | metres per foot is 0.3048; knots to m/s is 1852/3600; the climb factor as written is 18.288, which is 3600 times the physical factor |
| Flightradar24.Received | shinysdr/plugins/flightradar24/__init__.py:175-233 | `IndexError` exactly when the record has fewer than 17 fields; `TypeError` exactly when a truthy non-number at index 4, 5 or 15 would be multiplied. Otherwise: last-heard is index 10; flight info is indices (16,9,11,12,13,6,8) verbatim, nulls included; lat/lon are taken from indices 1 and 2 only when both are truthy; altitude is ×0.3048 and h_speed is ×1852/3600; heading and track angle both take index 3; v_speed is ×18.288. Every written item is stamped with index 10, and every other field keeps its item |
| Flightradar24.ReceivedValue | shinysdr/plugins/flightradar24/__init__.py:204-233 | a record that raises nothing gives the old track with its sparse update applied, the record's flight info and its time as last-heard |
| Flightradar24.AircraftState.IsInteresting | shinysdr/plugins/flightradar24/__init__.py:236-245 | the aircraft is interesting exactly when it has a latitude or a longitude value, or its flight info has a non-null callsign or registration; `InterestingAfterReceive` gives it after each record |
| Flightradar24.AircraftState.ObjectExpiry | shinysdr/plugins/flightradar24/__init__.py:247-249 | the expiry is last-heard + 60 when last-heard is a number; otherwise it is `TypeError` |
| Flightradar24.Aircraft.constructor | shinysdr/plugins/flightradar24/__init__.py:166-172 | a new aircraft has the empty track, the empty flight info and no last-heard time, and is not interesting |
| Flightradar24.Aircraft.Receive | shinysdr/plugins/flightradar24/__init__.py:175-233 | on an error it returns the exception and leaves all three fields unchanged; otherwise the new state is exactly `Received` of the old state and the record |
| Flightradar24.LoopingCall.constructor | shinysdr/plugins/flightradar24/__init__.py:86 | a new loop is not running |
| Flightradar24.LoopingCall.Start | shinysdr/plugins/flightradar24/__init__.py:88 | only a loop that is not running may be started; afterwards it runs at the given interval |
| Flightradar24.LoopingCall.Stop | shinysdr/plugins/flightradar24/__init__.py:90 | the loop no longer runs; only a running loop may be stopped |
| Flightradar24.Flightradar24Client.constructor | shinysdr/plugins/flightradar24/__init__.py:71-77 | a new client is disabled and has no attached contexts |
| Flightradar24.Flightradar24Client.GetEnabled | shinysdr/plugins/flightradar24/__init__.py:80-81 | the client is enabled exactly while it holds a loop; with `Valid`, exactly while a loop runs |
| Flightradar24.Flightradar24Client.SetEnabled | shinysdr/plugins/flightradar24/__init__.py:79-91 | afterwards enabled equals the argument and a loop is held only while it runs. Enabling a disabled client starts a fresh loop at the 8-second interval. Enabling an enabled one keeps the same loop. Disabling stops the old loop. Setting the state the client already has changes nothing. Contexts are kept |
| Flightradar24.Flightradar24Client.Close | shinysdr/plugins/flightradar24/__init__.py:93-96 | afterwards the client is stopped and any old loop no longer runs; closing a stopped client changes nothing, so `close` is idempotent |
| Flightradar24.Flightradar24Client.AttachContext | shinysdr/plugins/flightradar24/__init__.py:98-100 | the context is appended to the list; the loop is untouched |
| Flightradar24.Flightradar24Client.MakeUrl | shinysdr/plugins/flightradar24/__init__.py:102-106 | the base URL is kept; a `bounds` parameter is present exactly when the bounds are truthy, and it is the bounds joined with commas, which splits back into the bounds |
| Flightradar24.Fanout | shinysdr/plugins/flightradar24/__init__.py:116-120 | the reference definition of one poll's messages: for each array entry in order, one message per context in order; its properties are the `Fanout*` lemmas |
| Flightradar24.EmitToAllContents | shinysdr/plugins/flightradar24/__init__.py:119-120 | the inner loop sends the record to each context, in order, exactly once |
| Flightradar24.FanoutPrefix | shinysdr/plugins/flightradar24/__init__.py:116-120 | the messages for the first n entries are the start of the whole poll's messages |
| Flightradar24.FanoutAt | shinysdr/plugins/flightradar24/__init__.py:116-120 | the message to context j for array entry i comes right after those for the earlier entries and the earlier contexts |
| Flightradar24.Delivered | shinysdr/plugins/flightradar24/__init__.py:119-122 | the messages that reach their contexts when the first `output_message` that raises ends the callback: the longest start of the poll's messages that every context takes, so the next one, if any, is refused |
| Flightradar24.DeliveredAll | shinysdr/plugins/flightradar24/__init__.py:119-120 | every message is delivered if and only if no context refuses its message |
| Flightradar24.DeliveredStops | shinysdr/plugins/flightradar24/__init__.py:119-122 | when the messages so far were taken and the next one raises, exactly the messages so far are delivered |
| Flightradar24.Flightradar24Client.SendRequest | shinysdr/plugins/flightradar24/__init__.py:108-122 | a request is made exactly when a context is attached, and it is for `MakeUrl()`. Nothing is emitted without contexts or on a failed fetch. Otherwise the emissions are the `Delivered` start of `Fanout` of the body, and the poll raised exactly when that is shorter than the whole `Fanout` |
| Flightradar24.Flightradar24Client.Process | shinysdr/plugins/flightradar24/__init__.py:114-120 | the loop emits `Delivered(Fanout(entries, contexts))`: for each array entry in order, one message per context in order, up to the first `output_message` that raises; it reports a raise exactly when some message was not delivered |
| Flightradar24.SplitJoin | shinysdr/plugins/flightradar24/__init__.py:105 | joining the bounds with commas loses nothing when no bound contains a comma: splitting gives them back |
| Flightradar24Properties.ReceivedField | shinysdr/plugins/flightradar24/__init__.py:204-222 | a field the record supplies takes its source value converted to track units, stamped with index 10; a field it does not supply keeps its previous item |
| Flightradar24Properties.NothingSuppliedKeepsTrack | shinysdr/plugins/flightradar24/__init__.py:204-222 | a record whose track sources are all falsy leaves the track exactly as it was |
| Flightradar24Properties.FalsyCoordinateBlocksPosition | shinysdr/plugins/flightradar24/__init__.py:205-209 | when either coordinate is falsy (a zero latitude, say), neither latitude nor longitude changes |
| Flightradar24Properties.BearingFeedsHeadingAndTrackAngle | shinysdr/plugins/flightradar24/__init__.py:214-218 | a truthy bearing gives heading and track angle the same item, the bearing with the record's time |
| Flightradar24Properties.ReceiveIdempotent | shinysdr/plugins/flightradar24/__init__.py:175-233 | receiving the same record a second time changes nothing more |
| Flightradar24Properties.ExpiryAfterReceive | shinysdr/plugins/flightradar24/__init__.py:247-249 | after a record with a numeric time t, the expiry is t + 60 |
| Flightradar24Properties.FreshAircraft | shinysdr/plugins/flightradar24/__init__.py:236-249 | a new aircraft is not interesting, and its expiry raises `TypeError` because it has never been heard |
| Flightradar24Properties.InterestingAfterReceive | shinysdr/plugins/flightradar24/__init__.py:205-245 | after a record, the aircraft is interesting if and only if one of these holds: the record gave a position; a coordinate was already set; the record has a non-null callsign (16); the record has a non-null registration (9) |
| Flightradar24Properties.TrackValuesPersist | shinysdr/plugins/flightradar24/__init__.py:204-222 | over any sequence of records, a track field that has a value never goes back to null |
| Flightradar24Properties.PositionKeepsInterest | shinysdr/plugins/flightradar24/__init__.py:236-245 | an aircraft that has a latitude stays interesting whatever records follow |
| Flightradar24Properties.ReceiveAllAppend | shinysdr/plugins/flightradar24/__init__.py:175-233 | receiving one more record is one more `Received` step, or no step if it raises |
| Flightradar24Properties.FlightInfoIsTheLastRecords | shinysdr/plugins/flightradar24/__init__.py:224-233 | after any sequence of records followed by a record that raises nothing, the flight info and last-heard are that record's |
| Flightradar24Properties.LastAccepted | shinysdr/plugins/flightradar24/__init__.py:175-233 | the last record of a sequence that raised nothing when received, if any: it is one of the records, of full length, with no string to multiply |
| Flightradar24Properties.FlightInfoOfLastAccepted | shinysdr/plugins/flightradar24/__init__.py:224-233 | after any sequence of records, the flight info and last-heard are those of the last record that raised nothing, or the earlier ones when every record raised |
| Flightradar24Properties.CallsignInterestCanBeLost | shinysdr/plugins/flightradar24/__init__.py:225-245 | an example: an aircraft known only by its callsign is no longer interesting after a record with no callsign, registration or position |
| Flightradar24Properties.InterestLostWithoutIdentity | shinysdr/plugins/flightradar24/__init__.py:204-245 | an aircraft without a position is not interesting after a record that raises nothing and has no position, callsign or registration, whatever its flight info was before |
| Flightradar24Properties.SampleRecordOnNewAircraft | shinysdr/plugins/flightradar24/__init__.py:175-245 | a sample record (latitude 40 at index 1, 30000 ft at 4, 450 kn at 5, time 1620000000 at 10, climb 0 at 15, callsign "UAL1" at 16) on a new aircraft gives altitude 9144 m and h_speed 231.5 m/s; the climb rate is left unchanged (0 is falsy); the flight info is read by index; the aircraft is interesting; the expiry is 1620000060 |
| Flightradar24Properties.PositionOnlyUpdate | shinysdr/plugins/flightradar24/__init__.py:204-233 | a later position-only record moves the aircraft, keeps altitude, bearing and speed, and nulls every flight info field |
| Flightradar24Properties.FanoutSize | shinysdr/plugins/flightradar24/__init__.py:116-120 | one poll emits exactly (number of array entries) × (number of contexts) messages |
| Flightradar24Properties.FanoutMembers | shinysdr/plugins/flightradar24/__init__.py:116-120 | a message is emitted if and only if its context is attached and its id and record are an array entry of the body |
| Flightradar24Properties.FanoutWithoutContexts | shinysdr/plugins/flightradar24/__init__.py:119-120 | without contexts nothing is emitted, whatever the body |
| Flightradar24Properties.FanoutSkipsNonArrays | shinysdr/plugins/flightradar24/__init__.py:117-118 | a body with no array entry emits nothing |
| App.Buffer.Read | shinysdr/i/network/app.py:195 | a buffer `read(n)` keeps the content and moves the position forward: to the end when n < 0, otherwise by n characters or to the end if fewer are left; it returns the characters it moved over |
| App.Buffer.ReadTakesFromRest | shinysdr/i/network/app.py:195 | what a buffer `read(n)` returns followed by what then remains is what remained before; all of it when n < 0, otherwise min(n, what is left) characters |
| App.ConcatFrom | shinysdr/i/network/app.py:181-190 | the stream from offset (length of files before i) + off onwards is file i from off, followed by every later file |
| App.ReadFrom | shinysdr/i/network/app.py:192-202 | the reference definition of `read(n)` from a given state, one loop turn per call; the result keeps every buffer valid, the number of files, and a current index between the old one and the end; what it returns is stated by the `ReadFrom*` lemmas |
| App.ConcatenatedReaders.constructor | shinysdr/i/network/app.py:177-179 | the reader keeps the buffers and starts at file 0 |
| App.ConcatenatedReaders.Seek | shinysdr/i/network/app.py:181-190 | contents are unchanged. Seeking to an offset within the stream picks the first file that reaches the offset and positions it there: an offset equal to what is left selects the end of that file. Every earlier file is at its end, every later file is untouched, and `read(-1)` would then return the stream from the offset. Seeking past the end leaves the current file index unchanged and every file at its end |
| App.SeekLands | shinysdr/i/network/app.py:184-189 | where `seek` stops, at the first file that reaches what is left of the offset, positioning that file there leaves exactly the stream from the offset to be read, and the offset is within the stream |
| App.RemainingWhenAllAtEnd | shinysdr/i/network/app.py:181-201 | after a seek past the end, what a following `read(-1)` returns is every file after the current one |
| App.ReadFromStep | shinysdr/i/network/app.py:194-201 | one turn of the `read` loop (read from the current file; when it ran short or n < 0, move on and rewind the next file; subtract what was read) leaves the rest of the call's outcome unchanged, with this turn's part in front |
| App.ReadFromContents | shinysdr/i/network/app.py:192-202 | `read(n)` changes positions only: every buffer keeps its content |
| App.ReadFromRemaining | shinysdr/i/network/app.py:192-202 | what `read(n)` returns followed by what then remains is what remained before: nothing is skipped or read twice |
| App.ReadFromStops | shinysdr/i/network/app.py:192-202 | `read(0)` changes nothing; for n >= 0 at most n characters come back, and fewer only when the reader ran past the last file; for n < 0 it always ends past the last file |
| App.ReadFromAmount | shinysdr/i/network/app.py:192-202 | for n > 0 `read(n)` returns exactly min(n, remaining) characters; for n < 0 it returns everything that remains |
| App.ReadFromKeepsEarlier | shinysdr/i/network/app.py:192-202 | `read(n)` does not touch the files before the current one |
| App.ReadFromFinishesPassed | shinysdr/i/network/app.py:197-201 | every file that `read(n)` moves past is left at its end |
| App.ReadFromKeepsLater | shinysdr/i/network/app.py:198-200 | files after the new current one are untouched: only the file entered is rewound |
| App.ConcatenatedReaders.Read | shinysdr/i/network/app.py:192-202 | the loop's outcome (files, current index, result) is exactly `ReadFrom` of the old state, so every `ReadFrom*` lemma holds of it. Contents are unchanged, and what is returned followed by what remains is what remained before. `read(0)` returns "" and changes nothing. For n > 0 it returns exactly min(n, remaining) characters. For n < 0 it returns everything remaining and leaves the index past the last file |
| App.WrappedStaticFile.GetFileSize | shinysdr/i/network/app.py:221-222 | the announced size is the length of the prefix, the file and the suffix served one after the other |
| App.OpenForReading | shinysdr/i/network/app.py:213-219 | a fresh reader over the prefix, the file and the suffix, each at position 0, starting at file 0 |
| App.ServeWhole | shinysdr/i/network/app.py:213-222 | reading a freshly opened wrapped file to the end yields prefix ++ file ++ suffix, exactly `getFileSize()` characters |
| App.CommonJSStaticFile | shinysdr/i/network/app.py:225-233 | the CommonJS body is served unchanged inside a 50-character RequireJS wrapper: 45 characters before, 5 after |
| App.ShortName | shinysdr/i/network/app.py:78 | the title if it has at most 12 characters (if and only if), otherwise "ShinySDR"; never longer than 12 |
| App.MakeCapUrl | shinysdr/i/network/app.py:302-304 | the URL is `quote(cap)` between a leading and a trailing slash |
| App.CapUrlsAreDistinct | shinysdr/i/network/app.py:302-304 | when quoting is injective, distinct capabilities get distinct URLs |

## Left out

- `shinysdr/plugins/limesdr.py` is not part of this model. It forwards to GNU Radio hardware blocks, which are not visible.
- HTTP and timers: `Agent.request`, `readBody` and `json.loads` are left out, and the response is a parameter (`Response`), already parsed into entries in iteration order. `LoopingCall` scheduling, its immediate first call on `start`, and the errback that prints failures are not modelled. `LoopingCall` keeps only "running" and its interval.
- Feed values: JSON booleans and nested arrays and objects inside a record are not values of `Raw`. A body value that is not a list is `NotArray`.
- `state_changed()` notifications, the `exported_value`/`setter` machinery, `ClientResourceDef` and the `plugin_client` definition are framework plumbing.
- The `Flightradar24` device factory, `AircraftWrapper.get_object_id`/`get_object_constructor` and the `IAircraft` interface are wiring. `AircraftWrapper` is a plain record. The getters `get_last_heard_time`, `get_flight_info` and `get_track` are functions that read the fields. They carry no contract beyond `State()`.
- Flightradar24.Flightradar24Client.MakeUrl: twisted's `URL.set`/`asText` encoding is not modelled. Neither is `str()` formatting of the bound numbers: bounds are given already formatted as strings.
- `shinysdr.telemetry` is not part of this model. `TelemetryItem`, `Track` and `empty_track` come from it. The model assumes that `Track` has exactly the seven fields the plugin writes (latitude, longitude, altitude, heading, track angle, horizontal and vertical speed), and that every item of `empty_track` has a null value and a null timestamp. `FreshAircraft` and the "not interesting" clause of the `Aircraft` constructor rest on that.
- App.ShortName: the title is a sequence of characters and its length counts characters. Python 2's `len` on a byte-string title counts bytes, which this model does not distinguish.
- Flightradar24.Flightradar24Client.SendRequest: the request and the arrival of its body are one step, so the contexts are those attached when the request is made. In the source, `process` reads the context list when the body arrives, and a context attached in between also gets that body. `Process` on its own reads the contexts when it is called, as the source does.
- Flightradar24.Flightradar24Client.Process: whether a context's `output_message` raises is the parameter `accepts`, a fixed function of the message for the whole callback; what the raising context did before raising, and the errback's printing of the failure, are not modelled.
- App.MakeCapUrl: `urllib.parse.quote` and the UTF-8 encoding are a function parameter. They are not modelled.
- App.ConcatenatedReaders.constructor: requires every buffer's position to be within its content. A file object positioned past its end is not modelled.
- App.ConcatenatedReaders.Seek: `offset` is a natural number. Python's behaviour for a negative offset is not modelled.
- `ConcatenatedReaders.close()` and the file objects' `close` are I/O. The rest of app.py is server and framework code.
- Floating-point rounding of the unit conversions is not modelled: the conversions use exact reals.
