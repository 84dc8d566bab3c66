/** The Flightradar24 plugin: a client that polls the feed and fans the
    aircraft records out to the attached device contexts, and the Aircraft
    telemetry object that merges those records. */
module Flightradar24 {
  import opened Telemetry

  datatype Option<+T> = None | Some(value: T)

  /** The feed is polled every 8 seconds. */
  const PollingInterval: nat := 8
  /** An aircraft not heard from for 60 seconds may be dropped. */
  const DropUnheardTimeoutSeconds: real := 60.0

  const SecondsPerHour: real := 60.0 * 60.0
  const MetersPerNauticalMile: real := 1852.0
  const KnotsToMetersPerSecond: real := MetersPerNauticalMile / SecondsPerHour
  const CmPerInch: real := 2.54
  const InchPerFoot: real := 12.0
  const MetersPerFeet: real := (CmPerInch * InchPerFoot) / 100.0
  /** The climb-rate factor as the plugin defines it: metres per foot times 60. */
  const FeetPerMinuteToMetersPerSecond: real := MetersPerFeet * 60.0

  /** The values the unit constants work out to. The climb-rate factor is
      3600 times the physical feet-per-minute to metres-per-second factor. */
  lemma ConversionFactors()
    ensures MetersPerFeet == 0.3048
    ensures KnotsToMetersPerSecond == 1852.0 / 3600.0
    ensures FeetPerMinuteToMetersPerSecond == 18.288
    ensures FeetPerMinuteToMetersPerSecond == 3600.0 * (MetersPerFeet / 60.0)
  {
  }

  /** What the feed says about a flight besides its position; every field may be null. */
  datatype FlightInfo = FlightInfo(
    callsign: Raw,
    registration: Raw,
    origin: Raw,
    destination: Raw,
    flight: Raw,
    squawkCode: Raw,
    model: Raw)

  const EmptyFlightInfo := FlightInfo(Null, Null, Null, Null, Null, Null, Null)

  /** The Python exceptions that `receive` and `get_object_expiry` can raise. */
  datatype Error = IndexError | TypeError

  datatype Result<+T> = Ok(value: T) | Err(error: Error)

  datatype Outcome = Done | Raised(error: Error)

  /** A record is read at indices up to 16. */
  const RecordLength: nat := 17

  /** A feed record for one object, as handed to the telemetry store. */
  datatype AircraftWrapper = AircraftWrapper(objectId: string, message: seq<Raw>)

  // ---------------------------------------------------------------------
  // Translating a record

  /** The record index that a track field is taken from. */
  function SourceIndex(f: TrackField): nat
  {
    match f
    case Latitude => 1
    case Longitude => 2
    case Altitude => 4
    case Heading => 3
    case TrackAngle => 3
    case HSpeed => 5
    case VSpeed => 15
  }

  /** Multiplication of a number by a unit factor. */
  function Scale(v: Raw, k: real): Raw
  {
    if v.Num? then Num(v.x * k) else v
  }

  /** The value a track field takes from its raw source, in the track's units. */
  function Converted(f: TrackField, v: Raw): Raw
  {
    match f
    case Altitude => Scale(v, MetersPerFeet)
    case HSpeed => Scale(v, KnotsToMetersPerSecond)
    case VSpeed => Scale(v, FeetPerMinuteToMetersPerSecond)
    case _ => v
  }

  /** Whether a record writes a track field: its source is truthy, and for the
      position both latitude and longitude are. */
  predicate Supplied(f: TrackField, d: seq<Raw>)
    requires |d| >= RecordLength
  {
    if f == Latitude || f == Longitude then Truthy(d[1]) && Truthy(d[2])
    else Truthy(d[SourceIndex(f)])
  }

  /** Whether `receive` would multiply a truthy non-number (a string) by a unit
      factor, which raises TypeError. */
  predicate MultipliesString(d: seq<Raw>)
    requires |d| >= RecordLength
  {
    (Truthy(d[4]) && !d[4].Num?) || (Truthy(d[5]) && !d[5].Num?) || (Truthy(d[15]) && !d[15].Num?)
  }

  /** The sparse track update a record carries: an item for each supplied
      field, in the field's units and stamped with the record's timestamp.
      It is built in the order the plugin builds it. */
  function TrackUpdate(d: seq<Raw>): map<TrackField, TelemetryItem>
    requires |d| >= RecordLength
  {
    WithClimb(d, WithBearing(d, WithSpeed(d, WithAltitude(d, PositionUpdate(d)))))
  }

  /** Latitude and longitude, only when both are truthy. */
  function PositionUpdate(d: seq<Raw>): map<TrackField, TelemetryItem>
    requires |d| >= RecordLength
  {
    if Truthy(d[1]) && Truthy(d[2])
    then map[Latitude := TelemetryItem(d[1], d[10]), Longitude := TelemetryItem(d[2], d[10])] else map[]
  }

  function WithAltitude(d: seq<Raw>, m: map<TrackField, TelemetryItem>): map<TrackField, TelemetryItem>
    requires |d| >= RecordLength
  {
    if Truthy(d[4]) then m[Altitude := TelemetryItem(Scale(d[4], MetersPerFeet), d[10])] else m
  }

  function WithSpeed(d: seq<Raw>, m: map<TrackField, TelemetryItem>): map<TrackField, TelemetryItem>
    requires |d| >= RecordLength
  {
    if Truthy(d[5]) then m[HSpeed := TelemetryItem(Scale(d[5], KnotsToMetersPerSecond), d[10])] else m
  }

  function WithBearing(d: seq<Raw>, m: map<TrackField, TelemetryItem>): map<TrackField, TelemetryItem>
    requires |d| >= RecordLength
  {
    if Truthy(d[3]) then m[Heading := TelemetryItem(d[3], d[10])][TrackAngle := TelemetryItem(d[3], d[10])] else m
  }

  function WithClimb(d: seq<Raw>, m: map<TrackField, TelemetryItem>): map<TrackField, TelemetryItem>
    requires |d| >= RecordLength
  {
    if Truthy(d[15]) then m[VSpeed := TelemetryItem(Scale(d[15], FeetPerMinuteToMetersPerSecond), d[10])] else m
  }


  /** The flight info a record carries, taken verbatim. */
  function FlightInfoOf(d: seq<Raw>): FlightInfo
    requires |d| >= RecordLength
  {
    FlightInfo(d[16], d[9], d[11], d[12], d[13], d[6], d[8])
  }

  /** The observable state of an Aircraft. */
  datatype AircraftState = AircraftState(track: Track, flightInfo: FlightInfo, lastHeard: Raw)
  {
    /** Whether the aircraft is worth showing: it has a position coordinate, a
        callsign or a registration. */
    predicate IsInteresting()
    {
      || track.latitude.value != Null
      || track.longitude.value != Null
      || flightInfo.callsign != Null
      || flightInfo.registration != Null
    }

    /** When the aircraft may be dropped: 60 seconds after it was last heard.
        Adding 60 to anything but a number raises TypeError, as it does before
        the first record, when last-heard is still None. */
    function ObjectExpiry(): (r: Result<real>)
      ensures r.Ok? <==> lastHeard.Num?
      ensures r.Ok? ==> r.value - 60.0 == lastHeard.x
      ensures r.Err? ==> r.error == TypeError
    {
      if lastHeard.Num? then Ok(lastHeard.x + DropUnheardTimeoutSeconds) else Err(TypeError)
    }
  }

  /** A newly constructed aircraft: empty track, empty flight info, never heard. */
  const InitialState := AircraftState(EmptyTrack, EmptyFlightInfo, Null)

  /** The state after one record is received, or the exception it raises
      (in which case nothing has been changed). */
  function Received(s: AircraftState, d: seq<Raw>): (r: Result<AircraftState>)
    ensures r.Err? <==> |d| < RecordLength || MultipliesString(d)
    ensures |d| < RecordLength ==> r == Err(IndexError)
    ensures |d| >= RecordLength && r.Err? ==> r.error == TypeError
    ensures r.Ok? ==>
      && |d| >= RecordLength
      && r.value.lastHeard == d[10]
      && r.value.flightInfo == FlightInfo(d[16], d[9], d[11], d[12], d[13], d[6], d[8])
      && r.value.track.latitude == (if Truthy(d[1]) && Truthy(d[2]) then TelemetryItem(d[1], d[10]) else s.track.latitude)
      && r.value.track.longitude == (if Truthy(d[1]) && Truthy(d[2]) then TelemetryItem(d[2], d[10]) else s.track.longitude)
      && r.value.track.altitude == (if Truthy(d[4]) then TelemetryItem(Num(d[4].x * 0.3048), d[10]) else s.track.altitude)
      && r.value.track.heading == (if Truthy(d[3]) then TelemetryItem(d[3], d[10]) else s.track.heading)
      && r.value.track.trackAngle == (if Truthy(d[3]) then TelemetryItem(d[3], d[10]) else s.track.trackAngle)
      && r.value.track.hSpeed == (if Truthy(d[5]) then TelemetryItem(Num(d[5].x * (1852.0 / 3600.0)), d[10]) else s.track.hSpeed)
      && r.value.track.vSpeed == (if Truthy(d[15]) then TelemetryItem(Num(d[15].x * 18.288), d[10]) else s.track.vSpeed)
  {
    if |d| < RecordLength then Err(IndexError)
    else if MultipliesString(d) then Err(TypeError)
    else
      var t := s.track.Replace(TrackUpdate(d));
      assert t.latitude == t.Get(Latitude) && t.longitude == t.Get(Longitude);
      assert t.altitude == t.Get(Altitude) && t.heading == t.Get(Heading);
      assert t.trackAngle == t.Get(TrackAngle) && t.hSpeed == t.Get(HSpeed) && t.vSpeed == t.Get(VSpeed);
      Ok(AircraftState(t, FlightInfoOf(d), d[10]))
  }

  /** A record that raises nothing replaces the track by its update, the
      flight info by its fields and last-heard by its time. */
  lemma ReceivedValue(s: AircraftState, d: seq<Raw>)
    requires |d| >= RecordLength && !MultipliesString(d)
    ensures Received(s, d) == Ok(AircraftState(s.track.Replace(TrackUpdate(d)), FlightInfoOf(d), d[10]))
  {
  }

  // ---------------------------------------------------------------------
  // The Aircraft telemetry object

  class Aircraft {
    var track: Track
    var flightInfo: FlightInfo
    var lastHeardTime: Raw

    /** The object id is not kept: the telemetry store knows it. */
    constructor(objectId: string)
      ensures State() == InitialState
      ensures !IsInteresting()
    {
      lastHeardTime := Null;
      track := EmptyTrack;
      flightInfo := EmptyFlightInfo;
    }

    function State(): AircraftState
      reads this
    {
      AircraftState(track, flightInfo, lastHeardTime)
    }

    /** Merges one feed record: builds the sparse track update field by field,
        applies it, and replaces last-heard and the flight info. A record that
        is too short or that has a string to convert raises before anything
        is assigned. */
    method Receive(messageWrapper: AircraftWrapper) returns (r: Outcome)
      modifies this
      ensures Received(old(State()), messageWrapper.message).Err? ==>
        r == Raised(Received(old(State()), messageWrapper.message).error) && State() == old(State())
      ensures Received(old(State()), messageWrapper.message).Ok? ==>
        r == Done && State() == Received(old(State()), messageWrapper.message).value
    {
      var d := messageWrapper.message;
      if |d| < RecordLength {
        return Raised(IndexError);
      }
      var timestamp := d[10];

      var latitude, longitude, altitude := d[1], d[2], d[4];
      var bearing, speed, rateOfClimb := d[3], d[5], d[15];

      var callsign, registration, origin, destination := d[16], d[9], d[11], d[12];
      var flight, squawkCode, model := d[13], d[6], d[8];

      var updates: map<TrackField, TelemetryItem> := map[];
      if Truthy(latitude) && Truthy(longitude) {
        updates := updates[Latitude := TelemetryItem(latitude, timestamp)];
        updates := updates[Longitude := TelemetryItem(longitude, timestamp)];
      }
      assert updates == PositionUpdate(d);
      if Truthy(altitude) {
        if !altitude.Num? {
          assert MultipliesString(d);
          return Raised(TypeError);
        }
        updates := updates[Altitude := TelemetryItem(Num(altitude.x * MetersPerFeet), timestamp)];
      }
      assert updates == WithAltitude(d, PositionUpdate(d));
      if Truthy(speed) {
        if !speed.Num? {
          assert MultipliesString(d);
          return Raised(TypeError);
        }
        updates := updates[HSpeed := TelemetryItem(Num(speed.x * KnotsToMetersPerSecond), timestamp)];
      }
      assert updates == WithSpeed(d, WithAltitude(d, PositionUpdate(d)));
      if Truthy(bearing) {
        updates := updates[Heading := TelemetryItem(bearing, timestamp)];
        updates := updates[TrackAngle := TelemetryItem(bearing, timestamp)];
      }
      assert updates == WithBearing(d, WithSpeed(d, WithAltitude(d, PositionUpdate(d))));
      if Truthy(rateOfClimb) {
        if !rateOfClimb.Num? {
          assert MultipliesString(d);
          return Raised(TypeError);
        }
        updates := updates[VSpeed := TelemetryItem(Num(rateOfClimb.x * FeetPerMinuteToMetersPerSecond), timestamp)];
      }
      assert updates == TrackUpdate(d);
      ReceivedValue(State(), d);
      if updates != map[] {
        track := track.Replace(updates);
      } else {
        ReplaceNothing(track);
      }

      lastHeardTime := timestamp;
      flightInfo := FlightInfo(callsign, registration, origin, destination, flight, squawkCode, model);
      r := Done;
    }

    function IsInteresting(): bool
      reads this
    {
      State().IsInteresting()
    }

    function GetObjectExpiry(): Result<real>
      reads this
    {
      State().ObjectExpiry()
    }

    function GetLastHeardTime(): Raw
      reads this
    {
      lastHeardTime
    }

    function GetFlightInfo(): FlightInfo
      reads this
    {
      flightInfo
    }

    function GetTrack(): Track
      reads this
    {
      track
    }
  }

  // ---------------------------------------------------------------------
  // The feed client

  /** The part of a Twisted LoopingCall the client relies on: whether it runs,
      and at what interval. */
  class LoopingCall {
    var running: bool
    var interval: nat

    constructor()
      ensures !running
    {
      running := false;
      interval := 0;
    }

    /** Starting a loop that already runs is an error in Twisted. */
    method Start(interval: nat)
      requires !running
      modifies this
      ensures running && this.interval == interval
    {
      running := true;
      this.interval := interval;
    }

    /** Stopping a loop that is not running is an error in Twisted. */
    method Stop()
      requires running
      modifies this
      ensures !running && interval == old(interval)
    {
      running := false;
    }
  }

  /** A device context that receives the client's messages, by identity. */
  type ContextRef = nat

  /** One value of the feed's top-level JSON object: an aircraft record, or
      anything else (the feed mixes in metadata). */
  datatype FeedValue = Array(fields: seq<Raw>) | NotArray

  /** The result of one request: a failure (network or JSON), or the entries
      of the body's top-level object in iteration order. */
  datatype Response = FetchFailed | Body(entries: seq<(string, FeedValue)>)

  /** A message handed to a device context. */
  datatype Emission = Emission(context: ContextRef, message: AircraftWrapper)

  /** The request URL: the base URL and, when there are bounds, the value of
      its `bounds` query parameter. */
  datatype Url = Url(base: string, boundsParam: Option<string>)

  /** `sep.join(parts)`. */
  function Join(parts: seq<string>, sep: char): string
  {
    if |parts| == 0 then []
    else if |parts| == 1 then parts[0]
    else parts[0] + [sep] + Join(parts[1..], sep)
  }

  /** `s.split(sep)`: the pieces between separators, always at least one. */
  function Split(s: string, sep: char): (r: seq<string>)
    ensures |r| >= 1
  {
    if s == [] then [[]]
    else
      var rest := Split(s[1..], sep);
      if s[0] == sep then [[]] + rest else [[s[0]] + rest[0]] + rest[1..]
  }

  /** Every message `process` emits for the entries, in order: for each array
      entry, one message per attached context; other entries emit nothing. */
  function Fanout(entries: seq<(string, FeedValue)>, contexts: seq<ContextRef>): seq<Emission>
  {
    if entries == [] then []
    else
      var last := entries[|entries| - 1];
      Fanout(entries[..|entries| - 1], contexts)
        + (if last.1.Array? then EmitToAll(contexts, AircraftWrapper(last.0, last.1.fields)) else [])
  }

  /** One message to each context, in order. */
  function EmitToAll(contexts: seq<ContextRef>, message: AircraftWrapper): seq<Emission>
  {
    if contexts == [] then []
    else EmitToAll(contexts[..|contexts| - 1], message) + [Emission(contexts[|contexts| - 1], message)]
  }

  /** Every message goes to an attached context with an array entry's record. */
  lemma {:induction false} EmitToAllContents(contexts: seq<ContextRef>, message: AircraftWrapper)
    ensures |EmitToAll(contexts, message)| == |contexts|
    ensures forall k :: 0 <= k < |contexts| ==> EmitToAll(contexts, message)[k] == Emission(contexts[k], message)
  {
    if contexts != [] {
      EmitToAllContents(contexts[..|contexts| - 1], message);
    }
  }

  /** The messages of a poll up to the first array entry `n`: the start of
      the whole poll's messages. */
  lemma {:induction false} FanoutPrefix(entries: seq<(string, FeedValue)>, contexts: seq<ContextRef>, n: nat)
    requires n <= |entries|
    ensures |Fanout(entries[..n], contexts)| <= |Fanout(entries, contexts)|
    ensures Fanout(entries, contexts)[..|Fanout(entries[..n], contexts)|] == Fanout(entries[..n], contexts)
    decreases |entries| - n
  {
    if n == |entries| {
      assert entries[..n] == entries;
    } else {
      var whole := Fanout(entries, contexts);
      var longer := Fanout(entries[..n + 1], contexts);
      var shorter := Fanout(entries[..n], contexts);
      FanoutPrefix(entries, contexts, n + 1);
      assert entries[..n + 1][..n] == entries[..n];
      assert longer[..|shorter|] == shorter;
      assert whole[..|longer|][..|shorter|] == whole[..|shorter|];
    }
  }

  /** The message to context j for array entry i sits right after the messages
      for the entries before i and for the contexts before j. */
  lemma FanoutAt(entries: seq<(string, FeedValue)>, contexts: seq<ContextRef>, i: nat, j: nat)
    requires i < |entries| && entries[i].1.Array? && j < |contexts|
    ensures var message := AircraftWrapper(entries[i].0, entries[i].1.fields);
      var sent := Fanout(entries[..i], contexts) + EmitToAll(contexts[..j], message);
      && |sent| < |Fanout(entries, contexts)|
      && Fanout(entries, contexts)[..|sent|] == sent
      && Fanout(entries, contexts)[|sent|] == Emission(contexts[j], message)
  {
    var message := AircraftWrapper(entries[i].0, entries[i].1.fields);
    var before := Fanout(entries[..i], contexts);
    var here := EmitToAll(contexts, message);
    var upTo := Fanout(entries[..i + 1], contexts);
    var whole := Fanout(entries, contexts);
    assert entries[..i + 1][..i] == entries[..i];
    assert upTo == before + here;
    EmitToAllContents(contexts, message);
    EmitToAllContents(contexts[..j], message);
    assert here[..j] == EmitToAll(contexts[..j], message);
    FanoutPrefix(entries, contexts, i + 1);
    var sent := before + EmitToAll(contexts[..j], message);
    assert upTo[..|sent|] == sent;
    assert whole[..|sent|] == whole[..|upTo|][..|sent|];
    assert whole[|sent|] == upTo[|sent|] == here[j];
  }

  /** The messages that reach their contexts when delivery ends at the first
      message whose `output_message` raises: the longest start of `emissions`
      that every context accepted. */
  function Delivered(emissions: seq<Emission>, accepts: Emission -> bool): (r: seq<Emission>)
    ensures |r| <= |emissions| && r == emissions[..|r|]
    ensures forall k :: 0 <= k < |r| ==> accepts(r[k])
    ensures |r| < |emissions| ==> !accepts(emissions[|r|])
  {
    if emissions == [] || !accepts(emissions[0]) then []
    else [emissions[0]] + Delivered(emissions[1..], accepts)
  }

  /** Every message is delivered if and only if every context accepts its message. */
  lemma DeliveredAll(emissions: seq<Emission>, accepts: Emission -> bool)
    ensures Delivered(emissions, accepts) == emissions <==> forall k :: 0 <= k < |emissions| ==> accepts(emissions[k])
  {
  }

  /** When every message of `sent` was accepted and the next one raises,
      exactly `sent` is delivered. */
  lemma {:induction false} DeliveredStops(emissions: seq<Emission>, sent: seq<Emission>, accepts: Emission -> bool)
    requires |sent| < |emissions| && emissions[..|sent|] == sent
    requires forall k :: 0 <= k < |sent| ==> accepts(sent[k])
    requires !accepts(emissions[|sent|])
    ensures Delivered(emissions, accepts) == sent
  {
    if sent != [] {
      assert emissions[0] == sent[0];
      assert emissions[1..][..|sent| - 1] == sent[1..];
      DeliveredStops(emissions[1..], sent[1..], accepts);
      assert sent == [sent[0]] + sent[1..];
    }
  }

  class Flightradar24Client {
    const bounds: Option<seq<string>>
    const baseUrl: string
    var deviceContexts: seq<ContextRef>
    var loop: LoopingCall?

    /** A loop is held exactly while it runs. */
    ghost predicate Valid()
      reads this, loop
    {
      loop != null ==> loop.running
    }

    /** `bounds` holds the four bounds already formatted as text. */
    constructor(bounds: Option<seq<string>>, baseUrl: string)
      ensures Valid() && !GetEnabled()
      ensures this.bounds == bounds && this.baseUrl == baseUrl && deviceContexts == []
    {
      this.bounds := bounds;
      this.baseUrl := baseUrl;
      deviceContexts := [];
      loop := null;
    }

    function GetEnabled(): bool
      reads this
    {
      loop != null
    }

    /** Starts a polling loop when enabling a stopped client, stops and drops
        it when disabling a running one, and otherwise does nothing. */
    method SetEnabled(enabled: bool)
      requires Valid()
      modifies this, loop
      ensures Valid() && GetEnabled() == enabled
      ensures deviceContexts == old(deviceContexts)
      ensures enabled && old(loop) != null ==> loop == old(loop) && loop.interval == old(loop.interval)
      ensures enabled && old(loop) == null ==> fresh(loop) && loop.interval == PollingInterval
      ensures !enabled && old(loop) != null ==> !old(loop).running
      ensures enabled == old(GetEnabled()) ==> unchanged(this)
    {
      if enabled && loop == null {
        loop := new LoopingCall();
        loop.Start(PollingInterval);
      } else if !enabled && loop != null {
        loop.Stop();
        loop := null;
      }
    }

    /** Stops the client whatever its state; closing a stopped client changes nothing. */
    method Close()
      requires Valid()
      modifies this, loop
      ensures Valid() && !GetEnabled()
      ensures deviceContexts == old(deviceContexts)
      ensures old(loop) != null ==> !old(loop).running
      ensures old(loop) == null ==> unchanged(this)
    {
      if loop != null {
        loop.Stop();
        loop := null;
      }
    }

    method AttachContext(deviceContext: ContextRef)
      modifies this
      ensures deviceContexts == old(deviceContexts) + [deviceContext]
      ensures loop == old(loop)
    {
      deviceContexts := deviceContexts + [deviceContext];
    }

    /** The request URL: a `bounds` parameter, the bounds joined by commas, is
        added only when the bounds are truthy (given and not empty). */
    function MakeUrl(): (u: Url)
      ensures u.base == baseUrl
      ensures u.boundsParam.Some? <==> bounds.Some? && |bounds.value| > 0
      ensures u.boundsParam.Some? && (forall i :: 0 <= i < |bounds.value| ==> ',' !in bounds.value[i]) ==>
        Split(u.boundsParam.value, ',') == bounds.value
    {
      if bounds.Some? && |bounds.value| > 0 then
        var u := Url(baseUrl, Some(Join(bounds.value, ',')));
        if forall i :: 0 <= i < |bounds.value| ==> ',' !in bounds.value[i] then
          SplitJoin(bounds.value, ',');
          u
        else u
      else Url(baseUrl, None)
    }

    /** One poll. With no attached context nothing is requested; otherwise the
        URL is requested and, unless the request fails, every array entry of
        the body goes to every context, until a context's `output_message`
        raises (`accepts` says which messages are taken without raising). */
    method SendRequest(response: Response, accepts: Emission -> bool) returns (requested: Option<Url>, emitted: seq<Emission>, raised: bool)
      ensures requested.Some? <==> |deviceContexts| > 0
      ensures requested.Some? ==> requested.value == MakeUrl()
      ensures emitted == if |deviceContexts| == 0 || response.FetchFailed? then [] else Delivered(Fanout(response.entries, deviceContexts), accepts)
      ensures raised <==> |deviceContexts| > 0 && response.Body? && |emitted| < |Fanout(response.entries, deviceContexts)|
    {
      if |deviceContexts| == 0 {
        return None, [], false;
      }
      requested := Some(MakeUrl());
      emitted, raised := [], false;
      if response.Body? {
        emitted, raised := Process(response.entries, accepts);
      }
    }

    /** The body callback: skip entries that are not arrays, and hand each
        array entry to every attached context, in order. The first
        `output_message` that raises ends the callback. */
    method Process(entries: seq<(string, FeedValue)>, accepts: Emission -> bool) returns (emitted: seq<Emission>, raised: bool)
      ensures emitted == Delivered(Fanout(entries, deviceContexts), accepts)
      ensures raised <==> |emitted| < |Fanout(entries, deviceContexts)|
    {
      emitted := [];
      var i := 0;
      while i < |entries|
        invariant 0 <= i <= |entries|
        invariant emitted == Fanout(entries[..i], deviceContexts)
        invariant forall k :: 0 <= k < |emitted| ==> accepts(emitted[k])
      {
        var (objectId, aircraft) := entries[i];
        assert entries[..i + 1][..i] == entries[..i];
        if !aircraft.Array? {
          i := i + 1;
          continue;
        }
        var message := AircraftWrapper(objectId, aircraft.fields);
        var j := 0;
        while j < |deviceContexts|
          invariant 0 <= j <= |deviceContexts|
          invariant emitted == Fanout(entries[..i], deviceContexts) + EmitToAll(deviceContexts[..j], message)
          invariant forall k :: 0 <= k < |emitted| ==> accepts(emitted[k])
        {
          var sent := Emission(deviceContexts[j], message);
          if !accepts(sent) {
            FanoutAt(entries, deviceContexts, i, j);
            DeliveredStops(Fanout(entries, deviceContexts), emitted, accepts);
            return emitted, true;
          }
          assert deviceContexts[..j + 1][..j] == deviceContexts[..j];
          emitted := emitted + [sent];
          j := j + 1;
        }
        assert deviceContexts[..j] == deviceContexts;
        i := i + 1;
      }
      assert entries[..i] == entries;
      DeliveredAll(emitted, accepts);
      raised := false;
    }
  }

  // ---------------------------------------------------------------------
  // Splitting a joined list

  /** Without a separator, splitting gives the string back whole. */
  lemma {:induction false} SplitNoSeparator(s: string, sep: char)
    requires sep !in s
    ensures Split(s, sep) == [s]
  {
    if s != [] {
      SplitNoSeparator(s[1..], sep);
      assert [s[0]] + s[1..] == s;
    }
  }

  /** Splitting at the first separator. */
  lemma {:induction false} SplitAtSeparator(x: string, t: string, sep: char)
    requires sep !in x
    ensures Split(x + [sep] + t, sep) == [x] + Split(t, sep)
  {
    if x == [] {
      assert (x + [sep] + t)[1..] == t;
    } else {
      assert (x + [sep] + t)[1..] == x[1..] + [sep] + t;
      SplitAtSeparator(x[1..], t, sep);
      assert [x[0]] + x[1..] == x;
    }
  }

  /** Joining parts that hold no separator and splitting again gives the parts. */
  lemma {:induction false} SplitJoin(parts: seq<string>, sep: char)
    requires |parts| > 0
    requires forall i :: 0 <= i < |parts| ==> sep !in parts[i]
    ensures Split(Join(parts, sep), sep) == parts
  {
    if |parts| == 1 {
      SplitNoSeparator(parts[0], sep);
    } else {
      SplitJoin(parts[1..], sep);
      SplitAtSeparator(parts[0], Join(parts[1..], sep), sep);
    }
  }
}
