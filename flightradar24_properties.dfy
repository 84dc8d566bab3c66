/** What receiving records and polling the feed guarantee, over any number
    of records and any feed body. */
module Flightradar24Properties {
  import opened Telemetry
  import opened Flightradar24

  // ---------------------------------------------------------------------
  // One record

  /** Every track field, one at a time: a field the record supplies takes the
      record's value in the track's units with the record's timestamp; any
      other field keeps its item. */
  lemma ReceivedField(s: AircraftState, d: seq<Raw>, f: TrackField)
    requires Received(s, d).Ok?
    ensures Received(s, d).value.track.Get(f) ==
      if Supplied(f, d) then TelemetryItem(Converted(f, d[SourceIndex(f)]), d[10]) else s.track.Get(f)
  {
    ConversionFactors();
    var t := Received(s, d).value.track;
    match f
    case Latitude => assert t.Get(f) == t.latitude;
    case Longitude => assert t.Get(f) == t.longitude;
    case Altitude => assert t.Get(f) == t.altitude;
    case Heading => assert t.Get(f) == t.heading;
    case TrackAngle => assert t.Get(f) == t.trackAngle;
    case HSpeed => assert t.Get(f) == t.hSpeed;
    case VSpeed => assert t.Get(f) == t.vSpeed;
  }

  /** A record that supplies no track field leaves the track as it was. */
  lemma NothingSuppliedKeepsTrack(s: AircraftState, d: seq<Raw>)
    requires Received(s, d).Ok?
    requires forall f :: !Supplied(f, d)
    ensures Received(s, d).value.track == s.track
  {
    forall f
      ensures Received(s, d).value.track.Get(f) == s.track.Get(f)
    {
      ReceivedField(s, d, f);
    }
    TrackExtensionality(Received(s, d).value.track, s.track);
  }

  /** A zero (or missing) latitude blocks the longitude too, and the other
      way round: the position is written only as a pair. */
  lemma FalsyCoordinateBlocksPosition(s: AircraftState, d: seq<Raw>)
    requires Received(s, d).Ok?
    requires !Truthy(d[1]) || !Truthy(d[2])
    ensures Received(s, d).value.track.latitude == s.track.latitude
    ensures Received(s, d).value.track.longitude == s.track.longitude
  {
  }

  /** Heading and track angle always carry the same item when a bearing is given. */
  lemma BearingFeedsHeadingAndTrackAngle(s: AircraftState, d: seq<Raw>)
    requires Received(s, d).Ok? && Truthy(d[3])
    ensures Received(s, d).value.track.heading == Received(s, d).value.track.trackAngle
    ensures Received(s, d).value.track.heading == TelemetryItem(d[3], d[10])
  {
  }

  /** Receiving the same record twice is receiving it once. */
  lemma ReceiveIdempotent(s: AircraftState, d: seq<Raw>)
    requires Received(s, d).Ok?
    ensures Received(Received(s, d).value, d) == Received(s, d)
  {
    ReplaceTwice(s.track, TrackUpdate(d));
  }

  /** After a record the aircraft expires 60 seconds after the record's time. */
  lemma ExpiryAfterReceive(s: AircraftState, d: seq<Raw>)
    requires Received(s, d).Ok? && d[10].Num?
    ensures Received(s, d).value.ObjectExpiry() == Ok(d[10].x + 60.0)
  {
  }

  /** A new aircraft is not interesting, and asking for its expiry raises
      TypeError since it has never been heard. */
  lemma FreshAircraft()
    ensures !InitialState.IsInteresting()
    ensures InitialState.ObjectExpiry() == Err(TypeError)
  {
  }

  /** After a record, the aircraft is interesting exactly when the record gave
      a position, or it already had a coordinate, or the record names a
      callsign or a registration. */
  lemma InterestingAfterReceive(s: AircraftState, d: seq<Raw>)
    requires Received(s, d).Ok?
    ensures Received(s, d).value.IsInteresting() <==>
      || (Truthy(d[1]) && Truthy(d[2]))
      || s.track.latitude.value != Null
      || s.track.longitude.value != Null
      || d[16] != Null
      || d[9] != Null
  {
    if Truthy(d[1]) && Truthy(d[2]) {
      TruthyIsNotNull(d[1]);
    }
  }

  // ---------------------------------------------------------------------
  // A sequence of records

  /** The state after handing each record to `receive` in turn; a record that
      raises leaves the state as it was. */
  function ReceiveAll(s: AircraftState, ds: seq<seq<Raw>>): AircraftState
    decreases ds
  {
    if ds == [] then s
    else
      var next := match Received(s, ds[0]) { case Ok(t) => t case Err(_) => s };
      ReceiveAll(next, ds[1..])
  }

  /** An aircraft without a position stops being interesting after a record
      that raises nothing and has no position, callsign or registration,
      however interesting it was before. */
  lemma InterestLostWithoutIdentity(s: AircraftState, d: seq<Raw>)
    requires Received(s, d).Ok?
    requires s.track.latitude.value == Null && s.track.longitude.value == Null
    requires !(Truthy(d[1]) && Truthy(d[2])) && d[16] == Null && d[9] == Null
    ensures !Received(s, d).value.IsInteresting()
  {
    InterestingAfterReceive(s, d);
  }

  /** Once a track field has a value, no later record takes it away: records
      only ever write truthy values into the track. */
  lemma {:induction false} TrackValuesPersist(s: AircraftState, ds: seq<seq<Raw>>, f: TrackField)
    requires s.track.Get(f).value != Null
    ensures ReceiveAll(s, ds).track.Get(f).value != Null
    decreases ds
  {
    if ds != [] {
      var d := ds[0];
      if Received(s, d).Ok? {
        ReceivedField(s, d, f);
        if Supplied(f, d) {
          TruthyIsNotNull(d[SourceIndex(f)]);
        }
        TrackValuesPersist(Received(s, d).value, ds[1..], f);
      } else {
        TrackValuesPersist(s, ds[1..], f);
      }
    }
  }

  /** An aircraft that has had a position stays interesting for good. */
  lemma PositionKeepsInterest(s: AircraftState, ds: seq<seq<Raw>>)
    requires s.track.latitude.value != Null
    ensures ReceiveAll(s, ds).IsInteresting()
  {
    TrackValuesPersist(s, ds, Latitude);
  }

  /** A record that raises nothing, after any sequence of records, sets the
      flight info and last-heard to its own, whatever the earlier ones said. */
  lemma {:induction false} FlightInfoIsTheLastRecords(s: AircraftState, ds: seq<seq<Raw>>, d: seq<Raw>)
    requires Received(ReceiveAll(s, ds), d).Ok?
    ensures ReceiveAll(s, ds + [d]).flightInfo == FlightInfoOf(d)
    ensures ReceiveAll(s, ds + [d]).lastHeard == d[10]
  {
    ReceiveAllAppend(s, ds, d);
  }

  /** The last record of a sequence that raised nothing when it was received,
      if there is one. */
  function LastAccepted(s: AircraftState, ds: seq<seq<Raw>>): (r: Option<seq<Raw>>)
    ensures r.Some? ==> r.value in ds && |r.value| >= RecordLength && !MultipliesString(r.value)
    decreases ds
  {
    if ds == [] then None
    else
      match Received(s, ds[0])
      case Ok(t) => (match LastAccepted(t, ds[1..]) case None => Some(ds[0]) case Some(d) => Some(d))
      case Err(_) => LastAccepted(s, ds[1..])
  }

  /** After any sequence of records, the flight info and last-heard are those
      of the last record that raised nothing; when every record raised, they
      are the ones the aircraft had before. */
  lemma {:induction false} FlightInfoOfLastAccepted(s: AircraftState, ds: seq<seq<Raw>>)
    ensures match LastAccepted(s, ds)
      case None => ReceiveAll(s, ds).flightInfo == s.flightInfo && ReceiveAll(s, ds).lastHeard == s.lastHeard
      case Some(d) => ReceiveAll(s, ds).flightInfo == FlightInfoOf(d) && ReceiveAll(s, ds).lastHeard == d[10]
    decreases ds
  {
    if ds != [] {
      match Received(s, ds[0])
      case Ok(t) =>
        FlightInfoOfLastAccepted(t, ds[1..]);
      case Err(_) =>
        FlightInfoOfLastAccepted(s, ds[1..]);
    }
  }

  /** Receiving one more record is one more step after the others. */
  lemma {:induction false} ReceiveAllAppend(s: AircraftState, ds: seq<seq<Raw>>, d: seq<Raw>)
    ensures ReceiveAll(s, ds + [d]) ==
      match Received(ReceiveAll(s, ds), d) { case Ok(t) => t case Err(_) => ReceiveAll(s, ds) }
    decreases ds
  {
    if ds == [] {
      assert ds + [d] == [d];
      assert [d][1..] == [];
    } else {
      assert (ds + [d])[0] == ds[0];
      assert (ds + [d])[1..] == ds[1..] + [d];
      var next := match Received(s, ds[0]) { case Ok(t) => t case Err(_) => s };
      ReceiveAllAppend(next, ds[1..], d);
    }
  }

  // ---------------------------------------------------------------------
  // Concrete records

  /** A record of the right length with every field null. */
  const BlankRecord: seq<Raw> := seq(RecordLength, _ => Null)

  /** An example of interest lost: an aircraft known only by its callsign is
      no longer interesting after a record with no callsign, registration or
      position, since the flight info is replaced, not merged. */
  lemma CallsignInterestCanBeLost()
    ensures Received(InitialState, BlankRecord[16 := Str("UAL1")]).Ok?
    ensures Received(InitialState, BlankRecord[16 := Str("UAL1")]).value.IsInteresting()
    ensures var s := Received(InitialState, BlankRecord[16 := Str("UAL1")]).value;
      Received(s, BlankRecord).Ok? && !Received(s, BlankRecord).value.IsInteresting()
  {
    var d := BlankRecord[16 := Str("UAL1")];
    assert !MultipliesString(d) && !MultipliesString(BlankRecord);
  }

  /** A sample record of 18 fields. By the indices the plugin reads: latitude
      40 (1), longitude -70 (2), bearing 90 (3), 30000 ft (4), 450 kn (5),
      squawk 1200 (6), model "B738" (8), registration the number 0 (9), time
      1620000000 (10), origin "N1" (11), destination "JFK" (12), flight "LAX"
      (13), climb 0 (15) and callsign "UAL1" (16); 0, 7, 14 and 17 are not read. */
  const SampleRecord: seq<Raw> := [
    Num(0.0), Num(40.0), Num(-70.0), Num(90.0), Num(30000.0), Num(450.0), Num(1200.0), Num(0.0),
    Str("B738"), Num(0.0), Num(1620000000.0), Str("N1"), Str("JFK"), Str("LAX"), Str("UAL123"),
    Num(0.0), Str("UAL1"), Num(0.0)]

  /** A follow-up record that only gives a position. */
  const PositionOnlyRecord: seq<Raw> := BlankRecord[1 := Num(41.0)][2 := Num(-71.0)][10 := Num(1620000008.0)]

  /** The sample record on a new aircraft: metric altitude and speed, the
      flight info taken by index (so origin is "N1" and the registration is
      the number 0), an unchanged climb rate, an interesting aircraft. */
  lemma SampleRecordOnNewAircraft()
    ensures Received(InitialState, SampleRecord).Ok?
    ensures var s := Received(InitialState, SampleRecord).value;
      && s.track.latitude == TelemetryItem(Num(40.0), Num(1620000000.0))
      && s.track.longitude == TelemetryItem(Num(-70.0), Num(1620000000.0))
      && s.track.altitude == TelemetryItem(Num(9144.0), Num(1620000000.0))
      && s.track.hSpeed == TelemetryItem(Num(231.5), Num(1620000000.0))
      && s.track.heading == TelemetryItem(Num(90.0), Num(1620000000.0))
      && s.track.vSpeed == EmptyItem
      && s.flightInfo == FlightInfo(Str("UAL1"), Num(0.0), Str("N1"), Str("JFK"), Str("LAX"), Num(1200.0), Str("B738"))
      && s.IsInteresting()
      && s.ObjectExpiry() == Ok(1620000060.0)
  {
    assert !MultipliesString(SampleRecord);
  }

  /** A position-only record after the sample one moves the aircraft, keeps
      altitude, bearing and speed, and clears every flight info field. */
  lemma PositionOnlyUpdate()
    ensures var s := Received(InitialState, SampleRecord).value;
      && Received(s, PositionOnlyRecord).Ok?
      && Received(s, PositionOnlyRecord).value.track.latitude == TelemetryItem(Num(41.0), Num(1620000008.0))
      && Received(s, PositionOnlyRecord).value.track.altitude == s.track.altitude
      && Received(s, PositionOnlyRecord).value.track.heading == s.track.heading
      && Received(s, PositionOnlyRecord).value.track.hSpeed == s.track.hSpeed
      && Received(s, PositionOnlyRecord).value.flightInfo == EmptyFlightInfo
  {
    assert !MultipliesString(SampleRecord) && !MultipliesString(PositionOnlyRecord);
  }

  // ---------------------------------------------------------------------
  // Polling

  /** How many entries of a body are arrays. */
  function ArrayCount(entries: seq<(string, FeedValue)>): nat
  {
    if entries == [] then 0
    else ArrayCount(entries[..|entries| - 1]) + if entries[|entries| - 1].1.Array? then 1 else 0
  }

  /** One more array entry is one more message per context. */
  lemma MultiplySuccessor(c: nat, m: nat)
    ensures (c + 1) * m == c * m + m
  {
  }

  /** One poll emits (array entries) × (contexts) messages. */
  lemma {:induction false} FanoutSize(entries: seq<(string, FeedValue)>, contexts: seq<ContextRef>)
    ensures |Fanout(entries, contexts)| == ArrayCount(entries) * |contexts|
  {
    if entries != [] {
      var prefix, last := entries[..|entries| - 1], entries[|entries| - 1];
      FanoutSize(prefix, contexts);
      if last.1.Array? {
        EmitToAllContents(contexts, AircraftWrapper(last.0, last.1.fields));
        MultiplySuccessor(ArrayCount(prefix), |contexts|);
      }
    }
  }

  /** A message is emitted exactly when its context is attached and its
      record is an array entry of the body under its id. */
  lemma {:induction false} FanoutMembers(entries: seq<(string, FeedValue)>, contexts: seq<ContextRef>, e: Emission)
    ensures e in Fanout(entries, contexts) <==>
      e.context in contexts && (e.message.objectId, Array(e.message.message)) in entries
  {
    if entries != [] {
      var prefix, last := entries[..|entries| - 1], entries[|entries| - 1];
      assert entries == prefix + [last];
      FanoutMembers(prefix, contexts, e);
      if last.1.Array? {
        var message := AircraftWrapper(last.0, last.1.fields);
        EmitToAllContents(contexts, message);
        if e in EmitToAll(contexts, message) {
          var k :| 0 <= k < |EmitToAll(contexts, message)| && EmitToAll(contexts, message)[k] == e;
          assert e.context == contexts[k];
        }
        if e.context in contexts && e.message == message {
          var k :| 0 <= k < |contexts| && contexts[k] == e.context;
          assert EmitToAll(contexts, message)[k] == e;
        }
      }
    }
  }

  /** Without contexts nothing is emitted, whatever the body. */
  lemma {:induction false} FanoutWithoutContexts(entries: seq<(string, FeedValue)>)
    ensures Fanout(entries, []) == []
  {
    if entries != [] {
      FanoutWithoutContexts(entries[..|entries| - 1]);
    }
  }

  /** A body with no array entry emits nothing. */
  lemma {:induction false} FanoutSkipsNonArrays(entries: seq<(string, FeedValue)>, contexts: seq<ContextRef>)
    requires forall i :: 0 <= i < |entries| ==> !entries[i].1.Array?
    ensures Fanout(entries, contexts) == []
  {
    if entries != [] {
      FanoutSkipsNonArrays(entries[..|entries| - 1], contexts);
    }
  }
}
