/** Values shared by the telemetry plugins: loosely-typed feed fields, telemetry
    items and the Track record of an aircraft's position and motion. */
module Telemetry {

  /** One field of a feed record as JSON decodes it: null, a number or a string. */
  datatype Raw = Null | Num(x: real) | Str(s: string)

  /** Python truthiness of a field: None, 0 and "" are false, anything else is true. */
  predicate Truthy(r: Raw)
  {
    match r
    case Null => false
    case Num(x) => x != 0.0
    case Str(s) => s != []
  }

  /** A truthy field always carries a value. */
  lemma TruthyIsNotNull(r: Raw)
    requires Truthy(r)
    ensures r != Null
  {
  }

  /** A value together with the feed time it was observed at. */
  datatype TelemetryItem = TelemetryItem(value: Raw, timestamp: Raw)

  const EmptyItem := TelemetryItem(Null, Null)

  /** The names of the fields of a Track. */
  datatype TrackField = Latitude | Longitude | Altitude | Heading | TrackAngle | HSpeed | VSpeed

  const AllFields: set<TrackField> := {Latitude, Longitude, Altitude, Heading, TrackAngle, HSpeed, VSpeed}

  /** Where an object is and how it moves; altitude in metres, speeds in metres per second. */
  datatype Track = Track(
    latitude: TelemetryItem,
    longitude: TelemetryItem,
    altitude: TelemetryItem,
    heading: TelemetryItem,
    trackAngle: TelemetryItem,
    hSpeed: TelemetryItem,
    vSpeed: TelemetryItem)
  {
    function Get(f: TrackField): TelemetryItem
    {
      match f
      case Latitude => latitude
      case Longitude => longitude
      case Altitude => altitude
      case Heading => heading
      case TrackAngle => trackAngle
      case HSpeed => hSpeed
      case VSpeed => vSpeed
    }

    /** The namedtuple `_replace(**new)`: the fields named in `updates` take the
        given items, every other field keeps its own. */
    function Replace(updates: map<TrackField, TelemetryItem>): (t: Track)
      ensures forall f :: t.Get(f) == if f in updates then updates[f] else Get(f)
    {
      Track(
        if Latitude in updates then updates[Latitude] else latitude,
        if Longitude in updates then updates[Longitude] else longitude,
        if Altitude in updates then updates[Altitude] else altitude,
        if Heading in updates then updates[Heading] else heading,
        if TrackAngle in updates then updates[TrackAngle] else trackAngle,
        if HSpeed in updates then updates[HSpeed] else hSpeed,
        if VSpeed in updates then updates[VSpeed] else vSpeed)
    }
  }

  /** Two tracks that agree on every field are the same track. */
  lemma TrackExtensionality(a: Track, b: Track)
    requires forall f :: a.Get(f) == b.Get(f)
    ensures a == b
  {
    assert a.Get(Latitude) == b.Get(Latitude) && a.Get(Longitude) == b.Get(Longitude);
    assert a.Get(Altitude) == b.Get(Altitude) && a.Get(Heading) == b.Get(Heading);
    assert a.Get(TrackAngle) == b.Get(TrackAngle) && a.Get(HSpeed) == b.Get(HSpeed);
    assert a.Get(VSpeed) == b.Get(VSpeed);
  }

  /** Replacing nothing leaves the track as it was. */
  lemma ReplaceNothing(t: Track)
    ensures t.Replace(map[]) == t
  {
    TrackExtensionality(t.Replace(map[]), t);
  }

  /** Replacing with the same items twice is replacing once. */
  lemma ReplaceTwice(t: Track, updates: map<TrackField, TelemetryItem>)
    ensures t.Replace(updates).Replace(updates) == t.Replace(updates)
  {
    TrackExtensionality(t.Replace(updates).Replace(updates), t.Replace(updates));
  }

  /** The track that an object starts with: every item null. */
  const EmptyTrack := Track(EmptyItem, EmptyItem, EmptyItem, EmptyItem, EmptyItem, EmptyItem, EmptyItem)
}
