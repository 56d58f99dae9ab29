/**
  USGS GeoJSON records and the field extractors that read them.

  A feature's coordinates follow the GeoJSON position order of section 3.1.1
  of RFC 7946: longitude, latitude, then an optional depth.  Every nested
  lookup `d.get(k, {})` of the source becomes an `Option` field here; a field
  that is absent and one that is `{}` behave identically.
*/
module Features {
  import opened Wrappers

  /** The `properties` object of a feature: magnitude and epoch-millisecond time. */
  datatype Properties = Properties(mag: Option<real>, time: Option<int>)

  /** The `geometry` object of a feature; `None` stands for absent or not a list. */
  datatype Geometry = Geometry(coordinates: Option<seq<real>>)

  /** One earthquake event. */
  datatype Feature = Feature(properties: Option<Properties>, geometry: Option<Geometry>)

  /** The value of `metadata.count`: an integer, or anything else (a string, a float, null). */
  datatype CountValue = Integer(n: int) | NotInteger

  datatype Metadata = Metadata(count: Option<CountValue>)

  /** The top-level FeatureCollection. */
  datatype Collection = Collection(metadata: Option<Metadata>, features: Option<seq<Feature>>)

  /** (latitude, longitude), in the order the source returns them. */
  datatype Location = Location(lat: real, lon: real)

  /** The `ValueError`s raised by the extractors and by the strongest-event scan. */
  datatype Error =
    | MissingCoordinates   // "Earthquake feature missing coordinates."
    | MissingTime          // "Feature has no 'properties.time'."
    | NoFeatures           // "No earthquake features in data."
    | NoValidMagnitude     // "No features contained a valid magnitude."

  /** `data.get("features", [])`. */
  function FeatureList(data: Collection): (fs: seq<Feature>)
    ensures data.features.None? ==> fs == []
    ensures data.features.Some? ==> fs == data.features.value
  {
    data.features.GetOr([])
  }

  /** The declared count when it is an integer, the length of the feature list otherwise. */
  function CountEarthquakes(data: Collection): (n: int)
    ensures data.metadata.Some? && data.metadata.value.count.Some?
            && data.metadata.value.count.value.Integer?
            ==> n == data.metadata.value.count.value.n
    ensures data.metadata.None? || data.metadata.value.count.None?
            || data.metadata.value.count.value.NotInteger?
            ==> n == |FeatureList(data)|
    ensures data.metadata.None? && data.features.None? ==> n == 0
  {
    match data.metadata
    case Some(Metadata(Some(Integer(k)))) => k
    case _ => |FeatureList(data)|
  }

  /** The magnitude, or `None` (the NaN sentinel) when `properties.mag` is absent or null. */
  function GetMagnitude(f: Feature): (m: Option<real>)
    ensures m.None? <==> f.properties.None? || f.properties.value.mag.None?
    ensures m.Some? ==> m == f.properties.value.mag
  {
    match f.properties
    case Some(p) => p.mag
    case None => None
  }

  /**
    The coordinate list: `Some([])` when the geometry is absent (the `{}`
    default), `None` when the geometry has no coordinate list.
  */
  function Coordinates(f: Feature): Option<seq<real>>
  {
    match f.geometry
    case None => Some([])
    case Some(g) => g.coordinates
  }

  /** (latitude, longitude) from `[lon, lat, depth...]`; fails on fewer than two numbers. */
  function GetLocation(f: Feature): (r: Result<Location, Error>)
    ensures r.Failure? <==> Coordinates(f).None? || |Coordinates(f).value| < 2
    ensures r.Failure? ==> r.error == MissingCoordinates
    ensures r.Success? ==>
      r.value.lat == Coordinates(f).value[1] && r.value.lon == Coordinates(f).value[0]
  {
    match Coordinates(f)
    case Some(cs) =>
      if |cs| >= 2 then Success(Location(cs[1], cs[0])) else Failure(MissingCoordinates)
    case None => Failure(MissingCoordinates)
  }

  /** The timestamp in milliseconds, when `properties.time` is present. */
  function Time(f: Feature): Option<int>
  {
    match f.properties
    case Some(p) => p.time
    case None => None
  }

  /**
    The calendar year of a feature. `yearOf` stands for the local-time
    conversion `date.fromtimestamp(ms / 1000).year`, which this model leaves
    uninterpreted.
  */
  function GetYear(f: Feature, yearOf: int -> int): (r: Result<int, Error>)
    ensures r.Failure? <==> Time(f).None?
    ensures r.Failure? ==> r.error == MissingTime
    ensures r.Success? ==> r.value == yearOf(Time(f).value)
  {
    match Time(f)
    case Some(ms) => Success(yearOf(ms))
    case None => Failure(MissingTime)
  }

  /** A feature whose only data is the given coordinate list. */
  function AtPosition(coordinates: seq<real>): Feature
  {
    Feature(None, Some(Geometry(Some(coordinates))))
  }

  /**
    Reading a location undoes writing it as a GeoJSON position: whatever
    follows longitude and latitude (depth, extra members) is ignored.
  */
  lemma LocationRoundTrip(lat: real, lon: real, rest: seq<real>)
    ensures GetLocation(AtPosition([lon, lat] + rest)) == Success(Location(lat, lon))
  {
  }

  /** `get_location` on `[-3.2, 54.1, 10.0]` gives `(54.1, -3.2)`. */
  lemma LocationExample()
    ensures GetLocation(AtPosition([-3.2, 54.1, 10.0])) == Success(Location(54.1, -3.2))
  {
  }

  /** The declared count wins even when it disagrees with the number of features. */
  lemma CountPrefersMetadata(k: int, fs: seq<Feature>)
    ensures CountEarthquakes(Collection(Some(Metadata(Some(Integer(k)))), Some(fs))) == k
    ensures CountEarthquakes(Collection(Some(Metadata(Some(NotInteger))), Some(fs))) == |fs|
    ensures CountEarthquakes(Collection(None, None)) == 0
  {
  }
}
