/**
  The strongest-event scan `get_maximum`: one pass over the features that
  skips missing magnitudes and keeps a running maximum under strict `>`, so
  that the earliest of several equal maxima wins.
*/
module Strongest {
  import opened Wrappers
  import opened Features

  /** What `get_maximum` returns: `(max_magnitude, (lat, lon))`. */
  datatype Report = Report(magnitude: real, location: Location)

  /** Some feature in `fs` has a magnitude. */
  predicate HasMagnitude(fs: seq<Feature>)
  {
    exists i :: 0 <= i < |fs| && GetMagnitude(fs[i]).Some?
  }

  /**
    `fs[k]` has a magnitude, no magnitude in `fs` exceeds it, and every
    feature before `k` has a strictly smaller magnitude or none.
  */
  predicate IsFirstStrongest(fs: seq<Feature>, k: int)
  {
    && 0 <= k < |fs|
    && GetMagnitude(fs[k]).Some?
    && (forall j :: 0 <= j < |fs| && GetMagnitude(fs[j]).Some? ==>
          GetMagnitude(fs[j]).value <= GetMagnitude(fs[k]).value)
    && (forall j :: 0 <= j < k && GetMagnitude(fs[j]).Some? ==>
          GetMagnitude(fs[j]).value < GetMagnitude(fs[k]).value)
  }

  /** The outcome of reporting feature `f` as the winner: its location lookup may fail. */
  function ReportOn(f: Feature): (r: Result<Report, Error>)
    requires GetMagnitude(f).Some?
    ensures r.Success? <==> GetLocation(f).Success?
    ensures r.Success? ==> r.value == Report(GetMagnitude(f).value, GetLocation(f).value)
    ensures r.Failure? ==> r.error == MissingCoordinates
  {
    match GetLocation(f)
    case Success(loc) => Success(Report(GetMagnitude(f).value, loc))
    case Failure(e) => Failure(e)
  }

  /**
    `get_maximum`: fails on an empty feature list and when no magnitude is
    present; otherwise reports the first feature of maximal magnitude, and a
    failure to read that feature's location propagates.
  */
  method GetMaximum(data: Collection) returns (r: Result<Report, Error>)
    ensures FeatureList(data) == [] ==> r == Failure(NoFeatures)
    ensures FeatureList(data) != [] && !HasMagnitude(FeatureList(data)) ==>
      r == Failure(NoValidMagnitude)
    ensures HasMagnitude(FeatureList(data)) ==>
      exists k :: IsFirstStrongest(FeatureList(data), k) && r == ReportOn(FeatureList(data)[k])
    ensures r.Success? ==>
      && (exists k :: 0 <= k < |FeatureList(data)| &&
            GetMagnitude(FeatureList(data)[k]) == Some(r.value.magnitude))
      && (forall j :: 0 <= j < |FeatureList(data)| && GetMagnitude(FeatureList(data)[j]).Some? ==>
            GetMagnitude(FeatureList(data)[j]).value <= r.value.magnitude)
  {
    var features := FeatureList(data);
    if |features| == 0 {
      return Failure(NoFeatures);
    }
    var maxFeature: Option<Feature> := None;
    var maxMag: real := 0.0;
    ghost var best: nat := 0;
    for i := 0 to |features|
      invariant maxFeature.None? ==> forall j :: 0 <= j < i ==> GetMagnitude(features[j]).None?
      invariant maxFeature.Some? ==>
        && best < i
        && maxFeature.value == features[best]
        && GetMagnitude(features[best]) == Some(maxMag)
        && (forall j :: 0 <= j < i && GetMagnitude(features[j]).Some? ==>
              GetMagnitude(features[j]).value <= maxMag)
        && (forall j :: 0 <= j < best && GetMagnitude(features[j]).Some? ==>
              GetMagnitude(features[j]).value < maxMag)
    {
      var m := GetMagnitude(features[i]);
      if m.Some? && (maxFeature.None? || m.value > maxMag) {
        maxMag := m.value;
        maxFeature := Some(features[i]);
        best := i;
      }
    }
    if maxFeature.None? {
      return Failure(NoValidMagnitude);
    }
    assert IsFirstStrongest(features, best);
    r := ReportOn(maxFeature.value);
  }

  /** At most one index is the first strongest. */
  lemma FirstStrongestUnique(fs: seq<Feature>, i: int, k: int)
    requires IsFirstStrongest(fs, i) && IsFirstStrongest(fs, k)
    ensures i == k
  {
  }

  /** Whenever some magnitude is present, a first strongest feature exists. */
  lemma {:induction false} FirstStrongestExists(fs: seq<Feature>)
    requires HasMagnitude(fs)
    ensures exists k :: IsFirstStrongest(fs, k)
  {
    var n := |fs| - 1;
    var prefix := fs[..n];
    if HasMagnitude(prefix) {
      FirstStrongestExists(prefix);
      var k :| IsFirstStrongest(prefix, k);
      if GetMagnitude(fs[n]).Some? && GetMagnitude(fs[n]).value > GetMagnitude(fs[k]).value {
        assert IsFirstStrongest(fs, n);
      } else {
        assert IsFirstStrongest(fs, k);
      }
    } else {
      assert forall j :: 0 <= j < n ==> GetMagnitude(prefix[j]).None?;
      assert IsFirstStrongest(fs, n);
    }
  }

  /** A feature carrying only a magnitude and a position. */
  function Quake(mag: real, lon: real, lat: real): Feature
  {
    Feature(Some(Properties(Some(mag), None)), Some(Geometry(Some([lon, lat]))))
  }

  /** With magnitudes 1.0, 5.0, 5.0, 3.0 the first 5.0 (index 1) is the strongest. */
  lemma TieGoesToEarliest()
    ensures IsFirstStrongest([Quake(1.0, 0.0, 0.0), Quake(5.0, 1.0, 1.0),
                              Quake(5.0, 2.0, 2.0), Quake(3.0, 3.0, 3.0)], 1)
    ensures !IsFirstStrongest([Quake(1.0, 0.0, 0.0), Quake(5.0, 1.0, 1.0),
                               Quake(5.0, 2.0, 2.0), Quake(3.0, 3.0, 3.0)], 2)
  {
  }
}
