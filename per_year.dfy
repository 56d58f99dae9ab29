/**
  Per-year aggregation: `get_magnitudes_per_year`, the counting loop of
  `plot_number_per_year` and the averaging loop of
  `plot_average_magnitude_per_year`.  Features without a timestamp are
  skipped, never reported.  `yearOf` is the timestamp-to-year conversion,
  left uninterpreted.

  The reference definitions below read a feature list from its last element
  backwards, so that they unfold exactly as the source's loops extend a prefix.
*/
module PerYear {
  import opened Wrappers
  import opened Features

  /** The years that occur among the timestamped features of `fs`. */
  function YearsOf(fs: seq<Feature>, yearOf: int -> int): set<int>
  {
    if fs == [] then {}
    else
      var rest := YearsOf(fs[..|fs| - 1], yearOf);
      match GetYear(fs[|fs| - 1], yearOf)
      case Success(y) => rest + {y}
      case Failure(_) => rest
  }

  /** The number of features of `fs` that fall in year `y`. */
  function CountInYear(fs: seq<Feature>, yearOf: int -> int, y: int): nat
  {
    if fs == [] then 0
    else
      CountInYear(fs[..|fs| - 1], yearOf, y)
      + if GetYear(fs[|fs| - 1], yearOf) == Success(y) then 1 else 0
  }

  /** The magnitudes of the features of `fs` that fall in year `y`, in input order. */
  function MagsInYear(fs: seq<Feature>, yearOf: int -> int, y: int): seq<Option<real>>
  {
    if fs == [] then []
    else
      MagsInYear(fs[..|fs| - 1], yearOf, y)
      + if GetYear(fs[|fs| - 1], yearOf) == Success(y) then [GetMagnitude(fs[|fs| - 1])] else []
  }

  /** The positions in `fs` of the features that fall in year `y`. */
  function IndicesInYear(fs: seq<Feature>, yearOf: int -> int, y: int): seq<nat>
  {
    if fs == [] then []
    else
      IndicesInYear(fs[..|fs| - 1], yearOf, y)
      + if GetYear(fs[|fs| - 1], yearOf) == Success(y) then [|fs| - 1] else []
  }

  /** The number of features of `fs` that carry a timestamp. */
  function TimestampedCount(fs: seq<Feature>): nat
  {
    if fs == [] then 0
    else TimestampedCount(fs[..|fs| - 1]) + if Time(fs[|fs| - 1]).Some? then 1 else 0
  }

  predicate StrictlyIncreasing(ys: seq<int>)
  {
    forall i, j :: 0 <= i < j < |ys| ==> ys[i] < ys[j]
  }

  /** `byYear` is the year-to-magnitudes dictionary of `fs`. */
  ghost predicate IsGrouping(fs: seq<Feature>, yearOf: int -> int, byYear: map<int, seq<Option<real>>>)
  {
    && byYear.Keys == YearsOf(fs, yearOf)
    && forall y :: y in byYear ==> byYear[y] == MagsInYear(fs, yearOf, y)
  }

  /** `years` lists the years of `fs` in ascending order and `counts` lines up with it. */
  ghost predicate IsCountSeries(fs: seq<Feature>, yearOf: int -> int, years: seq<int>, counts: seq<nat>)
  {
    && StrictlyIncreasing(years)
    && (forall y :: y in years <==> y in YearsOf(fs, yearOf))
    && |counts| == |years|
    && forall i :: 0 <= i < |years| ==> counts[i] == CountInYear(fs, yearOf, years[i])
  }

  // ---------------------------------------------------------------------------
  // Properties of the reference definitions

  /** A year is a key exactly when some timestamped feature falls in it. */
  lemma {:induction false} YearsOfMeansSomeFeature(fs: seq<Feature>, yearOf: int -> int, y: int)
    ensures y in YearsOf(fs, yearOf) <==>
            exists i :: 0 <= i < |fs| && GetYear(fs[i], yearOf) == Success(y)
  {
    if fs != [] {
      var init := fs[..|fs| - 1];
      YearsOfMeansSomeFeature(init, yearOf, y);
      if y in YearsOf(init, yearOf) {
        var i :| 0 <= i < |init| && GetYear(init[i], yearOf) == Success(y);
        assert fs[i] == init[i];
      }
      if exists i :: 0 <= i < |fs| && GetYear(fs[i], yearOf) == Success(y) {
        var i :| 0 <= i < |fs| && GetYear(fs[i], yearOf) == Success(y);
        if i < |init| {
          assert init[i] == fs[i];
        }
      }
    }
  }

  /** A year is a key exactly when its count is positive: no year is zero-filled. */
  lemma {:induction false} YearPresentIffCounted(fs: seq<Feature>, yearOf: int -> int, y: int)
    ensures y in YearsOf(fs, yearOf) <==> CountInYear(fs, yearOf, y) > 0
  {
    if fs != [] {
      YearPresentIffCounted(fs[..|fs| - 1], yearOf, y);
    }
  }

  /** Each year's magnitude list is as long as that year's count. */
  lemma {:induction false} MagsLengthIsCount(fs: seq<Feature>, yearOf: int -> int, y: int)
    ensures |MagsInYear(fs, yearOf, y)| == CountInYear(fs, yearOf, y)
  {
    if fs != [] {
      MagsLengthIsCount(fs[..|fs| - 1], yearOf, y);
    }
  }

  /** The recorded positions are valid, strictly increasing, and all fall in year `y`. */
  lemma {:induction false} IndicesInYearSound(fs: seq<Feature>, yearOf: int -> int, y: int)
    ensures forall k :: 0 <= k < |IndicesInYear(fs, yearOf, y)| ==>
      && IndicesInYear(fs, yearOf, y)[k] < |fs|
      && GetYear(fs[IndicesInYear(fs, yearOf, y)[k]], yearOf) == Success(y)
    ensures forall k, l :: 0 <= k < l < |IndicesInYear(fs, yearOf, y)| ==>
      IndicesInYear(fs, yearOf, y)[k] < IndicesInYear(fs, yearOf, y)[l]
  {
    if fs != [] {
      var init := fs[..|fs| - 1];
      IndicesInYearSound(init, yearOf, y);
      var idx0 := IndicesInYear(init, yearOf, y);
      assert forall k :: 0 <= k < |idx0| ==> fs[idx0[k]] == init[idx0[k]];
    }
  }

  /** Every feature of year `y` has its position recorded: none is dropped. */
  lemma {:induction false} IndicesInYearComplete(fs: seq<Feature>, yearOf: int -> int, y: int, i: int)
    requires 0 <= i < |fs| && GetYear(fs[i], yearOf) == Success(y)
    ensures i in IndicesInYear(fs, yearOf, y)
  {
    var init := fs[..|fs| - 1];
    if i < |init| {
      assert init[i] == fs[i];
      IndicesInYearComplete(init, yearOf, y, i);
    }
  }

  /**
    A year's magnitude list holds, entry by entry, the magnitudes of the
    features at the recorded positions: the features of that year in input order.
  */
  lemma {:induction false} MagsInInputOrder(fs: seq<Feature>, yearOf: int -> int, y: int)
    ensures |IndicesInYear(fs, yearOf, y)| == |MagsInYear(fs, yearOf, y)|
    ensures forall k :: 0 <= k < |IndicesInYear(fs, yearOf, y)| ==>
      && IndicesInYear(fs, yearOf, y)[k] < |fs|
      && MagsInYear(fs, yearOf, y)[k] == GetMagnitude(fs[IndicesInYear(fs, yearOf, y)[k]])
  {
    if fs != [] {
      var init := fs[..|fs| - 1];
      MagsInInputOrder(init, yearOf, y);
      IndicesInYearSound(init, yearOf, y);
      var idx0 := IndicesInYear(init, yearOf, y);
      assert forall k :: 0 <= k < |idx0| ==> fs[idx0[k]] == init[idx0[k]];
    }
  }

  /** Sum of `CountInYear` over the years `ys`. */
  function SumCounts(fs: seq<Feature>, yearOf: int -> int, ys: seq<int>): nat
  {
    if ys == [] then 0
    else SumCounts(fs, yearOf, ys[..|ys| - 1]) + CountInYear(fs, yearOf, ys[|ys| - 1])
  }

  /** Appending one feature adds one to the sum exactly when its year is among `ys`. */
  lemma {:induction false} SumCountsStep(fs: seq<Feature>, yearOf: int -> int, ys: seq<int>)
    requires fs != []
    requires StrictlyIncreasing(ys)
    ensures SumCounts(fs, yearOf, ys) ==
            SumCounts(fs[..|fs| - 1], yearOf, ys)
            + if (GetYear(fs[|fs| - 1], yearOf).Success? && GetYear(fs[|fs| - 1], yearOf).value in ys)
              then 1 else 0
  {
    if ys != [] {
      var init := ys[..|ys| - 1];
      SumCountsStep(fs, yearOf, init);
      var g := GetYear(fs[|fs| - 1], yearOf);
      if g.Success? && g.value == ys[|ys| - 1] {
        assert g.value !in init by {
          forall k | 0 <= k < |init| ensures init[k] != g.value {
            assert init[k] == ys[k];
          }
        }
      }
      if g.Success? && g.value in ys && g.value != ys[|ys| - 1] {
        var k :| 0 <= k < |ys| && ys[k] == g.value;
        assert init[k] == g.value;
      }
    }
  }

  /** Over any ascending list that covers every year, the counts add up to the timestamped features. */
  lemma {:induction false} SumCountsIsTimestamped(fs: seq<Feature>, yearOf: int -> int, ys: seq<int>)
    requires StrictlyIncreasing(ys)
    requires forall y :: y in YearsOf(fs, yearOf) ==> y in ys
    ensures SumCounts(fs, yearOf, ys) == TimestampedCount(fs)
  {
    if fs == [] {
      SumOfNothing(yearOf, ys);
    } else {
      var init := fs[..|fs| - 1];
      SumCountsStep(fs, yearOf, ys);
      SumCountsIsTimestamped(init, yearOf, ys);
    }
  }

  lemma {:induction false} SumOfNothing(yearOf: int -> int, ys: seq<int>)
    ensures SumCounts([], yearOf, ys) == 0
  {
    if ys != [] {
      SumOfNothing(yearOf, ys[..|ys| - 1]);
    }
  }

  function Total(ns: seq<nat>): nat
  {
    if ns == [] then 0 else Total(ns[..|ns| - 1]) + ns[|ns| - 1]
  }

  lemma {:induction false} TotalOfCounts(fs: seq<Feature>, yearOf: int -> int, ys: seq<int>, counts: seq<nat>)
    requires |counts| == |ys|
    requires forall i :: 0 <= i < |ys| ==> counts[i] == CountInYear(fs, yearOf, ys[i])
    ensures Total(counts) == SumCounts(fs, yearOf, ys)
  {
    if ys != [] {
      TotalOfCounts(fs, yearOf, ys[..|ys| - 1], counts[..|counts| - 1]);
    }
  }

  /** The per-year counts add up to the number of features that have a timestamp. */
  lemma CountSeriesTotal(fs: seq<Feature>, yearOf: int -> int, years: seq<int>, counts: seq<nat>)
    requires IsCountSeries(fs, yearOf, years, counts)
    ensures Total(counts) == TimestampedCount(fs)
  {
    TotalOfCounts(fs, yearOf, years, counts);
    SumCountsIsTimestamped(fs, yearOf, years);
  }

  /** Total length of the lists of `byYear` for the years `ys`. */
  function TotalLength(byYear: map<int, seq<Option<real>>>, ys: seq<int>): nat
    requires forall i :: 0 <= i < |ys| ==> ys[i] in byYear
  {
    if ys == [] then 0 else TotalLength(byYear, ys[..|ys| - 1]) + |byYear[ys[|ys| - 1]]|
  }

  /** The lists of the grouping hold, together, one entry per timestamped feature. */
  lemma {:induction false} GroupingTotal(fs: seq<Feature>, yearOf: int -> int,
                                         byYear: map<int, seq<Option<real>>>, ys: seq<int>)
    requires IsGrouping(fs, yearOf, byYear)
    requires StrictlyIncreasing(ys)
    requires forall i :: 0 <= i < |ys| ==> ys[i] in byYear
    requires forall y :: y in byYear ==> y in ys
    ensures TotalLength(byYear, ys) == TimestampedCount(fs)
  {
    var counts := seq(|ys|, i requires 0 <= i < |ys| && ys[i] in byYear => |byYear[ys[i]]|);
    forall i | 0 <= i < |ys| ensures counts[i] == CountInYear(fs, yearOf, ys[i]) {
      MagsLengthIsCount(fs, yearOf, ys[i]);
    }
    LengthsAreTotal(byYear, ys, counts);
    TotalOfCounts(fs, yearOf, ys, counts);
    SumCountsIsTimestamped(fs, yearOf, ys);
  }

  lemma {:induction false} LengthsAreTotal(byYear: map<int, seq<Option<real>>>, ys: seq<int>, lengths: seq<nat>)
    requires |lengths| == |ys|
    requires forall i :: 0 <= i < |ys| ==> ys[i] in byYear && lengths[i] == |byYear[ys[i]]|
    ensures TotalLength(byYear, ys) == Total(lengths)
  {
    if ys != [] {
      var init := ys[..|ys| - 1];
      LengthsAreTotal(byYear, init, lengths[..|lengths| - 1]);
    }
  }

  // ---------------------------------------------------------------------------
  // Missing values and the mean

  /** Every magnitude of `ms` is missing. */
  predicate AllMissing(ms: seq<Option<real>>)
  {
    forall i :: 0 <= i < |ms| ==> ms[i].None?
  }

  /** The magnitudes that are present, in order (the comprehension that drops NaN). */
  function Present(ms: seq<Option<real>>): (xs: seq<real>)
    ensures |xs| <= |ms|
    ensures xs == [] <==> AllMissing(ms)
  {
    if ms == [] then []
    else
      var init := Present(ms[..|ms| - 1]);
      assert AllMissing(ms) <==> AllMissing(ms[..|ms| - 1]) && ms[|ms| - 1].None?;
      match ms[|ms| - 1]
      case Some(x) => init + [x]
      case None => init
  }

  /**
    Filtering distributes over concatenation. With `PresentSingle` this
    determines `Present` completely: every present magnitude is kept, with its
    multiplicity and in order.
  */
  lemma {:induction false} PresentAppend(a: seq<Option<real>>, b: seq<Option<real>>)
    ensures Present(a + b) == Present(a) + Present(b)
  {
    if b == [] {
      assert a + b == a;
    } else {
      var init := b[..|b| - 1];
      var ab := a + b;
      assert ab[..|ab| - 1] == a + init;
      assert ab[|ab| - 1] == b[|b| - 1];
      PresentAppend(a, init);
      assert Present(b) == Present(init) + Present([b[|b| - 1]]) by {
        assert b[..|b| - 1] == init;
        assert [b[|b| - 1]][..0] == [];
      }
    }
  }

  /** Filtering keeps a present value and drops a missing one. */
  lemma PresentSingle(m: Option<real>)
    ensures Present([m]) == if m.Some? then [m.value] else []
  {
    assert [m][..0] == [];
  }

  /** Filtering keeps exactly the present magnitudes. */
  lemma {:induction false} PresentKeepsValues(ms: seq<Option<real>>, x: real)
    ensures x in Present(ms) <==> Some(x) in ms
  {
    if ms != [] {
      var init := ms[..|ms| - 1];
      PresentKeepsValues(init, x);
      assert Some(x) in ms <==> Some(x) in init || ms[|ms| - 1] == Some(x) by {
        assert ms == init + [ms[|ms| - 1]];
      }
    }
  }

  function Sum(xs: seq<real>): real
  {
    if xs == [] then 0.0 else Sum(xs[..|xs| - 1]) + xs[|xs| - 1]
  }

  /** `sum(xs) / len(xs)`, or `None` (NaN) for an empty list. */
  function Mean(xs: seq<real>): (r: Option<real>)
    ensures r.None? <==> xs == []
  {
    if xs == [] then None else Some(Sum(xs) / (|xs| as real))
  }

  lemma {:induction false} SumBounds(xs: seq<real>, lo: real, hi: real)
    requires forall i :: 0 <= i < |xs| ==> lo <= xs[i] <= hi
    ensures (|xs| as real) * lo <= Sum(xs) <= (|xs| as real) * hi
  {
    if xs != [] {
      SumBounds(xs[..|xs| - 1], lo, hi);
    }
  }

  /** A mean lies within any bounds of the values it averages. */
  lemma MeanWithinBounds(xs: seq<real>, lo: real, hi: real)
    requires xs != []
    requires forall i :: 0 <= i < |xs| ==> lo <= xs[i] <= hi
    ensures lo <= Mean(xs).value <= hi
  {
    SumBounds(xs, lo, hi);
    var n := |xs| as real;
    assert Sum(xs) / n >= lo by {
      assert Sum(xs) >= n * lo;
    }
    assert Sum(xs) / n <= hi by {
      assert Sum(xs) <= n * hi;
    }
  }

  // ---------------------------------------------------------------------------
  // The source's loops

  /** Some element of a non-empty set is below every other one. */
  lemma {:induction false} LeastExists(s: set<int>)
    requires s != {}
    ensures exists m :: m in s && forall x :: x in s ==> m <= x
  {
    if forall z :: z !in s {
      assert false;
    }
    var x :| x in s;
    if s != {x} {
      LeastExists(s - {x});
      var m :| m in s - {x} && forall z :: z in s - {x} ==> m <= z;
      var least := if x < m then x else m;
      forall z | z in s ensures least <= z {
        if z != x {
          assert z in s - {x};
        }
      }
    } else {
      assert forall z :: z in s ==> x <= z;
    }
  }

  /** `sorted(d.keys())`: the keys in strictly ascending order. */
  method SortedKeys(keys: set<int>) returns (ys: seq<int>)
    ensures StrictlyIncreasing(ys)
    ensures forall y :: y in ys <==> y in keys
  {
    ys := [];
    var rest := keys;
    while rest != {}
      invariant rest <= keys
      invariant forall y :: y in ys <==> y in keys && y !in rest
      invariant StrictlyIncreasing(ys)
      invariant forall a, b :: a in ys && b in rest ==> a < b
      decreases rest
    {
      LeastExists(rest);
      var m :| m in rest && forall x :: x in rest ==> m <= x;
      assert forall i :: 0 <= i < |ys| ==> ys[i] in ys;
      ys := ys + [m];
      rest := rest - {m};
    }
  }

  /**
    `get_magnitudes_per_year`: each timestamped feature appends its magnitude
    to the list of its year; the others are skipped.
  */
  method GetMagnitudesPerYear(earthquakes: seq<Feature>, yearOf: int -> int)
    returns (byYear: map<int, seq<Option<real>>>)
    ensures byYear.Keys == YearsOf(earthquakes, yearOf)
    ensures forall y :: y in byYear ==> byYear[y] == MagsInYear(earthquakes, yearOf, y)
  {
    byYear := map[];
    for i := 0 to |earthquakes|
      invariant IsGrouping(earthquakes[..i], yearOf, byYear)
    {
      assert earthquakes[..i + 1][..i] == earthquakes[..i];
      var y := GetYear(earthquakes[i], yearOf);
      if y.Success? {
        if y.value !in byYear {
          YearPresentIffCounted(earthquakes[..i], yearOf, y.value);
          MagsLengthIsCount(earthquakes[..i], yearOf, y.value);
        }
        var bucket := if y.value in byYear then byYear[y.value] else [];
        byYear := byYear[y.value := bucket + [GetMagnitude(earthquakes[i])]];
      }
    }
    assert earthquakes[..|earthquakes|] == earthquakes;
  }

  /**
    The counting loop of `plot_number_per_year` and the `years`/`counts`
    series it hands to the chart.
  */
  method NumberPerYear(earthquakes: seq<Feature>, yearOf: int -> int)
    returns (years: seq<int>, counts: seq<nat>)
    ensures IsCountSeries(earthquakes, yearOf, years, counts)
    ensures forall i :: 0 <= i < |counts| ==> counts[i] > 0
  {
    var byYear: map<int, nat> := map[];
    for i := 0 to |earthquakes|
      invariant byYear.Keys == YearsOf(earthquakes[..i], yearOf)
      invariant forall y :: y in byYear ==> byYear[y] == CountInYear(earthquakes[..i], yearOf, y)
    {
      assert earthquakes[..i + 1][..i] == earthquakes[..i];
      var y := GetYear(earthquakes[i], yearOf);
      if y.Success? {
        if y.value !in byYear {
          YearPresentIffCounted(earthquakes[..i], yearOf, y.value);
        }
        var n := if y.value in byYear then byYear[y.value] else 0;
        byYear := byYear[y.value := n + 1];
      }
    }
    assert earthquakes[..|earthquakes|] == earthquakes;
    years := SortedKeys(byYear.Keys);
    assert forall i :: 0 <= i < |years| ==> years[i] in years;
    counts := seq(|years|, i requires 0 <= i < |years| && years[i] in byYear => byYear[years[i]]);
    forall i | 0 <= i < |counts| ensures counts[i] > 0 {
      YearPresentIffCounted(earthquakes, yearOf, years[i]);
    }
  }

  /**
    The averaging loop of `plot_average_magnitude_per_year`: for each year in
    ascending order, the mean of its present magnitudes, or `None` when all of
    them are missing.
  */
  method AverageMagnitudePerYear(earthquakes: seq<Feature>, yearOf: int -> int)
    returns (years: seq<int>, avgs: seq<Option<real>>)
    ensures StrictlyIncreasing(years)
    ensures forall y :: y in years <==> y in YearsOf(earthquakes, yearOf)
    ensures |avgs| == |years|
    ensures forall i :: 0 <= i < |years| ==>
      avgs[i] == Mean(Present(MagsInYear(earthquakes, yearOf, years[i])))
    ensures forall i :: 0 <= i < |years| ==>
      (avgs[i].None? <==> AllMissing(MagsInYear(earthquakes, yearOf, years[i])))
  {
    var magsByYear := GetMagnitudesPerYear(earthquakes, yearOf);
    years := SortedKeys(magsByYear.Keys);
    assert forall k :: 0 <= k < |years| ==> years[k] in years;
    avgs := [];
    for i := 0 to |years|
      invariant |avgs| == i
      invariant forall k :: 0 <= k < i ==> avgs[k] == Mean(Present(magsByYear[years[k]]))
    {
      var mags := Present(magsByYear[years[i]]);
      avgs := avgs + [Mean(mags)];
    }
    forall i | 0 <= i < |years|
      ensures avgs[i] == Mean(Present(MagsInYear(earthquakes, yearOf, years[i])))
      ensures avgs[i].None? <==> AllMissing(MagsInYear(earthquakes, yearOf, years[i]))
    {
      assert magsByYear[years[i]] == MagsInYear(earthquakes, yearOf, years[i]);
    }
  }

  // ---------------------------------------------------------------------------
  // The worked example: years 2001, 2001, 2003 with magnitudes 2.0, 3.0, 4.0

  function AtTime(mag: real, time: int): Feature
  {
    Feature(Some(Properties(Some(mag), Some(time))), None)
  }

  function TimeIsYear(t: int): int { t }

  /** The grouping of three features of years 2001, 2001, 2003 with magnitudes 2.0, 3.0, 4.0. */
  lemma GroupingExample()
    ensures var fs := [AtTime(2.0, 2001), AtTime(3.0, 2001), AtTime(4.0, 2003)];
      && YearsOf(fs, TimeIsYear) == {2001, 2003}
      && MagsInYear(fs, TimeIsYear, 2001) == [Some(2.0), Some(3.0)]
      && MagsInYear(fs, TimeIsYear, 2003) == [Some(4.0)]
  {
    var fs := [AtTime(2.0, 2001), AtTime(3.0, 2001), AtTime(4.0, 2003)];
    assert fs[..1] == [AtTime(2.0, 2001)] && fs[..1][..0] == [];
    assert fs[..2] == [AtTime(2.0, 2001), AtTime(3.0, 2001)] && fs[..2][..1] == fs[..1];
    assert fs[..3][..2] == fs[..2] && fs[..3] == fs;
    assert YearsOf(fs[..1], TimeIsYear) == {2001};
    assert YearsOf(fs[..2], TimeIsYear) == {2001};
    assert MagsInYear(fs[..1], TimeIsYear, 2001) == [Some(2.0)];
    assert MagsInYear(fs[..2], TimeIsYear, 2001) == [Some(2.0), Some(3.0)];
    assert MagsInYear(fs[..1], TimeIsYear, 2003) == [];
  }

  /** Filtering the example's lists keeps every magnitude, in order. */
  lemma PresentExample()
    ensures Present([Some(2.0), Some(3.0)]) == [2.0, 3.0]
    ensures Present([Some(4.0)]) == [4.0]
  {
    var two: seq<Option<real>> := [Some(2.0), Some(3.0)];
    assert two[..1] == [Some(2.0)] && two[..1][..0] == [];
    assert Present(two[..1]) == [2.0];
  }

  /** The yearly averages of that grouping, after filtering, are 2.5 and 4.0. */
  lemma AverageExample()
    ensures Mean([2.0, 3.0]) == Some(2.5)
    ensures Mean([4.0]) == Some(4.0)
  {
    assert Sum([2.0, 3.0]) == 5.0 by {
      var xs := [2.0, 3.0];
      assert xs[..1] == [2.0] && xs[..1][..0] == [];
    }
    assert Sum([4.0]) == 4.0 by {
      assert [4.0][..0] == [];
    }
  }



}
