# Earthquake record processing, modelled in Dafny

This project models the record-processing core of `earthquakes.py`. The script
reads a USGS GeoJSON FeatureCollection of earthquakes. It reports the number of
events and the strongest one. It also aggregates the events by calendar year
into a count series and an average-magnitude series for two charts.
A feature's coordinates follow the GeoJSON position order of section 3.1.1 of
RFC 7946: longitude, latitude, then an optional depth.

The modules are:

- `Wrappers` (`wrappers.dfy`): `Option` (a missing value) and `Result` (a value or a raised error).
- `Features` (`features.dfy`): the record types (`Collection`, `Feature`, `Properties`,
  `Geometry`, `Metadata`) and the field extractors `count_earthquakes`, `get_magnitude`,
  `get_location` and `get_year`. Each nested lookup `d.get(k, {})` becomes an `Option`
  field. The NaN sentinel for a missing magnitude becomes `None`. The four `ValueError`s
  become the `Error` datatype.
- `Strongest` (`strongest.dfy`): `get_maximum`. It is a method with the source's single
  loop, proved against the predicate `IsFirstStrongest`: a present magnitude that is
  at least every other present magnitude and strictly greater than every present
  magnitude before it. The float `-inf` seed becomes the state "no maximum yet"
  (`maxFeature == None`).
- `PerYear` (`per_year.dfy`): `get_magnitudes_per_year`, the counting loop of
  `plot_number_per_year` and the averaging loop of `plot_average_magnitude_per_year`.
  They are methods over the source's dictionaries (Dafny `map`s). Each is proved against
  reference functions (`YearsOf`, `CountInYear`, `MagsInYear`) that read the feature
  list one element at a time. `sorted(d.keys())` is the helper method `SortedKeys`.

The conversion `date.fromtimestamp(ms / 1000).year` depends on the machine's local
time zone. It is a parameter `yearOf: int -> int` of every per-year operation and
of `GetYear`, and nothing is assumed about it.

## Model

| member | source | states |
|---|---|---|
| `Features.FeatureList` | earthquakes.py:57 | an absent `features` field reads as the empty list; a present one is returned as is |
| `Features.CountEarthquakes` | earthquakes.py:53-58 | the declared `metadata.count` when it is an integer; otherwise (no metadata, no count, a non-integer count) the feature-list length, which is 0 when `features` is absent |
| `Features.CountPrefersMetadata` | earthquakes.py:56-58 | an integer metadata count wins even when it differs from the number of features; a non-integer count falls back to the length; an empty collection counts 0 |
| `Features.GetMagnitude` | earthquakes.py:61-66 | total (never fails); missing exactly when `properties` or `properties.mag` is absent, otherwise the given magnitude |
| `Features.GetLocation` | earthquakes.py:69-79 | fails with the missing-coordinates error exactly when the coordinates are absent or hold fewer than two numbers; otherwise returns `(coords[1], coords[0])`, latitude first |
| `Features.LocationRoundTrip` | earthquakes.py:75-79 | reading back a position `[lon, lat] + rest` gives `(lat, lon)`: depth and later members are ignored |
| `Features.LocationExample` | earthquakes.py:75-79 | `[-3.2, 54.1, 10.0]` gives `(54.1, -3.2)` |
| `Features.GetYear` | earthquakes.py:119-126 | fails with the missing-time error exactly when `properties.time` is absent; otherwise the year of the timestamp |
| `Strongest.ReportOn` | earthquakes.py:107-108 | reporting the winner gives its magnitude and location; a location failure on the winner propagates as the result |
| `Strongest.GetMaximum` | earthquakes.py:82-108 | an empty list fails with "no features"; a non-empty list without any magnitude fails with "no valid magnitude"; otherwise the outcome is that of the first strongest feature; on success the magnitude is some feature's magnitude and at least every present magnitude |
| `Strongest.FirstStrongestUnique` | earthquakes.py:100-102 | the strict `>` rule determines a single winner: two first-strongest indices are equal |
| `Strongest.FirstStrongestExists` | earthquakes.py:96-105 | whenever some magnitude is present, a first strongest feature exists, so only the all-missing case fails |
| `Strongest.TieGoesToEarliest` | earthquakes.py:100-102 | with magnitudes 1.0, 5.0, 5.0, 3.0 the winner is the feature at index 1, not the later equal one |
| `PerYear.YearsOfMeansSomeFeature` | earthquakes.py:131-138 | a year is a key of the grouping exactly when some timestamped feature falls in it |
| `PerYear.YearPresentIffCounted` | earthquakes.py:147-155 | a year is a key exactly when its count is positive, so years without events are absent rather than zero-filled |
| `PerYear.MagsLengthIsCount` | earthquakes.py:137 | each year's magnitude list has one entry per feature of that year |
| `PerYear.IndicesInYearSound` | earthquakes.py:132-137 | the positions recorded for a year are valid, strictly increasing (input order), and each feature there falls in that year |
| `PerYear.IndicesInYearComplete` | earthquakes.py:132-137 | every feature of a year has its position recorded: no timestamped feature is dropped |
| `PerYear.MagsInInputOrder` | earthquakes.py:132-137 | a year's list holds, entry by entry, the magnitudes of the features at those positions, so it has exactly the magnitudes of that year's features in input order |
| `PerYear.SumCountsIsTimestamped` | earthquakes.py:147-153 | over any ascending list that covers every year, the per-year counts add up to the number of timestamped features |
| `PerYear.CountSeriesTotal` | earthquakes.py:147-156 | the `counts` series adds up to the number of features that have a timestamp; untimestamped ones are skipped |
| `PerYear.GroupingTotal` | earthquakes.py:129-138 | the lists of the year-to-magnitudes dictionary hold, together, exactly one entry per timestamped feature |
| `PerYear.Present` | earthquakes.py:185 | the filtered list is no longer than the input and is empty exactly when all magnitudes are missing |
| `PerYear.PresentAppend` | earthquakes.py:185 | filtering distributes over concatenation; with `PresentSingle` every present magnitude is kept, with its multiplicity and in input order |
| `PerYear.PresentSingle` | earthquakes.py:185 | a one-element list keeps `x` when it is `Some(x)` and becomes empty when it is missing |
| `PerYear.PresentKeepsValues` | earthquakes.py:185 | a value survives filtering exactly when it occurs as a present magnitude |
| `PerYear.Mean` | earthquakes.py:186 | the average is missing exactly when nothing is left after filtering |
| `PerYear.MeanWithinBounds` | earthquakes.py:185-186 | a yearly average lies within any lower and upper bound of the magnitudes it averages |
| `PerYear.SortedKeys` | earthquakes.py:155 | the keys in strictly ascending order, each exactly once |
| `PerYear.GetMagnitudesPerYear` | earthquakes.py:129-138 | the keys are exactly the years of the timestamped features; each year maps to that year's magnitudes in input order; features without a time are skipped, not reported |
| `PerYear.NumberPerYear` | earthquakes.py:147-156 | `years` is strictly ascending and holds exactly the years of timestamped features; `counts` lines up with it, each entry the number of that year's features, never 0 |
| `PerYear.AverageMagnitudePerYear` | earthquakes.py:180-186 | years strictly ascending and exactly the timestamped years; each entry is the mean of that year's present magnitudes, and missing exactly when all of that year's magnitudes are missing |
| `PerYear.GroupingExample` | earthquakes.py:129-138 | years 2001, 2001, 2003 with magnitudes 2.0, 3.0, 4.0 group as `{2001: [2.0, 3.0], 2003: [4.0]}` |
| `PerYear.PresentExample` | earthquakes.py:185 | filtering those two lists keeps `[2.0, 3.0]` and `[4.0]` |
| `PerYear.AverageExample` | earthquakes.py:186 | those filtered lists average to 2.5 and 4.0 |

## Left out

- `get_data` (earthquakes.py:17-50): the HTTP request to the USGS API, status handling and JSON decoding are I/O. The collection is an input. Its `features` field is optional, as the later `.get("features", [])` calls allow.
- Chart construction, `savefig` and `plt.show` (earthquakes.py:158-171, 188-200): plotting-library calls. The model stops at the `years`/`counts` and `years`/`avgs` series passed to them.
- The two `__main__` blocks (earthquakes.py:112-116, 203-212): console orchestration and printing.
- `date.fromtimestamp` (earthquakes.py:126): depends on the local time zone. It is the parameter `yearOf`. A timestamp outside the platform's range, which makes it raise and so makes the grouping loops skip the feature, is not modelled: `yearOf` is total.
- IEEE-754 floats: magnitudes, coordinates and averages are exact reals. `float()` conversion, NaN self-inequality, the `-inf` seed and rounding in `sum(mags) / len(mags)` are not modelled.
- Python dynamic typing: the record types rule out `properties`, `geometry` or `metadata` being explicitly `null` or not an object (Python would raise `AttributeError`, for `metadata` at earthquakes.py:56), `features` being explicitly `null` (`len(None)` would raise at earthquakes.py:58, while earthquakes.py:89 treats it as empty), non-numeric magnitudes or coordinates (`float()` would raise), and a `bool` metadata count (Python counts `True` as the integer 1). Coordinates that are present but not a list are represented like absent ones (`None`), which the source also rejects.
- Error messages: the four `ValueError` messages are the constructors of `Features.Error`, with the text given as comments.
