/** The city aggregator (`city_hourly_series`): sample the province's stations, collect each
    station's table, keep the trailing window before the latest reading, and average the
    stations hour by hour. */
module CityAggregate {
  import opened Records
  import opened Ordering
  import opened Stations
  import opened StationSeries

  /** `frames`: the table of every station whose call returned, in station order. A station
      whose call raised is skipped. */
  function CollectFrames(stations: seq<string>, fetch: string -> Outcome<seq<Item>>, target: string, parsers: Parsers): (frames: seq<Frame>)
    ensures |frames| <= |stations|
    ensures forall k, row :: 0 <= k < |frames| && row in Rows(frames[k]) ==> row.station in stations
  {
    if |stations| == 0 then []
    else
      var name := stations[|stations| - 1];
      var prev := CollectFrames(stations[..|stations| - 1], fetch, target, parsers);
      match StationRecentHours(fetch(name), name, target, parsers)
      case Ok(frame) => prev + [frame]
      case Failed => prev
  }

  /** The rows of each frame, in order: what `pd.concat` stacks. */
  function Tables(frames: seq<Frame>): (tables: seq<seq<Reading>>)
    ensures |tables| == |frames|
    ensures forall k :: 0 <= k < |frames| ==> tables[k] == Rows(frames[k])
  {
    if |frames| == 0 then [] else Tables(frames[..|frames| - 1]) + [Rows(frames[|frames| - 1])]
  }

  /** The concatenation of the frames has no row and one of them is the untyped empty table.
      `pd.concat` then gives a `datetime` column with no timestamp type, whose `max()` is NaN
      rather than NaT, and subtracting the window from NaN raises. */
  predicate UntypedAndEmpty(frames: seq<Frame>) {
    Untyped in frames && Concat(Tables(frames)) == []
  }

  /** Stations are processed independently and in order. */
  lemma {:induction false} CollectFramesAppend(a: seq<string>, b: seq<string>, fetch: string -> Outcome<seq<Item>>, target: string, parsers: Parsers)
    ensures CollectFrames(a + b, fetch, target, parsers) == CollectFrames(a, fetch, target, parsers) + CollectFrames(b, fetch, target, parsers)
  {
    if |b| == 0 {
      assert a + b == a;
    } else {
      assert (a + b)[..|a + b| - 1] == a + b[..|b| - 1];
      CollectFramesAppend(a, b[..|b| - 1], fetch, target, parsers);
    }
  }

  /** One station: a call that returns adds its frame, a call that raises adds nothing. With
      `CollectFramesAppend` this fixes the frames of any list of stations. */
  lemma CollectFramesOne(s: string, fetch: string -> Outcome<seq<Item>>, target: string, parsers: Parsers)
    ensures CollectFrames([s], fetch, target, parsers) ==
      match StationRecentHours(fetch(s), s, target, parsers)
      case Ok(frame) => [frame]
      case Failed => []
  {
    assert [s][..0] == [];
  }

  /** A station whose call raises contributes nothing and does not stop the stations after it. */
  lemma FailedStationSkipped(a: seq<string>, s: string, b: seq<string>, fetch: string -> Outcome<seq<Item>>, target: string, parsers: Parsers)
    requires StationRecentHours(fetch(s), s, target, parsers).Failed?
    ensures CollectFrames(a + [s] + b, fetch, target, parsers) == CollectFrames(a + b, fetch, target, parsers)
  {
    CollectFramesAppend(a + [s], b, fetch, target, parsers);
    CollectFramesAppend(a, [s], fetch, target, parsers);
    CollectFramesAppend(a, b, fetch, target, parsers);
    assert CollectFrames([s], fetch, target, parsers) == [] by {
      assert [s][..0] == [];
    }
  }

  /** When every station's call raises, nothing is collected. */
  lemma {:induction false} AllFailedCollectsNothing(stations: seq<string>, fetch: string -> Outcome<seq<Item>>, target: string, parsers: Parsers)
    requires forall s :: s in stations ==> StationRecentHours(fetch(s), s, target, parsers).Failed?
    ensures CollectFrames(stations, fetch, target, parsers) == []
  {
    if |stations| != 0 {
      AllFailedCollectsNothing(stations[..|stations| - 1], fetch, target, parsers);
    }
  }

  /** Only the given stations are asked for: two upstreams that agree on them give the same
      frames, whatever they answer for other stations. */
  lemma {:induction false} OnlyListedStationsConsulted(stations: seq<string>, fetch1: string -> Outcome<seq<Item>>, fetch2: string -> Outcome<seq<Item>>, target: string, parsers: Parsers)
    requires forall s :: s in stations ==> fetch1(s) == fetch2(s)
    ensures CollectFrames(stations, fetch1, target, parsers) == CollectFrames(stations, fetch2, target, parsers)
  {
    if |stations| != 0 {
      OnlyListedStationsConsulted(stations[..|stations| - 1], fetch1, fetch2, target, parsers);
    }
  }

  /** Some row has timestamp `t`. */
  ghost predicate HasTime(rows: seq<Reading>, t: int) {
    exists r :: r in rows && r.time == t
  }

  /** `df["datetime"].max()`. */
  function MaxTime(rows: seq<Reading>): (m: int)
    requires |rows| > 0
    ensures forall r :: r in rows ==> r.time <= m
    ensures HasTime(rows, m)
  {
    if |rows| == 1 then rows[0].time
    else
      var prev := MaxTime(rows[..|rows| - 1]);
      assert forall r :: r in rows[..|rows| - 1] ==> r in rows;
      assert forall r :: r in rows ==> r in rows[..|rows| - 1] || r == rows[|rows| - 1];
      if rows[|rows| - 1].time > prev then rows[|rows| - 1].time else prev
  }

  /** `df[df["datetime"] >= cutoff]`: the rows at or after the cutoff, in order. */
  function Window(rows: seq<Reading>, cutoff: int): (kept: seq<Reading>)
    ensures |kept| <= |rows|
    ensures forall r :: r in kept <==> r in rows && r.time >= cutoff
  {
    if |rows| == 0 then []
    else
      var prev := Window(rows[..|rows| - 1], cutoff);
      var last := rows[|rows| - 1];
      assert forall r :: r in rows <==> r in rows[..|rows| - 1] || r == last;
      if last.time >= cutoff then prev + [last] else prev
  }

  /** The window keeps row order and multiplicity: it is applied row by row. */
  lemma {:induction false} WindowAppend(a: seq<Reading>, b: seq<Reading>, cutoff: int)
    ensures Window(a + b, cutoff) == Window(a, cutoff) + Window(b, cutoff)
  {
    if |b| == 0 {
      assert a + b == a;
    } else {
      assert (a + b)[..|a + b| - 1] == a + b[..|b| - 1];
      WindowAppend(a, b[..|b| - 1], cutoff);
    }
  }

  /** A single row is kept exactly when it is at or after the cutoff. */
  lemma WindowOne(r: Reading, cutoff: int)
    ensures Window([r], cutoff) == if r.time >= cutoff then [r] else []
  {
    assert [r][..0] == [];
  }

  /** The pollutant values of the rows with timestamp `t`, in row order: one group of
      `groupby("datetime")`. */
  function ValuesAt(rows: seq<Reading>, t: int): (vs: seq<real>)
    ensures |vs| > 0 <==> HasTime(rows, t)
    ensures forall v :: v in vs <==> exists r :: r in rows && r.time == t && r.value == v
  {
    if |rows| == 0 then []
    else
      var prev := ValuesAt(rows[..|rows| - 1], t);
      var last := rows[|rows| - 1];
      assert forall r :: r in rows <==> r in rows[..|rows| - 1] || r == last;
      if last.time == t then prev + [last.value] else prev
  }

  /** A group keeps the order and multiplicity of its rows' values: it is built row by row. */
  lemma {:induction false} ValuesAtAppend(a: seq<Reading>, b: seq<Reading>, t: int)
    ensures ValuesAt(a + b, t) == ValuesAt(a, t) + ValuesAt(b, t)
  {
    if |b| == 0 {
      assert a + b == a;
    } else {
      assert (a + b)[..|a + b| - 1] == a + b[..|b| - 1];
      ValuesAtAppend(a, b[..|b| - 1], t);
    }
  }

  /** A single row adds its value to its own timestamp's group and to no other. */
  lemma ValuesAtOne(r: Reading, t: int)
    ensures ValuesAt([r], t) == if r.time == t then [r.value] else []
  {
    assert [r][..0] == [];
  }

  function Sum(vs: seq<real>): real {
    if |vs| == 0 then 0.0 else Sum(vs[..|vs| - 1]) + vs[|vs| - 1]
  }

  /** The arithmetic mean. */
  function Mean(vs: seq<real>): real
    requires |vs| > 0
  {
    Sum(vs) / (|vs| as real)
  }

  lemma {:induction false} SumBounds(vs: seq<real>, lo: real, hi: real)
    requires forall v :: v in vs ==> lo <= v <= hi
    ensures (|vs| as real) * lo <= Sum(vs) <= (|vs| as real) * hi
  {
    if |vs| != 0 {
      var init := vs[..|vs| - 1];
      assert forall v :: v in init ==> v in vs;
      SumBounds(init, lo, hi);
      assert vs[|vs| - 1] in vs;
      assert Sum(vs) == Sum(init) + vs[|vs| - 1];
      assert |vs| as real == (|init| as real) + 1.0;
      assert (|vs| as real) * lo == (|init| as real) * lo + lo;
      assert (|vs| as real) * hi == (|init| as real) * hi + hi;
    }
  }

  /** A mean lies between the smallest and the largest value it averages. */
  lemma MeanBounds(vs: seq<real>, lo: real, hi: real)
    requires |vs| > 0
    requires forall v :: v in vs ==> lo <= v <= hi
    ensures lo <= Mean(vs) <= hi
  {
    SumBounds(vs, lo, hi);
    var n := |vs| as real;
    DivMonotone(n * lo, Sum(vs), n);
    DivMonotone(Sum(vs), n * hi, n);
    assert (n * lo) / n == lo && (n * hi) / n == hi;
  }

  lemma DivMonotone(a: real, b: real, n: real)
    requires a <= b && n > 0.0
    ensures a / n <= b / n
  {
    assert b / n - a / n == (b - a) / n;
  }

  /** One row per key: the key, the mean of the values at that key, the city. */
  function Groups(keys: seq<int>, rows: seq<Reading>, city: string): (out: seq<CityRow>)
    requires forall k :: 0 <= k < |keys| ==> HasTime(rows, keys[k])
    ensures |out| == |keys|
    ensures forall k :: 0 <= k < |keys| ==> out[k].time == keys[k]
    ensures forall k :: 0 <= k < |keys| ==> out[k] == CityRow(keys[k], Mean(ValuesAt(rows, keys[k])), city)
  {
    if |keys| == 0 then []
    else Groups(keys[..|keys| - 1], rows, city) + [CityRow(keys[|keys| - 1], Mean(ValuesAt(rows, keys[|keys| - 1])), city)]
  }

  /** The timestamps of the rows. */
  function Times(rows: seq<Reading>): (ts: seq<int>)
    ensures forall t :: t in ts <==> HasTime(rows, t)
  {
    if |rows| == 0 then []
    else
      var last := rows[|rows| - 1];
      assert forall r :: r in rows <==> r in rows[..|rows| - 1] || r == last;
      Times(rows[..|rows| - 1]) + [last.time]
  }

  /** `df.groupby("datetime", as_index=False)[target].mean()` with the city column added:
      one row per distinct timestamp, in increasing timestamp order, holding the mean of the
      values at that timestamp. */
  function GroupMean(rows: seq<Reading>, city: string): (out: seq<CityRow>)
    ensures forall i, j :: 0 <= i < j < |out| ==> out[i].time < out[j].time
    ensures forall k :: 0 <= k < |out| ==> out[k].city == city
    ensures forall k :: 0 <= k < |out| ==> HasTime(rows, out[k].time)
    ensures forall k :: 0 <= k < |out| ==> out[k].value == Mean(ValuesAt(rows, out[k].time))
  {
    Groups(DistinctTimes(rows), rows, city)
  }

  /** Every timestamp present in the rows has its row in the grouped table. */
  lemma GroupMeanCoversTimes(rows: seq<Reading>, city: string)
    ensures var out := GroupMean(rows, city);
      forall t :: (exists k :: 0 <= k < |out| && out[k].time == t) <==> HasTime(rows, t)
  {
    var keys := DistinctTimes(rows);
    var out := Groups(keys, rows, city);
    assert GroupMean(rows, city) == out;
    GroupsFollowKeys(keys, out);
  }

  /** A table whose k-th row carries the k-th key has exactly the keys as its timestamps. */
  lemma GroupsFollowKeys(keys: seq<int>, out: seq<CityRow>)
    requires |out| == |keys|
    requires forall k :: 0 <= k < |keys| ==> out[k].time == keys[k]
    ensures forall t :: (exists k :: 0 <= k < |out| && out[k].time == t) <==> t in keys
  {
    forall t | t in keys ensures exists k :: 0 <= k < |out| && out[k].time == t {
      var k :| 0 <= k < |keys| && keys[k] == t;
      assert out[k].time == t;
    }
  }

  /** The distinct timestamps of the rows in increasing order: the group keys. */
  function DistinctTimes(rows: seq<Reading>): (keys: seq<int>)
    ensures forall i, j :: 0 <= i < j < |keys| ==> keys[i] < keys[j]
    ensures forall t :: t in keys <==> HasTime(rows, t)
    ensures forall k :: 0 <= k < |keys| ==> HasTime(rows, keys[k])
  {
    TimeOrder();
    var keys := SortedSet(Times(rows), Earlier);
    assert forall i, j :: 0 <= i < j < |keys| ==> Earlier(keys[i], keys[j]);
    keys
  }

  /** Lines after the concatenation: the hourly means of the rows no more than `nHours`
      before the latest one, labelled with the city. An empty table with a typed `datetime`
      column has NaT as its latest timestamp and gives an empty series. */
  function HourlySeries(rows: seq<Reading>, city: string, nHours: int): (out: seq<CityRow>)
    ensures rows == [] ==> out == []
    ensures forall k :: 0 <= k < |out| ==> out[k].city == city
    ensures forall i, j :: 0 <= i < j < |out| ==> out[i].time < out[j].time
  {
    if |rows| == 0 then []
    else GroupMean(Window(rows, MaxTime(rows) - nHours), city)
  }

  /** The window is anchored at the latest collected timestamp `tmax` and reaches back
      `nHours`, both ends included: the series has exactly one row for each timestamp in
      `[tmax - nHours, tmax]` at which some station reported, and no other. With a
      non-negative window the latest hour is always there. */
  lemma HourlySeriesWindow(rows: seq<Reading>, city: string, nHours: int)
    requires rows != []
    ensures var out, tmax := HourlySeries(rows, city, nHours), MaxTime(rows);
      && (forall k :: 0 <= k < |out| ==> tmax - nHours <= out[k].time <= tmax)
      && (forall t :: (exists k :: 0 <= k < |out| && out[k].time == t) <==> HasTime(rows, t) && tmax - nHours <= t)
      && (nHours >= 0 ==> |out| > 0)
  {
    var kept := Window(rows, MaxTime(rows) - nHours);
    var out := GroupMean(kept, city);
    assert HourlySeries(rows, city, nHours) == out;
    GroupMeanCoversTimes(kept, city);
    assert forall t :: HasTime(kept, t) <==> HasTime(rows, t) && t >= MaxTime(rows) - nHours;
    assert nHours >= 0 ==> HasTime(kept, MaxTime(rows));
  }

  /** Each hourly value is the arithmetic mean of the windowed readings at that hour. */
  lemma HourlySeriesMeans(rows: seq<Reading>, city: string, nHours: int, k: nat)
    requires rows != [] && k < |HourlySeries(rows, city, nHours)|
    ensures HasTime(Window(rows, MaxTime(rows) - nHours), HourlySeries(rows, city, nHours)[k].time)
    ensures HourlySeries(rows, city, nHours)[k].value ==
      Mean(ValuesAt(Window(rows, MaxTime(rows) - nHours), HourlySeries(rows, city, nHours)[k].time))
  {
    var kept := Window(rows, MaxTime(rows) - nHours);
    assert HourlySeries(rows, city, nHours) == GroupMean(kept, city);
    GroupMeanAt(kept, city, k);
  }

  lemma GroupMeanAt(rows: seq<Reading>, city: string, k: nat)
    requires k < |GroupMean(rows, city)|
    ensures var g := GroupMean(rows, city)[k];
      HasTime(rows, g.time) && g.value == Mean(ValuesAt(rows, g.time))
  {
  }

  /** Each hourly value lies between the lowest and the highest reading of that hour:
      averaging across stations never leaves their range. */
  lemma HourlyMeanWithinReadings(rows: seq<Reading>, city: string, nHours: int, k: nat, lo: real, hi: real)
    requires k < |HourlySeries(rows, city, nHours)|
    requires forall r :: r in rows && r.time == HourlySeries(rows, city, nHours)[k].time ==> lo <= r.value <= hi
    ensures lo <= HourlySeries(rows, city, nHours)[k].value <= hi
  {
    var out := HourlySeries(rows, city, nHours);
    HourlySeriesMeans(rows, city, nHours, k);
    var kept := Window(rows, MaxTime(rows) - nHours);
    var vs := ValuesAt(kept, out[k].time);
    assert forall v :: v in vs ==> lo <= v <= hi;
    MeanBounds(vs, lo, hi);
  }

  /** `city_hourly_series` on the province's directory response and the stations' responses,
      as written. A directory that raises makes the whole call raise; so does a collection
      whose frames are all empty when one of them is the untyped empty table. */
  function CityHourlySeriesSpec(directory: Outcome<seq<Item>>, fetch: string -> Outcome<seq<Item>>, city: string, target: string, nHours: int, maxStations: nat, parsers: Parsers): (r: Outcome<seq<CityRow>>)
    ensures ListStations(directory).Failed? ==> r.Failed?
    ensures ListStations(directory).Ok? ==>
      (r.Failed? <==> UntypedAndEmpty(CollectFrames(Sample(ListStations(directory).value, maxStations), fetch, target, parsers)))
    ensures r.Ok? ==> forall k :: 0 <= k < |r.value| ==> r.value[k].city == city
    ensures r.Ok? ==> forall i, j :: 0 <= i < j < |r.value| ==> r.value[i].time < r.value[j].time
  {
    match ListStations(directory)
    case Failed => Failed
    case Ok(stations) =>
      var frames := CollectFrames(Sample(stations, maxStations), fetch, target, parsers);
      if UntypedAndEmpty(frames) then Failed
      else Ok(HourlySeries(Concat(Tables(frames)), city, nHours))
  }

  /** `city_hourly_series` as evidently intended: only a failed directory makes it raise, and
      a collection with no rows gives the empty city table, as line 75 does for no frames. */
  function CityHourlySeriesIntended(directory: Outcome<seq<Item>>, fetch: string -> Outcome<seq<Item>>, city: string, target: string, nHours: int, maxStations: nat, parsers: Parsers): (r: Outcome<seq<CityRow>>)
    ensures r.Failed? <==> ListStations(directory).Failed?
    ensures r.Ok? ==> forall k :: 0 <= k < |r.value| ==> r.value[k].city == city
    ensures r.Ok? ==> forall i, j :: 0 <= i < j < |r.value| ==> r.value[i].time < r.value[j].time
  {
    match ListStations(directory)
    case Failed => Failed
    case Ok(stations) => Ok(HourlySeries(Concat(Tables(CollectFrames(Sample(stations, maxStations), fetch, target, parsers))), city, nHours))
  }

  /** The code as written and as intended differ only where the written code raises and the
      intended one returns the empty table. */
  lemma AsWrittenAgreesWithIntended(directory: Outcome<seq<Item>>, fetch: string -> Outcome<seq<Item>>, city: string, target: string, nHours: int, maxStations: nat, parsers: Parsers)
    ensures var written := CityHourlySeriesSpec(directory, fetch, city, target, nHours, maxStations, parsers);
      written.Ok? ==> written == CityHourlySeriesIntended(directory, fetch, city, target, nHours, maxStations, parsers)
    ensures var written := CityHourlySeriesSpec(directory, fetch, city, target, nHours, maxStations, parsers);
      var intended := CityHourlySeriesIntended(directory, fetch, city, target, nHours, maxStations, parsers);
      written.Failed? && intended.Ok? ==> intended.value == []
  {
  }

  /** A province with one station whose response holds no items: the code as written raises
      (NaN minus a timedelta), where the intended result is the empty city table. */
  lemma EmptyStationResponseRaises()
    ensures var directory := Ok([Item(map[StationNameKey := Some("A")])]);
      var fetch := (s: string) => Ok([]);
      var parsers := Parsers((s: string) => None, (s: string) => None);
      && CityHourlySeriesSpec(directory, fetch, "Seoul", "pm25", 48, 6, parsers) == Failed
      && CityHourlySeriesIntended(directory, fetch, "Seoul", "pm25", 48, 6, parsers) == Ok([])
  {
    var items := [Item(map[StationNameKey := Some("A")])];
    var fetch := (s: string) => Ok([]);
    var parsers := Parsers((s: string) => None, (s: string) => None);
    assert Field(items[0], StationNameKey) == Some("A");
    ListStationsCanonical(items, ["A"]);
    assert Sample(["A"], 6) == ["A"];
    assert ["A"][..0] == [];
    var frames := CollectFrames(["A"], fetch, "pm25", parsers);
    assert frames == [Untyped];
    assert Tables(frames) == [[]];
    assert Concat(Tables(frames)) == [];
  }

  /** When every sampled station's call raises, the city's table is empty, not an error. */
  lemma AllStationsFailedGivesEmpty(directory: Outcome<seq<Item>>, fetch: string -> Outcome<seq<Item>>, city: string, target: string, nHours: int, maxStations: nat, parsers: Parsers)
    requires ListStations(directory).Ok?
    requires forall s :: s in Sample(ListStations(directory).value, maxStations) ==> StationRecentHours(fetch(s), s, target, parsers).Failed?
    ensures CityHourlySeriesSpec(directory, fetch, city, target, nHours, maxStations, parsers) == Ok([])
  {
    AllFailedCollectsNothing(Sample(ListStations(directory).value, maxStations), fetch, target, parsers);
  }

  /** The aggregator's loop: fetch each station in turn and keep the frames of those whose
      call returns, skipping those that raise. */
  method CollectStationFrames(stations: seq<string>, fetch: string -> Outcome<seq<Item>>, target: string, parsers: Parsers) returns (frames: seq<Frame>)
    ensures frames == CollectFrames(stations, fetch, target, parsers)
  {
    frames := [];
    for i := 0 to |stations|
      invariant frames == CollectFrames(stations[..i], fetch, target, parsers)
    {
      var res := StationRecentHours(fetch(stations[i]), stations[i], target, parsers);
      if res.Ok? {
        frames := frames + [res.value];
      }
      assert stations[..i + 1][..i] == stations[..i];
    }
    assert stations[..|stations|] == stations;
  }

  /** `city_hourly_series`: list and sample the stations, collect their frames, then window
      and average what was collected. */
  method CityHourlySeries(directory: Outcome<seq<Item>>, fetch: string -> Outcome<seq<Item>>, city: string, target: string, nHours: int, maxStations: nat, parsers: Parsers) returns (r: Outcome<seq<CityRow>>)
    ensures r == CityHourlySeriesSpec(directory, fetch, city, target, nHours, maxStations, parsers)
  {
    var listed := ListStations(directory);
    if listed.Failed? {
      return Failed;
    }
    var frames := CollectStationFrames(Sample(listed.value, maxStations), fetch, target, parsers);
    if frames == [] {
      return Ok([]);
    }
    var all := Concat(Tables(frames));
    if all == [] && Untyped in frames {
      // `tmax` is NaN, and NaN minus the window raises
      return Failed;
    }
    r := Ok(HourlySeries(all, city, nHours));
  }
}
