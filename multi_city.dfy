/** The multi-city loader (`load_all_cities`): the city aggregator run once per configured
    province, in the configured order, and the results concatenated. */
module MultiCity {
  import opened Records
  import opened Stations
  import opened CityAggregate

  /** `SIDO_MAP`: each province's name as the API knows it, with its display label, in order. */
  const SidoMap: seq<(string, string)> := [("서울", "Seoul"), ("인천", "Incheon"), ("대전", "Daejeon"), ("부산", "Busan")]

  /** `max_stations`, left at its default by the loader. */
  const MaxStations: nat := 6

  /** What the aggregator gives for each province of `SidoMap`, in order. */
  function CityOutcomes(directory: string -> Outcome<seq<Item>>, fetch: string -> Outcome<seq<Item>>, nHours: int, pollutant: string, parsers: Parsers): seq<Outcome<seq<CityRow>>>
  {
    seq(|SidoMap|, k requires 0 <= k < |SidoMap| =>
      CityHourlySeriesSpec(directory(SidoMap[k].0), fetch, SidoMap[k].1, pollutant, nHours, MaxStations, parsers))
  }

  lemma CityOutcomesAt(directory: string -> Outcome<seq<Item>>, fetch: string -> Outcome<seq<Item>>, nHours: int, pollutant: string, parsers: Parsers)
    ensures var outcomes := CityOutcomes(directory, fetch, nHours, pollutant, parsers);
      && |outcomes| == |SidoMap|
      && forall k :: 0 <= k < |SidoMap| ==> outcomes[k] == CityHourlySeriesSpec(directory(SidoMap[k].0), fetch, SidoMap[k].1, pollutant, nHours, MaxStations, parsers)
  {
  }

  /** The tables of a run of calls made in order, or `Failed` as soon as one call raises
      (the exception leaves the loop and the caller). */
  function Gather<T>(outcomes: seq<Outcome<T>>): (r: Outcome<seq<T>>)
    ensures r.Ok? <==> forall k :: 0 <= k < |outcomes| ==> outcomes[k].Ok?
    ensures r.Ok? ==> |r.value| == |outcomes| && forall k :: 0 <= k < |outcomes| ==> r.value[k] == outcomes[k].value
  {
    if |outcomes| == 0 then Ok([])
    else
      var init := outcomes[..|outcomes| - 1];
      assert forall k :: 0 <= k < |init| ==> init[k] == outcomes[k];
      match Gather(init)
      case Failed => Failed
      case Ok(tables) =>
        match outcomes[|outcomes| - 1]
        case Failed => Failed
        case Ok(last) => Ok(tables + [last])
  }

  /** One more call: its table is appended, or its exception aborts the whole run. */
  lemma GatherStep<T>(outcomes: seq<Outcome<T>>, i: nat, tables: seq<T>)
    requires i < |outcomes| && Gather(outcomes[..i]) == Ok(tables)
    ensures outcomes[i].Ok? ==> Gather(outcomes[..i + 1]) == Ok(tables + [outcomes[i].value])
    ensures outcomes[i].Failed? ==> Gather(outcomes).Failed?
  {
    assert outcomes[..i + 1][..i] == outcomes[..i];
  }

  /** `load_all_cities`: the concatenation of the per-city tables; it raises exactly when the
      aggregator raises for some province. */
  function LoadAllSpec(directory: string -> Outcome<seq<Item>>, fetch: string -> Outcome<seq<Item>>, nHours: int, pollutant: string, parsers: Parsers): (r: Outcome<seq<CityRow>>)
    ensures r.Failed? <==> exists k :: 0 <= k < |SidoMap| && CityOutcomes(directory, fetch, nHours, pollutant, parsers)[k].Failed?
  {
    CityOutcomesAt(directory, fetch, nHours, pollutant, parsers);
    match Gather(CityOutcomes(directory, fetch, nHours, pollutant, parsers))
    case Failed => Failed
    case Ok(tables) => Ok(Concat(tables))
  }

  /** A province whose directory request fails makes the whole load raise: the loader has no
      `try` around the aggregator. */
  lemma DirectoryFailureFailsLoad(directory: string -> Outcome<seq<Item>>, fetch: string -> Outcome<seq<Item>>, nHours: int, pollutant: string, parsers: Parsers, k: nat)
    requires k < |SidoMap| && ListStations(directory(SidoMap[k].0)).Failed?
    ensures LoadAllSpec(directory, fetch, nHours, pollutant, parsers).Failed?
  {
    CityOutcomesAt(directory, fetch, nHours, pollutant, parsers);
    assert CityHourlySeriesSpec(directory(SidoMap[k].0), fetch, SidoMap[k].1, pollutant, nHours, MaxStations, parsers).Failed?;
  }

  /** The loader's loop: call the aggregator per province and append its table. */
  method LoadAllCities(directory: string -> Outcome<seq<Item>>, fetch: string -> Outcome<seq<Item>>, nHours: int, pollutant: string, parsers: Parsers) returns (r: Outcome<seq<CityRow>>)
    ensures r == LoadAllSpec(directory, fetch, nHours, pollutant, parsers)
  {
    ghost var outcomes := CityOutcomes(directory, fetch, nHours, pollutant, parsers);
    var frames: seq<seq<CityRow>> := [];
    for i := 0 to |SidoMap|
      invariant Gather(outcomes[..i]) == Ok(frames)
    {
      var (kr, en) := SidoMap[i];
      var res := CityHourlySeries(directory(kr), fetch, en, pollutant, nHours, MaxStations, parsers);
      assert res == outcomes[i];
      GatherStep(outcomes, i, frames);
      if res.Failed? {
        return Failed;
      }
      frames := frames + [res.value];
    }
    assert outcomes[..|SidoMap|] == outcomes;
    r := Ok(Concat(frames));
  }

  /** The labels of `SidoMap` are distinct. */
  lemma DistinctLabels()
    ensures forall i, j :: 0 <= i < j < |SidoMap| ==> SidoMap[i].1 != SidoMap[j].1
  {
    assert SidoMap[0].1 == "Seoul" && SidoMap[1].1 == "Incheon" && SidoMap[2].1 == "Daejeon" && SidoMap[3].1 == "Busan";
  }

  /** Every row of a city's table carries that city's label. */
  lemma LabelledTables(directory: string -> Outcome<seq<Item>>, fetch: string -> Outcome<seq<Item>>, nHours: int, pollutant: string, parsers: Parsers)
    ensures var outcomes := CityOutcomes(directory, fetch, nHours, pollutant, parsers);
      forall j, r :: 0 <= j < |SidoMap| && outcomes[j].Ok? && r in outcomes[j].value ==> r.city == SidoMap[j].1
  {
    var outcomes := CityOutcomes(directory, fetch, nHours, pollutant, parsers);
    forall j, r | 0 <= j < |SidoMap| && outcomes[j].Ok? && r in outcomes[j].value ensures r.city == SidoMap[j].1 {
      var o := CityHourlySeriesSpec(directory(SidoMap[j].0), fetch, SidoMap[j].1, pollutant, nHours, MaxStations, parsers);
      assert outcomes[j] == o;
      var m :| 0 <= m < |o.value| && o.value[m] == r;
    }
  }

  /** When the load succeeds, the combined table is the four cities' tables end to
      end, in the order Seoul, Incheon, Daejeon, Busan: a city with no rows adds nothing and
      removes nothing. */
  lemma LoadAllIsConcatenation(directory: string -> Outcome<seq<Item>>, fetch: string -> Outcome<seq<Item>>, nHours: int, pollutant: string, parsers: Parsers)
    requires LoadAllSpec(directory, fetch, nHours, pollutant, parsers).Ok?
    ensures LoadAllSpec(directory, fetch, nHours, pollutant, parsers) == Ok(
      CityOutcomes(directory, fetch, nHours, pollutant, parsers)[0].value +
      CityOutcomes(directory, fetch, nHours, pollutant, parsers)[1].value +
      CityOutcomes(directory, fetch, nHours, pollutant, parsers)[2].value +
      CityOutcomes(directory, fetch, nHours, pollutant, parsers)[3].value)
    ensures |LoadAllSpec(directory, fetch, nHours, pollutant, parsers).value| ==
      |CityOutcomes(directory, fetch, nHours, pollutant, parsers)[0].value| +
      |CityOutcomes(directory, fetch, nHours, pollutant, parsers)[1].value| +
      |CityOutcomes(directory, fetch, nHours, pollutant, parsers)[2].value| +
      |CityOutcomes(directory, fetch, nHours, pollutant, parsers)[3].value|
  {
    var outcomes := CityOutcomes(directory, fetch, nHours, pollutant, parsers);
    assert forall k :: 0 <= k < |outcomes| ==> outcomes[k].Ok?;
    ConcatOfFour(Gather(outcomes).value);
  }

  lemma ConcatOfFour<T(!new)>(frames: seq<seq<T>>)
    requires |frames| == 4
    ensures Concat(frames) == frames[0] + frames[1] + frames[2] + frames[3]
  {
    var f3 := frames[..3];
    var f2 := f3[..2];
    var f1 := f2[..1];
    assert f1[..0] == [];
    assert Concat(f1) == frames[0];
    assert Concat(f2) == frames[0] + frames[1];
    assert Concat(f3) == frames[0] + frames[1] + frames[2];
  }
}
