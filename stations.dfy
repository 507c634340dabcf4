/** The station directory of a province (`list_stations`) and the stations the city
    aggregator samples from it. */
module Stations {
  import opened Records
  import opened Ordering

  const StationNameKey := "stationName"

  /** The stationName of every item that has one, in item order. */
  function Names(items: seq<Item>): (names: seq<string>)
    ensures |names| <= |items|
    ensures forall n :: n in names <==> Named(items, n)
  {
    if |items| == 0 then []
    else
      var prev := Names(items[..|items| - 1]);
      assert forall n :: Named(items, n) <==> Named(items[..|items| - 1], n) || Field(items[|items| - 1], StationNameKey) == Some(n) by {
        forall n ensures Named(items, n) ==> Named(items[..|items| - 1], n) || Field(items[|items| - 1], StationNameKey) == Some(n) {
          if Named(items, n) {
            var i :| 0 <= i < |items| && Field(items[i], StationNameKey) == Some(n);
            if i < |items| - 1 {
              assert items[..|items| - 1][i] == items[i];
            }
          }
        }
      }
      match Field(items[|items| - 1], StationNameKey)
      case Some(n) => prev + [n]
      case None => prev
  }

  /** Some item of `items` carries the station name `n`. */
  ghost predicate Named(items: seq<Item>, n: string) {
    exists i :: 0 <= i < |items| && Field(items[i], StationNameKey) == Some(n)
  }

  /** Every item carries a station name; otherwise `it["stationName"]` raises. */
  predicate AllNamed(items: seq<Item>) {
    forall i :: 0 <= i < |items| ==> Field(items[i], StationNameKey).Some?
  }

  /** `list_stations`: the distinct station names of the directory response, sorted.
      A failed request, or an item without a name, raises. */
  function ListStations(response: Outcome<seq<Item>>): (r: Outcome<seq<string>>)
    ensures r.Ok? <==> response.Ok? && AllNamed(response.value)
    ensures r.Ok? ==> StrictlyIncreasing(r.value, StringLess)
    ensures r.Ok? ==> forall n :: n in r.value <==> Named(response.value, n)
  {
    match response
    case Failed => Failed
    case Ok(items) =>
      if AllNamed(items) then
        StringOrder();
        Ok(SortedSet(Names(items), StringLess))
      else Failed
  }

  /** The directory is exactly `sorted(set(names))`: any sorted, repetition-free list of the
      item names is the one `ListStations` returns. */
  lemma ListStationsCanonical(items: seq<Item>, stations: seq<string>)
    requires AllNamed(items)
    requires StrictlyIncreasing(stations, StringLess)
    requires forall n :: n in stations <==> Named(items, n)
    ensures ListStations(Ok(items)) == Ok(stations)
  {
    StringOrder();
    IncreasingUnique(ListStations(Ok(items)).value, stations, StringLess);
  }

  /** `stations[:max_stations]`: the stations the city aggregator consults. */
  function Sample(stations: seq<string>, maxStations: nat): (taken: seq<string>)
    ensures |taken| == if maxStations < |stations| then maxStations else |stations|
    ensures taken <= stations
  {
    if maxStations < |stations| then stations[..maxStations] else stations
  }

  /** Since the directory is sorted, the sample is its alphabetically first stations: every
      station taken sorts before every station left out. */
  lemma SampleIsAlphabeticallyFirst(stations: seq<string>, maxStations: nat)
    requires StrictlyIncreasing(stations, StringLess)
    ensures forall x, y :: x in Sample(stations, maxStations) && y in stations && y !in Sample(stations, maxStations) ==> StringLess(x, y)
  {
    var taken := Sample(stations, maxStations);
    PrefixHoldsSmallest(stations, |taken|, StringLess);
    assert stations == taken + stations[|taken|..];
    forall y | y in stations && y !in taken ensures y in stations[|taken|..] {
    }
  }
}
