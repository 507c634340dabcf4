/** One station's recent readings (`station_recent_hours`): the items of its response turned
    into a table of (datetime, value, station) rows, dropping rows that do not parse. */
module StationSeries {
  import opened Records

  /** The field holding a reading's timestamp, renamed to `datetime`. */
  const TimeKey := "dataTime"

  /** The field holding a pollutant's reading, renamed to the pollutant's own name. */
  function ValueKey(target: string): string {
    target + "Value"
  }

  /** pandas builds a column for every key that at least one item has; selecting a column
      that no item has raises. */
  predicate HasColumn(items: seq<Item>, key: string) {
    exists i :: 0 <= i < |items| && key in items[i].fields
  }

  /** `r` is the cleaned row of `item`: both its timestamp and its reading are present and
      parse, to `r.time` and `r.value`, and the row is tagged with the station. */
  ghost predicate RowOf(item: Item, r: Reading, station: string, target: string, parsers: Parsers) {
    && r.station == station
    && (exists ts :: Field(item, TimeKey) == Some(ts) && parsers.time(ts) == Some(r.time))
    && (exists vs :: Field(item, ValueKey(target)) == Some(vs) && parsers.number(vs) == Some(r.value))
  }

  /** Coerce the item's timestamp and value; `None` when either is missing afterwards,
      so that `dropna` removes the row. */
  function ParseRow(item: Item, station: string, target: string, parsers: Parsers): (row: Option<Reading>)
    ensures forall r :: row == Some(r) <==> RowOf(item, r, station, target, parsers)
  {
    match (Field(item, TimeKey), Field(item, ValueKey(target)))
    case (Some(ts), Some(vs)) =>
      (match (parsers.time(ts), parsers.number(vs))
       case (Some(t), Some(v)) => Some(Reading(t, v, station))
       case _ => None)
    case _ => None
  }

  /** The rows that survive `dropna`, in item order, each tagged with the station. */
  function CleanRows(items: seq<Item>, station: string, target: string, parsers: Parsers): (rows: seq<Reading>)
    ensures |rows| <= |items|
    ensures forall r :: r in rows ==> r.station == station
    ensures forall r :: r in rows <==> exists i :: 0 <= i < |items| && RowOf(items[i], r, station, target, parsers)
  {
    if |items| == 0 then []
    else
      var init := items[..|items| - 1];
      var prev := CleanRows(init, station, target, parsers);
      assert forall i :: 0 <= i < |init| ==> init[i] == items[i];
      match ParseRow(items[|items| - 1], station, target, parsers)
      case Some(r) => prev + [r]
      case None => prev
  }

  /** Cleaning keeps the order of the items: the rows of `a + b` are the rows of `a`
      followed by the rows of `b`. */
  lemma {:induction false} CleanRowsAppend(a: seq<Item>, b: seq<Item>, station: string, target: string, parsers: Parsers)
    ensures CleanRows(a + b, station, target, parsers) == CleanRows(a, station, target, parsers) + CleanRows(b, station, target, parsers)
  {
    if |b| == 0 {
      assert a + b == a;
    } else {
      assert (a + b)[..|a + b| - 1] == a + b[..|b| - 1];
      CleanRowsAppend(a, b[..|b| - 1], station, target, parsers);
    }
  }

  /** No row that parses is dropped: when every item parses, each item gives exactly its row,
      in place. */
  lemma {:induction false} CleanRowsKeepsParsed(items: seq<Item>, station: string, target: string, parsers: Parsers)
    requires forall i :: 0 <= i < |items| ==> ParseRow(items[i], station, target, parsers).Some?
    ensures |CleanRows(items, station, target, parsers)| == |items|
    ensures forall i :: 0 <= i < |items| ==> RowOf(items[i], CleanRows(items, station, target, parsers)[i], station, target, parsers)
  {
    if |items| != 0 {
      var init, last := items[..|items| - 1], items[|items| - 1];
      CleanRowsKeepsParsed(init, station, target, parsers);
      var prev := CleanRows(init, station, target, parsers);
      var row := ParseRow(last, station, target, parsers).value;
      var rows := CleanRows(items, station, target, parsers);
      assert rows == prev + [row];
      assert RowOf(last, row, station, target, parsers);
      forall i | 0 <= i < |items| ensures RowOf(items[i], rows[i], station, target, parsers) {
        if i < |init| {
          assert items[i] == init[i] && rows[i] == prev[i];
        }
      }
    }
  }

  /** A station's table as the aggregator receives it. `Untyped` is the empty table built
      from the column names alone, returned for an empty item list: its columns have no
      element type, so its `datetime` column holds no timestamps. `Typed(rows)` is the
      cleaned table, whose `datetime` column has the timestamp type even when no row is left. */
  datatype Frame = Untyped | Typed(rows: seq<Reading>)

  /** The rows of a frame; the untyped frame has none. */
  function Rows(frame: Frame): seq<Reading> {
    match frame
    case Untyped => []
    case Typed(rows) => rows
  }

  /** `station_recent_hours` on the station's response. A failed request raises; an empty
      item list gives the untyped empty table; a non-empty list lacking the timestamp or the
      pollutant column altogether raises; otherwise the cleaned rows, in item order. */
  function StationRecentHours(response: Outcome<seq<Item>>, station: string, target: string, parsers: Parsers): (r: Outcome<Frame>)
    ensures response.Failed? ==> r.Failed?
    ensures response == Ok([]) ==> r == Ok(Untyped)
    ensures response.Ok? && response.value != [] ==>
      (r.Ok? <==> HasColumn(response.value, TimeKey) && HasColumn(response.value, ValueKey(target)))
    ensures response.Ok? && response.value != [] && r.Ok? ==> r.value == Typed(CleanRows(response.value, station, target, parsers))
    ensures r.Ok? ==> |Rows(r.value)| <= |response.value|
    ensures r.Ok? ==> forall row :: row in Rows(r.value) ==>
      exists i :: 0 <= i < |response.value| && RowOf(response.value[i], row, station, target, parsers)
  {
    match response
    case Failed => Failed
    case Ok(items) =>
      if |items| == 0 then Ok(Untyped)
      else if !HasColumn(items, TimeKey) || !HasColumn(items, ValueKey(target)) then Failed
      else Ok(Typed(CleanRows(items, station, target, parsers)))
  }
}
