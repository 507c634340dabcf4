/** The values that flow through the pipeline: API items, station readings and city rows. */
module Records {

  datatype Option<T> = None | Some(value: T)

  /** The outcome of a call that may raise: `Failed` stands for an exception escaping it
      (a transport error, an HTTP error status, a missing key). */
  datatype Outcome<T> = Ok(value: T) | Failed

  /** One record of a response's `items` list: its JSON fields, each given as its text,
      or `None` for a JSON null. */
  datatype Item = Item(fields: map<string, Option<string>>)

  /** The value of a field, `None` when the item lacks it or holds null. */
  function Field(item: Item, key: string): Option<string> {
    if key in item.fields then item.fields[key] else None
  }

  /** A cleaned row of one station's table: columns datetime, the pollutant, station.
      `time` counts hours since an epoch; `value` is exact. */
  datatype Reading = Reading(time: int, value: real, station: string)

  /** A row of a city's hourly series: columns datetime, the pollutant, city. */
  datatype CityRow = CityRow(time: int, value: real, city: string)

  /** The text parsers that the pipeline applies with errors coerced to missing: a timestamp
      to hours since an epoch, a number to its value; `None` where the text does not parse. */
  datatype Parsers = Parsers(time: string -> Option<int>, number: string -> Option<real>)

  /** Row-wise concatenation of tables, as `pd.concat(frames, ignore_index=True)`. */
  function Concat<T(!new)>(frames: seq<seq<T>>): (rows: seq<T>)
    ensures |rows| == TotalLength(frames)
    ensures forall x :: x in rows <==> exists k :: 0 <= k < |frames| && x in frames[k]
  {
    if |frames| == 0 then []
    else
      var prev := Concat(frames[..|frames| - 1]);
      var last := frames[|frames| - 1];
      assert forall x :: x in prev + last <==> x in prev || x in last;
      assert forall k :: 0 <= k < |frames| - 1 ==> frames[..|frames| - 1][k] == frames[k];
      prev + last
  }

  /** The sum of the lengths of the tables. */
  function TotalLength<T>(frames: seq<seq<T>>): nat {
    if |frames| == 0 then 0 else TotalLength(frames[..|frames| - 1]) + |frames[|frames| - 1]|
  }

  /** One more table is stacked below the rows so far, in order and with its repetitions. */
  lemma {:induction false} ConcatSnoc<T(!new)>(frames: seq<seq<T>>, t: seq<T>)
    ensures Concat(frames + [t]) == Concat(frames) + t
  {
    assert (frames + [t])[..|frames + [t]| - 1] == frames;
  }

  lemma {:induction false} ConcatAppend<T(!new)>(a: seq<seq<T>>, b: seq<seq<T>>)
    ensures Concat(a + b) == Concat(a) + Concat(b)
  {
    if |b| == 0 {
      assert a + b == a;
    } else {
      assert (a + b)[..|a + b| - 1] == a + b[..|b| - 1];
      ConcatAppend(a, b[..|b| - 1]);
    }
  }
}
