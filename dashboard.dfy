/** What the dashboard does with the combined table before drawing it: keep the selected
    cities, take the snapshot at the latest timestamp, and group it by city. */
module Dashboard {
  import opened Records
  import opened Stations
  import opened CityAggregate
  import opened MultiCity

  /** The rows for which `keep` holds, in order: a boolean mask applied to a table. */
  function Where(rows: seq<CityRow>, keep: CityRow -> bool): (sel: seq<CityRow>)
    ensures |sel| <= |rows|
    ensures forall r :: r in sel <==> r in rows && keep(r)
  {
    if |rows| == 0 then []
    else
      var last := rows[|rows| - 1];
      assert forall r :: r in rows <==> r in rows[..|rows| - 1] || r == last;
      if keep(last) then Where(rows[..|rows| - 1], keep) + [last] else Where(rows[..|rows| - 1], keep)
  }

  lemma {:induction false} WhereAppend(a: seq<CityRow>, b: seq<CityRow>, keep: CityRow -> bool)
    ensures Where(a + b, keep) == Where(a, keep) + Where(b, keep)
  {
    if |b| == 0 {
      assert a + b == a;
    } else {
      assert (a + b)[..|a + b| - 1] == a + b[..|b| - 1];
      WhereAppend(a, b[..|b| - 1], keep);
    }
  }

  lemma {:induction false} WhereAll(rows: seq<CityRow>, keep: CityRow -> bool)
    requires forall r :: r in rows ==> keep(r)
    ensures Where(rows, keep) == rows
  {
    if |rows| != 0 {
      WhereAll(rows[..|rows| - 1], keep);
    }
  }

  lemma {:induction false} WhereNone(rows: seq<CityRow>, keep: CityRow -> bool)
    requires forall r :: r in rows ==> !keep(r)
    ensures Where(rows, keep) == []
  {
    if |rows| != 0 {
      WhereNone(rows[..|rows| - 1], keep);
    }
  }

  /** The mask `ts["city"].isin(selected)`. */
  function InCities(selected: seq<string>): CityRow -> bool {
    (r: CityRow) => r.city in selected
  }

  /** `ts[ts["city"].isin(selected)]`. */
  function SelectCities(rows: seq<CityRow>, selected: seq<string>): (sel: seq<CityRow>)
    ensures forall r :: r in sel <==> r in rows && r.city in selected
  {
    Where(rows, InCities(selected))
  }

  /** Selecting one city of the combined table gives back exactly that city's own table:
      every row carries its city's label and the labels are distinct. */
  lemma SelectingOneCity(directory: string -> Outcome<seq<Item>>, fetch: string -> Outcome<seq<Item>>, nHours: int, pollutant: string, parsers: Parsers, k: nat)
    requires k < |SidoMap|
    requires LoadAllSpec(directory, fetch, nHours, pollutant, parsers).Ok?
    ensures SelectCities(LoadAllSpec(directory, fetch, nHours, pollutant, parsers).value, [SidoMap[k].1]) ==
      CityOutcomes(directory, fetch, nHours, pollutant, parsers)[k].value
  {
    var outcomes := CityOutcomes(directory, fetch, nHours, pollutant, parsers);
    LoadAllIsConcatenation(directory, fetch, nHours, pollutant, parsers);
    LabelledTables(directory, fetch, nHours, pollutant, parsers);
    DistinctLabels();
    SelectOneTable(outcomes, SidoMap, k);
  }

  /** Of four tables, each labelled with its own province's label and the labels distinct,
      selecting one label picks out exactly that province's table from their concatenation. */
  lemma SelectOneTable(outcomes: seq<Outcome<seq<CityRow>>>, provinces: seq<(string, string)>, k: nat)
    requires |outcomes| == 4 && |provinces| == 4 && k < 4
    requires forall j :: 0 <= j < |outcomes| ==> outcomes[j].Ok?
    requires forall i, j :: 0 <= i < j < |provinces| ==> provinces[i].1 != provinces[j].1
    requires forall j, r :: 0 <= j < |provinces| && outcomes[j].Ok? && r in outcomes[j].value ==> r.city == provinces[j].1
    ensures SelectCities(outcomes[0].value + outcomes[1].value + outcomes[2].value + outcomes[3].value, [provinces[k].1]) == outcomes[k].value
  {
    var t := [outcomes[0].value, outcomes[1].value, outcomes[2].value, outcomes[3].value];
    var labels := [provinces[0].1, provinces[1].1, provinces[2].1, provinces[3].1];
    forall j, r: CityRow | 0 <= j < 4 && r in t[j] ensures r.city == labels[j] {
      assert t[j] == outcomes[j].value && labels[j] == provinces[j].1;
    }
    SelectOneOfFour(t, labels, k);
  }

  lemma SelectOneOfFour(t: seq<seq<CityRow>>, labels: seq<string>, k: nat)
    requires |t| == 4 && |labels| == 4 && k < 4
    requires forall i, j :: 0 <= i < j < 4 ==> labels[i] != labels[j]
    requires forall j, r :: 0 <= j < 4 && r in t[j] ==> r.city == labels[j]
    ensures SelectCities(t[0] + t[1] + t[2] + t[3], [labels[k]]) == t[k]
  {
    var keep := InCities([labels[k]]);
    var w0, w1, w2, w3 := Where(t[0], keep), Where(t[1], keep), Where(t[2], keep), Where(t[3], keep);
    WhereAppend(t[0] + t[1] + t[2], t[3], keep);
    WhereAppend(t[0] + t[1], t[2], keep);
    WhereAppend(t[0], t[1], keep);
    assert Where(t[0] + t[1] + t[2] + t[3], keep) == w0 + w1 + w2 + w3;
    KeepsOrDrops(t[0], labels[0], labels[k]);
    KeepsOrDrops(t[1], labels[1], labels[k]);
    KeepsOrDrops(t[2], labels[2], labels[k]);
    KeepsOrDrops(t[3], labels[3], labels[k]);
    if k == 0 {
      assert w1 == [] && w2 == [] && w3 == [];
    } else if k == 1 {
      assert w0 == [] && w2 == [] && w3 == [];
    } else if k == 2 {
      assert w0 == [] && w1 == [] && w3 == [];
    } else {
      assert w0 == [] && w1 == [] && w2 == [];
    }
  }

  /** Selecting one city from a table all labelled with one city keeps the table whole
      when it is that city and empties it otherwise. */
  lemma KeepsOrDrops(t: seq<CityRow>, city: string, selected: string)
    requires forall r :: r in t ==> r.city == city
    ensures Where(t, InCities([selected])) == if city == selected then t else []
  {
    if city == selected {
      WhereAll(t, InCities([selected]));
    } else {
      WhereNone(t, InCities([selected]));
    }
  }

  /** No city has two rows for one timestamp. */
  ghost predicate OneRowPerCityHour(rows: seq<CityRow>) {
    forall i, j :: 0 <= i < j < |rows| && rows[i].city == rows[j].city ==> rows[i].time != rows[j].time
  }

  /** Filtering a table never creates a second row for a city and an hour. */
  lemma {:induction false} WhereKeepsOneRowPerCityHour(rows: seq<CityRow>, keep: CityRow -> bool)
    requires OneRowPerCityHour(rows)
    ensures OneRowPerCityHour(Where(rows, keep))
  {
    if |rows| != 0 {
      var init := rows[..|rows| - 1];
      var last := rows[|rows| - 1];
      assert OneRowPerCityHour(init);
      WhereKeepsOneRowPerCityHour(init, keep);
      var prev := Where(init, keep);
      assert forall r :: r in init && r.city == last.city ==> r.time != last.time by {
        forall r | r in init && r.city == last.city ensures r.time != last.time {
          var i :| 0 <= i < |init| && init[i] == r;
          assert rows[i] == r;
        }
      }
      if keep(last) {
        var sel := prev + [last];
        forall i, j | 0 <= i < j < |sel| && sel[i].city == sel[j].city ensures sel[i].time != sel[j].time {
          if j == |sel| - 1 {
            assert sel[i] in prev;
          } else {
            assert sel[i] == prev[i] && sel[j] == prev[j];
          }
        }
      }
    }
  }

  /** The combined table has at most one row per city and hour: each city's table has
      strictly increasing timestamps, and each city's rows carry its own label. */
  lemma LoadAllOneRowPerCityHour(directory: string -> Outcome<seq<Item>>, fetch: string -> Outcome<seq<Item>>, nHours: int, pollutant: string, parsers: Parsers)
    requires LoadAllSpec(directory, fetch, nHours, pollutant, parsers).Ok?
    ensures OneRowPerCityHour(LoadAllSpec(directory, fetch, nHours, pollutant, parsers).value)
  {
    var outcomes := CityOutcomes(directory, fetch, nHours, pollutant, parsers);
    var rows := LoadAllSpec(directory, fetch, nHours, pollutant, parsers).value;
    forall i, j | 0 <= i < j < |rows| && rows[i].city == rows[j].city ensures rows[i].time != rows[j].time {
      var ci := SelectingOneCityIndex(directory, fetch, nHours, pollutant, parsers, rows[i]);
      SelectingOneCity(directory, fetch, nHours, pollutant, parsers, ci);
      var a, b := OrderKept(rows, InCities([SidoMap[ci].1]), i, j);
    }
  }

  /** The province whose label a row of the combined table carries. */
  lemma SelectingOneCityIndex(directory: string -> Outcome<seq<Item>>, fetch: string -> Outcome<seq<Item>>, nHours: int, pollutant: string, parsers: Parsers, row: CityRow) returns (k: nat)
    requires LoadAllSpec(directory, fetch, nHours, pollutant, parsers).Ok?
    requires row in LoadAllSpec(directory, fetch, nHours, pollutant, parsers).value
    ensures k < |SidoMap| && row.city == SidoMap[k].1
  {
    var outcomes := CityOutcomes(directory, fetch, nHours, pollutant, parsers);
    LoadAllIsConcatenation(directory, fetch, nHours, pollutant, parsers);
    assert outcomes[0].Ok? && outcomes[1].Ok? && outcomes[2].Ok? && outcomes[3].Ok?;
    if row in outcomes[0].value {
      k := 0;
    } else if row in outcomes[1].value {
      k := 1;
    } else if row in outcomes[2].value {
      k := 2;
    } else {
      k := 3;
    }
  }

  /** Two rows of a table that a filter keeps appear in the result in their original order. */
  lemma {:induction false} OrderKept(rows: seq<CityRow>, keep: CityRow -> bool, i: nat, j: nat) returns (a: nat, b: nat)
    requires i < j < |rows| && keep(rows[i]) && keep(rows[j])
    ensures a < b < |Where(rows, keep)| && Where(rows, keep)[a] == rows[i] && Where(rows, keep)[b] == rows[j]
  {
    var front, back := rows[..j], rows[j..];
    assert rows == front + back;
    WhereAppend(front, back, keep);
    var sf := Where(front, keep);
    assert rows[i] in front;
    a :| a < |sf| && sf[a] == rows[i];
    assert back == [rows[j]] + back[1..];
    WhereAppend([rows[j]], back[1..], keep);
    assert Where([rows[j]], keep) == [rows[j]] by {
      assert [rows[j]][..0] == [];
    }
    b := |sf|;
  }

  /** `ts_sel["datetime"].max()` of a non-empty table. */
  function LatestTime(rows: seq<CityRow>): (m: int)
    requires |rows| > 0
    ensures forall r :: r in rows ==> r.time <= m
    ensures exists r :: r in rows && r.time == m
  {
    if |rows| == 1 then rows[0].time
    else
      var prev := LatestTime(rows[..|rows| - 1]);
      var last := rows[|rows| - 1];
      assert forall r :: r in rows <==> r in rows[..|rows| - 1] || r == last;
      if last.time > prev then last.time else prev
  }

  /** `ts_sel[ts_sel["datetime"] == latest_t]`: the rows at the latest timestamp. An empty
      table has no latest timestamp (NaT) and gives an empty snapshot. */
  function LatestSnapshot(rows: seq<CityRow>): (snap: seq<CityRow>)
    ensures forall r :: r in snap <==> r in rows && forall s :: s in rows ==> s.time <= r.time
    ensures |snap| > 0 <==> |rows| > 0
  {
    if |rows| == 0 then []
    else
      var latest := LatestTime(rows);
      var snap := Where(rows, (r: CityRow) => r.time == latest);
      assert exists r :: r in snap;
      snap
  }

  /** In a table with one row per city and hour, the snapshot has at most one row per city. */
  lemma SnapshotOneRowPerCity(rows: seq<CityRow>)
    requires OneRowPerCityHour(rows)
    ensures var snap := LatestSnapshot(rows);
      forall i, j :: 0 <= i < j < |snap| ==> snap[i].city != snap[j].city
  {
    if |rows| != 0 {
      var latest := LatestTime(rows);
      WhereKeepsOneRowPerCityHour(rows, (r: CityRow) => r.time == latest);
      var snap := LatestSnapshot(rows);
      assert forall i :: 0 <= i < |snap| ==> snap[i] in snap;
    }
  }

  /** The dashboard's snapshot of the selected cities holds at most one row per city. */
  lemma DashboardSnapshotOneRowPerCity(directory: string -> Outcome<seq<Item>>, fetch: string -> Outcome<seq<Item>>, nHours: int, pollutant: string, parsers: Parsers, selected: seq<string>)
    requires LoadAllSpec(directory, fetch, nHours, pollutant, parsers).Ok?
    ensures var snap := LatestSnapshot(SelectCities(LoadAllSpec(directory, fetch, nHours, pollutant, parsers).value, selected));
      forall i, j :: 0 <= i < j < |snap| ==> snap[i].city != snap[j].city
  {
    var ts := LoadAllSpec(directory, fetch, nHours, pollutant, parsers).value;
    LoadAllOneRowPerCityHour(directory, fetch, nHours, pollutant, parsers);
    WhereKeepsOneRowPerCityHour(ts, InCities(selected));
    SnapshotOneRowPerCity(SelectCities(ts, selected));
  }

  /** The values of one city's rows: its group in `snap.groupby("city")`. */
  function CityValues(rows: seq<CityRow>, city: string): (vs: seq<real>)
    ensures |vs| <= |rows|
    ensures vs == [] <==> forall r :: r in rows ==> r.city != city
    ensures forall v :: v in vs <==> exists r :: r in rows && r.city == city && r.value == v
  {
    if |rows| == 0 then []
    else
      var last := rows[|rows| - 1];
      assert forall r :: r in rows <==> r in rows[..|rows| - 1] || r == last;
      if last.city == city then CityValues(rows[..|rows| - 1], city) + [last.value]
      else CityValues(rows[..|rows| - 1], city)
  }

  /** When no city has two rows, a city's group is its one row's value, so the summary's
      per-city mean (and max) is that row's value. */
  lemma {:induction false} SummaryIsTheCityRow(rows: seq<CityRow>, r: CityRow)
    requires forall i, j :: 0 <= i < j < |rows| ==> rows[i].city != rows[j].city
    requires r in rows
    ensures CityValues(rows, r.city) == [r.value]
    ensures Mean(CityValues(rows, r.city)) == r.value
  {
    var init, last := rows[..|rows| - 1], rows[|rows| - 1];
    assert rows == init + [last];
    if last == r {
      assert forall s :: s in init ==> s.city != r.city by {
        forall s | s in init ensures s.city != r.city {
          var i :| 0 <= i < |init| && init[i] == s;
          assert rows[i] == s;
        }
      }
      assert CityValues(init, r.city) == [];
      assert CityValues(rows, r.city) == CityValues(init, r.city) + [r.value];
    } else {
      assert r in init;
      var k :| 0 <= k < |init| && init[k] == r;
      assert rows[k] == r && k < |rows| - 1;
      assert last.city != r.city;
      assert forall i, j :: 0 <= i < j < |init| ==> init[i].city != init[j].city by {
        forall i, j | 0 <= i < j < |init| ensures init[i].city != init[j].city {
          assert init[i] == rows[i] && init[j] == rows[j];
        }
      }
      SummaryIsTheCityRow(init, r);
      assert CityValues(rows, r.city) == CityValues(init, r.city);
    }
    MeanOfOne(r.value);
  }

  lemma MeanOfOne(v: real)
    ensures Mean([v]) == v
  {
    assert Sum([v]) == Sum([v][..0]) + v;
  }
}
