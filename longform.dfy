/**
 * The long-form table the loaders build (one row per (date, City)) and the
 * steps that build it from the daily wide tables: melting, dropping rows
 * without a temperature, and the left joins of the other parameters and of the
 * city attributes.
 */
module LongForm {
  import opened Wrappers
  import opened Calendar
  import opened Tables

  /** One row of the long table. Absent cells and unmatched joins are `None`. */
  datatype Record = Record(
    date: Date, city: City, avgTemperature: real,
    humidity: Option<real>, pressure: Option<real>, windSpeed: Option<real>,
    windDirection: Option<real>, weatherDesc: Option<string>,
    country: Option<string>, latitude: Option<real>, longitude: Option<real>)

  /** The columns of a long table besides date, City and AvgTemperature, which are always there. */
  datatype Column = Humidity | Pressure | WindSpeed | WindDirection | WeatherDesc | Country | Latitude | Longitude

  const ParameterColumns: set<Column> := {Humidity, Pressure, WindSpeed, WindDirection, WeatherDesc}
  const AttributeColumns: set<Column> := {Country, Latitude, Longitude}

  datatype LongTable = LongTable(columns: set<Column>, rows: seq<Record>)

  /** One row of a city attributes file. */
  datatype CityAttributes = CityAttributes(city: City, country: Option<string>, latitude: Option<real>, longitude: Option<real>)

  /** The six daily tables of one source (or of the merged sources). */
  datatype DailySet = DailySet(
    temperature: Daily<real>, humidity: Daily<real>, pressure: Daily<real>,
    windSpeed: Daily<real>, windDirection: Daily<real>, weatherDesc: Daily<string>)
  {
    predicate Valid() {
      IsDaily(temperature) && IsDaily(humidity) && IsDaily(pressure) &&
      IsDaily(windSpeed) && IsDaily(windDirection) && IsDaily(weatherDesc)
    }
  }

  function Keys(rows: seq<Record>): (r: seq<(Date, City)>)
    ensures |r| == |rows| && forall i :: 0 <= i < |rows| ==> r[i] == (rows[i].date, rows[i].city)
  {
    seq(|rows|, i requires 0 <= i < |rows| => (rows[i].date, rows[i].city))
  }

  /** No two rows share a (date, City) pair. */
  predicate UniqueKeys(rows: seq<Record>) {
    Distinct(Keys(rows))
  }

  // ---------------------------------------------------------------- left join

  function Filter<R>(s: seq<R>, p: R -> bool): (r: seq<R>)
    ensures |r| <= |s|
    ensures forall k :: 0 <= k < |r| ==> r[k] in s && p(r[k])
    ensures forall i :: 0 <= i < |s| && p(s[i]) ==> s[i] in r
    ensures r == [] <==> forall i :: 0 <= i < |s| ==> !p(s[i])
  {
    if s == [] then [] else (if p(s[0]) then [s[0]] else []) + Filter(s[1..], p)
  }

  /** The positions of the elements of `s` satisfying `p`, in increasing order. */
  function Matching<R>(s: seq<R>, p: R -> bool): (ix: seq<int>)
    ensures forall k :: 0 <= k < |ix| ==> 0 <= ix[k] < |s| && p(s[ix[k]])
    ensures forall k, l :: 0 <= k < l < |ix| ==> ix[k] < ix[l]
    ensures forall i :: 0 <= i < |s| && p(s[i]) ==> i in ix
  {
    if s == [] then []
    else
      var n := |s| - 1;
      var init := Matching(s[..n], p);
      assert forall i :: 0 <= i < n ==> s[..n][i] == s[i];
      if p(s[n]) then init + [n] else init
  }

  /** Selection distributes over appending one element. */
  lemma {:induction false} FilterSnoc<R>(s: seq<R>, x: R, p: R -> bool)
    ensures Filter(s + [x], p) == Filter(s, p) + (if p(x) then [x] else [])
  {
    if s != [] {
      assert (s + [x])[1..] == s[1..] + [x];
      FilterSnoc(s[1..], x, p);
    }
  }

  /**
   * Boolean selection keeps exactly the elements at the matching positions,
   * in the order of those positions: no element is dropped, repeated or moved.
   */
  lemma {:induction false} FilterInOrder<R>(s: seq<R>, p: R -> bool)
    ensures |Filter(s, p)| == |Matching(s, p)|
    ensures forall k :: 0 <= k < |Filter(s, p)| ==> Filter(s, p)[k] == s[Matching(s, p)[k]]
  {
    if s != [] {
      var n := |s| - 1;
      assert s == s[..n] + [s[n]];
      FilterSnoc(s[..n], s[n], p);
      FilterInOrder(s[..n], p);
      assert forall i :: 0 <= i < n ==> s[..n][i] == s[i];
    }
  }

  /** The last of the increasing, complete positions of `p` is the last position where `p` holds. */
  lemma LastMatching<R>(s: seq<R>, p: R -> bool, ix: seq<int>)
    requires ix != []
    requires forall k :: 0 <= k < |ix| ==> 0 <= ix[k] < |s| && p(s[ix[k]])
    requires forall k, l :: 0 <= k < l < |ix| ==> ix[k] < ix[l]
    requires forall i :: 0 <= i < |s| && p(s[i]) ==> i in ix
    ensures forall j :: ix[|ix| - 1] < j < |s| ==> !p(s[j])
  {
    assert forall k :: 0 <= k < |ix| ==> ix[k] <= ix[|ix| - 1];
  }

  /** The last selected element is the last element of `s` satisfying `p`. */
  lemma FilterLast<R>(s: seq<R>, p: R -> bool)
    requires Filter(s, p) != []
    ensures exists i :: (0 <= i < |s| && s[i] == Filter(s, p)[|Filter(s, p)| - 1] && p(s[i]) &&
      forall j :: i < j < |s| ==> !p(s[j]))
  {
    var ix := Matching(s, p);
    FilterInOrder(s, p);
    LastMatching(s, p, ix);
    var i := ix[|ix| - 1];
    assert s[i] == Filter(s, p)[|Filter(s, p)| - 1];
  }

  /** Two positions that are both the last where `p` holds are the same. */
  lemma SameLastMatching<R>(s: seq<R>, p: R -> bool, i: int, l: int)
    requires 0 <= i < |s| && p(s[i]) && forall j :: i < j < |s| ==> !p(s[j])
    requires -1 <= l < |s| && (l >= 0 ==> p(s[l])) && forall j :: l < j < |s| ==> !p(s[j])
    ensures l == i
  {
  }

  /** Given the last position `l` where `p` holds (-1 for none), the selection ends with `s[l]`. */
  lemma FilterLastAt<R>(s: seq<R>, p: R -> bool, l: int)
    requires -1 <= l < |s| && (l >= 0 ==> p(s[l])) && forall j :: l < j < |s| ==> !p(s[j])
    ensures Filter(s, p) != [] <==> l >= 0
    ensures l >= 0 ==> s[l] == Filter(s, p)[|Filter(s, p)| - 1]
  {
    var r := Filter(s, p);
    if r != [] {
      FilterLast(s, p);
      var i :| 0 <= i < |s| && s[i] == r[|r| - 1] && p(s[i]) && forall j :: i < j < |s| ==> !p(s[j]);
      SameLastMatching(s, p, i, l);
    }
  }

  /** Each value occurs in the selection as often as in `s` when it satisfies `p`, and not at all otherwise. */
  lemma {:induction false} FilterMultiset<R>(s: seq<R>, p: R -> bool)
    ensures forall x :: multiset(Filter(s, p))[x] == if p(x) then multiset(s)[x] else 0
  {
    if s != [] {
      FilterMultiset(s[1..], p);
      assert s == [s[0]] + s[1..];
      assert multiset(s) == multiset{s[0]} + multiset(s[1..]);
      assert multiset(Filter(s, p)) == multiset(if p(s[0]) then [s[0]] else []) + multiset(Filter(s[1..], p));
    }
  }

  /** The first row of `right` that joins with `row`, if any. */
  function Match<R>(row: Record, right: seq<R>, on: (Record, R) -> bool): Option<R> {
    var m := Filter(right, x => on(row, x));
    if m == [] then None else Some(m[0])
  }

  predicate AtMostOneMatch<R>(row: Record, right: seq<R>, on: (Record, R) -> bool) {
    forall i, j :: 0 <= i < j < |right| ==> !(on(row, right[i]) && on(row, right[j]))
  }

  /** The rows `row` becomes in a left join: one per match, or one unmatched. */
  function JoinRow<R>(row: Record, right: seq<R>, on: (Record, R) -> bool,
                      attach: (Record, Option<R>) -> Record): (r: seq<Record>)
    ensures |r| >= 1
  {
    var m := Filter(right, x => on(row, x));
    if m == [] then [attach(row, None)]
    else seq(|m|, k requires 0 <= k < |m| => attach(row, Some(m[k])))
  }

  /** `left.merge(right, how="left")`: left rows in order, each followed by its matches in order. */
  function LeftJoin<R>(rows: seq<Record>, right: seq<R>, on: (Record, R) -> bool,
                       attach: (Record, Option<R>) -> Record): seq<Record>
  {
    if rows == [] then [] else JoinRow(rows[0], right, on, attach) + LeftJoin(rows[1..], right, on, attach)
  }

  lemma {:induction false} FilterAtMostOne<R>(s: seq<R>, p: R -> bool)
    requires forall i, j :: 0 <= i < j < |s| ==> !(p(s[i]) && p(s[j]))
    ensures |Filter(s, p)| <= 1
  {
    if s != [] {
      FilterAtMostOne(s[1..], p);
      if p(s[0]) {
        assert forall k :: 0 <= k < |s[1..]| ==> !p(s[1..][k]) by {
          forall k | 0 <= k < |s[1..]| ensures !p(s[1..][k]) {
            assert s[1..][k] == s[k + 1];
          }
        }
      }
    }
  }

  /** A left join never drops a row. */
  lemma {:induction false} LeftJoinKeepsRows<R>(rows: seq<Record>, right: seq<R>, on: (Record, R) -> bool,
                                              attach: (Record, Option<R>) -> Record)
    ensures |LeftJoin(rows, right, on, attach)| >= |rows|
  {
    if rows != [] {
      LeftJoinKeepsRows(rows[1..], right, on, attach);
    }
  }

  lemma JoinRowOne<R>(row: Record, right: seq<R>, on: (Record, R) -> bool,
                      attach: (Record, Option<R>) -> Record)
    requires AtMostOneMatch(row, right, on)
    ensures JoinRow(row, right, on, attach) == [attach(row, Match(row, right, on))]
  {
    FilterAtMostOne(right, x => on(row, x));
  }

  /**
   * When every left row has at most one match, a left join neither adds nor
   * drops rows: row `i` becomes row `i` with its match (or null) attached.
   */
  lemma {:induction false} LeftJoinOneToOne<R>(rows: seq<Record>, right: seq<R>, on: (Record, R) -> bool,
                                             attach: (Record, Option<R>) -> Record)
    requires forall i :: 0 <= i < |rows| ==> AtMostOneMatch(rows[i], right, on)
    ensures |LeftJoin(rows, right, on, attach)| == |rows|
    ensures forall i :: 0 <= i < |rows| ==>
      LeftJoin(rows, right, on, attach)[i] == attach(rows[i], Match(rows[i], right, on))
  {
    if rows != [] {
      var tail := rows[1..];
      assert forall i :: 0 <= i < |tail| ==> tail[i] == rows[i + 1];
      JoinRowOne(rows[0], right, on, attach);
      LeftJoinOneToOne(tail, right, on, attach);
      var rest := LeftJoin(tail, right, on, attach);
      var all := LeftJoin(rows, right, on, attach);
      assert all == [attach(rows[0], Match(rows[0], right, on))] + rest;
      forall i | 0 <= i < |rows| ensures all[i] == attach(rows[i], Match(rows[i], right, on)) {
        if i > 0 {
          assert all[i] == rest[i - 1];
        }
      }
    }
  }

  // ---------------------------------------------------------------- the joins of the pipeline

  predicate OnKey<V>(row: Record, x: Cell<V>) {
    x.date == row.date && x.city == row.city
  }

  function CellValue<V>(m: Option<Cell<V>>): Option<V> {
    if m.Some? then m.value.value else None
  }

  function SetHumidity(row: Record, m: Option<Cell<real>>): Record { row.(humidity := CellValue(m)) }
  function SetPressure(row: Record, m: Option<Cell<real>>): Record { row.(pressure := CellValue(m)) }
  function SetWindSpeed(row: Record, m: Option<Cell<real>>): Record { row.(windSpeed := CellValue(m)) }
  function SetWindDirection(row: Record, m: Option<Cell<real>>): Record { row.(windDirection := CellValue(m)) }
  function SetWeatherDesc(row: Record, m: Option<Cell<string>>): Record { row.(weatherDesc := CellValue(m)) }

  /** Joining a melted daily table on (date, City) looks the row's own key up in that table. */
  lemma MeltJoin<V>(t: Daily<V>, row: Record)
    requires IsDaily(t)
    ensures AtMostOneMatch(row, Melt(t), OnKey)
    ensures CellValue(Match(row, Melt(t), OnKey)) == At(t, row.city, row.date)
  {
    var cells := Melt(t);
    MeltSound(t);
    var m := Filter(cells, x => OnKey(row, x));
    if row.city in t.columns && row.date in t.keys {
      var j := IndexOf(t.keys, row.date);
      MeltComplete(t, row.city, j);
      assert m != [];
    }
    if m != [] {
      assert m[0] in cells;
    }
  }

  /** A long-table row made from a temperature cell, before any other column is joined. */
  function NewRecord(x: Cell<real>): Record
    requires x.value.Some?
  {
    Record(x.date, x.city, x.value.value, None, None, None, None, None, None, None, None)
  }

  /** `dropna(subset=["AvgTemperature"])` on the melted temperature table. */
  function TemperatureRecords(cells: seq<Cell<real>>): (r: seq<Record>)
    ensures |r| <= |cells|
    ensures forall i :: 0 <= i < |r| ==> OfCell(r[i]) in cells && r[i] == NewRecord(OfCell(r[i]))
  {
    if cells == [] then []
    else
      var rest := TemperatureRecords(cells[1..]);
      assert forall i :: 0 <= i < |rest| ==> OfCell(rest[i]) in cells;
      (if cells[0].value.Some? then [NewRecord(cells[0])] else []) + rest
  }

  /** The temperature cell a fresh row was made from. */
  function OfCell(r: Record): Cell<real> {
    Cell(r.date, r.city, Some(r.avgTemperature))
  }

  /** Every non-null temperature cell becomes a row. */
  lemma {:induction false} TemperatureRecordsComplete(cells: seq<Cell<real>>, k: nat)
    requires k < |cells| && cells[k].value.Some?
    ensures NewRecord(cells[k]) in TemperatureRecords(cells)
  {
    if k > 0 {
      assert cells[k] == cells[1..][k - 1];
      TemperatureRecordsComplete(cells[1..], k - 1);
    }
  }

  lemma UniqueCellsTail<V>(cells: seq<Cell<V>>)
    requires cells != [] && UniqueCells(cells)
    ensures UniqueCells(cells[1..])
    ensures forall k :: 0 <= k < |cells[1..]| ==> !SameKeyCells(cells[0], cells[1..][k])
  {
    forall i, j | 0 <= i < j < |cells[1..]| ensures !SameKeyCells(cells[1..][i], cells[1..][j]) {
      assert cells[1..][i] == cells[i + 1] && cells[1..][j] == cells[j + 1];
    }
    forall k | 0 <= k < |cells[1..]| ensures !SameKeyCells(cells[0], cells[1..][k]) {
      assert cells[1..][k] == cells[k + 1];
    }
  }

  lemma PrependUnique(r: Record, rest: seq<Record>)
    requires UniqueKeys(rest)
    requires forall i :: 0 <= i < |rest| ==> Keys(rest)[i] != (r.date, r.city)
    ensures UniqueKeys([r] + rest)
  {
    var all := [r] + rest;
    forall i, j | 0 <= i < j < |all| ensures Keys(all)[i] != Keys(all)[j] {
      assert Keys(all)[j] == Keys(rest)[j - 1];
      if i > 0 {
        assert Keys(all)[i] == Keys(rest)[i - 1];
      }
    }
  }

  /** Dropping null temperatures keeps the (date, City) keys unique. */
  lemma {:induction false} TemperatureRecordsUnique(cells: seq<Cell<real>>)
    requires UniqueCells(cells)
    ensures UniqueKeys(TemperatureRecords(cells))
  {
    if cells != [] {
      UniqueCellsTail(cells);
      TemperatureRecordsUnique(cells[1..]);
      var rest := TemperatureRecords(cells[1..]);
      if cells[0].value.Some? {
        forall i | 0 <= i < |rest| ensures Keys(rest)[i] != (cells[0].date, cells[0].city) {
          var k :| 0 <= k < |cells[1..]| && cells[1..][k] == OfCell(rest[i]);
          assert !SameKeyCells(cells[0], cells[1..][k]);
        }
        PrependUnique(NewRecord(cells[0]), rest);
      }
    }
  }

  /**
   * Lines `melt`, `dropna` and the five left merges on (date, City): the long
   * table without city attributes.
   */
  function Reshape(d: DailySet): seq<Record>
    requires d.Valid()
  {
    var rows := TemperatureRecords(Melt(d.temperature));
    var rows := LeftJoin(rows, Melt(d.humidity), OnKey, SetHumidity);
    var rows := LeftJoin(rows, Melt(d.pressure), OnKey, SetPressure);
    var rows := LeftJoin(rows, Melt(d.windSpeed), OnKey, SetWindSpeed);
    var rows := LeftJoin(rows, Melt(d.windDirection), OnKey, SetWindDirection);
    LeftJoin(rows, Melt(d.weatherDesc), OnKey, SetWeatherDesc)
  }

  /** A left join with a melted daily table attaches, to every row, that table's cell at the row's key. */
  lemma JoinTable<V>(rows: seq<Record>, t: Daily<V>, attach: (Record, Option<Cell<V>>) -> Record)
    requires IsDaily(t)
    ensures |LeftJoin(rows, Melt(t), OnKey, attach)| == |rows|
    ensures forall i :: 0 <= i < |rows| ==>
      LeftJoin(rows, Melt(t), OnKey, attach)[i] == attach(rows[i], Match(rows[i], Melt(t), OnKey)) &&
      CellValue(Match(rows[i], Melt(t), OnKey)) == At(t, rows[i].city, rows[i].date)
  {
    forall i | 0 <= i < |rows|
      ensures AtMostOneMatch(rows[i], Melt(t), OnKey)
      ensures CellValue(Match(rows[i], Melt(t), OnKey)) == At(t, rows[i].city, rows[i].date)
    {
      MeltJoin(t, rows[i]);
    }
    LeftJoinOneToOne(rows, Melt(t), OnKey, attach);
  }

  /** Row `r` of the long table carries, at its own (date, City), every daily table's cell. */
  predicate RowFromDaily(d: DailySet, r: Record)
    requires d.Valid()
  {
    && At(d.temperature, r.city, r.date) == Some(r.avgTemperature)
    && r.humidity == At(d.humidity, r.city, r.date)
    && r.pressure == At(d.pressure, r.city, r.date)
    && r.windSpeed == At(d.windSpeed, r.city, r.date)
    && r.windDirection == At(d.windDirection, r.city, r.date)
    && r.weatherDesc == At(d.weatherDesc, r.city, r.date)
    && r.country == None && r.latitude == None && r.longitude == None
  }

  lemma HumidityJoin(rows: seq<Record>, t: Daily<real>)
    requires IsDaily(t)
    ensures var out := LeftJoin(rows, Melt(t), OnKey, SetHumidity);
      |out| == |rows| && forall i :: 0 <= i < |rows| ==> out[i] == rows[i].(humidity := At(t, rows[i].city, rows[i].date))
  {
    JoinTable(rows, t, SetHumidity);
  }

  lemma PressureJoin(rows: seq<Record>, t: Daily<real>)
    requires IsDaily(t)
    ensures var out := LeftJoin(rows, Melt(t), OnKey, SetPressure);
      |out| == |rows| && forall i :: 0 <= i < |rows| ==> out[i] == rows[i].(pressure := At(t, rows[i].city, rows[i].date))
  {
    JoinTable(rows, t, SetPressure);
  }

  lemma WindSpeedJoin(rows: seq<Record>, t: Daily<real>)
    requires IsDaily(t)
    ensures var out := LeftJoin(rows, Melt(t), OnKey, SetWindSpeed);
      |out| == |rows| && forall i :: 0 <= i < |rows| ==> out[i] == rows[i].(windSpeed := At(t, rows[i].city, rows[i].date))
  {
    JoinTable(rows, t, SetWindSpeed);
  }

  lemma WindDirectionJoin(rows: seq<Record>, t: Daily<real>)
    requires IsDaily(t)
    ensures var out := LeftJoin(rows, Melt(t), OnKey, SetWindDirection);
      |out| == |rows| && forall i :: 0 <= i < |rows| ==> out[i] == rows[i].(windDirection := At(t, rows[i].city, rows[i].date))
  {
    JoinTable(rows, t, SetWindDirection);
  }

  lemma WeatherDescJoin(rows: seq<Record>, t: Daily<string>)
    requires IsDaily(t)
    ensures var out := LeftJoin(rows, Melt(t), OnKey, SetWeatherDesc);
      |out| == |rows| && forall i :: 0 <= i < |rows| ==> out[i] == rows[i].(weatherDesc := At(t, rows[i].city, rows[i].date))
  {
    JoinTable(rows, t, SetWeatherDesc);
  }

  /**
   * The long table has exactly the rows left after dropping null
   * temperatures (the five left merges neither add nor drop rows), its
   * (date, City) pairs are unique, and each row holds the daily values of its
   * own city and date.
   */
  lemma ReshapeSound(d: DailySet)
    requires d.Valid()
    ensures Keys(Reshape(d)) == Keys(TemperatureRecords(Melt(d.temperature)))
    ensures UniqueKeys(Reshape(d))
    ensures forall i :: 0 <= i < |Reshape(d)| ==> RowFromDaily(d, Reshape(d)[i])
  {
    var cells := Melt(d.temperature);
    MeltSound(d.temperature);
    var r0 := TemperatureRecords(cells);
    TemperatureRecordsUnique(cells);
    var r1 := LeftJoin(r0, Melt(d.humidity), OnKey, SetHumidity);
    HumidityJoin(r0, d.humidity);
    var r2 := LeftJoin(r1, Melt(d.pressure), OnKey, SetPressure);
    PressureJoin(r1, d.pressure);
    var r3 := LeftJoin(r2, Melt(d.windSpeed), OnKey, SetWindSpeed);
    WindSpeedJoin(r2, d.windSpeed);
    var r4 := LeftJoin(r3, Melt(d.windDirection), OnKey, SetWindDirection);
    WindDirectionJoin(r3, d.windDirection);
    var r5 := LeftJoin(r4, Melt(d.weatherDesc), OnKey, SetWeatherDesc);
    WeatherDescJoin(r4, d.weatherDesc);
    assert r5 == Reshape(d);
    forall i | 0 <= i < |r5|
      ensures r5[i].date == r0[i].date && r5[i].city == r0[i].city
      ensures RowFromDaily(d, r5[i])
    {
      var c, dt := r0[i].city, r0[i].date;
      assert r5[i] == r0[i].(humidity := At(d.humidity, c, dt), pressure := At(d.pressure, c, dt),
        windSpeed := At(d.windSpeed, c, dt), windDirection := At(d.windDirection, c, dt),
        weatherDesc := At(d.weatherDesc, c, dt));
      var k :| 0 <= k < |cells| && cells[k] == OfCell(r0[i]);
    }
    assert Keys(r5) == Keys(r0);
  }

  /** Every non-null daily temperature gives a row of the long table. */
  lemma ReshapeComplete(d: DailySet, c: City, j: nat)
    requires d.Valid() && c in d.temperature.columns && j < |d.temperature.keys|
    requires d.temperature.data[c][j].Some?
    ensures exists i :: (0 <= i < |Reshape(d)| &&
      Reshape(d)[i].date == d.temperature.keys[j] && Reshape(d)[i].city == c)
  {
    var t := d.temperature;
    MeltComplete(t, c, j);
    var cells := Melt(t);
    var k :| 0 <= k < |cells| && cells[k] == Cell(t.keys[j], c, t.data[c][j]);
    TemperatureRecordsComplete(cells, k);
    var r0 := TemperatureRecords(cells);
    var i :| 0 <= i < |r0| && r0[i] == NewRecord(cells[k]);
    ReshapeSound(d);
    assert Keys(Reshape(d))[i] == Keys(r0)[i];
  }

  // ---------------------------------------------------------------- the attribute join

  predicate OnCity(row: Record, a: CityAttributes) {
    a.city == row.city
  }

  /** Attach a city's attributes; an unmatched row gets null attributes. */
  function SetAttributes(row: Record, m: Option<CityAttributes>): Record {
    if m.Some? then row.(country := m.value.country, latitude := m.value.latitude, longitude := m.value.longitude)
    else row.(country := None, latitude := None, longitude := None)
  }

  /** `df_long.merge(city_attrs, on="City", how="left")`. */
  function WithAttributes(rows: seq<Record>, attrs: seq<CityAttributes>): seq<Record> {
    LeftJoin(rows, attrs, OnCity, SetAttributes)
  }

  /** No city has two rows in the attributes table. */
  predicate DistinctCities(attrs: seq<CityAttributes>) {
    forall i, j :: 0 <= i < j < |attrs| ==> attrs[i].city != attrs[j].city
  }

  /** Cities without attributes keep their rows: the attribute join never drops a row. */
  lemma WithAttributesKeepsRows(rows: seq<Record>, attrs: seq<CityAttributes>)
    ensures |WithAttributes(rows, attrs)| >= |rows|
  {
    LeftJoinKeepsRows(rows, attrs, OnCity, SetAttributes);
  }

  lemma MatchCity(row: Record, attrs: seq<CityAttributes>)
    requires DistinctCities(attrs)
    ensures AtMostOneMatch(row, attrs, OnCity)
    ensures forall j :: 0 <= j < |attrs| && attrs[j].city == row.city ==> Match(row, attrs, OnCity) == Some(attrs[j])
    ensures (forall j :: 0 <= j < |attrs| ==> attrs[j].city != row.city) ==> Match(row, attrs, OnCity) == None
  {
    var m := Filter(attrs, x => OnCity(row, x));
    forall j | 0 <= j < |attrs| && attrs[j].city == row.city
      ensures Match(row, attrs, OnCity) == Some(attrs[j])
    {
      assert attrs[j] in m;
      var k :| 0 <= k < |attrs| && attrs[k] == m[0];
      assert attrs[k].city == row.city;
    }
  }

  /**
   * With one attribute row per city, the attribute join neither adds nor
   * drops rows, keeps every row's (date, City) and parameters, and gives each
   * row the attributes of its own city, or nulls when its city has none.
   */
  lemma WithAttributesOneToOne(rows: seq<Record>, attrs: seq<CityAttributes>)
    requires DistinctCities(attrs)
    ensures |WithAttributes(rows, attrs)| == |rows|
    ensures Keys(WithAttributes(rows, attrs)) == Keys(rows)
    ensures forall i :: 0 <= i < |rows| ==>
      WithAttributes(rows, attrs)[i].(country := None, latitude := None, longitude := None) ==
      rows[i].(country := None, latitude := None, longitude := None)
    ensures forall i, j :: 0 <= i < |rows| && 0 <= j < |attrs| && attrs[j].city == rows[i].city ==>
      var r := WithAttributes(rows, attrs)[i];
      r.country == attrs[j].country && r.latitude == attrs[j].latitude && r.longitude == attrs[j].longitude
    ensures forall i :: 0 <= i < |rows| && (forall j :: 0 <= j < |attrs| ==> attrs[j].city != rows[i].city) ==>
      var r := WithAttributes(rows, attrs)[i];
      r.country == None && r.latitude == None && r.longitude == None
  {
    forall i | 0 <= i < |rows|
      ensures AtMostOneMatch(rows[i], attrs, OnCity)
    {
      MatchCity(rows[i], attrs);
    }
    LeftJoinOneToOne(rows, attrs, OnCity, SetAttributes);
    var out := WithAttributes(rows, attrs);
    forall i | 0 <= i < |rows|
      ensures Keys(out)[i] == Keys(rows)[i]
      ensures forall j :: 0 <= j < |attrs| && attrs[j].city == rows[i].city ==>
        out[i].country == attrs[j].country && out[i].latitude == attrs[j].latitude && out[i].longitude == attrs[j].longitude
      ensures (forall j :: 0 <= j < |attrs| ==> attrs[j].city != rows[i].city) ==>
        out[i].country == None && out[i].latitude == None && out[i].longitude == None
    {
      MatchCity(rows[i], attrs);
    }
  }
}
