/**
 * The per-city views of the long table: `get_city_data`, the date-sorted
 * series of one city that the forecaster reads, and `get_city_info`, the
 * country and coordinates of a city.
 */
module CityData {
  import opened Wrappers
  import opened Calendar
  import opened Text
  import opened Tables
  import opened LongForm

  /** One row of a city series: `date` renamed to `ds` and `AvgTemperature` to `y`. */
  datatype Obs = Obs(
    ds: Date, y: real,
    humidity: Option<real>, pressure: Option<real>, windSpeed: Option<real>,
    windDirection: Option<real>, weatherDesc: Option<string>)

  /** A city series; `columns` lists which optional parameter columns it has. */
  datatype Series = Series(columns: set<Column>, rows: seq<Obs>)

  /** A row restricted to the columns kept: a column the table lacks is absent (null) in the series. */
  function Project(row: Record, cols: set<Column>): Obs {
    Obs(row.date, row.avgTemperature,
        if Humidity in cols then row.humidity else None,
        if Pressure in cols then row.pressure else None,
        if WindSpeed in cols then row.windSpeed else None,
        if WindDirection in cols then row.windDirection else None,
        if WeatherDesc in cols then row.weatherDesc else None)
  }

  function ProjectAll(rows: seq<Record>, cols: set<Column>): (r: seq<Obs>)
    ensures |r| == |rows| && forall i :: 0 <= i < |rows| ==> r[i] == Project(rows[i], cols)
  {
    seq(|rows|, i requires 0 <= i < |rows| => Project(rows[i], cols))
  }

  predicate SortedByDs(s: seq<Obs>) {
    forall i, j :: 0 <= i < j < |s| ==> s[i].ds <= s[j].ds
  }

  predicate StrictlyByDs(s: seq<Obs>) {
    forall i, j :: 0 <= i < j < |s| ==> s[i].ds < s[j].ds
  }

  /** No two observations fall on the same day. */
  predicate DistinctDs(s: seq<Obs>) {
    forall i, j :: 0 <= i < j < |s| ==> s[i].ds != s[j].ds
  }

  lemma Cons(a: Obs, rest: seq<Obs>)
    ensures SortedByDs(rest) && (forall k :: 0 <= k < |rest| ==> a.ds <= rest[k].ds) ==> SortedByDs([a] + rest)
    ensures StrictlyByDs(rest) && (forall k :: 0 <= k < |rest| ==> a.ds < rest[k].ds) ==> StrictlyByDs([a] + rest)
  {
  }

  /** `x` placed into the sorted `s` after every observation not later than it. */
  function Insert(x: Obs, s: seq<Obs>): (r: seq<Obs>)
    requires SortedByDs(s)
    ensures SortedByDs(r)
    ensures multiset(r) == multiset(s) + multiset{x}
  {
    if s == [] || x.ds <= s[0].ds then
      Cons(x, s);
      [x] + s
    else
      var rest := Insert(x, s[1..]);
      assert s == [s[0]] + s[1..];
      forall k | 0 <= k < |rest|
        ensures s[0].ds <= rest[k].ds
      {
        assert rest[k] in multiset(rest);
        if rest[k] != x {
          assert rest[k] in multiset(s[1..]);
          var m :| 0 <= m < |s[1..]| && s[1..][m] == rest[k];
          assert s[m + 1] == rest[k];
        }
      }
      Cons(s[0], rest);
      [s[0]] + rest
  }

  /** Inserting an observation of a new day into a strictly ascending series keeps it strictly ascending. */
  lemma {:induction false} InsertStrict(x: Obs, s: seq<Obs>)
    requires StrictlyByDs(s) && forall k :: 0 <= k < |s| ==> s[k].ds != x.ds
    ensures StrictlyByDs(Insert(x, s))
  {
    if s != [] && x.ds > s[0].ds {
      var tail := s[1..];
      assert forall k :: 0 <= k < |tail| ==> tail[k] == s[k + 1];
      InsertStrict(x, tail);
      var rest := Insert(x, tail);
      forall k | 0 <= k < |rest| ensures s[0].ds < rest[k].ds {
        assert rest[k] in multiset(rest);
        if rest[k] != x {
          assert rest[k] in multiset(tail);
          var m :| 0 <= m < |tail| && tail[m] == rest[k];
        }
      }
      Cons(s[0], rest);
    }
  }

  /** `sort_values("ds")`: the same observations in ascending date order. */
  function SortByDs(s: seq<Obs>): (r: seq<Obs>)
    ensures SortedByDs(r)
    ensures multiset(r) == multiset(s)
    ensures DistinctDs(s) ==> StrictlyByDs(r)
  {
    if s == [] then []
    else
      var rest := SortByDs(s[1..]);
      assert s == [s[0]] + s[1..];
      assert DistinctDs(s) ==> DistinctDs(s[1..]) && forall k :: 0 <= k < |rest| ==> rest[k].ds != s[0].ds by {
        if DistinctDs(s) {
          forall k | 0 <= k < |rest| ensures rest[k].ds != s[0].ds {
            assert rest[k] in multiset(s[1..]);
            var m :| 0 <= m < |s[1..]| && s[1..][m] == rest[k];
            assert s[m + 1] == rest[k];
          }
        }
      }
      assert DistinctDs(s) ==> StrictlyByDs(Insert(s[0], rest)) by {
        if DistinctDs(s) {
          InsertStrict(s[0], rest);
        }
      }
      Insert(s[0], rest)
  }

  function CityRows(rows: seq<Record>, name: City): (r: seq<Record>)
    ensures |r| <= |rows|
    ensures forall k :: 0 <= k < |r| ==> r[k] in rows && r[k].city == name
    ensures forall i :: 0 <= i < |rows| && rows[i].city == name ==> rows[i] in r
    ensures r == [] <==> forall i :: 0 <= i < |rows| ==> rows[i].city != name
  {
    Filter(rows, OfCity(name))
  }

  /** The selection condition `df["City"] == name`. */
  function OfCity(name: City): Record -> bool {
    (row: Record) => row.city == name
  }

  /** The index of the last row of city `name`, or -1 when there is none. */
  function LastRow(rows: seq<Record>, name: City): (i: int)
    ensures -1 <= i < |rows|
    ensures i >= 0 ==> rows[i].city == name
    ensures forall j :: i < j < |rows| ==> rows[j].city != name
  {
    if rows == [] then -1
    else if rows[|rows| - 1].city == name then |rows| - 1
    else LastRow(rows[..|rows| - 1], name)
  }

  /** `iloc[-1]` of a city's rows is the city's last row in the table. */
  lemma CityRowsLast(rows: seq<Record>, name: City)
    ensures CityRows(rows, name) != [] <==> LastRow(rows, name) >= 0
    ensures CityRows(rows, name) != [] ==> rows[LastRow(rows, name)] == CityRows(rows, name)[|CityRows(rows, name)| - 1]
  {
    var l := LastRow(rows, name);
    assert forall j :: l < j < |rows| ==> !OfCity(name)(rows[j]);
    FilterLastAt(rows, OfCity(name), l);
  }

  lemma UniqueKeysTail(rows: seq<Record>)
    requires rows != [] && UniqueKeys(rows)
    ensures UniqueKeys(rows[1..])
    ensures forall m :: 0 <= m < |rows[1..]| ==> (rows[1..][m].date, rows[1..][m].city) != (rows[0].date, rows[0].city)
  {
    var tail := rows[1..];
    forall i, j | 0 <= i < j < |tail| ensures Keys(tail)[i] != Keys(tail)[j] {
      assert Keys(rows)[i + 1] != Keys(rows)[j + 1];
    }
    forall m | 0 <= m < |tail| ensures (tail[m].date, tail[m].city) != (rows[0].date, rows[0].city) {
      assert Keys(rows)[m + 1] != Keys(rows)[0];
    }
  }

  lemma CityRowsCons(rows: seq<Record>, name: City)
    requires rows != []
    ensures CityRows(rows, name) == (if rows[0].city == name then [rows[0]] else []) + CityRows(rows[1..], name)
  {
  }

  predicate OnDistinctDays(c: seq<Record>) {
    forall i, j :: 0 <= i < j < |c| ==> c[i].date != c[j].date
  }

  /** A row of the city placed before rows of the same city that share no key with it. */
  lemma PrependDistinct(a: Record, tail: seq<Record>, rest: seq<Record>)
    requires forall k :: 0 <= k < |rest| ==> rest[k] in tail && rest[k].city == a.city
    requires forall m :: 0 <= m < |tail| ==> (tail[m].date, tail[m].city) != (a.date, a.city)
    requires OnDistinctDays(rest)
    ensures OnDistinctDays([a] + rest)
  {
    forall k | 0 <= k < |rest| ensures rest[k].date != a.date {
      var m :| 0 <= m < |tail| && tail[m] == rest[k];
    }
  }

  /** One city's rows of a table with unique (date, City) pairs fall on distinct days. */
  lemma {:induction false} CityRowsDistinct(rows: seq<Record>, name: City)
    requires UniqueKeys(rows)
    ensures OnDistinctDays(CityRows(rows, name))
  {
    if rows != [] {
      UniqueKeysTail(rows);
      CityRowsDistinct(rows[1..], name);
      CityRowsCons(rows, name);
      if rows[0].city == name {
        PrependDistinct(rows[0], rows[1..], CityRows(rows[1..], name));
      }
    }
  }

  /**
   * `get_city_data`: the rows of the stripped city name restricted to the
   * listed columns the table has, renamed, sorted by date and re-indexed; null
   * when the city has no row.
   */
  method GetCityData(df: LongTable, cityName: string) returns (r: Option<Series>)
    ensures r.None? <==> forall i :: 0 <= i < |df.rows| ==> df.rows[i].city != Strip(cityName)
    ensures r.Some? ==> r.value.columns == df.columns * ParameterColumns
    ensures r.Some? ==> SortedByDs(r.value.rows)
    ensures r.Some? ==> multiset(r.value.rows) == multiset(ProjectAll(CityRows(df.rows, Strip(cityName)), df.columns * ParameterColumns))
    ensures r.Some? && UniqueKeys(df.rows) ==> StrictlyByDs(r.value.rows)
  {
    var name := Strip(cityName);
    var available := df.columns * ParameterColumns;
    var cityRows := CityRows(df.rows, name);
    var cityDf := ProjectAll(cityRows, available);
    if cityDf == [] {
      return None;
    }
    if UniqueKeys(df.rows) {
      CityRowsDistinct(df.rows, name);
      ProjectDistinct(cityRows, available);
    }
    cityDf := SortByDs(cityDf);
    r := Some(Series(available, cityDf));
  }

  /** Renaming `date` to `ds` keeps the days of the rows apart. */
  lemma ProjectDistinct(rows: seq<Record>, cols: set<Column>)
    requires OnDistinctDays(rows)
    ensures DistinctDs(ProjectAll(rows, cols))
  {
  }

  // ---------------------------------------------------------------- city info

  /** A field read with `.get(column, "N/A")`: `NotAvailable` when the column is missing. */
  datatype Field<T> = NotAvailable | Value(cell: Option<T>)

  datatype CityInfo = CityInfo(country: Option<string>, latitude: Field<real>, longitude: Field<real>)

  /** The index of the first row of city `name`, or `|rows|` when there is none. */
  function FirstRow(rows: seq<Record>, name: City): (i: nat)
    ensures i <= |rows|
    ensures i < |rows| ==> rows[i].city == name
    ensures forall j :: 0 <= j < i ==> rows[j].city != name
  {
    if rows == [] then 0
    else if rows[0].city == name then 0
    else 1 + FirstRow(rows[1..], name)
  }

  /** The info of the city called exactly `name`: null when it has no row or there is no Country column. */
  function CityInfoByName(df: LongTable, name: City): (r: Option<CityInfo>)
    ensures r.None? <==> Country !in df.columns || forall i :: 0 <= i < |df.rows| ==> df.rows[i].city != name
    ensures r.Some? ==> exists i :: (0 <= i < |df.rows| && df.rows[i].city == name &&
      (forall j :: 0 <= j < i ==> df.rows[j].city != name) &&
      r.value.country == df.rows[i].country &&
      r.value.latitude == (if Latitude in df.columns then Value(df.rows[i].latitude) else NotAvailable) &&
      r.value.longitude == (if Longitude in df.columns then Value(df.rows[i].longitude) else NotAvailable))
  {
    var i := FirstRow(df.rows, name);
    if i == |df.rows| || Country !in df.columns then None
    else
      var row := df.rows[i];
      Some(CityInfo(row.country,
                    if Latitude in df.columns then Value(row.latitude) else NotAvailable,
                    if Longitude in df.columns then Value(row.longitude) else NotAvailable))
  }

  /**
   * `get_city_info`: null when the stripped city has no row or the table has
   * no Country column; otherwise the country and coordinates of the city's
   * first row.
   */
  function GetCityInfo(df: LongTable, cityName: string): (r: Option<CityInfo>)
    ensures r.None? <==> Country !in df.columns || forall i :: 0 <= i < |df.rows| ==> df.rows[i].city != Strip(cityName)
    ensures r.Some? ==> exists i :: (0 <= i < |df.rows| && df.rows[i].city == Strip(cityName) &&
      (forall j :: 0 <= j < i ==> df.rows[j].city != Strip(cityName)) &&
      r.value.country == df.rows[i].country &&
      r.value.latitude == (if Latitude in df.columns then Value(df.rows[i].latitude) else NotAvailable) &&
      r.value.longitude == (if Longitude in df.columns then Value(df.rows[i].longitude) else NotAvailable))
  {
    CityInfoByName(df, Strip(cityName))
  }
}
