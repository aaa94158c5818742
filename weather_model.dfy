/**
 * The daily dataset builder of models/weather_model.py (`load_and_clean_data`),
 * from the already-parsed sources onwards: Kelvin to Celsius, daily
 * aggregation, reshaping to the long table and the optional attribute join.
 */
module WeatherModel {
  import opened Wrappers
  import opened Calendar
  import opened Aggregation
  import opened Tables
  import opened LongForm

  /** The six parsed sources: temperature (Kelvin), humidity, pressure, wind speed, wind direction, description. */
  datatype Sources = Sources(
    temperature: Sheet<real>, humidity: Sheet<real>, pressure: Sheet<real>,
    windSpeed: Sheet<real>, windDirection: Sheet<real>, weatherDesc: Sheet<string>)
  {
    predicate WellFormed() {
      temperature.WellFormed() && humidity.WellFormed() && pressure.WellFormed() &&
      windSpeed.WellFormed() && windDirection.WellFormed() && weatherDesc.WellFormed()
    }

    /** The cities of the temperature file, whose columns every other file is read by. */
    function Cities(): seq<City> {
      temperature.columns
    }

    /** Every other file has a column for every city of the temperature file. */
    predicate Covered() {
      HasColumns(humidity, Cities()) && HasColumns(pressure, Cities()) && HasColumns(windSpeed, Cities()) &&
      HasColumns(windDirection, Cities()) && HasColumns(weatherDesc, Cities())
    }
  }

  const KelvinOffset: real := 273.15

  /** One city column converted from Kelvin to Celsius; nulls stay null. */
  function ShiftColumn(col: seq<Option<real>>): (r: seq<Option<real>>)
    ensures |r| == |col|
    ensures forall j :: 0 <= j < |col| ==> r[j].Some? == col[j].Some?
    ensures forall j :: 0 <= j < |col| && col[j].Some? ==> r[j].value + KelvinOffset == col[j].value
  {
    seq(|col|, j requires 0 <= j < |col| => if col[j].Some? then Some(col[j].value - KelvinOffset) else None)
  }

  /** The temperature sheet with every city column converted to Celsius. */
  function Celsius(s: Sheet<real>): (t: Sheet<real>)
    requires s.WellFormed()
    ensures t.WellFormed() && t.keys == s.keys && t.columns == s.columns && t.data.Keys == s.data.Keys
  {
    s.(data := map c | c in s.data :: ShiftColumn(s.data[c]))
  }

  /**
   * `for col in city_columns: df_temp[col] = df_temp[col] - 273.15`: each city
   * column of the temperature sheet is replaced, one after the other, by its
   * Celsius values.
   */
  method ToCelsius(s: Sheet<real>) returns (t: Sheet<real>)
    requires s.WellFormed()
    ensures t == Celsius(s)
  {
    var data := s.data;
    for i := 0 to |s.columns|
      invariant data.Keys == s.data.Keys
      invariant forall k :: 0 <= k < i ==> data[s.columns[k]] == ShiftColumn(s.data[s.columns[k]])
      invariant forall k :: i <= k < |s.columns| ==> data[s.columns[k]] == s.data[s.columns[k]]
    {
      var c := s.columns[i];
      data := data[c := ShiftColumn(data[c])];
    }
    t := s.(data := data);
  }

  /** The sources with the temperature in Celsius. */
  function InCelsius(src: Sources): (r: Sources)
    requires src.WellFormed()
    ensures r.WellFormed() && r.Cities() == src.Cities() && (r.Covered() <==> src.Covered())
  {
    src.(temperature := Celsius(src.temperature))
  }

  /**
   * The daily tables: per source, `groupby("date")[city_columns]` with the
   * NaN-skipping mean (the description: its mode). Any source lacking a city
   * of the temperature file raises KeyError.
   */
  function DailyTables(src: Sources): (r: Result<DailySet>)
    requires src.WellFormed()
    ensures r.Ok? <==> src.Covered()
    ensures r.Err? ==> r.failure == MissingColumn
    ensures r.Ok? ==> r.value.Valid()
    ensures r.Ok? ==> (r.value.temperature.columns == src.Cities() && r.value.humidity.columns == src.Cities() &&
      r.value.pressure.columns == src.Cities() && r.value.windSpeed.columns == src.Cities() &&
      r.value.windDirection.columns == src.Cities() && r.value.weatherDesc.columns == src.Cities())
    ensures r.Ok? ==> forall d :: d in r.value.temperature.keys <==> HasDate(src.temperature.keys, d)
  {
    var cols := src.Cities();
    assert HasColumns(src.temperature, cols);
    if !src.Covered() then Err(MissingColumn)
    else
      Ok(DailySet(
        Aggregate(src.temperature, cols, NanMean).value,
        Aggregate(src.humidity, cols, NanMean).value,
        Aggregate(src.pressure, cols, NanMean).value,
        Aggregate(src.windSpeed, cols, NanMean).value,
        Aggregate(src.windDirection, cols, NanMean).value,
        Aggregate(src.weatherDesc, cols, Mode).value))
  }

  /** The columns of the long table: the parameters always, the attributes when their join happened. */
  function LongColumns(attributesJoined: bool): set<Column> {
    if attributesJoined then ParameterColumns + AttributeColumns else ParameterColumns
  }

  /**
   * The long table built from daily tables: melted, null temperatures dropped,
   * the other parameters left-joined on (date, City), and the attributes
   * left-joined on City when `attrs` is present.
   */
  function Assemble(d: DailySet, attrs: Option<seq<CityAttributes>>): (t: LongTable)
    requires d.Valid()
    ensures t.columns == LongColumns(attrs.Some?)
    ensures |t.rows| >= |Reshape(d)|
  {
    var rows := Reshape(d);
    if attrs.Some? then
      WithAttributesKeepsRows(rows, attrs.value);
      LongTable(LongColumns(true), WithAttributes(rows, attrs.value))
    else LongTable(LongColumns(false), rows)
  }

  /**
   * What `load_and_clean_data` returns. `attrs` is the attributes table, or
   * `None` when reading or joining it raised (the bare `except: pass`).
   */
  function Load(src: Sources, attrs: Option<seq<CityAttributes>>): (r: Result<LongTable>)
    requires src.WellFormed()
    ensures r.Ok? <==> src.Covered()
    ensures r.Err? ==> r.failure == MissingColumn
    ensures r.Ok? ==> r.value.columns == LongColumns(attrs.Some?)
  {
    match DailyTables(InCelsius(src))
    case Err(e) => Err(e)
    case Ok(d) => Ok(Assemble(d, attrs))
  }

  /** The reshaping tail of `load_and_clean_data`: the long table rebound by each join in turn. */
  method AssembleLongTable(d: DailySet, attrs: Option<seq<CityAttributes>>) returns (t: LongTable)
    requires d.Valid()
    ensures t == Assemble(d, attrs)
  {
    var rows := Reshape(d);
    var columns := LongColumns(false);
    if attrs.Some? {
      rows := WithAttributes(rows, attrs.value);
      columns := LongColumns(true);
    }
    t := LongTable(columns, rows);
  }

  /** `load_and_clean_data` from the parsed sources on. */
  method LoadAndCleanData(src: Sources, attrs: Option<seq<CityAttributes>>) returns (r: Result<LongTable>)
    requires src.WellFormed()
    ensures r == Load(src, attrs)
  {
    var temperature := ToCelsius(src.temperature);
    var daily := DailyTables(src.(temperature := temperature));
    if daily.Err? {
      return Err(daily.failure);
    }
    var table := AssembleLongTable(daily.value, attrs);
    r := Ok(table);
  }

  // ---------------------------------------------------------------- properties

  /** A long-table row carries its day's aggregated values and, if joined, its city's attributes. */
  predicate RowFromSources(d: DailySet, attrs: Option<seq<CityAttributes>>, r: Record)
    requires d.Valid()
  {
    && At(d.temperature, r.city, r.date) == Some(r.avgTemperature)
    && r.humidity == At(d.humidity, r.city, r.date)
    && r.pressure == At(d.pressure, r.city, r.date)
    && r.windSpeed == At(d.windSpeed, r.city, r.date)
    && r.windDirection == At(d.windDirection, r.city, r.date)
    && r.weatherDesc == At(d.weatherDesc, r.city, r.date)
    && (attrs.None? ==> r.country == None && r.latitude == None && r.longitude == None)
    && (attrs.Some? ==> forall j :: 0 <= j < |attrs.value| && attrs.value[j].city == r.city ==>
          r.country == attrs.value[j].country && r.latitude == attrs.value[j].latitude &&
          r.longitude == attrs.value[j].longitude)
  }

  /**
   * The long table: every row has a temperature and the values of its own
   * (date, City); its (date, City) pairs are unique; and the attribute join, when
   * each city has one attribute row, keeps exactly the rows of the melted,
   * null-dropped temperatures.
   */
  lemma AssembleSound(d: DailySet, attrs: Option<seq<CityAttributes>>)
    requires d.Valid()
    requires attrs.Some? ==> DistinctCities(attrs.value)
    ensures var rows := Assemble(d, attrs).rows;
      && Keys(rows) == Keys(Reshape(d))
      && UniqueKeys(rows)
      && forall i :: 0 <= i < |rows| ==> RowFromSources(d, attrs, rows[i])
  {
    var rows0 := Reshape(d);
    ReshapeSound(d);
    if attrs.Some? {
      WithAttributesOneToOne(rows0, attrs.value);
      var rows := WithAttributes(rows0, attrs.value);
      forall i | 0 <= i < |rows| ensures RowFromSources(d, attrs, rows[i]) {
        assert RowFromDaily(d, rows0[i]);
        assert rows[i].(country := None, latitude := None, longitude := None) ==
          rows0[i].(country := None, latitude := None, longitude := None);
      }
    } else {
      forall i | 0 <= i < |rows0| ensures RowFromSources(d, attrs, rows0[i]) {
        assert RowFromDaily(d, rows0[i]);
      }
    }
  }

  /** `load_and_clean_data` yields the sound long table of its sources' daily tables. */
  lemma LoadSound(src: Sources, attrs: Option<seq<CityAttributes>>)
    requires src.WellFormed() && src.Covered()
    requires attrs.Some? ==> DistinctCities(attrs.value)
    ensures var d := DailyTables(InCelsius(src)).value;
      var rows := Load(src, attrs).value.rows;
      && Keys(rows) == Keys(Reshape(d))
      && UniqueKeys(rows)
      && forall i :: 0 <= i < |rows| ==> RowFromSources(d, attrs, rows[i])
  {
    AssembleSound(DailyTables(InCelsius(src)).value, attrs);
  }

  lemma ShiftPrefix(col: seq<Option<real>>, n: nat)
    requires n <= |col|
    ensures ShiftColumn(col)[..n] == ShiftColumn(col[..n])
  {
  }

  lemma {:induction false} SamplesInCelsius(stamps: seq<Timestamp>, col: seq<Option<real>>, d: Date)
    requires |col| == |stamps|
    ensures SamplesOn(stamps, ShiftColumn(col), d) == Minus(SamplesOn(stamps, col, d), KelvinOffset)
  {
    if stamps != [] {
      var n := |stamps| - 1;
      var shifted := ShiftColumn(col);
      ShiftPrefix(col, n);
      SamplesInCelsius(stamps[..n], col[..n], d);
      SamplesOnLast(stamps, shifted, d);
      SamplesOnLast(stamps, col, d);
      if stamps[n].date == d && col[n].Some? {
        MinusAppend(SamplesOn(stamps[..n], col[..n], d), col[n].value, KelvinOffset);
      }
    }
  }

  /**
   * A daily temperature is the mean of the city's non-null Kelvin samples on
   * that calendar day, minus 273.15: the conversion happens before the daily
   * mean, whatever the time of day of each sample.
   */
  lemma DailyTemperature(src: Sources, c: City, day: Date, v: real)
    requires src.WellFormed() && src.Covered()
    requires At(DailyTables(InCelsius(src)).value.temperature, c, day) == Some(v)
    ensures c in src.temperature.data
    ensures var xs := SamplesOn(src.temperature.keys, src.temperature.data[c], day);
      xs != [] && v == Mean(xs) - KelvinOffset
  {
    var t := DailyTables(InCelsius(src)).value.temperature;
    var ct := InCelsius(src).temperature;
    var j := IndexOf(t.keys, day);
    assert t.data[c][j] == Some(v);
    assert Aggregate(ct, src.Cities(), NanMean).value == t;
    assert t.data[c][j] == NanMean(SamplesOn(ct.keys, ct.data[c], t.keys[j]));
    assert ct.data[c] == ShiftColumn(src.temperature.data[c]);
    SamplesInCelsius(src.temperature.keys, src.temperature.data[c], day);
    MeanMinus(SamplesOn(src.temperature.keys, src.temperature.data[c], day), KelvinOffset);
  }

  /** The temperature of a long-table row is its city's daily mean of the Kelvin samples, in Celsius. */
  lemma RowTemperature(src: Sources, attrs: Option<seq<CityAttributes>>, i: nat)
    requires src.WellFormed() && src.Covered()
    requires attrs.Some? ==> DistinctCities(attrs.value)
    requires i < |Load(src, attrs).value.rows|
    ensures var row := Load(src, attrs).value.rows[i];
      row.city in src.temperature.data &&
      var xs := SamplesOn(src.temperature.keys, src.temperature.data[row.city], row.date);
      xs != [] && row.avgTemperature == Mean(xs) - KelvinOffset
  {
    LoadSound(src, attrs);
    var d := DailyTables(InCelsius(src)).value;
    var row := Load(src, attrs).value.rows[i];
    assert RowFromSources(d, attrs, row);
    DailyTemperature(src, row.city, row.date, row.avgTemperature);
  }

  /**
   * A row whose day had the Kelvin samples 283.15 and 293.15 for its city
   * holds a daily temperature of exactly 15.0 degrees Celsius.
   */
  lemma KelvinExample(src: Sources, attrs: Option<seq<CityAttributes>>, i: nat)
    requires src.WellFormed() && src.Covered()
    requires attrs.Some? ==> DistinctCities(attrs.value)
    requires i < |Load(src, attrs).value.rows|
    requires var row := Load(src, attrs).value.rows[i];
      row.city in src.temperature.data &&
      SamplesOn(src.temperature.keys, src.temperature.data[row.city], row.date) == [283.15, 293.15]
    ensures Load(src, attrs).value.rows[i].avgTemperature == 15.0
  {
    RowTemperature(src, attrs, i);
    TwoSampleMean();
  }

  lemma TwoSampleMean()
    ensures Mean([283.15, 293.15]) - KelvinOffset == 15.0
  {
    var xs: seq<real> := [283.15, 293.15];
    assert xs[..1] == [283.15] && xs[..1][..0] == [];
    assert Sum(xs) == 576.30;
  }
}
