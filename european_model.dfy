/**
 * The extended `load_and_clean_data` of convert_european_dataset.py: the
 * primary daily tables are outer-merged on date with those of a secondary
 * (European) source when that source can be loaded, and the attribute table
 * is the combined file, or the primary one with the secondary one appended.
 * Any failure of the secondary source leaves the primary-only result.
 */
module EuropeanModel {
  import opened Wrappers
  import opened Calendar
  import opened Aggregation
  import opened Tables
  import opened LongForm
  import opened WeatherModel

  /**
   * The attribute files the loader may read; `None` is a file whose reading
   * (or joining) raised. `combinedExists` is the existence test of the
   * combined file.
   */
  datatype AttributeFiles = AttributeFiles(
    combinedExists: bool,
    combined: Option<seq<CityAttributes>>,
    primary: Option<seq<CityAttributes>>,
    secondary: Option<seq<CityAttributes>>)

  /** The secondary sources, when present, are well formed and name cities the primary ones do not. */
  predicate Separate(src: Sources, eu: Option<Sources>) {
    eu.Some? ==> eu.value.WellFormed() && Disjoint(src.Cities(), eu.value.Cities())
  }

  /**
   * The secondary block of the `try` completes: its files were read (`eu`
   * present) and every one of them has a column for each of its cities, so no
   * KeyError interrupts the aggregation.
   */
  predicate EuropeanLoads(eu: Option<Sources>)
    requires eu.Some? ==> eu.value.WellFormed()
  {
    eu.Some? && eu.value.Covered()
  }

  /** The two sources' daily tables have no city in common, table by table. */
  predicate Mergeable(p: DailySet, e: DailySet) {
    && Disjoint(p.temperature.columns, e.temperature.columns)
    && Disjoint(p.humidity.columns, e.humidity.columns)
    && Disjoint(p.pressure.columns, e.pressure.columns)
    && Disjoint(p.windSpeed.columns, e.windSpeed.columns)
    && Disjoint(p.windDirection.columns, e.windDirection.columns)
    && Disjoint(p.weatherDesc.columns, e.weatherDesc.columns)
  }

  /** The six `merge(..., on="date", how="outer")` calls. */
  function MergeDaily(p: DailySet, e: DailySet): (r: DailySet)
    requires p.Valid() && e.Valid() && Mergeable(p, e)
    ensures r.Valid()
    ensures r.temperature.columns == p.temperature.columns + e.temperature.columns
    ensures forall x :: x in r.temperature.keys <==> x in p.temperature.keys || x in e.temperature.keys
    ensures forall c, x :: c in p.temperature.data ==> At(r.temperature, c, x) == At(p.temperature, c, x)
    ensures forall c, x :: c in e.temperature.data ==> At(r.temperature, c, x) == At(e.temperature, c, x)
  {
    DailySet(
      OuterMerge(p.temperature, e.temperature),
      OuterMerge(p.humidity, e.humidity),
      OuterMerge(p.pressure, e.pressure),
      OuterMerge(p.windSpeed, e.windSpeed),
      OuterMerge(p.windDirection, e.windDirection),
      OuterMerge(p.weatherDesc, e.weatherDesc))
  }

  /** The daily tables of the primary sources, with the secondary ones merged in when they load. */
  function ExtendedDaily(src: Sources, eu: Option<Sources>): (r: Result<DailySet>)
    requires src.WellFormed() && Separate(src, eu)
    ensures r.Ok? <==> src.Covered()
    ensures r.Err? ==> r.failure == MissingColumn
    ensures r.Ok? ==> r.value.Valid()
  {
    match DailyTables(InCelsius(src))
    case Err(e) => Err(e)
    case Ok(p) =>
      if EuropeanLoads(eu) then
        var e := DailyTables(InCelsius(eu.value)).value;
        Ok(MergeDaily(p, e))
      else Ok(p)
  }

  /**
   * `city_attrs`: the combined file when it exists; otherwise the primary
   * file, with the secondary file appended only when the secondary data was
   * merged and its attribute file could be read. `None` when a file the
   * choice needs could not be read.
   */
  function AttributeChoice(files: AttributeFiles, europeanLoaded: bool): (r: Option<seq<CityAttributes>>)
    ensures files.combinedExists ==> r == files.combined
    ensures !files.combinedExists ==> (r.Some? <==> files.primary.Some?)
    ensures !files.combinedExists && r.Some? ==>
      |files.primary.value| <= |r.value| && r.value[..|files.primary.value|] == files.primary.value
    ensures !files.combinedExists && r.Some? && |r.value| > |files.primary.value| ==>
      europeanLoaded && files.secondary.Some? && r.value[|files.primary.value|..] == files.secondary.value
    ensures !files.combinedExists && files.primary.Some? && europeanLoaded && files.secondary.Some? ==>
      r == Some(files.primary.value + files.secondary.value)
  {
    if files.combinedExists then files.combined
    else if files.primary.None? then None
    else if europeanLoaded && files.secondary.Some? then Some(files.primary.value + files.secondary.value)
    else files.primary
  }

  /** What the extended `load_and_clean_data` returns. */
  function LoadExtended(src: Sources, eu: Option<Sources>, files: AttributeFiles): (r: Result<LongTable>)
    requires src.WellFormed() && Separate(src, eu)
    ensures r.Ok? <==> src.Covered()
    ensures r.Err? ==> r.failure == MissingColumn
    ensures r.Ok? ==> r.value.columns == LongColumns(AttributeChoice(files, EuropeanLoads(eu)).Some?)
  {
    match ExtendedDaily(src, eu)
    case Err(e) => Err(e)
    case Ok(d) => Ok(Assemble(d, AttributeChoice(files, EuropeanLoads(eu))))
  }

  /**
   * The daily tables of the extended loader: the primary ones, then the
   * `try` block that aggregates the secondary sources (when their files were
   * read, `eu` present) and merges them in, setting the flag once it completes.
   */
  method ExtendedDailyTables(src: Sources, eu: Option<Sources>) returns (daily: Result<DailySet>, europeanDataLoaded: bool)
    requires src.WellFormed() && Separate(src, eu)
    ensures daily == ExtendedDaily(src, eu)
    ensures europeanDataLoaded <==> daily.Ok? && EuropeanLoads(eu)
  {
    var temperature := ToCelsius(src.temperature);
    daily := DailyTables(src.(temperature := temperature));
    europeanDataLoaded := false;
    if daily.Err? {
      return;
    }
    if eu.Some? {
      var euTemperature := ToCelsius(eu.value.temperature);
      var euDaily := DailyTables(eu.value.(temperature := euTemperature));
      if euDaily.Ok? {
        daily := Ok(MergeDaily(daily.value, euDaily.value));
        europeanDataLoaded := true;
      }
    }
  }

  /** `city_attrs`, rebound as the attribute files allow. */
  method ChooseAttributes(files: AttributeFiles, europeanDataLoaded: bool) returns (attrs: Option<seq<CityAttributes>>)
    ensures attrs == AttributeChoice(files, europeanDataLoaded)
  {
    if files.combinedExists {
      attrs := files.combined;
    } else {
      attrs := files.primary;
      if attrs.Some? && europeanDataLoaded && files.secondary.Some? {
        attrs := Some(attrs.value + files.secondary.value);
      }
    }
  }

  /** The extended `load_and_clean_data`, from the parsed sources on. */
  method LoadAndCleanDataExtended(src: Sources, eu: Option<Sources>, files: AttributeFiles) returns (r: Result<LongTable>)
    requires src.WellFormed() && Separate(src, eu)
    ensures r == LoadExtended(src, eu, files)
  {
    var daily, europeanDataLoaded := ExtendedDailyTables(src, eu);
    if daily.Err? {
      return Err(daily.failure);
    }
    var attrs := ChooseAttributes(files, europeanDataLoaded);
    var table := AssembleLongTable(daily.value, attrs);
    r := Ok(table);
  }

  // ---------------------------------------------------------------- properties

  /** When the secondary block fails, the result is the primary-only loader's, with the primary attribute choice. */
  lemma DegradedIsPrimary(src: Sources, eu: Option<Sources>, files: AttributeFiles)
    requires src.WellFormed() && Separate(src, eu)
    requires !EuropeanLoads(eu)
    ensures LoadExtended(src, eu, files) == Load(src, AttributeChoice(files, false))
  {
  }

  /**
   * After the merge the days are those of either source, and the cities
   * those of the primary temperature file followed by the secondary ones.
   */
  lemma MergedCalendar(src: Sources, eu: Option<Sources>)
    requires src.WellFormed() && Separate(src, eu) && src.Covered() && EuropeanLoads(eu)
    ensures var t := ExtendedDaily(src, eu).value.temperature;
      && t.columns == src.Cities() + eu.value.Cities()
      && forall x :: x in t.keys <==> HasDate(src.temperature.keys, x) || HasDate(eu.value.temperature.keys, x)
  {
  }

  /** A day present in only one of two merged daily sets is null for every city of the other, in all six tables. */
  lemma MergeOneSided(p: DailySet, e: DailySet, x: Date)
    requires p.Valid() && e.Valid() && Mergeable(p, e)
    ensures var r := MergeDaily(p, e);
      && (x in e.temperature.keys && x !in p.temperature.keys ==> forall c :: c in p.temperature.columns ==> At(r.temperature, c, x) == None)
      && (x in e.humidity.keys && x !in p.humidity.keys ==> forall c :: c in p.humidity.columns ==> At(r.humidity, c, x) == None)
      && (x in e.pressure.keys && x !in p.pressure.keys ==> forall c :: c in p.pressure.columns ==> At(r.pressure, c, x) == None)
      && (x in e.windSpeed.keys && x !in p.windSpeed.keys ==> forall c :: c in p.windSpeed.columns ==> At(r.windSpeed, c, x) == None)
      && (x in e.windDirection.keys && x !in p.windDirection.keys ==> forall c :: c in p.windDirection.columns ==> At(r.windDirection, c, x) == None)
      && (x in e.weatherDesc.keys && x !in p.weatherDesc.keys ==> forall c :: c in p.weatherDesc.columns ==> At(r.weatherDesc, c, x) == None)
      && (x in p.temperature.keys && x !in e.temperature.keys ==> forall c :: c in e.temperature.columns ==> At(r.temperature, c, x) == None)
  {
    OuterMergeOneSided(p.temperature, e.temperature, x);
    OuterMergeOneSided(p.humidity, e.humidity, x);
    OuterMergeOneSided(p.pressure, e.pressure, x);
    OuterMergeOneSided(p.windSpeed, e.windSpeed, x);
    OuterMergeOneSided(p.windDirection, e.windDirection, x);
    OuterMergeOneSided(p.weatherDesc, e.weatherDesc, x);
  }

  /**
   * The combined long table keeps one row per (date, City), and every row
   * carries the merged daily values and attributes of its own key: the
   * per-city series drawn from it are therefore free of duplicate days.
   */
  lemma ExtendedSound(src: Sources, eu: Option<Sources>, files: AttributeFiles)
    requires src.WellFormed() && Separate(src, eu) && src.Covered()
    requires var a := AttributeChoice(files, EuropeanLoads(eu)); a.Some? ==> DistinctCities(a.value)
    ensures var d := ExtendedDaily(src, eu).value;
      var rows := LoadExtended(src, eu, files).value.rows;
      && UniqueKeys(rows)
      && forall i :: 0 <= i < |rows| ==> RowFromSources(d, AttributeChoice(files, EuropeanLoads(eu)), rows[i])
  {
    AssembleSound(ExtendedDaily(src, eu).value, AttributeChoice(files, EuropeanLoads(eu)));
  }

  /**
   * Every row of the combined table belongs to a city of one of the two
   * sources and lies on a day on which that city's own source had a
   * temperature sample; its temperature is the mean of those samples minus
   * 273.15. The secondary samples are shifted like the primary ones.
   */
  lemma ExtendedRowTemperature(src: Sources, eu: Option<Sources>, files: AttributeFiles, i: nat)
    requires src.WellFormed() && Separate(src, eu) && src.Covered()
    requires var a := AttributeChoice(files, EuropeanLoads(eu)); a.Some? ==> DistinctCities(a.value)
    requires i < |LoadExtended(src, eu, files).value.rows|
    ensures var row := LoadExtended(src, eu, files).value.rows[i];
      row.city in src.temperature.data ==>
        var xs := SamplesOn(src.temperature.keys, src.temperature.data[row.city], row.date);
        xs != [] && row.avgTemperature == Mean(xs) - KelvinOffset
    ensures var row := LoadExtended(src, eu, files).value.rows[i];
      row.city !in src.temperature.data ==>
        EuropeanLoads(eu) && row.city in eu.value.temperature.data &&
        var xs := SamplesOn(eu.value.temperature.keys, eu.value.temperature.data[row.city], row.date);
        xs != [] && row.avgTemperature == Mean(xs) - KelvinOffset
  {
    ExtendedSound(src, eu, files);
    var d := ExtendedDaily(src, eu).value;
    var row := LoadExtended(src, eu, files).value.rows[i];
    assert RowFromSources(d, AttributeChoice(files, EuropeanLoads(eu)), row);
    assert At(d.temperature, row.city, row.date) == Some(row.avgTemperature);
    ExtendedDailyTemperature(src, eu, row.city, row.date, row.avgTemperature);
  }

  /** A daily mean of the merged temperature table comes from the city's own source. */
  lemma ExtendedDailyTemperature(src: Sources, eu: Option<Sources>, c: City, day: Date, v: real)
    requires src.WellFormed() && Separate(src, eu) && src.Covered()
    requires At(ExtendedDaily(src, eu).value.temperature, c, day) == Some(v)
    ensures c in src.temperature.data ==>
      var xs := SamplesOn(src.temperature.keys, src.temperature.data[c], day);
      xs != [] && v == Mean(xs) - KelvinOffset
    ensures c !in src.temperature.data ==>
      EuropeanLoads(eu) && c in eu.value.temperature.data &&
      var xs := SamplesOn(eu.value.temperature.keys, eu.value.temperature.data[c], day);
      xs != [] && v == Mean(xs) - KelvinOffset
  {
    var p := DailyTables(InCelsius(src)).value;
    if EuropeanLoads(eu) {
      var e := DailyTables(InCelsius(eu.value)).value;
      if c in src.temperature.data {
        assert At(p.temperature, c, day) == Some(v);
        DailyTemperature(src, c, day, v);
      } else {
        assert c in p.temperature.data <==> c in src.Cities();
        assert At(e.temperature, c, day) == Some(v);
        DailyTemperature(eu.value, c, day, v);
      }
    } else {
      DailyTemperature(src, c, day, v);
    }
  }
}
