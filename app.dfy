/**
 * The small pure pieces of the dashboard: `get_weather_emoji`, a
 * priority-ordered keyword classifier with a temperature ladder behind it,
 * and the figures shown on the current-weather card (feels-like temperature
 * and the min/max fallback).
 */
module App {
  import opened Wrappers
  import opened Text
  import opened LongForm
  import opened Tables
  import opened CityData

  /** `FORECAST_DAYS`: the number of days the dashboard forecasts. */
  const ForecastDays: nat := 7

  // ---------------------------------------------------------------- symbols

  const RainSymbol: string := "\U{1F327}\U{FE0F}"
  const SnowSymbol: string := "\U{2744}\U{FE0F}"
  const CloudSymbol: string := "\U{2601}\U{FE0F}"
  const SunSymbol: string := "\U{2600}\U{FE0F}"
  const StormSymbol: string := "\U{26C8}\U{FE0F}"
  const HotSymbol: string := "\U{1F321}\U{FE0F}"
  const PartlyCloudySymbol: string := "\U{26C5}"

  /** Every symbol the classifier can return. */
  const Symbols: set<string> :=
    {RainSymbol, SnowSymbol, CloudSymbol, SunSymbol, StormSymbol, HotSymbol, PartlyCloudySymbol}

  /** The seven symbols are pairwise different. */
  lemma SevenSymbols()
    ensures |Symbols| == 7
  {
    assert RainSymbol[0] != SnowSymbol[0] && RainSymbol[0] != CloudSymbol[0] && RainSymbol[0] != SunSymbol[0];
    assert |PartlyCloudySymbol| == 1 && |HotSymbol| == 2;
  }

  // ---------------------------------------------------------------- description

  /**
   * The keyword chain on the lower-cased description: the first group with a
   * keyword occurring in it decides; `None` when no keyword occurs.
   */
  function KeywordSymbol(d: string): (r: Option<string>)
    ensures r.Some? ==> r.value in Symbols
  {
    if Contains(d, "rain") || Contains(d, "drizzle") then Some(RainSymbol)
    else if Contains(d, "snow") then Some(SnowSymbol)
    else if Contains(d, "cloud") then Some(CloudSymbol)
    else if Contains(d, "clear") || Contains(d, "sun") then Some(SunSymbol)
    else if Contains(d, "storm") || Contains(d, "thunder") then Some(StormSymbol)
    else None
  }

  /** A rule of the chain: a group of keywords and the symbol any of them selects. */
  datatype Rule = Rule(keywords: seq<string>, symbol: string)

  /** The chain as data, in priority order. */
  const Rules: seq<Rule> := [
    Rule(["rain", "drizzle"], RainSymbol),
    Rule(["snow"], SnowSymbol),
    Rule(["cloud"], CloudSymbol),
    Rule(["clear", "sun"], SunSymbol),
    Rule(["storm", "thunder"], StormSymbol)]

  predicate AnyKeyword(d: string, keywords: seq<string>) {
    exists k :: 0 <= k < |keywords| && Contains(d, keywords[k])
  }

  /** The symbol of the first rule one of whose keywords occurs in `d`. */
  function FirstMatch(d: string, rules: seq<Rule>): (r: Option<string>)
    ensures r.Some? ==> exists j :: 0 <= j < |rules| && rules[j].symbol == r.value && AnyKeyword(d, rules[j].keywords)
    ensures r.None? <==> forall j :: 0 <= j < |rules| ==> !AnyKeyword(d, rules[j].keywords)
  {
    if rules == [] then None
    else if AnyKeyword(d, rules[0].keywords) then Some(rules[0].symbol)
    else
      var r := FirstMatch(d, rules[1..]);
      assert forall j :: 1 <= j < |rules| ==> rules[j] == rules[1..][j - 1];
      r
  }

  lemma FirstMatchCons(d: string, rule: Rule, rest: seq<Rule>)
    ensures FirstMatch(d, [rule] + rest) == if AnyKeyword(d, rule.keywords) then Some(rule.symbol) else FirstMatch(d, rest)
  {
    assert ([rule] + rest)[1..] == rest;
  }

  lemma AnyOfOne(d: string, a: string)
    ensures AnyKeyword(d, [a]) <==> Contains(d, a)
  {
    if Contains(d, a) {
      assert [a][0] == a;
    }
  }

  lemma AnyOfTwo(d: string, a: string, b: string)
    ensures AnyKeyword(d, [a, b]) <==> Contains(d, a) || Contains(d, b)
  {
    if Contains(d, a) {
      assert [a, b][0] == a;
    }
    if Contains(d, b) {
      assert [a, b][1] == b;
    }
  }

  /** The if/elif chain is the first-match rule over the priority table. */
  lemma KeywordChainIsFirstMatch(d: string)
    ensures KeywordSymbol(d) == FirstMatch(d, Rules)
  {
    var rain, snow, cloud := Rule(["rain", "drizzle"], RainSymbol), Rule(["snow"], SnowSymbol), Rule(["cloud"], CloudSymbol);
    var sun, storm := Rule(["clear", "sun"], SunSymbol), Rule(["storm", "thunder"], StormSymbol);
    var s4 := [storm];
    var s3 := [sun] + s4;
    var s2 := [cloud] + s3;
    var s1 := [snow] + s2;
    assert Rules == [rain] + s1;
    FirstMatchCons(d, rain, s1);
    FirstMatchCons(d, snow, s2);
    FirstMatchCons(d, cloud, s3);
    FirstMatchCons(d, sun, s4);
    FirstMatchCons(d, storm, []);
    AnyOfTwo(d, "rain", "drizzle");
    AnyOfOne(d, "snow");
    AnyOfOne(d, "cloud");
    AnyOfTwo(d, "clear", "sun");
    AnyOfTwo(d, "storm", "thunder");
  }

  // ---------------------------------------------------------------- temperature

  /** Python's `temp > t`: false when the temperature is NaN. */
  predicate Above(temp: Option<real>, t: real) {
    temp.Some? && temp.value > t
  }

  /** The ladder: strictly above 30, 20, 10 and 0 degrees; NaN fails every comparison. */
  function TemperatureSymbol(temp: Option<real>): (r: string)
    ensures r in Symbols
    ensures temp.None? ==> r == SnowSymbol
  {
    if Above(temp, 30.0) then HotSymbol
    else if Above(temp, 20.0) then SunSymbol
    else if Above(temp, 10.0) then PartlyCloudySymbol
    else if Above(temp, 0.0) then CloudSymbol
    else SnowSymbol
  }

  /** The thresholds of the ladder, ascending, and the symbol of each band from the coldest up. */
  const Thresholds: seq<real> := [0.0, 10.0, 20.0, 30.0]
  const Bands: seq<string> := [SnowSymbol, CloudSymbol, PartlyCloudySymbol, SunSymbol, HotSymbol]

  /** How many of the thresholds lie strictly below `t`. */
  function Exceeded(t: real, ths: seq<real>): (n: nat)
    ensures n <= |ths|
  {
    if ths == [] then 0 else (if ths[0] < t then 1 else 0) + Exceeded(t, ths[1..])
  }

  /** The ladder picks the band of the number of thresholds the temperature strictly exceeds. */
  lemma LadderByBands(t: real)
    ensures TemperatureSymbol(Some(t)) == Bands[Exceeded(t, Thresholds)]
  {
    assert [0.0, 10.0, 20.0, 30.0][1..] == [10.0, 20.0, 30.0];
    assert [10.0, 20.0, 30.0][1..] == [20.0, 30.0];
    assert [20.0, 30.0][1..] == [30.0];
    assert [30.0][1..] == [];
    assert Exceeded(t, [30.0]) == if 30.0 < t then 1 else 0;
    assert Exceeded(t, [20.0, 30.0]) == (if 20.0 < t then 1 else 0) + Exceeded(t, [30.0]);
    assert Exceeded(t, [10.0, 20.0, 30.0]) == (if 10.0 < t then 1 else 0) + Exceeded(t, [20.0, 30.0]);
    var n := Exceeded(t, Thresholds);
    assert n == (if 0.0 < t then 1 else 0) + (if 10.0 < t then 1 else 0) + (if 20.0 < t then 1 else 0) + (if 30.0 < t then 1 else 0);
  }

  /** A warmer temperature never exceeds fewer thresholds. */
  lemma {:induction false} ExceededMonotone(t: real, u: real, ths: seq<real>)
    requires t <= u
    ensures Exceeded(t, ths) <= Exceeded(u, ths)
  {
    if ths != [] {
      ExceededMonotone(t, u, ths[1..]);
    }
  }

  /** The comparisons are strict: a temperature on a threshold belongs to the band below it. */
  lemma ThresholdsAreStrict()
    ensures TemperatureSymbol(Some(30.0)) == SunSymbol
    ensures TemperatureSymbol(Some(20.0)) == PartlyCloudySymbol
    ensures TemperatureSymbol(Some(10.0)) == CloudSymbol
    ensures TemperatureSymbol(Some(0.0)) == SnowSymbol
  {
  }

  // ---------------------------------------------------------------- classifier

  /** Python's truthiness of the description: null (None or NaN) and "" are false. */
  predicate HasDescription(desc: Option<string>) {
    desc.Some? && desc.value != ""
  }

  /**
   * `get_weather_emoji(temp, desc)`. A NaN temperature is `None`; a NaN
   * description is `None` too: it is truthy in Python, but `str(nan)` is
   * "nan", which holds no keyword, so it also reaches the ladder.
   */
  function WeatherEmoji(temp: Option<real>, desc: Option<string>): (r: string)
    ensures r in Symbols
    ensures HasDescription(desc) && KeywordSymbol(Lower(desc.value)).Some? ==> r == KeywordSymbol(Lower(desc.value)).value
    ensures !HasDescription(desc) || KeywordSymbol(Lower(desc.value)).None? ==> r == TemperatureSymbol(temp)
  {
    var fromText := if HasDescription(desc) then KeywordSymbol(Lower(desc.value)) else None;
    if fromText.Some? then fromText.value else TemperatureSymbol(temp)
  }

  /** The classifier is the first matching rule, else the band of the temperature. */
  lemma EmojiByRules(temp: real, desc: string)
    ensures WeatherEmoji(Some(temp), Some(desc)) ==
      match FirstMatch(Lower(desc), Rules)
      case Some(s) => s
      case None => Bands[Exceeded(temp, Thresholds)]
  {
    KeywordChainIsFirstMatch(Lower(desc));
    LadderByBands(temp);
    if desc == "" {
      assert !Contains("", "rain") && !Contains("", "drizzle") && !Contains("", "snow") && !Contains("", "cloud");
      assert !Contains("", "clear") && !Contains("", "sun") && !Contains("", "storm") && !Contains("", "thunder");
    }
  }

  /** A description mentioning rain or drizzle gives the rain symbol whatever the temperature. */
  lemma RainWins(temp: Option<real>, desc: string)
    requires Contains(Lower(desc), "rain") || Contains(Lower(desc), "drizzle")
    ensures WeatherEmoji(temp, Some(desc)) == RainSymbol
  {
  }

  /** Mentioning a keyword of an earlier group wins over later ones: snow comes before cloud, */
  lemma SnowBeforeCloud(temp: Option<real>)
    ensures WeatherEmoji(temp, Some("snow and cloud")) == SnowSymbol
  {
    var a := "snow and cloud";
    var l := Lower(a);
    assert l[..4] == "snow";
    ContainsAt(l, "snow", 0);
    assert 'r' !in l && 'z' !in l by {
      forall k | 0 <= k < |l| ensures l[k] != 'r' && l[k] != 'z' {
        assert a[k] != 'r' && a[k] != 'z' && a[k] != 'R' && a[k] != 'Z';
      }
    }
    NotContained(l, "rain", 0);
    NotContained(l, "drizzle", 3);
  }

  /** and rain before thunder. */
  lemma RainBeforeThunder(temp: Option<real>)
    ensures WeatherEmoji(temp, Some("thunderstorm with rain")) == RainSymbol
  {
    var b := "thunderstorm with rain";
    var l := Lower(b);
    assert l[18..22] == "rain";
    ContainsAt(l, "rain", 18);
  }

  /** A pattern holding a character absent from `s` does not occur in it. */
  lemma NotContained(s: string, pattern: string, k: nat)
    requires k < |pattern| && pattern[k] !in s
    ensures !Contains(s, pattern)
  {
    if Contains(s, pattern) {
      ContainsChar(s, pattern, k);
    }
  }

  /** Upper and lower case are alike: classifying the lower-cased description changes nothing. */
  lemma CaseInsensitive(temp: Option<real>, desc: string)
    ensures WeatherEmoji(temp, Some(Lower(desc))) == WeatherEmoji(temp, Some(desc))
  {
    LowerIdempotent(desc);
    assert Lower(desc) == "" <==> desc == "";
  }

  /** Without a description, or without any keyword in it, only the temperature decides. */
  lemma FallsThrough(temp: Option<real>, desc: Option<string>)
    requires desc.Some? ==> forall j :: 0 <= j < |Rules| ==> !AnyKeyword(Lower(desc.value), Rules[j].keywords)
    ensures WeatherEmoji(temp, desc) == TemperatureSymbol(temp)
  {
    if desc.Some? {
      KeywordChainIsFirstMatch(Lower(desc.value));
    }
  }

  // ---------------------------------------------------------------- current weather card

  /** `current_temp - (current_wind * 0.5)`; a NaN wind speed makes it NaN. */
  function FeelsLike(temp: real, wind: Option<real>): (r: Option<real>)
    ensures r.None? <==> wind.None?
    ensures wind.Some? && wind.value >= 0.0 ==> r.value <= temp
    ensures wind.Some? ==> r.value + wind.value / 2.0 == temp
  {
    if wind.Some? then Some(temp - wind.value * 0.5) else None
  }

  /** A row read with `.get(column, default)`: the default when the table lacks the column. */
  function WindOf(df: LongTable, row: Record): (w: Option<real>)
    ensures WindSpeed !in df.columns ==> w == Some(0.0)
  {
    if WindSpeed in df.columns then row.windSpeed else Some(0.0)
  }

  function DescriptionOf(df: LongTable, row: Record): (d: Option<string>)
    ensures WeatherDesc !in df.columns ==> d == Some("")
  {
    if WeatherDesc in df.columns then row.weatherDesc else Some("")
  }

  /** The figures of the current-weather card. */
  datatype Card = Card(temp: real, tempMin: real, tempMax: real, feelsLike: Option<real>, symbol: string)

  /**
   * The card of the latest row of the selected city (`iloc[-1]` of its rows).
   * The long table has no MinTemperature or MaxTemperature column, so the
   * minimum and maximum always take their defaults, three degrees either side.
   */
  function CurrentCard(df: LongTable, city: City): (r: Option<Card>)
    ensures r.None? <==> forall i :: 0 <= i < |df.rows| ==> df.rows[i].city != city
    ensures r.Some? ==> r.value.tempMin < r.value.temp < r.value.tempMax
    ensures r.Some? ==> r.value.tempMax - r.value.tempMin == 6.0
    ensures r.Some? ==> r.value.symbol in Symbols
    ensures r.Some? ==> var last := df.rows[LastRow(df.rows, city)];
      r.value == Card(last.avgTemperature, last.avgTemperature - 3.0, last.avgTemperature + 3.0,
                      FeelsLike(last.avgTemperature, WindOf(df, last)),
                      WeatherEmoji(Some(last.avgTemperature), DescriptionOf(df, last)))
  {
    var rows := CityRows(df.rows, city);
    if rows == [] then None
    else
      var latest := rows[|rows| - 1];
      CityRowsLast(df.rows, city);
      var temp := latest.avgTemperature;
      Some(Card(temp, temp - 3.0, temp + 3.0, FeelsLike(temp, WindOf(df, latest)),
                WeatherEmoji(Some(temp), DescriptionOf(df, latest))))
  }

  /** A table without a wind-speed column shows the temperature itself as feels-like. */
  lemma NoWindFeelsLikeTemperature(df: LongTable, city: City)
    requires WindSpeed !in df.columns
    ensures var c := CurrentCard(df, city); c.Some? ==> c.value.feelsLike == Some(c.value.temp)
  {
  }

  /** A table without a description column picks the card's symbol from the temperature alone. */
  lemma NoDescriptionUsesLadder(df: LongTable, city: City)
    requires WeatherDesc !in df.columns
    ensures var c := CurrentCard(df, city); c.Some? ==> c.value.symbol == TemperatureSymbol(Some(c.value.temp))
  {
  }
}
