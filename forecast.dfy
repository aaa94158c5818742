/**
 * The heuristic forecaster `train_and_predict`: a recent mean, a 60-day
 * trend, a day-of-year seasonal effect and three gated covariate offsets,
 * producing `periods` future points after the history with a widening band.
 */
module Forecast {
  import opened Wrappers
  import opened Calendar
  import opened Aggregation
  import opened LongForm
  import opened CityData

  /** One row of the result: `ds`, `yhat`, `yhat_lower`, `yhat_upper`. A null prediction is NaN. */
  datatype ForecastPoint = ForecastPoint(ds: Date, yhat: Option<real>, yhatLower: Option<real>, yhatUpper: Option<real>)

  /** The temperatures of the series, in order. */
  function Ys(rows: seq<Obs>): (r: seq<real>)
    ensures |r| == |rows|
  {
    if rows == [] then [] else Ys(rows[..|rows| - 1]) + [rows[|rows| - 1].y]
  }

  lemma {:induction false} YsAt(rows: seq<Obs>)
    ensures forall k :: 0 <= k < |rows| ==> Ys(rows)[k] == rows[k].y
  {
    if rows != [] {
      var n := |rows| - 1;
      YsAt(rows[..n]);
      assert forall k :: 0 <= k < n ==> rows[..n][k] == rows[k];
    }
  }

  /** `tail(n)`: the last `n` elements. */
  function Tail<T>(s: seq<T>, n: nat): seq<T>
    requires n <= |s|
  {
    s[|s| - n..]
  }

  lemma TailAt<T>(s: seq<T>, n: nat)
    requires n <= |s|
    ensures |Tail(s, n)| == n && forall k :: 0 <= k < n ==> Tail(s, n)[k] == s[|s| - n + k]
  {
  }

  /** `min(30, len(model_data))`. */
  function WindowSize(n: nat): (w: nat)
    ensures w <= 30 && w <= n && (w == 30 || w == n)
  {
    if n < 30 then n else 30
  }

  /** The mean of the last `min(30, N)` temperatures. */
  function RecentAvg(ys: seq<real>): real
    requires ys != []
  {
    Mean(Tail(ys, WindowSize(|ys|)))
  }

  /** The mean of positions N-60 .. N-31: `tail(60).head(30)`. */
  function OldAvg(ys: seq<real>): real
    requires |ys| >= 60
  {
    Mean(ys[|ys| - 60..|ys| - 30])
  }

  /** The daily trend: the change between the two last 30-day means over 30 days, 0 with fewer than 60 days. */
  function Trend(ys: seq<real>): (r: real)
    requires ys != []
    ensures |ys| < 60 ==> r == 0.0
  {
    if |ys| >= 60 then (RecentAvg(ys) - OldAvg(ys)) / 30.0 else 0.0
  }

  /** The `day_of_year` column added to the copy of the history. */
  function DayOfYearColumn(rows: seq<Obs>): (r: seq<int>)
    ensures |r| == |rows|
  {
    if rows == [] then [] else DayOfYearColumn(rows[..|rows| - 1]) + [DayOfYear(rows[|rows| - 1].ds)]
  }

  /** Each entry of the column is the day of the year of its row's date. */
  lemma {:induction false} DayOfYearColumnAt(rows: seq<Obs>)
    ensures forall k :: 0 <= k < |rows| ==> DayOfYearColumn(rows)[k] == DayOfYear(rows[k].ds)
  {
    if rows != [] {
      var n := |rows| - 1;
      DayOfYearColumnAt(rows[..n]);
      assert forall k :: 0 <= k < n ==> rows[..n][k] == rows[k];
    }
  }

  /** The temperatures of the rows whose day of the year is `doy`, in order. */
  function OnDay(doys: seq<int>, ys: seq<real>, doy: int): (r: seq<real>)
    requires |doys| == |ys|
    ensures r == [] <==> doy !in doys
  {
    if doys == [] then []
    else
      var rest := OnDay(doys[1..], ys[1..], doy);
      assert doys == [doys[0]] + doys[1..];
      if doys[0] == doy then [ys[0]] + rest else rest
  }

  /** Every temperature grouped under a day of the year is one of the history's. */
  lemma {:induction false} OnDayMembers(doys: seq<int>, ys: seq<real>, doy: int)
    requires |doys| == |ys|
    ensures forall j :: 0 <= j < |OnDay(doys, ys, doy)| ==> OnDay(doys, ys, doy)[j] in ys
  {
    if doys != [] {
      OnDayMembers(doys[1..], ys[1..], doy);
      assert forall j :: 0 <= j < |ys[1..]| ==> ys[1..][j] in ys;
    }
  }

  /**
   * `groupby("day_of_year")["y"].mean()`: one entry per day of the year
   * present in the history, built key by key.
   */
  function SeasonalTable(doys: seq<int>, ys: seq<real>): map<int, real>
    requires |doys| == |ys|
  {
    SeasonalFrom(doys, doys, ys)
  }

  function SeasonalFrom(keys: seq<int>, doys: seq<int>, ys: seq<real>): map<int, real>
    requires |doys| == |ys| && forall k :: k in keys ==> k in doys
  {
    if keys == [] then map[] else SeasonalFrom(keys[1..], doys, ys)[keys[0] := Mean(OnDay(doys, ys, keys[0]))]
  }

  lemma {:induction false} SeasonalFromKeys(keys: seq<int>, doys: seq<int>, ys: seq<real>)
    requires |doys| == |ys| && forall k :: k in keys ==> k in doys
    ensures forall doy :: doy in SeasonalFrom(keys, doys, ys) <==> doy in keys
  {
    if keys != [] {
      SeasonalFromKeys(keys[1..], doys, ys);
    }
  }

  /** The seasonal table has an entry for exactly the days of the year present in the history. */
  lemma SeasonalTableKeys(doys: seq<int>, ys: seq<real>)
    requires |doys| == |ys|
    ensures forall doy :: doy in SeasonalTable(doys, ys) <==> doy in doys
  {
    SeasonalFromKeys(doys, doys, ys);
  }

  /** The entry of a day of the year is the mean temperature of the history rows falling on it. */
  lemma {:induction false} SeasonalFromAt(keys: seq<int>, doys: seq<int>, ys: seq<real>, doy: int)
    requires |doys| == |ys| && (forall k :: k in keys ==> k in doys) && doy in keys
    ensures doy in SeasonalFrom(keys, doys, ys) && SeasonalFrom(keys, doys, ys)[doy] == Mean(OnDay(doys, ys, doy))
  {
    if keys[0] != doy {
      SeasonalFromAt(keys[1..], doys, ys, doy);
    }
  }

  lemma SeasonalTableAt(doys: seq<int>, ys: seq<real>, doy: int)
    requires |doys| == |ys| && doy in doys
    ensures doy in SeasonalTable(doys, ys) && SeasonalTable(doys, ys)[doy] == Mean(OnDay(doys, ys, doy))
    ensures OnDay(doys, ys, doy) != []
  {
    SeasonalFromAt(doys, doys, ys, doy);
  }

  /** The non-null values of a column, in order: their number is `notna().sum()`. */
  function NonNull(col: seq<Option<real>>): (r: seq<real>)
    ensures |r| <= |col|
  {
    if col == [] then []
    else
      var rest := NonNull(col[1..]);
      if col[0].Some? then [col[0].value] + rest else rest
  }

  /** The non-null values are exactly the values of the column's present cells. */
  lemma {:induction false} NonNullSpec(col: seq<Option<real>>)
    ensures NonNull(col) == [] <==> forall k :: 0 <= k < |col| ==> col[k].None?
    ensures forall j :: 0 <= j < |NonNull(col)| ==> Some(NonNull(col)[j]) in col
  {
    if col != [] {
      NonNullSpec(col[1..]);
      assert forall k :: 0 <= k < |col[1..]| ==> col[1..][k] == col[k + 1];
    }
  }

  /**
   * A covariate offset: 0 unless the column exists with more than 30 non-null
   * values; then `coef` times the distance of its recent (window) mean from its
   * overall mean. The recent mean is NaN when the window holds no value.
   */
  function Factor(present: bool, col: seq<Option<real>>, window: nat, coef: real): Option<real>
    requires window <= |col|
  {
    if present && |NonNull(col)| > 30 then
      var recent := NonNull(Tail(col, window));
      if recent == [] then None else Some((Mean(recent) - Mean(NonNull(col))) * coef)
    else Some(0.0)
  }

  /**
   * A covariate counts only when its column exists with more than 30 values;
   * it is then NaN exactly when the window holds none of them.
   */
  lemma FactorGate(present: bool, col: seq<Option<real>>, window: nat, coef: real)
    requires window <= |col|
    ensures !(present && |NonNull(col)| > 30) ==> Factor(present, col, window, coef) == Some(0.0)
    ensures present && |NonNull(col)| > 30 ==>
      (Factor(present, col, window, coef).None? <==> forall k :: |col| - window <= k < |col| ==> col[k].None?)
  {
    var tail := Tail(col, window);
    NonNullSpec(tail);
    TailAt(col, window);
    assert forall k :: |col| - window <= k < |col| ==> col[k] == tail[k - (|col| - window)];
  }

  function HumidityColumn(rows: seq<Obs>): (r: seq<Option<real>>)
    ensures |r| == |rows|
  {
    seq(|rows|, k requires 0 <= k < |rows| => rows[k].humidity)
  }

  function PressureColumn(rows: seq<Obs>): (r: seq<Option<real>>)
    ensures |r| == |rows|
  {
    seq(|rows|, k requires 0 <= k < |rows| => rows[k].pressure)
  }

  function WindSpeedColumn(rows: seq<Obs>): (r: seq<Option<real>>)
    ensures |r| == |rows|
  {
    seq(|rows|, k requires 0 <= k < |rows| => rows[k].windSpeed)
  }

  /** NaN-propagating addition. */
  function Plus(a: Option<real>, b: Option<real>): (r: Option<real>)
    ensures r.Some? <==> a.Some? && b.Some?
  {
    if a.Some? && b.Some? then Some(a.value + b.value) else None
  }

  /** `humidity_factor + pressure_factor + wind_factor`. */
  function Offsets(s: Series): Option<real> {
    var w := WindowSize(|s.rows|);
    Plus(Plus(Factor(Humidity in s.columns, HumidityColumn(s.rows), w, 0.015),
              Factor(Pressure in s.columns, PressureColumn(s.rows), w, 0.008)),
         Factor(WindSpeed in s.columns, WindSpeedColumn(s.rows), w, 0.1))
  }

  /** `model_data["ds"].max()`. */
  function MaxDs(rows: seq<Obs>): Date
    requires rows != []
  {
    if |rows| == 1 then rows[0].ds
    else
      var m := MaxDs(rows[1..]);
      if rows[0].ds >= m then rows[0].ds else m
  }

  /** The last date is the date of some row and no row is later. */
  lemma {:induction false} MaxDsIsMax(rows: seq<Obs>)
    requires rows != []
    ensures exists k :: 0 <= k < |rows| && rows[k].ds == MaxDs(rows)
    ensures forall k :: 0 <= k < |rows| ==> rows[k].ds <= MaxDs(rows)
  {
    if |rows| > 1 {
      MaxDsIsMax(rows[1..]);
      assert forall k :: 1 <= k < |rows| ==> rows[k] == rows[1..][k - 1];
      if rows[0].ds < MaxDs(rows[1..]) {
        var j :| 0 <= j < |rows[1..]| && rows[1..][j].ds == MaxDs(rows[1..]);
        assert rows[j + 1].ds == MaxDs(rows);
      } else {
        assert rows[0].ds == MaxDs(rows);
      }
    } else {
      assert rows[0].ds == MaxDs(rows);
    }
  }

  /** The seasonal adjustment: applied only when the target day of the year occurs in the history. */
  function Seasonal(base: real, seasonal: map<int, real>, overall: real, doy: int): real {
    if doy in seasonal then base + (seasonal[doy] - overall) * 0.6 else base
  }

  /** What the forecaster derives from the history before its loop. */
  datatype Fitted = Fitted(
    recentAvg: real, trend: real, seasonalEffect: map<int, real>, overallMean: real,
    offsets: Option<real>, lastDate: Date)

  function Fit(s: Series): Fitted
    requires s.rows != []
  {
    var ys := Ys(s.rows);
    Fitted(RecentAvg(ys), Trend(ys), SeasonalTable(DayOfYearColumn(s.rows), ys), Mean(ys), Offsets(s), MaxDs(s.rows))
  }

  /** `base_pred` of future step `i` (0-based): the recent mean carried on by the trend for `i + 1` days. */
  function BasePrediction(m: Fitted, i: nat): real {
    m.recentAvg + m.trend * (i + 1) as real
  }

  /** The prediction for future step `i` on a day whose day of the year is `doy`. */
  function PredictOn(m: Fitted, i: nat, doy: int): Option<real> {
    Plus(Some(Seasonal(BasePrediction(m, i), m.seasonalEffect, m.overallMean, doy)), m.offsets)
  }

  /** The prediction for future step `i`, on day `lastDate + i + 1`. */
  function Predict(m: Fitted, i: nat): Option<real> {
    PredictOn(m, i, DayOfYear(m.lastDate + i + 1))
  }

  function Prediction(s: Series, i: nat): Option<real>
    requires s.rows != []
  {
    Predict(Fit(s), i)
  }

  /** The uncertainty of future step `i`: `2 + i * 0.5`. */
  function HalfWidth(i: nat): (w: real)
    ensures w >= 2.0
  {
    2.0 + i as real * 0.5
  }

  /** A history row echoed with its own temperature as prediction and both bounds. */
  function Echo(o: Obs): ForecastPoint {
    ForecastPoint(o.ds, Some(o.y), Some(o.y), Some(o.y))
  }

  /** A future row: the prediction and the band `pred -/+ uncertainty`. */
  function Future(ds: Date, pred: Option<real>, u: real): ForecastPoint {
    if pred.Some? then ForecastPoint(ds, pred, Some(pred.value - u), Some(pred.value + u))
    else ForecastPoint(ds, None, None, None)
  }

  /** The future point of step `i`. */
  function FuturePoint(s: Series, i: nat): ForecastPoint
    requires s.rows != []
  {
    Future(MaxDs(s.rows) + i + 1, Prediction(s, i), HalfWidth(i))
  }

  /** The statistics `train_and_predict` computes from the history before its loop. */
  method FitHistory(s: Series) returns (m: Fitted)
    requires s.rows != []
    ensures m == Fit(s)
  {
    var ys := Ys(s.rows);
    var window := WindowSize(|ys|);
    var recentAvg := Mean(Tail(ys, window));
    var trend := 0.0;
    if |ys| >= 60 {
      var oldAvg := Mean(ys[|ys| - 60..|ys| - 30]);
      trend := (recentAvg - oldAvg) / 30.0;
    }
    var seasonalEffect := SeasonalTable(DayOfYearColumn(s.rows), ys);
    var overallMean := Mean(ys);
    var humidityFactor := Factor(Humidity in s.columns, HumidityColumn(s.rows), window, 0.015);
    var pressureFactor := Factor(Pressure in s.columns, PressureColumn(s.rows), window, 0.008);
    var windFactor := Factor(WindSpeed in s.columns, WindSpeedColumn(s.rows), window, 0.1);
    var lastDate := MaxDs(s.rows);
    m := Fitted(recentAvg, trend, seasonalEffect, overallMean,
                Plus(Plus(humidityFactor, pressureFactor), windFactor), lastDate);
  }

  /** The forecasting loop: one prediction and one uncertainty per future step. */
  method Extrapolate(m: Fitted, periods: nat) returns (predictions: seq<Option<real>>, uncertainties: seq<real>)
    ensures |predictions| == periods && |uncertainties| == periods
    ensures forall k :: 0 <= k < periods ==> predictions[k] == Predict(m, k) && uncertainties[k] == HalfWidth(k)
  {
    predictions := [];
    uncertainties := [];
    for i := 0 to periods
      invariant |predictions| == i && |uncertainties| == i
      invariant forall k :: 0 <= k < i ==> predictions[k] == Predict(m, k) && uncertainties[k] == HalfWidth(k)
    {
      var dayOfYear := DayOfYear(m.lastDate + i + 1);
      var basePred := m.recentAvg + m.trend * (i + 1) as real;
      assert basePred == BasePrediction(m, i);
      var pred := basePred;
      if dayOfYear in m.seasonalEffect {
        var seasonalAdj := m.seasonalEffect[dayOfYear] - m.overallMean;
        pred := basePred + seasonalAdj * 0.6;
      }
      assert Plus(Some(pred), m.offsets) == PredictOn(m, i, dayOfYear);
      predictions := predictions + [Plus(Some(pred), m.offsets)];
      uncertainties := uncertainties + [2.0 + i as real * 0.5];
    }
  }

  /**
   * `train_and_predict`: the history echoed row by row, then one point per
   * future day. An empty history has no last date: `date_range` raises.
   */
  method TrainAndPredict(s: Series, periods: nat) returns (r: Result<seq<ForecastPoint>>)
    ensures r.Err? <==> s.rows == []
    ensures r.Err? ==> r.failure == EmptySeries
    ensures r.Ok? ==> |r.value| == |s.rows| + periods
    ensures r.Ok? ==> forall k :: 0 <= k < |s.rows| ==> r.value[k] == Echo(s.rows[k])
    ensures r.Ok? ==> forall i :: 0 <= i < periods ==> r.value[|s.rows| + i] == FuturePoint(s, i)
  {
    if s.rows == [] {
      return Err(EmptySeries);
    }
    var m := FitHistory(s);
    var predictions, uncertainties := Extrapolate(m, periods);
    var history := seq(|s.rows|, k requires 0 <= k < |s.rows| => Echo(s.rows[k]));
    var future := seq(periods, i requires 0 <= i < periods => Future(m.lastDate + i + 1, predictions[i], uncertainties[i]));
    r := Ok(history + future);
    forall i | 0 <= i < periods
      ensures r.value[|s.rows| + i] == FuturePoint(s, i)
    {
      assert r.value[|s.rows| + i] == Future(m.lastDate + i + 1, Predict(m, i), HalfWidth(i));
      FuturePointOf(s, m, i);
    }
  }

  lemma FuturePointOf(s: Series, m: Fitted, i: nat)
    requires s.rows != [] && m == Fit(s)
    ensures FuturePoint(s, i) == Future(m.lastDate + i + 1, Predict(m, i), HalfWidth(i))
  {
  }

  // ---------------------------------------------------------------- properties

  /**
   * Every future point lies on the day after the previous one, starting the
   * day after the last date of the history, and has yhat_lower < yhat <
   * yhat_upper with a band of full width 4 + i; a NaN prediction has NaN bounds.
   */
  lemma FutureBand(s: Series, i: nat)
    requires s.rows != []
    ensures var p := FuturePoint(s, i);
      && p.ds == MaxDs(s.rows) + i + 1
      && (p.yhat.None? <==> p.yhatLower.None?) && (p.yhat.None? <==> p.yhatUpper.None?)
      && (p.yhat.Some? ==> p.yhatLower.value < p.yhat.value < p.yhatUpper.value)
      && (p.yhat.Some? ==> p.yhatUpper.value - p.yhatLower.value == 4.0 + i as real)
  {
  }

  /** The band widens strictly with every step. */
  lemma BandWidens(i: nat, j: nat)
    requires i < j
    ensures HalfWidth(i) < HalfWidth(j)
  {
  }

  /** For the seven days of the application the half-widths are 2, 2.5, ..., 5. */
  lemma SevenDayHalfWidths()
    ensures seq(7, i requires 0 <= i < 7 => HalfWidth(i)) == [2.0, 2.5, 3.0, 3.5, 4.0, 4.5, 5.0]
  {
  }

  /** A target day of the year absent from the history gets no seasonal adjustment. */
  lemma NoSeasonWithoutHistory(s: Series, i: nat)
    requires s.rows != []
    requires DayOfYear(MaxDs(s.rows) + i + 1) !in DayOfYearColumn(s.rows)
    ensures var m := Fit(s); Prediction(s, i) == Plus(Some(BasePrediction(m, i)), m.offsets)
  {
    var m := Fit(s);
    var doy := DayOfYear(MaxDs(s.rows) + i + 1);
    SeasonalTableKeys(DayOfYearColumn(s.rows), Ys(s.rows));
    assert m.seasonalEffect == SeasonalTable(DayOfYearColumn(s.rows), Ys(s.rows));
    assert Prediction(s, i) == PredictOn(m, i, doy);
    UnseasonedPrediction(m, i, doy);
  }

  lemma UnseasonedPrediction(m: Fitted, i: nat, doy: int)
    requires doy !in m.seasonalEffect
    ensures PredictOn(m, i, doy) == Plus(Some(BasePrediction(m, i)), m.offsets)
  {
    assert Seasonal(BasePrediction(m, i), m.seasonalEffect, m.overallMean, doy) == BasePrediction(m, i);
  }

  lemma MeanOfConstant(xs: seq<real>, v: real, ys: seq<real>)
    requires xs != [] && forall j :: 0 <= j < |xs| ==> xs[j] in ys
    requires forall k :: 0 <= k < |ys| ==> ys[k] == v
    ensures Mean(xs) == v
  {
    MeanConstant(xs, v);
  }

  /** A fitted model whose means are all `v`, without trend or offsets, predicts `v`. */
  lemma ConstantFitted(m: Fitted, v: real, i: nat, doy: int)
    requires m.recentAvg == v && m.trend == 0.0 && m.overallMean == v && m.offsets == Some(0.0)
    requires forall doy :: doy in m.seasonalEffect ==> m.seasonalEffect[doy] == v
    ensures PredictOn(m, i, doy) == Some(v)
  {
    assert m.trend * (i + 1) as real == 0.0;
    assert Seasonal(v, m.seasonalEffect, v, doy) == v;
  }

  lemma ConstantTrend(ys: seq<real>, v: real)
    requires ys != [] && forall k :: 0 <= k < |ys| ==> ys[k] == v
    ensures RecentAvg(ys) == v && Trend(ys) == 0.0 && Mean(ys) == v
  {
    TailAt(ys, WindowSize(|ys|));
    MeanOfConstant(Tail(ys, WindowSize(|ys|)), v, ys);
    MeanOfConstant(ys, v, ys);
    if |ys| >= 60 {
      var earlier := ys[|ys| - 60..|ys| - 30];
      assert forall j :: 0 <= j < |earlier| ==> earlier[j] == ys[|ys| - 60 + j];
      MeanOfConstant(earlier, v, ys);
    }
  }

  lemma ConstantSeasons(doys: seq<int>, ys: seq<real>, v: real)
    requires |doys| == |ys| && forall k :: 0 <= k < |ys| ==> ys[k] == v
    ensures forall doy :: doy in SeasonalTable(doys, ys) ==> SeasonalTable(doys, ys)[doy] == v
  {
    forall doy | doy in SeasonalTable(doys, ys) ensures SeasonalTable(doys, ys)[doy] == v {
      SeasonalTableKeys(doys, ys);
      SeasonalTableAt(doys, ys, doy);
      OnDayMembers(doys, ys, doy);
      MeanOfConstant(OnDay(doys, ys, doy), v, ys);
    }
  }

  /** Without humidity, pressure and wind speed columns every offset is 0. */
  lemma NoCovariates(s: Series)
    requires Humidity !in s.columns && Pressure !in s.columns && WindSpeed !in s.columns
    ensures Offsets(s) == Some(0.0)
  {
  }

  /**
   * A series whose temperature is always `v`, without humidity, pressure or
   * wind speed columns, forecasts exactly `v` on every future day: the trend
   * vanishes, each seasonal mean equals the overall mean, and every offset is 0.
   */
  lemma ConstantSeries(s: Series, v: real, i: nat)
    requires s.rows != []
    requires forall k :: 0 <= k < |s.rows| ==> s.rows[k].y == v
    requires Humidity !in s.columns && Pressure !in s.columns && WindSpeed !in s.columns
    ensures Prediction(s, i) == Some(v)
  {
    ConstantFit(s, v);
    var m := Fit(s);
    assert Prediction(s, i) == PredictOn(m, i, DayOfYear(m.lastDate + i + 1));
    ConstantFitted(m, v, i, DayOfYear(m.lastDate + i + 1));
  }

  /** The statistics fitted to such a series. */
  lemma ConstantFit(s: Series, v: real)
    requires s.rows != []
    requires forall k :: 0 <= k < |s.rows| ==> s.rows[k].y == v
    requires Humidity !in s.columns && Pressure !in s.columns && WindSpeed !in s.columns
    ensures var m := Fit(s);
      && m.recentAvg == v && m.trend == 0.0 && m.overallMean == v && m.offsets == Some(0.0)
      && forall doy :: doy in m.seasonalEffect ==> m.seasonalEffect[doy] == v
  {
    var ys := Ys(s.rows);
    YsAt(s.rows);
    ConstantTrend(ys, v);
    ConstantSeasons(DayOfYearColumn(s.rows), ys, v);
    NoCovariates(s);
  }
}
