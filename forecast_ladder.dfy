/** `forecast_series` (analysis/forecast.py): the degradation ladder that
    forecasts one series. The two ARIMA fits are a foreign estimator and are
    taken as an oracle; everything around them is modelled exactly. */
module ForecastLadder {
  import opened Outcomes
  import opened ForecastIndex
  import opened ForecastTrend

  /** An ARIMA order `(p, d, q)`. */
  datatype Order = Order(p: nat, d: nat, q: nat)

  /** The default order of `forecast_series`. */
  const DefaultOrder := Order(2, 1, 2)

  /** The default forecast horizon, `forecast_years=10`. */
  const DefaultHorizon: nat := 10

  /** The iteration budget of the Nelder-Mead retry. */
  const NelderMeadIterations: nat := 500

  /** How the ARIMA model is fitted: statsmodels' default optimiser, or
      Nelder-Mead with an iteration budget. */
  datatype FitMethod = DefaultMethod | NelderMead(maxiter: nat)

  /** What one fit-and-forecast attempt produces: an exception, or the
      predicted mean together with the years of its period index. */
  datatype FitOutcome = FitFailed | Fitted(years: seq<int>, mean: seq<Float>)

  /** The ARIMA estimator, fitted to the given years and values and asked for
      the given number of steps. */
  type Arima = (Order, FitMethod, seq<int>, seq<real>, nat) -> FitOutcome

  /** The behaviour the ladder relies on: a successful fit forecasts `steps`
      values for the years right after the last observed year. This is an
      assumption about the estimator, used only as a lemma hypothesis. */
  ghost predicate ContinuesYears(arima: Arima)
  {
    forall o: Order, m: FitMethod, ys: seq<int>, vs: seq<real>, steps: nat ::
      |ys| > 0 && |ys| == |vs| && arima(o, m, ys, vs, steps).Fitted? ==>
        |arima(o, m, ys, vs, steps).years| == steps &&
        |arima(o, m, ys, vs, steps).mean| == steps &&
        forall k :: 0 <= k < steps ==> arima(o, m, ys, vs, steps).years[k] == ys[|ys| - 1] + 1 + k
  }

  /** A pandas series: an index and one cell per index entry. */
  datatype Series = Series(index: Index, values: seq<Cell>)

  predicate WellFormed(s: Series)
  {
    Length(s.index) == |s.values|
  }

  /** The entries of `xs` at the positions where `cells` is not NULL. */
  function KeepPresent<T>(xs: seq<T>, cells: seq<Cell>): (r: seq<T>)
    requires |xs| == |cells|
    ensures |r| <= |xs|
    ensures (forall i :: 0 <= i < |cells| ==> !cells[i].Null?) ==> r == xs
    ensures (forall i :: 0 <= i < |cells| ==> cells[i].Null?) ==> r == []
  {
    if xs == [] then []
    else if cells[0].Null? then KeepPresent(xs[1..], cells[1..])
    else [xs[0]] + KeepPresent(xs[1..], cells[1..])
  }

  /** `series.dropna()`: the entries whose value is NULL (NaN) are removed
      from the values and the index alike. */
  function DropNa(s: Series): (r: Series)
    requires WellFormed(s)
    ensures WellFormed(r) && |r.values| <= |s.values|
    ensures (forall i :: 0 <= i < |s.values| ==> !s.values[i].Null?) ==> r == s
  {
    var vs := KeepPresent(s.values, s.values);
    match s.index
    case PeriodIndex(ys, f) =>
      SameKeptLength(ys, s.values, s.values);
      Series(PeriodIndex(KeepPresent(ys, s.values), f), vs)
    case DatetimeIndex(ys) =>
      SameKeptLength(ys, s.values, s.values);
      Series(DatetimeIndex(KeepPresent(ys, s.values)), vs)
    case PlainIndex(ls) =>
      SameKeptLength(ls, s.values, s.values);
      Series(PlainIndex(KeepPresent(ls, s.values)), vs)
  }

  lemma {:induction false} SameKeptLength<T, U>(xs: seq<T>, ys: seq<U>, cells: seq<Cell>)
    requires |xs| == |ys| == |cells|
    ensures |KeepPresent(xs, cells)| == |KeepPresent(ys, cells)|
  {
    if xs != [] {
      SameKeptLength(xs[1..], ys[1..], cells[1..]);
    }
  }

  /** After `dropna` no value is NULL; a series without NULLs is kept whole,
      and one with only NULLs becomes empty. */
  lemma {:induction false} KeepPresentDropsNulls(cells: seq<Cell>)
    ensures forall i :: 0 <= i < |KeepPresent(cells, cells)| ==> !KeepPresent(cells, cells)[i].Null?
    ensures (forall i :: 0 <= i < |cells| ==> !cells[i].Null?) ==> KeepPresent(cells, cells) == cells
    ensures (exists i :: 0 <= i < |cells| && !cells[i].Null?) ==> |KeepPresent(cells, cells)| > 0
    ensures (forall i :: 0 <= i < |cells| ==> cells[i].Null?) ==> KeepPresent(cells, cells) == []
    ensures forall c :: c in KeepPresent(cells, cells) ==> c in cells
  {
    if cells != [] {
      KeepPresentDropsNulls(cells[1..]);
      if (exists i :: 0 <= i < |cells| && !cells[i].Null?) && cells[0].Null? {
        var i :| 0 <= i < |cells| && !cells[i].Null?;
        assert !cells[1..][i - 1].Null?;
      }
    }
  }

  /** Integer labels for a list of years. */
  function IntLabels(years: seq<int>): (ls: seq<Label>)
    ensures |ls| == |years| && CastAll(ls) == Some(years)
  {
    var ls := seq(|years|, i requires 0 <= i < |years| => IntLabel(years[i]));
    assert forall i :: 0 <= i < |ls| ==> CastLabel(ls[i]) == Some(years[i]);
    CastAllOfInts(ls, years);
    ls
  }

  lemma {:induction false} CastAllOfInts(ls: seq<Label>, years: seq<int>)
    requires |ls| == |years| && forall i :: 0 <= i < |ls| ==> CastLabel(ls[i]) == Some(years[i])
    ensures CastAll(ls) == Some(years)
  {
    if ls != [] {
      CastAllOfInts(ls[1..], years[1..]);
      assert years == [years[0]] + years[1..];
    }
  }

  /** `pd.Series(mean, index=years)` built from a successful fit; pandas
      raises when the two lengths differ. */
  function FitPoints(o: FitOutcome): (r: Option<seq<Point>>)
    ensures r.Some? <==> o.Fitted? && |o.years| == |o.mean|
    ensures r.Some? ==> |r.value| == |o.mean|
    ensures r.Some? ==> forall k :: 0 <= k < |o.mean| ==> r.value[k] == Point(Some(o.years[k]), o.mean[k])
  {
    match o
    case FitFailed => None
    case Fitted(ys, m) =>
      if |ys| == |m| then Some(seq(|m|, k requires 0 <= k < |m| => Point(Some(ys[k]), m[k]))) else None
  }

  /** One ARIMA rung: the model cannot be built on text values; otherwise the
      estimator decides. None stands for any exception in the rung. */
  function TryArima(arima: Arima, order: Order, fit: FitMethod, years: seq<int>, cells: seq<Cell>, steps: nat)
    : (r: Option<seq<Point>>)
    requires |years| == |cells|
    requires forall i :: 0 <= i < |cells| ==> !cells[i].Null?
    ensures (exists i :: 0 <= i < |cells| && cells[i].Text?) ==> r.None?
    ensures r.Some? ==>
              AllNumbers(cells) && arima(order, fit, years, Numbers(cells), steps).Fitted? &&
              |r.value| == |arima(order, fit, years, Numbers(cells), steps).mean|
  {
    if exists i :: 0 <= i < |cells| && cells[i].Text? then None
    else FitPoints(arima(order, fit, years, Numbers(cells), steps))
  }

  /** The last rung: `float(values[-1])` repeated after the last year; it
      raises when that value is text. */
  function RepeatLast(cells: seq<Cell>, lastYear: int, steps: nat): (r: Result<seq<Point>, string>)
    requires |cells| > 0 && !Last(cells).Null?
    ensures r.Err? <==> Last(cells).Text?
    ensures r.Ok? ==> r.value == Repeat(ToFloat(Last(cells)), lastYear, steps)
  {
    var c := Last(cells);
    if c.Text? then Err(FloatConversionError(c.t)) else Ok(Repeat(ToFloat(c), lastYear, steps))
  }

  /** The years the ladder works with: the index of the series after
      `dropna` and `_ensure_year_period_index`. */
  function KeptYears(series: Series): (ys: seq<int>)
    requires WellFormed(series)
    ensures |ys| == |DropNa(series).values|
  {
    NormaliseIndex(DropNa(series).index).years
  }

  /** The values the ladder works with: those left by `dropna`. */
  function Kept(series: Series): (cs: seq<Cell>)
    requires WellFormed(series)
    ensures forall i :: 0 <= i < |cs| ==> !cs[i].Null?
    ensures |cs| == 0 <==> forall i :: 0 <= i < |series.values| ==> series.values[i].Null?
  {
    KeepPresentDropsNulls(series.values);
    DropNa(series).values
  }

  /** The first rung: the relaxed ARIMA fit with the default optimiser. */
  function PrimaryFit(series: Series, steps: nat, order: Order, arima: Arima): (r: Option<seq<Point>>)
    requires WellFormed(series)
    ensures r.Some? ==>
              AllNumbers(Kept(series)) &&
              arima(order, DefaultMethod, KeptYears(series), Numbers(Kept(series)), steps).Fitted?
  {
    TryArima(arima, order, DefaultMethod, KeptYears(series), Kept(series), steps)
  }

  /** The second rung: the same model fitted by Nelder-Mead. */
  function RetryFit(series: Series, steps: nat, order: Order, arima: Arima): (r: Option<seq<Point>>)
    requires WellFormed(series)
    ensures r.Some? ==>
              AllNumbers(Kept(series)) &&
              arima(order, NelderMead(NelderMeadIterations), KeptYears(series), Numbers(Kept(series)), steps).Fitted?
  {
    TryArima(arima, order, NelderMead(NelderMeadIterations), KeptYears(series), Kept(series), steps)
  }

  /** `forecast_series(series, steps, order)`. The rungs are tried in order
      and the first that succeeds gives the result. Estimation failures never
      escape: the only exception left is the one `float()` raises in the last
      rung, when the last value is text. */
  function ForecastSeries(series: Series, steps: nat, order: Order, arima: Arima): (r: Result<seq<Point>, string>)
    requires WellFormed(series)
    ensures r.Err? <==> |Kept(series)| > 0 && Last(Kept(series)).Text?
    ensures r.Err? ==> r.error == FloatConversionError(Last(Kept(series)).t)
    ensures |Kept(series)| == 0 ==> r == Ok(Undated(steps))
  {
    var cells := Kept(series);
    if |cells| == 0 then Ok(Undated(steps))
    else
      var years := KeptYears(series);
      var primary := PrimaryFit(series, steps, order, arima);
      if primary.Some? then
        assert !Last(cells).Text?;
        Ok(primary.value)
      else
        var retry := RetryFit(series, steps, order, arima);
        if retry.Some? then
          assert !Last(cells).Text?;
          Ok(retry.value)
        else
          match LinearTrendForecast(IntLabels(years), cells, steps)
          case Ok(f) =>
            assert !Last(cells).Text?;
            Ok(f)
          case Err(_) => RepeatLast(cells, Last(years), steps)
  }

  /** A text value that `float()` rejects defeats both fits and the linear
      trend; when the last kept value is not text, the last rung repeats it
      after the last kept year. */
  lemma TextFallsToLastValue(series: Series, steps: nat, order: Order, arima: Arima)
    requires WellFormed(series)
    requires exists i :: 0 <= i < |Kept(series)| && Kept(series)[i].Text?
    requires !Last(Kept(series)).Text?
    ensures ForecastSeries(series, steps, order, arima) ==
      Ok(Repeat(ToFloat(Last(Kept(series))), Last(KeptYears(series)), steps))
  {
    var cells, years := Kept(series), KeptYears(series);
    assert PrimaryFit(series, steps, order, arima).None?;
    assert RetryFit(series, steps, order, arima).None?;
    assert LinearTrendForecast(IntLabels(years), cells, steps).Err?;
  }

  /** A series without text values never makes `forecast_series` raise:
      every estimation failure is absorbed by a later rung. */
  lemma NoTextNeverRaises(series: Series, steps: nat, order: Order, arima: Arima)
    requires WellFormed(series)
    requires forall i :: 0 <= i < |series.values| ==> !series.values[i].Text?
    ensures ForecastSeries(series, steps, order, arima).Ok?
  {
    KeepPresentDropsNulls(series.values);
    var cells := Kept(series);
    if |cells| > 0 {
      assert Last(cells) in series.values;
    }
  }

  /** A series with no value left after `dropna` gives `steps` NaNs on a
      `None` index whatever the estimator would do: no fit is attempted. */
  lemma AllMissingNeedsNoFit(series: Series, steps: nat, order: Order, arima: Arima, other: Arima)
    requires WellFormed(series)
    requires forall i :: 0 <= i < |series.values| ==> series.values[i].Null?
    ensures ForecastSeries(series, steps, order, arima) == Ok(Undated(steps))
    ensures ForecastSeries(series, steps, order, arima) == ForecastSeries(series, steps, order, other)
  {
  }

  /** When the relaxed fit succeeds its forecast is returned, and nothing the
      estimator would do on a later rung can change that. */
  lemma PrimarySuccessIsFinal(series: Series, steps: nat, order: Order, arima: Arima, other: Arima)
    requires WellFormed(series) && |Kept(series)| > 0
    requires PrimaryFit(series, steps, order, arima).Some?
    requires PrimaryFit(series, steps, order, other) == PrimaryFit(series, steps, order, arima)
    ensures ForecastSeries(series, steps, order, arima) == Ok(PrimaryFit(series, steps, order, arima).value)
    ensures ForecastSeries(series, steps, order, other) == ForecastSeries(series, steps, order, arima)
  {
  }

  /** When only the Nelder-Mead retry succeeds its forecast is returned, and
      the linear trend is never consulted. */
  lemma RetrySuccessIsFinal(series: Series, steps: nat, order: Order, arima: Arima, other: Arima)
    requires WellFormed(series) && |Kept(series)| > 0
    requires PrimaryFit(series, steps, order, arima).None? && PrimaryFit(series, steps, order, other).None?
    requires RetryFit(series, steps, order, arima).Some?
    requires RetryFit(series, steps, order, other) == RetryFit(series, steps, order, arima)
    ensures ForecastSeries(series, steps, order, arima) == Ok(RetryFit(series, steps, order, arima).value)
    ensures ForecastSeries(series, steps, order, other) == ForecastSeries(series, steps, order, arima)
  {
  }

  /** When both fits fail on numeric data the linear trend is the answer. */
  lemma TrendAfterBothFitsFail(series: Series, steps: nat, order: Order, arima: Arima)
    requires WellFormed(series) && |Kept(series)| > 0
    requires forall i :: 0 <= i < |series.values| ==> !series.values[i].Text?
    requires PrimaryFit(series, steps, order, arima).None? && RetryFit(series, steps, order, arima).None?
    ensures ForecastSeries(series, steps, order, arima) == LinearTrendForecast(IntLabels(KeptYears(series)), Kept(series), steps)
  {
    KeepPresentDropsNulls(series.values);
    var cells := Kept(series);
    assert forall i :: 0 <= i < |cells| ==> cells[i] in series.values;
  }

  /** If the estimator continues the years it is given, every rung yields
      `steps` points dated `last + 1 .. last + steps`, where `last` is the
      last year of the normalised index. */
  lemma LadderShape(series: Series, steps: nat, order: Order, arima: Arima)
    requires WellFormed(series) && |Kept(series)| > 0
    requires ContinuesYears(arima)
    requires ForecastSeries(series, steps, order, arima).Ok?
    ensures |ForecastSeries(series, steps, order, arima).value| == steps
    ensures forall k :: 0 <= k < steps ==>
      ForecastSeries(series, steps, order, arima).value[k].year == Some(Last(KeptYears(series)) + 1 + k)
  {
    var cells, years := Kept(series), KeptYears(series);
    if PrimaryFit(series, steps, order, arima).Some? {
      FitShape(arima, order, DefaultMethod, years, cells, steps);
    } else if RetryFit(series, steps, order, arima).Some? {
      FitShape(arima, order, NelderMead(NelderMeadIterations), years, cells, steps);
    } else {
      FallbackShape(years, cells, steps);
    }
  }

  /** The two rungs after the fits date their points after the last year. */
  lemma FallbackShape(years: seq<int>, cells: seq<Cell>, steps: nat)
    requires |years| == |cells| > 0 && !Last(cells).Null?
    ensures LinearTrendForecast(IntLabels(years), cells, steps).Ok? ==>
      |LinearTrendForecast(IntLabels(years), cells, steps).value| == steps &&
      forall k :: 0 <= k < steps ==> LinearTrendForecast(IntLabels(years), cells, steps).value[k].year == Some(Last(years) + 1 + k)
    ensures RepeatLast(cells, Last(years), steps).Ok? ==>
      |RepeatLast(cells, Last(years), steps).value| == steps &&
      forall k :: 0 <= k < steps ==> RepeatLast(cells, Last(years), steps).value[k].year == Some(Last(years) + 1 + k)
  {
    assert TrendYears(IntLabels(years)) == years;
    TrendShape(IntLabels(years), cells, steps, Last(years));
  }

  /** The linear trend of a non-empty series continues after its last year. */
  lemma TrendShape(labels: seq<Label>, cells: seq<Cell>, steps: nat, last: int)
    requires |labels| == |cells| > 0 && Last(TrendYears(labels)) == last
    ensures LinearTrendForecast(labels, cells, steps).Ok? ==>
      |LinearTrendForecast(labels, cells, steps).value| == steps &&
      forall k :: 0 <= k < steps ==> LinearTrendForecast(labels, cells, steps).value[k].year == Some(last + 1 + k)
  {
    var r := LinearTrendForecast(labels, cells, steps);
    if r.Ok? {
      assert cells != [] && |r.value| == steps;
      forall k | 0 <= k < steps
        ensures r.value[k].year == Some(last + 1 + k)
      {
      }
    }
  }

  lemma FitShape(arima: Arima, order: Order, fit: FitMethod, years: seq<int>, cells: seq<Cell>, steps: nat)
    requires |years| == |cells| > 0 && forall i :: 0 <= i < |cells| ==> !cells[i].Null?
    requires ContinuesYears(arima)
    requires TryArima(arima, order, fit, years, cells, steps).Some?
    ensures |TryArima(arima, order, fit, years, cells, steps).value| == steps
    ensures forall k :: 0 <= k < steps ==>
      TryArima(arima, order, fit, years, cells, steps).value[k].year == Some(Last(years) + 1 + k)
  {
    var o := arima(order, fit, years, Numbers(cells), steps);
    assert o.Fitted?;
  }
}
