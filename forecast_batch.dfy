/** `forecast_all` (analysis/forecast.py): forecast both measures of every
    country/sector pair, record failures and collect one row per forecast
    year. The database reads become parameters; the failure table the
    function writes is returned as part of its outcome. */
module ForecastBatch {
  import opened Outcomes
  import opened ForecastIndex
  import opened ForecastTrend
  import opened ForecastLadder

  /** A `(country_name, sector_name)` pair from `get_all_country_sector_combos`. */
  datatype Combo = Combo(country: string, sector: string)

  /** One row of `get_emissions_data`: a year and the two measures. */
  datatype HistRow = HistRow(year: int, emissions: Cell, perCapita: Cell)

  /** One forecast row; a NaN forecast is stored as `None`. */
  datatype ForecastRow = ForecastRow(year: int, country: string, sector: string,
                                     emissions: Option<real>, perCapita: Option<real>)

  /** One row of the `forecast_failures` table. */
  datatype FailureRecord = FailureRecord(country: string, sector: string, reason: string)

  /** What `forecast_all` returns (the rows) and logs (the failures). */
  datatype Batch = Batch(rows: seq<ForecastRow>, failures: seq<FailureRecord>)

  /** A pair needs this many history rows to be forecast. */
  const MinHistory: nat := 3

  const InsufficientHistory := "insufficient_history"
  const EmissionsPrefix := "emissions_error: "
  const PerCapitaPrefix := "percapita_error: "

  /** The message of the `TypeError` that `int(None)` raises. */
  const IntNoneError := "int() argument must be a string, a bytes-like object or a real number, not 'NoneType'"

  /** The history rows as `get_emissions_data` returns them for a pair. */
  type History = Combo -> seq<HistRow>

  /** The `year` column of the history, in row order. */
  function Years(hist: seq<HistRow>): (ys: seq<int>)
    ensures |ys| == |hist| && forall i :: 0 <= i < |hist| ==> ys[i] == hist[i].year
  {
    seq(|hist|, i requires 0 <= i < |hist| => hist[i].year)
  }

  /** `df.set_index('year')`: a plain index whose labels cast back to the
      history years. */
  function HistoryIndex(hist: seq<HistRow>): (idx: Index)
    ensures Length(idx) == |hist|
  {
    PlainIndex(seq(|hist|, i requires 0 <= i < |hist| => IntLabel(hist[i].year)))
  }

  /** The labels of the history index cast back to the history years. */
  lemma HistoryIndexYears(hist: seq<HistRow>)
    ensures HistoryIndex(hist).PlainIndex? && CastAll(HistoryIndex(hist).labels) == Some(Years(hist))
  {
    CastAllOfInts(HistoryIndex(hist).labels, Years(hist));
  }

  /** `df['emissions_ktco2']`. */
  function EmissionsSeries(hist: seq<HistRow>): (s: Series)
    ensures WellFormed(s) && s.index == HistoryIndex(hist)
    ensures forall i :: 0 <= i < |hist| ==> s.values[i] == hist[i].emissions
  {
    Series(HistoryIndex(hist), seq(|hist|, i requires 0 <= i < |hist| => hist[i].emissions))
  }

  /** `df['emissions_per_capita']`. */
  function PerCapitaSeries(hist: seq<HistRow>): (s: Series)
    ensures WellFormed(s) && s.index == HistoryIndex(hist)
    ensures forall i :: 0 <= i < |hist| ==> s.values[i] == hist[i].perCapita
  {
    Series(HistoryIndex(hist), seq(|hist|, i requires 0 <= i < |hist| => hist[i].perCapita))
  }

  /** The forecast used when `forecast_series` raises: NaN for the years
      after the last history year. */
  function Substitute(hist: seq<HistRow>, steps: nat): (f: seq<Point>)
    requires |hist| > 0
    ensures |f| == steps
    ensures forall k :: 0 <= k < steps ==> f[k] == Point(Some(Last(hist).year + 1 + k), NaN)
  {
    Repeat(NaN, Last(hist).year, steps)
  }

  /** The forecast a pair goes on with: the result of `forecast_series`, or
      the substitute when it raised. */
  function Recovered(r: Result<seq<Point>, string>, hist: seq<HistRow>, steps: nat): (f: seq<Point>)
    requires |hist| > 0
    ensures r.Ok? ==> f == r.value
    ensures r.Err? ==> |f| == steps && forall k :: 0 <= k < steps ==> f[k] == Point(Some(Last(hist).year + 1 + k), NaN)
  {
    if r.Ok? then r.value else Substitute(hist, steps)
  }

  /** The failure logged for a forecast that raised, if any. */
  function Failed(c: Combo, prefix: string, r: Result<seq<Point>, string>): (fs: seq<FailureRecord>)
    ensures |fs| == (if r.Err? then 1 else 0)
    ensures r.Err? ==> fs[0] == FailureRecord(c.country, c.sector, prefix + r.error)
  {
    if r.Err? then [FailureRecord(c.country, c.sector, prefix + r.error)] else []
  }

  /** `float(v) if not np.isnan(v) else None`. */
  function Present(v: Float): (o: Option<real>)
    ensures o.None? <==> v.NaN?
    ensures o.Some? ==> v == Real(o.value)
  {
    match v
    case NaN => None
    case Real(x) => Some(x)
  }

  function Shorter(a: nat, b: nat): nat
  {
    if a < b then a else b
  }

  /** The first `n` rows of the zip of the two forecasts, each dated with
      `int(year)` of the emissions forecast. `int(None)` raises, and the
      exception is not caught. */
  function ZipRows(c: Combo, es: seq<Point>, ps: seq<Point>, n: nat): (r: Result<seq<ForecastRow>, string>)
    requires n <= |es| && n <= |ps|
    ensures r.Err? <==> exists k :: 0 <= k < n && es[k].year.None?
    ensures r.Err? ==> r.error == IntNoneError
    ensures r.Ok? ==> |r.value| == n
    ensures r.Ok? ==> forall k :: 0 <= k < n ==>
      r.value[k] == ForecastRow(es[k].year.value, c.country, c.sector, Present(es[k].value), Present(ps[k].value))
    decreases n
  {
    if n == 0 then Ok([])
    else
      match ZipRows(c, es, ps, n - 1)
      case Err(m) => Err(m)
      case Ok(rows) =>
        var e, p := es[n - 1], ps[n - 1];
        if e.year.None? then Err(IntNoneError)
        else Ok(rows + [ForecastRow(e.year.value, c.country, c.sector, Present(e.value), Present(p.value))])
  }

  /** The two forecasts of a pair with enough history, in the order they are made. */
  function EmissionsForecast(hist: seq<HistRow>, steps: nat, arima: Arima): Result<seq<Point>, string>
  {
    ForecastSeries(EmissionsSeries(hist), steps, DefaultOrder, arima)
  }

  function PerCapitaForecast(hist: seq<HistRow>, steps: nat, arima: Arima): Result<seq<Point>, string>
  {
    ForecastSeries(PerCapitaSeries(hist), steps, DefaultOrder, arima)
  }

  /** The rows and failures of a pair with enough history, from the results
      of its two `forecast_series` calls and the forecasts it goes on with. */
  function Assemble(c: Combo, e: Result<seq<Point>, string>, p: Result<seq<Point>, string>,
                    es: seq<Point>, ps: seq<Point>): (r: Result<Batch, string>)
    ensures r.Err? <==> exists k :: 0 <= k < Shorter(|es|, |ps|) && es[k].year.None?
    ensures r.Ok? ==> |r.value.rows| == Shorter(|es|, |ps|)
    ensures r.Ok? ==> r.value.failures == Failed(c, EmissionsPrefix, e) + Failed(c, PerCapitaPrefix, p)
  {
    match ZipRows(c, es, ps, Shorter(|es|, |ps|))
    case Err(m) => Err(m)
    case Ok(rows) => Ok(Batch(rows, Failed(c, EmissionsPrefix, e) + Failed(c, PerCapitaPrefix, p)))
  }

  /** The reasons `forecast_all` logs. */
  predicate KnownReason(reason: string)
  {
    reason == InsufficientHistory || EmissionsPrefix <= reason || PerCapitaPrefix <= reason
  }

  /** One iteration of the loop over pairs: the rows and failures it adds,
      or the exception that ends the whole run. */
  function CombinationOutcome(c: Combo, hist: seq<HistRow>, steps: nat, arima: Arima): (r: Result<Batch, string>)
    ensures |hist| < MinHistory ==> r == Ok(Batch([], [FailureRecord(c.country, c.sector, InsufficientHistory)]))
    ensures r.Err? ==> r.error == IntNoneError
    ensures r.Ok? ==> |r.value.failures| <= 2
    ensures r.Ok? ==> forall f :: f in r.value.failures ==>
      f.country == c.country && f.sector == c.sector && KnownReason(f.reason)
    ensures r.Ok? ==> forall k :: 0 <= k < |r.value.rows| ==>
      r.value.rows[k].country == c.country && r.value.rows[k].sector == c.sector
  {
    if |hist| < MinHistory then Ok(Batch([], [FailureRecord(c.country, c.sector, InsufficientHistory)]))
    else
      var e := EmissionsForecast(hist, steps, arima);
      var p := PerCapitaForecast(hist, steps, arima);
      Assemble(c, e, p, Recovered(e, hist, steps), Recovered(p, hist, steps))
  }

  /** The outcome so far, extended by the outcome of one more pair. */
  function Extend(b: Batch, d: Result<Batch, string>): (r: Result<Batch, string>)
    ensures r.Err? <==> d.Err?
    ensures r.Ok? ==> b.rows <= r.value.rows && b.failures <= r.value.failures
  {
    match d
    case Err(m) => Err(m)
    case Ok(x) => Ok(Batch(b.rows + x.rows, b.failures + x.failures))
  }

  /** The loop over the first `|combos|` pairs, given the outcome of each
      pair: rows and failures accumulate in order, and the first exception
      ends the run. */
  function BatchOf(combos: seq<Combo>, outcome: Combo -> Result<Batch, string>): (r: Result<Batch, string>)
    decreases |combos|
  {
    if |combos| == 0 then Ok(Batch([], []))
    else
      match BatchOf(combos[..|combos| - 1], outcome)
      case Err(m) => Err(m)
      case Ok(b) => Extend(b, outcome(Last(combos)))
  }

  /** The outcome of each pair in a run of `forecast_all`. */
  function PairOutcomes(history: History, steps: nat, arima: Arima): Combo -> Result<Batch, string>
  {
    c => CombinationOutcome(c, history(c), steps, arima)
  }

  /** What `forecast_all` returns for the pairs `combos`. */
  function BatchSpec(combos: seq<Combo>, history: History, steps: nat, arima: Arima): Result<Batch, string>
  {
    BatchOf(combos, PairOutcomes(history, steps, arima))
  }

  /** Once a prefix of the pairs raises, so does every longer prefix, with
      the same exception. */
  lemma {:induction false} AbortIsFinal(combos: seq<Combo>, outcome: Combo -> Result<Batch, string>, i: nat, j: nat)
    requires i <= j <= |combos|
    requires BatchOf(combos[..i], outcome).Err?
    ensures BatchOf(combos[..j], outcome) == BatchOf(combos[..i], outcome)
    decreases j
  {
    if j > i {
      AbortIsFinal(combos, outcome, i, j - 1);
      assert combos[..j][..j - 1] == combos[..j - 1];
    }
  }

  /** One more pair: its outcome extends the outcome of the pairs before it. */
  lemma BatchStep(combos: seq<Combo>, outcome: Combo -> Result<Batch, string>, i: nat)
    requires i < |combos| && BatchOf(combos[..i], outcome).Ok?
    ensures BatchOf(combos[..i + 1], outcome) == Extend(BatchOf(combos[..i], outcome).value, outcome(combos[i]))
  {
    assert combos[..i + 1][..i] == combos[..i];
  }

  /** The inner loop of `forecast_all`: one row per zipped pair of forecast
      points, or the exception raised on an undated point. */
  method ZipInto(c: Combo, es: seq<Point>, ps: seq<Point>) returns (r: Result<seq<ForecastRow>, string>)
    ensures r == ZipRows(c, es, ps, Shorter(|es|, |ps|))
  {
    var n := Shorter(|es|, |ps|);
    var added: seq<ForecastRow> := [];
    var k := 0;
    while k < n
      invariant 0 <= k <= n
      invariant ZipRows(c, es, ps, k) == Ok(added)
    {
      if es[k].year.None? {
        assert ZipRows(c, es, ps, n).Err?;
        return Err(IntNoneError);
      }
      added := added + [ForecastRow(es[k].year.value, c.country, c.sector, Present(es[k].value), Present(ps[k].value))];
      k := k + 1;
    }
    return Ok(added);
  }

  /** One `try`/`except` around `forecast_series`: the forecast to go on
      with, and the failure list with the error logged if it raised. */
  method RecoverMetric(c: Combo, prefix: string, r: Result<seq<Point>, string>, hist: seq<HistRow>, steps: nat,
                       failures: seq<FailureRecord>) returns (f: seq<Point>, logged: seq<FailureRecord>)
    requires |hist| > 0
    ensures f == Recovered(r, hist, steps)
    ensures logged == failures + Failed(c, prefix, r)
  {
    if r.Err? {
      logged := failures + [FailureRecord(c.country, c.sector, prefix + r.error)];
      f := Substitute(hist, steps);
    } else {
      logged := failures + [];
      f := r.value;
    }
  }

  /** A pair with enough history is assembled from its two forecasts. */
  lemma PairAssembled(c: Combo, hist: seq<HistRow>, steps: nat, arima: Arima)
    requires |hist| >= MinHistory
    ensures CombinationOutcome(c, hist, steps, arima) ==
      Assemble(c, EmissionsForecast(hist, steps, arima), PerCapitaForecast(hist, steps, arima),
               Recovered(EmissionsForecast(hist, steps, arima), hist, steps),
               Recovered(PerCapitaForecast(hist, steps, arima), hist, steps))
  {
  }

  /** The body of the loop over pairs: skip a short history, forecast both
      measures with their substitutes and failures, then zip. */
  method ForecastPair(c: Combo, hist: seq<HistRow>, steps: nat, arima: Arima,
                      rows: seq<ForecastRow>, failures: seq<FailureRecord>) returns (r: Result<Batch, string>)
    ensures r == Extend(Batch(rows, failures), CombinationOutcome(c, hist, steps, arima))
  {
    if |hist| < MinHistory {
      assert rows + [] == rows;
      return Ok(Batch(rows, failures + [FailureRecord(c.country, c.sector, InsufficientHistory)]));
    }
    var e := EmissionsForecast(hist, steps, arima);
    var p := PerCapitaForecast(hist, steps, arima);
    r := RecordPair(c, e, p, hist, steps, rows, failures);
    PairAssembled(c, hist, steps, arima);
  }

  /** The forecasts of one pair recovered, logged and zipped onto the rows
      and failures gathered so far. */
  method RecordPair(c: Combo, e: Result<seq<Point>, string>, p: Result<seq<Point>, string>, hist: seq<HistRow>,
                    steps: nat, rows: seq<ForecastRow>, failures: seq<FailureRecord>) returns (r: Result<Batch, string>)
    requires |hist| > 0
    ensures r == Extend(Batch(rows, failures), Assemble(c, e, p, Recovered(e, hist, steps), Recovered(p, hist, steps)))
  {
    var es, afterE := RecoverMetric(c, EmissionsPrefix, e, hist, steps, failures);
    var ps, logged := RecoverMetric(c, PerCapitaPrefix, p, hist, steps, afterE);
    assert logged == failures + (Failed(c, EmissionsPrefix, e) + Failed(c, PerCapitaPrefix, p));
    var zipped := ZipInto(c, es, ps);
    if zipped.Err? {
      return Err(IntNoneError);
    }
    return Ok(Batch(rows + zipped.value, logged));
  }

  /** `forecast_all(forecast_years)`: the pairs in order, each extending the
      rows and failures gathered so far, until one raises. */
  method ForecastAll(combos: seq<Combo>, history: History, steps: nat, arima: Arima) returns (r: Result<Batch, string>)
    ensures r == BatchSpec(combos, history, steps, arima)
  {
    var rows: seq<ForecastRow> := [];
    var failures: seq<FailureRecord> := [];
    var i := 0;
    while i < |combos|
      invariant 0 <= i <= |combos|
      invariant BatchOf(combos[..i], PairOutcomes(history, steps, arima)) == Ok(Batch(rows, failures))
    {
      var next := ForecastPair(combos[i], history(combos[i]), steps, arima, rows, failures);
      BatchStep(combos, PairOutcomes(history, steps, arima), i);
      if next.Err? {
        AbortIsFinal(combos, PairOutcomes(history, steps, arima), i + 1, |combos|);
        assert combos[..|combos|] == combos;
        return Err(IntNoneError);
      }
      rows, failures := next.value.rows, next.value.failures;
      i := i + 1;
    }
    assert combos[..|combos|] == combos;
    return Ok(Batch(rows, failures));
  }

  /** Under `ContinuesYears`, every forecast a pair goes on with has `steps`
      points, and they are dated unless the measure had no value at all. */
  lemma RecoveredShape(series: Series, hist: seq<HistRow>, steps: nat, arima: Arima)
    requires WellFormed(series) && |hist| > 0 && ContinuesYears(arima)
    ensures |Recovered(ForecastSeries(series, steps, DefaultOrder, arima), hist, steps)| == steps
    ensures |Kept(series)| > 0 ==> forall k :: 0 <= k < steps ==>
      Recovered(ForecastSeries(series, steps, DefaultOrder, arima), hist, steps)[k].year.Some?
    ensures |Kept(series)| == 0 ==>
      Recovered(ForecastSeries(series, steps, DefaultOrder, arima), hist, steps) == Undated(steps)
    ensures |Kept(series)| > 0 && ForecastSeries(series, steps, DefaultOrder, arima).Ok? ==>
      forall k :: 0 <= k < steps ==>
        Recovered(ForecastSeries(series, steps, DefaultOrder, arima), hist, steps)[k].year ==
        Some(Last(KeptYears(series)) + 1 + k)
    ensures ForecastSeries(series, steps, DefaultOrder, arima).Err? ==>
      forall k :: 0 <= k < steps ==>
        Recovered(ForecastSeries(series, steps, DefaultOrder, arima), hist, steps)[k] ==
        Point(Some(Last(hist).year + 1 + k), NaN)
  {
    var r := ForecastSeries(series, steps, DefaultOrder, arima);
    if r.Ok? && |Kept(series)| > 0 {
      LadderShape(series, steps, DefaultOrder, arima);
    }
  }

  /** The emissions forecast of a pair is undated exactly when every
      emissions value of its history is missing. */
  lemma EmissionsKept(hist: seq<HistRow>)
    ensures |Kept(EmissionsSeries(hist))| == 0 <==> forall i :: 0 <= i < |hist| ==> hist[i].emissions.Null?
  {
    var s := EmissionsSeries(hist);
    assert forall i :: 0 <= i < |hist| ==> s.values[i] == hist[i].emissions;
  }

  /** A measure with no value in the history is forecast as `steps`
      undated NaN points, whatever the estimator does. */
  lemma AllMissingUndated(hist: seq<HistRow>, steps: nat, arima: Arima)
    ensures (forall i :: 0 <= i < |hist| ==> hist[i].emissions.Null?) ==>
      EmissionsForecast(hist, steps, arima) == Ok(Undated(steps))
    ensures (forall i :: 0 <= i < |hist| ==> hist[i].perCapita.Null?) ==>
      PerCapitaForecast(hist, steps, arima) == Ok(Undated(steps))
  {
    EmissionsKept(hist);
    var s := PerCapitaSeries(hist);
    assert forall i :: 0 <= i < |hist| ==> s.values[i] == hist[i].perCapita;
  }

  /** A pair raises (and ends the run) exactly when it has enough history,
      at least one year is forecast and its emissions are all missing: the
      all-missing forecast is indexed by `None`, and `int(None)` raises. */
  lemma AbortsIffEmissionsAllMissing(c: Combo, hist: seq<HistRow>, steps: nat, arima: Arima)
    requires ContinuesYears(arima)
    ensures CombinationOutcome(c, hist, steps, arima).Err? <==>
      |hist| >= MinHistory && steps > 0 && forall i :: 0 <= i < |hist| ==> hist[i].emissions.Null?
  {
    if |hist| >= MinHistory {
      var e, p := EmissionsForecast(hist, steps, arima), PerCapitaForecast(hist, steps, arima);
      var es, ps := Recovered(e, hist, steps), Recovered(p, hist, steps);
      RecoveredShape(EmissionsSeries(hist), hist, steps, arima);
      RecoveredShape(PerCapitaSeries(hist), hist, steps, arima);
      EmissionsKept(hist);
      assert CombinationOutcome(c, hist, steps, arima) == Assemble(c, e, p, es, ps);
      assert Shorter(|es|, |ps|) == steps;
      if steps > 0 && |Kept(EmissionsSeries(hist))| == 0 {
        assert es[0].year.None?;
      }
    }
  }

  /** Under `ContinuesYears` a pair that does not raise adds `steps` rows
      when it has enough history and none otherwise; each row is dated after
      the last year with an emissions value, or after the last history year
      when the emissions forecast raised. */
  lemma PairRows(c: Combo, hist: seq<HistRow>, steps: nat, arima: Arima)
    requires ContinuesYears(arima)
    requires CombinationOutcome(c, hist, steps, arima).Ok?
    ensures |CombinationOutcome(c, hist, steps, arima).value.rows| == (if |hist| < MinHistory then 0 else steps)
    ensures |hist| >= MinHistory && EmissionsForecast(hist, steps, arima).Ok? && steps > 0 ==>
      forall k :: 0 <= k < steps ==>
        CombinationOutcome(c, hist, steps, arima).value.rows[k].year == Last(KeptYears(EmissionsSeries(hist))) + 1 + k
    ensures |hist| >= MinHistory && EmissionsForecast(hist, steps, arima).Err? ==>
      forall k :: 0 <= k < steps ==>
        CombinationOutcome(c, hist, steps, arima).value.rows[k].year == Last(hist).year + 1 + k
  {
    if |hist| >= MinHistory {
      PairRowYears(c, hist, steps, arima);
      if EmissionsForecast(hist, steps, arima).Ok? && steps > 0 {
        DatedForecastShape(EmissionsSeries(hist), steps, arima);
      }
    }
  }

  /** A forecast whose first point is dated continues after the last kept year. */
  lemma DatedForecastShape(s: Series, steps: nat, arima: Arima)
    requires WellFormed(s) && ContinuesYears(arima) && steps > 0
    requires ForecastSeries(s, steps, DefaultOrder, arima).Ok?
    requires |ForecastSeries(s, steps, DefaultOrder, arima).value| > 0
    requires ForecastSeries(s, steps, DefaultOrder, arima).value[0].year.Some?
    ensures |Kept(s)| > 0 && |ForecastSeries(s, steps, DefaultOrder, arima).value| == steps
    ensures forall k :: 0 <= k < steps ==>
      ForecastSeries(s, steps, DefaultOrder, arima).value[k].year == Some(Last(KeptYears(s)) + 1 + k)
  {
    DatedForecastKeepsValues(s, steps, arima);
    LadderShape(s, steps, DefaultOrder, arima);
  }

  /** A forecast whose first point is dated comes from a series with a kept value. */
  lemma DatedForecastKeepsValues(s: Series, steps: nat, arima: Arima)
    requires WellFormed(s) && steps > 0
    requires ForecastSeries(s, steps, DefaultOrder, arima).Ok?
    requires |ForecastSeries(s, steps, DefaultOrder, arima).value| > 0
    requires ForecastSeries(s, steps, DefaultOrder, arima).value[0].year.Some?
    ensures |Kept(s)| > 0
  {
    assert Undated(steps)[0].year.None?;
  }

  /** The rows of a pair with enough history carry the years of the
      emissions forecast it goes on with, one per forecast step. */
  lemma PairRowYears(c: Combo, hist: seq<HistRow>, steps: nat, arima: Arima)
    requires ContinuesYears(arima) && |hist| >= MinHistory
    requires CombinationOutcome(c, hist, steps, arima).Ok?
    ensures |Recovered(EmissionsForecast(hist, steps, arima), hist, steps)| == steps
    ensures |CombinationOutcome(c, hist, steps, arima).value.rows| == steps
    ensures forall k :: 0 <= k < steps ==>
      Recovered(EmissionsForecast(hist, steps, arima), hist, steps)[k].year ==
      Some(CombinationOutcome(c, hist, steps, arima).value.rows[k].year)
  {
    var e, p := EmissionsForecast(hist, steps, arima), PerCapitaForecast(hist, steps, arima);
    var es, ps := Recovered(e, hist, steps), Recovered(p, hist, steps);
    PairAssembled(c, hist, steps, arima);
    RecoveredShape(EmissionsSeries(hist), hist, steps, arima);
    RecoveredShape(PerCapitaSeries(hist), hist, steps, arima);
    AssembledRows(c, e, p, es, ps);
  }

  /** The rows of an assembled pair carry the years of its emissions forecast. */
  lemma AssembledRows(c: Combo, e: Result<seq<Point>, string>, p: Result<seq<Point>, string>,
                      es: seq<Point>, ps: seq<Point>)
    requires |es| == |ps| && Assemble(c, e, p, es, ps).Ok?
    ensures |Assemble(c, e, p, es, ps).value.rows| == |es|
    ensures forall k :: 0 <= k < |es| ==>
      es[k].year.Some? && Assemble(c, e, p, es, ps).value.rows[k].year == es[k].year.value
  {
  }

  /** The two columns of a pair's rows: a measure whose forecast raised is
      `None` in every row; otherwise each row holds the k-th forecast value,
      `None` where it is NaN. */
  lemma PairColumns(c: Combo, hist: seq<HistRow>, steps: nat, arima: Arima)
    requires |hist| >= MinHistory && CombinationOutcome(c, hist, steps, arima).Ok?
    ensures CombinationOutcome(c, hist, steps, arima).value.failures ==
      Failed(c, EmissionsPrefix, EmissionsForecast(hist, steps, arima)) +
      Failed(c, PerCapitaPrefix, PerCapitaForecast(hist, steps, arima))
    ensures var rows, e := CombinationOutcome(c, hist, steps, arima).value.rows, EmissionsForecast(hist, steps, arima);
      (e.Err? ==> forall k :: 0 <= k < |rows| ==> rows[k].emissions.None?) &&
      (e.Ok? ==> |rows| <= |e.value| && forall k :: 0 <= k < |rows| ==> rows[k].emissions == Present(e.value[k].value))
    ensures var rows, p := CombinationOutcome(c, hist, steps, arima).value.rows, PerCapitaForecast(hist, steps, arima);
      (p.Err? ==> forall k :: 0 <= k < |rows| ==> rows[k].perCapita.None?) &&
      (p.Ok? ==> |rows| <= |p.value| && forall k :: 0 <= k < |rows| ==> rows[k].perCapita == Present(p.value[k].value))
  {
    var e, p := EmissionsForecast(hist, steps, arima), PerCapitaForecast(hist, steps, arima);
    PairAssembled(c, hist, steps, arima);
    AssembledColumns(c, e, p, Recovered(e, hist, steps), Recovered(p, hist, steps), hist, steps);
  }

  /** The columns of assembled rows, from the results of the two forecasts. */
  lemma AssembledColumns(c: Combo, e: Result<seq<Point>, string>, p: Result<seq<Point>, string>,
                         es: seq<Point>, ps: seq<Point>, hist: seq<HistRow>, steps: nat)
    requires |hist| > 0 && es == Recovered(e, hist, steps) && ps == Recovered(p, hist, steps)
    requires Assemble(c, e, p, es, ps).Ok?
    ensures var rows := Assemble(c, e, p, es, ps).value.rows;
      (e.Err? ==> forall k :: 0 <= k < |rows| ==> rows[k].emissions.None?) &&
      (e.Ok? ==> |rows| <= |e.value| && forall k :: 0 <= k < |rows| ==> rows[k].emissions == Present(e.value[k].value))
    ensures var rows := Assemble(c, e, p, es, ps).value.rows;
      (p.Err? ==> forall k :: 0 <= k < |rows| ==> rows[k].perCapita.None?) &&
      (p.Ok? ==> |rows| <= |p.value| && forall k :: 0 <= k < |rows| ==> rows[k].perCapita == Present(p.value[k].value))
  {
    assert ZipRows(c, es, ps, Shorter(|es|, |ps|)).Ok?;
  }

  /** The years the forecasts of a pair start from: the history years whose
      emissions value is present, in order; all of them when none is missing. */
  lemma KeptEmissionYears(hist: seq<HistRow>)
    ensures KeptYears(EmissionsSeries(hist)) == KeepPresent(Years(hist), EmissionsSeries(hist).values)
    ensures (forall i :: 0 <= i < |hist| ==> !hist[i].emissions.Null?) ==> KeptYears(EmissionsSeries(hist)) == Years(hist)
  {
    var s := EmissionsSeries(hist);
    assert forall i :: 0 <= i < |hist| ==> s.values[i] == hist[i].emissions;
    HistoryIndexYears(hist);
    KeepCastAll(s.index.labels, Years(hist), s.values);
  }

  /** `dropna` and the cast of a plain index commute. */
  lemma {:induction false} KeepCastAll(ls: seq<Label>, ys: seq<int>, cells: seq<Cell>)
    requires |ls| == |cells| && CastAll(ls) == Some(ys)
    ensures CastAll(KeepPresent(ls, cells)) == Some(KeepPresent(ys, cells))
  {
    if ls != [] {
      assert ys == [ys[0]] + ys[1..];
      assert CastAll(ls[1..]) == Some(ys[1..]);
      KeepCastAll(ls[1..], ys[1..], cells[1..]);
    }
  }

  /** A run raises exactly when one of its pairs raises. */
  lemma {:induction false} BatchErrIff(combos: seq<Combo>, outcome: Combo -> Result<Batch, string>)
    ensures BatchOf(combos, outcome).Err? <==> exists i :: 0 <= i < |combos| && outcome(combos[i]).Err?
    ensures BatchOf(combos, outcome).Err? ==>
      exists i :: 0 <= i < |combos| && outcome(combos[i]) == Err(BatchOf(combos, outcome).error) &&
        forall j :: 0 <= j < i ==> outcome(combos[j]).Ok?
    decreases |combos|
  {
    if |combos| > 0 {
      var init := combos[..|combos| - 1];
      BatchErrIff(init, outcome);
      assert forall i :: 0 <= i < |init| ==> init[i] == combos[i];
      if BatchOf(init, outcome).Err? {
        var i :| 0 <= i < |init| && outcome(init[i]) == Err(BatchOf(init, outcome).error) &&
          forall j :: 0 <= j < i ==> outcome(init[j]).Ok?;
        assert outcome(combos[i]) == Err(BatchOf(combos, outcome).error);
      } else if BatchOf(combos, outcome).Err? {
        var i := |combos| - 1;
        assert outcome(combos[i]) == Err(BatchOf(combos, outcome).error);
        assert forall j :: 0 <= j < i ==> outcome(combos[j]).Ok?;
      }
    }
  }

  /** A pair with enough history whose emissions are all missing. */
  predicate EmissionsAllMissing(hist: seq<HistRow>)
  {
    |hist| >= MinHistory && forall i :: 0 <= i < |hist| ==> hist[i].emissions.Null?
  }

  /** A whole run of `forecast_all` raises, losing every row and every
      failure gathered so far, exactly when some pair with enough history
      has no emissions value and at least one year is forecast; the
      exception is the `TypeError` of `int(None)`. */
  lemma RunAbortsIff(combos: seq<Combo>, history: History, steps: nat, arima: Arima)
    requires ContinuesYears(arima)
    ensures BatchSpec(combos, history, steps, arima).Err? <==>
      steps > 0 && exists i :: 0 <= i < |combos| && EmissionsAllMissing(history(combos[i]))
    ensures BatchSpec(combos, history, steps, arima).Err? ==>
      BatchSpec(combos, history, steps, arima).error == IntNoneError
  {
    var outcome := PairOutcomes(history, steps, arima);
    BatchErrIff(combos, outcome);
    forall i | 0 <= i < |combos|
      ensures outcome(combos[i]).Err? <==> steps > 0 && EmissionsAllMissing(history(combos[i]))
    {
      AbortsIffEmissionsAllMissing(combos[i], history(combos[i]), steps, arima);
    }
  }

  /** The number of pairs with enough history to be forecast. */
  function Forecastable(combos: seq<Combo>, history: History): (n: nat)
    ensures n <= |combos|
    decreases |combos|
  {
    if |combos| == 0 then 0
    else Forecastable(combos[..|combos| - 1], history) + (if |history(Last(combos))| >= MinHistory then 1 else 0)
  }

  /** Under `ContinuesYears` a run that does not raise returns `steps` rows
      for every pair with enough history and none for the others. */
  lemma {:induction false} RunRowCount(combos: seq<Combo>, history: History, steps: nat, arima: Arima)
    requires ContinuesYears(arima)
    requires BatchSpec(combos, history, steps, arima).Ok?
    ensures |BatchSpec(combos, history, steps, arima).value.rows| == steps * Forecastable(combos, history)
    decreases |combos|
  {
    if |combos| > 0 {
      var init := combos[..|combos| - 1];
      var c := Last(combos);
      var outcome := PairOutcomes(history, steps, arima);
      assert BatchSpec(combos, history, steps, arima) == BatchOf(combos, outcome);
      assert BatchOf(combos, outcome) == Extend(BatchOf(init, outcome).value, outcome(c));
      RunRowCount(init, history, steps, arima);
      var b := BatchOf(init, outcome).value;
      assert outcome(c) == CombinationOutcome(c, history(c), steps, arima);
      PairRows(c, history(c), steps, arima);
      var d := outcome(c).value;
      assert |BatchOf(combos, outcome).value.rows| == |b.rows| + |d.rows|;
      var more := |history(c)| >= MinHistory;
      var n := Forecastable(init, history);
      assert |b.rows| == steps * n;
      assert |d.rows| == if more then steps else 0;
      assert Forecastable(combos, history) == n + (if more then 1 else 0);
      CountStep(steps, n, more, Forecastable(combos, history));
      assert |BatchSpec(combos, history, steps, arima).value.rows| == steps * Forecastable(combos, history);
    } else {
      assert steps * 0 == 0;
    }
  }

  lemma CountStep(steps: nat, n: nat, more: bool, m: nat)
    requires m == n + (if more then 1 else 0)
    ensures steps * n + (if more then steps else 0) == steps * m
  {
  }

  /** Every failure a run logs has one of the three reasons and names one
      of the pairs, and so does every row it returns. */
  lemma {:induction false} RunRecordsNamePairs(combos: seq<Combo>, history: History, steps: nat, arima: Arima)
    requires BatchSpec(combos, history, steps, arima).Ok?
    ensures forall f :: f in BatchSpec(combos, history, steps, arima).value.failures ==>
      KnownReason(f.reason) && Combo(f.country, f.sector) in combos
    ensures forall w :: w in BatchSpec(combos, history, steps, arima).value.rows ==>
      Combo(w.country, w.sector) in combos
    decreases |combos|
  {
    if |combos| > 0 {
      var init := combos[..|combos| - 1];
      var c := Last(combos);
      assert BatchSpec(init, history, steps, arima).Ok?;
      RunRecordsNamePairs(init, history, steps, arima);
      assert forall x :: x in init ==> x in combos;
      var b := BatchSpec(init, history, steps, arima).value;
      var o := CombinationOutcome(c, history(c), steps, arima);
      assert BatchSpec(combos, history, steps, arima) == Extend(b, o);
      var d := o.value;
      assert forall w :: w in d.rows ==> w.country == c.country && w.sector == c.sector;
      ExtendKeepsNames(b, d, c, combos);
    }
  }

  /** Extending a batch whose records name pairs of `combos` by the records
      of one pair of `combos` keeps every record naming a pair of `combos`. */
  lemma ExtendKeepsNames(b: Batch, d: Batch, c: Combo, combos: seq<Combo>)
    requires c in combos
    requires forall f :: f in b.failures ==> KnownReason(f.reason) && Combo(f.country, f.sector) in combos
    requires forall w :: w in b.rows ==> Combo(w.country, w.sector) in combos
    requires forall f :: f in d.failures ==> KnownReason(f.reason) && f.country == c.country && f.sector == c.sector
    requires forall w :: w in d.rows ==> w.country == c.country && w.sector == c.sector
    ensures forall f :: f in b.failures + d.failures ==> KnownReason(f.reason) && Combo(f.country, f.sector) in combos
    ensures forall w :: w in b.rows + d.rows ==> Combo(w.country, w.sector) in combos
  {
  }

  /** The forecast points with every undated point given the year it has in
      the substitute forecast, `last history year + 1 + k`. */
  function Dated(es: seq<Point>, hist: seq<HistRow>): (ds: seq<Point>)
    requires |hist| > 0
    ensures |ds| == |es|
    ensures forall k :: 0 <= k < |es| ==> ds[k].year.Some? && ds[k].value == es[k].value
    ensures forall k :: 0 <= k < |es| && es[k].year.Some? ==> ds[k] == es[k]
  {
    seq(|es|, k requires 0 <= k < |es| =>
      if es[k].year.None? then Point(Some(Last(hist).year + 1 + k), es[k].value) else es[k])
  }

  /** A pair as `forecast_all` evidently means to handle it: an all-missing
      emissions forecast is dated like the substitute forecast instead of
      raising `int(None)` and ending the run. */
  function CombinationIntended(c: Combo, hist: seq<HistRow>, steps: nat, arima: Arima): (b: Batch)
    ensures |hist| < MinHistory ==> b == Batch([], [FailureRecord(c.country, c.sector, InsufficientHistory)])
    ensures forall k :: 0 <= k < |b.rows| ==> b.rows[k].country == c.country && b.rows[k].sector == c.sector
  {
    if |hist| < MinHistory then Batch([], [FailureRecord(c.country, c.sector, InsufficientHistory)])
    else
      var e := EmissionsForecast(hist, steps, arima);
      var p := PerCapitaForecast(hist, steps, arima);
      var es, ps := Dated(Recovered(e, hist, steps), hist), Recovered(p, hist, steps);
      var zipped := ZipRows(c, es, ps, Shorter(|es|, |ps|));
      Batch(zipped.value, Failed(c, EmissionsPrefix, e) + Failed(c, PerCapitaPrefix, p))
  }

  /** The corrected pair changes nothing where the code as written does not
      raise. */
  lemma IntendedAgreesWhenNoAbort(c: Combo, hist: seq<HistRow>, steps: nat, arima: Arima)
    requires CombinationOutcome(c, hist, steps, arima).Ok?
    ensures CombinationOutcome(c, hist, steps, arima) == Ok(CombinationIntended(c, hist, steps, arima))
  {
    if |hist| >= MinHistory {
      var e, p := EmissionsForecast(hist, steps, arima), PerCapitaForecast(hist, steps, arima);
      var es, ps := Recovered(e, hist, steps), Recovered(p, hist, steps);
      var ds := Dated(es, hist);
      var n := Shorter(|es|, |ps|);
      assert CombinationOutcome(c, hist, steps, arima) == Assemble(c, e, p, es, ps);
      var z, w := ZipRows(c, es, ps, n), ZipRows(c, ds, ps, n);
      assert z.Ok? && w.Ok?;
      assert forall k :: 0 <= k < n ==> ds[k] == es[k];
      assert z.value == w.value;
    }
  }

  /** Under `ContinuesYears` the corrected pair always adds `steps` rows
      when it has enough history; with every emissions value missing they
      carry no emissions forecast and follow the last history year. */
  lemma IntendedRows(c: Combo, hist: seq<HistRow>, steps: nat, arima: Arima)
    requires ContinuesYears(arima)
    ensures |CombinationIntended(c, hist, steps, arima).rows| == (if |hist| < MinHistory then 0 else steps)
    ensures EmissionsAllMissing(hist) ==> forall k :: 0 <= k < steps ==>
      CombinationIntended(c, hist, steps, arima).rows[k].year == Last(hist).year + 1 + k &&
      CombinationIntended(c, hist, steps, arima).rows[k].emissions.None?
  {
    if |hist| >= MinHistory {
      var e, p := EmissionsForecast(hist, steps, arima), PerCapitaForecast(hist, steps, arima);
      var es, ps := Recovered(e, hist, steps), Recovered(p, hist, steps);
      RecoveredShape(EmissionsSeries(hist), hist, steps, arima);
      RecoveredShape(PerCapitaSeries(hist), hist, steps, arima);
      EmissionsKept(hist);
      assert Shorter(|Dated(es, hist)|, |ps|) == steps;
    }
  }

  /** An estimator that never converges. */
  const NeverFits: Arima := (o, m, ys, vs, n) => FitFailed

  /** It trivially continues the years it is given: it never fits. */
  lemma NeverFitsContinues()
    ensures ContinuesYears(NeverFits)
  {
    forall o: Order, m: FitMethod, ys: seq<int>, vs: seq<real>, steps: nat
      ensures NeverFits(o, m, ys, vs, steps) == FitFailed
    {
    }
  }

  /** Three years of history with the emissions missing: the code as written
      raises for this pair, so the whole run returns nothing. */
  lemma AllMissingEmissionsAbort()
    ensures CombinationOutcome(Combo("Germany", "Energy"),
      [HistRow(2020, Null, Num(1.0)), HistRow(2021, Null, Num(1.0)), HistRow(2022, Null, Num(1.0))],
      1, NeverFits) == Err(IntNoneError)
  {
    var hist := [HistRow(2020, Null, Num(1.0)), HistRow(2021, Null, Num(1.0)), HistRow(2022, Null, Num(1.0))];
    assert |hist| >= MinHistory && forall i :: 0 <= i < |hist| ==> hist[i].emissions.Null?;
    NeverFitsContinues();
    AbortsIffEmissionsAllMissing(Combo("Germany", "Energy"), hist, 1, NeverFits);
  }
}
