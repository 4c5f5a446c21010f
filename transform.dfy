/** `transform_emissions_data` (etl/transform.py): from raw Eurostat
    emission rows to rows with a population and emissions per person. The
    frame is rewritten step by step; each step is a whole-table filter, join
    or map over a sequence of rows. The population download is a parameter. */
module Transform {
  import opened Outcomes
  import opened Casts
  import opened Settings

  /** One raw Eurostat row: `time`, `geo`, `src_crf` and the emissions
      value (`values` or `value`), missing as `None`. */
  datatype RawRow = RawRow(time: string, geo: string, srcCrf: string, value: Option<real>)

  /** One row of the Eurostat population dataset: `country_code`, `year`
      and `population`, missing as `None`. */
  datatype PopRow = PopRow(countryCode: string, year: int, population: Option<int>)


  /** A row after the rename and column selection of lines 31-38. */
  datatype YearRow = YearRow(countryCode: string, sectorCode: string, year: int, value: Option<real>)

  /** A row with a present, positive emissions value. */
  datatype Emission = Emission(countryCode: string, sectorCode: string, year: int, emissions: real)

  /** A row of the left join: the emission row and its population, if any. */
  datatype Joined = Joined(e: Emission, population: Option<int>)

  /** A row after the name lookups and the column selection of line 58. */
  datatype Merged = Merged(year: int, sectorName: Option<string>, countryName: Option<string>,
                           population: Option<int>, emissions: real)

  /** `emissions_per_capita`: a rounded quotient, or the infinity pandas
      produces when the population is 0. */
  datatype PerCapita = Value(x: real) | Infinite

  /** One output row, with its fields in the order of the output columns. */
  datatype OutRow = OutRow(year: int, sectorName: Option<string>, countryName: string,
                           population: int, emissions: real, perCapita: PerCapita)

  /** The output columns, in order; `OutRow` lists its fields in this order. */
  const OutputColumns: seq<string> :=
    ["year", "sector_name", "country_name", "population", "emissions_ktco2", "emissions_per_capita"]

  /** The message of the `ValueError` that `int(t)` raises. */
  function IntError(t: string): (m: string)
    ensures Plain(t) ==> m == "invalid literal for int() with base 10: '" + t + "'"
  {
    ReprPlainWhen(t);
    "invalid literal for int() with base 10: " + Repr(t)
  }

  /** `rows[i]` is the first row whose `time` `int()` rejects. */
  predicate FirstBadTime(rows: seq<RawRow>, i: int)
  {
    0 <= i < |rows| && ParseInt(rows[i].time).None? && forall j :: 0 <= j < i ==> ParseInt(rows[j].time).Some?
  }

  /** Step 1: `emissions_df['time'].astype(int)`; it raises on the first
      entry `int()` does not accept (see `ParseYearsFails`). */
  function ParseYears(rows: seq<RawRow>): (r: Result<seq<int>, string>)
    ensures r.Ok? ==> |r.value| == |rows|
    ensures r.Ok? ==> forall i :: 0 <= i < |rows| ==> ParseInt(rows[i].time) == Some(r.value[i])
  {
    if rows == [] then Ok([])
    else
      match ParseInt(rows[0].time)
      case None => Err(IntError(rows[0].time))
      case Some(y) =>
        match ParseYears(rows[1..])
        case Err(m) => Err(m)
        case Ok(ys) =>
          assert forall i :: 1 <= i < |rows| ==> rows[i] == rows[1..][i - 1];
          Ok([y] + ys)
  }

  /** The conversion fails exactly when some `time` is not an integer
      literal, and then reports the first such entry. */
  lemma {:induction false} ParseYearsFails(rows: seq<RawRow>)
    ensures ParseYears(rows).Err? <==> exists i :: 0 <= i < |rows| && ParseInt(rows[i].time).None?
    ensures ParseYears(rows).Err? ==> exists i :: FirstBadTime(rows, i) && ParseYears(rows).error == IntError(rows[i].time)
  {
    if rows != [] {
      assert forall i :: 1 <= i < |rows| ==> rows[i] == rows[1..][i - 1];
      if ParseInt(rows[0].time).None? {
        assert FirstBadTime(rows, 0);
      } else {
        ParseYearsFails(rows[1..]);
        if ParseYears(rows[1..]).Err? {
          var i :| FirstBadTime(rows[1..], i) && ParseYears(rows[1..]).error == IntError(rows[1..][i].time);
          assert FirstBadTime(rows, i + 1);
        } else {
          assert forall i :: 0 <= i < |rows| ==> ParseInt(rows[i].time).Some? by {
            forall i | 0 <= i < |rows| ensures ParseInt(rows[i].time).Some? {
              if i > 0 {
                assert rows[i] == rows[1..][i - 1];
              }
            }
          }
        }
      }
    }
  }

  /** Lines 31-38: the rows renamed and reduced to code, sector, year and value. */
  function WithYears(rows: seq<RawRow>, years: seq<int>): (rs: seq<YearRow>)
    requires |years| == |rows|
    ensures |rs| == |rows|
    ensures forall i :: 0 <= i < |rows| ==>
      rs[i] == YearRow(rows[i].geo, rows[i].srcCrf, years[i], rows[i].value)
  {
    seq(|rows|, i requires 0 <= i < |rows| => YearRow(rows[i].geo, rows[i].srcCrf, years[i], rows[i].value))
  }

  /** Line 28: the rows with `start_year <= year <= end_year`, in order. */
  function InRange(rs: seq<YearRow>, start: int, end: int): (kept: seq<YearRow>)
    ensures |kept| <= |rs|
    ensures forall x :: x in kept <==> x in rs && start <= x.year <= end
  {
    if rs == [] then []
    else if start <= rs[0].year <= end then [rs[0]] + InRange(rs[1..], start, end)
    else InRange(rs[1..], start, end)
  }

  /** Lines 39-41: `dropna` on the emissions, then only positive values. */
  function Positive(rs: seq<YearRow>): (es: seq<Emission>)
    ensures |es| <= |rs|
    ensures forall e :: e in es <==>
      e.emissions > 0.0 && YearRow(e.countryCode, e.sectorCode, e.year, Some(e.emissions)) in rs
  {
    if rs == [] then []
    else
      var x := rs[0];
      var rest := Positive(rs[1..]);
      assert forall y :: y in rs <==> y == x || y in rs[1..];
      if x.value.Some? && x.value.value > 0.0 then [Emission(x.countryCode, x.sectorCode, x.year, x.value.value)] + rest
      else rest
  }

  /** Lines 27-41: the emission rows the rest of the function works on. */
  function Cleaned(rows: seq<RawRow>, start: int, end: int): seq<Emission>
    requires ParseYears(rows).Ok?
  {
    Positive(InRange(WithYears(rows, ParseYears(rows).value), start, end))
  }

  /** Line 44: `unique().tolist()`, the distinct country codes in order of
      first appearance. */
  function UniqueCodes(es: seq<Emission>): (codes: seq<string>)
    ensures forall i, j :: 0 <= i < j < |codes| ==> codes[i] != codes[j]
    ensures forall c :: c in codes <==> exists e :: e in es && e.countryCode == c
    decreases |es|
  {
    if es == [] then []
    else
      var init := es[..|es| - 1];
      var e := es[|es| - 1];
      var codes := UniqueCodes(init);
      assert forall x :: x in es <==> x in init || x == e;
      if e.countryCode in codes then codes else codes + [e.countryCode]
  }

  /** The codes the population is requested for (line 45). */
  function Requested(rows: seq<RawRow>, start: int, end: int): seq<string>
    requires ParseYears(rows).Ok?
  {
    UniqueCodes(Cleaned(rows, start, end))
  }

  /** `fetch_population_data(start_year, end_year, geo_filter)` over the
      dataset `census`: the rows of the requested countries (all countries
      when the request is empty) in the year range, without missing values. */
  function FetchPopulation(census: seq<PopRow>, start: int, end: int, codes: seq<string>): (pop: seq<PopRow>)
    ensures forall p :: p in pop <==>
      p in census && start <= p.year <= end && p.population.Some? && (codes == [] || p.countryCode in codes)
  {
    if census == [] then []
    else
      var p := census[0];
      var rest := FetchPopulation(census[1..], start, end, codes);
      assert forall x :: x in census <==> x == p || x in census[1..];
      if start <= p.year <= end && p.population.Some? && (codes == [] || p.countryCode in codes) then [p] + rest
      else rest
  }

  /** The populations of the table rows with this `(country_code, year)`, in order. */
  function Matches(pop: seq<PopRow>, code: string, year: int): (ps: seq<Option<int>>)
    ensures forall q :: q in ps ==> exists p :: p in pop && p.countryCode == code && p.year == year && p.population == q
    ensures forall p :: p in pop && p.countryCode == code && p.year == year ==> p.population in ps
  {
    if pop == [] then []
    else
      var rest := Matches(pop[1..], code, year);
      assert forall p :: p in pop <==> p == pop[0] || p in pop[1..];
      if pop[0].countryCode == code && pop[0].year == year then [pop[0].population] + rest else rest
  }

  /** The rows of the left join for one emission row: one per matching
      population row, or a single row without a population. */
  function JoinOne(e: Emission, pop: seq<PopRow>): (js: seq<Joined>)
    ensures |js| >= 1
    ensures forall j :: j in js ==> j.e == e
    ensures forall j :: j in js && j.population.Some? ==>
      exists p :: p in pop && p.countryCode == e.countryCode && p.year == e.year && p.population == j.population
    ensures forall p :: p in pop && p.countryCode == e.countryCode && p.year == e.year ==> Joined(e, p.population) in js
  {
    var ms := Matches(pop, e.countryCode, e.year);
    if |ms| == 0 then [Joined(e, None)]
    else
      var js := seq(|ms|, k requires 0 <= k < |ms| => Joined(e, ms[k]));
      assert forall q :: q in ms ==> Joined(e, q) in js by {
        forall q | q in ms ensures Joined(e, q) in js {
          var k :| 0 <= k < |ms| && ms[k] == q;
          assert js[k] == Joined(e, q);
        }
      }
      assert forall j :: j in js ==> j.population in ms;
      js
  }

  /** Lines 48-53: `merge(how='left', on=['country_code', 'year'])`; the
      emission rows keep their order. */
  function Join(es: seq<Emission>, pop: seq<PopRow>): (js: seq<Joined>)
    ensures |js| >= |es|
    ensures forall e :: e in es ==> exists j :: j in js && j.e == e
  {
    if es == [] then []
    else
      var head, rest := JoinOne(es[0], pop), Join(es[1..], pop);
      assert head[0] in head + rest && head[0].e == es[0];
      assert forall j :: j in rest ==> j in head + rest;
      assert forall e :: e in es ==> e == es[0] || e in es[1..];
      head + rest
  }

  /** Every joined row extends an emission row, with the population of a
      table row of the same country and year when it has one. */
  lemma {:induction false} JoinSound(es: seq<Emission>, pop: seq<PopRow>, j: Joined)
    requires j in Join(es, pop)
    ensures j.e in es
    ensures j.population.Some? ==>
      exists p :: p in pop && p.countryCode == j.e.countryCode && p.year == j.e.year && p.population == j.population
  {
    if j !in JoinOne(es[0], pop) {
      JoinSound(es[1..], pop, j);
    }
  }

  /** Every emission row is joined with every table row of its country and year. */
  lemma {:induction false} JoinComplete(es: seq<Emission>, pop: seq<PopRow>, e: Emission, p: PopRow)
    requires e in es && p in pop && p.countryCode == e.countryCode && p.year == e.year
    ensures Joined(e, p.population) in Join(es, pop)
  {
    if e != es[0] {
      JoinComplete(es[1..], pop, e, p);
    }
  }

  /** `Series.map(d)`: the mapped name, or a missing value for an unknown code. */
  function Lookup(names: map<string, string>, code: string): (r: Option<string>)
    ensures r.Some? <==> code in names
    ensures r.Some? ==> r.value == names[code]
  {
    if code in names then Some(names[code]) else None
  }

  /** Lines 56-58: the sector and country names looked up, and the columns
      reduced to year, names, population and emissions. */
  function Name(js: seq<Joined>, sectors: map<string, string>, countries: map<string, string>): (ms: seq<Merged>)
    ensures |ms| == |js|
    ensures forall i :: 0 <= i < |js| ==> ms[i] == NameOne(js[i], sectors, countries)
  {
    seq(|js|, i requires 0 <= i < |js| => NameOne(js[i], sectors, countries))
  }

  function NameOne(j: Joined, sectors: map<string, string>, countries: map<string, string>): (m: Merged)
    ensures m.year == j.e.year && m.population == j.population && m.emissions == j.e.emissions
    ensures m.sectorName.Some? <==> j.e.sectorCode in sectors
    ensures m.countryName.Some? <==> j.e.countryCode in countries
  {
    Merged(j.e.year, Lookup(sectors, j.e.sectorCode), Lookup(countries, j.e.countryCode), j.population, j.e.emissions)
  }

  /** numpy's rounding to an integer: to the nearest, halves to the even neighbour. */
  function RoundHalfEven(y: real): (n: int)
    ensures -0.5 <= n as real - y <= 0.5
    ensures n as real - y == 0.5 || n as real - y == -0.5 ==> n % 2 == 0
  {
    var f := y.Floor;
    var frac := y - f as real;
    if frac < 0.5 then f
    else if frac > 0.5 then f + 1
    else if f % 2 == 0 then f
    else f + 1
  }

  /** `round(x, 2)`: the nearest multiple of 0.01, halves to even. */
  function Round2(x: real): (r: real)
    ensures -0.005 <= r - x <= 0.005
    ensures (r * 100.0).Floor as real == r * 100.0
  {
    RoundHalfEven(x * 100.0) as real / 100.0
  }

  /** Line 64: kilotonnes to kilograms per person, rounded to 2 decimals. */
  function PerCapitaOf(emissions: real, population: int): (v: PerCapita)
    ensures population == 0 <==> v.Infinite?
    ensures v.Value? ==> -0.005 <= v.x - emissions * 1000000.0 / population as real <= 0.005
  {
    if population == 0 then Infinite
    else Value(Round2(emissions * 1000000.0 / population as real))
  }

  /** Lines 61-64: rows without a population or a country name dropped, the
      rest given their per-capita value. */
  function Complete(ms: seq<Merged>): (out: seq<OutRow>)
    ensures |out| <= |ms|
    ensures (forall i :: 0 <= i < |ms| ==> ms[i].population.Some? && ms[i].countryName.Some?) ==> |out| == |ms|
    ensures (forall i :: 0 <= i < |ms| ==> ms[i].population.None? || ms[i].countryName.None?) ==> out == []
  {
    if ms == [] then []
    else
      var m := ms[0];
      var rest := Complete(ms[1..]);
      if m.population.Some? && m.countryName.Some? then
        [OutRow(m.year, m.sectorName, m.countryName.value, m.population.value, m.emissions,
                PerCapitaOf(m.emissions, m.population.value))] + rest
      else rest
  }

  /** Every output row is made from a merged row. */
  lemma {:induction false} CompleteSound(ms: seq<Merged>, o: OutRow)
    requires o in Complete(ms)
    ensures exists m :: m in ms && Completes(m, o)
  {
    var m := ms[0];
    if m.population.Some? && m.countryName.Some? && o == Complete(ms)[0] {
      assert Completes(m, o);
    } else {
      CompleteSound(ms[1..], o);
      var x :| x in ms[1..] && Completes(x, o);
      assert x in ms;
    }
  }

  /** Exactly the merged rows with a population and a country name are kept;
      the sector name plays no part. */
  lemma {:induction false} CompleteKeeps(ms: seq<Merged>, m: Merged)
    requires m in ms && m.population.Some? && m.countryName.Some?
    ensures exists o :: o in Complete(ms) && Completes(m, o)
  {
    if m == ms[0] {
      assert Completes(m, Complete(ms)[0]);
    } else {
      CompleteKeeps(ms[1..], m);
      var o :| o in Complete(ms[1..]) && Completes(m, o);
      assert o in Complete(ms);
    }
  }

  /** `o` is the output row made from the merged row `m`. */
  predicate Completes(m: Merged, o: OutRow)
  {
    m.population == Some(o.population) && m.countryName == Some(o.countryName) &&
    o.year == m.year && o.sectorName == m.sectorName && o.emissions == m.emissions &&
    o.perCapita == PerCapitaOf(o.emissions, o.population)
  }

  /** `transform_emissions_data(emissions_df, start_year, end_year)` as a
      function of the raw rows. */
  function TransformRows(rows: seq<RawRow>, start: int, end: int, census: seq<PopRow>,
                         sectors: map<string, string>, countries: map<string, string>): Result<seq<OutRow>, string>
  {
    match ParseYears(rows)
    case Err(m) => Err(m)
    case Ok(_) =>
      var es := Cleaned(rows, start, end);
      var pop := FetchPopulation(census, start, end, Requested(rows, start, end));
      Ok(Complete(Name(Join(es, pop), sectors, countries)))
  }

  /** The function raises exactly when some `time` entry is not an integer
      literal, with the message for the first such entry; nothing else in
      it fails. */
  lemma TransformFails(rows: seq<RawRow>, start: int, end: int, census: seq<PopRow>,
                       sectors: map<string, string>, countries: map<string, string>)
    ensures TransformRows(rows, start, end, census, sectors, countries).Err? <==>
            exists i :: 0 <= i < |rows| && ParseInt(rows[i].time).None?
    ensures TransformRows(rows, start, end, census, sectors, countries).Err? ==>
            exists i :: (FirstBadTime(rows, i) &&
                         TransformRows(rows, start, end, census, sectors, countries).error == IntError(rows[i].time))
  {
    ParseYearsFails(rows);
  }

  /** The caller's raw frame. `year` is the column the function adds to it. */
  class EmissionsFrame {
    var rows: seq<RawRow>
    var year: Option<seq<int>>

    constructor(rows: seq<RawRow>)
      ensures this.rows == rows && year == None
    {
      this.rows := rows;
      year := None;
    }
  }

  /** `transform_emissions_data`, step by step. The caller's frame gains the
      `year` column before anything is filtered; everything after works on
      new frames. */
  method TransformEmissionsData(frame: EmissionsFrame, start: int, end: int, census: seq<PopRow>,
                                sectors: map<string, string>, countries: map<string, string>)
    returns (r: Result<seq<OutRow>, string>)
    modifies frame
    ensures frame.rows == old(frame.rows)
    ensures r == TransformRows(old(frame.rows), start, end, census, sectors, countries)
    ensures ParseYears(old(frame.rows)).Ok? ==> frame.year == Some(ParseYears(old(frame.rows)).value)
    ensures ParseYears(old(frame.rows)).Err? ==> frame.year == old(frame.year)
  {
    var parsed := ParseYears(frame.rows);
    if parsed.Err? {
      return Err(parsed.error);
    }
    frame.year := Some(parsed.value);
    var inRange := InRange(WithYears(frame.rows, parsed.value), start, end);
    var emissions := Positive(inRange);
    var codes := UniqueCodes(emissions);
    var population := FetchPopulation(census, start, end, codes);
    var merged := Name(Join(emissions, population), sectors, countries);
    r := Ok(Complete(merged));
  }

  /** The output row `o` comes from the raw row `r` and the population row `p`. */
  predicate Source(r: RawRow, p: PopRow, o: OutRow, sectors: map<string, string>, countries: map<string, string>)
  {
    ParseInt(r.time) == Some(o.year) && r.value == Some(o.emissions) &&
    Lookup(countries, r.geo) == Some(o.countryName) && Lookup(sectors, r.srcCrf) == o.sectorName &&
    p.countryCode == r.geo && p.year == o.year && p.population == Some(o.population)
  }

  /** Every output row is in the year range, has positive emissions and its
      per-capita value, and comes from one raw row and one population row
      with the same country code and year. */
  lemma OutputTracesBack(rows: seq<RawRow>, start: int, end: int, census: seq<PopRow>,
                         sectors: map<string, string>, countries: map<string, string>, o: OutRow)
    requires TransformRows(rows, start, end, census, sectors, countries).Ok?
    requires o in TransformRows(rows, start, end, census, sectors, countries).value
    ensures start <= o.year <= end && o.emissions > 0.0
    ensures o.perCapita == PerCapitaOf(o.emissions, o.population)
    ensures exists i, p :: 0 <= i < |rows| && p in census && Source(rows[i], p, o, sectors, countries)
  {
    var es := Cleaned(rows, start, end);
    var pop := FetchPopulation(census, start, end, Requested(rows, start, end));
    OutputFromJoin(es, pop, sectors, countries, o);
    var e, q :| e in es && q in pop && Built(e, q, o, sectors, countries);
    EmissionTracesBack(rows, start, end, e);
    var i :| KeptRow(rows, start, end, i) && e == Emission(rows[i].geo, rows[i].srcCrf, ParseYears(rows).value[i], rows[i].value.value);
    assert Source(rows[i], q, o, sectors, countries);
  }

  /** Output row `o` is built from emission row `e` and population row `p`
      of the same country and year. */
  predicate Built(e: Emission, p: PopRow, o: OutRow, sectors: map<string, string>, countries: map<string, string>)
  {
    p.countryCode == e.countryCode && p.year == e.year && p.population == Some(o.population) &&
    Lookup(countries, e.countryCode) == Some(o.countryName) && Lookup(sectors, e.sectorCode) == o.sectorName &&
    o.year == e.year && o.emissions == e.emissions && o.perCapita == PerCapitaOf(o.emissions, o.population)
  }

  /** Every row after the join, the name lookups and the completion comes
      from one emission row and one population row. */
  lemma OutputFromJoin(es: seq<Emission>, pop: seq<PopRow>, sectors: map<string, string>,
                       countries: map<string, string>, o: OutRow)
    requires o in Complete(Name(Join(es, pop), sectors, countries))
    ensures exists e, p :: e in es && p in pop && Built(e, p, o, sectors, countries)
  {
    var js := Join(es, pop);
    var ms := Name(js, sectors, countries);
    CompleteSound(ms, o);
    var m :| m in ms && Completes(m, o);
    var k :| 0 <= k < |ms| && ms[k] == m;
    assert js[k] in js;
    JoinSound(es, pop, js[k]);
    var q :| q in pop && q.countryCode == js[k].e.countryCode && q.year == js[k].e.year && q.population == js[k].population;
    assert Built(js[k].e, q, o, sectors, countries);
  }

  /** Every cleaned emission row is a kept raw row with its parsed year. */
  lemma EmissionTracesBack(rows: seq<RawRow>, start: int, end: int, e: Emission)
    requires ParseYears(rows).Ok? && e in Cleaned(rows, start, end)
    ensures exists i :: (KeptRow(rows, start, end, i) &&
                         e == Emission(rows[i].geo, rows[i].srcCrf, ParseYears(rows).value[i], rows[i].value.value))
  {
    var ys := WithYears(rows, ParseYears(rows).value);
    var x := YearRow(e.countryCode, e.sectorCode, e.year, Some(e.emissions));
    assert x in InRange(ys, start, end);
    var i :| 0 <= i < |ys| && ys[i] == x;
    assert KeptRow(rows, start, end, i);
  }

  /** Every raw row in the year range with a positive value and a known
      country code reaches the output once its population is known; an
      unknown sector code only leaves the sector name missing. */
  lemma RowSurvives(rows: seq<RawRow>, start: int, end: int, census: seq<PopRow>,
                    sectors: map<string, string>, countries: map<string, string>, i: int, c: int)
    requires ParseYears(rows).Ok? && 0 <= i < |rows|
    requires start <= ParseYears(rows).value[i] <= end
    requires rows[i].value.Some? && rows[i].value.value > 0.0 && rows[i].geo in countries
    requires 0 <= c < |census|
    requires census[c].countryCode == rows[i].geo && census[c].year == ParseYears(rows).value[i]
    requires census[c].population.Some?
    ensures exists o :: o in TransformRows(rows, start, end, census, sectors, countries).value &&
                        Source(rows[i], census[c], o, sectors, countries)
  {
    var years := ParseYears(rows).value;
    var e := Emission(rows[i].geo, rows[i].srcCrf, years[i], rows[i].value.value);
    var p := census[c];
    RowCleaned(rows, start, end, i);
    RowFetched(rows, start, end, census, i, c);
    var pop := FetchPopulation(census, start, end, Requested(rows, start, end));
    JoinedSurvives(Cleaned(rows, start, end), pop, sectors, countries, e, p);
    var o := OutRow(e.year, Lookup(sectors, e.sectorCode), countries[e.countryCode], p.population.value,
                    e.emissions, PerCapitaOf(e.emissions, p.population.value));
    assert Source(rows[i], p, o, sectors, countries);
  }

  /** A kept raw row is one of the cleaned emission rows. */
  lemma RowCleaned(rows: seq<RawRow>, start: int, end: int, i: int)
    requires ParseYears(rows).Ok? && KeptRow(rows, start, end, i)
    ensures Emission(rows[i].geo, rows[i].srcCrf, ParseYears(rows).value[i], rows[i].value.value) in Cleaned(rows, start, end)
  {
    var ys := WithYears(rows, ParseYears(rows).value);
    assert ys[i] in ys;
  }

  /** The population row of a kept row's country and year is downloaded. */
  lemma RowFetched(rows: seq<RawRow>, start: int, end: int, census: seq<PopRow>, i: int, c: int)
    requires ParseYears(rows).Ok? && KeptRow(rows, start, end, i) && 0 <= c < |census|
    requires census[c].countryCode == rows[i].geo && census[c].year == ParseYears(rows).value[i]
    requires census[c].population.Some?
    ensures census[c] in FetchPopulation(census, start, end, Requested(rows, start, end))
  {
    RequestedCodes(rows, start, end, rows[i].geo);
    assert census[c] in census;
  }

  /** An emission row joined with a population row of its country and year
      gives an output row once the country has a name. */
  lemma JoinedSurvives(es: seq<Emission>, pop: seq<PopRow>, sectors: map<string, string>,
                       countries: map<string, string>, e: Emission, p: PopRow)
    requires e in es && p in pop && p.countryCode == e.countryCode && p.year == e.year
    requires p.population.Some? && e.countryCode in countries
    ensures OutRow(e.year, Lookup(sectors, e.sectorCode), countries[e.countryCode], p.population.value,
                   e.emissions, PerCapitaOf(e.emissions, p.population.value))
            in Complete(Name(Join(es, pop), sectors, countries))
  {
    var js := Join(es, pop);
    var ms := Name(js, sectors, countries);
    JoinComplete(es, pop, e, p);
    var k :| 0 <= k < |js| && js[k] == Joined(e, p.population);
    assert ms[k] in ms;
    CompleteKeeps(ms, ms[k]);
  }

  /** `rows[i]` survives the year filter and the emissions cleaning. */
  predicate KeptRow(rows: seq<RawRow>, start: int, end: int, i: int)
    requires ParseYears(rows).Ok?
  {
    0 <= i < |rows| && start <= ParseYears(rows).value[i] <= end && rows[i].value.Some? && rows[i].value.value > 0.0
  }

  /** The population is requested for each country code of the cleaned
      rows, once each. */
  lemma RequestedCodes(rows: seq<RawRow>, start: int, end: int, code: string)
    requires ParseYears(rows).Ok?
    ensures code in Requested(rows, start, end) <==> exists i :: KeptRow(rows, start, end, i) && rows[i].geo == code
    ensures forall a, b :: 0 <= a < b < |Requested(rows, start, end)| ==>
      Requested(rows, start, end)[a] != Requested(rows, start, end)[b]
  {
    var es := Cleaned(rows, start, end);
    if code in Requested(rows, start, end) {
      var e :| e in es && e.countryCode == code;
      EmissionTracesBack(rows, start, end, e);
    }
    if exists i :: KeptRow(rows, start, end, i) && rows[i].geo == code {
      var i :| KeptRow(rows, start, end, i) && rows[i].geo == code;
      RowCleaned(rows, start, end, i);
    }
  }

  /** At most one population row per `(country_code, year)`. */
  predicate UniqueKeys(pop: seq<PopRow>)
  {
    forall a, b :: 0 <= a < b < |pop| ==> pop[a].countryCode != pop[b].countryCode || pop[a].year != pop[b].year
  }

  lemma {:induction false} MatchesAtMostOne(pop: seq<PopRow>, code: string, year: int)
    requires UniqueKeys(pop)
    ensures |Matches(pop, code, year)| <= 1
  {
    if pop != [] {
      var rest := pop[1..];
      assert UniqueKeys(rest) by {
        assert forall a :: 0 <= a < |rest| ==> rest[a] == pop[a + 1];
      }
      MatchesAtMostOne(rest, code, year);
      if pop[0].countryCode == code && pop[0].year == year {
        forall p | p in rest
          ensures p.countryCode != code || p.year != year
        {
          var b :| 0 <= b < |rest| && rest[b] == p;
          assert pop[b + 1] == p;
        }
        NoMatches(rest, code, year);
      }
    }
  }

  lemma {:induction false} NoMatches(pop: seq<PopRow>, code: string, year: int)
    requires forall p :: p in pop ==> p.countryCode != code || p.year != year
    ensures Matches(pop, code, year) == []
  {
    if pop != [] {
      NoMatches(pop[1..], code, year);
    }
  }

  lemma {:induction false} JoinLength(es: seq<Emission>, pop: seq<PopRow>)
    requires UniqueKeys(pop)
    ensures |Join(es, pop)| == |es|
  {
    if es != [] {
      MatchesAtMostOne(pop, es[0].countryCode, es[0].year);
      JoinLength(es[1..], pop);
    }
  }

  /** When the population table has at most one row per country and year,
      the output has no more rows than the cleaned emission rows. */
  lemma RowBound(rows: seq<RawRow>, start: int, end: int, census: seq<PopRow>,
                 sectors: map<string, string>, countries: map<string, string>)
    requires ParseYears(rows).Ok?
    requires UniqueKeys(census)
    ensures |TransformRows(rows, start, end, census, sectors, countries).value| <= |Cleaned(rows, start, end)| <= |rows|
  {
    FetchKeepsKeysUnique(census, start, end, Requested(rows, start, end));
    JoinLength(Cleaned(rows, start, end), FetchPopulation(census, start, end, Requested(rows, start, end)));
  }

  lemma {:induction false} FetchKeepsKeysUnique(census: seq<PopRow>, start: int, end: int, codes: seq<string>)
    requires UniqueKeys(census)
    ensures UniqueKeys(FetchPopulation(census, start, end, codes))
  {
    if census != [] {
      var rest := census[1..];
      assert UniqueKeys(rest) by {
        assert forall a :: 0 <= a < |rest| ==> rest[a] == census[a + 1];
      }
      FetchKeepsKeysUnique(rest, start, end, codes);
      var p := census[0];
      var tail := FetchPopulation(rest, start, end, codes);
      forall b | 0 <= b < |tail|
        ensures p.countryCode != tail[b].countryCode || p.year != tail[b].year
      {
        assert tail[b] in rest;
        var k :| 0 <= k < |rest| && rest[k] == tail[b];
        assert census[k + 1] == tail[b];
      }
    }
  }

  /** Rounding to two decimals is idempotent. */
  lemma Round2Idempotent(x: real)
    ensures Round2(Round2(x)) == Round2(x)
  {
    var n := RoundHalfEven(x * 100.0);
    var r := n as real / 100.0;
    assert r * 100.0 == n as real;
    assert (n as real).Floor == n;
  }

  /** `int("2020") == 2020`. */
  lemma Parse2020()
    ensures ParseInt("2020") == Some(2020)
  {
    assert "2020"[..3] == "202" && "202"[..2] == "20" && "20"[..1] == "2" && "2"[..0] == "";
  }

  /** The German row of the two-country example: 1000 kt for 83 million
      people is 12.05 kg per person. */
  lemma GermanyPerCapita()
    ensures PerCapitaOf(1000.0, 83000000) == Value(12.05)
  {
    var y := 1000.0 * 1000000.0 / 83000000 as real * 100.0;
    assert 1204.0 <= y < 1205.0;
    assert y.Floor == 1204;
  }

  /** The French row: 800 kt for 67 million people is 11.94 kg per person. */
  lemma FrancePerCapita()
    ensures PerCapitaOf(800.0, 67000000) == Value(11.94)
  {
    var y := 800.0 * 1000000.0 / 67000000 as real * 100.0;
    assert 1194.0 <= y < 1195.0;
    assert y.Floor == 1194;
  }

  /** The raw rows of the two-country example. */
  function TwoRows(): seq<RawRow>
  {
    [RawRow("2020", "DE", "1A1", Some(1000.0)), RawRow("2020", "FR", "1A1", Some(800.0))]
  }

  /** The population table of the two-country example. */
  function TwoCensus(): seq<PopRow>
  {
    [PopRow("DE", 2020, Some(83000000)), PopRow("FR", 2020, Some(67000000))]
  }

  /** Both example rows survive the cleaning, and both codes are requested. */
  lemma TwoCountryCleaned()
    ensures ParseYears(TwoRows()) == Ok([2020, 2020])
    ensures Cleaned(TwoRows(), 2020, 2020) == [Emission("DE", "1A1", 2020, 1000.0), Emission("FR", "1A1", 2020, 800.0)]
    ensures Requested(TwoRows(), 2020, 2020) == ["DE", "FR"]
  {
    var rows := TwoRows();
    Parse2020();
    var fr1 := [RawRow("2020", "FR", "1A1", Some(800.0))];
    assert fr1[1..] == [];
    assert ParseInt(fr1[0].time) == Some(2020);
    assert ParseYears(fr1[1..]) == Ok([]);
    assert [2020] + [] == [2020];
    assert ParseYears(fr1) == Ok([2020]);
    assert rows[1..] == fr1;
    assert ParseInt(rows[0].time) == Some(2020);
    assert [2020] + [2020] == [2020, 2020];
    assert ParseYears(rows) == Ok([2020, 2020]);
    var de := Emission("DE", "1A1", 2020, 1000.0);
    var fr := Emission("FR", "1A1", 2020, 800.0);
    var ys := WithYears(rows, [2020, 2020]);
    assert ys == [YearRow("DE", "1A1", 2020, Some(1000.0)), YearRow("FR", "1A1", 2020, Some(800.0))];
    assert ys[1..] == [ys[1]];
    assert ys[1..][1..] == [];
    assert InRange(ys, 2020, 2020) == ys;
    assert Cleaned(rows, 2020, 2020) == [de, fr];
    assert UniqueCodes([de]) == ["DE"] by {
      assert [de][..0] == [];
    }
    assert [de, fr][..1] == [de];
    assert "FR" !in ["DE"];
  }

  /** Each example emission row finds its one population row. */
  lemma TwoCountryJoin()
    ensures FetchPopulation(TwoCensus(), 2020, 2020, ["DE", "FR"]) == TwoCensus()
    ensures Join([Emission("DE", "1A1", 2020, 1000.0), Emission("FR", "1A1", 2020, 800.0)], TwoCensus())
            == [Joined(Emission("DE", "1A1", 2020, 1000.0), Some(83000000)),
                Joined(Emission("FR", "1A1", 2020, 800.0), Some(67000000))]
  {
    var census := TwoCensus();
    assert census[1..] == [census[1]];
    assert census[1..][1..] == [];
    var es := [Emission("DE", "1A1", 2020, 1000.0), Emission("FR", "1A1", 2020, 800.0)];
    assert es[1..] == [es[1]];
    assert es[1..][1..] == [];
  }

  /** The joined example rows with their sector and country names. */
  lemma TwoCountryNamed()
    ensures Name([Joined(Emission("DE", "1A1", 2020, 1000.0), Some(83000000)),
                  Joined(Emission("FR", "1A1", 2020, 800.0), Some(67000000))],
                 SectorMap["1A1" := "Energy industries"], CountryMap["DE" := "Germany"]["FR" := "France"])
            == [Merged(2020, Some("Energy industries"), Some("Germany"), Some(83000000), 1000.0),
                Merged(2020, Some("Energy industries"), Some("France"), Some(67000000), 800.0)]
  {
    var sectors := SectorMap["1A1" := "Energy industries"];
    var countries := CountryMap["DE" := "Germany"]["FR" := "France"];
    assert Lookup(sectors, "1A1") == Some("Energy industries");
    assert Lookup(countries, "DE") == Some("Germany");
    assert Lookup(countries, "FR") == Some("France");
  }

  /** The named example rows with their per-capita values. */
  lemma TwoCountryCompleted()
    ensures Complete([Merged(2020, Some("Energy industries"), Some("Germany"), Some(83000000), 1000.0),
                      Merged(2020, Some("Energy industries"), Some("France"), Some(67000000), 800.0)])
            == [OutRow(2020, Some("Energy industries"), "Germany", 83000000, 1000.0, Value(12.05)),
                OutRow(2020, Some("Energy industries"), "France", 67000000, 800.0, Value(11.94))]
  {
    var germany := Merged(2020, Some("Energy industries"), Some("Germany"), Some(83000000), 1000.0);
    var france := Merged(2020, Some("Energy industries"), Some("France"), Some(67000000), 800.0);
    GermanyPerCapita();
    FrancePerCapita();
    var gOut := OutRow(2020, Some("Energy industries"), "Germany", 83000000, 1000.0, Value(12.05));
    var fOut := OutRow(2020, Some("Energy industries"), "France", 67000000, 800.0, Value(11.94));
    assert [germany, france][1..] == [france];
    assert Complete([france]) == [fOut] by {
      assert [france][1..] == [];
    }
    assert [gOut] + [fOut] == [gOut, fOut];
  }

  /** Two 2020 energy-industry rows for Germany and France, with one
      population row each and the names set as the caller sets them, give
      one output row per country. */
  lemma TwoCountryRun()
    ensures TransformRows(TwoRows(), 2020, 2020, TwoCensus(), SectorMap["1A1" := "Energy industries"],
                          CountryMap["DE" := "Germany"]["FR" := "France"])
            == Ok([OutRow(2020, Some("Energy industries"), "Germany", 83000000, 1000.0, Value(12.05)),
                   OutRow(2020, Some("Energy industries"), "France", 67000000, 800.0, Value(11.94))])
  {
    TwoCountryCleaned();
    TwoCountryJoin();
    TwoCountryNamed();
    TwoCountryCompleted();
  }
}
