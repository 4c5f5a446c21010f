/** `_linear_trend_forecast` (analysis/forecast.py): the shape-defined
    extrapolator behind the ARIMA fits. The least-squares fit that `np.polyfit`
    computes in floating point is computed here over exact reals. */
module ForecastTrend {
  import opened Outcomes
  import opened ForecastIndex

  /** One entry of a forecast series: its index label (None where pandas
      holds no year) and its value. */
  datatype Point = Point(year: Option<int>, value: Float)

  /** `steps` copies of `v` at the years `last + 1 .. last + steps`. */
  function Repeat(v: Float, last: int, steps: nat): (f: seq<Point>)
    ensures |f| == steps
    ensures forall k :: 0 <= k < steps ==> f[k] == Point(Some(last + 1 + k), v)
  {
    seq(steps, k => Point(Some(last + 1 + k), v))
  }

  /** `pd.Series([np.nan] * steps, index=[None] * steps)`. */
  function Undated(steps: nat): (f: seq<Point>)
    ensures |f| == steps
    ensures forall k :: 0 <= k < steps ==> f[k] == Point(None, NaN)
  {
    seq(steps, k => Point(None, NaN))
  }

  /** The numeric years of the trend: `index.astype(int)`, or `np.arange(n)`
      when that cast raises. */
  function TrendYears(labels: seq<Label>): (ys: seq<int>)
    ensures |ys| == |labels|
    ensures CastAll(labels).Some? ==> ys == CastAll(labels).value
    ensures CastAll(labels).None? ==> forall i :: 0 <= i < |ys| ==> ys[i] == i
  {
    match CastAll(labels)
    case Some(ys) => ys
    case None => seq(|labels|, i => i)
  }

  /** `float(c)` for a cell that is not text: NULL reads back as NaN. */
  function ToFloat(c: Cell): Float
    requires !c.Text?
  {
    if c.Null? then NaN else Real(c.x)
  }

  /** `np.array(values, dtype=float)`: the first text cell makes it raise. */
  function ToFloats(cells: seq<Cell>): (r: Result<seq<Float>, string>)
    ensures r.Err? <==> exists i :: 0 <= i < |cells| && cells[i].Text?
    ensures r.Ok? ==> |r.value| == |cells|
    ensures r.Ok? ==> forall i :: 0 <= i < |cells| ==> r.value[i] == ToFloat(cells[i])
  {
    if cells == [] then Ok([])
    else if cells[0].Text? then Err(FloatConversionError(cells[0].t))
    else
      match ToFloats(cells[1..])
      case Err(e) =>
        assert forall i :: 0 <= i < |cells| - 1 ==> cells[1..][i] == cells[i + 1];
        Err(e)
      case Ok(rest) =>
        assert forall i :: 1 <= i < |cells| ==> cells[i] == cells[1..][i - 1];
        Ok([ToFloat(cells[0])] + rest)
  }

  /** Every cell holds a number: none is NULL or text. */
  predicate AllNumbers(cells: seq<Cell>)
  {
    forall i :: 0 <= i < |cells| ==> cells[i].Num?
  }

  /** The numbers in cells that hold neither NULL nor text. */
  function Numbers(cells: seq<Cell>): (r: seq<real>)
    requires AllNumbers(cells)
    ensures |r| == |cells| && forall i :: 0 <= i < |cells| ==> cells[i] == Num(r[i])
  {
    seq(|cells|, i requires 0 <= i < |cells| => cells[i].x)
  }

  // ----- exact least squares -----
  // Sums over the years are kept in integers, where the solver reasons about
  // squares reliably; sums that involve the values are reals.

  function Sq(d: int): int
  {
    d * d
  }

  function SumInt(xs: seq<int>): int
  {
    if xs == [] then 0 else xs[0] + SumInt(xs[1..])
  }

  function SumSq(xs: seq<int>): int
  {
    if xs == [] then 0 else Sq(xs[0]) + SumSq(xs[1..])
  }

  function SumReal(ys: seq<real>): real
  {
    if ys == [] then 0.0 else ys[0] + SumReal(ys[1..])
  }

  /** The years as floats. */
  function Floats(xs: seq<int>): (r: seq<real>)
    ensures |r| == |xs| && forall i :: 0 <= i < |xs| ==> r[i] == xs[i] as real
  {
    seq(|xs|, i requires 0 <= i < |xs| => xs[i] as real)
  }

  /** The squared years as floats. */
  function Squares(xs: seq<int>): (r: seq<real>)
    ensures |r| == |xs| && forall i :: 0 <= i < |xs| ==> r[i] == (xs[i] as real) * (xs[i] as real)
  {
    seq(|xs|, i requires 0 <= i < |xs| => (xs[i] as real) * (xs[i] as real))
  }

  /** The products `xs[i] * ys[i]`. */
  function Products(xs: seq<int>, ys: seq<real>): (r: seq<real>)
    requires |xs| == |ys|
    ensures |r| == |xs| && forall i :: 0 <= i < |xs| ==> r[i] == (xs[i] as real) * ys[i]
  {
    seq(|xs|, i requires 0 <= i < |xs| => (xs[i] as real) * ys[i])
  }

  /** `n * sum(x^2) - sum(x)^2` over the integers: `n` times the sum of
      squared deviations of the years from their mean. */
  function Spread(xs: seq<int>): int
  {
    |xs| * SumSq(xs) - SumInt(xs) * SumInt(xs)
  }

  function SumYears(xs: seq<int>): real
  {
    SumReal(Floats(xs))
  }

  function SumSqYears(xs: seq<int>): real
  {
    SumReal(Squares(xs))
  }

  function SumProd(xs: seq<int>, ys: seq<real>): real
    requires |xs| == |ys|
  {
    SumReal(Products(xs, ys))
  }

  /** The determinant of the normal equations; zero exactly when the design
      is rank-deficient. */
  function YearSpread(xs: seq<int>): real
  {
    (|xs| as real) * SumSqYears(xs) - SumYears(xs) * SumYears(xs)
  }

  /** A fitted line `slope * x + intercept` (the result of `np.poly1d`). */
  datatype Line = Line(slope: real, intercept: real)

  function At(l: Line, x: real): real
  {
    l.slope * x + l.intercept
  }

  /** The degree-one least-squares line that `np.polyfit` returns for the
      points `(xs[i], ys[i])`. With two distinct years it is the unique
      solution of the normal equations. When all years equal some `c`,
      `np.polyfit` scales both columns of its design matrix to unit length;
      they coincide, and `lstsq` returns the minimum-norm solution
      `(mean / (2c), mean / 2)` with a warning only. When `c` is 0 the
      scaling divides by zero and the fit raises (None). */
  function FitLine(xs: seq<int>, ys: seq<real>): Option<Line>
    requires |xs| == |ys| > 0
  {
    var d := YearSpread(xs);
    if d != 0.0 then Some(NormalLine(|xs| as real, SumYears(xs), SumReal(ys), SumProd(xs, ys), d))
    else if xs[0] == 0 then None
    else
      var mean := SumReal(ys) / (|ys| as real);
      Some(Line(mean / (2.0 * (xs[0] as real)), mean / 2.0))
  }

  /** `line` solves the normal equations of least squares for the points
      `(xs[i], ys[i])`: its residuals sum to zero, and so do its residuals
      weighted by the years. */
  predicate SolvesNormalEquations(xs: seq<int>, ys: seq<real>, line: Line)
    requires |xs| == |ys|
  {
    Affine(SumReal(ys), SumYears(xs), |xs| as real, line.slope, line.intercept) &&
    Affine(SumProd(xs, ys), SumSqYears(xs), SumYears(xs), line.slope, line.intercept)
  }

  /** The solution of the normal equations for `n` points with sums `sx`,
      `sy`, `sxy` and spread `d`. */
  function NormalLine(n: real, sx: real, sy: real, sxy: real, d: real): Line
    requires n != 0.0 && d != 0.0
  {
    var slope := (n * sxy - sx * sy) / d;
    Line(slope, (sy - slope * sx) / n)
  }

  predicate AllReal(vs: seq<Float>)
  {
    forall i :: 0 <= i < |vs| ==> vs[i].Real?
  }

  function RealsOf(vs: seq<Float>): (r: seq<real>)
    requires AllReal(vs)
    ensures |r| == |vs| && forall i :: 0 <= i < |vs| ==> vs[i] == Real(r[i])
  {
    seq(|vs|, i requires 0 <= i < |vs| => vs[i].x)
  }

  /** `np.polyfit(years, values, deg=1)`: raises (None) on NaN input, where
      `lstsq` does not converge, and as `FitLine` says. */
  function PolyFit(years: seq<int>, vs: seq<Float>): (r: Option<Line>)
    requires |years| == |vs| > 0
  {
    if AllReal(vs) then
      FitLine(years, RealsOf(vs))
    else None
  }

  /** `np.polyfit` fails exactly on a NaN value or when every year is 0. */
  lemma PolyFitFailsIff(years: seq<int>, vs: seq<Float>)
    requires |years| == |vs| > 0
    ensures PolyFit(years, vs).None? <==> !AllReal(vs) || forall i :: 0 <= i < |years| ==> years[i] == 0
  {
    if AllReal(vs) {
      FitFailsIffYearsAllZero(years, RealsOf(vs));
    }
  }

  /** The extrapolation of `line` over `last + 1 .. last + steps`. */
  function Extrapolate(line: Line, last: int, steps: nat): (f: seq<Point>)
    ensures |f| == steps
    ensures forall k :: 0 <= k < steps ==>
      f[k] == Point(Some(last + 1 + k), Real(At(line, (last + 1 + k) as real)))
  {
    seq(steps, k => Point(Some(last + 1 + k), Real(At(line, (last + 1 + k) as real))))
  }

  function Last<T>(s: seq<T>): T
    requires |s| > 0
  {
    s[|s| - 1]
  }

  /** `_linear_trend_forecast(series, steps)` for a series with a plain index.
      It raises only when a value is text that `float()` rejects; otherwise it
      yields `steps` points dated after the LAST index entry (not the largest). */
  function LinearTrendForecast(labels: seq<Label>, cells: seq<Cell>, steps: nat): (r: Result<seq<Point>, string>)
    requires |labels| == |cells|
    ensures r.Err? <==> exists i :: 0 <= i < |cells| && cells[i].Text?
    ensures r.Ok? ==> |r.value| == steps
    ensures r.Ok? && cells == [] ==> r.value == Undated(steps)
    ensures r.Ok? && cells != [] ==>
      forall k :: 0 <= k < steps ==> r.value[k].year == Some(Last(TrendYears(labels)) + 1 + k)
    ensures r.Ok? && |cells| == 1 ==>
      forall k :: 0 <= k < steps ==> r.value[k].value == ToFloat(cells[0])
  {
    var years := TrendYears(labels);
    match ToFloats(cells)
    case Err(e) => Err(e)
    case Ok(vs) =>
      if |vs| == 0 then Ok(Undated(steps))
      else if |vs| == 1 then Ok(Repeat(vs[0], years[0], steps))
      else
        var last := Last(years);
        match PolyFit(years, vs)
        case Some(line) => Ok(Extrapolate(line, last, steps))
        case None => Ok(Repeat(Last(vs), last, steps))
  }

  /** With two or more values and no text, the trend repeats the last value
      when the fit raises: some value is NULL (NaN), or every year is 0. */
  lemma TrendFallbackRepeatsLast(labels: seq<Label>, cells: seq<Cell>, steps: nat)
    requires |labels| == |cells| >= 2
    requires forall i :: 0 <= i < |cells| ==> !cells[i].Text?
    requires !AllNumbers(cells) || forall i :: 0 <= i < |cells| ==> TrendYears(labels)[i] == 0
    ensures LinearTrendForecast(labels, cells, steps) == Ok(Repeat(ToFloat(Last(cells)), Last(TrendYears(labels)), steps))
  {
    var vs := ToFloats(cells).value;
    FloatsOfCells(cells, vs);
    PolyFitFailsIff(TrendYears(labels), vs);
    assert Last(vs) == ToFloat(Last(cells));
  }

  /** With two or more numbers and some non-zero year, the trend continues
      the fitted least-squares line after the last year. */
  lemma TrendExtrapolatesFit(labels: seq<Label>, cells: seq<Cell>, steps: nat)
    requires |labels| == |cells| >= 2 && AllNumbers(cells)
    requires exists i :: 0 <= i < |cells| && TrendYears(labels)[i] != 0
    ensures FitLine(TrendYears(labels), Numbers(cells)).Some?
    ensures LinearTrendForecast(labels, cells, steps) ==
      Ok(Extrapolate(FitLine(TrendYears(labels), Numbers(cells)).value, Last(TrendYears(labels)), steps))
  {
    var vs := ToFloats(cells).value;
    FloatsOfCells(cells, vs);
    PolyFitFailsIff(TrendYears(labels), vs);
  }

  /** The floats of cells without text are all numbers exactly when no
      cell is NULL, and then they are the cells' numbers. */
  lemma FloatsOfCells(cells: seq<Cell>, vs: seq<Float>)
    requires ToFloats(cells) == Ok(vs)
    ensures AllReal(vs) <==> AllNumbers(cells)
    ensures AllNumbers(cells) ==> RealsOf(vs) == Numbers(cells)
  {
    assert forall i :: 0 <= i < |cells| ==> vs[i] == ToFloat(cells[i]);
  }

  // ----- the rank condition -----

  /** The sum of squared distances of `rs` from `x`. */
  function SqDevFrom(rs: seq<int>, x: int): int
  {
    if rs == [] then 0 else Sq(rs[0] - x) + SqDevFrom(rs[1..], x)
  }

  lemma SqNonNegative(d: int)
    ensures Sq(d) >= 0
  {
  }

  lemma SqPositive(d: int)
    requires d != 0
    ensures Sq(d) > 0
  {
  }

  lemma ExpandStep(r: int, x: int, q: int, s: int, n: int)
    ensures Sq(r - x) + (q - 2 * x * s + n * Sq(x)) == (Sq(r) + q) - 2 * x * (r + s) + (n + 1) * Sq(x)
  {
  }

  lemma SpreadAlgebra(n: int, x: int, s: int, q: int)
    ensures (n + 1) * (Sq(x) + q) - (x + s) * (x + s) == (n * q - s * s) + (q - 2 * x * s + n * Sq(x))
  {
  }

  lemma {:induction false} SqDevFromExpand(rs: seq<int>, x: int)
    ensures SqDevFrom(rs, x) == SumSq(rs) - 2 * x * SumInt(rs) + |rs| * Sq(x)
  {
    if rs != [] {
      SqDevFromExpand(rs[1..], x);
      ExpandStep(rs[0], x, SumSq(rs[1..]), SumInt(rs[1..]), |rs| - 1);
    }
  }

  lemma {:induction false} SqDevFromNonNegative(rs: seq<int>, x: int)
    ensures SqDevFrom(rs, x) >= 0
  {
    if rs != [] {
      SqNonNegative(rs[0] - x);
      SqDevFromNonNegative(rs[1..], x);
    }
  }

  lemma {:induction false} SqDevFromBounds(rs: seq<int>, x: int, j: nat)
    requires j < |rs|
    ensures SqDevFrom(rs, x) >= Sq(rs[j] - x)
  {
    SqNonNegative(rs[0] - x);
    if j > 0 {
      SqDevFromBounds(rs[1..], x, j - 1);
    } else {
      SqDevFromNonNegative(rs[1..], x);
    }
  }

  /** Adding a year in front adds its squared distances to the others. */
  lemma SpreadStep(xs: seq<int>)
    requires xs != []
    ensures Spread(xs) == Spread(xs[1..]) + SqDevFrom(xs[1..], xs[0])
  {
    var rest := xs[1..];
    SqDevFromExpand(rest, xs[0]);
    SpreadAlgebra(|rest|, xs[0], SumInt(rest), SumSq(rest));
  }

  lemma {:induction false} SpreadNonNegative(xs: seq<int>)
    ensures Spread(xs) >= 0
  {
    if xs != [] {
      SpreadStep(xs);
      SpreadNonNegative(xs[1..]);
      SqDevFromNonNegative(xs[1..], xs[0]);
    }
  }

  /** Two distinct years make the least-squares problem well posed. */
  lemma {:induction false} SpreadPositive(xs: seq<int>, i: nat, j: nat)
    requires i < |xs| && j < |xs| && xs[i] != xs[j]
    ensures Spread(xs) > 0
  {
    SpreadStep(xs);
    if i > 0 && j > 0 {
      SpreadPositive(xs[1..], i - 1, j - 1);
      SqDevFromNonNegative(xs[1..], xs[0]);
    } else {
      var k := if i > 0 then i else j;
      SpreadNonNegative(xs[1..]);
      SqDevFromBounds(xs[1..], xs[0], k - 1);
      SqPositive(xs[k] - xs[0]);
    }
  }

  /** All years equal: the fit is rank-deficient. */
  lemma {:induction false} ConstantSpread(xs: seq<int>)
    requires forall i :: 0 <= i < |xs| ==> xs[i] == xs[0]
    ensures Spread(xs) == 0
  {
    if xs != [] {
      SpreadStep(xs);
      if |xs| > 1 {
        ConstantSpread(xs[1..]);
        ConstantDistance(xs[1..], xs[0]);
      }
    }
  }

  lemma {:induction false} ConstantDistance(rs: seq<int>, x: int)
    requires forall i :: 0 <= i < |rs| ==> rs[i] == x
    ensures SqDevFrom(rs, x) == 0
  {
    if rs != [] {
      ConstantDistance(rs[1..], x);
    }
  }

  /** On real values `np.polyfit` raises exactly when every year is 0. */
  lemma FitFailsIffYearsAllZero(xs: seq<int>, ys: seq<real>)
    requires |xs| == |ys| > 0
    ensures FitLine(xs, ys).None? <==> forall i :: 0 <= i < |xs| ==> xs[i] == 0
  {
    YearSpreadAsInt(xs);
    if exists i, j :: 0 <= i < |xs| && 0 <= j < |xs| && xs[i] != xs[j] {
      var i, j :| 0 <= i < |xs| && 0 <= j < |xs| && xs[i] != xs[j];
      SpreadPositive(xs, i, j);
    } else {
      ConstantSpread(xs);
    }
  }

  lemma MinimumNormAt(mean: real, c: real)
    requires c != 0.0
    ensures At(Line(mean / (2.0 * c), mean / 2.0), c) == mean
    ensures mean / (2.0 * c) * c == mean / 2.0
  {
    assert mean / (2.0 * c) * c == mean / 2.0;
  }

  /** When all years equal `c != 0`, the fitted line passes through the mean
      value at year `c`, like any least-squares line through those points.
      Among those lines `np.polyfit` returns the minimum-norm solution of its
      column-scaled system, whose two scaled coefficients are equal: the
      slope times `c` equals the intercept. */
  lemma ConstantYearsFitMean(xs: seq<int>, ys: seq<real>)
    requires |xs| == |ys| > 0 && xs[0] != 0
    requires forall i :: 0 <= i < |xs| ==> xs[i] == xs[0]
    ensures FitLine(xs, ys).Some?
    ensures At(FitLine(xs, ys).value, xs[0] as real) == SumReal(ys) / (|ys| as real)
    ensures FitLine(xs, ys).value.slope * (xs[0] as real) == FitLine(xs, ys).value.intercept
  {
    ConstantSpread(xs);
    YearSpreadAsInt(xs);
    MinimumNormAt(SumReal(ys) / (|ys| as real), xs[0] as real);
  }

  // ----- the fit continues a line the points already lie on -----

  /** `z` is the combination `a * u + b * v`. */
  predicate Affine(z: real, u: real, v: real, a: real, b: real)
  {
    z == a * u + b * v
  }

  /** Every point `(xs[k], ys[k])` lies on the line `y = a*x + b`. */
  predicate OnLine(xs: seq<int>, ys: seq<real>, a: real, b: real)
  {
    |xs| == |ys| && forall k :: 0 <= k < |xs| ==> ys[k] == a * (xs[k] as real) + b
  }

  lemma CombineStep(a: real, b: real, z: real, u: real, v: real, zr: real, ur: real, vr: real)
    requires Affine(z, u, v, a, b) && Affine(zr, ur, vr, a, b)
    ensures Affine(z + zr, u + ur, v + vr, a, b)
  {
  }

  /** Summation is linear. */
  lemma {:induction false} LinearSum(zs: seq<real>, us: seq<real>, vs: seq<real>, a: real, b: real)
    requires |zs| == |us| == |vs|
    requires forall k :: 0 <= k < |zs| ==> Affine(zs[k], us[k], vs[k], a, b)
    ensures Affine(SumReal(zs), SumReal(us), SumReal(vs), a, b)
  {
    if zs != [] {
      LinearSum(zs[1..], us[1..], vs[1..], a, b);
      CombineStep(a, b, zs[0], us[0], vs[0], SumReal(zs[1..]), SumReal(us[1..]), SumReal(vs[1..]));
    }
  }

  lemma {:induction false} SumOfOnes(n: nat)
    ensures SumReal(seq(n, _ => 1.0)) == n as real
  {
    if n > 0 {
      SumOfOnes(n - 1);
      assert seq(n, _ => 1.0)[1..] == seq(n - 1, _ => 1.0);
    }
  }

  lemma SquareAsReal(x: int)
    ensures Sq(x) as real == (x as real) * (x as real)
  {
  }

  lemma SpreadAsReal(n: int, q: int, s: int)
    ensures (n * q - s * s) as real == (n as real) * (q as real) - (s as real) * (s as real)
  {
  }

  lemma {:induction false} SumYearsAsInt(xs: seq<int>)
    ensures SumYears(xs) == SumInt(xs) as real
  {
    if xs != [] {
      SumYearsAsInt(xs[1..]);
      assert Floats(xs)[1..] == Floats(xs[1..]);
    }
  }

  lemma {:induction false} SumSqYearsAsInt(xs: seq<int>)
    ensures SumSqYears(xs) == SumSq(xs) as real
  {
    if xs != [] {
      SumSqYearsAsInt(xs[1..]);
      forall i | 0 <= i < |xs| - 1
        ensures Squares(xs)[1..][i] == Squares(xs[1..])[i]
      {
      }
      assert Squares(xs)[1..] == Squares(xs[1..]);
      SquareAsReal(xs[0]);
    }
  }

  /** The float determinant is the integer spread. */
  lemma YearSpreadAsInt(xs: seq<int>)
    ensures YearSpread(xs) == Spread(xs) as real
  {
    SumYearsAsInt(xs);
    SumSqYearsAsInt(xs);
    SpreadAsReal(|xs|, SumSq(xs), SumInt(xs));
  }

  lemma SlopeAlgebra(a: real, b: real, n: real, s: real, q: real, sy: real, sxy: real, d: real)
    requires Affine(sy, s, n, a, b) && Affine(sxy, q, s, a, b) && d == n * q - s * s && d != 0.0
    ensures (n * sxy - s * sy) / d == a
  {
    assert n * sxy - s * sy == a * d;
  }

  lemma InterceptAlgebra(a: real, b: real, n: real, s: real, sy: real)
    requires Affine(sy, s, n, a, b) && n > 0.0
    ensures (sy - a * s) / n == b
  {
    assert sy - a * s == b * n;
  }

  lemma NormalLineOf(a: real, b: real, n: real, s: real, q: real, sy: real, sxy: real, d: real)
    requires Affine(sy, s, n, a, b) && Affine(sxy, q, s, a, b) && d == n * q - s * s
    requires n > 0.0 && d != 0.0
    ensures NormalLine(n, s, sy, sxy, d) == Line(a, b)
  {
    SlopeAlgebra(a, b, n, s, q, sy, sxy, d);
    InterceptAlgebra(a, b, n, s, sy);
  }

  lemma ProductOnLine(a: real, b: real, x: real, y: real)
    requires y == a * x + b
    ensures Affine(x * y, x * x, x, a, b)
  {
  }

  /** The values of points on `y = a*x + b` sum to `a * sum(x) + b * n`. */
  lemma SumOnLine(xs: seq<int>, ys: seq<real>, a: real, b: real)
    requires OnLine(xs, ys, a, b)
    ensures Affine(SumReal(ys), SumYears(xs), |xs| as real, a, b)
  {
    var ones := seq(|xs|, _ => 1.0);
    forall k | 0 <= k < |xs|
      ensures Affine(ys[k], Floats(xs)[k], ones[k], a, b)
    {
    }
    LinearSum(ys, Floats(xs), ones, a, b);
    SumOfOnes(|xs|);
  }

  /** The products `x * y` of points on `y = a*x + b` sum to
      `a * sum(x^2) + b * sum(x)`. */
  lemma ProductSumOnLine(xs: seq<int>, ys: seq<real>, a: real, b: real)
    requires OnLine(xs, ys, a, b)
    ensures Affine(SumProd(xs, ys), SumSqYears(xs), SumYears(xs), a, b)
  {
    forall k | 0 <= k < |xs|
      ensures Affine(Products(xs, ys)[k], Squares(xs)[k], Floats(xs)[k], a, b)
    {
      ProductOnLine(a, b, xs[k] as real, ys[k]);
    }
    LinearSum(Products(xs, ys), Squares(xs), Floats(xs), a, b);
  }

  /** For points lying exactly on `y = a*x + b` with at least two distinct
      years, the least-squares line is that line. */
  lemma FitRecoversLine(xs: seq<int>, ys: seq<real>, a: real, b: real, i: nat, j: nat)
    requires |xs| > 0 && OnLine(xs, ys, a, b)
    requires i < |xs| && j < |xs| && xs[i] != xs[j]
    ensures FitLine(xs, ys) == Some(Line(a, b))
  {
    SpreadPositive(xs, i, j);
    YearSpreadAsInt(xs);
    SumOnLine(xs, ys, a, b);
    ProductSumOnLine(xs, ys, a, b);
    SumsFitLine(xs, ys, a, b);
  }

  /** Sums that agree with the line `(a, b)` make the fit that line. */
  lemma SumsFitLine(xs: seq<int>, ys: seq<real>, a: real, b: real)
    requires |xs| == |ys| > 0 && YearSpread(xs) != 0.0
    requires Affine(SumReal(ys), SumYears(xs), |xs| as real, a, b)
    requires Affine(SumProd(xs, ys), SumSqYears(xs), SumYears(xs), a, b)
    ensures FitLine(xs, ys) == Some(Line(a, b))
  {
    var n, sx, sq, d := |xs| as real, SumYears(xs), SumSqYears(xs), YearSpread(xs);
    assert d == n * sq - sx * sx;
    NormalLineOf(a, b, n, sx, sq, SumReal(ys), SumProd(xs, ys), d);
    FitIsNormalLine(xs, ys);
  }

  /** With a non-zero spread the fit is the solution of the normal equations. */
  lemma FitIsNormalLine(xs: seq<int>, ys: seq<real>)
    requires |xs| == |ys| > 0 && YearSpread(xs) != 0.0
    ensures FitLine(xs, ys) == Some(NormalLine(|xs| as real, SumYears(xs), SumReal(ys), SumProd(xs, ys), YearSpread(xs)))
  {
  }

  /** Cells holding points of `y = a*x + b` fit back to that line. */
  lemma CellsFitLine(years: seq<int>, cells: seq<Cell>, a: real, b: real, i: nat, j: nat)
    requires |years| == |cells|
    requires forall k :: 0 <= k < |cells| ==> cells[k] == Num(a * (years[k] as real) + b)
    requires i < |years| && j < |years| && years[i] != years[j]
    ensures ToFloats(cells).Ok? && PolyFit(years, ToFloats(cells).value) == Some(Line(a, b))
  {
    var r := ToFloats(cells);
    assert r.Ok? by {
      assert forall k :: 0 <= k < |cells| ==> !cells[k].Text?;
    }
    var vs := r.value;
    assert AllReal(vs) by {
      forall k | 0 <= k < |vs| ensures vs[k].Real? {
        assert vs[k] == ToFloat(cells[k]);
      }
    }
    var ys := RealsOf(vs);
    forall k | 0 <= k < |years| ensures ys[k] == a * (years[k] as real) + b {
      assert vs[k] == ToFloat(cells[k]);
    }
    assert OnLine(years, ys, a, b);
    FitRecoversLine(years, ys, a, b, i, j);
  }

  /** `_linear_trend_forecast` continues a series whose points lie on a line:
      the k-th forecast is that line at year `last + k`. */
  lemma TrendContinuesLine(labels: seq<Label>, years: seq<int>, cells: seq<Cell>, steps: nat,
                           a: real, b: real, i: nat, j: nat)
    requires |labels| == |cells| && CastAll(labels) == Some(years)
    requires forall k :: 0 <= k < |cells| ==> cells[k] == Num(a * (years[k] as real) + b)
    requires i < |years| && j < |years| && years[i] != years[j]
    ensures LinearTrendForecast(labels, cells, steps) == Ok(Extrapolate(Line(a, b), Last(years), steps))
  {
    CellsFitLine(years, cells, a, b, i, j);
    assert TrendYears(labels) == years;
    assert |ToFloats(cells).value| >= 2;
  }

  // ----- the fit solves the normal equations -----

  lemma QuotientTimes(p: real, q: real)
    requires q != 0.0
    ensures (p / q) * q == p
  {
  }

  lemma WeightedStep(n: real, a: real, b: real, sx: real, sq: real, sy: real)
    requires b * n == sy - a * sx
    ensures n * (a * sq + b * sx) == a * (n * sq - sx * sx) + sx * sy
  {
    assert n * (b * sx) == (b * n) * sx;
  }

  lemma CancelFactor(n: real, u: real, v: real)
    requires n != 0.0 && n * u == n * v
    ensures u == v
  {
  }

  /** The solution of the normal equations solves them. */
  lemma NormalLineSolves(n: real, sx: real, sq: real, sy: real, sxy: real, d: real)
    requires n > 0.0 && d == n * sq - sx * sx && d != 0.0
    ensures Affine(sy, sx, n, NormalLine(n, sx, sy, sxy, d).slope, NormalLine(n, sx, sy, sxy, d).intercept)
    ensures Affine(sxy, sq, sx, NormalLine(n, sx, sy, sxy, d).slope, NormalLine(n, sx, sy, sxy, d).intercept)
  {
    var a := (n * sxy - sx * sy) / d;
    var b := (sy - a * sx) / n;
    assert NormalLine(n, sx, sy, sxy, d) == Line(a, b);
    QuotientTimes(sy - a * sx, n);
    QuotientTimes(n * sxy - sx * sy, d);
    assert a * d == n * sxy - sx * sy;
    WeightedStep(n, a, b, sx, sq, sy);
    assert n * (a * sq + b * sx) == n * sxy;
    CancelFactor(n, a * sq + b * sx, sxy);
  }

  /** With two distinct years, the fitted line solves the normal equations
      of least squares for the points. */
  lemma FitSolvesNormalEquations(xs: seq<int>, ys: seq<real>, i: nat, j: nat)
    requires |xs| == |ys| && i < |xs| && j < |xs| && xs[i] != xs[j]
    ensures FitLine(xs, ys).Some? && SolvesNormalEquations(xs, ys, FitLine(xs, ys).value)
  {
    SpreadPositive(xs, i, j);
    YearSpreadAsInt(xs);
    SpreadFitSolves(xs, ys);
  }

  lemma SpreadFitSolves(xs: seq<int>, ys: seq<real>)
    requires |xs| == |ys| > 0 && YearSpread(xs) != 0.0
    ensures FitLine(xs, ys).Some? && SolvesNormalEquations(xs, ys, FitLine(xs, ys).value)
  {
    var n, sx, sq, d := |xs| as real, SumYears(xs), SumSqYears(xs), YearSpread(xs);
    assert d == n * sq - sx * sx;
    FitIsNormalLine(xs, ys);
    NormalLineSolves(n, sx, sq, SumReal(ys), SumProd(xs, ys), d);
  }
}
