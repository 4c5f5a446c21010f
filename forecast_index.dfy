/** `_ensure_year_period_index` (analysis/forecast.py): turning the index of a
    series into yearly periods. A period or a timestamp is represented by its
    calendar year; a plain index holds arbitrary labels. */
module ForecastIndex {
  import opened Outcomes
  import Casts

  /** One label of a plain (non-period, non-datetime) index. */
  datatype Label = IntLabel(n: int) | TextLabel(t: string) | NoneLabel

  /** The frequency attached to a period index. */
  datatype Freq = NoFreq | Annual | OtherFreq(code: string)

  datatype Index =
    | PeriodIndex(years: seq<int>, freq: Freq)
    | DatetimeIndex(stampYears: seq<int>)
    | PlainIndex(labels: seq<Label>)

  function Length(idx: Index): nat
  {
    match idx
    case PeriodIndex(ys, _) => |ys|
    case DatetimeIndex(ys) => |ys|
    case PlainIndex(ls) => |ls|
  }

  /** `int(label)`: integers pass, decimal text is parsed, anything else raises. */
  function CastLabel(l: Label): Option<int>
  {
    match l
    case IntLabel(n) => Some(n)
    case TextLabel(t) => Casts.ParseInt(t)
    case NoneLabel => None
  }

  /** `index.astype(int)`: all labels are cast, or the whole cast raises. */
  function CastAll(labels: seq<Label>): (r: Option<seq<int>>)
    ensures r.None? <==> exists i :: 0 <= i < |labels| && CastLabel(labels[i]).None?
    ensures r.Some? ==> |r.value| == |labels|
    ensures r.Some? ==> forall i :: 0 <= i < |labels| ==> CastLabel(labels[i]) == Some(r.value[i])
  {
    if labels == [] then Some([])
    else
      match (CastLabel(labels[0]), CastAll(labels[1..]))
      case (Some(y), Some(ys)) =>
        assert forall i :: 1 <= i < |labels| ==> labels[i] == labels[1..][i - 1];
        Some([y] + ys)
      case (_, _) =>
        assert forall i :: 0 <= i < |labels| - 1 ==> labels[1..][i] == labels[i + 1];
        None
  }

  /** The years 1, 2, ..., n in order. */
  function OneTo(n: nat): (r: seq<int>)
    ensures |r| == n && forall k :: 0 <= k < n ==> r[k] == k + 1
  {
    seq(n, k => k + 1)
  }

  /** The index `_ensure_year_period_index` leaves on a series. */
  function NormaliseIndex(idx: Index): (r: Index)
    ensures r.PeriodIndex? && r.freq != NoFreq && Length(r) == Length(idx)
    ensures idx.PeriodIndex? ==> r.years == idx.years
    ensures idx.PeriodIndex? && idx.freq != NoFreq ==> r == idx
    ensures idx.PeriodIndex? && idx.freq == NoFreq ==> r == PeriodIndex(idx.years, Annual)
    ensures idx.DatetimeIndex? ==> r == PeriodIndex(idx.stampYears, Annual)
    ensures idx.PlainIndex? && CastAll(idx.labels).None? ==> r.years == OneTo(|idx.labels|)
    ensures idx.PlainIndex? && CastAll(idx.labels).Some? ==>
      forall i :: 0 <= i < |idx.labels| ==> CastLabel(idx.labels[i]) == Some(r.years[i])
  {
    match idx
    case PeriodIndex(ys, f) => if f == NoFreq then PeriodIndex(ys, Annual) else idx
    case DatetimeIndex(ys) => PeriodIndex(ys, Annual)
    case PlainIndex(ls) =>
      match CastAll(ls)
      case Some(ys) => PeriodIndex(ys, Annual)
      case None => PeriodIndex(OneTo(|ls|), Annual)
  }

  /** A plain index with a label that cannot be cast is renumbered 1..n as a
      whole, even when every other label is a valid year. */
  lemma OneBadLabelRenumbersAll(labels: seq<Label>, bad: nat)
    requires bad < |labels| && CastLabel(labels[bad]).None?
    ensures NormaliseIndex(PlainIndex(labels)) == PeriodIndex(OneTo(|labels|), Annual)
  {
  }

  /** A normalised index is left as it is by a second normalisation. */
  lemma NormaliseIdempotent(idx: Index)
    ensures NormaliseIndex(NormaliseIndex(idx)) == NormaliseIndex(idx)
  {
  }

  /** Years that pandas' annual `PeriodIndex` accepts from integers: each is
      read as a four-digit year, and one below 1000 is refused. */
  predicate PeriodYears(ys: seq<int>)
  {
    forall i :: 0 <= i < |ys| ==> ys[i] >= 1000
  }

  /** `pd.PeriodIndex(ys, freq='Y')`: `None` when it raises. */
  function PeriodsOf(ys: seq<int>): (r: Option<Index>)
    ensures r.Some? <==> PeriodYears(ys)
    ensures r.Some? ==> r.value == PeriodIndex(ys, Annual)
  {
    if PeriodYears(ys) then Some(PeriodIndex(ys, Annual)) else None
  }

  /** `_ensure_year_period_index` as written, with the integer conversion
      of pandas: `None` when it raises. The cast branch and the fallback both
      build their periods from integers, and the fallback's 1..n are below
      1000, so a non-empty plain index that reaches the fallback raises. */
  function NormaliseIndexAsWritten(idx: Index): (r: Option<Index>)
    ensures r.Some? ==> r.value == NormaliseIndex(idx)
    ensures !idx.PlainIndex? && PeriodYears(NormaliseIndex(idx).years) ==> r.Some?
    ensures idx.PlainIndex? && |idx.labels| > 0 ==>
      (r.Some? <==> CastAll(idx.labels).Some? && PeriodYears(CastAll(idx.labels).value))
  {
    match idx
    case PeriodIndex(ys, f) => Some(NormaliseIndex(idx))
    case DatetimeIndex(ys) => PeriodsOf(ys)
    case PlainIndex(ls) =>
      assert |ls| > 0 ==> OneTo(|ls|)[0] == 1;
      match CastAll(ls)
      case Some(ys) =>
        if PeriodYears(ys) then PeriodsOf(ys) else PeriodsOf(OneTo(|ls|))
      case None => PeriodsOf(OneTo(|ls|))
  }

  /** The fallback never succeeds: a label that cannot be cast, as in
      `['a', 2020]`, or a year below 1000, as in `[1, 2, 3]`, makes the code
      as written raise, where the intended renumbering gives years 1..n. */
  lemma FallbackRaises()
    ensures NormaliseIndexAsWritten(PlainIndex([TextLabel("a"), IntLabel(2020)])).None?
    ensures NormaliseIndex(PlainIndex([TextLabel("a"), IntLabel(2020)])) == PeriodIndex([1, 2], Annual)
    ensures NormaliseIndexAsWritten(PlainIndex([IntLabel(1), IntLabel(2), IntLabel(3)])).None?
  {
    assert "a"[0] == 'a';
    assert !Casts.AllDigits("a") by {
      assert !Casts.IsDigit("a"[0]);
    }
    assert CastLabel(TextLabel("a")).None?;
    assert OneTo(2) == [1, 2];
    assert [1, 2, 3][0] < 1000;
  }

  /** Where the code as written succeeds it agrees with the intended
      normalisation, and on a plain index of real years it succeeds. */
  lemma {:induction false} AsWrittenAgreesOnYears(years: seq<int>)
    requires PeriodYears(years)
    ensures NormaliseIndexAsWritten(PlainIndex(seq(|years|, i requires 0 <= i < |years| => IntLabel(years[i]))))
      == Some(PeriodIndex(years, Annual))
  {
    var ls := seq(|years|, i requires 0 <= i < |years| => IntLabel(years[i]));
    assert forall i :: 0 <= i < |ls| ==> CastLabel(ls[i]) == Some(years[i]);
    assert CastAll(ls).Some?;
    assert CastAll(ls).value == years;
  }

  /** A pandas series whose index the normaliser reassigns in place. */
  class SeriesObject {
    var index: Index
    var values: seq<Cell>

    ghost predicate Valid()
      reads this
    {
      Length(index) == |values|
    }

    constructor (index: Index, values: seq<Cell>)
      requires Length(index) == |values|
      ensures Valid() && this.index == index && this.values == values
    {
      this.index := index;
      this.values := values;
    }

    /** `_ensure_year_period_index(s)`: only `s.index` changes; the values
        and their number stay as they were. */
    method EnsureYearPeriodIndex()
      requires Valid()
      modifies this
      ensures Valid() && values == old(values)
      ensures index == NormaliseIndex(old(index))
    {
      match index {
        case PeriodIndex(ys, f) =>
          if f == NoFreq {
            index := PeriodIndex(ys, Annual);
          }
        case DatetimeIndex(ys) =>
          index := PeriodIndex(ys, Annual);
        case PlainIndex(ls) =>
          var years := CastAll(ls);
          if years.Some? {
            index := PeriodIndex(years.value, Annual);
          } else {
            index := PeriodIndex(OneTo(|values|), Annual);
          }
      }
    }
  }
}
