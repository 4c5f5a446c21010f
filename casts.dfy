/** Python's `int()` applied to text, as `astype(int)` does for every entry of
    an index or a column of strings. */
module Casts {
  import opened Outcomes

  predicate IsDigit(c: char) { '0' <= c <= '9' }

  predicate AllDigits(s: string)
  {
    forall i :: 0 <= i < |s| ==> IsDigit(s[i])
  }

  /** The value of a run of decimal digits, most significant first. */
  function DigitsValue(s: string): (n: nat)
    requires AllDigits(s)
    ensures s == [] ==> n == 0
  {
    if s == [] then 0
    else 10 * DigitsValue(s[..|s| - 1]) + (s[|s| - 1] as int - '0' as int)
  }

  /** `int(t)` for a decimal literal: an optional sign followed by at least one
      digit; any other text makes `int()` raise, shown as None. */
  function ParseInt(t: string): (r: Option<int>)
    ensures r.Some? ==> |t| > 0
    ensures r.Some? && t[0] != '-' && t[0] != '+' ==> AllDigits(t) && r.value >= 0
    ensures t != [] && AllDigits(t) ==> r.Some?
    ensures r.Some? && (t[0] == '-' || t[0] == '+') ==> |t| > 1 && AllDigits(t[1..])
    ensures |t| > 1 && (t[0] == '-' || t[0] == '+') && AllDigits(t[1..]) ==> r.Some?
  {
    if t == [] then None
    else if t[0] == '-' || t[0] == '+' then
      var body := t[1..];
      if body != [] && AllDigits(body) then
        Some(if t[0] == '-' then -(DigitsValue(body) as int) else DigitsValue(body) as int)
      else None
    else if AllDigits(t) then Some(DigitsValue(t))
    else None
  }

  function DigitChar(d: nat): (c: char)
    requires d < 10
    ensures IsDigit(c) && c as int - '0' as int == d
  {
    ('0' as int + d) as char
  }

  /** The decimal rendering of a natural number, as `str(n)` writes it. */
  function ShowNat(n: nat): (s: string)
    ensures s != [] && AllDigits(s)
    decreases n
  {
    if n < 10 then [DigitChar(n)] else ShowNat(n / 10) + [DigitChar(n % 10)]
  }

  /** The decimal rendering of an integer, as `str(n)` writes it. */
  function Show(n: int): (s: string)
    ensures s != [] && (n < 0 <==> s[0] == '-')
    ensures n >= 0 ==> AllDigits(s)
  {
    if n < 0 then "-" + ShowNat(-n) else ShowNat(n)
  }

  lemma {:induction false} DigitsOfShowNat(n: nat)
    ensures DigitsValue(ShowNat(n)) == n
    decreases n
  {
    var s := ShowNat(n);
    if n >= 10 {
      DigitsOfShowNat(n / 10);
      assert s[..|s| - 1] == ShowNat(n / 10);
    }
  }

  /** `int(str(n)) == n`: parsing inverts rendering for every integer. */
  lemma ParseShow(n: int)
    ensures ParseInt(Show(n)) == Some(n)
  {
    if n < 0 {
      var digits := ShowNat(-n);
      DigitsOfShowNat(-n);
      var t := Show(n);
      assert t == "-" + digits;
      assert t[0] == '-' && t[1..] == digits;
      assert ParseInt(t) == Some(-(DigitsValue(digits) as int));
    } else {
      var digits := ShowNat(n);
      DigitsOfShowNat(n);
      assert Show(n) == digits && IsDigit(digits[0]);
      assert ParseInt(digits) == Some(DigitsValue(digits));
    }
  }
}
