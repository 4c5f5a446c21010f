/** The dashboard's dropdown (dashboard/app.py): each (country, sector) pair
    becomes an option whose value is the two names joined by "|||", and the
    chart callback splits the selected value again before it queries the
    database. Layout and Plotly styling are not modelled; a chart is its
    title and whether it carries a forecast trace. */
module Dashboard {
  import opened Outcomes

  /** The separator between the two names in an option value. */
  const Separator: string := "|||"

  /** `s` holds the separator at position `k`. */
  predicate SeparatorAt(s: string, k: int)
  {
    0 <= k && k + 3 <= |s| && s[k..k + 3] == Separator
  }

  /** Python's `"|||" in s`. */
  predicate HasSeparator(s: string)
  {
    exists k :: 0 <= k < |s| && SeparatorAt(s, k)
  }

  /** `s.find("|||", from)`: the leftmost separator at or after `from`. */
  function FindSeparator(s: string, from: nat): (r: Option<nat>)
    ensures r.Some? ==> from <= r.value && SeparatorAt(s, r.value)
    ensures r.Some? ==> forall j :: from <= j < r.value ==> !SeparatorAt(s, j)
    ensures r.None? ==> forall j :: from <= j ==> !SeparatorAt(s, j)
    decreases |s| - from
  {
    if from + 3 > |s| then None
    else if s[from..from + 3] == Separator then Some(from)
    else FindSeparator(s, from + 1)
  }

  /** `s.split("|||")`: the pieces between the leftmost non-overlapping
      separators, from left to right. */
  function Split(s: string): (parts: seq<string>)
    ensures |parts| >= 1
    decreases |s|
  {
    match FindSeparator(s, 0)
    case None => [s]
    case Some(i) => [s[..i]] + Split(s[i + 3..])
  }

  /** `"|||".join(parts)`. */
  function JoinParts(parts: seq<string>): string
  {
    if |parts| == 0 then ""
    else if |parts| == 1 then parts[0]
    else parts[0] + Separator + JoinParts(parts[1..])
  }

  /** Joining the pieces of a split gives the string back. */
  lemma {:induction false} JoinSplit(s: string)
    ensures JoinParts(Split(s)) == s
    decreases |s|
  {
    match FindSeparator(s, 0)
    case None =>
    case Some(i) =>
      JoinSplit(s[i + 3..]);
      var rest := Split(s[i + 3..]);
      assert Split(s) == [s[..i]] + rest;
      assert ([s[..i]] + rest)[1..] == rest;
      assert s == s[..i] + Separator + s[i + 3..];
  }

  /** No piece of a split holds the separator. */
  lemma {:induction false} SplitPiecesClean(s: string)
    ensures forall p :: p in Split(s) ==> !HasSeparator(p)
    decreases |s|
  {
    match FindSeparator(s, 0)
    case None =>
      forall k | SeparatorAt(s, k) ensures false {
      }
    case Some(i) =>
      SplitPiecesClean(s[i + 3..]);
      var head := s[..i];
      forall k | SeparatorAt(head, k) ensures false {
        assert s[k..k + 3] == head[k..k + 3];
        assert SeparatorAt(s, k);
      }
  }

  /** A string splits into one piece exactly when it holds no separator. */
  lemma SplitOnePiece(s: string)
    ensures |Split(s)| == 1 <==> !HasSeparator(s)
  {
    match FindSeparator(s, 0)
    case None =>
      forall k | SeparatorAt(s, k) ensures false {
      }
    case Some(i) =>
      assert SeparatorAt(s, i);
  }

  /** Two separators that do not overlap give at least three pieces. */
  lemma {:induction false} TwoSeparatorsThreePieces(s: string, a: int, b: int)
    requires SeparatorAt(s, a) && SeparatorAt(s, b) && a + 3 <= b
    ensures |Split(s)| >= 3
    decreases |s|
  {
    var i := FindSeparator(s, 0).value;
    var rest := s[i + 3..];
    assert i <= a;
    assert SeparatorAt(rest, b - (i + 3)) by {
      assert rest[b - (i + 3)..b - (i + 3) + 3] == s[b..b + 3];
    }
    SplitOnePiece(rest);
  }

  /** One dropdown option: its `label` (the text shown) and the value sent to the callback. */
  datatype Choice = Choice(text: string, value: string)

  /** The value of the option for a (country, sector) pair: `f"{c}|||{s}"`. */
  function Encode(country: string, sector: string): (v: string)
    ensures |v| == |country| + 3 + |sector|
    ensures v[..|country|] == country && SeparatorAt(v, |country|) && v[|country| + 3..] == sector
  {
    country + Separator + sector
  }

  /** The label of the option for a (country, sector) pair: `f"{c} - {s}"`. */
  function Label(country: string, sector: string): (l: string)
    ensures |l| == |country| + 3 + |sector|
    ensures l[..|country|] == country && l[|country|..|country| + 3] == " - " && l[|country| + 3..] == sector
  {
    country + " - " + sector
  }

  /** `get_country_sector_options` over the rows of its query: one option
      per distinct (country, sector) row, in the order of the rows. */
  function Options(rows: seq<(string, string)>): (opts: seq<Choice>)
    ensures |opts| == |rows|
  {
    if rows == [] then []
    else [Choice(Label(rows[0].0, rows[0].1), Encode(rows[0].0, rows[0].1))] + Options(rows[1..])
  }

  /** The `ValueError` of `country, sector = parts` when `parts` does not
      have exactly two elements. */
  datatype UnpackError = TooManyValues | NotEnoughValues

  /** `country, sector = value.split("|||")`. */
  function Decode(value: string): (r: Result<(string, string), UnpackError>)
    ensures r.Ok? <==> |Split(value)| == 2
  {
    var parts := Split(value);
    if |parts| == 2 then Ok((parts[0], parts[1]))
    else if |parts| < 2 then Err(NotEnoughValues)
    else Err(TooManyValues)
  }

  /** A country name that the separator may follow without being misread:
      it holds no separator and does not end with '|'. */
  predicate CleanCountry(country: string)
  {
    !HasSeparator(country) && (country == [] || country[|country| - 1] != '|')
  }

  /** In an option value of clean names the first separator is the one
      written between them. */
  lemma FirstSeparatorBetween(country: string, sector: string)
    requires CleanCountry(country)
    ensures FindSeparator(Encode(country, sector), 0) == Some(|country|)
  {
    var v := Encode(country, sector);
    var n := |country|;
    assert SeparatorAt(v, n) by {
      assert v[n..n + 3] == Separator;
    }
    forall j | 0 <= j < n ensures !SeparatorAt(v, j) {
      if j + 3 <= n {
        assert v[j..j + 3] == country[j..j + 3];
        assert !SeparatorAt(country, j);
      } else if j + 3 <= |v| {
        assert v[j..j + 3][n - 1 - j] == country[n - 1] != '|';
        assert Separator[n - 1 - j] == '|';
      }
    }
  }

  /** Decoding an option value of clean names gives the names back. */
  lemma DecodeClean(country: string, sector: string)
    requires CleanCountry(country) && !HasSeparator(sector)
    ensures Decode(Encode(country, sector)) == Ok((country, sector))
  {
    var v := Encode(country, sector);
    var n := |country|;
    FirstSeparatorBetween(country, sector);
    assert v[..n] == country;
    assert v[n + 3..] == sector;
    SplitOnePiece(sector);
    assert Split(v) == [country] + Split(sector);
  }

  /** Decoding an option value gives its names back only if they are clean. */
  lemma DecodedNamesClean(country: string, sector: string)
    requires Decode(Encode(country, sector)) == Ok((country, sector))
    ensures CleanCountry(country) && !HasSeparator(sector)
  {
    var v := Encode(country, sector);
    var n := |country|;
    var parts := Split(v);
    SplitPiecesClean(v);
    assert parts[0] in parts && parts[1] in parts;
    var i := FindSeparator(v, 0).value;
    assert parts[0] == v[..i];
    assert |parts[0]| == i == n;
    if n > 0 {
      assert !SeparatorAt(v, n - 1);
      assert v[n - 1..n + 2] == [country[n - 1]] + "||";
    }
  }

  /** Decoding an option value gives back its pair exactly when the country
      holds no separator and does not end with '|', and the sector holds
      no separator. */
  lemma DecodeEncode(country: string, sector: string)
    ensures Decode(Encode(country, sector)) == Ok((country, sector)) <==>
            CleanCountry(country) && !HasSeparator(sector)
  {
    if CleanCountry(country) && !HasSeparator(sector) {
      DecodeClean(country, sector);
    }
    if Decode(Encode(country, sector)) == Ok((country, sector)) {
      DecodedNamesClean(country, sector);
    }
  }

  /** A separator inside either name makes the callback's unpacking fail
      with too many values. */
  lemma SeparatorInNameFails(country: string, sector: string)
    requires HasSeparator(country) || HasSeparator(sector)
    ensures Decode(Encode(country, sector)) == Err(TooManyValues)
  {
    var v := Encode(country, sector);
    var n := |country|;
    assert SeparatorAt(v, n) by {
      assert v[n..n + 3] == Separator;
    }
    if HasSeparator(country) {
      var k :| 0 <= k < |country| && SeparatorAt(country, k);
      assert SeparatorAt(v, k) by {
        assert v[k..k + 3] == country[k..k + 3];
      }
      TwoSeparatorsThreePieces(v, k, n);
    } else {
      var k :| 0 <= k < |sector| && SeparatorAt(sector, k);
      assert SeparatorAt(v, n + 3 + k) by {
        assert v[n + 3 + k..n + 3 + k + 3] == sector[k..k + 3];
      }
      TwoSeparatorsThreePieces(v, n, n + 3 + k);
    }
  }

  /** A country name ending in '|' is cut short: the bar moves to the sector. */
  lemma TrailingBarMisread()
    ensures Encode("a|", "b") == Encode("a", "|b")
    ensures Decode(Encode("a|", "b")) == Ok(("a", "|b"))
  {
    DecodeEncode("a", "|b");
    assert CleanCountry("a");
    assert !HasSeparator("|b");
  }

  /** Every option is labelled `"c - s"`, and its value decodes to its own
      pair when the names are clean. */
  lemma {:induction false} OptionsRoundTrip(rows: seq<(string, string)>, i: int)
    requires 0 <= i < |rows|
    ensures Options(rows)[i].text == rows[i].0 + " - " + rows[i].1
    ensures Options(rows)[i].value == Encode(rows[i].0, rows[i].1)
    ensures CleanCountry(rows[i].0) && !HasSeparator(rows[i].1) ==>
            Decode(Options(rows)[i].value) == Ok(rows[i])
    ensures HasSeparator(rows[i].0) || HasSeparator(rows[i].1) ==>
            Decode(Options(rows)[i].value) == Err(TooManyValues)
  {
    if i == 0 {
      DecodeEncode(rows[0].0, rows[0].1);
      if HasSeparator(rows[0].0) || HasSeparator(rows[0].1) {
        SeparatorInNameFails(rows[0].0, rows[0].1);
      }
    } else {
      OptionsRoundTrip(rows[1..], i - 1);
    }
  }

  /** One stored row as the chart queries select it: the year and the two
      names of the `WHERE` clause. */
  datatype StoredRow = StoredRow(year: int, country: string, sector: string)

  /** `WHERE country_name = ? AND sector_name = ?`. */
  function Query(table: seq<StoredRow>, country: string, sector: string): (rows: seq<StoredRow>)
    ensures forall r :: r in rows <==> r in table && r.country == country && r.sector == sector
  {
    if table == [] then []
    else
      var rest := Query(table[1..], country, sector);
      assert forall r :: r in table <==> r == table[0] || r in table[1..];
      if table[0].country == country && table[0].sector == sector then [table[0]] + rest else rest
  }

  /** A chart: nothing drawn, or a title with the historical trace and, if
      there are forecast rows, a forecast trace. */
  datatype Figure = Blank | Plot(title: string, withForecast: bool)

  /** The three outputs of the callback: two figures and the message. */
  datatype View = View(total: Figure, perCapita: Figure, message: string)

  /** The message for a pair without historical rows. */
  function NoDataMessage(country: string, sector: string): string
  {
    "No data found for " + country + " - " + sector + "."
  }

  /** `not selected_value`: no selection, or the empty string. */
  predicate Falsy(selected: Option<string>)
  {
    selected == None || selected == Some("")
  }

  /** `update_charts(selected_value)` over the stored historical and
      forecast tables; an unpacking error propagates to the caller. */
  function UpdateCharts(selected: Option<string>, history: seq<StoredRow>, forecasts: seq<StoredRow>)
    : (r: Result<View, UnpackError>)
    ensures Falsy(selected) ==> r == Ok(View(Blank, Blank, ""))
    ensures r.Err? ==> !Falsy(selected) && Decode(selected.value).Err? && r.error == Decode(selected.value).error
    ensures !Falsy(selected) && Decode(selected.value).Err? ==> r == Err(Decode(selected.value).error)
    ensures r.Ok? && r.value.total.Blank? <==> r.Ok? && r.value.perCapita.Blank?
  {
    if Falsy(selected) then Ok(View(Blank, Blank, ""))
    else
      match Decode(selected.value)
      case Err(e) => Err(e)
      case Ok((country, sector)) =>
        var hist := Query(history, country, sector);
        var forecast := Query(forecasts, country, sector);
        if hist == [] then Ok(View(Blank, Blank, NoDataMessage(country, sector)))
        else
          Ok(View(Plot("Total Emissions for " + country + " - " + sector, forecast != []),
                  Plot("Emissions Per Capita for " + country + " - " + sector, forecast != []),
                  ""))
  }

  /** Without a selection the callback does not depend on the database. */
  lemma NoSelectionIgnoresData(selected: Option<string>, h1: seq<StoredRow>, f1: seq<StoredRow>,
                               h2: seq<StoredRow>, f2: seq<StoredRow>)
    requires Falsy(selected)
    ensures UpdateCharts(selected, h1, f1) == UpdateCharts(selected, h2, f2)
  {
  }

  /** Selecting an option for a pair with no historical rows shows two blank
      figures and the no-data message; with historical rows it draws both
      charts with the pair in their titles and clears the message. */
  lemma SelectedOption(country: string, sector: string, history: seq<StoredRow>, forecasts: seq<StoredRow>)
    requires CleanCountry(country) && !HasSeparator(sector)
    ensures (forall r :: r in history ==> r.country != country || r.sector != sector) ==>
            UpdateCharts(Some(Encode(country, sector)), history, forecasts)
            == Ok(View(Blank, Blank, "No data found for " + country + " - " + sector + "."))
    ensures (exists r :: r in history && r.country == country && r.sector == sector) ==>
            UpdateCharts(Some(Encode(country, sector)), history, forecasts)
            == Ok(View(Plot("Total Emissions for " + country + " - " + sector,
                            exists r :: r in forecasts && r.country == country && r.sector == sector),
                       Plot("Emissions Per Capita for " + country + " - " + sector,
                            exists r :: r in forecasts && r.country == country && r.sector == sector),
                       ""))
  {
    DecodeEncode(country, sector);
    assert Encode(country, sector) != "" by {
      assert |Encode(country, sector)| >= 3;
    }
    var hist := Query(history, country, sector);
    var forecast := Query(forecasts, country, sector);
    if hist != [] {
      assert hist[0] in hist;
    }
    if forecast != [] {
      assert forecast[0] in forecast;
    }
  }
}
