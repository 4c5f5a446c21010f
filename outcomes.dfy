/** Shared value types: optional values, results with an error message, and the
    numeric cells the forecaster reads from the emissions table. */
module Outcomes {

  datatype Option<T> = None | Some(value: T)

  /** The outcome of a Python call that either returns a value or raises;
      the error carries the exception's message. */
  datatype Result<T, E> = Ok(value: T) | Err(error: E)

  /** A Python float as the forecaster sees it: NaN or a (finite) number. */
  datatype Float = NaN | Real(x: real)

  /** One stored value of a numeric column: SQL NULL (read back as NaN), a
      number, or a piece of text that `float()` does not accept. */
  datatype Cell = Null | Num(x: real) | Text(t: string)

  /** One character as Python's `repr` writes it inside quotes `q`: a
      backslash, the quote itself and the three common control characters
      are escaped. */
  function EscapeChar(c: char, q: char): string
  {
    if c == '\\' then "\\\\"
    else if c == q then "\\" + [q]
    else if c == '\n' then "\\n"
    else if c == '\r' then "\\r"
    else if c == '\t' then "\\t"
    else [c]
  }

  function Escape(t: string, q: char): string
  {
    if t == [] then [] else EscapeChar(t[0], q) + Escape(t[1..], q)
  }

  /** Text that `repr` leaves unescaped between its quotes. */
  predicate Plain(t: string)
  {
    forall i :: 0 <= i < |t| ==> t[i] !in "\\'\"\n\r\t"
  }

  /** `repr(t)` of a Python str: single quotes, unless the text holds a
      single quote and no double quote, in which case double quotes. */
  function Repr(t: string): (r: string)
    ensures |r| >= 2 + |t| && r[0] == r[|r| - 1]
    ensures r[0] == '"' <==> '\'' in t && '"' !in t
    ensures r[0] == '\'' <==> !('\'' in t && '"' !in t)
  {
    var q := if '\'' in t && '"' !in t then '"' else '\'';
    EscapeLength(t, q);
    [q] + Escape(t, q) + [q]
  }

  lemma {:induction false} EscapeLength(t: string, q: char)
    ensures |Escape(t, q)| >= |t|
  {
    if t != [] {
      EscapeLength(t[1..], q);
    }
  }

  /** Text without quotes, backslashes or control characters is written
      verbatim between single quotes. */
  lemma {:induction false} ReprPlain(t: string)
    requires Plain(t)
    ensures Repr(t) == "'" + t + "'"
  {
    EscapePlain(t, '\'');
  }

  lemma {:induction false} EscapePlain(t: string, q: char)
    requires Plain(t) && q in "'\""
    ensures Escape(t, q) == t
  {
    if t != [] {
      assert t[0] !in "\\'\"\n\r\t";
      assert Plain(t[1..]) by {
        forall i | 0 <= i < |t[1..]| ensures t[1..][i] !in "\\'\"\n\r\t" {
          assert t[1..][i] == t[i + 1];
        }
      }
      EscapePlain(t[1..], q);
    }
  }

  /** Text holding an apostrophe and no double quote is written between
      double quotes, without escapes. */
  lemma ApostropheRepr()
    ensures Repr("it's") == "\"it's\""
  {
    assert '\'' in "it's" && '"' !in "it's";
    assert Escape("it's", '"') == "it's";
  }

  /** The message of the ValueError that `float(t)` raises for such text. */
  function FloatConversionError(t: string): (m: string)
    ensures Plain(t) ==> m == "could not convert string to float: '" + t + "'"
  {
    ReprPlainWhen(t);
    "could not convert string to float: " + Repr(t)
  }

  lemma ReprPlainWhen(t: string)
    ensures Plain(t) ==> Repr(t) == "'" + t + "'"
  {
    if Plain(t) {
      ReprPlain(t);
    }
  }
}
