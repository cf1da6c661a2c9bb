/**
 * Data frames as the checks see them: named columns of optional cells.  What the column engine and
 * the regular-expression engine decide is supplied by a backend.
 */
module Frames {
  import opened Sequences
  import opened Ast

  datatype DType = Integral | Floating | Text | Boolean | Date | Datetime | Binary | Other

  /** Text is held as its UTF-8 bytes, one character each, so its length is the byte length. */
  datatype Cell = Num(x: real) | Str(s: string) | Flag(b: bool)

  datatype Series = Series(dtype: DType, cells: seq<Option<Cell>>)

  type Frame = map<string, Series>

  datatype Backend = Backend(
    castable: DType -> bool,            // a column type that casts to floats
    castCell: Cell -> Option<real>,     // the float a cell casts to, if any
    countable: DType -> bool,           // a column type whose distinct values can be counted
    regexOk: string -> bool,            // a pattern that compiles
    regexMatch: (string, string) -> bool)

  function NullCount(cells: seq<Option<Cell>>): nat {
    if cells == [] then 0 else (if cells[0].None? then 1 else 0) + NullCount(cells[1..])
  }

  /** Distinct cells; null counts as a value. */
  function Distinct(cells: seq<Option<Cell>>): set<Option<Cell>> { set c | c in cells }

  function NUnique(be: Backend, s: Series): Option<nat> {
    if be.countable(s.dtype) then Some(|Distinct(s.cells)|) else None
  }

  function AsFloat(be: Backend, s: Series): Option<seq<Option<real>>> {
    if !be.castable(s.dtype) then None
    else Some(seq(|s.cells|, i requires 0 <= i < |s.cells| =>
      match s.cells[i] case None => None case Some(c) => be.castCell(c)))
  }

  function AsText(s: Series): Option<seq<Option<string>>> {
    if !s.dtype.Text? then None
    else Some(seq(|s.cells|, i requires 0 <= i < |s.cells| =>
      if s.cells[i].Some? && s.cells[i].value.Str? then Some(s.cells[i].value.s) else None))
  }

  /** The rows whose value fails a test, in order; a null never fails. */
  function Failing<T>(cells: seq<Option<T>>, bad: T -> bool): seq<nat> {
    if cells == [] then [] else
      var n := |cells| - 1;
      Failing(cells[..n], bad) + if cells[n].Some? && bad(cells[n].value) then [n] else []
  }

  lemma {:induction false} FailingRows<T>(cells: seq<Option<T>>, bad: T -> bool, row: nat)
    ensures row in Failing(cells, bad) <==> row < |cells| && cells[row].Some? && bad(cells[row].value)
  {
    if cells == [] {
    } else {
      FailingRows(cells[..|cells| - 1], bad, row);
    }
  }

  ghost predicate SameTest<T(!new)>(a: T -> bool, b: T -> bool) {
    forall x :: a(x) == b(x)
  }

  /** Tests that agree on every value fail the same rows. */
  lemma {:induction false} SameTestSameRows<T(!new)>(cells: seq<Option<T>>, a: T -> bool, b: T -> bool)
    requires SameTest(a, b)
    ensures Failing(cells, a) == Failing(cells, b)
  {
    if cells == [] {
    } else {
      SameTestSameRows(cells[..|cells| - 1], a, b);
    }
  }

  function Aggregate(column: string, check: string, severity: Severity, observed: Option<real>, expected: Option<real>): Violation {
    Violation(column, check, severity, [], observed, expected)
  }

  function RowViolation(column: string, check: string, severity: Severity, rows: seq<nat>): seq<Violation> {
    if rows == [] then [] else [Violation(column, check, severity, rows, None, None)]
  }

  /** A row check on the column's values as floats; columns that do not cast are not checked. */
  function NumericCheck(be: Backend, s: Series, column: string, check: string, severity: Severity, bad: real -> bool): seq<Violation> {
    match AsFloat(be, s)
    case None => []
    case Some(cells) => RowViolation(column, check, severity, Failing(cells, bad))
  }

  function TextCheck(s: Series, column: string, check: string, severity: Severity, bad: string -> bool): seq<Violation> {
    match AsText(s)
    case None => []
    case Some(cells) => RowViolation(column, check, severity, Failing(cells, bad))
  }

  function RegexCheck(be: Backend, s: Series, column: string, severity: Severity, pattern: string): seq<Violation> {
    if !be.regexOk(pattern) then [Aggregate(column, "regex", severity, None, None)]
    else TextCheck(s, column, "regex", severity, NoMatch(be, pattern))
  }

  function NullViolation(s: Series, column: string, check: string, severity: Severity): seq<Violation> {
    var n := NullCount(s.cells);
    if n > 0 then [Aggregate(column, check, severity, Some(n as real), Some(0.0))] else []
  }

  // ---- Row tests ----

  function NotPositive(): real -> bool { x => x <= 0.0 }

  function NotNegative(): real -> bool { x => x >= 0.0 }

  function OutOfRange(min: Option<real>, max: Option<real>): real -> bool {
    x => (min.Some? && x < min.value) || (max.Some? && x > max.value)
  }

  function BadLength(min: nat, max: nat): string -> bool { s => |s| < min || |s| > max }

  function NotAllowed(values: seq<string>): string -> bool { s => s !in values }

  function NoMatch(be: Backend, pattern: string): string -> bool { s => !be.regexMatch(pattern, s) }
}
