/**
 * What each check finds, on the values in a column's cells: the interpreted constraints
 * (crates/statguardian-validators/src/schema.rs), the nodes (crates/statguardian-engine/src/batch.rs), the
 * quality rules (crates/statguardian-validators/src/rules.rs) and the compiled anomaly rules
 * (crates/statguardian-core/src/compiler/mod.rs).
 */
module CheckMeanings {
  import opened Sequences
  import opened Ast
  import opened Dag
  import opened Compiler
  import F = Frames
  import O = Outliers
  import Schema

  type Cells = seq<Option<F.Cell>>

  // ---- Nulls and repeated values ----

  ghost function Nulls(cells: Cells): set<nat> { set r: nat | r < |cells| && cells[r] == None }

  ghost predicate Repeats(cells: Cells) { exists i, j :: 0 <= i < j < |cells| && cells[i] == cells[j] }

  lemma {:induction false} NullCountOfMore(cells: Cells, c: Option<F.Cell>)
    ensures F.NullCount(cells + [c]) == F.NullCount(cells) + (if c == None then 1 else 0)
  {
    if cells == [] {
      assert [c][1..] == [];
    } else {
      assert (cells + [c])[1..] == cells[1..] + [c];
      NullCountOfMore(cells[1..], c);
    }
  }

  lemma {:induction false} NullsAreCounted(cells: Cells)
    ensures F.NullCount(cells) == |Nulls(cells)|
  {
    if cells == [] {
      assert Nulls(cells) == {};
    } else {
      var n := |cells| - 1;
      NullsAreCounted(cells[..n]);
      NullCountOfMore(cells[..n], cells[n]);
      assert cells == cells[..n] + [cells[n]];
      assert Nulls(cells) == Nulls(cells[..n]) + (if cells[n] == None then {n} else {});
    }
  }

  lemma {:induction false} DistinctUnlessRepeated(cells: Cells)
    ensures |F.Distinct(cells)| <= |cells| && (|F.Distinct(cells)| == |cells| <==> !Repeats(cells))
  {
    if cells == [] {
    } else {
      var n := |cells| - 1;
      var init, last := cells[..n], cells[n];
      DistinctUnlessRepeated(init);
      assert cells == init + [last];
      assert F.Distinct(cells) == F.Distinct(init) + {last};
      RepeatsWithLast(init, last);
    }
  }

  lemma RepeatsWithLast(init: Cells, last: Option<F.Cell>)
    ensures Repeats(init + [last]) <==> Repeats(init) || last in init
  {
    var cells := init + [last];
    if i, j :| 0 <= i < j < |cells| && cells[i] == cells[j] {
      assert j < |init| ==> init[i] == init[j];
    }
    if i, j :| 0 <= i < j < |init| && init[i] == init[j] {
      assert cells[i] == cells[j];
    }
    if last in init {
      var i :| 0 <= i < |init| && init[i] == last;
      assert cells[i] == cells[|init|];
    }
  }

  // ---- Row checks ----

  /** The number that a cell casts to. */
  function Number(be: F.Backend, dtype: F.DType, cell: Option<F.Cell>): Option<real> {
    if be.castable(dtype) && cell.Some? then be.castCell(cell.value) else None
  }

  /** The text in a cell of a text column. */
  function TextIn(dtype: F.DType, cell: Option<F.Cell>): Option<string> {
    if dtype == F.Text && cell.Some? && cell.value.Str? then Some(cell.value.s) else None
  }

  ghost predicate Increasing(rows: seq<nat>) { forall i, j :: 0 <= i < j < |rows| ==> rows[i] < rows[j] }

  /** One violation, listing exactly the failing rows in order, or none if no row fails. */
  ghost predicate FindsRows(vs: seq<Violation>, column: string, check: string, severity: Severity, cells: Cells,
                            fails: Option<F.Cell> -> bool)
  {
    if forall r :: 0 <= r < |cells| ==> !fails(cells[r]) then vs == []
    else
      && |vs| == 1 && vs[0] == Violation(column, check, severity, vs[0].rows, None, None)
      && Increasing(vs[0].rows) && forall r :: r in vs[0].rows <==> 0 <= r < |cells| && fails(cells[r])
  }

  lemma {:induction false} FailingIncreases<T>(cells: seq<Option<T>>, bad: T -> bool)
    ensures Increasing(F.Failing(cells, bad)) && forall r :: r in F.Failing(cells, bad) ==> r < |cells|
  {
    if cells == [] {
    } else {
      var before := F.Failing(cells[..|cells| - 1], bad);
      FailingIncreases(cells[..|cells| - 1], bad);
      assert forall i :: 0 <= i < |before| ==> before[i] in before;
    }
  }

  lemma RowsFound<T>(found: seq<Option<T>>, bad: T -> bool, column: string, check: string, severity: Severity, cells: Cells,
                     fails: Option<F.Cell> -> bool)
    requires |found| == |cells| && forall r :: 0 <= r < |cells| ==> (found[r].Some? && bad(found[r].value)) == fails(cells[r])
    ensures FindsRows(F.RowViolation(column, check, severity, F.Failing(found, bad)), column, check, severity, cells, fails)
  {
    var rows := F.Failing(found, bad);
    FailingIncreases(found, bad);
    forall r ensures r in rows <==> 0 <= r < |cells| && fails(cells[r]) {
      if 0 <= r {
        F.FailingRows(found, bad, r);
      }
    }
    assert rows != [] ==> rows[0] in rows;
  }

  lemma NumbersFound(be: F.Backend, s: F.Series, column: string, check: string, severity: Severity, bad: real -> bool,
                     fails: Option<F.Cell> -> bool)
    requires forall c :: fails(c) == (Number(be, s.dtype, c).Some? && bad(Number(be, s.dtype, c).value))
    ensures FindsRows(F.NumericCheck(be, s, column, check, severity, bad), column, check, severity, s.cells, fails)
  {
    if be.castable(s.dtype) {
      RowsFound(F.AsFloat(be, s).value, bad, column, check, severity, s.cells, fails);
    }
  }

  lemma TextsFound(s: F.Series, column: string, check: string, severity: Severity, bad: string -> bool, fails: Option<F.Cell> -> bool)
    requires forall c :: fails(c) == (TextIn(s.dtype, c).Some? && bad(TextIn(s.dtype, c).value))
    ensures FindsRows(F.TextCheck(s, column, check, severity, bad), column, check, severity, s.cells, fails)
  {
    if s.dtype.Text? {
      RowsFound(F.AsText(s).value, bad, column, check, severity, s.cells, fails);
    }
  }

  /** When a cell fails a row constraint, and the name it is reported under. */
  function RowRule(be: F.Backend, dtype: F.DType, c: Constraint): Option<(string, Option<F.Cell> -> bool)> {
    match c
    case Positive => Some(("positive", cell => Below(Number(be, dtype, cell), 0.0) || Is(Number(be, dtype, cell), 0.0)))
    case Negative => Some(("negative", cell => Above(Number(be, dtype, cell), 0.0) || Is(Number(be, dtype, cell), 0.0)))
    case Between(min, max) => Some(("between", cell => Below(Number(be, dtype, cell), min) || Above(Number(be, dtype, cell), max)))
    case Min(value) => Some(("min", cell => Below(Number(be, dtype, cell), value)))
    case Max(value) => Some(("max", cell => Above(Number(be, dtype, cell), value)))
    case Len(min, max) => Some(("len", cell => LengthOutside(TextIn(dtype, cell), min, max)))
    case Enum(values) => Some(("enum", cell => TextIn(dtype, cell).Some? && TextIn(dtype, cell).value !in values))
    case Regex(pattern) =>
      if be.regexOk(pattern) then Some(("regex", Breaks(be, dtype, pattern))) else None
    case _ => None
  }

  function Breaks(be: F.Backend, dtype: F.DType, pattern: string): Option<F.Cell> -> bool {
    cell => TextIn(dtype, cell).Some? && !be.regexMatch(pattern, TextIn(dtype, cell).value)
  }

  predicate Below(x: Option<real>, bound: real) { x.Some? && x.value < bound }

  predicate Above(x: Option<real>, bound: real) { x.Some? && x.value > bound }

  predicate Is(x: Option<real>, bound: real) { x.Some? && x.value == bound }

  predicate LengthOutside(t: Option<string>, min: nat, max: nat) { t.Some? && (|t.value| < min || |t.value| > max) }

  /** A row constraint lists exactly the rows whose cells fail it. */
  lemma RowConstraintFinds(be: F.Backend, s: F.Series, column: string, c: Constraint)
    requires RowRule(be, s.dtype, c).Some?
    ensures var (name, fails) := RowRule(be, s.dtype, c).value;
            FindsRows(Schema.ConstraintViolations(be, s, column, c), column, name, Error, s.cells, fails)
  {
    var (name, fails) := RowRule(be, s.dtype, c).value;
    match c {
      case Positive => NumbersFound(be, s, column, name, Error, F.NotPositive(), fails);
      case Negative => NumbersFound(be, s, column, name, Error, F.NotNegative(), fails);
      case Between(min, max) => NumbersFound(be, s, column, name, Error, Schema.OutsideBetween(min, max), fails);
      case Min(value) => NumbersFound(be, s, column, name, Error, Schema.BelowMin(value), fails);
      case Max(value) => NumbersFound(be, s, column, name, Error, Schema.AboveMax(value), fails);
      case Len(min, max) => TextsFound(s, column, name, Error, F.BadLength(min, max), fails);
      case Enum(values) => TextsFound(s, column, name, Error, F.NotAllowed(values), fails);
      case Regex(pattern) => TextsFound(s, column, name, Error, F.NoMatch(be, pattern), fails);
    }
  }

  /** The other constraints: nulls, repeated values, patterns that do not compile, and those never checked. */
  lemma OtherConstraintFinds(be: F.Backend, s: F.Series, column: string, c: Constraint)
    requires RowRule(be, s.dtype, c).None?
    ensures var vs, n := Schema.ConstraintViolations(be, s, column, c), |s.cells|;
      match c
      case NotNull => vs == NullsFound(s.cells, column, "not_null", Error)
      case PrimaryKey => vs == NullsFound(s.cells, column, "not_null", Error)
      case Unique =>
        var distinct := if be.countable(s.dtype) then |set cell | cell in s.cells| else 0;
        && (vs != [] <==> if be.countable(s.dtype) then Repeats(s.cells) else n > 0)
        && (vs != [] ==> vs == [Violation(column, "uniqueness", Error, [], Some(distinct as real), Some(n as real))])
      case Regex(_) => vs == [Violation(column, "regex", Error, [], None, None)]
      case _ => vs == []
  {
    NullsAreCounted(s.cells);
    DistinctUnlessRepeated(s.cells);
  }

  /** A null check reports how many rows hold no value, if any does. */
  ghost function NullsFound(cells: Cells, column: string, check: string, severity: Severity): seq<Violation> {
    if Nulls(cells) == {} then []
    else [Violation(column, check, severity, [], Some(|Nulls(cells)| as real), Some(0.0))]
  }

  // ---- Nodes ----

  /** When a cell fails a row node, and the name it is reported under. */
  function RowNodeRule(be: F.Backend, dtype: F.DType, n: DagNode): Option<(string, Option<F.Cell> -> bool)> {
    match n
    case PositiveCheck(_, _) => Some(("positive_check", cell => Below(Number(be, dtype, cell), 0.0) || Is(Number(be, dtype, cell), 0.0)))
    case NegativeCheck(_, _) => Some(("negative_check", cell => Above(Number(be, dtype, cell), 0.0) || Is(Number(be, dtype, cell), 0.0)))
    case RangeCheck(_, min, max, _) =>
      Some(("range_check", cell => (min.Some? && Below(Number(be, dtype, cell), min.value))
                                   || (max.Some? && Above(Number(be, dtype, cell), max.value))))
    case LenCheck(_, min, max, _) => Some(("len_check", cell => LengthOutside(TextIn(dtype, cell), min, max)))
    case EnumCheck(_, allowed, _) => Some(("enum_check", cell => TextIn(dtype, cell).Some? && TextIn(dtype, cell).value !in allowed))
    case RegexCheck(_, pattern, _) =>
      if be.regexOk(pattern) then Some(("regex", Breaks(be, dtype, pattern))) else None
    case _ => None
  }

  /** A row node on a column that is there lists exactly the rows whose cells fail it. */
  lemma RowNodeFinds(be: F.Backend, frame: F.Frame, n: DagNode)
    requires n.column in frame && RowNodeRule(be, frame[n.column].dtype, n).Some?
    ensures var s := frame[n.column];
            var (name, fails) := RowNodeRule(be, s.dtype, n).value;
            FindsRows(ExecuteNode(be, frame, n), n.column, name, n.severity, s.cells, fails)
  {
    var s := frame[n.column];
    var (name, fails) := RowNodeRule(be, s.dtype, n).value;
    match n {
      case PositiveCheck(column, severity) => NumbersFound(be, s, column, name, severity, F.NotPositive(), fails);
      case NegativeCheck(column, severity) => NumbersFound(be, s, column, name, severity, F.NotNegative(), fails);
      case RangeCheck(column, min, max, severity) => NumbersFound(be, s, column, name, severity, F.OutOfRange(min, max), fails);
      case LenCheck(column, min, max, severity) => TextsFound(s, column, name, severity, F.BadLength(min, max), fails);
      case EnumCheck(column, allowed, severity) => TextsFound(s, column, name, severity, F.NotAllowed(allowed), fails);
      case RegexCheck(column, pattern, severity) => TextsFound(s, column, name, severity, F.NoMatch(be, pattern), fails);
    }
  }

  /** The other nodes on a column that is there, outlier rules and quality metrics apart. */
  lemma OtherNodeFinds(be: F.Backend, frame: F.Frame, node: DagNode)
    requires node.column in frame && RowNodeRule(be, frame[node.column].dtype, node).None?
    requires !node.OutlierDetection? && !node.QualityMetricCheck?
    ensures var s, vs := frame[node.column], ExecuteNode(be, frame, node);
      var n, distinct, countable := |s.cells|, |set cell | cell in s.cells|, be.countable(s.dtype);
      match node
      case NullCheck(column, severity) => vs == NullsFound(s.cells, column, "null_check", severity)
      case UniquenessCheck(column, severity) =>
        if countable && Repeats(s.cells)
        then vs == [Violation(column, "uniqueness", severity, [], Some(distinct as real), Some(n as real))] else vs == []
      case DuplicateDetection(column, severity) =>
        if countable && Repeats(s.cells)
        then vs == [Violation(column, "duplicate_detection", severity, [], None, None)] else vs == []
      case NullAnomalyDetection(column, severity) =>
        if Nulls(s.cells) == {} then vs == []
        else vs == [Violation(column, "null_anomaly", severity, [], Some(|Nulls(s.cells)| as real / n as real), Some(0.0))]
      case CardinalityCheck(column, severity) =>
        if countable && n > 100 && 20 * distinct > 19 * n
        then vs == [Violation(column, "cardinality_check", severity, [], None, None)] else vs == []
      case RegexCheck(column, _, severity) => vs == [Violation(column, "regex", severity, [], None, None)]
      case _ => vs == []
  {
    var s := frame[node.column];
    NullsAreCounted(s.cells);
    DistinctUnlessRepeated(s.cells);
    Nineteen(|set cell | cell in s.cells|, |s.cells|);
    assert Nulls(s.cells) != {} ==> |s.cells| > 0 && |Nulls(s.cells)| > 0;
    PositiveRate(|Nulls(s.cells)|, |s.cells|);
  }

  lemma Nineteen(distinct: nat, n: nat)
    ensures n > 0 ==> (distinct as real / n as real > 0.95 <==> 20 * distinct > 19 * n)
  {
    if n > 0 {
      RatioExceeds(distinct as real, n as real, 0.95);
      assert (20 * distinct) as real == 20.0 * distinct as real && (19 * n) as real == 19.0 * n as real;
    }
  }

  lemma RatioExceeds(x: real, n: real, bound: real)
    requires n > 0.0
    ensures x / n > bound <==> x > bound * n
  {
    var gap := x / n - bound;
    assert gap * n == x - bound * n;
    assert (gap > 0.0 ==> gap * n > 0.0) && (gap <= 0.0 ==> (-gap) * n >= 0.0);
  }

  lemma PositiveRate(nulls: nat, n: nat)
    ensures n > 0 ==> (nulls as real / n as real > 0.0 <==> nulls > 0)
  {
    if n > 0 {
      RatioExceeds(nulls as real, n as real, 0.0);
    }
  }

  /** On a missing column only a quality metric reports anything. */
  lemma NothingWithoutColumn(be: F.Backend, frame: F.Frame, n: DagNode)
    requires n.column !in frame
    ensures ExecuteNode(be, frame, n) ==
            if n.QualityMetricCheck? then [Violation(n.column, "quality_check", Blocking, [], None, None)] else []
  {
  }

  // ---- Quality rules ----

  /** The share of rows with a value, or of distinct values. */
  ghost function Share(be: F.Backend, s: F.Series, m: MetricFn): Option<real> {
    var n := |s.cells|;
    match m
    case Uniqueness => Distinctness(be, s)
    case Consistency => Distinctness(be, s)
    case _ => Some(if n == 0 then 0.0 else (n - |Nulls(s.cells)|) as real / n as real)
  }

  ghost function Distinctness(be: F.Backend, s: F.Series): Option<real> {
    if s.cells == [] then Some(0.0)
    else if be.countable(s.dtype) then Some(|set cell | cell in s.cells| as real / |s.cells| as real)
    else None
  }

  predicate Satisfies(observed: real, op: ComparisonOp, threshold: real) {
    var gap := if observed < threshold then threshold - observed else observed - threshold;
    match op
    case Gt => threshold < observed
    case Gte => threshold <= observed
    case Lt => observed < threshold
    case Lte => observed <= threshold
    case Eq => gap * 4503599627370496.0 < 1.0
    case Neq => gap * 4503599627370496.0 >= 1.0
  }

  lemma EvaluateSatisfies(op: ComparisonOp, observed: real, threshold: real)
    ensures op.Evaluate(observed, threshold) <==> Satisfies(observed, op, threshold)
  {
  }

  lemma ShareIsMetric(be: F.Backend, s: F.Series, m: MetricFn)
    ensures ComputeMetric(be, s, m) == Share(be, s, m)
  {
    NullsAreCounted(s.cells);
    var n := |s.cells|;
    if n > 0 {
      SharesAddUp(|Nulls(s.cells)|, n);
    }
  }

  lemma SharesAddUp(part: nat, n: nat)
    requires n > 0
    ensures 1.0 - part as real / n as real == (n - part) as real / n as real
  {
    DividedSum(part as real, n as real);
  }

  lemma DividedSum(a: real, n: real)
    requires n > 0.0
    ensures 1.0 - a / n == (n - a) / n
  {
    var x, y := a / n, (n - a) / n;
    var d := 1.0 - x - y;
    assert x * n == a && y * n == n - a;
    assert d * n == n - x * n - y * n;
    assert (d > 0.0 ==> d * n > 0.0) && (d < 0.0 ==> (-d) * n > 0.0);
  }

  /** A quality rule reports the observed share exactly when there is one and it misses the threshold. */
  lemma RuleFinds(be: F.Backend, frame: F.Frame, rule: QualityRule, name: string)
    requires name == match rule.metric
                     case Completeness => "completeness"
                     case Uniqueness => "uniqueness"
                     case Validity => "validity"
                     case Consistency => "consistency"
                     case Freshness => "freshness"
                     case NonNullRate => "non_null_rate"
    ensures EvaluateRule(be, frame, rule) ==
            if rule.column !in frame then [Violation(rule.column, "quality_check", Blocking, [], None, None)]
            else
              var share := Share(be, frame[rule.column], rule.metric);
              if share.None? || Satisfies(share.value, rule.op, rule.threshold) then []
              else [Violation(rule.column, name, rule.severity, [], share, Some(rule.threshold))]
  {
    if rule.column in frame {
      ShareIsMetric(be, frame[rule.column], rule.metric);
      var share := Share(be, frame[rule.column], rule.metric);
      if share.Some? {
        EvaluateSatisfies(rule.op, share.value, rule.threshold);
      }
    }
  }

  // ---- Anomaly rules ----

  /** What a compiled anomaly rule finds in a column that is there. */
  lemma AnomalyRuleFinds(be: F.Backend, frame: F.Frame, rule: AnomalyRule)
    requires rule.column in frame && !rule.fn.DetectOutliers? && !rule.fn.DetectPatternBreaks?
    ensures var s, vs := frame[rule.column], ExecuteNode(be, frame, AnomalyNode(rule));
      var column, severity, n, distinct := rule.column, rule.severity, |s.cells|, |set cell | cell in s.cells|;
      match rule.fn
      case DetectNulls =>
        if Nulls(s.cells) == {} then vs == []
        else vs == [Violation(column, "null_anomaly", severity, [], Some(|Nulls(s.cells)| as real / n as real), Some(0.0))]
      case DetectDuplicates =>
        vs == if be.countable(s.dtype) && Repeats(s.cells) then [Violation(column, "duplicate_detection", severity, [], None, None)] else []
      case DetectCardinalityExplosion =>
        vs == if be.countable(s.dtype) && n > 100 && 20 * distinct > 19 * n
              then [Violation(column, "cardinality_check", severity, [], None, None)] else []
  {
    OtherNodeFinds(be, frame, AnomalyNode(rule));
  }

  /** A pattern rule lists the rows whose text breaks its pattern, which is empty unless it is given. */
  lemma PatternRuleFinds(be: F.Backend, frame: F.Frame, rule: AnomalyRule)
    requires rule.column in frame && rule.fn.DetectPatternBreaks?
    ensures var s, vs := frame[rule.column], ExecuteNode(be, frame, AnomalyNode(rule));
      var pattern := if "pattern" in rule.args then rule.args["pattern"] else "";
      if be.regexOk(pattern) then FindsRows(vs, rule.column, "regex", rule.severity, s.cells, Breaks(be, s.dtype, pattern))
      else vs == [Violation(rule.column, "regex", rule.severity, [], None, None)]
  {
    var node := AnomalyNode(rule);
    if RowNodeRule(be, frame[rule.column].dtype, node).Some? {
      RowNodeFinds(be, frame, node);
    } else {
      OtherNodeFinds(be, frame, node);
    }
  }

  /** An outlier rule lists the rows that its method flags among the column's numbers; the method is iqr unless given. */
  lemma OutlierRuleFinds(be: F.Backend, frame: F.Frame, rule: AnomalyRule)
    requires rule.column in frame && rule.fn.DetectOutliers?
    ensures var s, vs := frame[rule.column], ExecuteNode(be, frame, AnomalyNode(rule));
      var rows := O.OutlierRows(if "method" in rule.args then rule.args["method"] else "iqr", Numbers(be, s));
      vs == if be.castable(s.dtype) && rows != [] then [Violation(rule.column, "outlier_detection", rule.severity, rows, None, None)] else []
  {
    NumbersAreFloats(be, frame[rule.column]);
  }

  function Numbers(be: F.Backend, s: F.Series): seq<Option<real>> {
    seq(|s.cells|, r requires 0 <= r < |s.cells| => Number(be, s.dtype, s.cells[r]))
  }

  lemma NumbersAreFloats(be: F.Backend, s: F.Series)
    ensures F.AsFloat(be, s) == if be.castable(s.dtype) then Some(Numbers(be, s)) else None
  {
    if be.castable(s.dtype) {
      assert F.AsFloat(be, s).value == Numbers(be, s);
    }
  }

  // ---- Fields ----

  /** Each declared type is one column type. */
  const TYPES: set<(DataType, F.DType)> :=
    {(IntType, F.Integral), (FloatType, F.Floating), (StringType, F.Text), (BoolType, F.Boolean), (DateType, F.Date),
     (DatetimeType, F.Datetime), (BytesType, F.Binary)}

  /** A field reports its missing column and nothing else; otherwise a column of another type, and then its constraints in turn. */
  lemma FieldFinds(be: F.Backend, frame: F.Frame, field: FieldDef)
    ensures Schema.FieldViolations(be, frame, field) ==
            if field.name !in frame then [Violation(field.name, "column_exists", Blocking, [], None, None)]
            else
              (if (field.dataType, frame[field.name].dtype) in TYPES then []
               else [Violation(field.name, "type_check", if Coerce in field.constraints then Warning else Blocking, [], None, None)])
              + Schema.AllConstraintViolations(be, frame[field.name], field.name, field.constraints)
  {
  }

  lemma OneMoreConstraint(be: F.Backend, s: F.Series, column: string, cs: seq<Constraint>, c: Constraint)
    ensures Schema.AllConstraintViolations(be, s, column, []) == []
    ensures Schema.AllConstraintViolations(be, s, column, cs + [c]) ==
            Schema.AllConstraintViolations(be, s, column, cs) + Schema.ConstraintViolations(be, s, column, c)
  {
    assert (cs + [c])[..|cs|] == cs;
  }
}
