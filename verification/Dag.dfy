/**
 * Compiled check nodes (crates/statguardian-core/src/compiler/dag.rs), their execution
 * (`execute_node`, crates/statguardian-engine/src/batch.rs) and the quality rules
 * (crates/statguardian-validators/src/rules.rs).
 */
module Dag {
  import opened Sequences
  import opened Ast
  import F = Frames
  import O = Outliers

  datatype DagNode =
    | TypeCheck(column: string, expected: DataType, coerce: bool, severity: Severity)
    | NullCheck(column: string, severity: Severity)
    | UniquenessCheck(column: string, severity: Severity)
    | RegexCheck(column: string, pattern: string, severity: Severity)
    | RangeCheck(column: string, min: Option<real>, max: Option<real>, severity: Severity)
    | LenCheck(column: string, minLen: nat, maxLen: nat, severity: Severity)
    | EnumCheck(column: string, allowed: seq<string>, severity: Severity)
    | PositiveCheck(column: string, severity: Severity)
    | NegativeCheck(column: string, severity: Severity)
    | QualityMetricCheck(column: string, metric: MetricFn, op: ComparisonOp, threshold: real, severity: Severity)
    | DriftCheck(column: string, stat: StatFn, op: ComparisonOp, threshold: real, severity: Severity)
    | OutlierDetection(column: string, rule: string, severity: Severity)
    | DuplicateDetection(column: string, severity: Severity)
    | NullAnomalyDetection(column: string, severity: Severity)
    | CardinalityCheck(column: string, severity: Severity)
    | Profile(column: string)
  {
    function Severity(): Severity { if Profile? then Info else severity }

    function Cost(): nat {
      match this
      case TypeCheck(_, _, _, _) => 1
      case NullCheck(_, _) => 1
      case PositiveCheck(_, _) => 2
      case NegativeCheck(_, _) => 2
      case RangeCheck(_, _, _, _) => 2
      case LenCheck(_, _, _, _) => 2
      case EnumCheck(_, _, _) => 3
      case NullAnomalyDetection(_, _) => 3
      case RegexCheck(_, _, _) => 4
      case UniquenessCheck(_, _) => 5
      case QualityMetricCheck(_, _, _, _, _) => 5
      case Profile(_) => 6
      case CardinalityCheck(_, _) => 6
      case DriftCheck(_, _, _, _, _) => 7
      case OutlierDetection(_, _, _) => 8
      case DuplicateDetection(_, _) => 8
    }
  }

  // ---- Quality rules ----

  function MetricName(m: MetricFn): string {
    match m
    case Completeness => "completeness"
    case Uniqueness => "uniqueness"
    case Validity => "validity"
    case Consistency => "consistency"
    case Freshness => "freshness"
    case NonNullRate => "non_null_rate"
  }

  function ComputeMetric(be: F.Backend, s: F.Series, m: MetricFn): Option<real> {
    var n := |s.cells|;
    if n == 0 then Some(0.0)
    else if m.Uniqueness? || m.Consistency? then
      match F.NUnique(be, s)
      case None => None
      case Some(u) => Some(u as real / n as real)
    else Some(1.0 - F.NullCount(s.cells) as real / n as real)
  }

  function EvaluateRule(be: F.Backend, frame: F.Frame, rule: QualityRule): seq<Violation> {
    if rule.column !in frame then [F.Aggregate(rule.column, "quality_check", Blocking, None, None)]
    else match ComputeMetric(be, frame[rule.column], rule.metric)
      case None => []
      case Some(observed) =>
        if rule.op.Evaluate(observed, rule.threshold) then []
        else [F.Aggregate(rule.column, MetricName(rule.metric), rule.severity, Some(observed), Some(rule.threshold))]
  }

  function EvaluateRules(be: F.Backend, frame: F.Frame, rules: seq<QualityRule>): seq<Violation> {
    if rules == [] then [] else EvaluateRule(be, frame, rules[0]) + EvaluateRules(be, frame, rules[1..])
  }

  // ---- Node execution ----

  /** The name under which a node reports on its column; empty for nodes that report nothing. */
  function CheckName(n: DagNode): string {
    match n
    case NullCheck(_, _) => "null_check"
    case UniquenessCheck(_, _) => "uniqueness"
    case RegexCheck(_, _, _) => "regex"
    case RangeCheck(_, _, _, _) => "range_check"
    case LenCheck(_, _, _, _) => "len_check"
    case EnumCheck(_, _, _) => "enum_check"
    case PositiveCheck(_, _) => "positive_check"
    case NegativeCheck(_, _) => "negative_check"
    case QualityMetricCheck(_, metric, _, _, _) => MetricName(metric)
    case OutlierDetection(_, _, _) => "outlier_detection"
    case DuplicateDetection(_, _) => "duplicate_detection"
    case NullAnomalyDetection(_, _) => "null_anomaly"
    case CardinalityCheck(_, _) => "cardinality_check"
    case _ => ""
  }

  function OutlierViolations(be: F.Backend, s: F.Series, column: string, rule: string, severity: Severity): seq<Violation> {
    match F.AsFloat(be, s)
    case None => []
    case Some(cells) => F.RowViolation(column, "outlier_detection", severity, O.OutlierRows(rule, cells))
  }

  /** A node on a missing column finds nothing, except a quality metric, which reports the column. */
  function ExecuteNode(be: F.Backend, frame: F.Frame, node: DagNode): seq<Violation> {
    match node
    case Profile(_) => []
    case TypeCheck(_, _, _, _) => []
    case DriftCheck(_, _, _, _, _) => []
    case QualityMetricCheck(column, metric, op, threshold, severity) =>
      EvaluateRule(be, frame, QualityRule(metric, column, op, threshold, severity))
    case _ => if node.column !in frame then [] else ExecuteOn(be, frame[node.column], node)
  }

  function ExecuteOn(be: F.Backend, s: F.Series, node: DagNode): seq<Violation> {
    var column, severity, total := node.column, node.Severity(), |s.cells|;
    match node
    case NullCheck(_, _) => F.NullViolation(s, column, "null_check", severity)
    case UniquenessCheck(_, _) =>
      var unique := match F.NUnique(be, s) case None => total case Some(u) => u;
      if unique != total
      then [F.Aggregate(column, "uniqueness", severity, Some(unique as real), Some(total as real))] else []
    case RegexCheck(_, pattern, _) => F.RegexCheck(be, s, column, severity, pattern)
    case RangeCheck(_, min, max, _) => F.NumericCheck(be, s, column, "range_check", severity, F.OutOfRange(min, max))
    case LenCheck(_, min, max, _) => F.TextCheck(s, column, "len_check", severity, F.BadLength(min, max))
    case EnumCheck(_, allowed, _) => F.TextCheck(s, column, "enum_check", severity, F.NotAllowed(allowed))
    case PositiveCheck(_, _) => F.NumericCheck(be, s, column, "positive_check", severity, F.NotPositive())
    case NegativeCheck(_, _) => F.NumericCheck(be, s, column, "negative_check", severity, F.NotNegative())
    case OutlierDetection(_, rule, _) => OutlierViolations(be, s, column, rule, severity)
    case DuplicateDetection(_, _) =>
      var unique := match F.NUnique(be, s) case None => total case Some(u) => u;
      if unique < total then [F.Aggregate(column, "duplicate_detection", severity, None, None)] else []
    case NullAnomalyDetection(_, _) =>
      var rate := F.NullCount(s.cells) as real / (if total > 0 then total else 1) as real;
      if rate > 0.0 then [F.Aggregate(column, "null_anomaly", severity, Some(rate), Some(0.0))] else []
    case CardinalityCheck(_, _) =>
      var unique := match F.NUnique(be, s) case None => 0 case Some(u) => u;
      if total > 100 && unique as real / total as real > 0.95
      then [F.Aggregate(column, "cardinality_check", severity, None, None)] else []
    case _ => []
  }

  /** A node reports at most one violation, on its own column, with its own severity or as Blocking. */
  lemma NodeReportsItsColumn(be: F.Backend, frame: F.Frame, node: DagNode)
    ensures var vs := ExecuteNode(be, frame, node);
      |vs| <= 1 && forall v :: v in vs ==>
        v.column == node.column && (v.severity == node.Severity() || v.severity == Blocking)
  {
  }
}
