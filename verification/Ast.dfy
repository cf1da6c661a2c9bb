/** The parts of a data contract that the rest of the model needs (crates/statguardian-core/src/ast.rs). */
module Ast {
  import opened Sequences

  datatype Severity = Info | Warning | Error | Blocking

  datatype DataType = IntType | FloatType | StringType | BoolType | DateType | DatetimeType | BytesType

  datatype Constraint =
    | NotNull
    | Unique
    | Positive
    | Negative
    | PrimaryKey
    | Coerce
    | Regex(pattern: string)
    | Between(min: real, max: real)
    | Min(value: real)
    | Max(value: real)
    | Len(minLen: nat, maxLen: nat)
    | Enum(values: seq<string>)
    | ForeignKey(table: string, column: string)

  datatype FieldDef = FieldDef(name: string, dataType: DataType, constraints: seq<Constraint>)

  datatype MetricFn = Completeness | Uniqueness | Validity | Consistency | Freshness | NonNullRate

  datatype ComparisonOp = Gt | Lt | Gte | Lte | Eq | Neq {
    /** Equality is up to the machine epsilon, as in the source. */
    predicate Evaluate(lhs: real, rhs: real) {
      match this
      case Gt => lhs > rhs
      case Lt => lhs < rhs
      case Gte => lhs >= rhs
      case Lte => lhs <= rhs
      case Eq => Distance(lhs, rhs) < EPSILON
      case Neq => Distance(lhs, rhs) >= EPSILON
    }
  }

  /** `f64::EPSILON`, two to the power -52. */
  const EPSILON: real := 1.0 / 4503599627370496.0

  function Distance(a: real, b: real): real { if a >= b then a - b else b - a }

  datatype QualityRule =
    QualityRule(metric: MetricFn, column: string, op: ComparisonOp, threshold: real, severity: Severity)

  datatype StatFn = Mean | Std | Median | MinStat | MaxStat | P05 | P95 | P99 | P999

  datatype StatsRule = StatsRule(column: string, stat: StatFn, op: ComparisonOp, threshold: real, severity: Severity)

  datatype AnomalyFn =
    DetectOutliers | DetectNulls | DetectDuplicates | DetectPatternBreaks | DetectCardinalityExplosion

  datatype AnomalyRule = AnomalyRule(fn: AnomalyFn, column: string, args: map<string, string>, severity: Severity)

  /** A finding of any validator (crates/statguardian-validators/src/lib.rs); the message text is left out. */
  datatype Violation = Violation(
    column: string, check: string, severity: Severity, rows: seq<nat>,
    observed: Option<real>, expected: Option<real>)

  /** `String::cmp`: lexicographic, a proper prefix first. */
  predicate StringLe(a: string, b: string) {
    if a == [] then true
    else if b == [] then false
    else if a[0] != b[0] then a[0] < b[0]
    else StringLe(a[1..], b[1..])
  }

  /** String order is total and antisymmetric ... */
  lemma {:induction false} StringLeTotal(a: string, b: string)
    ensures StringLe(a, b) || StringLe(b, a)
    ensures StringLe(a, b) && StringLe(b, a) <==> a == b
  {
    if a == [] || b == [] {
    } else {
      StringLeTotal(a[1..], b[1..]);
      if a[0] == b[0] && a[1..] == b[1..] {
        assert a == [a[0]] + a[1..] && b == [b[0]] + b[1..];
      }
    }
  }

  /** ... and transitive. */
  lemma {:induction false} StringLeTransitive(a: string, b: string, c: string)
    requires StringLe(a, b) && StringLe(b, c)
    ensures StringLe(a, c)
  {
    if a == [] {
    } else {
      if a[0] == b[0] == c[0] {
        StringLeTransitive(a[1..], b[1..], c[1..]);
      }
    }
  }

  /** One string comes before another as its prefix or by the first character in which they differ. */
  lemma {:induction false} StringLeMeans(a: string, b: string)
    ensures StringLe(a, b) <==> a <= b || exists k :: 0 <= k < |a| && k < |b| && a[..k] == b[..k] && a[k] < b[k]
  {
    if a == [] || b == [] {
    } else if a[0] != b[0] {
      assert a[..0] == b[..0];
    } else {
      StringLeMeans(a[1..], b[1..]);
      assert a[1..] <= b[1..] <==> a <= b by {
        assert a == [a[0]] + a[1..] && b == [b[0]] + b[1..];
      }
      if k :| 0 <= k < |a| - 1 && k < |b| - 1 && a[1..][..k] == b[1..][..k] && a[1..][k] < b[1..][k] {
        assert a[..k + 1] == [a[0]] + a[1..][..k] && b[..k + 1] == [b[0]] + b[1..][..k];
      }
      if k :| 0 <= k < |a| && k < |b| && a[..k] == b[..k] && a[k] < b[k] {
        assert a[..k][1..] == a[1..][..k - 1] && b[..k][1..] == b[1..][..k - 1];
      }
    }
  }
}
