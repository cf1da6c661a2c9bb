/**
 * The schema is checked twice, by interpreting its constraints and by running the nodes compiled
 * from them.  The two agree.
 */
module CompilerLaws {
  import opened Sequences
  import opened Ast
  import opened Dag
  import opened Optimizer
  import opened Compiler
  import opened Executor
  import opened ExecutorLaws
  import F = Frames
  import Schema

  /** The name a compiled node gives to a check the interpreter calls `check`. */
  function NodeName(check: string): string {
    if check == "not_null" then "null_check"
    else if check == "positive" then "positive_check"
    else if check == "negative" then "negative_check"
    else if check == "between" || check == "min" || check == "max" then "range_check"
    else if check == "len" then "len_check"
    else if check == "enum" then "enum_check"
    else check
  }

  function Renamed(v: Violation): Violation { v.(check := NodeName(v.check)) }

  function AllRenamed(vs: seq<Violation>): seq<Violation> {
    if vs == [] then [] else [Renamed(vs[0])] + AllRenamed(vs[1..])
  }

  /** The two count distinct values alike unless counting fails on a column with rows. */
  predicate CountsAgree(be: F.Backend, s: F.Series, c: Constraint) {
    c.Unique? ==> be.countable(s.dtype) || s.cells == []
  }

  /** Renaming a row check renames its violation. */
  lemma RenamedRows(column: string, check: string, severity: Severity, rows: seq<nat>)
    ensures AllRenamed(F.RowViolation(column, check, severity, rows)) ==
            F.RowViolation(column, NodeName(check), severity, rows)
  {
  }

  /** Row tests that agree give renamed copies of the same numeric violations. */
  lemma RenamedNumeric(be: F.Backend, s: F.Series, column: string, check: string, severity: Severity, a: real -> bool, b: real -> bool)
    requires F.SameTest(a, b)
    ensures AllRenamed(F.NumericCheck(be, s, column, check, severity, a)) ==
            F.NumericCheck(be, s, column, NodeName(check), severity, b)
  {
    var cells := F.AsFloat(be, s);
    if cells.Some? {
      F.SameTestSameRows(cells.value, a, b);
      RenamedRows(column, check, severity, F.Failing(cells.value, a));
    }
  }

  lemma RenamedText(s: F.Series, column: string, check: string, severity: Severity, bad: string -> bool)
    ensures AllRenamed(F.TextCheck(s, column, check, severity, bad)) ==
            F.TextCheck(s, column, NodeName(check), severity, bad)
  {
  }

  lemma RenamedOne(v: Violation)
    ensures AllRenamed([v]) == [Renamed(v)]
  {
  }

  /**
   * A constraint that compiles to a node is checked alike by both: same columns, rows, severities and
   * values, under the node's name.  The exception is a uniqueness constraint on a non-empty column
   * whose distinct values cannot be counted.
   */
  lemma ConstraintCompiles(be: F.Backend, frame: F.Frame, column: string, c: Constraint)
    requires column in frame
    ensures var s, node := frame[column], NodeFor(column, c);
      var direct := Schema.ConstraintViolations(be, s, column, c);
      && (node.None? ==> direct == [])
      && (node.Some? ==> (AllRenamed(direct) == ExecuteNode(be, frame, node.value) <==> CountsAgree(be, s, c)))
  {
    var s := frame[column];
    match c {
      case Unique => UniquenessCompiles(be, frame, column);
      case Regex(pattern) =>
        RenamedText(s, column, "regex", Error, F.NoMatch(be, pattern));
        RenamedOne(F.Aggregate(column, "regex", Error, None, None));
      case Len(min, max) => RenamedText(s, column, "len", Error, F.BadLength(min, max));
      case Enum(values) => RenamedText(s, column, "enum", Error, F.NotAllowed(values));
      case NotNull => RenamedOne(F.Aggregate(column, "not_null", Error, Some(F.NullCount(s.cells) as real), Some(0.0)));
      case PrimaryKey => RenamedOne(F.Aggregate(column, "not_null", Error, Some(F.NullCount(s.cells) as real), Some(0.0)));
      case Coerce =>
      case ForeignKey(_, _) =>
      case _ => NumericCompiles(be, frame, column, c);
    }
  }

  lemma NumericCompiles(be: F.Backend, frame: F.Frame, column: string, c: Constraint)
    requires column in frame
    requires c.Positive? || c.Negative? || c.Between? || c.Min? || c.Max?
    ensures NodeFor(column, c).Some?
    ensures AllRenamed(Schema.ConstraintViolations(be, frame[column], column, c)) ==
            ExecuteNode(be, frame, NodeFor(column, c).value)
  {
    var s := frame[column];
    match c {
      case Between(min, max) =>
        RenamedNumeric(be, s, column, "between", Error, Schema.OutsideBetween(min, max), F.OutOfRange(Some(min), Some(max)));
      case Min(value) =>
        RenamedNumeric(be, s, column, "min", Error, Schema.BelowMin(value), F.OutOfRange(Some(value), None));
      case Max(value) =>
        RenamedNumeric(be, s, column, "max", Error, Schema.AboveMax(value), F.OutOfRange(None, Some(value)));
      case Positive => RenamedNumeric(be, s, column, "positive", Error, F.NotPositive(), F.NotPositive());
      case Negative => RenamedNumeric(be, s, column, "negative", Error, F.NotNegative(), F.NotNegative());
    }
  }

  lemma UniquenessCompiles(be: F.Backend, frame: F.Frame, column: string)
    requires column in frame
    ensures var s := frame[column];
      var compiled := ExecuteNode(be, frame, UniquenessCheck(column, Error));
      AllRenamed(Schema.ConstraintViolations(be, s, column, Unique)) == compiled <==> CountsAgree(be, s, Unique)
  {
  }

  /** The interpreter finds `v`, under its node name, for some constraint of some field. */
  ghost predicate InterpreterFinds(be: F.Backend, frame: F.Frame, fields: seq<FieldDef>, v: Violation)
    requires forall field :: field in fields ==> field.name in frame
  {
    exists field, c :: field in fields && c in field.constraints &&
      v in AllRenamed(Schema.ConstraintViolations(be, frame[field.name], field.name, c))
  }

  ghost predicate AllCountsAgree(be: F.Backend, frame: F.Frame, fields: seq<FieldDef>)
    requires forall field :: field in fields ==> field.name in frame
  {
    forall field, c :: field in fields && c in field.constraints ==> CountsAgree(be, frame[field.name], c)
  }

  /** Where the nodes of a schema come from. */
  lemma SchemaNodesAre(fields: seq<FieldDef>, n: DagNode)
    ensures n in SchemaNodes(fields) <==>
      exists field :: field in fields && (n == Profile(field.name) ||
        n == TypeCheck(field.name, field.dataType, Coerce in field.constraints, Blocking) ||
        exists c :: c in field.constraints && NodeFor(field.name, c) == Some(n))
  {
    SchemaNodeMember(fields, n);
    forall field ensures n in FieldNodes(field) <==> (n == Profile(field.name) ||
      n == TypeCheck(field.name, field.dataType, Coerce in field.constraints, Blocking) ||
      exists c :: c in field.constraints && NodeFor(field.name, c) == Some(n))
    {
      ConstraintNodeMember(field.name, field.constraints, n);
    }
  }

  lemma SchemaNodesNeverRedundant(fields: seq<FieldDef>, n: DagNode)
    requires n in SchemaNodes(fields)
    ensures !n.QualityMetricCheck?
  {
    SchemaNodesAre(fields, n);
  }

  /** What running the compiled schema finds, node by node. */
  lemma PlanFinds(be: F.Backend, frame: F.Frame, fields: seq<FieldDef>, v: Violation)
    ensures v in RunAll(be, frame, Optimized(SchemaNodes(fields))) <==>
      exists n :: n in SchemaNodes(fields) && v in ExecuteNode(be, frame, n)
  {
    OptimizedKeeps(SchemaNodes(fields));
    AllMember(be, frame, Optimized(SchemaNodes(fields)), v);
    forall n | n in SchemaNodes(fields) ensures n in Optimized(SchemaNodes(fields)) {
      SchemaNodesNeverRedundant(fields, n);
    }
  }

  /**
   * Compiler correctness: compiling a schema, optimising and executing it with the abort off finds
   * exactly what interpreting the constraints finds.
   */
  lemma CompiledSchemaMatches(be: F.Backend, frame: F.Frame, fields: seq<FieldDef>, v: Violation)
    requires forall field :: field in fields ==> field.name in frame
    requires AllCountsAgree(be, frame, fields)
    ensures v in RunAll(be, frame, Optimized(SchemaNodes(fields))) <==> InterpreterFinds(be, frame, fields, v)
  {
    PlanFinds(be, frame, fields, v);
    if n :| n in SchemaNodes(fields) && v in ExecuteNode(be, frame, n) {
      NodeIsInterpreted(be, frame, fields, n, v);
    }
    if InterpreterFinds(be, frame, fields, v) {
      var field, c :| field in fields && c in field.constraints &&
        v in AllRenamed(Schema.ConstraintViolations(be, frame[field.name], field.name, c));
      ConstraintCompiles(be, frame, field.name, c);
      SchemaNodesAre(fields, NodeFor(field.name, c).value);
    }
  }

  lemma NodeIsInterpreted(be: F.Backend, frame: F.Frame, fields: seq<FieldDef>, n: DagNode, v: Violation)
    requires forall field :: field in fields ==> field.name in frame
    requires AllCountsAgree(be, frame, fields)
    requires n in SchemaNodes(fields) && v in ExecuteNode(be, frame, n)
    ensures InterpreterFinds(be, frame, fields, v)
  {
    SchemaNodesAre(fields, n);
    assert !n.Profile? && !n.TypeCheck?;
    var field, c :| field in fields && c in field.constraints && NodeFor(field.name, c) == Some(n);
    ConstraintCompiles(be, frame, field.name, c);
  }

  lemma {:induction false} RenamedMember(vs: seq<Violation>, w: Violation)
    ensures w in AllRenamed(vs) <==> exists v :: v in vs && Renamed(v) == w
  {
    if vs == [] {
    } else {
      RenamedMember(vs[1..], w);
    }
  }

  /** The violation comes from a constraint of the field, not from its type. */
  ghost predicate FromConstraint(be: F.Backend, frame: F.Frame, fields: seq<FieldDef>, v: Violation)
    requires forall field :: field in fields ==> field.name in frame
  {
    exists field, c :: field in fields && c in field.constraints &&
      v in Schema.ConstraintViolations(be, frame[field.name], field.name, c)
  }

  /** The validator finds what the constraints and the types find, and nothing else. */
  lemma ValidatorFinds(be: F.Backend, frame: F.Frame, fields: seq<FieldDef>, v: Violation)
    requires forall field :: field in fields ==> field.name in frame
    ensures v in Schema.SchemaViolations(be, frame, fields) <==>
      FromConstraint(be, frame, fields, v) ||
      exists field :: field in fields && v in Schema.TypeViolations(frame[field.name], field)
  {
    Schema.SchemaMember(be, frame, fields, v);
    forall field | field in fields
      ensures v in Schema.FieldViolations(be, frame, field) <==>
        v in Schema.TypeViolations(frame[field.name], field) ||
        exists c :: c in field.constraints && v in Schema.ConstraintViolations(be, frame[field.name], field.name, c)
    {
      Schema.ConstraintMember(be, frame[field.name], field.name, field.constraints, v);
    }
  }

  /** So the plan finds exactly the validator's constraint violations, under their node names. */
  lemma PlanMatchesValidator(be: F.Backend, frame: F.Frame, fields: seq<FieldDef>, w: Violation)
    requires forall field :: field in fields ==> field.name in frame
    requires AllCountsAgree(be, frame, fields)
    ensures w in RunAll(be, frame, Optimized(SchemaNodes(fields))) <==>
      exists v :: v in Schema.SchemaViolations(be, frame, fields) && FromConstraint(be, frame, fields, v) && Renamed(v) == w
  {
    CompiledSchemaMatches(be, frame, fields, w);
    if InterpreterFinds(be, frame, fields, w) {
      var field, c :| field in fields && c in field.constraints &&
        w in AllRenamed(Schema.ConstraintViolations(be, frame[field.name], field.name, c));
      RenamedMember(Schema.ConstraintViolations(be, frame[field.name], field.name, c), w);
      var v :| v in Schema.ConstraintViolations(be, frame[field.name], field.name, c) && Renamed(v) == w;
      ValidatorFinds(be, frame, fields, v);
    }
    if v :| FromConstraint(be, frame, fields, v) && Renamed(v) == w {
      var field, c :| field in fields && c in field.constraints &&
        v in Schema.ConstraintViolations(be, frame[field.name], field.name, c);
      RenamedMember(Schema.ConstraintViolations(be, frame[field.name], field.name, c), w);
    }
  }

  /**
   * The agreement is exact: it fails precisely when a uniqueness constraint meets a non-empty column
   * whose distinct values cannot be counted, which the interpreter reports and the node passes.
   */
  lemma MatchesExactlyWhenCountable(be: F.Backend, frame: F.Frame, fields: seq<FieldDef>)
    requires forall field :: field in fields ==> field.name in frame
    ensures AllCountsAgree(be, frame, fields) <==>
      forall v :: v in RunAll(be, frame, Optimized(SchemaNodes(fields))) <==> InterpreterFinds(be, frame, fields, v)
  {
    if AllCountsAgree(be, frame, fields) {
      forall v ensures v in RunAll(be, frame, Optimized(SchemaNodes(fields))) <==> InterpreterFinds(be, frame, fields, v) {
        CompiledSchemaMatches(be, frame, fields, v);
      }
    } else {
      var field, c :| field in fields && c in field.constraints && !CountsAgree(be, frame[field.name], c);
      var v := F.Aggregate(field.name, "uniqueness", Error, Some(0.0), Some(|frame[field.name].cells| as real));
      RenamedOne(v);
      assert InterpreterFinds(be, frame, fields, v);
      NodeMissesUncountable(be, frame, fields, v);
    }
  }

  /** No node of a schema reports uniqueness on a column whose distinct values cannot be counted. */
  lemma NodeMissesUncountable(be: F.Backend, frame: F.Frame, fields: seq<FieldDef>, v: Violation)
    requires v.column in frame && !be.countable(frame[v.column].dtype) && v.check == "uniqueness"
    ensures v !in RunAll(be, frame, Optimized(SchemaNodes(fields)))
  {
    PlanFinds(be, frame, fields, v);
    forall n | n in SchemaNodes(fields) ensures v !in ExecuteNode(be, frame, n) {
      SchemaNodesNeverRedundant(fields, n);
      if n.column == v.column {
        OnlyUniquenessNodesReportUniqueness(be, frame, n, v);
      } else {
        NodeReportsItsColumn(be, frame, n);
      }
    }
  }

  lemma OnlyUniquenessNodesReportUniqueness(be: F.Backend, frame: F.Frame, n: DagNode, v: Violation)
    requires !n.QualityMetricCheck? && n.column in frame && !be.countable(frame[n.column].dtype)
    requires v.check == "uniqueness"
    ensures v !in ExecuteNode(be, frame, n)
  {
  }

  /** In any contract, whatever else it contains, the plan finds all that the schema interpreter finds. */
  lemma FullPlanCoversTheSchema(be: F.Backend, frame: F.Frame, contract: Contract, v: Violation)
    requires forall field :: field in contract.schema ==> field.name in frame
    requires AllCountsAgree(be, frame, contract.schema)
    requires InterpreterFinds(be, frame, contract.schema, v)
    ensures v in RunAll(be, frame, Optimized(RawNodes(contract)))
  {
    CompiledSchemaMatches(be, frame, contract.schema, v);
    PlanFinds(be, frame, contract.schema, v);
    var n :| n in SchemaNodes(contract.schema) && v in ExecuteNode(be, frame, n);
    SchemaNodesNeverRedundant(contract.schema, n);
    OptimizedKeeps(RawNodes(contract));
    AllMember(be, frame, Optimized(RawNodes(contract)), v);
  }
}
