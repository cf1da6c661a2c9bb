/**
 * The checks of a contract as row and batch checks: on records with typed columns, what the executor
 * (crates/statguardian-engine/src/batch.rs) reports for a batch is what `RowChecks` says it reports.
 * Outlier rules are left out, because which rows they list depends on the whole batch.
 */
module ContractChecks {
  import opened Sequences
  import opened Ast
  import opened Dag
  import opened Compiler
  import opened RowChecks
  import opened StreamRun
  import opened StreamLaws
  import opened BatchRuns
  import O = Optimizer
  import X = Executor
  import F = Frames
  import S = StableSort
  import Schema

  /** How a batch of records becomes a data frame: fixed columns of fixed types, one cell for each record. */
  datatype Table<!V> = Table(columns: set<string>, dtype: string -> F.DType, cell: (V, string) -> Option<F.Cell>)

  function SeriesOf<V>(t: Table<V>, vs: seq<V>, column: string): F.Series {
    F.Series(t.dtype(column), seq(|vs|, k requires 0 <= k < |vs| => t.cell(vs[k], column)))
  }

  function FrameOf<V>(t: Table<V>, vs: seq<V>): F.Frame { map c | c in t.columns :: SeriesOf(t, vs, c) }

  /** What one check contributes to a batch. */
  function Outcome<V>(c: Check<V>, vs: seq<V>): seq<Violation> { if Fires(c, vs) then [ViolationOf(c, vs)] else [] }

  // ---- Row checks ----

  predicate NumberFails<V>(be: F.Backend, t: Table<V>, column: string, bad: real -> bool, v: V) {
    var c := t.cell(v, column);
    be.castable(t.dtype(column)) && c.Some? && be.castCell(c.value).Some? && bad(be.castCell(c.value).value)
  }

  predicate TextFails<V>(t: Table<V>, column: string, bad: string -> bool, v: V) {
    var c := t.cell(v, column);
    t.dtype(column).Text? && c.Some? && c.value.Str? && bad(c.value.s)
  }

  function NumberTest<V>(be: F.Backend, t: Table<V>, column: string, bad: real -> bool): V -> bool {
    (v: V) => NumberFails(be, t, column, bad, v)
  }

  function TextTest<V>(t: Table<V>, column: string, bad: string -> bool): V -> bool {
    (v: V) => TextFails(t, column, bad, v)
  }

  lemma {:induction false} SameRows<T, V>(cells: seq<Option<T>>, bad: T -> bool, c: Check<V>, vs: seq<V>)
    requires c.RowCheck? && |cells| == |vs|
    requires forall k :: 0 <= k < |vs| ==> (cells[k].Some? && bad(cells[k].value)) == c.fails(vs[k])
    ensures F.Failing(cells, bad) == FailingRows(c, vs)
  {
    if cells == [] {
    } else {
      var n := |cells| - 1;
      SameRows(cells[..n], bad, c, vs[..n]);
    }
  }

  lemma {:induction false} NothingFails<V>(c: Check<V>, vs: seq<V>)
    requires c.RowCheck? && forall k :: 0 <= k < |vs| ==> !c.fails(vs[k])
    ensures FailingRows(c, vs) == []
  {
    if vs == [] {
    } else {
      NothingFails(c, vs[..|vs| - 1]);
    }
  }

  lemma NumericIsRowCheck<V>(be: F.Backend, t: Table<V>, vs: seq<V>, column: string, check: string, severity: Severity, bad: real -> bool)
    ensures F.NumericCheck(be, SeriesOf(t, vs, column), column, check, severity, bad) ==
            Outcome(RowCheck(column, check, severity, NumberTest(be, t, column, bad)), vs)
  {
    var s, c := SeriesOf(t, vs, column), RowCheck(column, check, severity, NumberTest(be, t, column, bad));
    match F.AsFloat(be, s)
    case None => NothingFails(c, vs);
    case Some(cells) =>
      forall k | 0 <= k < |vs| ensures (cells[k].Some? && bad(cells[k].value)) == c.fails(vs[k]) {
        assert s.cells[k] == t.cell(vs[k], column);
      }
      SameRows(cells, bad, c, vs);
  }

  lemma TextIsRowCheck<V>(t: Table<V>, vs: seq<V>, column: string, check: string, severity: Severity, bad: string -> bool)
    ensures F.TextCheck(SeriesOf(t, vs, column), column, check, severity, bad) ==
            Outcome(RowCheck(column, check, severity, TextTest(t, column, bad)), vs)
  {
    var s, c := SeriesOf(t, vs, column), RowCheck(column, check, severity, TextTest(t, column, bad));
    match F.AsText(s)
    case None => NothingFails(c, vs);
    case Some(cells) =>
      forall k | 0 <= k < |vs| ensures (cells[k].Some? && bad(cells[k].value)) == c.fails(vs[k]) {
        assert s.cells[k] == t.cell(vs[k], column);
      }
      SameRows(cells, bad, c, vs);
  }

  // ---- Nodes ----

  /** A metric on a missing column reports the column. */
  function NodeName<V>(t: Table<V>, n: DagNode): string {
    if n.QualityMetricCheck? && n.column !in t.columns then "quality_check" else CheckName(n)
  }

  function NodeSeverity<V>(t: Table<V>, n: DagNode): Severity {
    if n.QualityMetricCheck? && n.column !in t.columns then Blocking else n.Severity()
  }

  /** Whether a node judges rows alone. */
  predicate IsRowNode<V>(be: F.Backend, t: Table<V>, n: DagNode) {
    && n.column in t.columns
    && (n.RangeCheck? || n.LenCheck? || n.EnumCheck? || n.PositiveCheck? || n.NegativeCheck?
        || (n.RegexCheck? && be.regexOk(n.pattern)))
  }

  function NodeTest<V>(be: F.Backend, t: Table<V>, n: DagNode): V -> bool
    requires IsRowNode(be, t, n)
  {
    match n
    case RegexCheck(column, pattern, _) => TextTest(t, column, F.NoMatch(be, pattern))
    case RangeCheck(column, min, max, _) => NumberTest(be, t, column, F.OutOfRange(min, max))
    case LenCheck(column, min, max, _) => TextTest(t, column, F.BadLength(min, max))
    case EnumCheck(column, allowed, _) => TextTest(t, column, F.NotAllowed(allowed))
    case PositiveCheck(column, _) => NumberTest(be, t, column, F.NotPositive())
    case NegativeCheck(column, _) => NumberTest(be, t, column, F.NotNegative())
  }

  function NodeReports<V>(be: F.Backend, t: Table<V>, n: DagNode): seq<V> -> bool {
    (vs: seq<V>) => ExecuteNode(be, FrameOf(t, vs), n) != []
  }

  function FirstOf(vs: seq<Violation>, read: Violation -> Option<real>): Option<real> {
    if vs == [] then None else read(vs[0])
  }

  function Observed<V>(be: F.Backend, t: Table<V>, n: DagNode): seq<V> -> Option<real> {
    (vs: seq<V>) => FirstOf(ExecuteNode(be, FrameOf(t, vs), n), (v: Violation) => v.observed)
  }

  function Expected<V>(be: F.Backend, t: Table<V>, n: DagNode): seq<V> -> Option<real> {
    (vs: seq<V>) => FirstOf(ExecuteNode(be, FrameOf(t, vs), n), (v: Violation) => v.expected)
  }

  function CheckOfNode<V>(be: F.Backend, t: Table<V>, n: DagNode): Check<V> {
    if IsRowNode(be, t, n) then RowCheck(n.column, NodeName(t, n), NodeSeverity(t, n), NodeTest(be, t, n))
    else BatchCheck(n.column, NodeName(t, n), NodeSeverity(t, n), NodeReports(be, t, n), Observed(be, t, n), Expected(be, t, n))
  }

  lemma RowNodeIsCheck<V>(be: F.Backend, t: Table<V>, n: DagNode, vs: seq<V>)
    requires IsRowNode(be, t, n)
    ensures ExecuteNode(be, FrameOf(t, vs), n) == Outcome(CheckOfNode(be, t, n), vs)
  {
    var name, severity := NodeName(t, n), NodeSeverity(t, n);
    assert FrameOf(t, vs)[n.column] == SeriesOf(t, vs, n.column);
    match n {
      case RegexCheck(column, pattern, _) => TextIsRowCheck(t, vs, column, name, severity, F.NoMatch(be, pattern));
      case RangeCheck(column, min, max, _) => NumericIsRowCheck(be, t, vs, column, name, severity, F.OutOfRange(min, max));
      case LenCheck(column, min, max, _) => TextIsRowCheck(t, vs, column, name, severity, F.BadLength(min, max));
      case EnumCheck(column, allowed, _) => TextIsRowCheck(t, vs, column, name, severity, F.NotAllowed(allowed));
      case PositiveCheck(column, _) => NumericIsRowCheck(be, t, vs, column, name, severity, F.NotPositive());
      case NegativeCheck(column, _) => NumericIsRowCheck(be, t, vs, column, name, severity, F.NotNegative());
    }
  }

  /** A node that does not judge rows alone reports at most one violation, without rows, under its name. */
  lemma BatchNodeReports<V>(be: F.Backend, t: Table<V>, n: DagNode, vs: seq<V>)
    requires !IsRowNode(be, t, n) && !n.OutlierDetection?
    ensures var found := ExecuteNode(be, FrameOf(t, vs), n);
            found == [] || (|found| == 1 && found[0] ==
              Violation(n.column, NodeName(t, n), NodeSeverity(t, n), [], found[0].observed, found[0].expected))
  {
  }

  lemma NodeIsCheck<V>(be: F.Backend, t: Table<V>, n: DagNode, vs: seq<V>)
    requires !n.OutlierDetection?
    ensures ExecuteNode(be, FrameOf(t, vs), n) == Outcome(CheckOfNode(be, t, n), vs)
  {
    if IsRowNode(be, t, n) {
      RowNodeIsCheck(be, t, n, vs);
    } else {
      BatchNodeReports(be, t, n, vs);
    }
  }

  // ---- Schema constraints ----

  predicate IsRowConstraint(be: F.Backend, c: Constraint) {
    c.Positive? || c.Negative? || c.Between? || c.Min? || c.Max? || c.Len? || c.Enum? || (c.Regex? && be.regexOk(c.pattern))
  }

  function ConstraintTest<V>(be: F.Backend, t: Table<V>, column: string, c: Constraint): V -> bool
    requires IsRowConstraint(be, c)
  {
    match c
    case Positive => NumberTest(be, t, column, F.NotPositive())
    case Negative => NumberTest(be, t, column, F.NotNegative())
    case Between(min, max) => NumberTest(be, t, column, Schema.OutsideBetween(min, max))
    case Min(value) => NumberTest(be, t, column, Schema.BelowMin(value))
    case Max(value) => NumberTest(be, t, column, Schema.AboveMax(value))
    case Regex(pattern) => TextTest(t, column, F.NoMatch(be, pattern))
    case Len(min, max) => TextTest(t, column, F.BadLength(min, max))
    case Enum(values) => TextTest(t, column, F.NotAllowed(values))
  }

  function Finds<V>(be: F.Backend, t: Table<V>, column: string, c: Constraint): seq<V> -> bool {
    (vs: seq<V>) => Schema.ConstraintViolations(be, SeriesOf(t, vs, column), column, c) != []
  }

  function FoundObserved<V>(be: F.Backend, t: Table<V>, column: string, c: Constraint): seq<V> -> Option<real> {
    (vs: seq<V>) => FirstOf(Schema.ConstraintViolations(be, SeriesOf(t, vs, column), column, c), (v: Violation) => v.observed)
  }

  function FoundExpected<V>(be: F.Backend, t: Table<V>, column: string, c: Constraint): seq<V> -> Option<real> {
    (vs: seq<V>) => FirstOf(Schema.ConstraintViolations(be, SeriesOf(t, vs, column), column, c), (v: Violation) => v.expected)
  }

  function CheckOfConstraint<V>(be: F.Backend, t: Table<V>, column: string, c: Constraint): Check<V> {
    if IsRowConstraint(be, c) then RowCheck(column, Schema.ConstraintName(c), Error, ConstraintTest(be, t, column, c))
    else BatchCheck(column, Schema.ConstraintName(c), Error, Finds(be, t, column, c),
                    FoundObserved(be, t, column, c), FoundExpected(be, t, column, c))
  }

  lemma ConstraintIsCheck<V>(be: F.Backend, t: Table<V>, column: string, c: Constraint, vs: seq<V>)
    ensures Schema.ConstraintViolations(be, SeriesOf(t, vs, column), column, c) == Outcome(CheckOfConstraint(be, t, column, c), vs)
  {
    var name := Schema.ConstraintName(c);
    match c {
      case Positive => NumericIsRowCheck(be, t, vs, column, name, Error, F.NotPositive());
      case Negative => NumericIsRowCheck(be, t, vs, column, name, Error, F.NotNegative());
      case Between(min, max) => NumericIsRowCheck(be, t, vs, column, name, Error, Schema.OutsideBetween(min, max));
      case Min(value) => NumericIsRowCheck(be, t, vs, column, name, Error, Schema.BelowMin(value));
      case Max(value) => NumericIsRowCheck(be, t, vs, column, name, Error, Schema.AboveMax(value));
      case Regex(pattern) =>
        if be.regexOk(pattern) {
          TextIsRowCheck(t, vs, column, name, Error, F.NoMatch(be, pattern));
        }
      case Len(min, max) => TextIsRowCheck(t, vs, column, name, Error, F.BadLength(min, max));
      case Enum(values) => TextIsRowCheck(t, vs, column, name, Error, F.NotAllowed(values));
      case _ =>
    }
  }

  // ---- The engine of a contract ----

  /** A check that fires on every batch. */
  function Always<V>(column: string, check: string, severity: Severity): Check<V> {
    BatchCheck(column, check, severity, (_: seq<V>) => true, (_: seq<V>) => None, (_: seq<V>) => None)
  }

  function ConstraintChecks<V>(be: F.Backend, t: Table<V>, column: string, cs: seq<Constraint>): seq<Check<V>> {
    if cs == [] then []
    else ConstraintChecks(be, t, column, cs[..|cs| - 1]) + [CheckOfConstraint(be, t, column, cs[|cs| - 1])]
  }

  function TypeChecks<V>(t: Table<V>, field: FieldDef): seq<Check<V>> {
    if Schema.TypeMatches(field.dataType, t.dtype(field.name)) then []
    else [Always(field.name, "type_check", if Coerce in field.constraints then Warning else Blocking)]
  }

  function FieldChecks<V>(be: F.Backend, t: Table<V>, field: FieldDef): seq<Check<V>> {
    if field.name !in t.columns then [Always(field.name, "column_exists", Blocking)]
    else TypeChecks(t, field) + ConstraintChecks(be, t, field.name, field.constraints)
  }

  function SchemaChecks<V>(be: F.Backend, t: Table<V>, fields: seq<FieldDef>): seq<Check<V>> {
    if fields == [] then []
    else SchemaChecks(be, t, fields[..|fields| - 1]) + FieldChecks(be, t, fields[|fields| - 1])
  }

  function NodeChecks<V>(be: F.Backend, t: Table<V>, nodes: seq<DagNode>): seq<Check<V>> {
    seq(|nodes|, i requires 0 <= i < |nodes| => CheckOfNode(be, t, nodes[i]))
  }

  function RuleChecks<V>(be: F.Backend, t: Table<V>, rules: seq<QualityRule>): seq<Check<V>> {
    if rules == [] then [] else [CheckOfNode(be, t, RuleNode(rules[0]))] + RuleChecks(be, t, rules[1..])
  }

  /** The checks of a contract: schema and rules, then the optimised plan by column. */
  function ChecksOf<V>(be: F.Backend, t: Table<V>, contract: Contract, order: seq<string>): Checks<V> {
    Checks(SchemaChecks(be, t, contract.schema) + RuleChecks(be, t, contract.qualityRules),
           NodeChecks(be, t, O.Optimized(RawNodes(contract))), order)
  }

  lemma {:induction false} RunDirectAppend<V>(a: seq<Check<V>>, b: seq<Check<V>>, vs: seq<V>)
    ensures RunDirect(a + b, vs) == RunDirect(a, vs) + RunDirect(b, vs)
  {
    if a == [] {
      assert a + b == b;
    } else {
      assert (a + b)[0] == a[0] && (a + b)[1..] == a[1..] + b;
      RunDirectAppend(a[1..], b, vs);
      Regroup(Outcome(a[0], vs), RunDirect(a[1..], vs), RunDirect(b, vs));
    }
  }

  lemma RunOne<V>(c: Check<V>, vs: seq<V>)
    ensures RunDirect([c], vs) == Outcome(c, vs)
  {
    assert RunDirect([c][1..], vs) == [];
  }

  lemma {:induction false} ConstraintsAreChecks<V>(be: F.Backend, t: Table<V>, column: string, cs: seq<Constraint>, vs: seq<V>)
    ensures Schema.AllConstraintViolations(be, SeriesOf(t, vs, column), column, cs) ==
            RunDirect(ConstraintChecks(be, t, column, cs), vs)
  {
    if cs == [] {
    } else {
      var init, c := cs[..|cs| - 1], cs[|cs| - 1];
      ConstraintsAreChecks(be, t, column, init, vs);
      ConstraintIsCheck(be, t, column, c, vs);
      RunOne(CheckOfConstraint(be, t, column, c), vs);
      RunDirectAppend(ConstraintChecks(be, t, column, init), [CheckOfConstraint(be, t, column, c)], vs);
    }
  }

  lemma FieldIsChecks<V>(be: F.Backend, t: Table<V>, field: FieldDef, vs: seq<V>)
    ensures Schema.FieldViolations(be, FrameOf(t, vs), field) == RunDirect(FieldChecks(be, t, field), vs)
  {
    if field.name !in t.columns {
      RunOne<V>(Always(field.name, "column_exists", Blocking), vs);
    } else {
      var types := TypeChecks(t, field);
      if types != [] {
        RunOne(types[0], vs);
      }
      ConstraintsAreChecks(be, t, field.name, field.constraints, vs);
      RunDirectAppend(types, ConstraintChecks(be, t, field.name, field.constraints), vs);
    }
  }

  lemma {:induction false} SchemaIsChecks<V>(be: F.Backend, t: Table<V>, fields: seq<FieldDef>, vs: seq<V>)
    ensures Schema.SchemaViolations(be, FrameOf(t, vs), fields) == RunDirect(SchemaChecks(be, t, fields), vs)
  {
    if fields == [] {
    } else {
      var init, field := fields[..|fields| - 1], fields[|fields| - 1];
      SchemaIsChecks(be, t, init, vs);
      FieldIsChecks(be, t, field, vs);
      RunDirectAppend(SchemaChecks(be, t, init), FieldChecks(be, t, field), vs);
    }
  }

  lemma {:induction false} RulesAreChecks<V>(be: F.Backend, t: Table<V>, rules: seq<QualityRule>, vs: seq<V>)
    ensures EvaluateRules(be, FrameOf(t, vs), rules) == RunDirect(RuleChecks(be, t, rules), vs)
  {
    if rules == [] {
    } else {
      var c, rest := CheckOfNode(be, t, RuleNode(rules[0])), RuleChecks(be, t, rules[1..]);
      NodeIsCheck(be, t, RuleNode(rules[0]), vs);
      RulesAreChecks(be, t, rules[1..], vs);
      RunOne(c, vs);
      RunDirectAppend([c], rest, vs);
    }
  }

  lemma MoreNodeChecks<V>(be: F.Backend, t: Table<V>, nodes: seq<DagNode>, n: DagNode)
    ensures NodeChecks(be, t, nodes + [n]) == NodeChecks(be, t, nodes) + [CheckOfNode(be, t, n)]
  {
  }

  lemma GroupOfMore<V>(column: string, checks: seq<Check<V>>, c: Check<V>)
    ensures Group(column, checks + [c]) == if c.column == column then Group(column, checks) + [c] else Group(column, checks)
  {
    assert (checks + [c])[..|checks|] == checks;
  }

  lemma GroupOfMoreNodes(column: string, nodes: seq<DagNode>, n: DagNode)
    ensures O.Group(column, nodes + [n]) == if n.column == column then O.Group(column, nodes) + [n] else O.Group(column, nodes)
  {
    assert (nodes + [n])[..|nodes|] == nodes;
  }

  lemma CheckColumn<V>(be: F.Backend, t: Table<V>, n: DagNode)
    ensures CheckOfNode(be, t, n).column == n.column
  {
  }

  lemma GroupOfMoreChecks<V>(be: F.Backend, t: Table<V>, init: seq<DagNode>, last: DagNode, column: string)
    requires Group(column, NodeChecks(be, t, init)) == NodeChecks(be, t, O.Group(column, init))
    ensures Group(column, NodeChecks(be, t, init) + [CheckOfNode(be, t, last)]) ==
            NodeChecks(be, t, if last.column == column then O.Group(column, init) + [last] else O.Group(column, init))
  {
    GroupOfMore(column, NodeChecks(be, t, init), CheckOfNode(be, t, last));
    CheckColumn(be, t, last);
    MoreNodeChecks(be, t, O.Group(column, init), last);
  }

  lemma {:induction false} GroupsAreChecks<V>(be: F.Backend, t: Table<V>, nodes: seq<DagNode>, column: string)
    ensures Group(column, NodeChecks(be, t, nodes)) == NodeChecks(be, t, O.Group(column, nodes))
  {
    if nodes == [] {
    } else {
      var init, last := nodes[..|nodes| - 1], nodes[|nodes| - 1];
      GroupsAreChecks(be, t, init, column);
      GroupOfMoreChecks(be, t, init, last, column);
      MoreNodeChecks(be, t, init, last);
      GroupOfMoreNodes(column, init, last);
      assert nodes == init + [last];
    }
  }

  ghost predicate NoOutliers(nodes: seq<DagNode>) { forall i :: 0 <= i < |nodes| ==> !nodes[i].OutlierDetection? }

  lemma NodeChecksHead<V>(be: F.Backend, t: Table<V>, nodes: seq<DagNode>)
    requires nodes != []
    ensures NodeChecks(be, t, nodes) == [CheckOfNode(be, t, nodes[0])] + NodeChecks(be, t, nodes[1..])
  {
  }

  /** Running the first node and stopping after a Blocking violation is the same in both forms. */
  lemma GroupStep<V>(c: Check<V>, rest: seq<Check<V>>, tail: seq<Violation>, vs: seq<V>)
    requires tail == RunGroup(rest, vs)
    ensures RunGroup([c] + rest, vs) == if X.HasBlocking(Outcome(c, vs)) then Outcome(c, vs) else Outcome(c, vs) + tail
  {
    assert ([c] + rest)[0] == c && ([c] + rest)[1..] == rest;
    if Fires(c, vs) {
      assert Outcome(c, vs)[0].severity == c.severity;
    }
  }

  lemma {:induction false} GroupRuns<V>(be: F.Backend, t: Table<V>, nodes: seq<DagNode>, vs: seq<V>)
    requires NoOutliers(nodes)
    ensures X.RunGroup(be, FrameOf(t, vs), nodes) == RunGroup(NodeChecks(be, t, nodes), vs)
  {
    if nodes == [] {
    } else {
      GroupRuns(be, t, nodes[1..], vs);
      NodeIsCheck(be, t, nodes[0], vs);
      NodeChecksHead(be, t, nodes);
      GroupStep(CheckOfNode(be, t, nodes[0]), NodeChecks(be, t, nodes[1..]), RunGroup(NodeChecks(be, t, nodes[1..]), vs), vs);
    }
  }

  lemma {:induction false} GroupsRun<V>(be: F.Backend, t: Table<V>, nodes: seq<DagNode>, order: seq<string>, vs: seq<V>)
    requires NoOutliers(nodes)
    ensures X.RunGroups(be, FrameOf(t, vs), nodes, order) == RunGroups(NodeChecks(be, t, nodes), order, vs)
  {
    if order == [] {
    } else {
      var column := order[|order| - 1];
      GroupsRun(be, t, nodes, order[..|order| - 1], vs);
      GroupsAreChecks(be, t, nodes, column);
      forall i | 0 <= i < |O.Group(column, nodes)| ensures !O.Group(column, nodes)[i].OutlierDetection? {
        O.GroupMember(column, nodes, O.Group(column, nodes)[i]);
      }
      GroupRuns(be, t, O.Group(column, nodes), vs);
    }
  }

  lemma DirectIsChecks<V>(be: F.Backend, t: Table<V>, contract: Contract, vs: seq<V>)
    ensures X.DirectViolations(be, FrameOf(t, vs), contract, []) ==
            RunDirect(SchemaChecks(be, t, contract.schema) + RuleChecks(be, t, contract.qualityRules), vs)
  {
    SchemaIsChecks(be, t, contract.schema, vs);
    RulesAreChecks(be, t, contract.qualityRules, vs);
    RunDirectAppend(SchemaChecks(be, t, contract.schema), RuleChecks(be, t, contract.qualityRules), vs);
  }

  /** On typed records, executing the contract is running its checks. */
  lemma ContractRunsItsChecks<V>(be: F.Backend, t: Table<V>, contract: Contract, order: seq<string>, vs: seq<V>)
    requires NoOutliers(O.Optimized(RawNodes(contract)))
    ensures X.Merge(X.PreMerge(be, FrameOf(t, vs), contract, [], O.Optimized(RawNodes(contract)), order)) ==
            RunChecks(ChecksOf(be, t, contract, order), vs)
  {
    DirectIsChecks(be, t, contract, vs);
    GroupsRun(be, t, O.Optimized(RawNodes(contract)), order, vs);
  }

  /** The engine of a contract, on records that fill a table. */
  function ContractEngine<V>(be: F.Backend, t: Table<V>, contract: Contract, order: seq<string>): seq<V> -> Result<seq<Violation>, string> {
    (vs: seq<V>) => Ok(X.Merge(X.PreMerge(be, FrameOf(t, vs), contract, [], O.Optimized(RawNodes(contract)), order)))
  }

  lemma ContractEngineImplements<V(!new)>(be: F.Backend, t: Table<V>, contract: Contract, order: seq<string>)
    requires NoOutliers(O.Optimized(RawNodes(contract))) && X.IsOrder(order, O.Optimized(RawNodes(contract)))
    ensures Implements(ContractEngine(be, t, contract, order), ChecksOf(be, t, contract, order))
    ensures IsOrder(order, ChecksOf(be, t, contract, order).plan)
  {
    forall vs ensures ContractEngine(be, t, contract, order)(vs) == Ok(RunChecks(ChecksOf(be, t, contract, order), vs)) {
      ContractRunsItsChecks(be, t, contract, order, vs);
    }
    OrderFitsChecks(be, t, O.Optimized(RawNodes(contract)), order);
  }

  lemma OrderFitsChecks<V>(be: F.Backend, t: Table<V>, plan: seq<DagNode>, order: seq<string>)
    requires X.IsOrder(order, plan)
    ensures IsOrder(order, NodeChecks(be, t, plan))
  {
    forall i | 0 <= i < |plan| ensures plan[i].column in order {
      assert plan[i] in plan;
    }
  }

  /**
   * For every contract without outlier rules and every limits: no run that succeeds shows its batch size
   * exactly when the contract's checks are uniform over the consecutive records that runs accept.
   */
  lemma ContractBatchesExactly<V(!new), E>(p: Pipeline<V, E>, be: F.Backend, t: Table<V>, contract: Contract, order: seq<string>)
    requires NoOutliers(O.Optimized(RawNodes(contract))) && X.IsOrder(order, O.Optimized(RawNodes(contract)))
    requires p.execute == ContractEngine(be, t, contract, order)
    ensures BatchSizeNeverShows(p) <==> UniformOverStreams(p, ChecksOf(be, t, contract, order))
  {
    ContractEngineImplements(be, t, contract, order);
    BatchSizeNeverShowsExactly(p, ChecksOf(be, t, contract, order));
  }

  // ---- Row checks that hide others ----

  lemma {:induction false} GroupKeepsOrder(column: string, nodes: seq<DagNode>, i: nat, j: nat) returns (a: nat, b: nat)
    requires i < j < |nodes| && nodes[i].column == column && nodes[j].column == column
    ensures a < b < |O.Group(column, nodes)|
    ensures O.Group(column, nodes)[a] == nodes[i] && O.Group(column, nodes)[b] == nodes[j]
  {
    var init, last := nodes[..|nodes| - 1], nodes[|nodes| - 1];
    if j < |init| {
      a, b := GroupKeepsOrder(column, init, i, j);
    } else {
      a := GroupHas(column, init, i);
      b := |O.Group(column, init)|;
    }
  }

  lemma {:induction false} GroupHas(column: string, nodes: seq<DagNode>, i: nat) returns (a: nat)
    requires i < |nodes| && nodes[i].column == column
    ensures a < |O.Group(column, nodes)| && O.Group(column, nodes)[a] == nodes[i]
  {
    var init := nodes[..|nodes| - 1];
    if i < |init| {
      a := GroupHas(column, init, i);
    } else {
      a := |O.Group(column, init)|;
    }
  }

  /** In the plan a Blocking node runs before every weaker node of its column. */
  lemma BlockingComesFirst(contract: Contract, n: DagNode, weak: DagNode) returns (a: nat, b: nat)
    requires n in O.Optimized(RawNodes(contract)) && weak in O.Optimized(RawNodes(contract))
    requires n.column == weak.column && n.Severity() == Blocking && weak.Severity() != Blocking
    ensures var group := O.Group(n.column, O.Optimized(RawNodes(contract)));
            a < b < |group| && group[a] == n && group[b] == weak
  {
    var plan := O.Optimized(RawNodes(contract));
    var i: nat :| i < |plan| && plan[i] == n;
    var j: nat :| j < |plan| && plan[j] == weak;
    O.PlanFollowsNodeLe(RawNodes(contract));
    WeakerIsLater(plan, i, j);
    a, b := GroupKeepsOrder(n.column, plan, i, j);
  }

  lemma WeakerIsLater(plan: seq<DagNode>, i: nat, j: nat)
    requires S.Sorted(O.NodeLe, plan) && i < |plan| && j < |plan| && plan[i].column == plan[j].column
    requires plan[i].Severity() == Blocking && plan[j].Severity() != Blocking
    ensures i < j
  {
    assert j < i ==> O.NodeLe(plan[j], plan[i]);
  }

  /** Where the `k`-th planned check of a column stands among the column's sources. */
  function PlanPosition<V>(be: F.Backend, t: Table<V>, contract: Contract, order: seq<string>, column: string, k: nat): nat {
    |ChecksOf(be, t, contract, order).direct| + k
  }

  lemma PlanSource<V>(be: F.Backend, t: Table<V>, contract: Contract, order: seq<string>, column: string, k: nat)
    requires k < |O.Group(column, O.Optimized(RawNodes(contract)))|
    ensures var e := ChecksOf(be, t, contract, order);
            var src, x := Sources(e, column), PlanPosition(be, t, contract, order, column, k);
            x < |src| && src[x] == CheckOfNode(be, t, O.Group(column, O.Optimized(RawNodes(contract)))[k])
  {
    var e, plan := ChecksOf(be, t, contract, order), O.Optimized(RawNodes(contract));
    GroupsAreChecks(be, t, plan, column);
    IndexAfter(e.direct, NodeChecks(be, t, O.Group(column, plan)), k);
    assert Sources(e, column) == e.direct + NodeChecks(be, t, O.Group(column, plan));
  }

  lemma IndexAfter<T>(a: seq<T>, b: seq<T>, k: nat)
    requires k < |b|
    ensures (a + b)[|a| + k] == b[k]
  {
  }

  lemma BlockingPrecedes<V>(be: F.Backend, t: Table<V>, contract: Contract, order: seq<string>, n: DagNode, weak: DagNode)
    returns (y: nat, x: nat)
    requires n in O.Optimized(RawNodes(contract)) && weak in O.Optimized(RawNodes(contract))
    requires n.column == weak.column && n.Severity() == Blocking && weak.Severity() != Blocking
    ensures var e := ChecksOf(be, t, contract, order);
            var src := Sources(e, n.column);
            |e.direct| <= y < x < |src| && src[y] == CheckOfNode(be, t, n) && src[x] == CheckOfNode(be, t, weak)
  {
    var a, b := BlockingComesFirst(contract, n, weak);
    y, x := PlanPosition(be, t, contract, order, n.column, a), PlanPosition(be, t, contract, order, n.column, b);
    PlanSource(be, t, contract, order, n.column, a);
    PlanSource(be, t, contract, order, n.column, b);
  }

  /**
   * A Blocking row check of the plan always shows: if one value fails it, and another fails a weaker
   * row check of the column that nothing hides from it alone, the checks are not uniform.
   */
  lemma BlockingRowCheckShows<V(!new)>(be: F.Backend, t: Table<V>, contract: Contract, order: seq<string>,
                                       n: DagNode, weak: DagNode, u: V, v: V) returns (x: nat)
    requires n in O.Optimized(RawNodes(contract)) && weak in O.Optimized(RawNodes(contract))
    requires n.column == weak.column && n.Severity() == Blocking && weak.Severity() != Blocking
    requires IsRowNode(be, t, n) && IsRowNode(be, t, weak)
    requires NodeTest(be, t, n)(u) && NodeTest(be, t, weak)(v)
    ensures var e := ChecksOf(be, t, contract, order);
            var src := Sources(e, n.column);
            && x < |src| && src[x] == CheckOfNode(be, t, weak)
            && (Hidden(src, |e.direct|, n.column, NodeName(t, weak), x, [v])
                || !UniformAt(e, n.column, NodeName(t, weak), x, [v, u], 0))
  {
    var y;
    y, x := BlockingPrecedes(be, t, contract, order, n, weak);
    CutOffByNeighbour(ChecksOf(be, t, contract, order), n.column, NodeName(t, weak), y, x, u, v);
  }

  lemma EarlierPrecedes<V>(be: F.Backend, t: Table<V>, contract: Contract, order: seq<string>, i: nat, j: nat)
    returns (y: nat, x: nat)
    requires i < j < |O.Optimized(RawNodes(contract))|
    requires O.Optimized(RawNodes(contract))[i].column == O.Optimized(RawNodes(contract))[j].column
    ensures var e, plan := ChecksOf(be, t, contract, order), O.Optimized(RawNodes(contract));
            var src := Sources(e, plan[j].column);
            |e.direct| <= y < x < |src| && src[y] == CheckOfNode(be, t, plan[i]) && src[x] == CheckOfNode(be, t, plan[j])
  {
    var plan := O.Optimized(RawNodes(contract));
    var a, b := GroupKeepsOrder(plan[j].column, plan, i, j);
    y, x := PlanPosition(be, t, contract, order, plan[j].column, a), PlanPosition(be, t, contract, order, plan[j].column, b);
    PlanSource(be, t, contract, order, plan[j].column, a);
    PlanSource(be, t, contract, order, plan[j].column, b);
  }

  /**
   * Two row nodes of the plan that report under one name always show: if one value fails the earlier
   * and another the later, which nothing hides from it alone, the checks are not uniform.
   */
  lemma SharedNameShows<V(!new)>(be: F.Backend, t: Table<V>, contract: Contract, order: seq<string>,
                                 i: nat, j: nat, u: V, v: V) returns (x: nat)
    requires i < j < |O.Optimized(RawNodes(contract))|
    requires var n, m := O.Optimized(RawNodes(contract))[i], O.Optimized(RawNodes(contract))[j];
             && n.column == m.column && NodeName(t, n) == NodeName(t, m)
             && IsRowNode(be, t, n) && IsRowNode(be, t, m)
             && NodeTest(be, t, n)(u) && NodeTest(be, t, m)(v)
    ensures var e, m := ChecksOf(be, t, contract, order), O.Optimized(RawNodes(contract))[j];
            var src := Sources(e, m.column);
            && x < |src| && src[x] == CheckOfNode(be, t, m)
            && (Hidden(src, |e.direct|, m.column, NodeName(t, m), x, [v])
                || !UniformAt(e, m.column, NodeName(t, m), x, [v, u], 0))
  {
    var m := O.Optimized(RawNodes(contract))[j];
    var y;
    y, x := EarlierPrecedes(be, t, contract, order, i, j);
    HiddenByNeighbour(ChecksOf(be, t, contract, order), m.column, NodeName(t, m), y, x, u, v);
  }
}
