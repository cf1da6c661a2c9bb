/**
 * Contracts whose runs show their batch size, with the lines that show it: `min` and `max` on one
 * column, and a Blocking pattern check beside an enumeration.
 */
module BatchExamples {
  import opened Sequences
  import opened Ast
  import opened Ndjson
  import opened Dag
  import opened Compiler
  import opened StreamRun
  import opened StreamLaws
  import opened StreamCuts
  import opened RowChecks
  import opened BatchRuns
  import opened ContractChecks
  import opened PlainText
  import O = Optimizer
  import X = Executor
  import EL = ExecutorLaws
  import F = Frames
  import S = StableSort
  import Schema
  import Z = Sanitizer

  // ---- Streams of two lines ----

  /** The line is kept and read as a record that becomes this value. */
  ghost predicate RowLine<V, E>(p: Pipeline<V, E>, line: seq<Byte>, v: V) {
    && KeptLine(p, line) && !Oversized(p.Cap(), line) && p.decoder.utf8(line)
    && p.parse(TrimEnd(line)).Ok? && p.sanitize(p.parse(TrimEnd(line)).value).0 == v
  }

  lemma RowLineIsAccepted<V, E>(p: Pipeline<V, E>, line: seq<Byte>, v: V, n: nat)
    requires RowLine(p, line, v)
    ensures var raw := RawOf(p.decoder, p.Cap(), line, n);
            raw.record == n && Judge(p, raw).Accept? && Judge(p, raw).value == v
  {
  }

  lemma TwoRecords<V, E>(p: Pipeline<V, E>, a: seq<Byte>, b: seq<Byte>)
    requires NoLimits(p) && KeptLine(p, a) && KeptLine(p, b)
    ensures Processed(p, a + b) == [RawOf(p.decoder, p.Cap(), a, 0), RawOf(p.decoder, p.Cap(), b, 1)]
  {
    var lines := [a, b];
    assert Flatten(lines) == a + b by {
      assert lines[1..] == [b] && Flatten([b]) == b;
    }
    StreamOfLines(p, lines);
  }

  lemma TwoRows<V, E>(p: Pipeline<V, E>, x: RawLine, y: RawLine)
    requires Judge(p, x).Accept? && Judge(p, y).Accept?
    ensures Accepted(p, [x, y]) == [Row(x.record, Judge(p, x).value), Row(y.record, Judge(p, y).value)]
  {
    OneMoreLine(p, [], x);
    OneMoreLine(p, [x], y);
    assert [] + [x] == [x] && [x] + [y] == [x, y];
  }

  lemma TwoLines<V, E>(p: Pipeline<V, E>, a: seq<Byte>, b: seq<Byte>, u: V, v: V)
    requires NoLimits(p) && RowLine(p, a, u) && RowLine(p, b, v)
    ensures RowsIn(p, a + b) == [Row(0, u), Row(1, v)] && ValuesIn(p, a + b) == [u, v]
  {
    TwoRecords(p, a, b);
    RowLineIsAccepted(p, a, u, 0);
    RowLineIsAccepted(p, b, v, 1);
    TwoRows(p, RawOf(p.decoder, p.Cap(), a, 0), RawOf(p.decoder, p.Cap(), b, 1));
    assert Values([Row(0, u), Row(1, v)]) == [u, v];
  }

  /** In batches of one the record is reported under this key, in batches of two it is not. */
  ghost predicate ShowsItsBatch<V, E>(p: Pipeline<V, E>, s: seq<Byte>, record: nat, key: Key) {
    && Reports(ReportOf(WithBatchSize(p, 1), s).findings, record, key)
    && !Reports(ReportOf(WithBatchSize(p, 2), s).findings, record, key)
  }

  /** Two lines whose second record is marked alone, by check `x`, and hidden in the batch of both. */
  lemma TwoLinesShow<V(!new), E>(p: Pipeline<V, E>, e: Checks<V>, a: seq<Byte>, b: seq<Byte>, u: V, v: V,
                                 column: string, check: string, x: nat)
    requires Implements(p.execute, e) && IsOrder(e.order, e.plan) && NoLimits(p) && RowLine(p, a, u) && RowLine(p, b, v)
    requires FailsAt(Sources(e, column), column, check, x, [v], 0)
    requires !Hidden(Sources(e, column), |e.direct|, column, check, x, [v])
    requires Hidden(Sources(e, column), |e.direct|, column, check, x, [u, v])
    ensures ShowsItsBatch(p, a + b, 1, Key(column, check, Sources(e, column)[x].severity))
  {
    var key := Key(column, check, Sources(e, column)[x].severity);
    TwoLines(p, a, b, u, v);
    assert [u, v][1] == v;
    assert !UniformAt(e, column, check, x, ValuesIn(p, a + b), 1);
    BatchesShow(p, e, a + b, column, check, x, 1);
    SingleBatches(p, e, a + b, 1, key);
    MarkedExactly(e, [v], 0, key);
    assert Marker(e, [v], 0, key, x);
  }

  // ---- What nothing hides from a record alone ----

  lemma FiresMeansReports<V>(be: F.Backend, t: Table<V>, n: DagNode, vs: seq<V>)
    ensures Fires(CheckOfNode(be, t, n), vs) <==> ExecuteNode(be, FrameOf(t, vs), n) != []
  {
    if IsRowNode(be, t, n) {
      RowNodeIsCheck(be, t, n, vs);
    }
  }

  function PlanOf(contract: Contract): seq<DagNode> { O.Optimized(RawNodes(contract)) }

  lemma {:induction false} GroupIsPart(column: string, nodes: seq<DagNode>)
    ensures multiset(O.Group(column, nodes)) <= multiset(nodes)
  {
    if nodes == [] {
    } else {
      GroupIsPart(column, nodes[..|nodes| - 1]);
      assert nodes == nodes[..|nodes| - 1] + [nodes[|nodes| - 1]];
    }
  }

  lemma ListedTwice(nodes: seq<DagNode>, g: nat, h: nat)
    requires g < h < |nodes| && nodes[g] == nodes[h]
    ensures multiset(nodes)[nodes[g]] >= 2
  {
    var front, back := nodes[..h], nodes[h..];
    assert nodes == front + back;
    assert front[g] in front && back[0] in back;
  }

  /** A node that the plan lists earlier in the column is another raw node of the column. */
  lemma EarlierIsAnother(contract: Contract, column: string, g: nat, h: nat)
    requires g < h < |O.Group(column, PlanOf(contract))|
    ensures var group := O.Group(column, PlanOf(contract));
            group[g] != group[h] && group[g] in RawNodes(contract) && group[g].column == column
  {
    var group := O.Group(column, PlanOf(contract));
    O.OptimizedKeeps(RawNodes(contract));
    O.GroupMember(column, PlanOf(contract), group[g]);
    GroupIsPart(column, PlanOf(contract));
    assert multiset(group)[group[g]] <= multiset(PlanOf(contract))[group[g]] <= 1;
    if group[g] == group[h] {
      ListedTwice(group, g, h);
    }
  }

  /** The node would hide `n` wherever it comes first. */
  predicate WouldHide<V>(t: Table<V>, n: DagNode, m: DagNode) {
    m.column == n.column && m != n && (NodeName(t, m) == NodeName(t, n) || NodeSeverity(t, m) == Blocking)
  }

  /** No other check reports on this record what would hide `n`. */
  ghost predicate NobodyHides<V>(be: F.Backend, t: Table<V>, contract: Contract, n: DagNode, v: V) {
    && (forall m :: m in RawNodes(contract) && WouldHide(t, n, m) ==> ExecuteNode(be, FrameOf(t, [v]), m) == [])
    && (forall k :: 0 <= k < |ChecksOf(be, t, contract, []).direct| ==>
          !Concerns(ChecksOf(be, t, contract, []).direct[k], n.column, NodeName(t, n)))
  }

  lemma NothingFires<V>(src: seq<Check<V>>, d: nat, column: string, check: string, x: nat, vs: seq<V>)
    requires d <= x < |src|
    requires forall j :: 0 <= j < d ==> !Concerns(src[j], column, check)
    requires forall j :: d <= j < x && (src[j].check == check || src[j].severity == Blocking) ==> !Fires(src[j], vs)
    ensures !Hidden(src, d, column, check, x, vs)
  {
  }

  lemma DirectIsElsewhere<V>(be: F.Backend, t: Table<V>, contract: Contract, order: seq<string>, n: DagNode, v: V, j: nat)
    requires NobodyHides(be, t, contract, n, v) && j < |ChecksOf(be, t, contract, order).direct|
    ensures !Concerns(Sources(ChecksOf(be, t, contract, order), n.column)[j], n.column, NodeName(t, n))
  {
    assert Sources(ChecksOf(be, t, contract, order), n.column)[j] == ChecksOf(be, t, contract, []).direct[j];
  }

  lemma PlannedIsSilent<V>(be: F.Backend, t: Table<V>, contract: Contract, order: seq<string>, n: DagNode, b: nat, v: V, g: nat, j: nat)
    requires g < b < |O.Group(n.column, PlanOf(contract))| && O.Group(n.column, PlanOf(contract))[b] == n
    requires NobodyHides(be, t, contract, n, v) && j == PlanPosition(be, t, contract, order, n.column, g)
    ensures var src := Sources(ChecksOf(be, t, contract, order), n.column);
            j < |src| && (src[j].check == NodeName(t, n) || src[j].severity == Blocking ==> !Fires(src[j], [v]))
  {
    var m := O.Group(n.column, PlanOf(contract))[g];
    EarlierIsAnother(contract, n.column, g, b);
    PlanSource(be, t, contract, order, n.column, g);
    FiresMeansReports(be, t, m, [v]);
    assert NodeName(t, m) == NodeName(t, n) || NodeSeverity(t, m) == Blocking ==> WouldHide(t, n, m);
  }

  lemma NotHiddenAlone<V>(be: F.Backend, t: Table<V>, contract: Contract, order: seq<string>, n: DagNode, b: nat, v: V)
    requires b < |O.Group(n.column, PlanOf(contract))| && O.Group(n.column, PlanOf(contract))[b] == n
    requires NobodyHides(be, t, contract, n, v)
    ensures var e, x := ChecksOf(be, t, contract, order), PlanPosition(be, t, contract, order, n.column, b);
            x < |Sources(e, n.column)| && !Hidden(Sources(e, n.column), |e.direct|, n.column, NodeName(t, n), x, [v])
  {
    var e, x := ChecksOf(be, t, contract, order), PlanPosition(be, t, contract, order, n.column, b);
    var src, d := Sources(e, n.column), |e.direct|;
    PlanSource(be, t, contract, order, n.column, b);
    forall j: nat | j < d ensures !Concerns(src[j], n.column, NodeName(t, n)) {
      DirectIsElsewhere(be, t, contract, order, n, v, j);
    }
    forall j: nat | d <= j < x ensures src[j].check == NodeName(t, n) || src[j].severity == Blocking ==> !Fires(src[j], [v]) {
      PlannedIsSilent(be, t, contract, order, n, b, v, j - d, j);
    }
    NothingFires(src, d, n.column, NodeName(t, n), x, [v]);
  }

  // ---- Contracts that show their batches ----

  /** A stream of two records shows its batches when the first fails a planned node that hides what the second fails. */
  lemma PlannedNodesShow<V(!new), E>(p: Pipeline<V, E>, be: F.Backend, t: Table<V>, contract: Contract, order: seq<string>,
                                     n: DagNode, m: DagNode, g: nat, h: nat, a: seq<Byte>, b: seq<Byte>, u: V, v: V)
    requires NoOutliers(PlanOf(contract)) && X.IsOrder(order, PlanOf(contract))
    requires p.execute == ContractEngine(be, t, contract, order) && NoLimits(p) && RowLine(p, a, u) && RowLine(p, b, v)
    requires n.column == m.column && g < h < |O.Group(m.column, PlanOf(contract))|
    requires O.Group(m.column, PlanOf(contract))[g] == n && O.Group(m.column, PlanOf(contract))[h] == m
    requires IsRowNode(be, t, n) && IsRowNode(be, t, m) && NodeTest(be, t, n)(u) && NodeTest(be, t, m)(v)
    requires WouldHide(t, m, n) && NobodyHides(be, t, contract, m, v)
    ensures ShowsItsBatch(p, a + b, 1, Key(m.column, NodeName(t, m), NodeSeverity(t, m)))
  {
    var e := ChecksOf(be, t, contract, order);
    var y, x := PlanPosition(be, t, contract, order, m.column, g), PlanPosition(be, t, contract, order, m.column, h);
    ContractEngineImplements(be, t, contract, order);
    PlanSource(be, t, contract, order, m.column, g);
    PlanSource(be, t, contract, order, m.column, h);
    NotHiddenAlone(be, t, contract, order, m, h, v);
    assert [u, v][0] == u && [u, v][1] == v && [v][0] == v;
    assert 0 in FailingRows(Sources(e, m.column)[y], [u, v]);
    assert Hides(Sources(e, m.column), |e.direct|, m.column, NodeName(t, m), x, y);
    TwoLinesShow(p, e, a, b, u, v, m.column, NodeName(t, m), x);
  }

  // ---- The direct checks of one field ----

  lemma {:induction false} ConstraintCheckNames<V>(be: F.Backend, t: Table<V>, column: string, cs: seq<Constraint>, name: string)
    requires forall c :: c in cs ==> Schema.ConstraintName(c) != name
    ensures forall k :: 0 <= k < |ConstraintChecks(be, t, column, cs)| ==> ConstraintChecks(be, t, column, cs)[k].check != name
  {
    if cs == [] {
    } else {
      ConstraintCheckNames(be, t, column, cs[..|cs| - 1], name);
    }
  }

  lemma DirectNames<V>(be: F.Backend, t: Table<V>, contract: Contract, field: FieldDef, name: string)
    requires contract.schema == [field] && contract.qualityRules == []
    requires name != "column_exists" && name != "type_check"
    requires forall c :: c in field.constraints ==> Schema.ConstraintName(c) != name
    ensures var direct := ChecksOf(be, t, contract, []).direct;
            forall k :: 0 <= k < |direct| ==> direct[k].check != name
  {
    ConstraintCheckNames(be, t, field.name, field.constraints, name);
    assert [field][..0] == [];
    assert SchemaChecks(be, t, [field]) == SchemaChecks(be, t, []) + FieldChecks(be, t, field);
  }

  // ---- Min and max on one column ----

  function RangeContract(column: string, lo: real, hi: real): Contract {
    Contract([FieldDef(column, IntType, [Min(lo), Max(hi)])], [], [], [])
  }

  function BelowNode(column: string, lo: real): DagNode { RangeCheck(column, Some(lo), None, Error) }

  function AboveNode(column: string, hi: real): DagNode { RangeCheck(column, None, Some(hi), Error) }

  lemma RangeNodes(column: string, lo: real, hi: real)
    ensures RawNodes(RangeContract(column, lo, hi)) ==
            [Profile(column), TypeCheck(column, IntType, false, Blocking), BelowNode(column, lo), AboveNode(column, hi)]
  {
    var cs := [Min(lo), Max(hi)];
    assert cs[..1] == [Min(lo)] && cs[..1][..0] == [];
    assert ConstraintNodes(column, cs[..1]) == [BelowNode(column, lo)];
    var contract := RangeContract(column, lo, hi);
    assert SchemaNodes(contract.schema[..0]) == [];
  }

  lemma NothingDropped(nodes: seq<DagNode>)
    requires O.Distinct(nodes) && forall n :: n in nodes ==> !n.QualityMetricCheck?
    ensures O.Optimized(nodes) == S.Sort(O.NodeLe, nodes)
  {
    O.DedupOfDistinct(nodes);
    O.NothingRedundant(O.NullChecked(nodes), nodes);
  }

  /** Nodes that the plan does not sort apart are planned as they are listed. */
  lemma PlannedAsListed(nodes: seq<DagNode>, i: nat, j: nat) returns (g: nat, h: nat)
    requires O.Distinct(nodes) && forall n :: n in nodes ==> !n.QualityMetricCheck?
    requires i < j < |nodes| && S.Equivalent(O.NodeLe, nodes[i], nodes[j]) && nodes[i].column == nodes[j].column
    ensures var group := O.Group(nodes[i].column, O.Optimized(nodes));
            g < h < |group| && group[g] == nodes[i] && group[h] == nodes[j]
  {
    NothingDropped(nodes);
    O.NodeOrder();
    var x, y := S.SortKeepsOrder(O.NodeLe, nodes, i, j);
    g, h := GroupKeepsOrder(nodes[i].column, O.Optimized(nodes), x, y);
  }

  lemma FourDistinct(a: DagNode, b: DagNode, c: DagNode, d: DagNode)
    requires a != b && a != c && a != d && b != c && b != d && c != d
    ensures O.Distinct([a, b, c, d])
  {
  }

  /** The minimum is planned before the maximum. */
  lemma BelowComesFirst(column: string, lo: real, hi: real) returns (g: nat, h: nat)
    ensures var group := O.Group(column, PlanOf(RangeContract(column, lo, hi)));
            g < h < |group| && group[g] == BelowNode(column, lo) && group[h] == AboveNode(column, hi)
  {
    RangeNodes(column, lo, hi);
    FourDistinct(Profile(column), TypeCheck(column, IntType, false, Blocking), BelowNode(column, lo), AboveNode(column, hi));
    g, h := PlannedAsListed(RawNodes(RangeContract(column, lo, hi)), 2, 3);
  }

  lemma OneColumn(contract: Contract, column: string, n: DagNode)
    requires forall m :: m in RawNodes(contract) ==> m.column == column && !m.OutlierDetection? && !m.QualityMetricCheck?
    requires n in RawNodes(contract)
    ensures NoOutliers(PlanOf(contract)) && X.IsOrder([column], PlanOf(contract)) && n in PlanOf(contract)
  {
    O.OptimizedKeeps(RawNodes(contract));
    assert n in PlanOf(contract);
    EL.OneColumnOrder(column, PlanOf(contract));
    forall i | 0 <= i < |PlanOf(contract)| ensures !PlanOf(contract)[i].OutlierDetection? {
      assert PlanOf(contract)[i] in PlanOf(contract);
    }
  }

  /** The number that the column of this record casts to. */
  predicate Holds<V>(be: F.Backend, t: Table<V>, column: string, v: V, x: real) {
    column in t.columns && t.cell(v, column).Some? && be.castCell(t.cell(v, column).value) == Some(x)
  }

  lemma BelowIsSilent<V>(be: F.Backend, t: Table<V>, column: string, lo: real, v: V, x: real)
    requires Holds(be, t, column, v, x) && x >= lo
    ensures ExecuteNode(be, FrameOf(t, [v]), BelowNode(column, lo)) == []
  {
    NothingFails(CheckOfNode(be, t, BelowNode(column, lo)), [v]);
    FiresMeansReports(be, t, BelowNode(column, lo), [v]);
  }

  lemma RivalsOfAbove<V>(be: F.Backend, t: Table<V>, column: string, lo: real, hi: real, v: V, x: real, m: DagNode)
    requires Holds(be, t, column, v, x) && x >= lo
    requires m in RawNodes(RangeContract(column, lo, hi)) && WouldHide(t, AboveNode(column, hi), m)
    ensures ExecuteNode(be, FrameOf(t, [v]), m) == []
  {
    RangeNodes(column, lo, hi);
    BelowIsSilent(be, t, column, lo, v, x);
  }

  lemma NothingHidesAbove<V>(be: F.Backend, t: Table<V>, column: string, lo: real, hi: real, v: V, x: real)
    requires Holds(be, t, column, v, x) && x >= lo
    ensures NobodyHides(be, t, RangeContract(column, lo, hi), AboveNode(column, hi), v)
  {
    var contract, high := RangeContract(column, lo, hi), AboveNode(column, hi);
    DirectNames(be, t, contract, contract.schema[0], "range_check");
    forall m | m in RawNodes(contract) && WouldHide(t, high, m) ensures ExecuteNode(be, FrameOf(t, [v]), m) == [] {
      RivalsOfAbove(be, t, column, lo, hi, v, x, m);
    }
  }

  lemma RangePlan(column: string, lo: real, hi: real)
    ensures var plan := PlanOf(RangeContract(column, lo, hi)); NoOutliers(plan) && X.IsOrder([column], plan)
  {
    RangeNodes(column, lo, hi);
    OneColumn(RangeContract(column, lo, hi), column, AboveNode(column, hi));
  }

  /** `min` and `max` report under one name, so a number below the minimum hides its neighbour's excess. */
  lemma MinAndMaxDependOnBatches<V(!new), E>(p: Pipeline<V, E>, be: F.Backend, t: Table<V>, column: string, lo: real, hi: real,
                                             a: seq<Byte>, b: seq<Byte>, u: V, v: V, x: real, y: real)
    requires p.execute == ContractEngine(be, t, RangeContract(column, lo, hi), [column]) && NoLimits(p)
    requires RowLine(p, a, u) && RowLine(p, b, v) && be.castable(t.dtype(column))
    requires Holds(be, t, column, u, x) && Holds(be, t, column, v, y) && x < lo <= y && hi < y
    ensures ShowsItsBatch(p, a + b, 1, Key(column, "range_check", Error))
  {
    var contract := RangeContract(column, lo, hi);
    RangePlan(column, lo, hi);
    var g, h := BelowComesFirst(column, lo, hi);
    NothingHidesAbove(be, t, column, lo, hi, v, y);
    PlannedNodesShow(p, be, t, contract, [column], BelowNode(column, lo), AboveNode(column, hi), g, h, a, b, u, v);
  }

  // ---- A Blocking pattern check beside an enumeration ----

  function CodeContract(column: string, allowed: seq<string>, pattern: string): Contract {
    Contract([FieldDef(column, StringType, [Enum(allowed)])], [], [],
             [AnomalyRule(DetectPatternBreaks, column, map["pattern" := pattern], Blocking)])
  }

  function PatternNode(column: string, pattern: string): DagNode { RegexCheck(column, pattern, Blocking) }

  function AllowedNode(column: string, allowed: seq<string>): DagNode { EnumCheck(column, allowed, Error) }

  lemma CodeNodes(column: string, allowed: seq<string>, pattern: string)
    ensures RawNodes(CodeContract(column, allowed, pattern)) ==
            [Profile(column), TypeCheck(column, StringType, false, Blocking), AllowedNode(column, allowed), PatternNode(column, pattern)]
  {
    var contract := CodeContract(column, allowed, pattern);
    var cs := [Enum(allowed)];
    assert cs[..0] == [] && ConstraintNodes(column, cs) == [AllowedNode(column, allowed)];
    assert SchemaNodes(contract.schema[..0]) == [];
    assert contract.anomalyRules[..0] == [];
    assert Map(AnomalyNode, contract.anomalyRules) == [PatternNode(column, pattern)];
  }

  /** The text in the column of this record. */
  predicate Reads<V>(t: Table<V>, column: string, v: V, text: string) {
    column in t.columns && t.dtype(column).Text? && t.cell(v, column) == Some(F.Str(text))
  }

  lemma PatternIsSilent<V>(be: F.Backend, t: Table<V>, column: string, pattern: string, v: V, text: string)
    requires Reads(t, column, v, text) && be.regexOk(pattern) && be.regexMatch(pattern, text)
    ensures ExecuteNode(be, FrameOf(t, [v]), PatternNode(column, pattern)) == []
  {
    NothingFails(CheckOfNode(be, t, PatternNode(column, pattern)), [v]);
    FiresMeansReports(be, t, PatternNode(column, pattern), [v]);
  }

  lemma RivalsOfAllowed<V>(be: F.Backend, t: Table<V>, column: string, allowed: seq<string>, pattern: string,
                           v: V, text: string, m: DagNode)
    requires Reads(t, column, v, text) && be.regexOk(pattern) && be.regexMatch(pattern, text)
    requires m in RawNodes(CodeContract(column, allowed, pattern)) && WouldHide(t, AllowedNode(column, allowed), m)
    ensures ExecuteNode(be, FrameOf(t, [v]), m) == []
  {
    CodeNodes(column, allowed, pattern);
    PatternIsSilent(be, t, column, pattern, v, text);
  }

  lemma NothingHidesAllowed<V>(be: F.Backend, t: Table<V>, column: string, allowed: seq<string>, pattern: string, v: V, text: string)
    requires Reads(t, column, v, text) && be.regexOk(pattern) && be.regexMatch(pattern, text)
    ensures NobodyHides(be, t, CodeContract(column, allowed, pattern), AllowedNode(column, allowed), v)
  {
    var contract, listed := CodeContract(column, allowed, pattern), AllowedNode(column, allowed);
    DirectNames(be, t, contract, contract.schema[0], "enum_check");
    forall m | m in RawNodes(contract) && WouldHide(t, listed, m) ensures ExecuteNode(be, FrameOf(t, [v]), m) == [] {
      RivalsOfAllowed(be, t, column, allowed, pattern, v, text, m);
    }
  }

  lemma CodePlan(column: string, allowed: seq<string>, pattern: string) returns (g: nat, h: nat)
    ensures var plan := PlanOf(CodeContract(column, allowed, pattern)); NoOutliers(plan) && X.IsOrder([column], plan)
    ensures var group := O.Group(column, PlanOf(CodeContract(column, allowed, pattern)));
            g < h < |group| && group[g] == PatternNode(column, pattern) && group[h] == AllowedNode(column, allowed)
  {
    var contract, n, m := CodeContract(column, allowed, pattern), PatternNode(column, pattern), AllowedNode(column, allowed);
    CodeNodes(column, allowed, pattern);
    OneColumn(contract, column, n);
    OneColumn(contract, column, m);
    g, h := BlockingComesFirst(contract, n, m);
  }

  /** A text that breaks the pattern aborts the column, and its neighbour's unlisted value goes unreported. */
  lemma BlockingChecksDependOnBatches<V(!new), E>(p: Pipeline<V, E>, be: F.Backend, t: Table<V>, column: string, allowed: seq<string>,
                                                  pattern: string, a: seq<Byte>, b: seq<Byte>, u: V, v: V, broken: string, other: string)
    requires p.execute == ContractEngine(be, t, CodeContract(column, allowed, pattern), [column]) && NoLimits(p)
    requires RowLine(p, a, u) && RowLine(p, b, v) && be.regexOk(pattern)
    requires Reads(t, column, u, broken) && !be.regexMatch(pattern, broken)
    requires Reads(t, column, v, other) && be.regexMatch(pattern, other) && other !in allowed
    ensures ShowsItsBatch(p, a + b, 1, Key(column, "enum_check", Error))
  {
    var contract := CodeContract(column, allowed, pattern);
    var n, m := PatternNode(column, pattern), AllowedNode(column, allowed);
    var g, h := CodePlan(column, allowed, pattern);
    NothingHidesAllowed(be, t, column, allowed, pattern, v, other);
    PlannedNodesShow(p, be, t, contract, [column], n, m, g, h, a, b, u, v);
  }

  // ---- The same on JSON lines ----

  function Record(key: string, value: Z.Json): Z.Json { Z.JObject([Z.Member(key, value)]) }

  function CellOf(number: string -> real, members: seq<Z.Member>, key: string): Option<F.Cell> {
    if members == [] then None
    else if members[0].key != key then CellOf(number, members[1..], key)
    else match members[0].value
      case JNumber(digits) => Some(F.Num(number(digits)))
      case JString(text) => Some(F.Str(text))
      case JBool(flag) => Some(F.Flag(flag))
      case _ => None
  }

  /** A table with one column, which holds what the records have under its name. */
  function JsonTable(column: string, dtype: F.DType, number: string -> real): Table<Z.Json> {
    Table({column}, (_: string) => dtype, (v: Z.Json, key: string) => if v.JObject? then CellOf(number, v.members, key) else None)
  }

  lemma CellOfRecord(column: string, dtype: F.DType, number: string -> real, value: Z.Json)
    requires value.JNumber? || value.JString?
    ensures var t := JsonTable(column, dtype, number);
            && t.columns == {column} && t.dtype(column) == dtype
            && t.cell(Record(column, value), column) ==
                 Some(if value.JNumber? then F.Num(number(value.digits)) else F.Str(value.text))
  {
  }

  function JsonPipeline(parse: seq<Byte> -> Result<Z.Json, string>, be: F.Backend, t: Table<Z.Json>, contract: Contract, column: string)
    : Pipeline<Z.Json, Z.Event>
  {
    Pipeline(Limits(None, None, 1000, 1), FailFast, FailFast, Decoder(_ => true, s => s == []), false, Text,
             parse, v => (v, []), ContractEngine(be, t, contract, [column]))
  }

  lemma PlainRowLine<V, E>(p: Pipeline<V, E>, content: seq<Byte>, v: V)
    requires IsLine(content + [NEWLINE]) && TrimEnd(content + [NEWLINE]) == content && |content| < p.Cap()
    requires p.decoder.utf8(content + [NEWLINE]) && !p.decoder.whitespace(content)
    requires p.parse(content).Ok? && p.sanitize(p.parse(content).value).0 == v
    ensures RowLine(p, content + [NEWLINE], v)
  {
  }

  lemma PipelineRuns(parse: seq<Byte> -> Result<Z.Json, string>, be: F.Backend, t: Table<Z.Json>, contract: Contract, column: string,
                     content: seq<Byte>, v: Z.Json)
    requires content != []
    ensures var p := JsonPipeline(parse, be, t, contract, column);
            && p.execute == ContractEngine(be, t, contract, [column]) && NoLimits(p) && p.Cap() == 1000
            && p.decoder.utf8(content + [NEWLINE]) && !p.decoder.whitespace(content)
            && p.parse(content) == parse(content) && p.sanitize(v).0 == v
  {
  }

  lemma TextLine(parse: seq<Byte> -> Result<Z.Json, string>, be: F.Backend, t: Table<Z.Json>, contract: Contract, column: string,
                 text: string, v: Z.Json)
    requires OneLine(text) && |text| < 1000 && parse(Bytes(text)) == Ok(v)
    ensures var p := JsonPipeline(parse, be, t, contract, column);
            RowLine(p, LineOf(text), v) && p.execute == ContractEngine(be, t, contract, [column]) && NoLimits(p)
  {
    LineOfText(text);
    PipelineRuns(parse, be, t, contract, column, Bytes(text), v);
    PlainRowLine(JsonPipeline(parse, be, t, contract, column), Bytes(text), v);
  }

  lemma NumbersDependOnBatches(parse: seq<Byte> -> Result<Z.Json, string>, be: F.Backend, number: string -> real, column: string,
                               lo: real, hi: real, first: string, second: string, low: string, high: string)
    requires OneLine(first) && |first| < 1000 && parse(Bytes(first)) == Ok(Record(column, Z.JNumber(low)))
    requires OneLine(second) && |second| < 1000 && parse(Bytes(second)) == Ok(Record(column, Z.JNumber(high)))
    requires be.castable(F.Integral) && forall x :: be.castCell(F.Num(x)) == Some(x)
    requires number(low) < lo <= number(high) && hi < number(high)
    ensures var t := JsonTable(column, F.Integral, number);
            ShowsItsBatch(JsonPipeline(parse, be, t, RangeContract(column, lo, hi), column), LineOf(first) + LineOf(second), 1,
                          Key(column, "range_check", Error))
  {
    var t, contract := JsonTable(column, F.Integral, number), RangeContract(column, lo, hi);
    var u, v := Record(column, Z.JNumber(low)), Record(column, Z.JNumber(high));
    TextLine(parse, be, t, contract, column, first, u);
    TextLine(parse, be, t, contract, column, second, v);
    CellOfRecord(column, F.Integral, number, Z.JNumber(low));
    CellOfRecord(column, F.Integral, number, Z.JNumber(high));
    MinAndMaxDependOnBatches(JsonPipeline(parse, be, t, contract, column), be, t, column, lo, hi,
                             LineOf(first), LineOf(second), u, v, number(low), number(high));
  }

  lemma AgesAreLines(first: string, second: string)
    requires first == "{\"age\":5}" && second == "{\"age\":99}"
    ensures OneLine(first) && |first| < 1000 && OneLine(second) && |second| < 1000
  {
  }

  /** For example an age of 5 and an age of 99 under a minimum of 10 and a maximum of 50. */
  lemma AgesDependOnBatches(parse: seq<Byte> -> Result<Z.Json, string>, be: F.Backend, number: string -> real,
                            first: string, second: string)
    requires first == "{\"age\":5}" && parse(Bytes(first)) == Ok(Record("age", Z.JNumber("5"))) && number("5") == 5.0
    requires second == "{\"age\":99}" && parse(Bytes(second)) == Ok(Record("age", Z.JNumber("99"))) && number("99") == 99.0
    requires be.castable(F.Integral) && forall x :: be.castCell(F.Num(x)) == Some(x)
    ensures var t := JsonTable("age", F.Integral, number);
            ShowsItsBatch(JsonPipeline(parse, be, t, RangeContract("age", 10.0, 50.0), "age"), LineOf(first) + LineOf(second), 1,
                          Key("age", "range_check", Error))
  {
    AgesAreLines(first, second);
    NumbersDependOnBatches(parse, be, number, "age", 10.0, 50.0, first, second, "5", "99");
  }

  lemma TextsDependOnBatches(parse: seq<Byte> -> Result<Z.Json, string>, be: F.Backend, number: string -> real, column: string,
                             allowed: seq<string>, pattern: string, first: string, second: string, broken: string, other: string)
    requires OneLine(first) && |first| < 1000 && parse(Bytes(first)) == Ok(Record(column, Z.JString(broken)))
    requires OneLine(second) && |second| < 1000 && parse(Bytes(second)) == Ok(Record(column, Z.JString(other)))
    requires be.regexOk(pattern) && !be.regexMatch(pattern, broken) && be.regexMatch(pattern, other) && other !in allowed
    ensures var t := JsonTable(column, F.Text, number);
            ShowsItsBatch(JsonPipeline(parse, be, t, CodeContract(column, allowed, pattern), column), LineOf(first) + LineOf(second), 1,
                          Key(column, "enum_check", Error))
  {
    var t, contract := JsonTable(column, F.Text, number), CodeContract(column, allowed, pattern);
    var u, v := Record(column, Z.JString(broken)), Record(column, Z.JString(other));
    TextLine(parse, be, t, contract, column, first, u);
    TextLine(parse, be, t, contract, column, second, v);
    CellOfRecord(column, F.Text, number, Z.JString(broken));
    CellOfRecord(column, F.Text, number, Z.JString(other));
    BlockingChecksDependOnBatches(JsonPipeline(parse, be, t, contract, column), be, t, column, allowed, pattern,
                                  LineOf(first), LineOf(second), u, v, broken, other);
  }

  lemma CodesAreLines(first: string, second: string)
    requires first == "{\"code\":\"X\"}" && second == "{\"code\":\"b\"}"
    ensures OneLine(first) && |first| < 1000 && OneLine(second) && |second| < 1000
  {
  }

  /** For example the code X, which is not a small letter, and the code b, which is not listed. */
  lemma CodesDependOnBatches(parse: seq<Byte> -> Result<Z.Json, string>, be: F.Backend, number: string -> real, pattern: string,
                             first: string, second: string)
    requires first == "{\"code\":\"X\"}" && parse(Bytes(first)) == Ok(Record("code", Z.JString("X")))
    requires second == "{\"code\":\"b\"}" && parse(Bytes(second)) == Ok(Record("code", Z.JString("b")))
    requires be.regexOk(pattern) && !be.regexMatch(pattern, "X") && be.regexMatch(pattern, "b")
    ensures var t := JsonTable("code", F.Text, number);
            ShowsItsBatch(JsonPipeline(parse, be, t, CodeContract("code", ["a"], pattern), "code"), LineOf(first) + LineOf(second), 1,
                          Key("code", "enum_check", Error))
  {
    CodesAreLines(first, second);
    assert "b" !in ["a"];
    TextsDependOnBatches(parse, be, number, "code", ["a"], pattern, first, second, "X", "b");
  }
}
