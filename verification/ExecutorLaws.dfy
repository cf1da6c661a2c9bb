/** What executing a compiled contract promises. */
module ExecutorLaws {
  import opened Sequences
  import opened Ast
  import opened Dag
  import opened Optimizer
  import opened Compiler
  import opened Executor
  import F = Frames
  import S = StableSort

  // ---- The merge ----

  lemma KeyOrder()
    ensures S.TotalPreorder(KeyLe)
  {
    forall a, b ensures KeyLe(a, b) || KeyLe(b, a) {
      StringLeTotal(a.column, b.column);
      StringLeTotal(a.check, b.check);
    }
    forall a, b, c | KeyLe(a, b) && KeyLe(b, c) ensures KeyLe(a, c) {
      KeyLeTransitive(a, b, c);
    }
  }

  lemma KeyLeTransitive(a: Violation, b: Violation, c: Violation)
    requires KeyLe(a, b) && KeyLe(b, c)
    ensures KeyLe(a, c)
  {
    if a.column != b.column && b.column != c.column {
      StringLeTransitive(a.column, b.column, c.column);
      StringLeTotal(a.column, b.column);
    } else if a.column == b.column == c.column {
      StringLeTransitive(a.check, b.check, c.check);
    }
  }

  lemma KeysDecide(a: Violation, b: Violation)
    ensures S.Equivalent(KeyLe, a, b) <==> SameKey(a, b)
  {
    StringLeTotal(a.column, b.column);
    StringLeTotal(a.check, b.check);
  }

  /** The earliest violation with a key heads that key's class. */
  lemma {:induction false} FirstHeadsClass(vs: seq<Violation>, v: Violation)
    ensures S.Class(KeyLe, v, vs) == [] ==> First(vs, v) == v && forall w :: w in vs ==> !SameKey(w, v)
    ensures S.Class(KeyLe, v, vs) != [] ==> First(vs, v) == S.Class(KeyLe, v, vs)[0]
  {
    if vs == [] {
    } else {
      FirstHeadsClass(vs[1..], v);
      KeysDecide(v, vs[0]);
    }
  }

  lemma {:induction false} FirstIsThere(vs: seq<Violation>, v: Violation)
    requires v in vs
    ensures First(vs, v) in vs && SameKey(First(vs, v), v)
  {
    if SameKey(vs[0], v) {
    } else {
      FirstIsThere(vs[1..], v);
    }
  }

  /** In a list ordered by key, dropping repeats within runs leaves strictly increasing keys ... */
  lemma {:induction false} DedupRunsAscend(vs: seq<Violation>)
    requires S.Sorted(KeyLe, vs)
    ensures Ascending(DedupRuns(vs))
  {
    if vs == [] {
    } else {
      var init, last := vs[..|vs| - 1], vs[|vs| - 1];
      DedupRunsAscend(init);
      assert vs == init + [last];
      if !(init != [] && SameKey(init[|init| - 1], last)) {
        NoEarlierKey(init, last);
        LastAscends(init, last);
      }
    }
  }

  lemma LastAscends(init: seq<Violation>, last: Violation)
    requires Ascending(DedupRuns(init)) && forall w :: w in init ==> KeyLe(w, last) && !SameKey(w, last)
    ensures Ascending(DedupRuns(init) + [last])
  {
    var kept := DedupRuns(init);
    forall i | 0 <= i < |kept| ensures KeyLe(kept[i], last) && !SameKey(kept[i], last) {
      DedupRunsPart(init, kept[i]);
    }
  }

  lemma {:induction false} DedupRunsPart(vs: seq<Violation>, v: Violation)
    requires v in DedupRuns(vs)
    ensures v in vs
  {
    var init, last := vs[..|vs| - 1], vs[|vs| - 1];
    if v != last {
      DedupRunsPart(init, v);
    }
  }

  /** ... and keeps exactly the first violation of each key. */
  lemma {:induction false} DedupRunsMember(vs: seq<Violation>, v: Violation)
    requires S.Sorted(KeyLe, vs)
    ensures v in DedupRuns(vs) <==> v in vs && v == First(vs, v)
  {
    if vs == [] {
    } else {
      var init, last := vs[..|vs| - 1], vs[|vs| - 1];
      DedupRunsMember(init, v);
      assert vs == init + [last];
      FirstAppend(init, last, v);
      if init != [] && SameKey(init[|init| - 1], last) {
        var w := init[|init| - 1];
        assert w in init;
        if v == last && v !in init {
          EarlierKeyWins(init, w, v);
        }
      } else {
        NoEarlierKey(init, last);
      }
    }
  }

  lemma EarlierKeyWins(vs: seq<Violation>, w: Violation, v: Violation)
    requires w in vs && SameKey(w, v) && v !in vs
    ensures First(vs, v) != v
  {
  }

  lemma {:induction false} FirstAppend(init: seq<Violation>, last: Violation, v: Violation)
    ensures First(init + [last], v) == if exists w :: w in init && SameKey(w, v) then First(init, v)
                                       else if SameKey(last, v) then last else v
  {
    if init == [] {
    } else {
      assert (init + [last])[1..] == init[1..] + [last];
      FirstAppend(init[1..], last, v);
      assert forall w :: w in init <==> w == init[0] || w in init[1..];
    }
  }

  /** A new last key occurs nowhere earlier. */
  lemma NoEarlierKey(init: seq<Violation>, last: Violation)
    requires S.Sorted(KeyLe, init + [last])
    requires init == [] || !SameKey(init[|init| - 1], last)
    ensures forall w :: w in init ==> KeyLe(w, last) && !SameKey(w, last)
  {
    var vs := init + [last];
    forall i | 0 <= i < |init| ensures KeyLe(init[i], last) && !SameKey(init[i], last) {
      assert KeyLe(vs[i], vs[|init|]);
      var top := init[|init| - 1];
      assert i < |init| - 1 ==> KeyLe(vs[i], vs[|init| - 1]);
      assert KeyLe(vs[|init| - 1], vs[|init|]);
      KeysDecide(top, last);
    }
  }

  /**
   * The merged list is sorted, has one violation per (column, check) key found, and each is the
   * earliest with that key in the order schema, rules, cross-column, nodes.
   */
  lemma MergeKeepsFirsts(vs: seq<Violation>)
    ensures IsMerge(vs, Merge(vs))
  {
    KeyOrder();
    S.SortIsStable(KeyLe, vs);
    var sorted := S.Sort(KeyLe, vs);
    DedupRunsAscend(sorted);
    forall v ensures v in Merge(vs) <==> v in vs && v == First(vs, v) {
      DedupRunsMember(sorted, v);
      FirstHeadsClass(sorted, v);
      FirstHeadsClass(vs, v);
      assert S.Class(KeyLe, v, sorted) == S.Class(KeyLe, v, vs);
    }
  }

  // ---- The order of the groups ----

  lemma {:induction false} GroupViolationsStay(be: F.Backend, frame: F.Frame, nodes: seq<DagNode>, column: string)
    requires forall n :: n in nodes ==> n.column == column
    ensures forall v :: v in RunGroup(be, frame, nodes) ==> v.column == column
  {
    if nodes == [] {
    } else {
      NodeReportsItsColumn(be, frame, nodes[0]);
      GroupViolationsStay(be, frame, nodes[1..], column);
    }
  }

  lemma {:induction false} NoClass(vs: seq<Violation>, v: Violation)
    requires forall w :: w in vs ==> w.column != v.column
    ensures S.Class(KeyLe, v, vs) == []
  {
    if vs == [] {
    } else {
      KeysDecide(v, vs[0]);
      NoClass(vs[1..], v);
    }
  }

  /** A key's violations all come from the group of its own column. */
  lemma {:induction false} ClassComesFromOneGroup(be: F.Backend, frame: F.Frame, plan: seq<DagNode>, order: seq<string>, v: Violation)
    requires forall i, j :: 0 <= i < j < |order| ==> order[i] != order[j]
    ensures S.Class(KeyLe, v, RunGroups(be, frame, plan, order)) ==
      if v.column in order then S.Class(KeyLe, v, RunGroup(be, frame, Group(v.column, plan))) else []
  {
    if order == [] {
    } else {
      var init, last := order[..|order| - 1], order[|order| - 1];
      var before, group := RunGroups(be, frame, plan, init), RunGroup(be, frame, Group(last, plan));
      ClassComesFromOneGroup(be, frame, plan, init, v);
      LastIsNew(order);
      if v.column == last {
        ClassOfLast(before, group, v);
      } else {
        OtherGroupHasNoClass(be, frame, plan, last, v);
        ClassOfEarlier(before, group, v);
      }
    }
  }

  lemma LastIsNew(order: seq<string>)
    requires order != [] && forall i, j :: 0 <= i < j < |order| ==> order[i] != order[j]
    ensures var init, last := order[..|order| - 1], order[|order| - 1];
            last !in init && forall c :: c in order <==> c in init || c == last
  {
    assert order == order[..|order| - 1] + [order[|order| - 1]];
  }

  lemma ClassOfEarlier(before: seq<Violation>, group: seq<Violation>, v: Violation)
    requires S.Class(KeyLe, v, group) == []
    ensures S.Class(KeyLe, v, before + group) == S.Class(KeyLe, v, before)
  {
    S.ClassAppend(KeyLe, v, before, group);
  }

  lemma ClassOfLast(before: seq<Violation>, group: seq<Violation>, v: Violation)
    requires S.Class(KeyLe, v, before) == []
    ensures S.Class(KeyLe, v, before + group) == S.Class(KeyLe, v, group)
  {
    S.ClassAppend(KeyLe, v, before, group);
  }

  lemma OtherGroupHasNoClass(be: F.Backend, frame: F.Frame, plan: seq<DagNode>, column: string, v: Violation)
    requires v.column != column
    ensures S.Class(KeyLe, v, RunGroup(be, frame, Group(column, plan))) == []
  {
    forall n ensures n in Group(column, plan) ==> n.column == column {
      GroupMember(column, plan, n);
    }
    GroupViolationsStay(be, frame, Group(column, plan), column);
    NoClass(RunGroup(be, frame, Group(column, plan)), v);
  }

  /** The violation list is the same for every order in which the hash map hands out the column groups. */
  lemma GroupOrderIsIrrelevant(be: F.Backend, frame: F.Frame, contract: Contract, cross: seq<Violation>,
                               plan: seq<DagNode>, order: seq<string>, other: seq<string>)
    requires IsOrder(order, plan) && IsOrder(other, plan)
    ensures Merge(PreMerge(be, frame, contract, cross, plan, order)) ==
            Merge(PreMerge(be, frame, contract, cross, plan, other))
  {
    var direct := DirectViolations(be, frame, contract, cross);
    var a, b := RunGroups(be, frame, plan, order), RunGroups(be, frame, plan, other);
    forall v ensures S.Class(KeyLe, v, direct + a) == S.Class(KeyLe, v, direct + b) {
      S.ClassAppend(KeyLe, v, direct, a);
      S.ClassAppend(KeyLe, v, direct, b);
      ClassComesFromOneGroup(be, frame, plan, order, v);
      ClassComesFromOneGroup(be, frame, plan, other, v);
      assert v.column in order <==> v.column in other;
    }
    KeyOrder();
    S.SortDependsOnClasses(KeyLe, direct + a, direct + b);
  }

  lemma {:induction false} GroupOfAll(column: string, nodes: seq<DagNode>)
    requires forall n :: n in nodes ==> n.column == column
    ensures Group(column, nodes) == nodes
  {
    if nodes == [] {
    } else {
      GroupOfAll(column, nodes[..|nodes| - 1]);
    }
  }

  /** A plan on one column is one group. */
  lemma OneColumnOrder(column: string, plan: seq<DagNode>)
    requires plan != [] && forall n :: n in plan ==> n.column == column
    ensures IsOrder([column], plan) && Group(column, plan) == plan
  {
    assert plan[0] in plan;
    assert Columns(plan) == {column};
    GroupOfAll(column, plan);
  }

  // ---- Optimising and aborting ----

  lemma {:induction false} AllMember(be: F.Backend, frame: F.Frame, nodes: seq<DagNode>, v: Violation)
    ensures v in RunAll(be, frame, nodes) <==> exists n :: n in nodes && v in ExecuteNode(be, frame, n)
  {
    if nodes == [] {
    } else {
      AllMember(be, frame, nodes[1..], v);
      assert forall n :: n in nodes <==> n == nodes[0] || n in nodes[1..];
    }
  }

  ghost predicate Blocks(be: F.Backend, frame: F.Frame, n: DagNode) {
    HasBlocking(ExecuteNode(be, frame, n))
  }

  lemma BlockingEither(a: seq<Violation>, b: seq<Violation>)
    ensures HasBlocking(a + b) <==> HasBlocking(a) || HasBlocking(b)
  {
    var c := a + b;
    assert forall i :: 0 <= i < |a| ==> c[i] == a[i];
    assert forall i :: 0 <= i < |b| ==> c[|a| + i] == b[i];
    if HasBlocking(c) {
      var i :| 0 <= i < |c| && c[i].severity == Blocking;
      assert i >= |a| ==> c[i] == b[i - |a|];
    }
    if HasBlocking(b) {
      var i :| 0 <= i < |b| && b[i].severity == Blocking;
      assert c[|a| + i].severity == Blocking;
    }
  }

  ghost predicate SomeBlocks(be: F.Backend, frame: F.Frame, nodes: seq<DagNode>) {
    exists n :: n in nodes && Blocks(be, frame, n)
  }

  lemma HeadOrTailBlocks(be: F.Backend, frame: F.Frame, nodes: seq<DagNode>)
    requires nodes != []
    ensures SomeBlocks(be, frame, nodes) <==>
      HasBlocking(ExecuteNode(be, frame, nodes[0])) || SomeBlocks(be, frame, nodes[1..])
  {
    assert forall n :: n in nodes <==> n == nodes[0] || n in nodes[1..];
    assert Blocks(be, frame, nodes[0]) <==> HasBlocking(ExecuteNode(be, frame, nodes[0]));
  }

  /** A group's early exit never hides that the group blocks. */
  lemma {:induction false} AbortKeepsBlocking(be: F.Backend, frame: F.Frame, nodes: seq<DagNode>)
    ensures HasBlocking(RunGroup(be, frame, nodes)) <==> SomeBlocks(be, frame, nodes)
  {
    if nodes == [] {
    } else {
      AbortKeepsBlocking(be, frame, nodes[1..]);
      BlockingEither(ExecuteNode(be, frame, nodes[0]), RunGroup(be, frame, nodes[1..]));
      HeadOrTailBlocks(be, frame, nodes);
    }
  }

  lemma {:induction false} AllBlocking(be: F.Backend, frame: F.Frame, nodes: seq<DagNode>)
    ensures HasBlocking(RunAll(be, frame, nodes)) <==> SomeBlocks(be, frame, nodes)
  {
    if nodes == [] {
    } else {
      AllBlocking(be, frame, nodes[1..]);
      BlockingEither(ExecuteNode(be, frame, nodes[0]), RunAll(be, frame, nodes[1..]));
      HeadOrTailBlocks(be, frame, nodes);
    }
  }

  lemma {:induction false} GroupsBlocking(be: F.Backend, frame: F.Frame, plan: seq<DagNode>, order: seq<string>)
    ensures HasBlocking(RunGroups(be, frame, plan, order)) <==>
      exists n :: n in plan && n.column in order && Blocks(be, frame, n)
  {
    if order == [] {
    } else {
      var init, last := order[..|order| - 1], order[|order| - 1];
      GroupsBlocking(be, frame, plan, init);
      AbortKeepsBlocking(be, frame, Group(last, plan));
      BlockingEither(RunGroups(be, frame, plan, init), RunGroup(be, frame, Group(last, plan)));
      forall n ensures n in Group(last, plan) <==> n in plan && n.column == last {
        GroupMember(last, plan, n);
      }
      assert forall c :: c in order <==> c in init || c == last;
    }
  }

  lemma {:induction false} RulesMember(be: F.Backend, frame: F.Frame, rules: seq<QualityRule>, rule: QualityRule)
    requires rule in rules
    ensures forall v :: v in EvaluateRule(be, frame, rule) ==> v in EvaluateRules(be, frame, rules)
  {
    if rule == rules[0] {
    } else {
      RulesMember(be, frame, rules[1..], rule);
    }
  }

  lemma {:induction false} MapMember<A(!new), B>(f: A -> B, s: seq<A>, b: B)
    ensures b in Map(f, s) <==> exists a :: a in s && f(a) == b
  {
    if s == [] {
    } else {
      var init, last := s[..|s| - 1], s[|s| - 1];
      MapMember(f, init, b);
      assert forall a :: a in s <==> a in init || a == last;
    }
  }

  lemma {:induction false} ConstraintNodeMember(column: string, cs: seq<Constraint>, n: DagNode)
    ensures n in ConstraintNodes(column, cs) <==> exists c :: c in cs && NodeFor(column, c) == Some(n)
  {
    if cs == [] {
    } else {
      var init, last := cs[..|cs| - 1], cs[|cs| - 1];
      ConstraintNodeMember(column, init, n);
      assert forall c :: c in cs <==> c in init || c == last;
    }
  }

  lemma {:induction false} SchemaNodeMember(fields: seq<FieldDef>, n: DagNode)
    ensures n in SchemaNodes(fields) <==> exists field :: field in fields && n in FieldNodes(field)
  {
    if fields == [] {
    } else {
      var init, last := fields[..|fields| - 1], fields[|fields| - 1];
      SchemaNodeMember(init, n);
      assert forall field :: field in fields <==> field in init || field == last;
    }
  }

  /** A quality metric node comes from a quality rule, which the rule engine evaluates as well. */
  lemma {:induction false} SchemaHasNoMetrics(fields: seq<FieldDef>, n: DagNode)
    requires n in SchemaNodes(fields)
    ensures !n.QualityMetricCheck?
  {
    var init, last := fields[..|fields| - 1], fields[|fields| - 1];
    if n in SchemaNodes(init) {
      SchemaHasNoMetrics(init, n);
    } else {
      FieldHasNoMetrics(last, n);
    }
  }

  lemma FieldHasNoMetrics(field: FieldDef, n: DagNode)
    requires n in FieldNodes(field)
    ensures !n.QualityMetricCheck?
  {
    ConstraintNodeMember(field.name, field.constraints, n);
  }

  lemma MetricNodesAreRules(contract: Contract, n: DagNode)
    requires n in RawNodes(contract) && n.QualityMetricCheck?
    ensures QualityRule(n.metric, n.column, n.op, n.threshold, n.severity) in contract.qualityRules
  {
    if n in SchemaNodes(contract.schema) {
      SchemaHasNoMetrics(contract.schema, n);
    }
    MapMember(RuleNode, contract.qualityRules, n);
    MapMember(StatsNode, contract.statsRules, n);
    MapMember(AnomalyNode, contract.anomalyRules, n);
  }

  /** Whatever a dropped completeness node reports is also reported by the rule engine. */
  lemma DroppedNodesAreCovered(be: F.Backend, frame: F.Frame, contract: Contract, cross: seq<Violation>, n: DagNode, v: Violation)
    requires n in RawNodes(contract) && Redundant(NullChecked(RawNodes(contract)), n)
    requires v in ExecuteNode(be, frame, n)
    ensures v in DirectViolations(be, frame, contract, cross)
  {
    MetricNodesAreRules(contract, n);
    RulesMember(be, frame, contract.qualityRules, QualityRule(n.metric, n.column, n.op, n.threshold, n.severity));
  }

  /**
   * Before the merge, running the optimised plan with the per-column abort finds a Blocking violation
   * exactly when running every raw node does.
   */
  lemma OptimisedPlanBlocksAlike(be: F.Backend, frame: F.Frame, contract: Contract, cross: seq<Violation>, order: seq<string>)
    requires IsOrder(order, Optimized(RawNodes(contract)))
    ensures HasBlocking(PreMerge(be, frame, contract, cross, Optimized(RawNodes(contract)), order)) <==>
            HasBlocking(DirectViolations(be, frame, contract, cross) + RunAll(be, frame, RawNodes(contract)))
  {
    var raw := RawNodes(contract);
    var plan, direct := Optimized(raw), DirectViolations(be, frame, contract, cross);
    BlockingEither(direct, RunGroups(be, frame, plan, order));
    BlockingEither(direct, RunAll(be, frame, raw));
    GroupsBlocking(be, frame, plan, order);
    AllBlocking(be, frame, raw);
    forall n
      ensures n in plan ==> n in raw && n.column in order
      ensures n in raw && Blocks(be, frame, n) ==> n in plan || HasBlocking(direct)
    {
      BlockersSurvive(be, frame, contract, cross, n);
    }
  }

  lemma BlockersSurvive(be: F.Backend, frame: F.Frame, contract: Contract, cross: seq<Violation>, n: DagNode)
    ensures var raw := RawNodes(contract);
            (n in Optimized(raw) ==> n in raw && n.column in Columns(Optimized(raw)))
            && (n in raw && Blocks(be, frame, n) ==> n in Optimized(raw) || HasBlocking(DirectViolations(be, frame, contract, cross)))
  {
    var raw := RawNodes(contract);
    OptimizedKeeps(raw);
    if n in raw && Blocks(be, frame, n) && Redundant(NullChecked(raw), n) {
      var vs := ExecuteNode(be, frame, n);
      var i :| 0 <= i < |vs| && vs[i].severity == Blocking;
      DroppedNodesAreCovered(be, frame, contract, cross, n, vs[i]);
    }
  }

  /** With the abort off, the optimised plan and the raw nodes find the same violations. */
  lemma OptimisedPlanFindsAlike(be: F.Backend, frame: F.Frame, contract: Contract, cross: seq<Violation>, v: Violation)
    ensures v in DirectViolations(be, frame, contract, cross) + RunAll(be, frame, Optimized(RawNodes(contract))) <==>
            v in DirectViolations(be, frame, contract, cross) + RunAll(be, frame, RawNodes(contract))
  {
    var raw := RawNodes(contract);
    OptimizedKeeps(raw);
    AllMember(be, frame, raw, v);
    AllMember(be, frame, Optimized(raw), v);
    if n :| n in raw && v in ExecuteNode(be, frame, n) && Redundant(NullChecked(raw), n) {
      DroppedNodesAreCovered(be, frame, contract, cross, n, v);
    }
  }

  // ---- The verdict ----

  /** A report fails exactly when some Blocking violation is the earliest of its key. */
  lemma VerdictExactly(vs: seq<Violation>)
    ensures HasBlocking(Merge(vs)) <==> exists v :: v in vs && v.severity == Blocking && First(vs, v) == v
  {
    MergeKeepsFirsts(vs);
    if HasBlocking(Merge(vs)) {
      var i :| 0 <= i < |Merge(vs)| && Merge(vs)[i].severity == Blocking;
      assert Merge(vs)[i] in Merge(vs);
    }
    if v :| v in vs && v.severity == Blocking && First(vs, v) == v {
      assert v in Merge(vs);
    }
  }

  /** When equal keys have equal severities, the merge hides no Blocking violation. */
  lemma VerdictWhenSeveritiesAgree(vs: seq<Violation>)
    requires forall a, b :: a in vs && b in vs && SameKey(a, b) ==> a.severity == b.severity
    ensures HasBlocking(Merge(vs)) <==> HasBlocking(vs)
  {
    VerdictExactly(vs);
    if HasBlocking(vs) {
      var i :| 0 <= i < |vs| && vs[i].severity == Blocking;
      FirstIsThere(vs, vs[i]);
      var first := First(vs, vs[i]);
      FirstOfFirst(vs, vs[i]);
      assert first in vs && first.severity == Blocking && First(vs, first) == first;
    }
  }

  lemma {:induction false} FirstOfFirst(vs: seq<Violation>, v: Violation)
    requires v in vs
    ensures First(vs, First(vs, v)) == First(vs, v)
  {
    if SameKey(vs[0], v) {
    } else {
      FirstIsThere(vs[1..], v);
      FirstOfFirst(vs[1..], v);
    }
  }

  /** The report is ordered by column and then by check, and names no check of a column twice. */
  lemma MergedInOrder(vs: seq<Violation>, i: nat, j: nat)
    requires i < j < |Merge(vs)|
    ensures var v, w := Merge(vs)[i], Merge(vs)[j];
            StringLe(v.column, w.column) && (v.column == w.column ==> StringLe(v.check, w.check) && v.check != w.check)
  {
    MergeKeepsFirsts(vs);
    var v, w := Merge(vs)[i], Merge(vs)[j];
    assert KeyLe(v, w) && !SameKey(v, w);
    StringLeTotal(v.column, w.column);
  }

  lemma {:induction false} FirstIsAt(vs: seq<Violation>, w: Violation)
    ensures w in vs && First(vs, w) == w <==>
            exists i :: 0 <= i < |vs| && vs[i] == w && forall j :: 0 <= j < i ==> vs[j].column != w.column || vs[j].check != w.check
  {
    if vs == [] {
    } else {
      var rest := vs[1..];
      FirstIsAt(rest, w);
      if i :| 0 <= i < |vs| && vs[i] == w && forall j :: 0 <= j < i ==> vs[j].column != w.column || vs[j].check != w.check {
        assert i > 0 ==> rest[i - 1] == w && forall j :: 0 <= j < i - 1 ==> rest[j] == vs[j + 1];
      }
      if i :| 0 <= i < |rest| && rest[i] == w && forall j :: 0 <= j < i ==> rest[j].column != w.column || rest[j].check != w.check {
        assert vs[i + 1] == w && forall j :: 0 < j < i + 1 ==> vs[j] == rest[j - 1];
      }
    }
  }

  /** The report holds exactly the violations that no earlier one of the same column and check precedes. */
  lemma MergeHolds(vs: seq<Violation>, w: Violation)
    ensures w in Merge(vs) <==>
            exists i :: 0 <= i < |vs| && vs[i] == w && forall j :: 0 <= j < i ==> vs[j].column != w.column || vs[j].check != w.check
  {
    MergeKeepsFirsts(vs);
    FirstIsAt(vs, w);
  }
}
