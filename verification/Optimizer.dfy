/** The plan optimiser (crates/statguardian-core/src/compiler/optimizer.rs). */
module Optimizer {
  import opened Ast
  import opened Dag
  import S = StableSort

  // ---- Passes ----

  /** The first occurrence of every node. */
  function Dedup(nodes: seq<DagNode>): seq<DagNode> {
    if nodes == [] then [] else
      var init, last := nodes[..|nodes| - 1], nodes[|nodes| - 1];
      if last in init then Dedup(init) else Dedup(init) + [last]
  }

  function NullChecked(nodes: seq<DagNode>): set<string> {
    set n | n in nodes && n.NullCheck? :: n.column
  }

  predicate Redundant(checked: set<string>, n: DagNode) {
    n.QualityMetricCheck? && n.metric.Completeness? && n.column in checked
  }

  function Without(checked: set<string>, nodes: seq<DagNode>): seq<DagNode> {
    if nodes == [] then []
    else (if Redundant(checked, nodes[0]) then [] else [nodes[0]]) + Without(checked, nodes[1..])
  }

  /** Drops completeness metrics on columns that have a null check. */
  function FuseNullChecks(nodes: seq<DagNode>): seq<DagNode> {
    Without(NullChecked(nodes), nodes)
  }

  function SeverityOrder(s: Severity): nat {
    match s
    case Blocking => 0
    case Error => 1
    case Warning => 2
    case Info => 3
  }

  /** Plan order: column, then severity (Blocking first), then cost. */
  predicate NodeLe(a: DagNode, b: DagNode) {
    if a.column != b.column then StringLe(a.column, b.column)
    else if SeverityOrder(a.Severity()) != SeverityOrder(b.Severity())
    then SeverityOrder(a.Severity()) < SeverityOrder(b.Severity())
    else a.Cost() <= b.Cost()
  }

  function Optimized(nodes: seq<DagNode>): seq<DagNode> {
    S.Sort(NodeLe, FuseNullChecks(Dedup(nodes)))
  }

  /** Deduplication with a set of the nodes seen so far. */
  method Deduplicate(nodes: seq<DagNode>) returns (kept: seq<DagNode>)
    ensures kept == Dedup(nodes)
  {
    var seen: set<DagNode> := {};
    kept := [];
    for i := 0 to |nodes|
      invariant seen == set n | n in nodes[..i]
      invariant kept == Dedup(nodes[..i])
    {
      assert nodes[..i + 1][..i] == nodes[..i];
      if nodes[i] !in seen {
        seen := seen + {nodes[i]};
        kept := kept + [nodes[i]];
      }
    }
    assert nodes[..|nodes|] == nodes;
  }

  method Optimize(nodes: seq<DagNode>) returns (plan: seq<DagNode>)
    ensures plan == Optimized(nodes)
  {
    var kept := Deduplicate(nodes);
    plan := S.Sort(NodeLe, FuseNullChecks(kept));
  }

  // ---- Groups ----

  /** The nodes of one column, in plan order. */
  function Group(column: string, nodes: seq<DagNode>): seq<DagNode> {
    if nodes == [] then [] else
      var init, last := nodes[..|nodes| - 1], nodes[|nodes| - 1];
      if last.column == column then Group(column, init) + [last] else Group(column, init)
  }

  function Columns(nodes: seq<DagNode>): set<string> { set n | n in nodes :: n.column }

  lemma OneMoreNode(nodes: seq<DagNode>, i: nat)
    requires i < |nodes|
    ensures Columns(nodes[..i + 1]) == Columns(nodes[..i]) + {nodes[i].column}
    ensures Group(nodes[i].column, nodes[..i + 1]) == Group(nodes[i].column, nodes[..i]) + [nodes[i]]
    ensures forall c :: c != nodes[i].column ==> Group(c, nodes[..i + 1]) == Group(c, nodes[..i])
  {
    assert nodes[..i + 1][..i] == nodes[..i];
    assert nodes[..i + 1] == nodes[..i] + [nodes[i]];
  }

  method GroupByColumn(nodes: seq<DagNode>) returns (groups: map<string, seq<DagNode>>)
    ensures groups.Keys == Columns(nodes)
    ensures forall c :: c in groups ==> groups[c] == Group(c, nodes)
  {
    groups := map[];
    for i := 0 to |nodes|
      invariant groups.Keys == Columns(nodes[..i])
      invariant forall c :: c in groups ==> groups[c] == Group(c, nodes[..i])
      invariant forall c :: c !in groups ==> Group(c, nodes[..i]) == []
    {
      var node := nodes[i];
      OneMoreNode(nodes, i);
      groups := groups[node.column := (if node.column in groups then groups[node.column] else []) + [node]];
    }
    assert nodes[..|nodes|] == nodes;
  }

  lemma {:induction false} GroupMember(column: string, nodes: seq<DagNode>, n: DagNode)
    ensures n in Group(column, nodes) <==> n in nodes && n.column == column
  {
    if nodes == [] {
    } else {
      GroupMember(column, nodes[..|nodes| - 1], n);
    }
  }

  // ---- What optimising keeps ----

  /** No node occurs twice. */
  ghost predicate Distinct(nodes: seq<DagNode>) {
    forall n :: multiset(nodes)[n] <= 1
  }

  lemma {:induction false} DedupKeeps(nodes: seq<DagNode>)
    ensures forall n :: n in Dedup(nodes) <==> n in nodes
    ensures Distinct(Dedup(nodes))
  {
    if nodes == [] {
    } else {
      DedupKeeps(nodes[..|nodes| - 1]);
    }
  }

  lemma {:induction false} DedupOfDistinct(nodes: seq<DagNode>)
    requires Distinct(nodes)
    ensures Dedup(nodes) == nodes
  {
    if nodes == [] {
    } else {
      var init, last := nodes[..|nodes| - 1], nodes[|nodes| - 1];
      assert nodes == init + [last];
      assert multiset(nodes)[last] == multiset(init)[last] + 1;
      assert forall n :: multiset(init)[n] <= multiset(nodes)[n];
      DedupOfDistinct(init);
    }
  }

  lemma {:induction false} WithoutMember(checked: set<string>, nodes: seq<DagNode>, n: DagNode)
    ensures n in Without(checked, nodes) <==> n in nodes && !Redundant(checked, n)
  {
    if nodes == [] {
    } else {
      WithoutMember(checked, nodes[1..], n);
    }
  }

  lemma {:induction false} WithoutIsPart(checked: set<string>, nodes: seq<DagNode>)
    ensures multiset(Without(checked, nodes)) <= multiset(nodes)
  {
    if nodes == [] {
    } else {
      WithoutIsPart(checked, nodes[1..]);
      assert nodes == [nodes[0]] + nodes[1..];
    }
  }

  lemma {:induction false} NothingRedundant(checked: set<string>, nodes: seq<DagNode>)
    requires forall n :: n in nodes ==> !Redundant(checked, n)
    ensures Without(checked, nodes) == nodes
  {
    if nodes == [] {
    } else {
      NothingRedundant(checked, nodes[1..]);
    }
  }

  /** The plan holds exactly the raw nodes, apart from the redundant completeness metrics, each once. */
  lemma OptimizedKeeps(nodes: seq<DagNode>)
    ensures forall n :: n in Optimized(nodes) <==> n in nodes && !Redundant(NullChecked(nodes), n)
    ensures Distinct(Optimized(nodes)) && NullChecked(Optimized(nodes)) == NullChecked(nodes)
  {
    FusedKeeps(nodes);
    OptimizedIsFused(nodes);
    assert NullChecked(Optimized(nodes)) == NullChecked(nodes);
  }

  lemma FusedKeeps(nodes: seq<DagNode>)
    ensures forall n :: n in FuseNullChecks(Dedup(nodes)) <==> n in nodes && !Redundant(NullChecked(nodes), n)
    ensures Distinct(FuseNullChecks(Dedup(nodes)))
  {
    var d := Dedup(nodes);
    DedupKeeps(nodes);
    assert NullChecked(d) == NullChecked(nodes);
    WithoutIsPart(NullChecked(d), d);
    forall n ensures n in FuseNullChecks(d) <==> n in d && !Redundant(NullChecked(d), n) {
      WithoutMember(NullChecked(d), d, n);
    }
  }

  lemma OptimizedIsFused(nodes: seq<DagNode>)
    ensures multiset(Optimized(nodes)) == multiset(FuseNullChecks(Dedup(nodes)))
    ensures forall n :: n in Optimized(nodes) <==> n in FuseNullChecks(Dedup(nodes))
  {
  }

  lemma NodeOrder()
    ensures S.TotalPreorder(NodeLe)
  {
    forall a, b ensures NodeLe(a, b) || NodeLe(b, a) {
      StringLeTotal(a.column, b.column);
    }
    forall a, b, c | NodeLe(a, b) && NodeLe(b, c) ensures NodeLe(a, c) {
      NodeLeTransitive(a, b, c);
    }
  }

  lemma NodeLeTransitive(a: DagNode, b: DagNode, c: DagNode)
    requires NodeLe(a, b) && NodeLe(b, c)
    ensures NodeLe(a, c)
  {
    if a.column != b.column && b.column != c.column {
      StringLeTransitive(a.column, b.column, c.column);
      StringLeTotal(a.column, b.column);
    }
  }

  lemma PlanFollowsNodeLe(nodes: seq<DagNode>)
    ensures S.Sorted(NodeLe, Optimized(nodes))
  {
    NodeOrder();
    S.SortIsStable(NodeLe, FuseNullChecks(Dedup(nodes)));
  }

  /** Within a column the plan lists nodes by severity, Blocking first, and by cost within a severity. */
  lemma PlanIsOrdered(nodes: seq<DagNode>, i: nat, j: nat)
    requires i < j < |Optimized(nodes)| && Optimized(nodes)[i].column == Optimized(nodes)[j].column
    ensures var a, b := Optimized(nodes)[i], Optimized(nodes)[j];
      SeverityOrder(a.Severity()) < SeverityOrder(b.Severity()) ||
      (a.Severity() == b.Severity() && a.Cost() <= b.Cost())
  {
    PlanFollowsNodeLe(nodes);
    assert NodeLe(Optimized(nodes)[i], Optimized(nodes)[j]);
  }

  /** Optimising an optimised plan changes nothing. */
  lemma OptimizeIsIdempotent(nodes: seq<DagNode>)
    ensures Optimized(Optimized(nodes)) == Optimized(nodes)
  {
    var plan := Optimized(nodes);
    OptimizedKeeps(nodes);
    DedupOfDistinct(plan);
    NothingRedundant(NullChecked(plan), plan);
    NodeOrder();
    PlanFollowsNodeLe(nodes);
    S.SortOfSorted(NodeLe, plan);
  }

  /** How late a kind of node runs within its column and severity: the cheap checks first, duplicates and outliers last. */
  function Turn(n: DagNode): nat {
    if n.TypeCheck? || n.NullCheck? then 0
    else if n.PositiveCheck? || n.NegativeCheck? || n.RangeCheck? || n.LenCheck? then 1
    else if n.EnumCheck? || n.NullAnomalyDetection? then 2
    else if n.RegexCheck? then 3
    else if n.UniquenessCheck? || n.QualityMetricCheck? then 4
    else if n.Profile? || n.CardinalityCheck? then 5
    else if n.DriftCheck? then 6
    else 7
  }

  lemma CostsTakeTurns(a: DagNode, b: DagNode)
    ensures a.Cost() < b.Cost() <==> Turn(a) < Turn(b)
  {
  }

  /** The plan lists nodes by column, within a column by severity, and within a severity kind by kind. */
  lemma PlanTakesTurns(nodes: seq<DagNode>, i: nat, j: nat)
    requires i < j < |Optimized(nodes)|
    ensures var a, b := Optimized(nodes)[i], Optimized(nodes)[j];
            && StringLe(a.column, b.column)
            && (a.column == b.column && b.Severity() == Blocking ==> a.Severity() == Blocking)
            && (a.column == b.column && b.Severity() == Error ==> a.Severity() == Blocking || a.Severity() == Error)
            && (a.column == b.column && b.Severity() == Warning ==> a.Severity() != Info)
            && (a.column == b.column && a.Severity() == b.Severity() ==> Turn(a) <= Turn(b))
  {
    PlanFollowsNodeLe(nodes);
    var a, b := Optimized(nodes)[i], Optimized(nodes)[j];
    assert NodeLe(a, b);
    CostsTakeTurns(b, a);
    StringLeTotal(a.column, b.column);
  }

  /** The plan leaves out the completeness metrics of columns that have a null check, and nothing else. */
  lemma PlanHolds(nodes: seq<DagNode>, n: DagNode)
    ensures n in Optimized(nodes) <==>
            n in nodes && !(n.QualityMetricCheck? && n.metric == Completeness
                            && exists m :: m in nodes && m.NullCheck? && m.column == n.column)
    ensures multiset(Optimized(nodes))[n] <= 1
  {
    OptimizedKeeps(nodes);
  }
}
