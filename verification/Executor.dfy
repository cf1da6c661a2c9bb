/** Batch execution: `BatchExecutor::execute` (crates/statguardian-engine/src/batch.rs). */
module Executor {
  import opened Sequences
  import opened Ast
  import opened Dag
  import opened Optimizer
  import opened Compiler
  import F = Frames
  import S = StableSort
  import Schema

  predicate HasBlocking(vs: seq<Violation>) {
    exists i :: 0 <= i < |vs| && vs[i].severity == Blocking
  }

  // ---- Running the nodes ----

  /** One column's nodes in plan order; the first Blocking violation skips the rest of the column. */
  function RunGroup(be: F.Backend, frame: F.Frame, nodes: seq<DagNode>): seq<Violation> {
    if nodes == [] then [] else
      var vs := ExecuteNode(be, frame, nodes[0]);
      if HasBlocking(vs) then vs else vs + RunGroup(be, frame, nodes[1..])
  }

  /** Every node, with the abort off. */
  function RunAll(be: F.Backend, frame: F.Frame, nodes: seq<DagNode>): seq<Violation> {
    if nodes == [] then [] else ExecuteNode(be, frame, nodes[0]) + RunAll(be, frame, nodes[1..])
  }

  /** The column groups in the order the hash map hands them out. */
  function RunGroups(be: F.Backend, frame: F.Frame, plan: seq<DagNode>, order: seq<string>): seq<Violation> {
    if order == [] then [] else
      RunGroups(be, frame, plan, order[..|order| - 1]) + RunGroup(be, frame, Group(order[|order| - 1], plan))
  }

  /** `order` lists every column of the plan once. */
  ghost predicate IsOrder(order: seq<string>, plan: seq<DagNode>) {
    && (forall i, j :: 0 <= i < j < |order| ==> order[i] != order[j])
    && (forall c :: c in order <==> c in Columns(plan))
  }

  /** Findings that do not come from the plan: schema, quality rules, and the given cross-column findings. */
  function DirectViolations(be: F.Backend, frame: F.Frame, contract: Contract, cross: seq<Violation>): seq<Violation> {
    Schema.SchemaViolations(be, frame, contract.schema) + EvaluateRules(be, frame, contract.qualityRules) + cross
  }

  // ---- Merging ----

  predicate KeyLe(a: Violation, b: Violation) {
    if a.column != b.column then StringLe(a.column, b.column) else StringLe(a.check, b.check)
  }

  predicate SameKey(a: Violation, b: Violation) { a.column == b.column && a.check == b.check }

  /** `dedup_by`: of a run of equal keys only the first violation stays. */
  function DedupRuns(vs: seq<Violation>): seq<Violation> {
    if vs == [] then [] else
      var init, last := vs[..|vs| - 1], vs[|vs| - 1];
      if init != [] && SameKey(init[|init| - 1], last) then DedupRuns(init) else DedupRuns(init) + [last]
  }

  function Merge(vs: seq<Violation>): seq<Violation> {
    DedupRuns(S.Sort(KeyLe, vs))
  }

  /** The earliest violation with the key of `v`. */
  function First(vs: seq<Violation>, v: Violation): Violation {
    if vs == [] then v else if SameKey(vs[0], v) then vs[0] else First(vs[1..], v)
  }

  ghost predicate Ascending(vs: seq<Violation>) {
    forall i, j :: 0 <= i < j < |vs| ==> KeyLe(vs[i], vs[j]) && !SameKey(vs[i], vs[j])
  }

  /** Sorted by key, one violation per key found, and that one the earliest. */
  ghost predicate IsMerge(vs: seq<Violation>, merged: seq<Violation>) {
    && Ascending(merged)
    && (forall v :: v in merged <==> v in vs && v == First(vs, v))
  }

  // ---- Execution ----

  function PreMerge(be: F.Backend, frame: F.Frame, contract: Contract, cross: seq<Violation>, plan: seq<DagNode>,
                    order: seq<string>): seq<Violation>
  {
    DirectViolations(be, frame, contract, cross) + RunGroups(be, frame, plan, order)
  }

  method RunColumn(be: F.Backend, frame: F.Frame, nodes: seq<DagNode>) returns (violations: seq<Violation>)
    ensures violations == RunGroup(be, frame, nodes)
  {
    violations := [];
    var abort := false;
    for i := 0 to |nodes|
      invariant abort ==> violations == RunGroup(be, frame, nodes)
      invariant !abort ==> violations + RunGroup(be, frame, nodes[i..]) == RunGroup(be, frame, nodes)
    {
      if abort {
        break;
      }
      var vs := ExecuteNode(be, frame, nodes[i]);
      assert nodes[i..][1..] == nodes[i + 1..];
      if HasBlocking(vs) {
        abort := true;
      } else {
        Regroup(violations, vs, RunGroup(be, frame, nodes[i + 1..]));
      }
      violations := violations + vs;
    }
  }

  method RunColumns(be: F.Backend, frame: F.Frame, plan: seq<DagNode>, order: seq<string>) returns (violations: seq<Violation>)
    requires IsOrder(order, plan)
    ensures violations == RunGroups(be, frame, plan, order)
  {
    violations := [];
    var groups := GroupByColumn(plan);
    for i := 0 to |order|
      invariant violations == RunGroups(be, frame, plan, order[..i])
    {
      assert order[i] in order;
      assert order[..i + 1][..i] == order[..i];
      assert groups[order[i]] == Group(order[i], plan);
      var found := RunColumn(be, frame, groups[order[i]]);
      violations := violations + found;
    }
    assert order[..|order|] == order;
  }

  /** Executes a plan; `order` stands for the hash order of the column groups. */
  method Execute(be: F.Backend, frame: F.Frame, contract: Contract, cross: seq<Violation>, plan: seq<DagNode>,
                 order: seq<string>)
    returns (violations: seq<Violation>, passed: bool)
    requires IsOrder(order, plan)
    ensures violations == Merge(PreMerge(be, frame, contract, cross, plan, order))
    ensures passed == !HasBlocking(violations)
  {
    var schema := Schema.Validate(be, frame, contract.schema);
    var all := schema + EvaluateRules(be, frame, contract.qualityRules) + cross;
    var found := RunColumns(be, frame, plan, order);
    violations := Merge(all + found);
    passed := !HasBlocking(violations);
  }
}
