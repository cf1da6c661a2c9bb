/**
 * A contract whose Blocking checks fail and whose report passes: the id column of
 * examples/basic_validation.sg.  Its unique constraint, its quality rule and the compiled nodes report
 * uniqueness under one name, the Error of the constraint comes first and survives the merge, and the
 * Blocking rule has already aborted the rest of the column.
 */
module HiddenVerdict {
  import opened Sequences
  import opened Ast
  import opened Dag
  import opened Optimizer
  import opened Compiler
  import opened Executor
  import opened ExecutorLaws
  import opened Verdicts
  import F = Frames
  import Schema

  function IdField(id: string): FieldDef { FieldDef(id, IntType, [NotNull, Unique, PrimaryKey]) }

  function CompletenessRule(id: string): QualityRule { QualityRule(Completeness, id, Gt, 0.999, Error) }

  function UniquenessRule(id: string): QualityRule { QualityRule(Uniqueness, id, Eq, 1.0, Blocking) }

  function UsersContract(id: string): Contract {
    Contract([IdField(id)], [CompletenessRule(id), UniquenessRule(id)], [], [AnomalyRule(DetectDuplicates, id, map[], Blocking)])
  }

  /** Two rows with the same id. */
  function TwoEqualRows(id: string): F.Frame {
    map[id := F.Series(F.Integral, [Some(F.Num(1.0)), Some(F.Num(1.0))])]
  }

  function MetricNode(id: string): DagNode { RuleNode(UniquenessRule(id)) }

  function DuplicatesNode(id: string): DagNode { DuplicateDetection(id, Blocking) }

  function Plan(id: string): seq<DagNode> { Optimized(RawNodes(UsersContract(id))) }

  function Found(be: F.Backend, id: string): seq<Violation> {
    PreMerge(be, TwoEqualRows(id), UsersContract(id), [], Plan(id), [id])
  }

  lemma OneDistinctValue(id: string)
    ensures |F.Distinct(TwoEqualRows(id)[id].cells)| == 1
  {
    assert F.Distinct(TwoEqualRows(id)[id].cells) == {Some(F.Num(1.0))};
  }

  // ---- The plan ----

  /** The nodes of the contract. */
  predicate IsRaw(id: string, n: DagNode) {
    || n == Profile(id) || n == TypeCheck(id, IntType, false, Blocking)
    || n == NullCheck(id, Error) || n == UniquenessCheck(id, Error)
    || n == RuleNode(CompletenessRule(id)) || n == MetricNode(id) || n == DuplicatesNode(id)
  }

  lemma FieldIsRaw(id: string, n: DagNode)
    requires n in SchemaNodes([IdField(id)])
    ensures IsRaw(id, n)
  {
    assert [IdField(id)][..0] == [];
    assert SchemaNodes([IdField(id)]) == SchemaNodes([]) + FieldNodes(IdField(id));
    ConstraintNodeMember(id, IdField(id).constraints, n);
  }

  lemma RawIsRaw(id: string, n: DagNode)
    requires n in RawNodes(UsersContract(id))
    ensures IsRaw(id, n)
  {
    var contract := UsersContract(id);
    if n in SchemaNodes(contract.schema) {
      FieldIsRaw(id, n);
    } else {
      MapMember(RuleNode, contract.qualityRules, n);
      MapMember(StatsNode, contract.statsRules, n);
      MapMember(AnomalyNode, contract.anomalyRules, n);
    }
  }

  lemma MetricIsRaw(id: string)
    ensures MetricNode(id) in RawNodes(UsersContract(id))
  {
    var rules := UsersContract(id).qualityRules;
    assert rules[1] == UniquenessRule(id);
    MapMember(RuleNode, rules, MetricNode(id));
  }

  lemma PlanMember(id: string, n: DagNode)
    ensures n in Plan(id) ==> IsRaw(id, n)
    ensures n == MetricNode(id) ==> n in Plan(id)
  {
    OptimizedKeeps(RawNodes(UsersContract(id)));
    MetricIsRaw(id);
    if n in Plan(id) {
      RawIsRaw(id, n);
    }
  }

  lemma PlanIsOneGroup(id: string)
    ensures IsOrder([id], Plan(id)) && Group(id, Plan(id)) == Plan(id)
  {
    PlanIsOnColumn(id);
    OneColumnOrder(id, Plan(id));
  }

  lemma PlanIsOnColumn(id: string)
    ensures Plan(id) != [] && forall n :: n in Plan(id) ==> n.column == id
  {
    PlanMember(id, MetricNode(id));
    forall n | n in Plan(id) ensures n.column == id {
      PlanNodeColumn(id, n);
    }
  }

  lemma PlanNodeColumn(id: string, n: DagNode)
    requires n in Plan(id)
    ensures n.column == id
  {
    PlanMember(id, n);
  }

  /** The duplicate check is planned after the Blocking uniqueness rule, which is cheaper. */
  lemma DuplicatesComeLater(id: string, i: nat, j: nat)
    requires i < |Plan(id)| && j < |Plan(id)| && Plan(id)[i] == MetricNode(id) && Plan(id)[j] == DuplicatesNode(id)
    ensures i < j
  {
    if j < i {
      PlanIsOrdered(RawNodes(UsersContract(id)), j, i);
    }
  }

  // ---- What is found ----

  lemma MetricBlocks(be: F.Backend, id: string)
    requires be.countable(F.Integral)
    ensures var vs := EvaluateRule(be, TwoEqualRows(id), UniquenessRule(id)); |vs| == 1 && vs[0].severity == Blocking
    ensures Blocks(be, TwoEqualRows(id), MetricNode(id))
  {
    OneDistinctValue(id);
    assert ExecuteNode(be, TwoEqualRows(id), MetricNode(id)) == EvaluateRule(be, TwoEqualRows(id), UniquenessRule(id));
    assert ExecuteNode(be, TwoEqualRows(id), MetricNode(id))[0].severity == Blocking;
  }

  lemma DuplicatesBlock(be: F.Backend, id: string)
    requires be.countable(F.Integral)
    ensures Blocks(be, TwoEqualRows(id), DuplicatesNode(id))
  {
    OneDistinctValue(id);
    assert ExecuteNode(be, TwoEqualRows(id), DuplicatesNode(id))[0].severity == Blocking;
  }

  predicate IsUniqueness(id: string, v: Violation) { v.column == id && v.check == "uniqueness" }

  lemma OtherNodesAreSoft(be: F.Backend, id: string, n: DagNode, v: Violation)
    requires IsRaw(id, n) && n != DuplicatesNode(id) && v in ExecuteNode(be, TwoEqualRows(id), n) && v.severity == Blocking
    ensures IsUniqueness(id, v)
  {
  }

  /** The abort leaves no Blocking finding of the nodes but under the name uniqueness. */
  lemma NodesBlockUnderUniqueness(be: F.Backend, id: string)
    requires be.countable(F.Integral)
    ensures !BlockingUnder(RunGroup(be, TwoEqualRows(id), Plan(id)), Name(id, "uniqueness"))
  {
    var plan, frame, name := Plan(id), TwoEqualRows(id), Name(id, "uniqueness");
    GroupBlocksUnder(be, frame, plan, name);
    if j: nat :| FirstBlocker(be, frame, plan, j) && BlockingUnder(ExecuteNode(be, frame, plan[j]), name) {
      PlanMember(id, plan[j]);
      PlanMember(id, MetricNode(id));
      var k :| 0 <= k < |plan| && plan[k] == MetricNode(id);
      MetricBlocks(be, id);
      if plan[j] == DuplicatesNode(id) {
        DuplicatesComeLater(id, k, j);
      }
      var v :| v in ExecuteNode(be, frame, plan[j]) && v.severity == Blocking && Name(v.column, v.check) != name;
      OtherNodesAreSoft(be, id, plan[j], v);
    }
  }

  lemma SchemaIsSoft(be: F.Backend, id: string, v: Violation)
    requires v in Schema.SchemaViolations(be, TwoEqualRows(id), [IdField(id)])
    ensures v.severity == Error
  {
    var s := TwoEqualRows(id)[id];
    Schema.SchemaMember(be, TwoEqualRows(id), [IdField(id)], v);
    assert Schema.TypeViolations(s, IdField(id)) == [];
    ConstraintsFollow(be, s, id, IdField(id).constraints);
    FollowersAreLabelled(Schema.AllConstraintViolations(be, s, id, IdField(id).constraints),
                         AllConstraintLabels(id, IdField(id).constraints), v);
    ConstraintsAreErrors(id, IdField(id).constraints, LabelOf(v));
  }

  lemma RulesBlockUnderUniqueness(be: F.Backend, id: string, v: Violation)
    requires v in EvaluateRules(be, TwoEqualRows(id), UsersContract(id).qualityRules) && v.severity == Blocking
    ensures IsUniqueness(id, v)
  {
    var rules := UsersContract(id).qualityRules;
    var frame := TwoEqualRows(id);
    assert rules[1..] == [UniquenessRule(id)] && rules[1..][1..] == [];
    assert EvaluateRules(be, frame, rules[1..]) == EvaluateRule(be, frame, UniquenessRule(id)) + EvaluateRules(be, frame, []);
    assert EvaluateRules(be, frame, rules) == EvaluateRule(be, frame, CompletenessRule(id)) + EvaluateRules(be, frame, rules[1..]);
    assert v in EvaluateRule(be, TwoEqualRows(id), CompletenessRule(id)) || v in EvaluateRule(be, TwoEqualRows(id), UniquenessRule(id));
  }

  lemma FoundAre(be: F.Backend, id: string)
    ensures Found(be, id) == Schema.SchemaViolations(be, TwoEqualRows(id), [IdField(id)])
              + EvaluateRules(be, TwoEqualRows(id), UsersContract(id).qualityRules) + []
              + RunGroup(be, TwoEqualRows(id), Plan(id))
  {
    PlanIsOneGroup(id);
    assert [id][..0] == [];
    assert RunGroups(be, TwoEqualRows(id), Plan(id), []) == [];
  }

  lemma UniqueFailsHere(be: F.Backend, id: string)
    requires be.countable(F.Integral)
    ensures UniqueFails(be, TwoEqualRows(id), UsersContract(id), id)
  {
    OneDistinctValue(id);
    assert IdField(id) in UsersContract(id).schema && Unique in IdField(id).constraints;
  }

  lemma SomethingBlocks(be: F.Backend, id: string)
    requires be.countable(F.Integral)
    ensures HasBlocking(Found(be, id))
  {
    var v := RuleBlocks(be, id);
    FoundAre(be, id);
    assert v in Found(be, id);
    var i :| 0 <= i < |Found(be, id)| && Found(be, id)[i] == v;
  }

  lemma RuleBlocks(be: F.Backend, id: string) returns (v: Violation)
    requires be.countable(F.Integral)
    ensures v in EvaluateRules(be, TwoEqualRows(id), UsersContract(id).qualityRules) && v.severity == Blocking
  {
    MetricBlocks(be, id);
    RulesMember(be, TwoEqualRows(id), UsersContract(id).qualityRules, UniquenessRule(id));
    v := EvaluateRule(be, TwoEqualRows(id), UniquenessRule(id))[0];
  }

  /** Blocking checks fail, and the report passes. */
  lemma BlockingFailureCanPass(be: F.Backend, id: string)
    requires be.countable(F.Integral)
    ensures IsOrder([id], Plan(id)) && HasBlocking(Found(be, id)) && !HasBlocking(Merge(Found(be, id)))
    ensures Blocks(be, TwoEqualRows(id), DuplicatesNode(id))
  {
    var all := Found(be, id);
    PlanIsOneGroup(id);
    SomethingBlocks(be, id);
    DuplicatesBlock(be, id);
    UniqueFailsHere(be, id);
    FoundAre(be, id);
    forall v | v in all && v.severity == Blocking ensures First(all, v).severity != Blocking {
      if v in Schema.SchemaViolations(be, TwoEqualRows(id), [IdField(id)]) {
        SchemaIsSoft(be, id, v);
      } else if v in EvaluateRules(be, TwoEqualRows(id), UsersContract(id).qualityRules) {
        RulesBlockUnderUniqueness(be, id, v);
      } else {
        NodesBlockUnderUniqueness(be, id);
      }
      UniqueComesFirst(be, TwoEqualRows(id), UsersContract(id), [], [id], v);
    }
    VerdictExactly(all);
  }
}
