/** Compiling a contract to check nodes (crates/statguardian-core/src/compiler/mod.rs). */
module Compiler {
  import opened Sequences
  import opened Ast
  import opened Dag
  import opened Optimizer

  datatype Contract = Contract(
    schema: seq<FieldDef>, qualityRules: seq<QualityRule>, statsRules: seq<StatsRule>, anomalyRules: seq<AnomalyRule>)

  function NodeFor(column: string, c: Constraint): Option<DagNode> {
    match c
    case NotNull => Some(NullCheck(column, Error))
    case PrimaryKey => Some(NullCheck(column, Error))
    case Unique => Some(UniquenessCheck(column, Error))
    case Positive => Some(PositiveCheck(column, Error))
    case Negative => Some(NegativeCheck(column, Error))
    case Regex(pattern) => Some(RegexCheck(column, pattern, Error))
    case Between(min, max) => Some(RangeCheck(column, Some(min), Some(max), Error))
    case Min(value) => Some(RangeCheck(column, Some(value), None, Error))
    case Max(value) => Some(RangeCheck(column, None, Some(value), Error))
    case Len(min, max) => Some(LenCheck(column, min, max, Error))
    case Enum(values) => Some(EnumCheck(column, values, Error))
    case Coerce => None
    case ForeignKey(_, _) => None
  }

  function ConstraintNodes(column: string, cs: seq<Constraint>): seq<DagNode> {
    if cs == [] then [] else
      ConstraintNodes(column, cs[..|cs| - 1]) +
      match NodeFor(column, cs[|cs| - 1]) case None => [] case Some(n) => [n]
  }

  function FieldNodes(field: FieldDef): seq<DagNode> {
    [Profile(field.name), TypeCheck(field.name, field.dataType, Coerce in field.constraints, Blocking)] +
    ConstraintNodes(field.name, field.constraints)
  }

  function SchemaNodes(fields: seq<FieldDef>): seq<DagNode> {
    if fields == [] then [] else SchemaNodes(fields[..|fields| - 1]) + FieldNodes(fields[|fields| - 1])
  }

  function RuleNode(rule: QualityRule): DagNode {
    QualityMetricCheck(rule.column, rule.metric, rule.op, rule.threshold, rule.severity)
  }

  function StatsNode(rule: StatsRule): DagNode {
    DriftCheck(rule.column, rule.stat, rule.op, rule.threshold, rule.severity)
  }

  function Arg(args: map<string, string>, name: string, default: string): string {
    if name in args then args[name] else default
  }

  function AnomalyNode(rule: AnomalyRule): DagNode {
    match rule.fn
    case DetectOutliers => OutlierDetection(rule.column, Arg(rule.args, "method", "iqr"), rule.severity)
    case DetectDuplicates => DuplicateDetection(rule.column, rule.severity)
    case DetectNulls => NullAnomalyDetection(rule.column, rule.severity)
    case DetectCardinalityExplosion => CardinalityCheck(rule.column, rule.severity)
    case DetectPatternBreaks => RegexCheck(rule.column, Arg(rule.args, "pattern", ""), rule.severity)
  }

  function Map<A, B>(f: A -> B, s: seq<A>): seq<B> {
    if s == [] then [] else Map(f, s[..|s| - 1]) + [f(s[|s| - 1])]
  }

  /** The raw node list of a contract. */
  function RawNodes(contract: Contract): seq<DagNode> {
    SchemaNodes(contract.schema) + Map(RuleNode, contract.qualityRules) + Map(StatsNode, contract.statsRules) +
    Map(AnomalyNode, contract.anomalyRules)
  }

  method CompileField(field: FieldDef) returns (nodes: seq<DagNode>)
    ensures nodes == FieldNodes(field)
  {
    nodes := [Profile(field.name), TypeCheck(field.name, field.dataType, Coerce in field.constraints, Blocking)];
    ghost var head := nodes;
    for i := 0 to |field.constraints|
      invariant nodes == head + ConstraintNodes(field.name, field.constraints[..i])
    {
      assert field.constraints[..i + 1][..i] == field.constraints[..i];
      var node := NodeFor(field.name, field.constraints[i]);
      if node.Some? {
        Regroup(head, ConstraintNodes(field.name, field.constraints[..i]), [node.value]);
        nodes := nodes + [node.value];
      }
    }
    assert field.constraints[..|field.constraints|] == field.constraints;
  }

  method AppendAll<A>(nodes: seq<DagNode>, f: A -> DagNode, rules: seq<A>) returns (all: seq<DagNode>)
    ensures all == nodes + Map(f, rules)
  {
    all := nodes;
    for i := 0 to |rules|
      invariant all == nodes + Map(f, rules[..i])
    {
      assert rules[..i + 1][..i] == rules[..i];
      Regroup(nodes, Map(f, rules[..i]), [f(rules[i])]);
      all := all + [f(rules[i])];
    }
    assert rules[..|rules|] == rules;
  }

  /** Compiles a contract to its optimised plan. */
  method Compile(contract: Contract) returns (plan: seq<DagNode>)
    ensures plan == Optimized(RawNodes(contract))
  {
    var nodes := [];
    for i := 0 to |contract.schema|
      invariant nodes == SchemaNodes(contract.schema[..i])
    {
      assert contract.schema[..i + 1][..i] == contract.schema[..i];
      var more := CompileField(contract.schema[i]);
      nodes := nodes + more;
    }
    assert contract.schema[..|contract.schema|] == contract.schema;
    nodes := AppendAll(nodes, RuleNode, contract.qualityRules);
    nodes := AppendAll(nodes, StatsNode, contract.statsRules);
    nodes := AppendAll(nodes, AnomalyNode, contract.anomalyRules);
    plan := Optimize(nodes);
  }
}
