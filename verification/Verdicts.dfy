/**
 * When does a Blocking failure fail the report?  The merge keeps the first violation of each column and
 * check (crates/statguardian-engine/src/batch.rs), so a weaker source can stand in front of a Blocking
 * one.  The conditions here are about the contract alone and can be checked before any data is seen.
 */
module Verdicts {
  import opened Sequences
  import opened Ast
  import opened Dag
  import opened Optimizer
  import opened Compiler
  import opened Executor
  import opened ExecutorLaws
  import F = Frames
  import Schema

  /** What a source may report. */
  datatype Label = Label(column: string, check: string, severity: Severity)

  function LabelOf(v: Violation): Label { Label(v.column, v.check, v.severity) }

  function ConstraintLabels(column: string, c: Constraint): seq<Label> {
    if c.Coerce? || c.ForeignKey? then [] else [Label(column, Schema.ConstraintName(c), Error)]
  }

  function AllConstraintLabels(column: string, cs: seq<Constraint>): seq<Label> {
    if cs == [] then [] else AllConstraintLabels(column, cs[..|cs| - 1]) + ConstraintLabels(column, cs[|cs| - 1])
  }

  function FieldLabels(field: FieldDef): seq<Label> {
    [Label(field.name, "column_exists", Blocking),
     Label(field.name, "type_check", if Coerce in field.constraints then Warning else Blocking)]
    + AllConstraintLabels(field.name, field.constraints)
  }

  function SchemaLabels(fields: seq<FieldDef>): seq<Label> {
    if fields == [] then [] else SchemaLabels(fields[..|fields| - 1]) + FieldLabels(fields[|fields| - 1])
  }

  function RuleLabels(rule: QualityRule): seq<Label> {
    [Label(rule.column, "quality_check", Blocking), Label(rule.column, MetricName(rule.metric), rule.severity)]
  }

  function AllRuleLabels(rules: seq<QualityRule>): seq<Label> {
    if rules == [] then [] else RuleLabels(rules[0]) + AllRuleLabels(rules[1..])
  }

  function NodeLabels(n: DagNode): seq<Label> {
    if CheckName(n) == "" then []
    else (if n.QualityMetricCheck? then [Label(n.column, "quality_check", Blocking)] else [])
         + [Label(n.column, CheckName(n), n.Severity())]
  }

  function AllNodeLabels(nodes: seq<DagNode>): seq<Label> {
    if nodes == [] then [] else NodeLabels(nodes[0]) + AllNodeLabels(nodes[1..])
  }

  function CrossLabels(cross: seq<Violation>): seq<Label> {
    if cross == [] then [] else [LabelOf(cross[0])] + CrossLabels(cross[1..])
  }

  function DirectLabels(contract: Contract, cross: seq<Violation>): seq<Label> {
    SchemaLabels(contract.schema) + AllRuleLabels(contract.qualityRules) + CrossLabels(cross)
  }

  /** Everything a contract may report, in the order in which the merge sees it. */
  function Labels(contract: Contract, cross: seq<Violation>): seq<Label> {
    DirectLabels(contract, cross) + AllNodeLabels(Optimized(RawNodes(contract)))
  }

  /** A column and check whose severities may disagree. */
  datatype Name = Name(column: string, check: string)

  predicate Stands(a: Label, b: Label, except: Option<Name>) {
    a.column == b.column && a.check == b.check && b.severity == Blocking && except != Some(Name(a.column, a.check)) ==>
      a.severity == Blocking
  }

  /** No weaker source stands before a Blocking one of the same column and check, that one name apart. */
  ghost predicate BlockingFirst(labels: seq<Label>, except: Option<Name>) {
    forall i, j :: 0 <= i < j < |labels| ==> Stands(labels[i], labels[j], except)
  }

  // ---- What is found follows the labels ----

  /** The violations carry some of the labels, in order. */
  ghost predicate Follows(vs: seq<Violation>, labels: seq<Label>) {
    || vs == []
    || (labels != [] && (Follows(vs, labels[1..]) || (LabelOf(vs[0]) == labels[0] && Follows(vs[1..], labels[1..]))))
  }

  lemma {:induction false} FollowsAppend(a: seq<Violation>, b: seq<Violation>, la: seq<Label>, lb: seq<Label>)
    requires Follows(a, la) && Follows(b, lb)
    ensures Follows(a + b, la + lb)
  {
    if la == [] {
      assert a + b == b && la + lb == lb;
    } else {
      assert (la + lb)[0] == la[0] && (la + lb)[1..] == la[1..] + lb;
      if Follows(a, la[1..]) {
        FollowsAppend(a, b, la[1..], lb);
      } else {
        assert (a + b)[0] == a[0] && (a + b)[1..] == a[1..] + b;
        FollowsAppend(a[1..], b, la[1..], lb);
      }
    }
  }

  lemma {:induction false} FollowersAreLabelled(vs: seq<Violation>, labels: seq<Label>, v: Violation)
    requires Follows(vs, labels) && v in vs
    ensures LabelOf(v) in labels
  {
    if Follows(vs, labels[1..]) {
      FollowersAreLabelled(vs, labels[1..], v);
    } else if v != vs[0] {
      FollowersAreLabelled(vs[1..], labels[1..], v);
    }
  }

  lemma OneFollows(v: Violation, labels: seq<Label>, i: nat)
    requires i < |labels| <= 2 && LabelOf(v) == labels[i]
    ensures Follows([v], labels)
  {
    assert Follows([], labels[1..]) && [v][1..] == [];
    if i == 1 {
      assert Follows([], labels[1..][1..]);
    }
  }

  /** Of what follows labels with Blocking first, the first of a Blocking violation's name is Blocking. */
  lemma {:induction false} FirstIsBlocking(vs: seq<Violation>, labels: seq<Label>, except: Option<Name>, v: Violation)
    requires Follows(vs, labels) && BlockingFirst(labels, except)
    requires v in vs && v.severity == Blocking && except != Some(Name(v.column, v.check))
    ensures First(vs, v).severity == Blocking
  {
    assert BlockingFirst(labels[1..], except) by {
      forall i, j | 0 <= i < j < |labels| - 1 ensures Stands(labels[1..][i], labels[1..][j], except) {
        assert Stands(labels[i + 1], labels[j + 1], except);
      }
    }
    if Follows(vs, labels[1..]) {
      FirstIsBlocking(vs, labels[1..], except, v);
    } else if SameKey(vs[0], v) {
      if v in vs[1..] {
        FollowersAreLabelled(vs[1..], labels[1..], v);
        var j :| 0 <= j < |labels| - 1 && labels[1..][j] == LabelOf(v);
        assert Stands(labels[0], labels[j + 1], except);
      }
    } else {
      FirstIsBlocking(vs[1..], labels[1..], except, v);
    }
  }

  /** The report fails exactly when a Blocking violation was found, under any name or under any other than the exception. */
  lemma FollowersDecide(vs: seq<Violation>, labels: seq<Label>)
    requires Follows(vs, labels) && BlockingFirst(labels, None)
    ensures HasBlocking(Merge(vs)) <==> HasBlocking(vs)
  {
    VerdictExactly(vs);
    if HasBlocking(vs) {
      var i :| 0 <= i < |vs| && vs[i].severity == Blocking;
      FirstIsBlocking(vs, labels, None, vs[i]);
      FirstIsThere(vs, vs[i]);
      FirstOfFirst(vs, vs[i]);
    }
  }

  lemma {:induction false} PairFollows(labels: seq<Label>, i: nat, j: nat, v: Violation, w: Violation)
    requires i < j < |labels| && LabelOf(v) == labels[i] && LabelOf(w) == labels[j]
    ensures Follows([v, w], labels)
  {
    if i > 0 {
      PairFollows(labels[1..], i - 1, j - 1, v, w);
    } else {
      SingleFollows(labels[1..], j - 1, w);
      assert [v, w][1..] == [w];
    }
  }

  lemma {:induction false} SingleFollows(labels: seq<Label>, i: nat, v: Violation)
    requires i < |labels| && LabelOf(v) == labels[i]
    ensures Follows([v], labels)
  {
    if i > 0 {
      SingleFollows(labels[1..], i - 1, v);
    } else {
      assert [v][1..] == [] && Follows([], labels[1..]);
    }
  }

  function Labelled(x: Label): Violation { Violation(x.column, x.check, x.severity, [], None, None) }

  /** A weaker violation in front of a Blocking one of its name makes the report pass. */
  lemma WeakerHides(v: Violation, w: Violation)
    requires SameKey(v, w) && v.severity != Blocking && w.severity == Blocking
    ensures HasBlocking([v, w]) && !HasBlocking(Merge([v, w]))
  {
    var vs := [v, w];
    VerdictExactly(vs);
    assert First(vs, w) == v && vs[1] == w;
  }

  /** Whatever is found under these labels, the merge does not change the verdict. */
  ghost predicate VerdictIsKept(labels: seq<Label>) {
    forall vs :: Follows(vs, labels) ==> (HasBlocking(Merge(vs)) <==> HasBlocking(vs))
  }

  /** The merge never changes the verdict exactly when no weaker source stands before a Blocking one of its name. */
  lemma VerdictIsKeptExactly(labels: seq<Label>)
    ensures VerdictIsKept(labels) <==> BlockingFirst(labels, None)
  {
    if BlockingFirst(labels, None) {
      forall vs | Follows(vs, labels) ensures HasBlocking(Merge(vs)) <==> HasBlocking(vs) {
        FollowersDecide(vs, labels);
      }
    }
    if VerdictIsKept(labels) {
      forall i, j | 0 <= i < j < |labels| ensures Stands(labels[i], labels[j], None) {
        if !Stands(labels[i], labels[j], None) {
          var v, w := Labelled(labels[i]), Labelled(labels[j]);
          PairFollows(labels, i, j, v, w);
          WeakerHides(v, w);
        }
      }
    }
  }

  lemma ConstraintFollows(be: F.Backend, s: F.Series, column: string, c: Constraint)
    ensures Follows(Schema.ConstraintViolations(be, s, column, c), ConstraintLabels(column, c))
  {
    var vs := Schema.ConstraintViolations(be, s, column, c);
    if vs != [] {
      assert |vs| == 1 && LabelOf(vs[0]) == Label(column, Schema.ConstraintName(c), Error);
      OneFollows(vs[0], ConstraintLabels(column, c), 0);
    }
  }

  lemma {:induction false} ConstraintsFollow(be: F.Backend, s: F.Series, column: string, cs: seq<Constraint>)
    ensures Follows(Schema.AllConstraintViolations(be, s, column, cs), AllConstraintLabels(column, cs))
  {
    if cs == [] {
    } else {
      ConstraintsFollow(be, s, column, cs[..|cs| - 1]);
      ConstraintFollows(be, s, column, cs[|cs| - 1]);
      FollowsAppend(Schema.AllConstraintViolations(be, s, column, cs[..|cs| - 1]),
                    Schema.ConstraintViolations(be, s, column, cs[|cs| - 1]),
                    AllConstraintLabels(column, cs[..|cs| - 1]), ConstraintLabels(column, cs[|cs| - 1]));
    }
  }

  lemma FieldFollows(be: F.Backend, frame: F.Frame, field: FieldDef)
    ensures Follows(Schema.FieldViolations(be, frame, field), FieldLabels(field))
  {
    var own := FieldLabels(field)[..2];
    var rest := AllConstraintLabels(field.name, field.constraints);
    assert FieldLabels(field) == own + rest;
    if field.name !in frame {
      var v := F.Aggregate(field.name, "column_exists", Blocking, None, None);
      OneFollows(v, own, 0);
      FollowsAppend([v], [], own, rest);
      assert [v] + [] == [v];
    } else {
      var s := frame[field.name];
      var types := Schema.TypeViolations(s, field);
      if types != [] {
        OneFollows(types[0], own, 1);
      }
      ConstraintsFollow(be, s, field.name, field.constraints);
      FollowsAppend(types, Schema.AllConstraintViolations(be, s, field.name, field.constraints), own, rest);
    }
  }

  lemma {:induction false} SchemaFollows(be: F.Backend, frame: F.Frame, fields: seq<FieldDef>)
    ensures Follows(Schema.SchemaViolations(be, frame, fields), SchemaLabels(fields))
  {
    if fields == [] {
    } else {
      var init, field := fields[..|fields| - 1], fields[|fields| - 1];
      SchemaFollows(be, frame, init);
      FieldFollows(be, frame, field);
      FollowsAppend(Schema.SchemaViolations(be, frame, init), Schema.FieldViolations(be, frame, field),
                    SchemaLabels(init), FieldLabels(field));
    }
  }

  lemma RuleFollows(be: F.Backend, frame: F.Frame, rule: QualityRule)
    ensures Follows(EvaluateRule(be, frame, rule), RuleLabels(rule))
  {
    var vs := EvaluateRule(be, frame, rule);
    if vs != [] {
      assert |vs| == 1;
      OneFollows(vs[0], RuleLabels(rule), if rule.column !in frame then 0 else 1);
    }
  }

  lemma {:induction false} RulesFollow(be: F.Backend, frame: F.Frame, rules: seq<QualityRule>)
    ensures Follows(EvaluateRules(be, frame, rules), AllRuleLabels(rules))
  {
    if rules == [] {
    } else {
      RuleFollows(be, frame, rules[0]);
      RulesFollow(be, frame, rules[1..]);
      FollowsAppend(EvaluateRule(be, frame, rules[0]), EvaluateRules(be, frame, rules[1..]),
                    RuleLabels(rules[0]), AllRuleLabels(rules[1..]));
    }
  }

  lemma {:induction false} CrossFollows(cross: seq<Violation>)
    ensures Follows(cross, CrossLabels(cross))
  {
    if cross == [] {
    } else {
      CrossFollows(cross[1..]);
      assert CrossLabels(cross)[1..] == CrossLabels(cross[1..]);
    }
  }

  lemma DirectFollows(be: F.Backend, frame: F.Frame, contract: Contract, cross: seq<Violation>)
    ensures Follows(DirectViolations(be, frame, contract, cross), DirectLabels(contract, cross))
  {
    var schema, rules := Schema.SchemaViolations(be, frame, contract.schema), EvaluateRules(be, frame, contract.qualityRules);
    var ls, lr := SchemaLabels(contract.schema), AllRuleLabels(contract.qualityRules);
    SchemaFollows(be, frame, contract.schema);
    RulesFollow(be, frame, contract.qualityRules);
    CrossFollows(cross);
    FollowsAppend(schema, rules, ls, lr);
    FollowsAppend(schema + rules, cross, ls + lr, CrossLabels(cross));
  }

  /** What a node reports on any frame: its own name, or, for a metric, that its column is missing. */
  lemma NodeFollows(be: F.Backend, frame: F.Frame, n: DagNode)
    ensures Follows(ExecuteNode(be, frame, n), NodeLabels(n))
  {
    var vs := ExecuteNode(be, frame, n);
    if n.QualityMetricCheck? {
      RuleFollows(be, frame, QualityRule(n.metric, n.column, n.op, n.threshold, n.severity));
      assert NodeLabels(n) == RuleLabels(QualityRule(n.metric, n.column, n.op, n.threshold, n.severity));
    } else if vs != [] {
      NodeHasItsName(be, frame, n);
      OneFollows(vs[0], NodeLabels(n), 0);
    }
  }

  lemma NodeHasItsName(be: F.Backend, frame: F.Frame, n: DagNode)
    requires !n.QualityMetricCheck? && ExecuteNode(be, frame, n) != []
    ensures var vs := ExecuteNode(be, frame, n);
            |vs| == 1 && CheckName(n) != "" && LabelOf(vs[0]) == Label(n.column, CheckName(n), n.Severity())
  {
  }

  lemma {:induction false} GroupFollows(be: F.Backend, frame: F.Frame, nodes: seq<DagNode>)
    ensures Follows(RunGroup(be, frame, nodes), AllNodeLabels(nodes))
  {
    if nodes == [] {
    } else {
      var vs, tail := ExecuteNode(be, frame, nodes[0]), AllNodeLabels(nodes[1..]);
      NodeFollows(be, frame, nodes[0]);
      GroupFollows(be, frame, nodes[1..]);
      FollowsAppend(vs, RunGroup(be, frame, nodes[1..]), NodeLabels(nodes[0]), tail);
      FollowsAppend(vs, [], NodeLabels(nodes[0]), tail);
      assert vs + [] == vs;
    }
  }

  function GroupsLabels(plan: seq<DagNode>, order: seq<string>): seq<Label> {
    if order == [] then [] else GroupsLabels(plan, order[..|order| - 1]) + AllNodeLabels(Group(order[|order| - 1], plan))
  }

  lemma {:induction false} GroupsFollow(be: F.Backend, frame: F.Frame, plan: seq<DagNode>, order: seq<string>)
    ensures Follows(RunGroups(be, frame, plan, order), GroupsLabels(plan, order))
  {
    if order == [] {
    } else {
      var init, last := order[..|order| - 1], order[|order| - 1];
      GroupsFollow(be, frame, plan, init);
      GroupFollows(be, frame, Group(last, plan));
      FollowsAppend(RunGroups(be, frame, plan, init), RunGroup(be, frame, Group(last, plan)),
                    GroupsLabels(plan, init), AllNodeLabels(Group(last, plan)));
    }
  }

  // ---- Blocking first, whatever the order of the columns ----

  ghost predicate AllStand(a: seq<Label>, b: seq<Label>, except: Option<Name>) {
    forall x, y :: x in a && y in b ==> Stands(x, y, except)
  }

  lemma BlockingFirstAppend(a: seq<Label>, b: seq<Label>, except: Option<Name>)
    ensures BlockingFirst(a + b, except) <==> BlockingFirst(a, except) && BlockingFirst(b, except) && AllStand(a, b, except)
  {
    var c := a + b;
    if BlockingFirst(c, except) {
      forall i, j | 0 <= i < j < |a| ensures Stands(a[i], a[j], except) {
        assert Stands(c[i], c[j], except);
      }
      forall i, j | 0 <= i < j < |b| ensures Stands(b[i], b[j], except) {
        assert Stands(c[|a| + i], c[|a| + j], except);
      }
      forall x, y | x in a && y in b ensures Stands(x, y, except) {
        var i :| 0 <= i < |a| && a[i] == x;
        var j :| 0 <= j < |b| && b[j] == y;
        assert Stands(c[i], c[|a| + j], except);
      }
    }
    if BlockingFirst(a, except) && BlockingFirst(b, except) && AllStand(a, b, except) {
      forall i, j | 0 <= i < j < |c| ensures Stands(c[i], c[j], except) {
        if j < |a| {
          assert Stands(a[i], a[j], except);
        } else if |a| <= i {
          assert Stands(b[i - |a|], b[j - |a|], except);
        } else {
          assert a[i] in a && b[j - |a|] in b;
        }
      }
    }
  }

  lemma {:induction false} NodeLabelMember(nodes: seq<DagNode>, x: Label)
    ensures x in AllNodeLabels(nodes) <==> exists n :: n in nodes && x in NodeLabels(n)
  {
    if nodes == [] {
    } else {
      NodeLabelMember(nodes[1..], x);
      assert forall n :: n in nodes <==> n == nodes[0] || n in nodes[1..];
    }
  }

  lemma {:induction false} GroupsLabelMember(plan: seq<DagNode>, order: seq<string>, x: Label)
    ensures x in GroupsLabels(plan, order) <==> x.column in order && x in AllNodeLabels(plan)
  {
    if order == [] {
    } else {
      var init, last := order[..|order| - 1], order[|order| - 1];
      assert order == init + [last];
      GroupsLabelMember(plan, init, x);
      GroupLabelMember(plan, last, x);
    }
  }

  lemma {:induction false} LabelHasNode(nodes: seq<DagNode>, x: Label) returns (n: DagNode)
    requires x in AllNodeLabels(nodes)
    ensures n in nodes && x in NodeLabels(n) && x.column == n.column
  {
    if x in NodeLabels(nodes[0]) {
      n := nodes[0];
    } else {
      n := LabelHasNode(nodes[1..], x);
    }
  }

  lemma GroupLabelMember(plan: seq<DagNode>, column: string, x: Label)
    ensures x in AllNodeLabels(Group(column, plan)) <==> x.column == column && x in AllNodeLabels(plan)
  {
    if x in AllNodeLabels(Group(column, plan)) {
      var n := LabelHasNode(Group(column, plan), x);
      GroupMember(column, plan, n);
      NodeLabelMember(plan, x);
    }
    if x.column == column && x in AllNodeLabels(plan) {
      var n := LabelHasNode(plan, x);
      GroupMember(column, plan, n);
      NodeLabelMember(Group(column, plan), x);
    }
  }

  /** Blocking nodes come first. */
  ghost predicate SeveritySorted(nodes: seq<DagNode>) {
    forall i, j :: 0 <= i < j < |nodes| && nodes[i].column == nodes[j].column && nodes[j].Severity() == Blocking ==>
      nodes[i].Severity() == Blocking
  }

  lemma {:induction false} GroupSorted(column: string, nodes: seq<DagNode>)
    requires SeveritySorted(nodes)
    ensures SeveritySorted(Group(column, nodes))
  {
    if nodes == [] {
    } else {
      var init, last := nodes[..|nodes| - 1], nodes[|nodes| - 1];
      GroupSorted(column, init);
      var group := Group(column, init);
      forall i | 0 <= i < |group| && last.column == column && last.Severity() == Blocking
        ensures group[i].Severity() == Blocking
      {
        GroupMember(column, init, group[i]);
        var k :| 0 <= k < |init| && init[k] == group[i];
        assert nodes[k] == group[i] && nodes[|nodes| - 1] == last;
      }
    }
  }

  lemma NodesStand(a: DagNode, b: DagNode)
    requires b.Severity() == Blocking ==> a.Severity() == Blocking
    ensures AllStand(NodeLabels(a), NodeLabels(b), None)
  {
    forall x, y | x in NodeLabels(a) && y in NodeLabels(b) ensures Stands(x, y, None) {
      NodeLabelIs(a, x);
      NodeLabelIs(b, y);
    }
  }

  lemma NodeLabelIs(n: DagNode, x: Label)
    requires x in NodeLabels(n)
    ensures if x.check == "quality_check" then x.severity == Blocking else x.severity == n.Severity()
  {
    NoNodeIsNamedSo(n);
  }

  lemma NoNodeIsNamedSo(n: DagNode)
    ensures CheckName(n) != "quality_check"
  {
  }

  lemma NodeAlone(n: DagNode)
    ensures BlockingFirst(NodeLabels(n), None)
  {
  }

  lemma {:induction false} SortedGroupStands(column: string, nodes: seq<DagNode>)
    requires SeveritySorted(nodes) && forall i :: 0 <= i < |nodes| ==> nodes[i].column == column
    ensures BlockingFirst(AllNodeLabels(nodes), None)
  {
    if nodes == [] {
    } else {
      SortedGroupStands(column, nodes[1..]);
      NodeAlone(nodes[0]);
      forall x, y | x in NodeLabels(nodes[0]) && y in AllNodeLabels(nodes[1..]) ensures Stands(x, y, None) {
        var n := LabelHasNode(nodes[1..], y);
        var k :| 0 <= k < |nodes| - 1 && nodes[1..][k] == n;
        assert nodes[k + 1] == n;
        NodesStand(nodes[0], n);
      }
      BlockingFirstAppend(NodeLabels(nodes[0]), AllNodeLabels(nodes[1..]), None);
    }
  }

  lemma {:induction false} GroupsStand(plan: seq<DagNode>, order: seq<string>)
    requires SeveritySorted(plan) && forall i, j :: 0 <= i < j < |order| ==> order[i] != order[j]
    ensures BlockingFirst(GroupsLabels(plan, order), None)
  {
    if order == [] {
    } else {
      var init, last := order[..|order| - 1], order[|order| - 1];
      GroupsStand(plan, init);
      GroupStands(last, plan);
      OtherColumnsStand(plan, init, last);
      BlockingFirstAppend(GroupsLabels(plan, init), AllNodeLabels(Group(last, plan)), None);
    }
  }

  lemma GroupStands(column: string, plan: seq<DagNode>)
    requires SeveritySorted(plan)
    ensures BlockingFirst(AllNodeLabels(Group(column, plan)), None)
  {
    var group := Group(column, plan);
    GroupSorted(column, plan);
    forall i | 0 <= i < |group| ensures group[i].column == column {
      GroupMember(column, plan, group[i]);
    }
    SortedGroupStands(column, group);
  }

  lemma OtherColumnsStand(plan: seq<DagNode>, order: seq<string>, column: string)
    requires column !in order
    ensures AllStand(GroupsLabels(plan, order), AllNodeLabels(Group(column, plan)), None)
  {
    forall x, y | x in GroupsLabels(plan, order) && y in AllNodeLabels(Group(column, plan)) ensures Stands(x, y, None) {
      GroupsLabelMember(plan, order, x);
      GroupLabelMember(plan, column, y);
    }
  }

  lemma PlanIsSorted(contract: Contract)
    ensures SeveritySorted(Optimized(RawNodes(contract)))
  {
    var plan := Optimized(RawNodes(contract));
    forall i, j | 0 <= i < j < |plan| && plan[i].column == plan[j].column && plan[j].Severity() == Blocking
      ensures plan[i].Severity() == Blocking
    {
      PlanIsOrdered(RawNodes(contract), i, j);
    }
  }

  lemma ExceptingIsWeaker(labels: seq<Label>, except: Option<Name>)
    requires BlockingFirst(labels, None)
    ensures BlockingFirst(labels, except)
  {
    forall i, j | 0 <= i < j < |labels| ensures Stands(labels[i], labels[j], except) {
      assert Stands(labels[i], labels[j], None);
    }
  }

  /** The labels of the contract stand as they should in whatever order the columns run. */
  lemma OrderKeepsBlockingFirst(contract: Contract, cross: seq<Violation>, order: seq<string>, except: Option<Name>)
    requires IsOrder(order, Optimized(RawNodes(contract))) && BlockingFirst(Labels(contract, cross), except)
    ensures BlockingFirst(DirectLabels(contract, cross) + GroupsLabels(Optimized(RawNodes(contract)), order), except)
  {
    var direct, plan := DirectLabels(contract, cross), Optimized(RawNodes(contract));
    BlockingFirstAppend(direct, AllNodeLabels(plan), except);
    PlanIsSorted(contract);
    GroupsStand(plan, order);
    ExceptingIsWeaker(GroupsLabels(plan, order), except);
    forall x, y | x in direct && y in GroupsLabels(plan, order) ensures Stands(x, y, except) {
      GroupsLabelMember(plan, order, y);
    }
    BlockingFirstAppend(direct, GroupsLabels(plan, order), except);
  }

  lemma PreMergeFollows(be: F.Backend, frame: F.Frame, contract: Contract, cross: seq<Violation>, order: seq<string>)
    ensures Follows(PreMerge(be, frame, contract, cross, Optimized(RawNodes(contract)), order),
                    DirectLabels(contract, cross) + GroupsLabels(Optimized(RawNodes(contract)), order))
  {
    var plan := Optimized(RawNodes(contract));
    DirectFollows(be, frame, contract, cross);
    GroupsFollow(be, frame, plan, order);
    FollowsAppend(DirectViolations(be, frame, contract, cross), RunGroups(be, frame, plan, order),
                  DirectLabels(contract, cross), GroupsLabels(plan, order));
  }

  // ---- Verdicts ----

  /**
   * If no source of the contract stands before a Blocking source of its name with a weaker severity,
   * then on every frame the report fails exactly when some Blocking check fails.
   */
  lemma VerdictOfContract(be: F.Backend, frame: F.Frame, contract: Contract, cross: seq<Violation>, order: seq<string>)
    requires IsOrder(order, Optimized(RawNodes(contract))) && BlockingFirst(Labels(contract, cross), None)
    ensures HasBlocking(Merge(PreMerge(be, frame, contract, cross, Optimized(RawNodes(contract)), order))) <==>
            HasBlocking(DirectViolations(be, frame, contract, cross) + RunAll(be, frame, RawNodes(contract)))
  {
    OrderKeepsBlockingFirst(contract, cross, order, None);
    PreMergeFollows(be, frame, contract, cross, order);
    FollowersDecide(PreMerge(be, frame, contract, cross, Optimized(RawNodes(contract)), order),
                    DirectLabels(contract, cross) + GroupsLabels(Optimized(RawNodes(contract)), order));
    OptimisedPlanBlocksAlike(be, frame, contract, cross, order);
  }

  ghost predicate BlockingUnder(vs: seq<Violation>, except: Name) {
    exists v :: v in vs && v.severity == Blocking && Name(v.column, v.check) != except
  }

  /** When a name is hidden by a weaker violation, the report fails exactly when a Blocking violation has another name. */
  lemma HiddenNameDecides(vs: seq<Violation>, labels: seq<Label>, hidden: Name)
    requires Follows(vs, labels) && BlockingFirst(labels, Some(hidden))
    requires forall v :: v in vs && Name(v.column, v.check) == hidden ==> First(vs, v).severity != Blocking
    ensures HasBlocking(Merge(vs)) <==> BlockingUnder(vs, hidden)
  {
    VerdictExactly(vs);
    if v :| v in vs && v.severity == Blocking && Name(v.column, v.check) != hidden {
      FirstIsBlocking(vs, labels, Some(hidden), v);
      FirstIsThere(vs, v);
      FirstOfFirst(vs, v);
    }
  }

  // ---- What the abort leaves ----

  /** The node at `k` is the first of these nodes that reports a Blocking violation. */
  ghost predicate FirstBlocker(be: F.Backend, frame: F.Frame, nodes: seq<DagNode>, k: nat) {
    k < |nodes| && Blocks(be, frame, nodes[k]) && forall i :: 0 <= i < k ==> !Blocks(be, frame, nodes[i])
  }

  /** The first of the nodes that blocks reports a Blocking violation under another name. */
  ghost predicate BlockedUnder(be: F.Backend, frame: F.Frame, nodes: seq<DagNode>, except: Name) {
    exists k: nat :: FirstBlocker(be, frame, nodes, k) && BlockingUnder(ExecuteNode(be, frame, nodes[k]), except)
  }

  lemma FirstBlockerOfTail(be: F.Backend, frame: F.Frame, nodes: seq<DagNode>, k: nat)
    requires nodes != [] && !Blocks(be, frame, nodes[0])
    ensures k > 0 ==> (FirstBlocker(be, frame, nodes, k) <==> FirstBlocker(be, frame, nodes[1..], k - 1))
    ensures !FirstBlocker(be, frame, nodes, 0)
  {
    if k > 0 && FirstBlocker(be, frame, nodes[1..], k - 1) {
      forall i | 0 <= i < k ensures !Blocks(be, frame, nodes[i]) {
        assert i > 0 ==> nodes[i] == nodes[1..][i - 1];
      }
    }
    if k > 0 && FirstBlocker(be, frame, nodes, k) {
      forall i | 0 <= i < k - 1 ensures !Blocks(be, frame, nodes[1..][i]) {
        assert nodes[1..][i] == nodes[i + 1];
      }
    }
  }

  lemma BlockedByTail(be: F.Backend, frame: F.Frame, nodes: seq<DagNode>, except: Name)
    requires nodes != [] && !Blocks(be, frame, nodes[0])
    ensures BlockedUnder(be, frame, nodes, except) <==> BlockedUnder(be, frame, nodes[1..], except)
  {
    if k: nat :| FirstBlocker(be, frame, nodes, k) && BlockingUnder(ExecuteNode(be, frame, nodes[k]), except) {
      FirstBlockerOfTail(be, frame, nodes, k);
      assert nodes[1..][k - 1] == nodes[k];
    }
    if k: nat :| FirstBlocker(be, frame, nodes[1..], k) && BlockingUnder(ExecuteNode(be, frame, nodes[1..][k]), except) {
      FirstBlockerOfTail(be, frame, nodes, k + 1);
      assert nodes[1..][k] == nodes[k + 1];
    }
  }

  lemma BlockedByHead(be: F.Backend, frame: F.Frame, nodes: seq<DagNode>, except: Name)
    requires nodes != [] && Blocks(be, frame, nodes[0])
    ensures BlockedUnder(be, frame, nodes, except) <==> BlockingUnder(ExecuteNode(be, frame, nodes[0]), except)
  {
    assert FirstBlocker(be, frame, nodes, 0);
    assert forall k: nat :: FirstBlocker(be, frame, nodes, k) ==> k == 0;
  }

  lemma UnderEither(a: seq<Violation>, b: seq<Violation>, except: Name)
    ensures BlockingUnder(a + b, except) <==> BlockingUnder(a, except) || BlockingUnder(b, except)
  {
    assert forall v :: v in a + b <==> v in a || v in b;
  }

  lemma UnderBlocks(vs: seq<Violation>, except: Name)
    ensures BlockingUnder(vs, except) ==> HasBlocking(vs)
  {
    if v :| v in vs && v.severity == Blocking && Name(v.column, v.check) != except {
      var i :| 0 <= i < |vs| && vs[i] == v;
    }
  }

  /** Of one column's Blocking violations only those of the first node that blocks are found. */
  lemma {:induction false} GroupBlocksUnder(be: F.Backend, frame: F.Frame, nodes: seq<DagNode>, except: Name)
    ensures BlockingUnder(RunGroup(be, frame, nodes), except) <==> BlockedUnder(be, frame, nodes, except)
  {
    if nodes == [] {
    } else {
      var vs := ExecuteNode(be, frame, nodes[0]);
      if Blocks(be, frame, nodes[0]) {
        BlockedByHead(be, frame, nodes, except);
      } else {
        BlockedByTail(be, frame, nodes, except);
        GroupBlocksUnder(be, frame, nodes[1..], except);
        UnderEither(vs, RunGroup(be, frame, nodes[1..]), except);
        UnderBlocks(vs, except);
      }
    }
  }

  /** Some column's first node that blocks does so under another name. */
  ghost predicate ColumnBlockedUnder(be: F.Backend, frame: F.Frame, plan: seq<DagNode>, order: seq<string>, except: Name) {
    exists c :: c in order && BlockedUnder(be, frame, Group(c, plan), except)
  }

  lemma {:induction false} GroupsBlockUnder(be: F.Backend, frame: F.Frame, plan: seq<DagNode>, order: seq<string>, except: Name)
    ensures BlockingUnder(RunGroups(be, frame, plan, order), except) <==> ColumnBlockedUnder(be, frame, plan, order, except)
  {
    if order == [] {
    } else {
      var init, last := order[..|order| - 1], order[|order| - 1];
      GroupsBlockUnder(be, frame, plan, init, except);
      GroupBlocksUnder(be, frame, Group(last, plan), except);
      UnderEither(RunGroups(be, frame, plan, init), RunGroup(be, frame, Group(last, plan)), except);
      assert forall c :: c in order <==> c in init || c == last;
    }
  }

  /** What a run finds under another name, in terms of its checks. */
  lemma FoundUnder(be: F.Backend, frame: F.Frame, contract: Contract, cross: seq<Violation>, order: seq<string>, except: Name)
    ensures var plan := Optimized(RawNodes(contract));
            BlockingUnder(PreMerge(be, frame, contract, cross, plan, order), except) <==>
            BlockingUnder(DirectViolations(be, frame, contract, cross), except) || ColumnBlockedUnder(be, frame, plan, order, except)
  {
    var plan := Optimized(RawNodes(contract));
    GroupsBlockUnder(be, frame, plan, order, except);
    UnderEither(DirectViolations(be, frame, contract, cross), RunGroups(be, frame, plan, order), except);
  }

  /** The Unique constraint of some field on this column fails. */
  ghost predicate UniqueFails(be: F.Backend, frame: F.Frame, contract: Contract, column: string) {
    && column in frame
    && Schema.ConstraintViolations(be, frame[column], column, Unique) != []
    && exists field :: field in contract.schema && field.name == column && Unique in field.constraints
  }

  lemma {:induction false} ConstraintsAreErrors(column: string, cs: seq<Constraint>, x: Label)
    requires x in AllConstraintLabels(column, cs)
    ensures x.severity == Error
  {
    if x in AllConstraintLabels(column, cs[..|cs| - 1]) {
      ConstraintsAreErrors(column, cs[..|cs| - 1], x);
    }
  }

  lemma {:induction false} UniquenessLabelsAreErrors(fields: seq<FieldDef>, x: Label)
    requires x in SchemaLabels(fields) && x.check == "uniqueness"
    ensures x.severity == Error
  {
    var init, field := fields[..|fields| - 1], fields[|fields| - 1];
    if x in SchemaLabels(init) {
      UniquenessLabelsAreErrors(init, x);
    } else {
      assert "column_exists"[0] != "uniqueness"[0] && "type_check"[0] != "uniqueness"[0];
      assert x in AllConstraintLabels(field.name, field.constraints);
      ConstraintsAreErrors(field.name, field.constraints, x);
    }
  }

  lemma SchemaUniquenessIsError(be: F.Backend, frame: F.Frame, fields: seq<FieldDef>, v: Violation)
    requires v in Schema.SchemaViolations(be, frame, fields) && v.check == "uniqueness"
    ensures v.severity == Error
  {
    SchemaFollows(be, frame, fields);
    FollowersAreLabelled(Schema.SchemaViolations(be, frame, fields), SchemaLabels(fields), v);
    UniquenessLabelsAreErrors(fields, LabelOf(v));
  }

  lemma UniqueIsFound(be: F.Backend, frame: F.Frame, contract: Contract, column: string) returns (v: Violation)
    requires UniqueFails(be, frame, contract, column)
    ensures v in Schema.SchemaViolations(be, frame, contract.schema) && v.column == column && v.check == "uniqueness"
  {
    var field :| field in contract.schema && field.name == column && Unique in field.constraints;
    v := Schema.ConstraintViolations(be, frame[column], column, Unique)[0];
    Schema.ConstraintMember(be, frame[column], column, field.constraints, v);
    assert v in Schema.FieldViolations(be, frame, field);
    Schema.SchemaMember(be, frame, contract.schema, v);
  }

  lemma {:induction false} FirstInHead(a: seq<Violation>, b: seq<Violation>, w: Violation, v: Violation)
    requires w in a && SameKey(w, v)
    ensures First(a + b, v) in a && SameKey(First(a + b, v), v)
  {
    assert (a + b)[0] == a[0] && (a + b)[1..] == a[1..] + b;
    if !SameKey(a[0], v) {
      FirstInHead(a[1..], b, w, v);
    }
  }

  /**
   * For every contract: where a unique constraint fails, the column's uniqueness is reported as an
   * Error, whatever severity its uniqueness rules have; and if no other name is out of order, the
   * report fails exactly when a schema, rule or cross-column check blocks under another name, or the
   * first node to block in some column does.
   */
  lemma UniqueHidesUniquenessRules(be: F.Backend, frame: F.Frame, contract: Contract, cross: seq<Violation>,
                                   order: seq<string>, column: string)
    requires IsOrder(order, Optimized(RawNodes(contract))) && UniqueFails(be, frame, contract, column)
    ensures var plan, name := Optimized(RawNodes(contract)), Name(column, "uniqueness");
            var vs := PreMerge(be, frame, contract, cross, plan, order);
            && (forall v :: v in Merge(vs) && v.column == column && v.check == "uniqueness" ==> v.severity == Error)
            && (BlockingFirst(Labels(contract, cross), Some(name)) ==>
                  (HasBlocking(Merge(vs)) <==>
                     BlockingUnder(DirectViolations(be, frame, contract, cross), name) ||
                     ColumnBlockedUnder(be, frame, plan, order, name)))
  {
    var plan, name := Optimized(RawNodes(contract)), Name(column, "uniqueness");
    var vs := PreMerge(be, frame, contract, cross, plan, order);
    forall v | v in vs && Name(v.column, v.check) == name ensures First(vs, v).severity == Error {
      UniqueComesFirst(be, frame, contract, cross, order, v);
    }
    MergeKeepsFirsts(vs);
    if BlockingFirst(Labels(contract, cross), Some(name)) {
      OrderKeepsBlockingFirst(contract, cross, order, Some(name));
      PreMergeFollows(be, frame, contract, cross, order);
      HiddenNameDecides(vs, DirectLabels(contract, cross) + GroupsLabels(plan, order), name);
      FoundUnder(be, frame, contract, cross, order, name);
    }
  }

  lemma SchemaDecides(be: F.Backend, frame: F.Frame, fields: seq<FieldDef>, rest: seq<Violation>, w: Violation, v: Violation)
    requires w in Schema.SchemaViolations(be, frame, fields) && SameKey(w, v) && v.check == "uniqueness"
    ensures First(Schema.SchemaViolations(be, frame, fields) + rest, v).severity == Error
  {
    var schema := Schema.SchemaViolations(be, frame, fields);
    FirstInHead(schema, rest, w, v);
    SchemaUniquenessIsError(be, frame, fields, First(schema + rest, v));
  }

  lemma UniqueComesFirst(be: F.Backend, frame: F.Frame, contract: Contract, cross: seq<Violation>, order: seq<string>, v: Violation)
    requires UniqueFails(be, frame, contract, v.column) && v.check == "uniqueness"
    ensures First(PreMerge(be, frame, contract, cross, Optimized(RawNodes(contract)), order), v).severity == Error
  {
    var schema := Schema.SchemaViolations(be, frame, contract.schema);
    var rules, nodes := EvaluateRules(be, frame, contract.qualityRules), RunGroups(be, frame, Optimized(RawNodes(contract)), order);
    var w := UniqueIsFound(be, frame, contract, v.column);
    Regroup(schema, rules, cross);
    Regroup(schema, rules + cross, nodes);
    SchemaDecides(be, frame, contract.schema, rules + cross + nodes, w, v);
  }
}
