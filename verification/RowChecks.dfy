/**
 * When may a stream be cut into batches of any size?  Inside a batch the engine
 * (crates/statguardian-engine/src/batch.rs) stops a column's nodes at the first Blocking violation and
 * keeps one violation for each column and check, so a row can hide what is wrong with its neighbours.
 * This module says exactly when that makes the findings of a run depend on the batch size.
 */
module RowChecks {
  import opened Sequences
  import opened Ast
  import opened StreamLaws
  import X = Executor
  import EL = ExecutorLaws

  /** A check judges each row alone, or the batch as a whole. */
  datatype Check<!V> =
    | RowCheck(column: string, check: string, severity: Severity, fails: V -> bool)
    | BatchCheck(column: string, check: string, severity: Severity, failsOn: seq<V> -> bool,
                 observed: seq<V> -> Option<real>, expected: seq<V> -> Option<real>)

  /** Schema and rule checks always run; the plan runs by column, in some order of the columns. */
  datatype Checks<!V> = Checks(direct: seq<Check<V>>, plan: seq<Check<V>>, order: seq<string>)

  function FailingRows<V>(c: Check<V>, vs: seq<V>): (rows: seq<nat>)
    ensures forall i :: i in rows <==> c.RowCheck? && 0 <= i < |vs| && c.fails(vs[i])
  {
    if c.BatchCheck? || vs == [] then []
    else FailingRows(c, vs[..|vs| - 1]) + (if c.fails(vs[|vs| - 1]) then [|vs| - 1] else [])
  }

  predicate Fires<V>(c: Check<V>, vs: seq<V>) { if c.RowCheck? then FailingRows(c, vs) != [] else c.failsOn(vs) }

  function ViolationOf<V>(c: Check<V>, vs: seq<V>): Violation {
    if c.RowCheck? then Violation(c.column, c.check, c.severity, FailingRows(c, vs), None, None)
    else Violation(c.column, c.check, c.severity, [], c.observed(vs), c.expected(vs))
  }

  function RunDirect<V>(checks: seq<Check<V>>, vs: seq<V>): seq<Violation> {
    if checks == [] then []
    else (if Fires(checks[0], vs) then [ViolationOf(checks[0], vs)] else []) + RunDirect(checks[1..], vs)
  }

  /** One column of the plan, up to and including the first Blocking violation. */
  function RunGroup<V>(checks: seq<Check<V>>, vs: seq<V>): seq<Violation> {
    if checks == [] then []
    else if !Fires(checks[0], vs) then RunGroup(checks[1..], vs)
    else [ViolationOf(checks[0], vs)] + (if checks[0].severity == Blocking then [] else RunGroup(checks[1..], vs))
  }

  function Group<V>(column: string, checks: seq<Check<V>>): seq<Check<V>> {
    if checks == [] then []
    else
      var init, last := checks[..|checks| - 1], checks[|checks| - 1];
      if last.column == column then Group(column, init) + [last] else Group(column, init)
  }

  function RunGroups<V>(plan: seq<Check<V>>, order: seq<string>, vs: seq<V>): seq<Violation> {
    if order == [] then []
    else RunGroups(plan, order[..|order| - 1], vs) + RunGroup(Group(order[|order| - 1], plan), vs)
  }

  /** `order` lists every column of the plan once. */
  ghost predicate IsOrder<V>(order: seq<string>, plan: seq<Check<V>>) {
    && (forall i, j :: 0 <= i < j < |order| ==> order[i] != order[j])
    && (forall i :: 0 <= i < |plan| ==> plan[i].column in order)
  }

  function RunChecks<V>(e: Checks<V>, vs: seq<V>): seq<Violation> {
    X.Merge(RunDirect(e.direct, vs) + RunGroups(e.plan, e.order, vs))
  }

  /** An engine that runs these checks on every batch. */
  ghost predicate Implements<V(!new)>(execute: seq<V> -> Result<seq<Violation>, string>, e: Checks<V>) {
    forall vs :: execute(vs) == Ok(RunChecks(e, vs))
  }

  // ---- What hides a check ----

  predicate Concerns<V>(c: Check<V>, column: string, check: string) { c.column == column && c.check == check }

  /** The checks that can report on a column: the direct ones, then the column's plan. */
  function Sources<V>(e: Checks<V>, column: string): seq<Check<V>> { e.direct + Group(column, e.plan) }

  /** Source `j` comes before source `x` and shares its name, or stops the plan before it; the first `d` sources are direct. */
  predicate Hides<V>(src: seq<Check<V>>, d: nat, column: string, check: string, x: nat, j: nat)
    requires x < |src|
  {
    j < x && (Concerns(src[j], column, check) || (d <= j && src[j].severity == Blocking))
  }

  /** On this batch some check fires that hides source `x`. */
  ghost predicate Hidden<V>(src: seq<Check<V>>, d: nat, column: string, check: string, x: nat, vs: seq<V>)
    requires x < |src|
  {
    exists j :: 0 <= j < |src| && Hides(src, d, column, check, x, j) && Fires(src[j], vs)
  }

  /** Source `x` is the one whose violation carries this name into the report. */
  ghost predicate Surfaces<V>(src: seq<Check<V>>, d: nat, column: string, check: string, x: nat, vs: seq<V>) {
    x < |src| && Concerns(src[x], column, check) && Fires(src[x], vs) && !Hidden(src, d, column, check, x, vs)
  }

  /** The sources in one run: direct ones first, then the plan with its early stop. */
  function RunSources<V>(src: seq<Check<V>>, d: nat, vs: seq<V>): seq<Violation> {
    if src == [] then []
    else
      var rest := if d > 0 then d - 1 else 0;
      if !Fires(src[0], vs) then RunSources(src[1..], rest, vs)
      else [ViolationOf(src[0], vs)] + (if d == 0 && src[0].severity == Blocking then [] else RunSources(src[1..], rest, vs))
  }

  lemma {:induction false} PlanAsSources<V>(group: seq<Check<V>>, vs: seq<V>)
    ensures RunSources(group, 0, vs) == RunGroup(group, vs)
  {
    if group == [] {
    } else {
      PlanAsSources(group[1..], vs);
    }
  }

  lemma {:induction false} RunAsSources<V>(direct: seq<Check<V>>, group: seq<Check<V>>, vs: seq<V>)
    ensures RunSources(direct + group, |direct|, vs) == RunDirect(direct, vs) + RunGroup(group, vs)
  {
    if direct == [] {
      assert direct + group == group;
      PlanAsSources(group, vs);
    } else {
      var src := direct + group;
      assert src[1..] == direct[1..] + group && src[0] == direct[0];
      RunAsSources(direct[1..], group, vs);
      var head := if Fires(direct[0], vs) then [ViolationOf(direct[0], vs)] else [];
      assert RunSources(src, |direct|, vs) == head + RunSources(src[1..], |direct| - 1, vs);
      Regroup(head, RunDirect(direct[1..], vs), RunGroup(group, vs));
    }
  }

  // ---- The first violation of a name ----

  function FindKey(vs: seq<Violation>, column: string, check: string): Option<Violation> {
    if vs == [] then None
    else if vs[0].column == column && vs[0].check == check then Some(vs[0])
    else FindKey(vs[1..], column, check)
  }

  lemma {:induction false} FindIsFirst(vs: seq<Violation>, v: Violation)
    ensures X.First(vs, v) == if FindKey(vs, v.column, v.check).Some? then FindKey(vs, v.column, v.check).value else v
    ensures v in vs ==> FindKey(vs, v.column, v.check).Some?
  {
    if vs == [] {
    } else {
      FindIsFirst(vs[1..], v);
    }
  }

  lemma {:induction false} FindIsThere(vs: seq<Violation>, column: string, check: string)
    ensures var f := FindKey(vs, column, check); f.Some? ==> f.value in vs && f.value.column == column && f.value.check == check
  {
    if vs == [] {
    } else {
      FindIsThere(vs[1..], column, check);
    }
  }

  lemma {:induction false} FindAppend(a: seq<Violation>, b: seq<Violation>, column: string, check: string)
    ensures FindKey(a + b, column, check) ==
            if FindKey(a, column, check).Some? then FindKey(a, column, check) else FindKey(b, column, check)
  {
    if a == [] {
      assert a + b == b;
    } else {
      assert (a + b)[1..] == a[1..] + b;
      FindAppend(a[1..], b, column, check);
    }
  }

  lemma {:induction false} FindElsewhere(vs: seq<Violation>, column: string, check: string)
    requires forall v :: v in vs ==> v.column != column
    ensures FindKey(vs, column, check) == None
  {
    if vs == [] {
    } else {
      FindElsewhere(vs[1..], column, check);
    }
  }

  /** After the merge a row is marked exactly when the first violation of that name lists it. */
  lemma MarkedByFirst(found: seq<Violation>, row: nat, key: Key)
    ensures var f := FindKey(found, key.column, key.check);
            Marks(X.Merge(found), row, key) <==> f.Some? && f.value.severity == key.severity && row in f.value.rows
  {
    var merged := X.Merge(found);
    EL.MergeKeepsFirsts(found);
    FindIsThere(found, key.column, key.check);
    if Marks(merged, row, key) {
      var j :| 0 <= j < |merged| && KeyOf(merged[j]) == key && row in merged[j].rows;
      assert merged[j] in merged;
      FindIsFirst(found, merged[j]);
    }
    var f := FindKey(found, key.column, key.check);
    if f.Some? && f.value.severity == key.severity && row in f.value.rows {
      FindIsFirst(found, f.value);
      assert f.value in merged;
      var j :| 0 <= j < |merged| && merged[j] == f.value;
    }
  }

  lemma {:induction false} GroupColumn<V>(column: string, checks: seq<Check<V>>)
    ensures forall i :: 0 <= i < |Group(column, checks)| ==> Group(column, checks)[i].column == column
  {
    if checks == [] {
    } else {
      GroupColumn(column, checks[..|checks| - 1]);
    }
  }

  lemma {:induction false} GroupOfAbsent<V>(column: string, checks: seq<Check<V>>)
    requires forall i :: 0 <= i < |checks| ==> checks[i].column != column
    ensures Group(column, checks) == []
  {
    if checks == [] {
    } else {
      GroupOfAbsent(column, checks[..|checks| - 1]);
    }
  }

  lemma {:induction false} RunGroupColumn<V>(group: seq<Check<V>>, vs: seq<V>, column: string)
    requires forall i :: 0 <= i < |group| ==> group[i].column == column
    ensures forall v :: v in RunGroup(group, vs) ==> v.column == column
  {
    if group == [] {
    } else {
      RunGroupColumn(group[1..], vs, column);
    }
  }

  /** A name is found only in the group of its column. */
  lemma {:induction false} FindInGroups<V>(plan: seq<Check<V>>, order: seq<string>, vs: seq<V>, column: string, check: string)
    requires forall i, j :: 0 <= i < j < |order| ==> order[i] != order[j]
    ensures FindKey(RunGroups(plan, order, vs), column, check) ==
            if column in order then FindKey(RunGroup(Group(column, plan), vs), column, check) else None
  {
    if order == [] {
    } else {
      var init, last := order[..|order| - 1], order[|order| - 1];
      assert order == init + [last];
      FindInGroups(plan, init, vs, column, check);
      FindAppend(RunGroups(plan, init, vs), RunGroup(Group(last, plan), vs), column, check);
      if column != last {
        GroupColumn(last, plan);
        RunGroupColumn(Group(last, plan), vs, last);
        FindElsewhere(RunGroup(Group(last, plan), vs), column, check);
      }
    }
  }

  lemma FindInRun<V>(e: Checks<V>, vs: seq<V>, column: string, check: string)
    requires IsOrder(e.order, e.plan)
    ensures FindKey(RunDirect(e.direct, vs) + RunGroups(e.plan, e.order, vs), column, check) ==
            FindKey(RunSources(Sources(e, column), |e.direct|, vs), column, check)
  {
    var group := Group(column, e.plan);
    FindInGroups(e.plan, e.order, vs, column, check);
    if column !in e.order {
      GroupOfAbsent(column, e.plan);
    }
    FindAppend(RunDirect(e.direct, vs), RunGroups(e.plan, e.order, vs), column, check);
    FindAppend(RunDirect(e.direct, vs), RunGroup(group, vs), column, check);
    RunAsSources(e.direct, group, vs);
  }

  lemma HiddenTail<V>(src: seq<Check<V>>, d: nat, column: string, check: string, x: nat, vs: seq<V>)
    requires 0 < x < |src|
    ensures var rest := if d > 0 then d - 1 else 0;
            Hidden(src, d, column, check, x, vs) <==>
            (Hides(src, d, column, check, x, 0) && Fires(src[0], vs)) || Hidden(src[1..], rest, column, check, x - 1, vs)
  {
    var rest := if d > 0 then d - 1 else 0;
    if Hidden(src, d, column, check, x, vs) {
      var j :| 0 <= j < |src| && Hides(src, d, column, check, x, j) && Fires(src[j], vs);
      assert j > 0 ==> Hides(src[1..], rest, column, check, x - 1, j - 1) && src[1..][j - 1] == src[j];
    }
    if Hidden(src[1..], rest, column, check, x - 1, vs) {
      var j :| 0 <= j < |src| - 1 && Hides(src[1..], rest, column, check, x - 1, j) && Fires(src[1..][j], vs);
      assert Hides(src, d, column, check, x, j + 1) && src[j + 1] == src[1..][j];
    }
  }

  lemma SurfacesTail<V>(src: seq<Check<V>>, d: nat, column: string, check: string, x: nat, vs: seq<V>)
    requires 0 < x < |src|
    ensures Surfaces(src, d, column, check, x, vs) <==>
            !(Hides(src, d, column, check, x, 0) && Fires(src[0], vs))
            && Surfaces(src[1..], if d > 0 then d - 1 else 0, column, check, x - 1, vs)
  {
    HiddenTail(src, d, column, check, x, vs);
  }

  /** The run finds the source that surfaces under a name ... */
  lemma {:induction false} SurfacingIsFound<V>(src: seq<Check<V>>, d: nat, column: string, check: string, x: nat, vs: seq<V>)
    requires Surfaces(src, d, column, check, x, vs)
    ensures FindKey(RunSources(src, d, vs), column, check) == Some(ViolationOf(src[x], vs))
  {
    FirstSource(src, d, column, check, vs);
    if x == 0 {
    } else {
      SurfacesTail(src, d, column, check, x, vs);
      SurfacingIsFound(src[1..], if d > 0 then d - 1 else 0, column, check, x - 1, vs);
    }
  }

  /** ... and finds nothing under a name unless one surfaces. */
  lemma {:induction false} FoundSurfaces<V>(src: seq<Check<V>>, d: nat, column: string, check: string, vs: seq<V>) returns (x: nat)
    requires FindKey(RunSources(src, d, vs), column, check).Some?
    ensures Surfaces(src, d, column, check, x, vs)
  {
    FirstSource(src, d, column, check, vs);
    if Fires(src[0], vs) && Concerns(src[0], column, check) {
      x := 0;
    } else {
      x := FoundSurfaces(src[1..], if d > 0 then d - 1 else 0, column, check, vs);
      x := x + 1;
      SurfacesTail(src, d, column, check, x, vs);
    }
  }

  lemma FirstSource<V>(src: seq<Check<V>>, d: nat, column: string, check: string, vs: seq<V>)
    requires src != []
    ensures Surfaces(src, d, column, check, 0, vs) <==> Concerns(src[0], column, check) && Fires(src[0], vs)
    ensures FindKey(RunSources(src, d, vs), column, check) ==
            if !Fires(src[0], vs) then FindKey(RunSources(src[1..], if d > 0 then d - 1 else 0, vs), column, check)
            else if Concerns(src[0], column, check) then Some(ViolationOf(src[0], vs))
            else if d == 0 && src[0].severity == Blocking then None
            else FindKey(RunSources(src[1..], if d > 0 then d - 1 else 0, vs), column, check)
  {
    if Fires(src[0], vs) {
      var tail := if d == 0 && src[0].severity == Blocking then [] else RunSources(src[1..], if d > 0 then d - 1 else 0, vs);
      assert ([ViolationOf(src[0], vs)] + tail)[1..] == tail;
    }
  }

  // ---- Which rows are marked ----

  /** Source `x` carries this key into the report and the row fails it. */
  ghost predicate Marker<V>(e: Checks<V>, vs: seq<V>, row: nat, key: Key, x: nat) {
    var src := Sources(e, key.column);
    && x < |src| && src[x].RowCheck? && src[x].severity == key.severity
    && Concerns(src[x], key.column, key.check)
    && row < |vs| && src[x].fails(vs[row])
    && !Hidden(src, |e.direct|, key.column, key.check, x, vs)
  }

  lemma MarkerSurfaces<V>(e: Checks<V>, vs: seq<V>, row: nat, key: Key, x: nat)
    requires Marker(e, vs, row, key, x)
    ensures Surfaces(Sources(e, key.column), |e.direct|, key.column, key.check, x, vs)
  {
    assert row in FailingRows(Sources(e, key.column)[x], vs);
  }

  /** A batch marks a row exactly when the row fails a check of that name which nothing in the batch hides. */
  lemma MarkedExactly<V>(e: Checks<V>, vs: seq<V>, row: nat, key: Key)
    requires IsOrder(e.order, e.plan)
    ensures Marks(RunChecks(e, vs), row, key) <==> exists x :: Marker(e, vs, row, key, x)
  {
    var src, d := Sources(e, key.column), |e.direct|;
    MarkedByFirst(RunDirect(e.direct, vs) + RunGroups(e.plan, e.order, vs), row, key);
    FindInRun(e, vs, key.column, key.check);
    if Marks(RunChecks(e, vs), row, key) {
      var x := FoundSurfaces(src, d, key.column, key.check, vs);
      SurfacingIsFound(src, d, key.column, key.check, x, vs);
      assert Marker(e, vs, row, key, x);
    }
    if x :| Marker(e, vs, row, key, x) {
      MarkerSurfaces(e, vs, row, key, x);
      SurfacingIsFound(src, d, key.column, key.check, x, vs);
    }
  }

  // ---- Exactly when neighbours do not matter ----

  /** Row `i` fails check `x` of this name. */
  predicate FailsAt<V>(src: seq<Check<V>>, column: string, check: string, x: nat, vs: seq<V>, i: nat) {
    x < |src| && src[x].RowCheck? && Concerns(src[x], column, check) && i < |vs| && src[x].fails(vs[i])
  }

  /** The check that row `i` fails is hidden in the batch exactly when it is hidden from the row alone. */
  ghost predicate UniformAt<V>(e: Checks<V>, column: string, check: string, x: nat, vs: seq<V>, i: nat) {
    var src, d := Sources(e, column), |e.direct|;
    FailsAt(src, column, check, x, vs, i) ==>
      (Hidden(src, d, column, check, x, vs) <==> Hidden(src, d, column, check, x, [vs[i]]))
  }

  ghost predicate Uniform<V(!new)>(e: Checks<V>) {
    forall column, check, x: nat, vs: seq<V>, i: nat :: UniformAt(e, column, check, x, vs, i)
  }

  /** What a value is flagged with when it is alone in its batch. */
  ghost function Flags<V>(e: Checks<V>): (V, Key) -> bool { (v: V, key: Key) => Marks(RunChecks(e, [v]), 0, key) }

  /** Where a check is hidden differently, the batch and the row alone are marked differently. */
  lemma DifferentlyHidden<V>(e: Checks<V>, column: string, check: string, x: nat, vs: seq<V>, i: nat)
    requires IsOrder(e.order, e.plan) && !UniformAt(e, column, check, x, vs, i)
    ensures var key := Key(column, check, Sources(e, column)[x].severity);
            Marks(RunChecks(e, vs), i, key) != Marks(RunChecks(e, [vs[i]]), 0, key)
  {
    var src, d := Sources(e, column), |e.direct|;
    var key := Key(column, check, src[x].severity);
    MarkedExactly(e, vs, i, key);
    MarkedExactly(e, [vs[i]], 0, key);
    if Hidden(src, d, column, check, x, vs) {
      assert Marker(e, [vs[i]], 0, key, x);
      NothingElseMarks(e, vs, i, key, x);
    } else {
      assert Marker(e, vs, i, key, x);
      NothingElseMarksAlone(e, vs, i, key, x);
    }
  }

  lemma FailingHides<V>(src: seq<Check<V>>, d: nat, column: string, check: string, x: nat, y: nat, vs: seq<V>, i: nat)
    requires FailsAt(src, column, check, y, vs, i) && x < |src|
    ensures y < x ==> Hidden(src, d, column, check, x, vs)
  {
    assert i in FailingRows(src[y], vs);
    if y < x {
      assert Hides(src, d, column, check, x, y) && Fires(src[y], vs);
    }
  }

  lemma NothingElseMarks<V>(e: Checks<V>, vs: seq<V>, i: nat, key: Key, x: nat)
    requires i < |vs| && Marker(e, [vs[i]], 0, key, x)
    requires Hidden(Sources(e, key.column), |e.direct|, key.column, key.check, x, vs)
    ensures forall y :: !Marker(e, vs, i, key, y)
  {
    var src, d := Sources(e, key.column), |e.direct|;
    forall y ensures !Marker(e, vs, i, key, y) {
      if Marker(e, vs, i, key, y) {
        FailingHides(src, d, key.column, key.check, y, x, vs, i);
        FailingHides(src, d, key.column, key.check, x, y, [vs[i]], 0);
      }
    }
  }

  lemma NothingElseMarksAlone<V>(e: Checks<V>, vs: seq<V>, i: nat, key: Key, x: nat)
    requires i < |vs| && Marker(e, vs, i, key, x)
    requires Hidden(Sources(e, key.column), |e.direct|, key.column, key.check, x, [vs[i]])
    ensures forall y :: !Marker(e, [vs[i]], 0, key, y)
  {
    var src, d := Sources(e, key.column), |e.direct|;
    forall y ensures !Marker(e, [vs[i]], 0, key, y) {
      if Marker(e, [vs[i]], 0, key, y) {
        FailingHides(src, d, key.column, key.check, y, x, [vs[i]], 0);
        FailingHides(src, d, key.column, key.check, x, y, vs, i);
      }
    }
  }

  /** In a batch over which the checks are uniform, each row is marked as it is marked alone. */
  lemma UniformBatchMarks<V>(e: Checks<V>, vs: seq<V>, i: nat, key: Key)
    requires IsOrder(e.order, e.plan) && i < |vs|
    requires forall x: nat :: UniformAt(e, key.column, key.check, x, vs, i)
    ensures Marks(RunChecks(e, vs), i, key) <==> Flags(e)(vs[i], key)
  {
    MarkedExactly(e, vs, i, key);
    MarkedExactly(e, [vs[i]], 0, key);
    forall x: nat ensures Marker(e, vs, i, key, x) <==> Marker(e, [vs[i]], 0, key, x) {
      assert UniformAt(e, key.column, key.check, x, vs, i);
    }
  }

  /** An engine over uniform checks is row-local ... */
  lemma UniformChecksAreRowLocal<V(!new)>(execute: seq<V> -> Result<seq<Violation>, string>, e: Checks<V>)
    requires Implements(execute, e) && IsOrder(e.order, e.plan) && Uniform(e)
    ensures RowLocal(execute, Flags(e))
  {
    forall vs: seq<V>, i: nat, key | i < |vs|
      ensures Marks(RunChecks(e, vs), i, key) <==> Flags(e)(vs[i], key)
    {
      UniformBatchMarks(e, vs, i, key);
    }
    assert forall vs :: execute(vs) == Ok(RunChecks(e, vs));
  }

  /** ... and no other is, whatever the rows are supposed to be flagged with. */
  lemma OnlyUniformChecksAreRowLocal<V(!new)>(execute: seq<V> -> Result<seq<Violation>, string>, e: Checks<V>, flags: (V, Key) -> bool)
    requires Implements(execute, e) && IsOrder(e.order, e.plan) && RowLocal(execute, flags)
    ensures Uniform(e)
  {
    forall column, check, x: nat, vs: seq<V>, i: nat ensures UniformAt(e, column, check, x, vs, i) {
      if !UniformAt(e, column, check, x, vs, i) {
        DifferentlyHidden(e, column, check, x, vs, i);
        SameFlag(execute, e, flags, vs, i, Key(column, check, Sources(e, column)[x].severity));
      }
    }
  }

  lemma SameFlag<V(!new)>(execute: seq<V> -> Result<seq<Violation>, string>, e: Checks<V>, flags: (V, Key) -> bool,
                          vs: seq<V>, i: nat, key: Key)
    requires Implements(execute, e) && RowLocal(execute, flags) && i < |vs|
    ensures Marks(RunChecks(e, vs), i, key) == Marks(RunChecks(e, [vs[i]]), 0, key)
  {
    var alone := [vs[i]];
    assert execute(vs) == Ok(RunChecks(e, vs)) && execute(alone) == Ok(RunChecks(e, alone));
    assert Marks(execute(vs).value, i, key) <==> flags(vs[i], key);
    assert Marks(execute(alone).value, 0, key) <==> flags(alone[0], key);
  }

  /** A row that fails a Blocking check of the plan cuts off the later check that its neighbour fails. */
  lemma CutOffByNeighbour<V>(e: Checks<V>, column: string, check: string, y: nat, x: nat, u: V, v: V)
    requires |e.direct| <= y < x < |Sources(e, column)|
    requires Sources(e, column)[y].RowCheck? && Sources(e, column)[y].severity == Blocking && Sources(e, column)[y].fails(u)
    requires FailsAt(Sources(e, column), column, check, x, [v], 0)
    ensures Hidden(Sources(e, column), |e.direct|, column, check, x, [v]) || !UniformAt(e, column, check, x, [v, u], 0)
  {
    var src := Sources(e, column);
    assert [v, u][0] == v && [v, u][1] == u;
    assert 1 in FailingRows(src[y], [v, u]);
    assert Hides(src, |e.direct|, column, check, x, y);
  }

  /** A row that fails an earlier check of a name hides the later check of that name that its neighbour fails. */
  lemma HiddenByNeighbour<V>(e: Checks<V>, column: string, check: string, y: nat, x: nat, u: V, v: V)
    requires y < x < |Sources(e, column)|
    requires FailsAt(Sources(e, column), column, check, y, [u], 0) && FailsAt(Sources(e, column), column, check, x, [v], 0)
    ensures Hidden(Sources(e, column), |e.direct|, column, check, x, [v]) || !UniformAt(e, column, check, x, [v, u], 0)
  {
    var src := Sources(e, column);
    assert [v, u][0] == v && [v, u][1] == u;
    assert 1 in FailingRows(src[y], [v, u]);
    assert Hides(src, |e.direct|, column, check, x, y);
  }

  // ---- Conditions to check beforehand ----

  ghost predicate RowsOnly<V>(src: seq<Check<V>>) { forall x :: 0 <= x < |src| ==> src[x].RowCheck? }

  /** No value fails a check that hides the check another value is reported for. */
  ghost predicate PairwiseUniform<V(!new)>(e: Checks<V>) {
    forall column, check, x: nat, v, u ::
      (FailsAt(Sources(e, column), column, check, x, [v], 0)
       && !Hidden(Sources(e, column), |e.direct|, column, check, x, [v])) ==>
        !Hidden(Sources(e, column), |e.direct|, column, check, x, [u])
  }

  /** Among row checks, some row alone hides what the batch hides. */
  lemma HiddenBySomeRow<V>(src: seq<Check<V>>, d: nat, column: string, check: string, x: nat, vs: seq<V>)
    requires RowsOnly(src) && x < |src|
    ensures Hidden(src, d, column, check, x, vs) <==>
            exists i :: 0 <= i < |vs| && Hidden(src, d, column, check, x, [vs[i]])
  {
    if Hidden(src, d, column, check, x, vs) {
      var j :| 0 <= j < |src| && Hides(src, d, column, check, x, j) && Fires(src[j], vs);
      var i := FailingRows(src[j], vs)[0];
      assert i in FailingRows(src[j], vs);
      assert 0 in FailingRows(src[j], [vs[i]]);
    }
    if i :| 0 <= i < |vs| && Hidden(src, d, column, check, x, [vs[i]]) {
      var j :| 0 <= j < |src| && Hides(src, d, column, check, x, j) && Fires(src[j], [vs[i]]);
      assert FailingRows(src[j], [vs[i]])[0] in FailingRows(src[j], [vs[i]]);
      assert i in FailingRows(src[j], vs);
    }
  }

  /** When every check judges rows alone, comparing the values two by two decides. */
  lemma PairsDecide<V(!new)>(e: Checks<V>)
    requires forall column :: RowsOnly(Sources(e, column))
    ensures Uniform(e) <==> PairwiseUniform(e)
  {
    if Uniform(e) {
      forall column, check, x: nat, v, u |
        FailsAt(Sources(e, column), column, check, x, [v], 0)
        && !Hidden(Sources(e, column), |e.direct|, column, check, x, [v])
        ensures !Hidden(Sources(e, column), |e.direct|, column, check, x, [u])
      {
        assert UniformAt(e, column, check, x, [v, u], 0);
        HiddenBySomeRow(Sources(e, column), |e.direct|, column, check, x, [v, u]);
        assert [v, u][0] == v && [v, u][1] == u;
      }
    }
    if PairwiseUniform(e) {
      forall column, check, x: nat, vs: seq<V>, i: nat ensures UniformAt(e, column, check, x, vs, i) {
        if FailsAt(Sources(e, column), column, check, x, vs, i) {
          HiddenBySomeRow(Sources(e, column), |e.direct|, column, check, x, vs);
          assert FailsAt(Sources(e, column), column, check, x, [vs[i]], 0);
        }
      }
    }
  }

  /** No row check follows a check of its name, or a Blocking check of its column in the plan. */
  ghost predicate NothingHides<V>(e: Checks<V>) {
    forall column, check, x: nat, j: nat ::
      (x < |Sources(e, column)| && Sources(e, column)[x].RowCheck? && Concerns(Sources(e, column)[x], column, check)) ==>
        !Hides(Sources(e, column), |e.direct|, column, check, x, j)
  }

  lemma NothingHiddenIsUniform<V(!new)>(e: Checks<V>)
    requires NothingHides(e)
    ensures Uniform(e)
  {
    forall column, check, x: nat, vs: seq<V>, i: nat ensures UniformAt(e, column, check, x, vs, i) {
    }
  }
}
