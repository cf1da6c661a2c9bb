/** Replaying a Delta transaction log and travelling in time (crates/statguardian-io/src/delta.rs). */
module DeltaLog {
  import opened Sequences
  import S = StableSort

  /** A line of a commit: what it adds and removes, and the commit time when it carries one. */
  datatype Line = Blank | Unreadable | Action(add: Option<string>, remove: Option<string>, time: Option<int>)

  /** A commit file; `lines` is what it holds, if it can be read. */
  datatype Commit = Commit(version: nat, readable: bool, lines: seq<Line>)

  /** What a line does to the table; when it holds both, the file is added first. */
  datatype Op = Add(path: string) | Remove(path: string)

  function OpsOfLine(line: Line): seq<Op> {
    if !line.Action? then []
    else
      (if line.add.Some? then [Add(line.add.value)] else [])
      + (if line.remove.Some? then [Remove(line.remove.value)] else [])
  }

  function OpsOfLines(lines: seq<Line>): seq<Op> {
    if lines == [] then [] else OpsOfLines(lines[..|lines| - 1]) + OpsOfLine(lines[|lines| - 1])
  }

  function OpsOf(commits: seq<Commit>): seq<Op> {
    if commits == [] then [] else OpsOf(commits[..|commits| - 1]) + OpsOfLines(commits[|commits| - 1].lines)
  }

  /** Active paths with the files they resolve to. */
  type Active = map<string, string>

  function Step(resolve: string -> string, active: Active, op: Op): Active {
    match op
    case Add(path) => active[path := resolve(path)]
    case Remove(path) => active - {path}
  }

  /** The operations replayed on a snapshot. */
  function Replay(resolve: string -> string, start: Active, ops: seq<Op>): Active {
    if ops == [] then start else Step(resolve, Replay(resolve, start, ops[..|ops| - 1]), ops[|ops| - 1])
  }

  function VersionLe(): (Commit, Commit) -> bool { (a: Commit, b: Commit) => a.version <= b.version }

  lemma VersionLeIsAnOrder()
    ensures S.TotalPreorder(VersionLe())
  {
  }

  predicate InLimit(limit: Option<nat>, version: nat) { limit.Some? ==> version <= limit.value }

  function When(condition: bool, c: Commit): seq<Commit> { if condition then [c] else [] }

  function UpTo(commits: seq<Commit>, limit: Option<nat>): seq<Commit> {
    if commits == [] then []
    else
      var last := commits[|commits| - 1];
      UpTo(commits[..|commits| - 1], limit) + When(InLimit(limit, last.version), last)
  }

  /** The operations that build a snapshot: the commits of the directory, oldest version first, up to the limit. */
  function History(dir: seq<Commit>, limit: Option<nat>): seq<Op> { OpsOf(UpTo(S.Sort(VersionLe(), dir), limit)) }

  function Snapshot(resolve: string -> string, dir: seq<Commit>, limit: Option<nat>): Active {
    Replay(resolve, map[], History(dir, limit))
  }

  // ---- The replay loops ----

  method Retain(commits: seq<Commit>, limit: Option<nat>) returns (kept: seq<Commit>)
    ensures kept == UpTo(commits, limit)
  {
    kept := [];
    for i := 0 to |commits|
      invariant kept == UpTo(commits[..i], limit)
    {
      assert commits[..i + 1][..i] == commits[..i];
      if InLimit(limit, commits[i].version) { kept := kept + [commits[i]]; }
    }
    assert commits[..|commits|] == commits;
  }

  method ApplyLine(resolve: string -> string, before: Active, line: Line) returns (active: Active)
    ensures active == Replay(resolve, before, OpsOfLine(line))
  {
    active := before;
    if line.Action? {
      if line.add.Some? { active := active[line.add.value := resolve(line.add.value)]; }
      if line.remove.Some? { active := active - {line.remove.value}; }
      ghost var adds := if line.add.Some? then [Add(line.add.value)] else [];
      ghost var removes := if line.remove.Some? then [Remove(line.remove.value)] else [];
      ReplayAppend(resolve, before, adds, removes);
    }
  }

  method ApplyCommit(resolve: string -> string, before: Active, lines: seq<Line>) returns (active: Active)
    ensures active == Replay(resolve, before, OpsOfLines(lines))
  {
    active := before;
    for i := 0 to |lines|
      invariant active == Replay(resolve, before, OpsOfLines(lines[..i]))
    {
      assert lines[..i + 1][..i] == lines[..i];
      ReplayAppend(resolve, before, OpsOfLines(lines[..i]), OpsOfLine(lines[i]));
      active := ApplyLine(resolve, active, lines[i]);
    }
    assert lines[..|lines|] == lines;
  }

  /** Every commit file up to the limit can be read. */
  ghost predicate Readable(dir: seq<Commit>, limit: Option<nat>) {
    forall c :: c in dir && InLimit(limit, c.version) ==> c.readable
  }

  /** The active files; a commit file that cannot be read is an error, unless it is past the limit. */
  method ResolveActiveFiles(resolve: string -> string, dir: seq<Commit>, limit: Option<nat>) returns (r: Result<Active, string>)
    ensures r.Ok? <==> Readable(dir, limit)
    ensures r.Ok? ==> r.value == Snapshot(resolve, dir, limit)
  {
    var commits := Retain(S.Sort(VersionLe(), dir), limit);
    forall c ensures c in commits <==> c in dir && InLimit(limit, c.version) {
      UpToMember(S.Sort(VersionLe(), dir), limit, c);
    }
    r := ReplayCommits(resolve, commits);
    assert forall k :: 0 <= k < |commits| ==> commits[k] in commits;
  }

  method ReplayCommits(resolve: string -> string, commits: seq<Commit>) returns (r: Result<Active, string>)
    ensures r.Ok? <==> forall k :: 0 <= k < |commits| ==> commits[k].readable
    ensures r.Ok? ==> r.value == Replay(resolve, map[], OpsOf(commits))
  {
    var active: Active := map[];
    for i := 0 to |commits|
      invariant active == Replay(resolve, map[], OpsOf(commits[..i]))
      invariant forall k :: 0 <= k < i ==> commits[k].readable
    {
      if !commits[i].readable { return Err("cannot read a commit file"); }
      ReplayNext(resolve, commits, i);
      active := ApplyCommit(resolve, active, commits[i].lines);
    }
    assert commits[..|commits|] == commits;
    r := Ok(active);
  }

  lemma ReplayNext(resolve: string -> string, commits: seq<Commit>, i: nat)
    requires i < |commits|
    ensures Replay(resolve, map[], OpsOf(commits[..i + 1])) ==
            Replay(resolve, Replay(resolve, map[], OpsOf(commits[..i])), OpsOfLines(commits[i].lines))
  {
    OpsOfNext(commits, i);
    ReplayAppend(resolve, map[], OpsOf(commits[..i]), OpsOfLines(commits[i].lines));
  }

  lemma OpsOfNext(commits: seq<Commit>, i: nat)
    requires i < |commits|
    ensures OpsOf(commits[..i + 1]) == OpsOf(commits[..i]) + OpsOfLines(commits[i].lines)
  {
    assert commits[..i + 1][..i] == commits[..i];
  }

  lemma {:induction false} UpToMember(commits: seq<Commit>, limit: Option<nat>, c: Commit)
    ensures c in UpTo(commits, limit) <==> c in commits && InLimit(limit, c.version)
  {
    if commits == [] {
    } else {
      var init := commits[..|commits| - 1];
      assert commits == init + [commits[|commits| - 1]];
      UpToMember(init, limit, c);
    }
  }

  /** Reading a version fails when the table has no log, no readable log up to the version, or no active file. */
  method ReadVersion(resolve: string -> string, log: Option<seq<Commit>>, version: Option<nat>) returns (r: Result<Active, string>)
    ensures r.Ok? <==> log.Some? && Readable(log.value, version) && Snapshot(resolve, log.value, version) != map[]
    ensures r.Ok? ==> r.value == Snapshot(resolve, log.value, version)
  {
    if log.None? { return Err("no _delta_log directory found"); }
    r := ResolveActiveFiles(resolve, log.value, version);
    if r.Ok? && r.value == map[] { return Err("Delta table has no active data files"); }
  }

  lemma {:induction false} ReplayAppend(resolve: string -> string, start: Active, a: seq<Op>, b: seq<Op>)
    ensures Replay(resolve, start, a + b) == Replay(resolve, Replay(resolve, start, a), b)
  {
    if b == [] {
      assert a + b == a;
    } else {
      assert (a + b)[..|a + b| - 1] == a + b[..|b| - 1];
      ReplayAppend(resolve, start, a, b[..|b| - 1]);
    }
  }

  // ---- Which paths are active ----

  /** The last operation that names the path is an add. */
  ghost predicate LastNamedByAdd(ops: seq<Op>, path: string) {
    exists i :: 0 <= i < |ops| && ops[i] == Add(path) && forall j :: i < j < |ops| ==> ops[j].path != path
  }

  ghost predicate NeverNamed(ops: seq<Op>, path: string) { forall i :: 0 <= i < |ops| ==> ops[i].path != path }

  /** A path is active exactly when the last operation naming it added it, or none named it and it was active before. */
  lemma {:induction false} ActiveExactly(resolve: string -> string, start: Active, ops: seq<Op>, path: string)
    ensures path in Replay(resolve, start, ops) <==>
            LastNamedByAdd(ops, path) || (NeverNamed(ops, path) && path in start)
  {
    if ops == [] {
    } else {
      var init, last := ops[..|ops| - 1], ops[|ops| - 1];
      ActiveExactly(resolve, start, init, path);
      LastOperationNames(init, last, path);
      assert ops == init + [last];
    }
  }

  /** Active paths resolve to their files, if those that were active before do. */
  lemma {:induction false} ActiveResolves(resolve: string -> string, start: Active, ops: seq<Op>, path: string)
    requires path in start ==> start[path] == resolve(path)
    ensures path in Replay(resolve, start, ops) ==> Replay(resolve, start, ops)[path] == resolve(path)
  {
    if ops == [] {
    } else {
      ActiveResolves(resolve, start, ops[..|ops| - 1], path);
    }
  }

  lemma LastOperationNames(init: seq<Op>, last: Op, path: string)
    ensures LastNamedByAdd(init + [last], path) <==> if last.path == path then last.Add? else LastNamedByAdd(init, path)
    ensures NeverNamed(init + [last], path) <==> last.path != path && NeverNamed(init, path)
  {
    if last.path == path {
      assert (init + [last])[|init|] == last;
    } else {
      OtherPathsKeepTheirLast(init, last, path);
    }
  }

  lemma OtherPathsKeepTheirLast(init: seq<Op>, last: Op, path: string)
    requires last.path != path
    ensures LastNamedByAdd(init + [last], path) == LastNamedByAdd(init, path)
    ensures NeverNamed(init + [last], path) == NeverNamed(init, path)
  {
    var ops := init + [last];
    if LastNamedByAdd(init, path) {
      var i :| 0 <= i < |init| && init[i] == Add(path) && forall j :: i < j < |init| ==> init[j].path != path;
      assert ops[i] == Add(path);
    }
    if LastNamedByAdd(ops, path) {
      var i :| 0 <= i < |ops| && ops[i] == Add(path) && forall j :: i < j < |ops| ==> ops[j].path != path;
      assert init[i] == Add(path);
      assert forall j :: i < j < |init| ==> init[j] == ops[j];
    }
    assert forall j :: 0 <= j < |init| ==> ops[j] == init[j];
  }

  /** In a snapshot: the last operation up to the version decides, and every active path resolves to its file. */
  lemma SnapshotExactly(resolve: string -> string, dir: seq<Commit>, limit: Option<nat>, path: string)
    ensures path in Snapshot(resolve, dir, limit) <==> LastNamedByAdd(History(dir, limit), path)
    ensures path in Snapshot(resolve, dir, limit) ==> Snapshot(resolve, dir, limit)[path] == resolve(path)
  {
    ActiveExactly(resolve, map[], History(dir, limit), path);
    ActiveResolves(resolve, map[], History(dir, limit), path);
  }

  // ---- Composition ----

  /** The commits after version `v`, up to the limit. */
  function After(commits: seq<Commit>, v: nat): seq<Commit> {
    if commits == [] then []
    else
      var last := commits[|commits| - 1];
      After(commits[..|commits| - 1], v) + When(last.version > v, last)
  }

  lemma {:induction false} SplitAtVersion(commits: seq<Commit>, v: nat, limit: Option<nat>)
    requires S.Sorted(VersionLe(), commits) && InLimit(limit, v)
    ensures UpTo(commits, limit) == UpTo(commits, Some(v)) + After(UpTo(commits, limit), v)
  {
    if commits == [] {
    } else {
      var init, last := commits[..|commits| - 1], commits[|commits| - 1];
      assert commits == init + [last];
      SortedInit(init, last);
      SplitAtVersion(init, v, limit);
      if last.version <= v {
        NothingAfter(init, v, last, limit);
      }
      SplitOneMore(init, last, v, limit);
    }
  }

  lemma SortedInit(init: seq<Commit>, last: Commit)
    requires S.Sorted(VersionLe(), init + [last])
    ensures S.Sorted(VersionLe(), init) && forall i :: 0 <= i < |init| ==> VersionLe()(init[i], last)
  {
    var all := init + [last];
    assert forall i :: 0 <= i < |init| ==> all[i] == init[i];
    forall i | 0 <= i < |init| ensures VersionLe()(init[i], last) {
      assert VersionLe()(all[i], all[|init|]);
    }
    forall i, j | 0 <= i < j < |init| ensures VersionLe()(init[i], init[j]) {
      assert VersionLe()(all[i], all[j]);
    }
  }

  lemma SplitOneMore(init: seq<Commit>, last: Commit, v: nat, limit: Option<nat>)
    requires InLimit(limit, v)
    requires UpTo(init, limit) == UpTo(init, Some(v)) + After(UpTo(init, limit), v)
    requires last.version <= v ==> After(UpTo(init, limit), v) == []
    ensures UpTo(init + [last], limit) == UpTo(init + [last], Some(v)) + After(UpTo(init + [last], limit), v)
  {
    var before, after := UpTo(init, Some(v)), After(UpTo(init, limit), v);
    UpToOneMore(init, last, limit);
    UpToOneMore(init, last, Some(v));
    AfterOneMore(UpTo(init, limit), last, v);
    Sides(before, after, last, last.version <= v, InLimit(limit, last.version));
  }

  lemma Sides(before: seq<Commit>, after: seq<Commit>, last: Commit, early: bool, kept: bool)
    requires early ==> kept && after == []
    ensures (before + after) + When(kept, last) == (before + When(early, last)) + (after + When(kept && !early, last))
  {
  }

  lemma UpToOneMore(commits: seq<Commit>, last: Commit, limit: Option<nat>)
    ensures UpTo(commits + [last], limit) == UpTo(commits, limit) + When(InLimit(limit, last.version), last)
  {
  }

  lemma AfterOneMore(commits: seq<Commit>, last: Commit, v: nat)
    ensures After(commits + [last], v) == After(commits, v) + When(last.version > v, last)
    ensures After(commits + [], v) == After(commits, v)
  {
    assert (commits + [last])[..|commits|] == commits;
    assert commits + [] == commits;
  }

  lemma {:induction false} NothingAfter(commits: seq<Commit>, v: nat, last: Commit, limit: Option<nat>)
    requires last.version <= v && forall i :: 0 <= i < |commits| ==> VersionLe()(commits[i], last)
    ensures After(UpTo(commits, limit), v) == []
  {
    if commits == [] {
    } else {
      var init := commits[..|commits| - 1];
      NothingAfter(init, v, last, limit);
      AfterOneMore(UpTo(init, limit), commits[|commits| - 1], v);
      assert VersionLe()(commits[|commits| - 1], last);
    }
  }

  lemma {:induction false} OpsAppend(a: seq<Commit>, b: seq<Commit>)
    ensures OpsOf(a + b) == OpsOf(a) + OpsOf(b)
  {
    if b == [] {
      assert a + b == a;
    } else {
      var init, last := b[..|b| - 1], b[|b| - 1];
      assert (a + b)[..|a + b| - 1] == a + init;
      OpsAppend(a, init);
      Regroup(OpsOf(a), OpsOf(init), OpsOfLines(last.lines));
    }
  }

  /** A later snapshot is the commits in between replayed on the earlier one. */
  lemma SnapshotsCompose(resolve: string -> string, dir: seq<Commit>, v: nat, limit: Option<nat>)
    requires InLimit(limit, v)
    ensures Snapshot(resolve, dir, limit) ==
            Replay(resolve, Snapshot(resolve, dir, Some(v)), OpsOf(After(UpTo(S.Sort(VersionLe(), dir), limit), v)))
  {
    var commits := S.Sort(VersionLe(), dir);
    VersionLeIsAnOrder();
    S.SortIsStable(VersionLe(), dir);
    SplitAtVersion(commits, v, limit);
    var between := After(UpTo(commits, limit), v);
    OpsAppend(UpTo(commits, Some(v)), between);
    ReplayAppend(resolve, map[], OpsOf(UpTo(commits, Some(v))), OpsOf(between));
  }

  // ---- The order of the directory ----

  predicate DistinctVersions(dir: seq<Commit>) { forall i, j :: 0 <= i < j < |dir| ==> dir[i].version != dir[j].version }

  lemma {:induction false} ClassIsAtMostOne(x: Commit, dir: seq<Commit>)
    requires DistinctVersions(dir)
    ensures |S.Class(VersionLe(), x, dir)| <= 1
  {
    if dir == [] {
    } else {
      ClassIsAtMostOne(x, dir[1..]);
      var rest := S.Class(VersionLe(), x, dir[1..]);
      if S.Equivalent(VersionLe(), x, dir[0]) && rest != [] {
        S.ClassMember(VersionLe(), x, dir[1..], rest[0]);
        assert false;
      }
    }
  }

  /** With distinct versions the order in which the directory is read makes no difference. */
  lemma DirectoryOrderIsIrrelevant(resolve: string -> string, a: seq<Commit>, b: seq<Commit>, limit: Option<nat>)
    requires DistinctVersions(a) && DistinctVersions(b) && forall c :: c in a <==> c in b
    ensures Snapshot(resolve, a, limit) == Snapshot(resolve, b, limit)
  {
    VersionLeIsAnOrder();
    forall x: Commit ensures S.Class(VersionLe(), x, a) == S.Class(VersionLe(), x, b) {
      SameClass(x, a, b);
    }
    S.SortDependsOnClasses(VersionLe(), a, b);
  }

  lemma SameClass(x: Commit, a: seq<Commit>, b: seq<Commit>)
    requires DistinctVersions(a) && DistinctVersions(b) && forall c :: c in a <==> c in b
    ensures S.Class(VersionLe(), x, a) == S.Class(VersionLe(), x, b)
  {
    var p, q := S.Class(VersionLe(), x, a), S.Class(VersionLe(), x, b);
    ClassIsAtMostOne(x, a);
    ClassIsAtMostOne(x, b);
    if p != [] {
      S.ClassMember(VersionLe(), x, a, p[0]);
      S.ClassMember(VersionLe(), x, b, p[0]);
    }
    if q != [] {
      S.ClassMember(VersionLe(), x, b, q[0]);
      S.ClassMember(VersionLe(), x, a, q[0]);
    }
  }

  /** Two file names for one version, such as 1.json and 01.json, make the snapshot depend on that order. */
  lemma EqualVersionsDependOnTheOrder(resolve: string -> string)
    ensures var add := Commit(1, true, [Action(Some("f"), None, None)]);
            var remove := Commit(1, true, [Action(None, Some("f"), None)]);
            Snapshot(resolve, [add, remove], None) == map[] && Snapshot(resolve, [remove, add], None) != map[]
  {
    var add := Commit(1, true, [Action(Some("f"), None, None)]);
    var remove := Commit(1, true, [Action(None, Some("f"), None)]);
    TwoCommits(add, remove);
    TwoCommits(remove, add);
    OneLine(add.lines[0]);
    OneLine(remove.lines[0]);
    assert OpsOfLine(add.lines[0]) == [Add("f")];
    assert OpsOfLine(remove.lines[0]) == [Remove("f")];
    AddThenRemove(resolve, "f");
  }

  lemma AddThenRemove(resolve: string -> string, path: string)
    ensures Replay(resolve, map[], [Add(path)] + [Remove(path)]) == map[]
    ensures Replay(resolve, map[], [Remove(path)] + [Add(path)]) != map[]
  {
    OneOp(resolve, map[], Add(path));
    OneOp(resolve, Step(resolve, map[], Add(path)), Remove(path));
    ReplayAppend(resolve, map[], [Add(path)], [Remove(path)]);
    OneOp(resolve, map[], Remove(path));
    OneOp(resolve, Step(resolve, map[], Remove(path)), Add(path));
    ReplayAppend(resolve, map[], [Remove(path)], [Add(path)]);
    assert path in Replay(resolve, map[], [Remove(path)] + [Add(path)]);
  }

  lemma OneOp(resolve: string -> string, start: Active, op: Op)
    ensures Replay(resolve, start, [op]) == Step(resolve, start, op)
  {
  }

  lemma OneLine(line: Line)
    ensures OpsOfLines([line]) == OpsOfLine(line)
  {
  }

  lemma TwoCommits(a: Commit, b: Commit)
    requires a.version == b.version
    ensures History([a, b], None) == OpsOfLines(a.lines) + OpsOfLines(b.lines)
  {
    var two := [a, b];
    VersionLeIsAnOrder();
    S.SortOfSorted(VersionLe(), two);
    OneCommit(a);
    assert two[..1] == [a];
    assert UpTo(two, None) == UpTo([a], None) + [b] == two;
    assert OpsOf(two) == OpsOf([a]) + OpsOfLines(b.lines);
  }

  lemma OneCommit(a: Commit)
    ensures UpTo([a], None) == [a] && OpsOf([a]) == OpsOfLines(a.lines)
  {
  }

  // ---- Time travel by timestamp ----

  /** The first time a line of the commit carries. */
  function CommitTime(lines: seq<Line>): Option<int> {
    if lines == [] then None
    else if lines[0].Action? && lines[0].time.Some? then lines[0].time
    else CommitTime(lines[1..])
  }

  /** A commit file that cannot be read has no time. */
  function TimeOf(c: Commit): Option<int> { if c.readable then CommitTime(c.lines) else None }

  predicate Later(c: Commit, time: int) { var t := TimeOf(c); t.Some? && t.value > time }

  /** How many commits come before the first one that is later than the requested time. */
  function NotLater(commits: seq<Commit>, time: int): (n: nat)
    ensures n <= |commits|
    ensures forall i :: 0 <= i < n ==> !Later(commits[i], time)
    ensures n < |commits| ==> Later(commits[n], time)
  {
    if commits == [] || Later(commits[0], time) then 0 else 1 + NotLater(commits[1..], time)
  }

  function VersionAsOf(dir: seq<Commit>, time: int): nat {
    var commits := S.Sort(VersionLe(), dir);
    var n := NotLater(commits, time);
    if n == 0 then 0 else commits[n - 1].version
  }

  method FindVersionForTimestamp(dir: seq<Commit>, time: int) returns (best: nat)
    ensures best == VersionAsOf(dir, time)
  {
    var commits := S.Sort(VersionLe(), dir);
    best := 0;
    for i := 0 to |commits|
      invariant forall j :: 0 <= j < i ==> !Later(commits[j], time)
      invariant best == if i == 0 then 0 else commits[i - 1].version
    {
      var t := TimeOf(commits[i]);
      if t.Some? && t.value > time {
        FirstLater(commits, time, i);
        return;
      }
      best := commits[i].version;
    }
    FirstLater(commits, time, |commits|);
  }

  lemma FirstLater(commits: seq<Commit>, time: int, n: nat)
    requires n <= |commits| && forall j :: 0 <= j < n ==> !Later(commits[j], time)
    requires n < |commits| ==> Later(commits[n], time)
    ensures NotLater(commits, time) == n
  {
  }

  /** In the order of the versions, once a commit is later than the time all following ones are. */
  ghost predicate OnceLater(dir: seq<Commit>, time: int) {
    forall a, b :: a in dir && b in dir && a.version <= b.version && Later(a, time) ==> Later(b, time)
  }

  ghost predicate VersionsAscend(commits: seq<Commit>) {
    forall i, j :: 0 <= i <= j < |commits| ==> commits[i].version <= commits[j].version
  }

  /** Then the found version divides the commits: those up to it are not later, those after it are. */
  lemma AsOfDividesTheLog(dir: seq<Commit>, time: int, c: Commit)
    requires OnceLater(dir, time) && c in dir && !Later(S.Sort(VersionLe(), dir)[0], time)
    ensures Later(c, time) <==> c.version > VersionAsOf(dir, time)
  {
    var commits := S.Sort(VersionLe(), dir);
    SortedVersions(dir);
    LaterMembers(dir, commits, time);
    DividedIn(commits, time, c);
  }

  lemma LaterMembers(dir: seq<Commit>, commits: seq<Commit>, time: int)
    requires OnceLater(dir, time) && forall c :: c in commits ==> c in dir
    ensures OnceLater(commits, time)
  {
  }

  lemma DividedIn(commits: seq<Commit>, time: int, c: Commit)
    requires VersionsAscend(commits) && OnceLater(commits, time) && c in commits && !Later(commits[0], time)
    ensures var n := NotLater(commits, time);
            n > 0 && (Later(c, time) <==> c.version > commits[n - 1].version)
  {
    var n := NotLater(commits, time);
    var i: nat :| i < |commits| && commits[i] == c;
    if i < n {
      assert commits[i].version <= commits[n - 1].version;
    } else {
      assert commits[n].version <= commits[i].version;
    }
  }

  lemma SortedVersions(dir: seq<Commit>)
    ensures VersionsAscend(S.Sort(VersionLe(), dir))
  {
    VersionLeIsAnOrder();
    S.SortIsStable(VersionLe(), dir);
    AscendIfSorted(S.Sort(VersionLe(), dir));
  }

  lemma AscendIfSorted(commits: seq<Commit>)
    requires S.Sorted(VersionLe(), commits)
    ensures VersionsAscend(commits)
  {
    forall i, j | 0 <= i < j < |commits| ensures commits[i].version <= commits[j].version {
      assert VersionLe()(commits[i], commits[j]);
    }
  }

  /** The version found is one that had been committed by the time exactly when the oldest commit is not later. */
  lemma AsOfWasCommittedExactly(dir: seq<Commit>, time: int)
    requires DistinctVersions(dir)
    ensures var commits := S.Sort(VersionLe(), dir);
            (exists c :: c in dir && c.version == VersionAsOf(dir, time) && !Later(c, time)) <==>
            dir != [] && !Later(commits[0], time)
  {
    var commits := S.Sort(VersionLe(), dir);
    var n := NotLater(commits, time);
    if n > 0 {
      assert commits[n - 1] in dir && !Later(commits[n - 1], time);
    } else {
      forall c | c in dir && c.version == 0 ensures Later(c, time) {
        OldestIsLeast(dir, c);
      }
    }
  }

  lemma OldestIsLeast(dir: seq<Commit>, c: Commit)
    requires DistinctVersions(dir) && c in dir
    ensures var commits := S.Sort(VersionLe(), dir);
            commits[0].version <= c.version && (commits[0].version == c.version ==> commits[0] == c)
  {
  }

  // ---- What the timestamp search compares ----

  /** The first line of the commit file that carries a time carries one after the requested time. */
  ghost predicate CommittedAfter(c: Commit, time: int) {
    c.readable && exists i :: 0 <= i < |c.lines| && Timed(c.lines[i]) && c.lines[i].time.value > time
                              && forall j :: 0 <= j < i ==> !Timed(c.lines[j])
  }

  predicate Timed(line: Line) { line.Action? && line.time.Some? }

  lemma {:induction false} CommitTimeIsFirst(lines: seq<Line>, time: int)
    ensures CommitTime(lines) == Some(time) <==>
            exists i :: 0 <= i < |lines| && Timed(lines[i]) && lines[i].time.value == time && forall j :: 0 <= j < i ==> !Timed(lines[j])
  {
    if lines == [] {
    } else if Timed(lines[0]) {
      assert CommitTime(lines) == lines[0].time;
    } else {
      var rest := lines[1..];
      CommitTimeIsFirst(rest, time);
      if i :| 0 <= i < |rest| && Timed(rest[i]) && rest[i].time.value == time && forall j :: 0 <= j < i ==> !Timed(rest[j]) {
        assert lines[i + 1] == rest[i] && forall j :: 0 < j < i + 1 ==> lines[j] == rest[j - 1];
      }
      if i :| 0 <= i < |lines| && Timed(lines[i]) && lines[i].time.value == time && forall j :: 0 <= j < i ==> !Timed(lines[j]) {
        assert rest[i - 1] == lines[i] && forall j :: 0 <= j < i - 1 ==> rest[j] == lines[j + 1];
      }
    }
  }

  lemma LaterMeans(c: Commit, time: int)
    ensures Later(c, time) <==> CommittedAfter(c, time)
  {
    if c.readable && CommitTime(c.lines).Some? {
      CommitTimeIsFirst(c.lines, CommitTime(c.lines).value);
    }
    if i :| 0 <= i < |c.lines| && Timed(c.lines[i]) && c.lines[i].time.value > time && forall j :: 0 <= j < i ==> !Timed(c.lines[j]) {
      CommitTimeIsFirst(c.lines, c.lines[i].time.value);
    }
  }

  /** The first `n` commits were not committed after the time, and the next, if there is one, was. */
  ghost predicate FirstAfterIs(commits: seq<Commit>, time: int, n: nat) {
    && n <= |commits| && (forall i :: 0 <= i < n ==> !CommittedAfter(commits[i], time))
    && (n < |commits| ==> CommittedAfter(commits[n], time))
  }

  /** The search walks the commits by version up to the first committed after the time, and finds the version before it, or 0. */
  lemma FoundVersionMeans(dir: seq<Commit>, time: int, n: nat)
    requires FirstAfterIs(S.Sort(VersionLe(), dir), time, n)
    ensures VersionAsOf(dir, time) == if n == 0 then 0 else S.Sort(VersionLe(), dir)[n - 1].version
  {
    FirstAfter(S.Sort(VersionLe(), dir), time, n);
  }

  lemma FirstAfter(commits: seq<Commit>, time: int, n: nat)
    requires FirstAfterIs(commits, time, n)
    ensures NotLater(commits, time) == n
  {
    forall i | 0 <= i < |commits| ensures Later(commits[i], time) <==> CommittedAfter(commits[i], time) {
      LaterMeans(commits[i], time);
    }
    FirstLater(commits, time, n);
  }

  // ---- Actions in turn ----

  function Added(resolve: string -> string, active: Active, path: Option<string>): Active {
    if path.Some? then active[path.value := resolve(path.value)] else active
  }

  function Removed(active: Active, path: Option<string>): Active {
    if path.Some? then map other | other in active && other != path.value :: active[other] else active
  }

  lemma AddApplies(resolve: string -> string, active: Active, path: Option<string>)
    ensures Replay(resolve, active, if path.Some? then [Add(path.value)] else []) == Added(resolve, active, path)
  {
    if path.Some? {
      OneOp(resolve, active, Add(path.value));
    }
  }

  lemma RemoveApplies(resolve: string -> string, active: Active, path: Option<string>)
    ensures Replay(resolve, active, if path.Some? then [Remove(path.value)] else []) == Removed(active, path)
  {
    if path.Some? {
      OneOp(resolve, active, Remove(path.value));
    }
  }

  /** A line adds its file, under the name it resolves to, and then removes its other one; a line without an action does nothing. */
  lemma ActionApplies(resolve: string -> string, active: Active, line: Line)
    ensures Replay(resolve, active, OpsOfLine(line)) ==
            if line.Action? then Removed(Added(resolve, active, line.add), line.remove) else active
  {
    if line.Action? {
      AddApplies(resolve, active, line.add);
      RemoveApplies(resolve, Added(resolve, active, line.add), line.remove);
      ReplayAppend(resolve, active, if line.add.Some? then [Add(line.add.value)] else [],
                   if line.remove.Some? then [Remove(line.remove.value)] else []);
    }
  }

  /** Lines apply one after the other, and so do commits. */
  lemma LinesApplyInTurn(resolve: string -> string, active: Active, lines: seq<Line>, line: Line)
    ensures Replay(resolve, active, OpsOfLines([])) == active
    ensures Replay(resolve, active, OpsOfLines(lines + [line])) ==
            Replay(resolve, Replay(resolve, active, OpsOfLines(lines)), OpsOfLine(line))
  {
    assert (lines + [line])[..|lines|] == lines;
    ReplayAppend(resolve, active, OpsOfLines(lines), OpsOfLine(line));
  }

  lemma CommitsApplyInTurn(resolve: string -> string, active: Active, commits: seq<Commit>, c: Commit)
    ensures Replay(resolve, active, OpsOf([])) == active
    ensures Replay(resolve, active, OpsOf(commits + [c])) ==
            Replay(resolve, Replay(resolve, active, OpsOf(commits)), OpsOfLines(c.lines))
  {
    assert (commits + [c])[..|commits|] == commits;
    ReplayAppend(resolve, active, OpsOf(commits), OpsOfLines(c.lines));
  }
}
