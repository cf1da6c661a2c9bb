/**
 * When the order in which the log directory is listed makes no difference to a snapshot
 * (crates/statguardian-io/src/delta.rs): commits of different versions are sorted, commits of one
 * version stay as they were listed.
 */
module DeltaOrder {
  import opened Sequences
  import opened DeltaLog
  import S = StableSort

  /** What operations do to a path in the end: nothing, add it, or remove it. */
  function Effect(ops: seq<Op>, path: string): Option<bool> {
    if ops == [] then None
    else if ops[|ops| - 1].path == path then Some(ops[|ops| - 1].Add?)
    else Effect(ops[..|ops| - 1], path)
  }

  function EffectOf(c: Commit, path: string): Option<bool> { Effect(OpsOfLines(c.lines), path) }

  lemma {:induction false} EffectDecides(resolve: string -> string, ops: seq<Op>, path: string)
    ensures path in Replay(resolve, map[], ops) <==> Effect(ops, path) == Some(true)
  {
    if ops == [] {
    } else {
      EffectDecides(resolve, ops[..|ops| - 1], path);
    }
  }

  lemma {:induction false} EffectAppend(a: seq<Op>, b: seq<Op>, path: string)
    ensures Effect(a + b, path) == if Effect(b, path).Some? then Effect(b, path) else Effect(a, path)
  {
    if b == [] {
      assert a + b == a;
    } else {
      assert (a + b)[..|a + b| - 1] == a + b[..|b| - 1];
      EffectAppend(a, b[..|b| - 1], path);
    }
  }

  /** Commits of one version that touch the same path do the same to it. */
  ghost predicate Agree(a: Commit, b: Commit) {
    a.version == b.version ==>
      forall path :: EffectOf(a, path).Some? && EffectOf(b, path).Some? ==> EffectOf(a, path) == EffectOf(b, path)
  }

  ghost predicate Agreeing(dir: seq<Commit>) { forall a, b :: a in dir && b in dir ==> Agree(a, b) }

  // ---- Agreeing commits: the newest commit that touches a path decides ----

  ghost predicate IsNewest(commits: seq<Commit>, path: string, c: Commit) {
    && c in commits && EffectOf(c, path).Some?
    && forall d :: d in commits && EffectOf(d, path).Some? ==> d.version <= c.version
  }

  lemma {:induction false} NewestDecides(commits: seq<Commit>, path: string, c: Commit)
    requires S.Sorted(VersionLe(), commits) && Agreeing(commits) && IsNewest(commits, path, c)
    ensures Effect(OpsOf(commits), path) == EffectOf(c, path)
  {
    var init, last := commits[..|commits| - 1], commits[|commits| - 1];
    assert commits == init + [last];
    SortedInit(init, last);
    EffectOfLast(init, last, path);
    if EffectOf(last, path).Some? {
      LastIsNewest(init, last, c);
      assert Agree(last, c);
    } else {
      NewestBefore(init, last, path, c);
      NewestDecides(init, path, c);
    }
  }

  lemma NewestBefore(init: seq<Commit>, last: Commit, path: string, c: Commit)
    requires Agreeing(init + [last]) && IsNewest(init + [last], path, c) && EffectOf(last, path).None?
    ensures Agreeing(init) && IsNewest(init, path, c)
  {
    assert forall d :: d in init ==> d in init + [last];
  }

  lemma OpsOfLast(commits: seq<Commit>, last: Commit)
    ensures OpsOf(commits + [last]) == OpsOf(commits) + OpsOfLines(last.lines)
  {
    assert (commits + [last])[..|commits|] == commits;
  }

  lemma EffectOfLast(commits: seq<Commit>, last: Commit, path: string)
    ensures Effect(OpsOf(commits + [last]), path) ==
            if EffectOf(last, path).Some? then EffectOf(last, path) else Effect(OpsOf(commits), path)
  {
    OpsOfLast(commits, last);
    EffectAppend(OpsOf(commits), OpsOfLines(last.lines), path);
  }

  lemma LastIsNewest(init: seq<Commit>, last: Commit, c: Commit)
    requires (forall i :: 0 <= i < |init| ==> VersionLe()(init[i], last)) && c in init + [last]
    ensures c.version <= last.version
  {
    if c in init {
      var i :| 0 <= i < |init| && init[i] == c;
      assert VersionLe()(init[i], last);
    }
  }

  lemma {:induction false} NobodyTouches(commits: seq<Commit>, path: string)
    requires forall c :: c in commits ==> EffectOf(c, path) == None
    ensures Effect(OpsOf(commits), path) == None
  {
    if commits == [] {
    } else {
      var init, last := commits[..|commits| - 1], commits[|commits| - 1];
      assert last in commits;
      NobodyTouches(init, path);
      EffectAppend(OpsOf(init), OpsOfLines(last.lines), path);
    }
  }

  lemma {:induction false} NewestExists(commits: seq<Commit>, path: string) returns (c: Commit)
    requires exists d :: d in commits && EffectOf(d, path).Some?
    ensures IsNewest(commits, path, c)
  {
    var init, last := commits[..|commits| - 1], commits[|commits| - 1];
    assert commits == init + [last];
    if d :| d in init && EffectOf(d, path).Some? {
      c := NewestExists(init, path);
      if EffectOf(last, path).Some? && last.version > c.version {
        c := last;
      }
    } else {
      c := last;
    }
  }

  /** The commits that build a snapshot. */
  function Relevant(dir: seq<Commit>, limit: Option<nat>): seq<Commit> { UpTo(S.Sort(VersionLe(), dir), limit) }

  lemma RelevantMember(dir: seq<Commit>, limit: Option<nat>, c: Commit)
    ensures c in Relevant(dir, limit) <==> c in dir && InLimit(limit, c.version)
  {
    UpToMember(S.Sort(VersionLe(), dir), limit, c);
  }

  lemma {:induction false} UpToSorted(commits: seq<Commit>, limit: Option<nat>)
    requires S.Sorted(VersionLe(), commits)
    ensures S.Sorted(VersionLe(), UpTo(commits, limit))
  {
    if commits == [] {
    } else {
      var init, last := commits[..|commits| - 1], commits[|commits| - 1];
      assert commits == init + [last];
      SortedInit(init, last);
      UpToSorted(init, limit);
      var kept := UpTo(init, limit);
      forall i | 0 <= i < |kept| ensures VersionLe()(kept[i], last) {
        UpToMember(init, limit, kept[i]);
        LastIsNewest(init, last, kept[i]);
      }
    }
  }

  lemma RelevantSorted(dir: seq<Commit>, limit: Option<nat>)
    ensures S.Sorted(VersionLe(), Relevant(dir, limit))
  {
    VersionLeIsAnOrder();
    S.SortIsStable(VersionLe(), dir);
    UpToSorted(S.Sort(VersionLe(), dir), limit);
  }

  lemma SameEffect(a: seq<Commit>, b: seq<Commit>, limit: Option<nat>, path: string)
    requires Agreeing(a) && forall c :: c in a <==> c in b
    ensures Effect(History(a, limit), path) == Effect(History(b, limit), path)
  {
    forall c ensures c in Relevant(a, limit) <==> c in Relevant(b, limit) {
      RelevantMember(a, limit, c);
      RelevantMember(b, limit, c);
    }
    forall c | c in Relevant(a, limit) ensures c in a {
      RelevantMember(a, limit, c);
    }
    if d :| d in Relevant(a, limit) && EffectOf(d, path).Some? {
      var c := NewestExists(Relevant(a, limit), path);
      RelevantSorted(a, limit);
      RelevantSorted(b, limit);
      NewestDecides(Relevant(a, limit), path, c);
      NewestDecides(Relevant(b, limit), path, c);
    } else {
      NobodyTouches(Relevant(a, limit), path);
      NobodyTouches(Relevant(b, limit), path);
    }
  }

  /** Where commits of one version agree, the snapshot depends only on which commits there are. */
  lemma AgreeingOrderIsIrrelevant(resolve: string -> string, a: seq<Commit>, b: seq<Commit>, limit: Option<nat>)
    requires Agreeing(a) && forall c :: c in a <==> c in b
    ensures Snapshot(resolve, a, limit) == Snapshot(resolve, b, limit)
  {
    var x, y := Snapshot(resolve, a, limit), Snapshot(resolve, b, limit);
    forall path: string
      ensures path in x <==> path in y
      ensures path in x && path in y ==> x[path] == y[path]
    {
      SameEffect(a, b, limit, path);
      EffectDecides(resolve, History(a, limit), path);
      EffectDecides(resolve, History(b, limit), path);
      SnapshotExactly(resolve, a, limit, path);
      SnapshotExactly(resolve, b, limit, path);
    }
  }

  // ---- Disagreeing commits: the one listed last decides ----

  lemma {:induction false} UpToAppend(a: seq<Commit>, b: seq<Commit>, limit: Option<nat>)
    ensures UpTo(a + b, limit) == UpTo(a, limit) + UpTo(b, limit)
  {
    if b == [] {
      assert a + b == a;
    } else {
      var init, last := b[..|b| - 1], b[|b| - 1];
      assert a + b == (a + init) + [last] && b == init + [last];
      UpToAppend(a, init, limit);
      UpToOneMore(a + init, last, limit);
      Regroup(UpTo(a, limit), UpTo(init, limit), When(InLimit(limit, last.version), last));
    }
  }

  lemma {:induction false} KeptAll(commits: seq<Commit>, limit: Option<nat>)
    requires forall c :: c in commits ==> InLimit(limit, c.version)
    ensures UpTo(commits, limit) == commits
  {
    if commits == [] {
    } else {
      var init, last := commits[..|commits| - 1], commits[|commits| - 1];
      assert commits == init + [last];
      KeptAll(init, limit);
    }
  }

  lemma {:induction false} KeptNone(commits: seq<Commit>, limit: Option<nat>)
    requires forall c :: c in commits ==> !InLimit(limit, c.version)
    ensures UpTo(commits, limit) == []
  {
    if commits == [] {
    } else {
      var init, last := commits[..|commits| - 1], commits[|commits| - 1];
      assert commits == init + [last];
      KeptNone(init, limit);
    }
  }

  lemma {:induction false} AfterMembers(commits: seq<Commit>, v: nat, c: Commit)
    ensures c in After(commits, v) <==> c in commits && c.version > v
  {
    if commits == [] {
    } else {
      var init := commits[..|commits| - 1];
      assert commits == init + [commits[|commits| - 1]];
      AfterMembers(init, v, c);
    }
  }

  lemma {:induction false} AfterSorted(commits: seq<Commit>, v: nat)
    requires S.Sorted(VersionLe(), commits)
    ensures S.Sorted(VersionLe(), After(commits, v))
  {
    if commits == [] {
    } else {
      var init, last := commits[..|commits| - 1], commits[|commits| - 1];
      assert commits == init + [last];
      SortedInit(init, last);
      AfterSorted(init, v);
      var kept := After(init, v);
      forall i | 0 <= i < |kept| ensures VersionLe()(kept[i], last) {
        AfterMembers(init, v, kept[i]);
        LastIsNewest(init, last, kept[i]);
      }
    }
  }

  lemma SortedAppend(a: seq<Commit>, b: seq<Commit>)
    requires S.Sorted(VersionLe(), a) && S.Sorted(VersionLe(), b)
    requires forall x, y :: x in a && y in b ==> x.version <= y.version
    ensures S.Sorted(VersionLe(), a + b)
  {
    var c := a + b;
    forall i, j | 0 <= i < j < |c| ensures VersionLe()(c[i], c[j]) {
      if j < |a| {
        assert VersionLe()(a[i], a[j]);
      } else if |a| <= i {
        assert VersionLe()(b[i - |a|], b[j - |a|]);
      } else {
        assert a[i] in a && b[j - |a|] in b;
      }
    }
  }

  lemma {:induction false} NoClassBeyond(commits: seq<Commit>, x: Commit)
    requires forall c :: c in commits ==> c.version != x.version
    ensures S.Class(VersionLe(), x, commits) == []
  {
    if commits == [] {
    } else {
      assert commits[0] in commits;
      NoClassBeyond(commits[1..], x);
    }
  }

  /** Where two commits of version `v` that are listed last end up: after everything up to `v`. */
  function Placed(rest: seq<Commit>, two: seq<Commit>, v: nat): seq<Commit> {
    UpTo(S.Sort(VersionLe(), rest), Some(v)) + two + After(S.Sort(VersionLe(), rest), v)
  }

  lemma LastOfTheirVersion(rest: seq<Commit>, two: seq<Commit>, v: nat)
    requires forall c :: c in two ==> c.version == v
    ensures S.Sort(VersionLe(), rest + two) == Placed(rest, two, v)
  {
    VersionLeIsAnOrder();
    S.SortIsStable(VersionLe(), rest);
    S.SortIsStable(VersionLe(), rest + two);
    PlacedIsSorted(rest, two, v);
    forall x: Commit ensures S.Class(VersionLe(), x, Placed(rest, two, v)) == S.Class(VersionLe(), x, rest + two) {
      PlacedClass(rest, two, v, x);
    }
    S.Unique(VersionLe(), S.Sort(VersionLe(), rest + two), Placed(rest, two, v));
  }

  lemma PlacedIsSorted(rest: seq<Commit>, two: seq<Commit>, v: nat)
    requires forall c :: c in two ==> c.version == v
    ensures S.Sorted(VersionLe(), Placed(rest, two, v))
  {
    var r := S.Sort(VersionLe(), rest);
    VersionLeIsAnOrder();
    S.SortIsStable(VersionLe(), rest);
    UpToSorted(r, Some(v));
    AfterSorted(r, v);
    forall c | c in UpTo(r, Some(v)) ensures c.version <= v {
      UpToMember(r, Some(v), c);
    }
    forall c | c in After(r, v) ensures c.version > v {
      AfterMembers(r, v, c);
    }
    forall i, j | 0 <= i < j < |two| ensures VersionLe()(two[i], two[j]) {
      assert two[i] in two && two[j] in two;
    }
    SortedAppend(UpTo(r, Some(v)), two);
    SortedAppend(UpTo(r, Some(v)) + two, After(r, v));
  }

  lemma PlacedClass(rest: seq<Commit>, two: seq<Commit>, v: nat, x: Commit)
    requires forall c :: c in two ==> c.version == v
    ensures S.Class(VersionLe(), x, Placed(rest, two, v)) == S.Class(VersionLe(), x, rest + two)
  {
    var r := S.Sort(VersionLe(), rest);
    var low, high := UpTo(r, Some(v)), After(r, v);
    LowAndHigh(rest, v);
    SortKeepsClass(rest, x);
    S.ClassAppend(VersionLe(), x, low + two, high);
    S.ClassAppend(VersionLe(), x, low, two);
    S.ClassAppend(VersionLe(), x, low, high);
    S.ClassAppend(VersionLe(), x, rest, two);
    OneSideIsEmpty(rest, two, v, x);
    Swap(S.Class(VersionLe(), x, low), S.Class(VersionLe(), x, two), S.Class(VersionLe(), x, high));
  }

  lemma SortKeepsClass(rest: seq<Commit>, x: Commit)
    ensures S.Class(VersionLe(), x, S.Sort(VersionLe(), rest)) == S.Class(VersionLe(), x, rest)
  {
    VersionLeIsAnOrder();
    S.SortIsStable(VersionLe(), rest);
  }

  lemma LowAndHigh(rest: seq<Commit>, v: nat)
    ensures UpTo(S.Sort(VersionLe(), rest), Some(v)) + After(S.Sort(VersionLe(), rest), v) == S.Sort(VersionLe(), rest)
  {
    var r := S.Sort(VersionLe(), rest);
    VersionLeIsAnOrder();
    S.SortIsStable(VersionLe(), rest);
    KeptAll(r, None);
    SplitAtVersion(r, v, None);
  }

  lemma OneSideIsEmpty(rest: seq<Commit>, two: seq<Commit>, v: nat, x: Commit)
    requires forall c :: c in two ==> c.version == v
    ensures S.Class(VersionLe(), x, two) == [] || S.Class(VersionLe(), x, After(S.Sort(VersionLe(), rest), v)) == []
  {
    var high := After(S.Sort(VersionLe(), rest), v);
    if x.version == v {
      forall c | c in high ensures c.version != v {
        AfterMembers(S.Sort(VersionLe(), rest), v, c);
      }
      NoClassBeyond(high, x);
    } else {
      NoClassBeyond(two, x);
    }
  }

  lemma Swap<T>(a: seq<T>, b: seq<T>, c: seq<T>)
    requires b == [] || c == []
    ensures (a + b) + c == (a + c) + b
  {
  }

  lemma RelevantEndsWith(rest: seq<Commit>, two: seq<Commit>, v: nat)
    requires forall c :: c in two ==> c.version == v
    ensures Relevant(rest + two, Some(v)) == Relevant(rest, Some(v)) + two
  {
    var r := S.Sort(VersionLe(), rest);
    var low, high := UpTo(r, Some(v)), After(r, v);
    LastOfTheirVersion(rest, two, v);
    forall c | c in high ensures !InLimit(Some(v), c.version) {
      AfterMembers(r, v, c);
    }
    KeptNone(high, Some(v));
    forall c | c in low + two ensures InLimit(Some(v), c.version) {
      UpToMember(r, Some(v), c);
    }
    KeptAll(low + two, Some(v));
    UpToAppend(low + two, high, Some(v));
  }

  lemma ListedLastDecides(resolve: string -> string, rest: seq<Commit>, a: Commit, b: Commit, path: string)
    requires a.version == b.version && EffectOf(b, path).Some?
    ensures path in Snapshot(resolve, rest + [a, b], Some(b.version)) <==> EffectOf(b, path) == Some(true)
  {
    SnapshotEndsWith(resolve, rest, a, b);
    LastCommitDecides(resolve, Relevant(rest, Some(b.version)) + [a], b, path);
  }

  lemma SnapshotEndsWith(resolve: string -> string, rest: seq<Commit>, a: Commit, b: Commit)
    requires a.version == b.version
    ensures Snapshot(resolve, rest + [a, b], Some(b.version)) ==
            Replay(resolve, map[], OpsOf((Relevant(rest, Some(b.version)) + [a]) + [b]))
  {
    RelevantEndsWith(rest, [a, b], b.version);
    OneByOne(Relevant(rest, Some(b.version)), a, b);
  }

  lemma OneByOne<T>(s: seq<T>, a: T, b: T)
    ensures s + [a, b] == (s + [a]) + [b]
  {
  }

  lemma LastCommitDecides(resolve: string -> string, commits: seq<Commit>, last: Commit, path: string)
    requires EffectOf(last, path).Some?
    ensures path in Replay(resolve, map[], OpsOf(commits + [last])) <==> EffectOf(last, path) == Some(true)
  {
    EffectOfLast(commits, last, path);
    EffectDecides(resolve, OpsOf(commits + [last]), path);
  }

  lemma TakeOut(dir: seq<Commit>, a: Commit) returns (rest: seq<Commit>)
    requires a in dir
    ensures multiset(dir) == multiset(rest) + multiset{a}
    ensures forall c :: c in dir && c != a ==> c in rest
  {
    var i: nat :| i < |dir| && dir[i] == a;
    rest := dir[..i] + dir[i + 1..];
    assert dir == dir[..i] + [a] + dir[i + 1..];
  }

  lemma Extract(dir: seq<Commit>, a: Commit, b: Commit) returns (rest: seq<Commit>)
    requires a in dir && b in dir && a != b
    ensures multiset(rest + [a, b]) == multiset(dir) && multiset(rest + [b, a]) == multiset(dir)
  {
    var without := TakeOut(dir, a);
    rest := TakeOut(without, b);
    assert multiset([a, b]) == multiset{a} + multiset{b} && multiset([b, a]) == multiset{a} + multiset{b};
  }

  ghost predicate Reordered(x: seq<Commit>, dir: seq<Commit>) { multiset(x) == multiset(dir) }

  ghost predicate OrderNeverMatters(resolve: string -> string, dir: seq<Commit>) {
    forall x, y, limit :: Reordered(x, dir) && Reordered(y, dir) ==> Snapshot(resolve, x, limit) == Snapshot(resolve, y, limit)
  }

  /** Exactly when the order of the listing never matters: when commits of one version agree on every path. */
  lemma OrderNeverMattersExactly(resolve: string -> string, dir: seq<Commit>)
    ensures OrderNeverMatters(resolve, dir) <==> Agreeing(dir)
  {
    if Agreeing(dir) {
      forall x, y, limit | Reordered(x, dir) && Reordered(y, dir)
        ensures Snapshot(resolve, x, limit) == Snapshot(resolve, y, limit)
      {
        SameMembers(x, dir);
        SameMembers(y, dir);
        AgreeingOrderIsIrrelevant(resolve, x, y, limit);
      }
    }
    if OrderNeverMatters(resolve, dir) {
      forall a, b | a in dir && b in dir ensures Agree(a, b) {
        MustAgree(resolve, dir, a, b);
      }
    }
  }

  lemma SameMembers(x: seq<Commit>, dir: seq<Commit>)
    requires multiset(x) == multiset(dir)
    ensures forall c :: c in x <==> c in dir
  {
    forall c ensures c in x <==> c in dir {
      assert c in x <==> c in multiset(x);
      assert c in dir <==> c in multiset(dir);
    }
  }

  lemma EitherOrder(resolve: string -> string, dir: seq<Commit>, x: seq<Commit>, y: seq<Commit>, limit: Option<nat>)
    requires OrderNeverMatters(resolve, dir) && Reordered(x, dir) && Reordered(y, dir)
    ensures Snapshot(resolve, x, limit) == Snapshot(resolve, y, limit)
  {
  }

  lemma MustAgree(resolve: string -> string, dir: seq<Commit>, a: Commit, b: Commit)
    requires OrderNeverMatters(resolve, dir) && a in dir && b in dir
    ensures Agree(a, b)
  {
    if a != b && a.version == b.version {
      var rest := Extract(dir, a, b);
      EitherOrder(resolve, dir, rest + [a, b], rest + [b, a], Some(a.version));
      forall path | EffectOf(a, path).Some? && EffectOf(b, path).Some? ensures EffectOf(a, path) == EffectOf(b, path) {
        SameEffectOfTwo(resolve, rest, a, b, path);
      }
    }
  }

  lemma SameEffectOfTwo(resolve: string -> string, rest: seq<Commit>, a: Commit, b: Commit, path: string)
    requires a.version == b.version && EffectOf(a, path).Some? && EffectOf(b, path).Some?
    requires Snapshot(resolve, rest + [a, b], Some(a.version)) == Snapshot(resolve, rest + [b, a], Some(a.version))
    ensures EffectOf(a, path) == EffectOf(b, path)
  {
    ListedLastDecides(resolve, rest, a, b, path);
    ListedLastDecides(resolve, rest, b, a, path);
    SameTruth(EffectOf(a, path), EffectOf(b, path));
  }

  lemma SameTruth(x: Option<bool>, y: Option<bool>)
    requires x.Some? && y.Some?
    ensures x == y <==> (x == Some(true) <==> y == Some(true))
  {
    assert x.value <==> x == Some(true);
    assert y.value <==> y == Some(true);
  }
}
