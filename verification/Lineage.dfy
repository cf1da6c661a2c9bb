/**
 * The lineage graph and its impact chains: `python/statguardian/_lineage.py` (a queue) and
 * `crates/statguardian-lineage/src/model.rs` (a stack).  The graph may have cycles, duplicate edges and
 * edges to nodes that were never added.
 */
module Lineage {

  datatype Node = Node(id: string, table: string, stage: string, version: nat)

  datatype Edge = Edge(source: string, target: string)

  // ---- Specification: reachability along edges ----

  function Downstream(edges: seq<Edge>, node: string): seq<string> {
    if edges == [] then []
    else
      var last := edges[|edges| - 1];
      Downstream(edges[..|edges| - 1], node) + (if last.source == node then [last.target] else [])
  }

  function Upstream(edges: seq<Edge>, node: string): seq<string> {
    if edges == [] then []
    else
      var last := edges[|edges| - 1];
      Upstream(edges[..|edges| - 1], node) + (if last.target == node then [last.source] else [])
  }

  /** `b` is at most `k` edges away from `a`. */
  ghost predicate Within(edges: seq<Edge>, a: string, b: string, k: nat)
    decreases k
  {
    if k == 0 then a == b
    else Within(edges, a, b, k - 1) || exists e :: e in edges && e.target == b && Within(edges, a, e.source, k - 1)
  }

  ghost predicate Reaches(edges: seq<Edge>, a: string, b: string) { exists k: nat :: Within(edges, a, b, k) }

  ghost predicate IsDistance(edges: seq<Edge>, a: string, b: string, k: nat) {
    Within(edges, a, b, k) && (k > 0 ==> !Within(edges, a, b, k - 1))
  }

  lemma {:induction false} DownstreamMember(edges: seq<Edge>, node: string, d: string)
    ensures d in Downstream(edges, node) <==> Edge(node, d) in edges
  {
    if edges == [] {
    } else {
      var init := edges[..|edges| - 1];
      assert edges == init + [edges[|edges| - 1]];
      DownstreamMember(init, node, d);
    }
  }

  lemma {:induction false} UpstreamMember(edges: seq<Edge>, node: string, u: string)
    ensures u in Upstream(edges, node) <==> Edge(u, node) in edges
  {
    if edges == [] {
    } else {
      var init := edges[..|edges| - 1];
      assert edges == init + [edges[|edges| - 1]];
      UpstreamMember(init, node, u);
    }
  }

  lemma {:induction false} WithinMore(edges: seq<Edge>, a: string, b: string, k: nat, m: nat)
    requires Within(edges, a, b, k) && k <= m
    ensures Within(edges, a, b, m)
    decreases m
  {
    if k == m {
    } else {
      WithinMore(edges, a, b, k, m - 1);
    }
  }

  lemma ReachesFurther(edges: seq<Edge>, a: string, e: Edge)
    requires e in edges && Reaches(edges, a, e.source)
    ensures Reaches(edges, a, e.target)
  {
    var k: nat :| Within(edges, a, e.source, k);
    assert Within(edges, a, e.target, k + 1);
  }

  // ---- Paths say the same ----

  ghost predicate IsPath(edges: seq<Edge>, path: seq<string>) {
    path != [] && forall i :: 0 <= i < |path| - 1 ==> Edge(path[i], path[i + 1]) in edges
  }

  /** Being within `k` edges means that there is a path of at most `k` edges. */
  lemma {:induction false} WithinIsAPath(edges: seq<Edge>, a: string, b: string, k: nat)
    ensures Within(edges, a, b, k) <==>
            exists path :: IsPath(edges, path) && path[0] == a && path[|path| - 1] == b && |path| <= k + 1
  {
    if Within(edges, a, b, k) {
      PathWithin(edges, a, b, k);
    }
    if path :| IsPath(edges, path) && path[0] == a && path[|path| - 1] == b && |path| <= k + 1 {
      WithinPath(edges, path);
      WithinMore(edges, a, b, |path| - 1, k);
    }
  }

  lemma {:induction false} PathWithin(edges: seq<Edge>, a: string, b: string, k: nat)
    requires Within(edges, a, b, k)
    ensures exists path :: IsPath(edges, path) && path[0] == a && path[|path| - 1] == b && |path| <= k + 1
    decreases k
  {
    if k == 0 {
      assert IsPath(edges, [a]);
    } else if Within(edges, a, b, k - 1) {
      PathWithin(edges, a, b, k - 1);
    } else {
      var e :| e in edges && e.target == b && Within(edges, a, e.source, k - 1);
      PathWithin(edges, a, e.source, k - 1);
      var path :| IsPath(edges, path) && path[0] == a && path[|path| - 1] == e.source && |path| <= k;
      assert e == Edge(e.source, b);
      assert IsPath(edges, path + [b]);
    }
  }

  lemma {:induction false} WithinPath(edges: seq<Edge>, path: seq<string>)
    requires IsPath(edges, path)
    ensures Within(edges, path[0], path[|path| - 1], |path| - 1)
  {
    if |path| == 1 {
    } else {
      var init := path[..|path| - 1];
      WithinPath(edges, init);
      var e := Edge(path[|path| - 2], path[|path| - 1]);
      assert e in edges && Within(edges, path[0], e.source, |path| - 2);
    }
  }

  // ---- The worklist ----

  /** Every node a chain can ever meet. */
  function Universe(edges: seq<Edge>, target: string): set<string> {
    {target} + set e | e in edges :: e.target
  }

  function Unvisited(ds: seq<string>, visited: set<string>): (r: seq<string>)
    ensures forall d :: d in r <==> d in ds && d !in visited
  {
    if ds == [] then []
    else
      var last := ds[|ds| - 1];
      Unvisited(ds[..|ds| - 1], visited) + (if last in visited then [] else [last])
  }

  function Copies(level: nat, n: nat): (r: seq<nat>)
    ensures |r| == n && forall i :: 0 <= i < n ==> r[i] == level
  {
    seq(n, _ => level)
  }

  predicate NoDuplicates(chain: seq<string>) { forall i, j :: 0 <= i < j < |chain| ==> chain[i] != chain[j] }

  ghost predicate AllReached(edges: seq<Edge>, target: string, nodes: seq<string>) {
    forall i :: 0 <= i < |nodes| ==> Reaches(edges, target, nodes[i])
  }

  /** Nothing downstream of a visited node has been forgotten. */
  ghost predicate Pending(edges: seq<Edge>, visited: set<string>, work: seq<string>) {
    forall e :: e in edges && e.source in visited ==> e.target in visited || e.target in work
  }

  /** What the stack version keeps: only reachable nodes, each visited once, and nothing forgotten. */
  ghost predicate DepthFirst(edges: seq<Edge>, target: string, affected: seq<string>, stack: seq<string>, visited: set<string>) {
    && visited == Elements(affected) && NoDuplicates(affected)
    && AllReached(edges, target, affected) && AllReached(edges, target, stack)
    && Pending(edges, visited, stack) && (target in visited || target in stack)
    && visited <= Universe(edges, target)
  }

  lemma SkipKeepsDepthFirst(edges: seq<Edge>, target: string, affected: seq<string>, stack: seq<string>, visited: set<string>)
    requires DepthFirst(edges, target, affected, stack, visited) && stack != [] && stack[|stack| - 1] in visited
    ensures DepthFirst(edges, target, affected, stack[..|stack| - 1], visited)
  {
    assert stack == stack[..|stack| - 1] + [stack[|stack| - 1]];
  }

  lemma VisitKeepsPending(edges: seq<Edge>, visited: set<string>, stack: seq<string>, ds: seq<string>)
    requires stack != [] && Pending(edges, visited, stack)
    requires forall e :: e in edges && e.source == stack[|stack| - 1] ==> e.target in ds
    ensures var current := stack[|stack| - 1];
            var next := stack[..|stack| - 1] + Unvisited(ds, visited + {current});
            Pending(edges, visited + {current}, next) && forall n :: n in stack ==> n == current || n in next
  {
    var current, rest := stack[|stack| - 1], stack[..|stack| - 1];
    assert stack == rest + [current];
  }

  lemma NextAreReached(edges: seq<Edge>, target: string, stack: seq<string>, ds: seq<string>, visited: set<string>)
    requires stack != [] && AllReached(edges, target, stack) && forall d :: d in ds ==> Reaches(edges, target, d)
    ensures AllReached(edges, target, stack[..|stack| - 1] + Unvisited(ds, visited))
  {
    var rest, more := stack[..|stack| - 1], Unvisited(ds, visited);
    forall i | 0 <= i < |rest + more| ensures Reaches(edges, target, (rest + more)[i]) {
      assert i >= |rest| ==> more[i - |rest|] in ds;
    }
  }

  lemma OneMoreVisited(edges: seq<Edge>, target: string, affected: seq<string>, visited: set<string>, current: string)
    requires visited == Elements(affected) && NoDuplicates(affected) && AllReached(edges, target, affected)
    requires current !in visited && Reaches(edges, target, current)
    ensures visited + {current} == Elements(affected + [current]) && NoDuplicates(affected + [current])
    ensures AllReached(edges, target, affected + [current])
  {
  }

  /** Visiting the top of the stack and pushing what is downstream of it keeps all of this. */
  lemma VisitKeepsDepthFirst(edges: seq<Edge>, target: string, affected: seq<string>, stack: seq<string>, visited: set<string>,
                             ds: seq<string>)
    requires DepthFirst(edges, target, affected, stack, visited) && stack != [] && stack[|stack| - 1] !in visited
    requires ds == Downstream(edges, stack[|stack| - 1])
    ensures var current := stack[|stack| - 1];
            var now := visited + {current};
            DepthFirst(edges, target, affected + [current], stack[..|stack| - 1] + Unvisited(ds, now), now)
  {
    var current := stack[|stack| - 1];
    DownstreamReached(edges, target, current, ds);
    ReachedInUniverse(edges, target, current);
    OneMoreVisited(edges, target, affected, visited, current);
    NextAreReached(edges, target, stack, ds, visited + {current});
    VisitKeepsPending(edges, visited, stack, ds);
  }

  lemma ReachedInUniverse(edges: seq<Edge>, target: string, node: string)
    requires Reaches(edges, target, node)
    ensures node in Universe(edges, target)
  {
    var k: nat :| Within(edges, target, node, k);
    WithinUniverse(edges, target, node, k);
  }

  lemma {:induction false} WithinUniverse(edges: seq<Edge>, target: string, node: string, k: nat)
    requires Within(edges, target, node, k)
    ensures node in Universe(edges, target)
  {
    if k > 0 && Within(edges, target, node, k - 1) {
      WithinUniverse(edges, target, node, k - 1);
    }
  }

  /** Once the worklist is empty, everything reachable has been visited. */
  lemma {:induction false} ClosedUnderReach(edges: seq<Edge>, target: string, visited: set<string>, b: string, k: nat)
    requires Pending(edges, visited, []) && target in visited && Within(edges, target, b, k)
    ensures b in visited
    decreases k
  {
    if k == 0 {
    } else {
      if Within(edges, target, b, k - 1) {
        ClosedUnderReach(edges, target, visited, b, k - 1);
      } else {
        var e :| e in edges && e.target == b && Within(edges, target, e.source, k - 1);
        ClosedUnderReach(edges, target, visited, e.source, k - 1);
      }
    }
  }

  lemma ChainIsComplete(edges: seq<Edge>, target: string, chain: seq<string>)
    requires target in chain && AllReached(edges, target, chain) && Pending(edges, Elements(chain), [])
    ensures forall n :: n in chain <==> Reaches(edges, target, n)
  {
    forall n | Reaches(edges, target, n) ensures n in chain {
      var k: nat :| Within(edges, target, n, k);
      ClosedUnderReach(edges, target, Elements(chain), n, k);
    }
  }

  function Elements(chain: seq<string>): set<string> { set n | n in chain }

  class LineageGraph {
    var nodes: map<string, Node>
    var edges: seq<Edge>

    constructor ()
      ensures nodes == map[] && edges == []
    {
      nodes, edges := map[], [];
    }

    method AddNode(node: Node)
      modifies this`nodes
      ensures nodes == old(nodes)[node.id := node]
    {
      nodes := nodes[node.id := node];
    }

    method AddEdge(edge: Edge)
      modifies this`edges
      ensures edges == old(edges) + [edge]
    {
      edges := edges + [edge];
    }

    method GetDownstream(node: string) returns (ds: seq<string>)
      ensures ds == Downstream(edges, node)
    {
      ds := [];
      for i := 0 to |edges|
        invariant ds == Downstream(edges[..i], node)
      {
        assert edges[..i + 1][..i] == edges[..i];
        if edges[i].source == node { ds := ds + [edges[i].target]; }
      }
      assert edges[..|edges|] == edges;
    }

    method GetUpstream(node: string) returns (us: seq<string>)
      ensures us == Upstream(edges, node)
    {
      us := [];
      for i := 0 to |edges|
        invariant us == Upstream(edges[..i], node)
      {
        assert edges[..i + 1][..i] == edges[..i];
        if edges[i].target == node { us := us + [edges[i].source]; }
      }
      assert edges[..|edges|] == edges;
    }

    /** The stack version: everything reachable from the target, each node once. */
    method ImpactChainByStack(target: string) returns (affected: seq<string>)
      ensures NoDuplicates(affected)
      ensures forall n :: n in affected <==> Reaches(edges, target, n)
    {
      affected := [];
      var stack, visited := [target], {};
      assert Within(edges, target, target, 0);
      while stack != []
        invariant DepthFirst(edges, target, affected, stack, visited)
        decreases Universe(edges, target) - visited, |stack|
      {
        var current := stack[|stack| - 1];
        if current in visited {
          SkipKeepsDepthFirst(edges, target, affected, stack, visited);
          stack := stack[..|stack| - 1];
        } else {
          var ds := GetDownstream(current);
          VisitKeepsDepthFirst(edges, target, affected, stack, visited, ds);
          visited := visited + {current};
          affected := affected + [current];
          stack := stack[..|stack| - 1] + Unvisited(ds, visited);
        }
      }
      ChainIsComplete(edges, target, affected);
    }

    /** The queue version: the same nodes, each once, nearest first; `levels` are their distances. */
    method ImpactChain(target: string) returns (affected: seq<string>, ghost levels: seq<nat>)
      ensures NoDuplicates(affected)
      ensures forall n :: n in affected <==> Reaches(edges, target, n)
      ensures |levels| == |affected| && forall i :: 0 <= i < |affected| ==> IsDistance(edges, target, affected[i], levels[i])
      ensures Ascending(levels)
    {
      affected, levels := [], [];
      var queue, visited := [target], {};
      ghost var due: seq<nat> := [0];   // the distance each queue entry promises
      StartIsBreadthFirst(edges, target);
      while queue != []
        invariant visited == Elements(affected) && NoDuplicates(affected)
        invariant BreadthFirst(edges, target, affected, levels, queue, due)
        invariant visited <= Universe(edges, target) && Elements(queue) <= Universe(edges, target)
        decreases Universe(edges, target) - visited, |queue|
      {
        var current := queue[0];
        ElementsOfTail(queue);
        if current in visited {
          SkipKeepsBreadthFirst(edges, target, affected, levels, queue, due);
          queue, due := queue[1..], due[1..];
        } else {
          var ds := GetDownstream(current);
          var added := Unvisited(ds, visited + {current});
          VisitKeepsBreadthFirst(edges, target, affected, levels, queue, due, ds);
          DownstreamInUniverse(edges, target, current, ds);
          levels, due := levels + [due[0]], due[1..] + Copies(due[0] + 1, |added|);
          assert Elements(affected + [current]) == visited + {current};
          affected, visited := affected + [current], visited + {current};
          queue := queue[1..] + added;
        }
      }
      BreadthFirstIsComplete(edges, target, affected, levels);
    }
  }

  predicate Ascending(levels: seq<nat>) { forall i, j :: 0 <= i < j < |levels| ==> levels[i] <= levels[j] }

  /** The edge leads to a visited node, or to a queue entry that promises a path through it. */
  ghost predicate Followed(e: Edge, level: nat, visited: set<string>, queue: seq<string>, due: seq<nat>)
    requires |queue| == |due|
  {
    e.target in visited || exists i :: 0 <= i < |queue| && queue[i] == e.target && due[i] <= level + 1
  }

  ghost predicate AllFollowed(edges: seq<Edge>, affected: seq<string>, levels: seq<nat>, queue: seq<string>, due: seq<nat>)
    requires |affected| == |levels| && |queue| == |due|
  {
    forall j, e :: 0 <= j < |affected| && e in edges && e.source == affected[j] ==>
      Followed(e, levels[j], Elements(affected), queue, due)
  }

  /** The queue promises paths, nearest first, at most one edge longer than the last node visited. */
  ghost predicate Promises(edges: seq<Edge>, target: string, levels: seq<nat>, queue: seq<string>, due: seq<nat>)
    requires |queue| == |due|
  {
    && (forall i :: 0 <= i < |queue| ==> Within(edges, target, queue[i], due[i]))
    && Ascending(levels + due)
    && (levels != [] ==> forall i :: 0 <= i < |due| ==> due[i] <= levels[|levels| - 1] + 1)
  }

  ghost predicate BreadthFirst(edges: seq<Edge>, target: string,
                               affected: seq<string>, levels: seq<nat>, queue: seq<string>, due: seq<nat>) {
    var kept :=
      && |affected| == |levels| && |queue| == |due|
      && (forall i :: 0 <= i < |affected| ==> IsDistance(edges, target, affected[i], levels[i]))
      && Promises(edges, target, levels, queue, due)
      && AllFollowed(edges, affected, levels, queue, due)
      && (if affected == [] then queue == [target] && due == [0] else target in affected);
    kept
  }

  lemma StartIsBreadthFirst(edges: seq<Edge>, target: string)
    ensures BreadthFirst(edges, target, [], [], [target], [0])
  {
  }

  lemma SkipKeepsBreadthFirst(edges: seq<Edge>, target: string,
                              affected: seq<string>, levels: seq<nat>, queue: seq<string>, due: seq<nat>)
    requires BreadthFirst(edges, target, affected, levels, queue, due) && queue != [] && queue[0] in affected
    ensures BreadthFirst(edges, target, affected, levels, queue[1..], due[1..])
  {
    forall j, e | 0 <= j < |affected| && e in edges && e.source == affected[j]
      ensures Followed(e, levels[j], Elements(affected), queue[1..], due[1..])
    {
      FollowedAfterPop(e, levels[j], Elements(affected), queue, due);
    }
    assert forall i, j :: 0 <= i < j < |levels + due[1..]| ==> (levels + due[1..])[i] <= (levels + due[1..])[j] by {
      AscendingWithout(levels, due);
    }
  }

  lemma FollowedAfterPop(e: Edge, level: nat, visited: set<string>, queue: seq<string>, due: seq<nat>)
    requires |queue| == |due| && queue != [] && Followed(e, level, visited, queue, due)
    ensures e.target == queue[0] || Followed(e, level, visited, queue[1..], due[1..])
  {
  }

  lemma AscendingWithout(levels: seq<nat>, due: seq<nat>)
    requires due != [] && Ascending(levels + due)
    ensures Ascending(levels + due[1..])
  {
    var all, rest := levels + due, levels + due[1..];
    forall i, j | 0 <= i < j < |rest| ensures rest[i] <= rest[j] {
      assert rest[i] == all[if i < |levels| then i else i + 1];
      assert rest[j] == all[if j < |levels| then j else j + 1];
    }
  }

  /** Nodes nearer than the head of the queue have all been visited, so the head's promise is its distance. */
  lemma {:induction false} NearerIsVisited(edges: seq<Edge>, target: string, affected: seq<string>, levels: seq<nat>,
                                           queue: seq<string>, due: seq<nat>, b: string, k: nat)
    requires BreadthFirst(edges, target, affected, levels, queue, due) && queue != []
    requires Within(edges, target, b, k) && k < due[0]
    ensures b in affected
    decreases k
  {
    if k == 0 {
    } else {
      if Within(edges, target, b, k - 1) {
        NearerIsVisited(edges, target, affected, levels, queue, due, b, k - 1);
      } else {
        var e :| e in edges && e.target == b && Within(edges, target, e.source, k - 1);
        NearerIsVisited(edges, target, affected, levels, queue, due, e.source, k - 1);
        var j :| 0 <= j < |affected| && affected[j] == e.source;
        DistanceIsLeast(edges, target, e.source, levels[j], k - 1);
        assert Followed(e, levels[j], Elements(affected), queue, due);
        forall i | 0 <= i < |due| ensures due[0] <= due[i] {
          assert (levels + due)[|levels|] == due[0] && (levels + due)[|levels| + i] == due[i];
        }
      }
    }
  }

  lemma DistanceIsLeast(edges: seq<Edge>, a: string, b: string, d: nat, k: nat)
    requires IsDistance(edges, a, b, d) && Within(edges, a, b, k)
    ensures d <= k
  {
    if k < d {
      WithinMore(edges, a, b, k, d - 1);
    }
  }

  lemma ElementsOfTail(queue: seq<string>)
    requires queue != []
    ensures Elements(queue) == {queue[0]} + Elements(queue[1..])
  {
  }

  lemma DownstreamInUniverse(edges: seq<Edge>, target: string, current: string, ds: seq<string>)
    requires ds == Downstream(edges, current)
    ensures Elements(ds) <= Universe(edges, target)
  {
    forall d | d in ds ensures d in Universe(edges, target) {
      DownstreamMember(edges, current, d);
      assert Edge(current, d).target == d;
    }
  }

  lemma HeadIsAtItsDistance(edges: seq<Edge>, target: string, affected: seq<string>, levels: seq<nat>,
                            queue: seq<string>, due: seq<nat>)
    requires BreadthFirst(edges, target, affected, levels, queue, due) && queue != [] && queue[0] !in affected
    ensures IsDistance(edges, target, queue[0], due[0])
  {
    if due[0] > 0 && Within(edges, target, queue[0], due[0] - 1) {
      NearerIsVisited(edges, target, affected, levels, queue, due, queue[0], due[0] - 1);
    }
  }

  lemma LevelsStayAscending(levels: seq<nat>, due: seq<nat>, n: nat)
    requires due != [] && Ascending(levels + due)
    requires if levels == [] then |due| == 1 else forall i :: 0 <= i < |due| ==> due[i] <= levels[|levels| - 1] + 1
    ensures Ascending(levels + [due[0]] + (due[1..] + Copies(due[0] + 1, n)))
    ensures forall i :: 0 <= i < |due| ==> due[i] <= due[0] + 1
  {
    var all := levels + due;
    var next := Copies(due[0] + 1, n);
    assert levels + [due[0]] + (due[1..] + next) == all + next;
    assert levels != [] ==> all[|levels| - 1] <= all[|levels|];
    assert forall i :: 0 <= i < |levels| ==> all[i] <= all[|levels|];
    forall i | 0 <= i < |all| ensures all[i] <= due[0] + 1 {
      assert i >= |levels| ==> all[i] == due[i - |levels|];
    }
  }

  lemma PromisesAfterVisit(edges: seq<Edge>, target: string, levels: seq<nat>, queue: seq<string>, due: seq<nat>, added: seq<string>)
    requires |queue| == |due| && queue != [] && Promises(edges, target, levels, queue, due)
    requires levels == [] ==> |due| == 1
    requires forall d :: d in added ==> Within(edges, target, d, due[0] + 1)
    ensures Promises(edges, target, levels + [due[0]], queue[1..] + added, due[1..] + Copies(due[0] + 1, |added|))
  {
    LevelsStayAscending(levels, due, |added|);
    var queue1, due1 := queue[1..] + added, due[1..] + Copies(due[0] + 1, |added|);
    forall i | 0 <= i < |queue1| ensures Within(edges, target, queue1[i], due1[i]) && due1[i] <= due[0] + 1 {
      if i < |queue| - 1 {
        assert queue1[i] == queue[i + 1] && due1[i] == due[i + 1];
      } else {
        assert queue1[i] in added;
      }
    }
  }

  lemma FollowedAfterVisit(e: Edge, level: nat, visited: set<string>, queue: seq<string>, due: seq<nat>,
                           added: seq<string>, due1: seq<nat>)
    requires |queue| == |due| && queue != [] && |added| == |due1|
    requires Followed(e, level, visited, queue, due)
    ensures Followed(e, level, visited + {queue[0]}, queue[1..] + added, due[1..] + due1)
  {
    FollowedAfterPop(e, level, visited, queue, due);
    if e.target !in visited && e.target != queue[0] {
      var i :| 0 <= i < |queue[1..]| && queue[1..][i] == e.target && due[1..][i] <= level + 1;
      assert (queue[1..] + added)[i] == e.target && (due[1..] + due1)[i] == due[1..][i];
    }
  }

  lemma NewlyFollowed(e: Edge, level: nat, visited: set<string>, queue: seq<string>, due: seq<nat>, ds: seq<string>)
    requires |queue| == |due| && e.target in ds
    ensures var added := Unvisited(ds, visited);
            Followed(e, level, visited, queue + added, due + Copies(level + 1, |added|))
  {
    var added := Unvisited(ds, visited);
    if e.target !in visited {
      var i :| 0 <= i < |added| && added[i] == e.target;
      assert (queue + added)[|queue| + i] == e.target;
      assert (due + Copies(level + 1, |added|))[|queue| + i] == level + 1;
    }
  }

  lemma AllFollowedAfterVisit(edges: seq<Edge>, affected: seq<string>, levels: seq<nat>, queue: seq<string>, due: seq<nat>, ds: seq<string>)
    requires |affected| == |levels| && |queue| == |due| && queue != []
    requires AllFollowed(edges, affected, levels, queue, due) && ds == Downstream(edges, queue[0])
    ensures var added := Unvisited(ds, Elements(affected + [queue[0]]));
            AllFollowed(edges, affected + [queue[0]], levels + [due[0]],
                        queue[1..] + added, due[1..] + Copies(due[0] + 1, |added|))
  {
    var now, lv := affected + [queue[0]], levels + [due[0]];
    var added := Unvisited(ds, Elements(now));
    var due1 := Copies(due[0] + 1, |added|);
    assert Elements(now) == Elements(affected) + {queue[0]};
    forall j, e | 0 <= j < |now| && e in edges && e.source == now[j]
      ensures Followed(e, lv[j], Elements(now), queue[1..] + added, due[1..] + due1)
    {
      if j < |affected| {
        assert e.source == affected[j];
        FollowedAfterVisit(e, levels[j], Elements(affected), queue, due, added, due1);
      } else {
        assert e == Edge(queue[0], e.target);
        DownstreamMember(edges, queue[0], e.target);
        NewlyFollowed(e, due[0], Elements(now), queue[1..], due[1..], ds);
      }
    }
  }

  lemma VisitKeepsBreadthFirst(edges: seq<Edge>, target: string, affected: seq<string>, levels: seq<nat>,
                               queue: seq<string>, due: seq<nat>, ds: seq<string>)
    requires BreadthFirst(edges, target, affected, levels, queue, due) && queue != [] && queue[0] !in affected
    requires ds == Downstream(edges, queue[0])
    ensures var added := Unvisited(ds, Elements(affected + [queue[0]]));
            BreadthFirst(edges, target, affected + [queue[0]], levels + [due[0]],
                         queue[1..] + added, due[1..] + Copies(due[0] + 1, |added|))
  {
    var added := Unvisited(ds, Elements(affected + [queue[0]]));
    HeadIsAtItsDistance(edges, target, affected, levels, queue, due);
    forall d | d in added ensures Within(edges, target, d, due[0] + 1) {
      DownstreamMember(edges, queue[0], d);
      assert Edge(queue[0], d) in edges;
    }
    PromisesAfterVisit(edges, target, levels, queue, due, added);
    AllFollowedAfterVisit(edges, affected, levels, queue, due, ds);
  }

  lemma BreadthFirstIsComplete(edges: seq<Edge>, target: string, affected: seq<string>, levels: seq<nat>)
    requires BreadthFirst(edges, target, affected, levels, [], [])
    ensures forall n :: n in affected <==> Reaches(edges, target, n)
    ensures Ascending(levels)
  {
    assert levels + [] == levels;
    forall e | e in edges && e.source in Elements(affected) ensures e.target in Elements(affected) {
      var j :| 0 <= j < |affected| && affected[j] == e.source;
      assert Followed(e, levels[j], Elements(affected), [], []);
    }
    ChainIsComplete(edges, target, affected);
  }

  lemma DownstreamReached(edges: seq<Edge>, target: string, current: string, ds: seq<string>)
    requires Reaches(edges, target, current) && ds == Downstream(edges, current)
    ensures forall d :: d in ds ==> Reaches(edges, target, d)
    ensures forall e :: e in edges && e.source == current ==> e.target in ds
  {
    forall d | d in ds ensures Reaches(edges, target, d) {
      DownstreamMember(edges, current, d);
      ReachesFurther(edges, target, Edge(current, d));
    }
    forall e | e in edges && e.source == current ensures e.target in ds {
      assert e == Edge(current, e.target);
      DownstreamMember(edges, current, e.target);
    }
  }

  // ---- Chains of the same and of growing graphs ----

  /** Both versions list the same nodes, so one chain is a permutation of the other. */
  lemma {:induction false} ChainsArePermutations(a: seq<string>, b: seq<string>)
    requires NoDuplicates(a) && NoDuplicates(b) && forall n :: n in a <==> n in b
    ensures multiset(a) == multiset(b)
  {
    forall n: string ensures multiset(a)[n] == multiset(b)[n] {
      OccursOnce(a, n);
      OccursOnce(b, n);
    }
  }

  lemma {:induction false} OccursOnce(chain: seq<string>, n: string)
    requires NoDuplicates(chain)
    ensures multiset(chain)[n] == if n in chain then 1 else 0
  {
    if chain == [] {
    } else {
      var init := chain[..|chain| - 1];
      assert chain == init + [chain[|chain| - 1]];
      OccursOnce(init, n);
    }
  }

  /** A new edge adds to a chain exactly what its end reaches, when its start was in the chain. */
  lemma NewEdgeExtendsChains(edges: seq<Edge>, e: Edge, target: string, n: string)
    ensures Reaches(edges + [e], target, n) <==>
            Reaches(edges, target, n) || (Reaches(edges, target, e.source) && Reaches(edges, e.target, n))
  {
    var all := edges + [e];
    if Reaches(edges, target, n) {
      var k: nat :| Within(edges, target, n, k);
      MoreEdges(edges, all, target, n, k);
    }
    if Reaches(edges, target, e.source) && Reaches(edges, e.target, n) {
      var j: nat :| Within(edges, target, e.source, j);
      var k: nat :| Within(edges, e.target, n, k);
      MoreEdges(edges, all, target, e.source, j);
      MoreEdges(edges, all, e.target, n, k);
      ReachesFurther(all, target, e);
      ReachTransitive(all, target, e.target, n, k);
    }
    if Reaches(all, target, n) {
      var k: nat :| Within(all, target, n, k);
      OldOrThroughEdge(edges, e, target, n, k);
    }
  }

  lemma {:induction false} MoreEdges(edges: seq<Edge>, all: seq<Edge>, a: string, b: string, k: nat)
    requires Within(edges, a, b, k) && forall e :: e in edges ==> e in all
    ensures Within(all, a, b, k)
    decreases k
  {
    if k == 0 {
    } else {
      if Within(edges, a, b, k - 1) {
        MoreEdges(edges, all, a, b, k - 1);
      } else {
        var e :| e in edges && e.target == b && Within(edges, a, e.source, k - 1);
        MoreEdges(edges, all, a, e.source, k - 1);
      }
    }
  }

  lemma {:induction false} ReachTransitive(edges: seq<Edge>, a: string, b: string, c: string, k: nat)
    requires Reaches(edges, a, b) && Within(edges, b, c, k)
    ensures Reaches(edges, a, c)
    decreases k
  {
    if k == 0 {
    } else {
      if Within(edges, b, c, k - 1) {
        ReachTransitive(edges, a, b, c, k - 1);
      } else {
        var e :| e in edges && e.target == c && Within(edges, b, e.source, k - 1);
        ReachTransitive(edges, a, b, e.source, k - 1);
        ReachesFurther(edges, a, e);
      }
    }
  }

  lemma {:induction false} OldOrThroughEdge(edges: seq<Edge>, e: Edge, target: string, n: string, k: nat)
    requires Within(edges + [e], target, n, k)
    ensures Reaches(edges, target, n) || (Reaches(edges, target, e.source) && Reaches(edges, e.target, n))
    decreases k
  {
    if k == 0 {
      assert Within(edges, target, n, 0);
    } else if Within(edges + [e], target, n, k - 1) {
      OldOrThroughEdge(edges, e, target, n, k - 1);
    } else {
      var f :| f in edges + [e] && f.target == n && Within(edges + [e], target, f.source, k - 1);
      OldOrThroughEdge(edges, e, target, f.source, k - 1);
      assert Within(edges, e.target, e.target, 0);
      if f in edges {
        if Reaches(edges, target, f.source) {
          ReachesFurther(edges, target, f);
        } else {
          ReachesFurther(edges, e.target, f);
        }
      }
    }
  }
}
