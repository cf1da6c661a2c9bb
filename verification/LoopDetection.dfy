/** The sliding-window heuristic for repeated calls: `detect_loops` (crates/statguardian-stream/src/agent.rs). */
module LoopDetection {
  import opened Sequences

  /** An event that carries a call signature. */
  datatype Call = Call(signature: string, seqNo: nat)

  datatype LoopFinding = LoopFinding(signature: string, occurrences: nat, firstSeq: nat, lastSeq: nat)

  /** The window of the most recent calls. */
  function Recent(calls: seq<Call>, window: nat): seq<Call> {
    if |calls| > window then calls[|calls| - window..] else calls
  }

  /** The calls with the signature, oldest first. */
  function Matches(calls: seq<Call>, signature: string): seq<Call> {
    if calls == [] then []
    else
      var last := calls[|calls| - 1];
      Matches(calls[..|calls| - 1], signature) + (if last.signature == signature then [last] else [])
  }

  /** The last call has the signature, and the window that ends with it holds the signature often enough. */
  predicate HitAtEnd(calls: seq<Call>, window: nat, threshold: nat, signature: string) {
    && calls != []
    && calls[|calls| - 1].signature == signature
    && |Matches(Recent(calls, window), signature)| >= threshold
  }

  function Position(loops: seq<LoopFinding>, signature: string): (i: nat)
    ensures i <= |loops|
    ensures i < |loops| ==> loops[i].signature == signature
    ensures forall j :: 0 <= j < i ==> loops[j].signature != signature
  {
    if loops == [] then 0
    else if loops[0].signature == signature then 0
    else 1 + Position(loops[1..], signature)
  }

  /** A known loop keeps its first occurrence and follows the window; an unknown one is added. */
  function Note(loops: seq<LoopFinding>, f: LoopFinding): seq<LoopFinding> {
    var i := Position(loops, f.signature);
    if i < |loops| then loops[i := loops[i].(occurrences := f.occurrences, lastSeq := f.lastSeq)] else loops + [f]
  }

  function FindingAtEnd(calls: seq<Call>, window: nat): LoopFinding
    requires calls != []
  {
    var c := calls[|calls| - 1];
    var matches := Matches(Recent(calls, window), c.signature);
    LoopFinding(c.signature, |matches|, if matches == [] then c.seqNo else matches[0].seqNo, c.seqNo)
  }

  function LoopsOf(calls: seq<Call>, window: nat, threshold: nat): seq<LoopFinding> {
    if calls == [] then []
    else
      var before := LoopsOf(calls[..|calls| - 1], window, threshold);
      if HitAtEnd(calls, window, threshold, calls[|calls| - 1].signature) then Note(before, FindingAtEnd(calls, window)) else before
  }

  method DetectLoops(calls: seq<Option<Call>>, window: nat, threshold: nat) returns (loops: seq<LoopFinding>)
    ensures loops == if window == 0 || threshold == 0 then [] else LoopsOf(Signed(calls), window, threshold)
  {
    loops := [];
    if window == 0 || threshold == 0 { return; }
    var recent: seq<Call> := [];
    for i := 0 to |calls|
      invariant recent == Recent(Signed(calls[..i]), window)
      invariant loops == LoopsOf(Signed(calls[..i]), window, threshold)
    {
      SignedStep(calls, i);
      if calls[i].Some? {
        recent, loops := HandleCall(recent, loops, calls[i].value, window, threshold, Signed(calls[..i]));
      }
    }
    assert calls[..|calls|] == calls;
  }

  method HandleCall(recent: seq<Call>, loops: seq<LoopFinding>, call: Call, window: nat, threshold: nat, ghost seen: seq<Call>)
    returns (nowRecent: seq<Call>, nowLoops: seq<LoopFinding>)
    requires window > 0 && threshold > 0
    requires recent == Recent(seen, window) && loops == LoopsOf(seen, window, threshold)
    ensures nowRecent == Recent(seen + [call], window) && nowLoops == LoopsOf(seen + [call], window, threshold)
  {
    nowRecent, nowLoops := recent + [call], loops;
    if |nowRecent| > window { nowRecent := nowRecent[1..]; }
    RecentSlides(seen, call, window);
    var occurrences := FilterCalls(nowRecent, call.signature);
    LoopsWithCall(seen, call, window, threshold, occurrences);
    if |occurrences| >= threshold {
      nowLoops := Record(loops, LoopFinding(call.signature, |occurrences|, occurrences[0].seqNo, occurrences[|occurrences| - 1].seqNo));
    }
  }

  lemma LoopsWithCall(seen: seq<Call>, call: Call, window: nat, threshold: nat, matches: seq<Call>)
    requires window > 0 && threshold > 0 && matches == Matches(Recent(seen + [call], window), call.signature)
    ensures matches != []
    ensures LoopsOf(seen + [call], window, threshold) ==
            if |matches| < threshold then LoopsOf(seen, window, threshold)
            else Note(LoopsOf(seen, window, threshold),
                      LoopFinding(call.signature, |matches|, matches[0].seqNo, matches[|matches| - 1].seqNo))
  {
    var now := seen + [call];
    assert now[..|now| - 1] == seen && now[|now| - 1] == call;
    LastMatch(now, window);
    assert HitAtEnd(now, window, threshold, call.signature) == (|matches| >= threshold);
    assert FindingAtEnd(now, window) == LoopFinding(call.signature, |matches|, matches[0].seqNo, matches[|matches| - 1].seqNo);
  }

  lemma RecentSlides(seen: seq<Call>, call: Call, window: nat)
    requires window > 0
    ensures var next := Recent(seen, window) + [call];
            Recent(seen + [call], window) == if |next| > window then next[1..] else next
  {
  }

  /** The calls of the events that carry a signature. */
  function Signed(calls: seq<Option<Call>>): seq<Call> {
    if calls == [] then []
    else
      var last := calls[|calls| - 1];
      Signed(calls[..|calls| - 1]) + (if last.Some? then [last.value] else [])
  }

  lemma SignedStep(calls: seq<Option<Call>>, i: nat)
    requires i < |calls|
    ensures Signed(calls[..i + 1]) ==
            if calls[i].Some? then Signed(calls[..i]) + [calls[i].value] else Signed(calls[..i])
  {
    assert calls[..i + 1][..i] == calls[..i];
  }

  method FilterCalls(recent: seq<Call>, signature: string) returns (occurrences: seq<Call>)
    ensures occurrences == Matches(recent, signature)
  {
    occurrences := [];
    for i := 0 to |recent|
      invariant occurrences == Matches(recent[..i], signature)
    {
      assert recent[..i + 1][..i] == recent[..i];
      if recent[i].signature == signature { occurrences := occurrences + [recent[i]]; }
    }
    assert recent[..|recent|] == recent;
  }

  method Record(loops: seq<LoopFinding>, f: LoopFinding) returns (updated: seq<LoopFinding>)
    ensures updated == Note(loops, f)
  {
    for i := 0 to |loops|
      invariant forall j :: 0 <= j < i ==> loops[j].signature != f.signature
    {
      if loops[i].signature == f.signature {
        updated := loops[i := loops[i].(occurrences := f.occurrences, lastSeq := f.lastSeq)];
        return;
      }
    }
    updated := loops + [f];
  }

  /** The newest match of a window that ends with the call is the call itself. */
  lemma LastMatch(calls: seq<Call>, window: nat)
    requires calls != [] && window > 0
    ensures var c := calls[|calls| - 1]; var m := Matches(Recent(calls, window), c.signature);
            m != [] && m[|m| - 1] == c
  {
  }

  // ---- Hits over a whole run ----

  /** The first position whose window holds the signature often enough. */
  function FirstHit(calls: seq<Call>, window: nat, threshold: nat, signature: string): (p: Option<nat>)
    ensures p.Some? ==> p.value < |calls|
  {
    if calls == [] then None
    else
      var before := FirstHit(calls[..|calls| - 1], window, threshold, signature);
      if before.Some? then before
      else if HitAtEnd(calls, window, threshold, signature) then Some(|calls| - 1)
      else None
  }

  /** The last such position. */
  function LastHit(calls: seq<Call>, window: nat, threshold: nat, signature: string): (p: Option<nat>)
    ensures p.Some? ==> p.value < |calls|
  {
    if calls == [] then None
    else if HitAtEnd(calls, window, threshold, signature) then Some(|calls| - 1)
    else LastHit(calls[..|calls| - 1], window, threshold, signature)
  }

  predicate HitAt(calls: seq<Call>, window: nat, threshold: nat, signature: string, p: nat)
    requires p < |calls|
  {
    HitAtEnd(calls[..p + 1], window, threshold, signature)
  }

  /** They are the first and the last of all hits, and exist when any hit does. */
  lemma {:induction false} HitsAreBetween(calls: seq<Call>, window: nat, threshold: nat, signature: string, p: nat)
    requires p < |calls| && HitAt(calls, window, threshold, signature, p)
    ensures FirstHit(calls, window, threshold, signature).Some? && LastHit(calls, window, threshold, signature).Some?
    ensures FirstHit(calls, window, threshold, signature).value <= p <= LastHit(calls, window, threshold, signature).value
  {
    var init := calls[..|calls| - 1];
    if p < |init| {
      assert calls[..p + 1] == init[..p + 1];
      HitsAreBetween(init, window, threshold, signature, p);
    } else {
      assert calls[..p + 1] == calls;
    }
  }

  lemma FirstAndLastAreHits(calls: seq<Call>, window: nat, threshold: nat, signature: string)
    ensures var first := FirstHit(calls, window, threshold, signature);
            first.Some? ==> HitAt(calls, window, threshold, signature, first.value)
    ensures var last := LastHit(calls, window, threshold, signature);
            last.Some? ==> HitAt(calls, window, threshold, signature, last.value)
    ensures FirstHit(calls, window, threshold, signature).Some? == LastHit(calls, window, threshold, signature).Some?
  {
    FirstIsAHit(calls, window, threshold, signature);
    LastIsAHit(calls, window, threshold, signature);
  }

  lemma {:induction false} FirstIsAHit(calls: seq<Call>, window: nat, threshold: nat, signature: string)
    ensures var first := FirstHit(calls, window, threshold, signature);
            first.Some? ==> HitAt(calls, window, threshold, signature, first.value)
  {
    if calls == [] {
    } else {
      var init := calls[..|calls| - 1];
      FirstIsAHit(init, window, threshold, signature);
      assert calls[..|calls|] == calls;
      var first := FirstHit(init, window, threshold, signature);
      if first.Some? {
        HitAtPrefix(calls, window, threshold, signature, first.value);
      }
    }
  }

  lemma {:induction false} LastIsAHit(calls: seq<Call>, window: nat, threshold: nat, signature: string)
    ensures var last := LastHit(calls, window, threshold, signature);
            last.Some? ==> HitAt(calls, window, threshold, signature, last.value)
    ensures FirstHit(calls, window, threshold, signature).Some? == LastHit(calls, window, threshold, signature).Some?
  {
    if calls == [] {
    } else {
      var init := calls[..|calls| - 1];
      LastIsAHit(init, window, threshold, signature);
      assert calls[..|calls|] == calls;
      var last := LastHit(init, window, threshold, signature);
      if last.Some? {
        HitAtPrefix(calls, window, threshold, signature, last.value);
      }
    }
  }

  lemma HitAtPrefix(calls: seq<Call>, window: nat, threshold: nat, signature: string, p: nat)
    requires p < |calls| - 1
    ensures HitAt(calls[..|calls| - 1], window, threshold, signature, p) == HitAt(calls, window, threshold, signature, p)
  {
    assert calls[..|calls| - 1][..p + 1] == calls[..p + 1];
  }

  // ---- What is reported ----

  function Find(loops: seq<LoopFinding>, signature: string): Option<LoopFinding> {
    var i := Position(loops, signature);
    if i < |loops| then Some(loops[i]) else None
  }

  predicate DistinctSignatures(loops: seq<LoopFinding>) {
    forall i, j :: 0 <= i < j < |loops| ==> loops[i].signature != loops[j].signature
  }

  function FindingAt(calls: seq<Call>, window: nat, p: nat): LoopFinding
    requires p < |calls|
  {
    FindingAtEnd(calls[..p + 1], window)
  }

  /** The finding a signature deserves: as its last hit saw it, since the first occurrence its first hit saw. */
  function Deserved(calls: seq<Call>, window: nat, threshold: nat, signature: string): Option<LoopFinding> {
    var first, last := FirstHit(calls, window, threshold, signature), LastHit(calls, window, threshold, signature);
    if first.Some? && last.Some? then
      Some(FindingAt(calls, window, last.value).(firstSeq := FindingAt(calls, window, first.value).firstSeq))
    else None
  }

  lemma NoteFinds(loops: seq<LoopFinding>, f: LoopFinding, signature: string)
    requires DistinctSignatures(loops)
    ensures DistinctSignatures(Note(loops, f))
    ensures var known := Find(loops, signature);
            Find(Note(loops, f), signature) ==
              if signature != f.signature then known
              else if known.Some? then Some(f.(firstSeq := known.value.firstSeq))
              else Some(f)
  {
    var i := Position(loops, f.signature);
    var k := Position(loops, signature);
    if k < |loops| {
      PositionIs(Note(loops, f), signature, k);
    } else if signature == f.signature {
      PositionIs(Note(loops, f), signature, |loops|);
    }
  }

  lemma PositionIs(loops: seq<LoopFinding>, signature: string, i: nat)
    requires i < |loops| && loops[i].signature == signature && DistinctSignatures(loops)
    ensures Position(loops, signature) == i
  {
  }

  /** Each signature is reported exactly once, with what its first and last hits saw, or not at all. */
  lemma {:induction false} LoopsAreExact(calls: seq<Call>, window: nat, threshold: nat, signature: string)
    ensures DistinctSignatures(LoopsOf(calls, window, threshold))
    ensures Find(LoopsOf(calls, window, threshold), signature) == Deserved(calls, window, threshold, signature)
  {
    if calls == [] {
    } else {
      var init, c := calls[..|calls| - 1], calls[|calls| - 1];
      LoopsAreExact(init, window, threshold, signature);
      FirstAndLastAreHits(init, window, threshold, signature);
      SameDeserved(calls, window, threshold, signature);
      if HitAtEnd(calls, window, threshold, c.signature) {
        NoteFinds(LoopsOf(init, window, threshold), FindingAtEnd(calls, window), signature);
      }
    }
  }

  lemma SameDeserved(calls: seq<Call>, window: nat, threshold: nat, signature: string)
    requires calls != []
    ensures var before := Deserved(calls[..|calls| - 1], window, threshold, signature);
            Deserved(calls, window, threshold, signature) ==
              if !HitAtEnd(calls, window, threshold, signature) then before
              else if before.None? then Some(FindingAtEnd(calls, window))
              else Some(FindingAtEnd(calls, window).(firstSeq := before.value.firstSeq))
  {
    var init := calls[..|calls| - 1];
    FirstAndLastAreHits(init, window, threshold, signature);
    var first, last := FirstHit(init, window, threshold, signature), LastHit(init, window, threshold, signature);
    FindingAtPrefix(calls, |calls|, window, |calls| - 1);
    assert calls[..|calls|] == calls;
    if first.Some? {
      FindingAtPrefix(calls, |init|, window, first.value);
      FindingAtPrefix(calls, |init|, window, last.value);
    }
  }

  lemma FindingAtPrefix(calls: seq<Call>, n: nat, window: nat, p: nat)
    requires p < n <= |calls|
    ensures FindingAt(calls[..n], window, p) == FindingAt(calls, window, p)
  {
    assert calls[..n][..p + 1] == calls[..p + 1];
  }

  // ---- When a signature is reported at all ----

  /** Some run of at most `window` consecutive calls holds the signature at least `threshold` times. */
  ghost predicate Repeats(calls: seq<Call>, window: nat, threshold: nat, signature: string) {
    exists a, b :: 0 <= a <= b <= |calls| && b - a <= window && |Matches(calls[a..b], signature)| >= threshold
  }

  lemma ReportedExactlyWhenRepeated(calls: seq<Call>, window: nat, threshold: nat, signature: string)
    requires window > 0 && threshold > 0
    ensures Find(LoopsOf(calls, window, threshold), signature).Some? <==> Repeats(calls, window, threshold, signature)
  {
    LoopsAreExact(calls, window, threshold, signature);
    FirstAndLastAreHits(calls, window, threshold, signature);
    var first := FirstHit(calls, window, threshold, signature);
    if first.Some? {
      HitIsARun(calls, window, threshold, signature, first.value);
    }
    if Repeats(calls, window, threshold, signature) {
      var a, b :| 0 <= a <= b <= |calls| && b - a <= window && |Matches(calls[a..b], signature)| >= threshold;
      RunHoldsAHit(calls, window, threshold, signature, a, b);
    }
  }

  lemma HitIsARun(calls: seq<Call>, window: nat, threshold: nat, signature: string, p: nat)
    requires p < |calls| && HitAt(calls, window, threshold, signature, p)
    ensures Repeats(calls, window, threshold, signature)
  {
    var b := p + 1;
    var a := if b > window then b - window else 0;
    assert Recent(calls[..b], window) == calls[a..b];
  }

  lemma {:induction false} MatchesAppend(a: seq<Call>, b: seq<Call>, signature: string)
    ensures Matches(a + b, signature) == Matches(a, signature) + Matches(b, signature)
  {
    if b == [] {
      assert a + b == a;
    } else {
      assert (a + b)[..|a + b| - 1] == a + b[..|b| - 1];
      MatchesAppend(a, b[..|b| - 1], signature);
    }
  }

  /** The last match of the run is a hit: the window that ends there holds the whole run before it. */
  lemma {:induction false} RunHoldsAHit(calls: seq<Call>, window: nat, threshold: nat, signature: string, a: nat, b: nat)
    requires threshold > 0 && a <= b <= |calls| && b - a <= window && |Matches(calls[a..b], signature)| >= threshold
    ensures FirstHit(calls, window, threshold, signature).Some?
    decreases b
  {
    LastOfRun(calls, signature, a, b);
    if calls[b - 1].signature != signature {
      RunHoldsAHit(calls, window, threshold, signature, a, b - 1);
    } else {
      RunEndsInAHit(calls, window, threshold, signature, a, b);
      HitsAreBetween(calls, window, threshold, signature, b - 1);
    }
  }

  lemma LastOfRun(calls: seq<Call>, signature: string, a: nat, b: nat)
    requires a <= b <= |calls|
    ensures Matches(calls[a..b], signature) ==
            if a == b then []
            else Matches(calls[a..b - 1], signature) + (if calls[b - 1].signature == signature then [calls[b - 1]] else [])
  {
    if a < b {
      assert calls[a..b][..b - a - 1] == calls[a..b - 1];
    }
  }

  lemma RunEndsInAHit(calls: seq<Call>, window: nat, threshold: nat, signature: string, a: nat, b: nat)
    requires a < b <= |calls| && b - a <= window && |Matches(calls[a..b], signature)| >= threshold
    requires calls[b - 1].signature == signature
    ensures HitAt(calls, window, threshold, signature, b - 1)
  {
    WindowHoldsTheRun(calls, window, signature, a, b);
    assert calls[..b][b - 1] == calls[b - 1];
  }

  lemma WindowHoldsTheRun(calls: seq<Call>, window: nat, signature: string, a: nat, b: nat)
    requires a <= b <= |calls| && b - a <= window
    ensures |Matches(Recent(calls[..b], window), signature)| >= |Matches(calls[a..b], signature)|
  {
    var start := if b > window then b - window else 0;
    assert Recent(calls[..b], window) == calls[start..a] + calls[a..b];
    MatchesAppend(calls[start..a], calls[a..b], signature);
  }

  /** A loop that was reported stays reported, and keeps its first occurrence, however the run goes on. */
  lemma {:induction false} LoopsStay(calls: seq<Call>, more: seq<Call>, window: nat, threshold: nat, signature: string)
    ensures var before := Find(LoopsOf(calls, window, threshold), signature);
            var after := Find(LoopsOf(calls + more, window, threshold), signature);
            before.Some? ==> after.Some? && after.value.firstSeq == before.value.firstSeq
  {
    if more == [] {
      assert calls + more == calls;
    } else {
      var init := more[..|more| - 1];
      LoopsStay(calls, init, window, threshold, signature);
      assert (calls + more)[..|calls + more| - 1] == calls + init;
      LoopsAreExact(calls + init, window, threshold, signature);
      NoteFinds(LoopsOf(calls + init, window, threshold), FindingAtEnd(calls + more, window), signature);
    }
  }

  lemma SomeLoopStays(calls: seq<Call>, more: seq<Call>, window: nat, threshold: nat)
    ensures LoopsOf(calls, window, threshold) != [] ==> LoopsOf(calls + more, window, threshold) != []
  {
    var loops := LoopsOf(calls, window, threshold);
    if loops != [] {
      LoopsStay(calls, more, window, threshold, loops[0].signature);
      assert Find(loops, loops[0].signature).Some?;
    }
  }

  // ---- What a finding says ----

  /** The positions from `a` up to `b` whose call has the signature. */
  ghost function Between(calls: seq<Call>, a: nat, b: nat, signature: string): set<nat> {
    set k: nat | a <= k < b && k < |calls| && calls[k].signature == signature
  }

  /** `m` is the earliest of them. */
  ghost predicate Earliest(calls: seq<Call>, a: nat, b: nat, signature: string, m: nat) {
    m in Between(calls, a, b, signature) && forall k :: k in Between(calls, a, b, signature) ==> m <= k
  }

  lemma OneMorePosition(calls: seq<Call>, a: nat, b: nat, signature: string)
    requires a < b <= |calls|
    ensures Between(calls, a, b, signature) ==
            Between(calls, a, b - 1, signature) + (if calls[b - 1].signature == signature then {b - 1} else {})
  {
  }

  lemma {:induction false} MatchesAreBetween(calls: seq<Call>, a: nat, b: nat, signature: string) returns (m: nat)
    requires a <= b <= |calls|
    ensures |Matches(calls[a..b], signature)| == |Between(calls, a, b, signature)|
    ensures Between(calls, a, b, signature) != {} ==>
              Earliest(calls, a, b, signature, m) && Matches(calls[a..b], signature)[0] == calls[m]
    decreases b
  {
    m := a;
    LastOfRun(calls, signature, a, b);
    if a == b {
      assert Between(calls, a, b, signature) == {};
    } else {
      m := MatchesAreBetween(calls, a, b - 1, signature);
      OneMorePosition(calls, a, b, signature);
      if Between(calls, a, b - 1, signature) == {} {
        m := b - 1;
      }
    }
  }

  /** The window of the calls that end at position `p` begins here. */
  function Begin(window: nat, p: nat): nat { if p + 1 > window then p + 1 - window else 0 }

  lemma WindowAtPosition(calls: seq<Call>, window: nat, p: nat)
    requires p < |calls|
    ensures Recent(calls[..p + 1], window) == calls[Begin(window, p)..p + 1]
  {
  }

  /** The call at `p` has the signature, as have `threshold` of the last `window` calls. */
  ghost predicate Hits(calls: seq<Call>, window: nat, threshold: nat, signature: string, p: nat) {
    p < |calls| && calls[p].signature == signature && |Between(calls, Begin(window, p), p + 1, signature)| >= threshold
  }

  lemma HitMeans(calls: seq<Call>, window: nat, threshold: nat, signature: string, p: nat)
    requires p < |calls|
    ensures HitAt(calls, window, threshold, signature, p) <==> Hits(calls, window, threshold, signature, p)
  {
    WindowAtPosition(calls, window, p);
    var m := MatchesAreBetween(calls, Begin(window, p), p + 1, signature);
    assert calls[..p + 1][p] == calls[p];
  }

  lemma FindingMeans(calls: seq<Call>, window: nat, p: nat) returns (m: nat)
    requires p < |calls| && window > 0
    ensures var f, signature := FindingAt(calls, window, p), calls[p].signature;
            && f.signature == signature && f.lastSeq == calls[p].seqNo
            && f.occurrences == |Between(calls, Begin(window, p), p + 1, signature)|
            && Earliest(calls, Begin(window, p), p + 1, signature, m) && f.firstSeq == calls[m].seqNo
  {
    WindowAtPosition(calls, window, p);
    m := MatchesAreBetween(calls, Begin(window, p), p + 1, calls[p].signature);
    assert p in Between(calls, Begin(window, p), p + 1, calls[p].signature);
    assert calls[..p + 1][p] == calls[p];
  }

  /** `first` and `last` are the first and the last position at which the signature hits. */
  ghost predicate FirstAndLast(calls: seq<Call>, window: nat, threshold: nat, signature: string, first: nat, last: nat) {
    && Hits(calls, window, threshold, signature, first) && Hits(calls, window, threshold, signature, last)
    && forall p: nat :: Hits(calls, window, threshold, signature, p) ==> first <= p <= last
  }

  /**
   * A reported loop counts the signature in the window of its last hit and names that hit's sequence
   * number; its first occurrence is the earliest in the window of its first hit.
   */
  lemma LoopsMean(calls: seq<Call>, window: nat, threshold: nat, f: LoopFinding) returns (first: nat, last: nat, m: nat)
    requires window > 0 && threshold > 0 && f in LoopsOf(calls, window, threshold)
    ensures FirstAndLast(calls, window, threshold, f.signature, first, last)
    ensures f.occurrences == |Between(calls, Begin(window, last), last + 1, f.signature)| && f.lastSeq == calls[last].seqNo
    ensures Earliest(calls, Begin(window, first), first + 1, f.signature, m) && f.firstSeq == calls[m].seqNo
  {
    first, last := LoopDeserves(calls, window, threshold, f);
    HitsSpan(calls, window, threshold, f.signature);
    m := FindingMeans(calls, window, first);
    var other := FindingMeans(calls, window, last);
  }

  lemma LoopDeserves(calls: seq<Call>, window: nat, threshold: nat, f: LoopFinding) returns (first: nat, last: nat)
    requires f in LoopsOf(calls, window, threshold)
    ensures FirstHit(calls, window, threshold, f.signature) == Some(first) && LastHit(calls, window, threshold, f.signature) == Some(last)
    ensures f == FindingAt(calls, window, last).(firstSeq := FindingAt(calls, window, first).firstSeq)
  {
    LoopsAreExact(calls, window, threshold, f.signature);
    FoundInLoops(LoopsOf(calls, window, threshold), f);
    first, last := FirstHit(calls, window, threshold, f.signature).value, LastHit(calls, window, threshold, f.signature).value;
  }

  lemma HitsSpan(calls: seq<Call>, window: nat, threshold: nat, signature: string)
    ensures var first, last := FirstHit(calls, window, threshold, signature), LastHit(calls, window, threshold, signature);
            first.Some? && last.Some? ==> FirstAndLast(calls, window, threshold, signature, first.value, last.value)
  {
    var first, last := FirstHit(calls, window, threshold, signature), LastHit(calls, window, threshold, signature);
    FirstAndLastAreHits(calls, window, threshold, signature);
    if first.Some? && last.Some? {
      HitMeans(calls, window, threshold, signature, first.value);
      HitMeans(calls, window, threshold, signature, last.value);
      forall p: nat | Hits(calls, window, threshold, signature, p) ensures first.value <= p <= last.value {
        HitMeans(calls, window, threshold, signature, p);
        HitsAreBetween(calls, window, threshold, signature, p);
      }
    }
  }

  lemma FoundInLoops(loops: seq<LoopFinding>, f: LoopFinding)
    requires DistinctSignatures(loops) && f in loops
    ensures Find(loops, f.signature) == Some(f)
  {
    var i: nat :| i < |loops| && loops[i] == f;
    PositionIs(loops, f.signature, i);
  }

  lemma NoteKeepsSignatures(loops: seq<LoopFinding>, f: LoopFinding)
    ensures |Note(loops, f)| == |loops| + (if Find(loops, f.signature).Some? then 0 else 1)
    ensures forall k :: 0 <= k < |loops| ==> Note(loops, f)[k].signature == loops[k].signature
    ensures Find(loops, f.signature) == None ==> Note(loops, f)[|loops|] == f
  {
  }

  lemma ReportedHasHit(calls: seq<Call>, window: nat, threshold: nat, i: nat)
    requires i < |LoopsOf(calls, window, threshold)|
    ensures FirstHit(calls, window, threshold, LoopsOf(calls, window, threshold)[i].signature).Some?
  {
    var first, last := LoopDeserves(calls, window, threshold, LoopsOf(calls, window, threshold)[i]);
  }

  /** Loops are listed in the order of their first hits. */
  lemma {:induction false} LoopsByFirstHit(calls: seq<Call>, window: nat, threshold: nat, i: nat, j: nat)
    requires i < j < |LoopsOf(calls, window, threshold)|
    ensures var loops := LoopsOf(calls, window, threshold);
            var first := FirstHit(calls, window, threshold, loops[i].signature);
            var later := FirstHit(calls, window, threshold, loops[j].signature);
            first.Some? && later.Some? && first.value < later.value
  {
    var init := calls[..|calls| - 1];
    var before := LoopsOf(init, window, threshold);
    NoteKeepsSignatures(before, FindingAtEnd(calls, window));
    ReportedHasHit(calls, window, threshold, i);
    ReportedHasHit(calls, window, threshold, j);
    if j < |before| {
      LoopsByFirstHit(init, window, threshold, i, j);
    } else {
      ReportedHasHit(init, window, threshold, i);
      LoopsAreExact(init, window, threshold, calls[|calls| - 1].signature);
      FirstAndLastAreHits(init, window, threshold, calls[|calls| - 1].signature);
    }
  }
}
