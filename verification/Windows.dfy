/**
 * Tumbling and sliding event windows (crates/statguardian-core/src/streaming.rs).  Times are nanoseconds
 * since the epoch; window starts are whole seconds, because the executors divide whole seconds.
 */
module Windows {
  import opened Sequences

  const SECOND: nat := 1_000_000_000

  datatype Event = Event(time: nat, text: string)

  /** A window is named by its number; its bounds both belong to it. */
  datatype Window = Window(number: nat, start: nat, end: nat, events: seq<Event>, closed: bool) {
    predicate Covers(ts: nat) { start <= ts <= end }

    function AddEvent(ts: nat, text: string): Result<Window, string> {
      if !Covers(ts) then Err("Event timestamp outside window bounds")
      else Ok(this.(events := events + [Event(ts, text)]))
    }
  }

  /** Window sizes are exact; the distance between window starts is cut down to whole seconds. */
  datatype Shape = Shape(size: nat, slide: nat) {
    function Step(): nat { (slide / SECOND) * SECOND }
  }

  function Start(s: Shape, k: nat): nat { k * s.Step() }

  function End(s: Shape, k: nat): nat { Start(s, k) + s.size }

  function WindowAt(s: Shape, k: nat): Window { Window(k, Start(s, k), End(s, k), [], false) }

  /** The number of the oldest window that ends after the timestamp: the walk over the slides stops there. */
  function OldestOpen(s: Shape, ts: nat): nat
    requires s.Step() > 0 || ts < s.size
  {
    if ts < s.size then 0 else (ts - s.size) / s.Step() + 1
  }

  /** The windows a call returns, oldest first. */
  function Returned(s: Shape, ts: nat): seq<Window>
    requires s.Step() > 0 || ts < s.size
  {
    var k := OldestOpen(s, ts);
    (if k > 0 && End(s, k - 1) == ts then [WindowAt(s, k - 1)] else [])
    + (if Start(s, k) <= ts then [WindowAt(s, k)] else [])
  }

  function Opened(windows: map<nat, Window>, w: Window): map<nat, Window> {
    if w.number in windows then windows else windows[w.number := w]
  }

  function OpenedAll(windows: map<nat, Window>, ws: seq<Window>): map<nat, Window> {
    if ws == [] then windows else Opened(OpenedAll(windows, ws[..|ws| - 1]), ws[|ws| - 1])
  }

  function Retained(windows: map<nat, Window>, cutoff: nat): map<nat, Window> {
    map k | k in windows && windows[k].end >= cutoff :: windows[k]
  }

  function Expired(windows: map<nat, Window>, cutoff: nat): set<Window> {
    set k | k in windows && windows[k].end < cutoff :: windows[k].(closed := true)
  }

  /** The map of open windows after a call. */
  function AfterEvent(s: Shape, windows: map<nat, Window>, ts: nat): map<nat, Window>
    requires s.Step() > 0 || ts < s.size
  {
    Retained(OpenedAll(windows, Returned(s, ts)), ts)
  }

  ghost predicate Genuine(s: Shape, windows: map<nat, Window>) {
    forall k :: k in windows ==> windows[k] == WindowAt(s, k)
  }

  class SlidingWindowExecutor {
    const shape: Shape
    var windows: map<nat, Window>

    constructor (shape: Shape)
      ensures this.shape == shape && windows == map[]
    {
      this.shape, windows := shape, map[];
    }

    /** Times before the epoch are refused.  Without a whole second of slide the walk may never end. */
    method GetWindowsForEvent(ts: int) returns (r: Result<seq<Window>, string>)
      requires Genuine(shape, windows)
      requires ts >= 0 ==> shape.Step() > 0 || ts < shape.size
      modifies this`windows
      ensures Genuine(shape, windows)
      ensures ts < 0 ==> r.Err? && windows == old(windows)
      ensures ts >= 0 ==> r == Ok(Returned(shape, ts)) && windows == AfterEvent(shape, old(windows), ts)
    {
      if ts < 0 { return Err("second time provided was later than self"); }
      var result: seq<Window>, k: nat, open := [], 0, false;
      ghost var last, initial := OldestOpen(shape, ts), windows;
      while !open
        invariant if open then result == Returned(shape, ts) else k <= last && result == ReturnedBefore(shape, ts, k)
        invariant Genuine(shape, windows) && windows == OpenedAll(initial, result)
        decreases if open then 0 else last - k + 1
      {
        result, open := VisitWindow(ts, k, result, initial);
        k := k + 1;
      }
      var evicted := EvictExpired(ts);
      r := Ok(result);
    }

    /** One turn of the walk over the slides; it is the last one when the window is still open after the timestamp. */
    method VisitWindow(ts: nat, k: nat, before: seq<Window>, ghost initial: map<nat, Window>)
      returns (result: seq<Window>, open: bool)
      requires shape.Step() > 0 || ts < shape.size
      requires k <= OldestOpen(shape, ts) && before == ReturnedBefore(shape, ts, k)
      requires Genuine(shape, windows) && windows == OpenedAll(initial, before)
      modifies this`windows
      ensures open == (k == OldestOpen(shape, ts))
      ensures result == if open then Returned(shape, ts) else ReturnedBefore(shape, ts, k + 1)
      ensures Genuine(shape, windows) && windows == OpenedAll(initial, result)
    {
      var start := Start(shape, k);
      var end := start + shape.size;
      result := before;
      if start <= ts && ts <= end {
        var window := Window(k, start, end, [], false);
        assert window == WindowAt(shape, k);
        OpensGenuinely(shape, windows, k);
        OpenedAllMore(initial, before, window);
        windows := Opened(windows, window);
        result := result + [windows[k]];
      }
      open := end > ts;
      CollectedAfter(shape, ts, k);
    }

    method EvictExpired(cutoff: nat) returns (evicted: set<Window>)
      modifies this`windows
      ensures windows == Retained(old(windows), cutoff)
      ensures evicted == Expired(old(windows), cutoff)
    {
      evicted := set k | k in windows && windows[k].end < cutoff :: windows[k].(closed := true);
      windows := map k | k in windows && windows[k].end >= cutoff :: windows[k];
    }
  }

  // ---- The walk over the slides ----

  /** What the walk has collected before it looks at window `k`. */
  function ReturnedBefore(s: Shape, ts: nat, k: nat): seq<Window>
    requires s.Step() > 0 || ts < s.size
  {
    if k > 0 && k == OldestOpen(s, ts) && End(s, k - 1) == ts then [WindowAt(s, k - 1)] else []
  }

  lemma MultiplesAscend(step: nat, j: nat, k: nat)
    requires j < k
    ensures (j + 1) * step <= k * step && (j + 1) * step == j * step + step
  {
  }

  lemma QuotientBounds(n: nat, step: nat)
    requires step > 0
    ensures (n / step) * step <= n < (n / step) * step + step
  {
  }

  /** The walk passes windows that have ended, the last of them perhaps right now, and stops at the first open one. */
  lemma WalkOrder(s: Shape, ts: nat, k: nat)
    requires s.Step() > 0 || ts < s.size
    requires k <= OldestOpen(s, ts)
    ensures End(s, k) > ts <==> k == OldestOpen(s, ts)
    ensures k + 1 < OldestOpen(s, ts) ==> End(s, k) < ts
  {
    var last := OldestOpen(s, ts);
    if ts >= s.size {
      QuotientBounds(ts - s.size, s.Step());
      MultiplesAscend(s.Step(), last - 1, last);
      if k < last - 1 {
        MultiplesAscend(s.Step(), k, last - 1);
      }
    }
  }

  lemma OpensGenuinely(s: Shape, windows: map<nat, Window>, k: nat)
    requires Genuine(s, windows)
    ensures var more := Opened(windows, WindowAt(s, k));
            Genuine(s, more) && k in more && more[k] == WindowAt(s, k)
  {
  }

  lemma OpenedAllMore(windows: map<nat, Window>, ws: seq<Window>, w: Window)
    ensures OpenedAll(windows, ws + [w]) == Opened(OpenedAll(windows, ws), w)
  {
  }

  lemma CollectedAfter(s: Shape, ts: nat, k: nat)
    requires s.Step() > 0 || ts < s.size
    requires k <= OldestOpen(s, ts)
    ensures End(s, k) > ts <==> k == OldestOpen(s, ts)
    ensures var now := ReturnedBefore(s, ts, k) + (if WindowAt(s, k).Covers(ts) then [WindowAt(s, k)] else []);
            (WindowAt(s, k).Covers(ts) || now == ReturnedBefore(s, ts, k)) &&
            now == if k == OldestOpen(s, ts) then Returned(s, ts) else ReturnedBefore(s, ts, k + 1)
  {
    WalkOrder(s, ts, k);
    if k < OldestOpen(s, ts) {
      MultiplesAscend(s.Step(), k, k + 1);
    }
  }

  // ---- Which windows are returned ----

  /** Every returned window covers the timestamp; the covering windows that are returned are those up to the oldest open one. */
  lemma ReturnedExactly(s: Shape, ts: nat, k: nat)
    requires s.Step() > 0 || ts < s.size
    ensures WindowAt(s, k) in Returned(s, ts) <==> k <= OldestOpen(s, ts) && WindowAt(s, k).Covers(ts)
    ensures forall w :: w in Returned(s, ts) ==> w == WindowAt(s, w.number) && w.Covers(ts)
  {
    var last := OldestOpen(s, ts);
    WalkOrder(s, ts, last);
    if last > 0 {
      WalkOrder(s, ts, last - 1);
      MultiplesAscend(s.Step(), last - 1, last);
    }
    if k <= last {
      WalkOrder(s, ts, k);
    }
  }

  /** A covering window is missed exactly when the window after the oldest open one has begun. */
  lemma MissesExactly(s: Shape, ts: nat)
    requires s.Step() > 0
    ensures (exists k :: WindowAt(s, k).Covers(ts) && WindowAt(s, k) !in Returned(s, ts)) <==>
            Start(s, OldestOpen(s, ts) + 1) <= ts
  {
    var last := OldestOpen(s, ts);
    WalkOrder(s, ts, last);
    MultiplesAscend(s.Step(), last, last + 1);
    ReturnedExactly(s, ts, last + 1);
    if k :| WindowAt(s, k).Covers(ts) && WindowAt(s, k) !in Returned(s, ts) {
      ReturnedExactly(s, ts, k);
      MultiplesAscend(s.Step(), last, k);
    }
    if Start(s, last + 1) <= ts {
      assert WindowAt(s, last + 1).Covers(ts);
    }
  }

  /** Windows that do not overlap are never missed. */
  lemma NothingMissedWithoutOverlap(s: Shape, ts: nat, k: nat)
    requires s.Step() > 0 && s.Step() >= s.size && WindowAt(s, k).Covers(ts)
    ensures WindowAt(s, k) in Returned(s, ts)
  {
    WalkOrder(s, ts, OldestOpen(s, ts));
    MultiplesAscend(s.Step(), OldestOpen(s, ts), OldestOpen(s, ts) + 1);
    MissesExactly(s, ts);
  }

  /** One-minute windows every ten seconds: at 65 s, six windows cover the event and one is returned. */
  lemma OverlappingWindowsAreMissed()
    ensures var s := Shape(60 * SECOND, 10 * SECOND); var ts := 65 * SECOND;
            && Returned(s, ts) == [WindowAt(s, 1)]
            && forall k :: 1 <= k <= 6 ==> WindowAt(s, k).Covers(ts)
  {
  }

  /** Without a whole second of slide every window is the first one, and none ever ends after a late timestamp. */
  lemma WalkWithoutSlideNeverEnds(s: Shape, ts: nat)
    ensures (s.Step() == 0 && ts >= s.size) <==> forall k :: End(s, k) <= ts
  {
    if s.Step() > 0 || ts < s.size {
      WalkOrder(s, ts, OldestOpen(s, ts));
    } else {
      assert forall k: nat :: End(s, k) == s.size by {
        assert forall k: nat :: Start(s, k) == 0;
      }
    }
  }

  // ---- Whole streams ----

  /** The open windows after a stream of events. */
  function Run(s: Shape, times: seq<nat>): map<nat, Window>
    requires s.Step() > 0
  {
    if times == [] then map[] else AfterEvent(s, Run(s, times[..|times| - 1]), times[|times| - 1])
  }

  function Holding(ws: seq<Window>): map<nat, Window> { OpenedAll(map[], ws) }

  predicate NonDecreasing(times: seq<nat>) { forall i, j :: 0 <= i < j < |times| ==> times[i] <= times[j] }

  lemma OldestOpenGrows(s: Shape, earlier: nat, later: nat)
    requires s.Step() > 0 && earlier <= later
    ensures OldestOpen(s, earlier) <= OldestOpen(s, later)
  {
    var a, b := OldestOpen(s, earlier), OldestOpen(s, later);
    if b < a {
      WalkOrder(s, earlier, b);
      WalkOrder(s, later, b);
      assert false;
    }
  }

  lemma {:induction false} OpenedAllMember(windows: map<nat, Window>, ws: seq<Window>, k: nat)
    ensures k in OpenedAll(windows, ws) <==> k in windows || exists w :: w in ws && w.number == k
    ensures k in windows ==> OpenedAll(windows, ws)[k] == windows[k]
  {
    if ws == [] {
    } else {
      var init := ws[..|ws| - 1];
      assert ws == init + [ws[|ws| - 1]];
      OpenedAllMember(windows, init, k);
    }
  }

  lemma {:induction false} OpenedAllGenuine(s: Shape, windows: map<nat, Window>, ws: seq<Window>)
    requires Genuine(s, windows) && forall w :: w in ws ==> w == WindowAt(s, w.number)
    ensures Genuine(s, OpenedAll(windows, ws))
  {
    if ws == [] {
    } else {
      OpenedAllGenuine(s, windows, ws[..|ws| - 1]);
      assert ws[|ws| - 1] in ws;
    }
  }

  lemma HoldingMember(s: Shape, ts: nat, k: nat)
    requires s.Step() > 0
    ensures k in Holding(Returned(s, ts)) <==> k <= OldestOpen(s, ts) && WindowAt(s, k).Covers(ts)
    ensures Genuine(s, Holding(Returned(s, ts)))
  {
    var ws := Returned(s, ts);
    ReturnedExactly(s, ts, k);
    OpenedAllGenuine(s, map[], ws);
    OpenedAllMember(map[], ws, k);
    if w :| w in ws && w.number == k {
      assert w == WindowAt(s, k);
    }
    if WindowAt(s, k) in ws {
      assert WindowAt(s, k).number == k;
    }
  }

  lemma AfterMember(s: Shape, windows: map<nat, Window>, ts: nat, k: nat)
    requires s.Step() > 0 && Genuine(s, windows)
    ensures k in AfterEvent(s, windows, ts) <==> (k in windows || k in Holding(Returned(s, ts))) && End(s, k) >= ts
    ensures Genuine(s, AfterEvent(s, windows, ts))
  {
    var ws := Returned(s, ts);
    ReturnedExactly(s, ts, k);
    OpenedAllGenuine(s, windows, ws);
    OpenedAllMember(windows, ws, k);
    OpenedAllMember(map[], ws, k);
  }

  /** A call replaces the windows of earlier calls by the ones it returns. */
  lemma NextCallReplaces(s: Shape, windows: map<nat, Window>, ts: nat)
    requires s.Step() > 0 && Genuine(s, windows)
    requires forall k :: k in windows ==> k <= OldestOpen(s, ts) && Start(s, k) <= ts
    ensures AfterEvent(s, windows, ts) == Holding(Returned(s, ts))
  {
    forall k: nat ensures k in AfterEvent(s, windows, ts) <==> k in Holding(Returned(s, ts)) {
      AfterMember(s, windows, ts, k);
      HoldingMember(s, ts, k);
    }
    AfterMember(s, windows, ts, 0);
    HoldingMember(s, ts, 0);
  }

  /** Over timestamps that never decrease, the map holds exactly the windows of the last call ... */
  lemma {:induction false} HoldsWhatWasReturned(s: Shape, times: seq<nat>)
    requires s.Step() > 0 && NonDecreasing(times) && times != []
    ensures Run(s, times) == Holding(Returned(s, times[|times| - 1]))
  {
    var init, ts := times[..|times| - 1], times[|times| - 1];
    var windows := Run(s, init);
    if init != [] {
      HoldsWhatWasReturned(s, init);
      var earlier := init[|init| - 1];
      assert earlier == times[|times| - 2];
      OldestOpenGrows(s, earlier, ts);
      HoldingMember(s, earlier, 0);
      forall k | k in windows ensures k <= OldestOpen(s, ts) && Start(s, k) <= ts {
        HoldingMember(s, earlier, k);
      }
    }
    NextCallReplaces(s, windows, ts);
  }

  /** ... and so never more than two. */
  lemma AtMostTwoWindows(s: Shape, times: seq<nat>)
    requires s.Step() > 0 && NonDecreasing(times)
    ensures |Run(s, times)| <= 2
  {
    if times != [] {
      HoldsWhatWasReturned(s, times);
      var ws := Returned(s, times[|times| - 1]);
      HoldingIsSmall(ws);
    }
  }

  lemma {:induction false} HoldingIsSmall(ws: seq<Window>)
    ensures |Holding(ws)| <= |ws|
  {
    if ws == [] {
    } else {
      HoldingIsSmall(ws[..|ws| - 1]);
    }
  }

  // ---- Tumbling windows ----

  /** Whole seconds divided by whole seconds. */
  function TumblingNumber(size: nat, ts: nat): nat
    requires size >= SECOND
  {
    (ts / SECOND) / (size / SECOND)
  }

  /** Tumbling windows start at multiples of the whole seconds of their size. */
  function TumblingAt(size: nat, n: nat): Window { WindowAt(Shape(size, size), n) }

  class TumblingWindowExecutor {
    const size: nat
    var windows: map<nat, Window>

    constructor (size: nat)
      ensures this.size == size && windows == map[]
    {
      this.size, windows := size, map[];
    }

    /** The number of the window for the event, which is open afterwards; a size below a second divides by zero. */
    method GetWindowForEvent(ts: int) returns (r: Result<nat, string>)
      requires ts >= 0 ==> size >= SECOND
      modifies this`windows
      ensures ts < 0 ==> r.Err? && windows == old(windows)
      ensures ts >= 0 ==> r == Ok(TumblingNumber(size, ts)) && windows == Opened(old(windows), TumblingAt(size, r.value))
    {
      if ts < 0 { return Err("second time provided was later than self"); }
      var n := (ts / SECOND) / (size / SECOND);
      if n !in windows {
        var start := n * ((size / SECOND) * SECOND);
        windows := windows[n := Window(n, start, start + size, [], false)];
      }
      r := Ok(n);
    }

    method CloseWindowsBefore(cutoff: nat) returns (closed: set<Window>)
      modifies this`windows
      ensures windows == Retained(old(windows), cutoff) && closed == Expired(old(windows), cutoff)
    {
      closed := set k | k in windows && windows[k].end < cutoff :: windows[k].(closed := true);
      windows := map k | k in windows && windows[k].end >= cutoff :: windows[k];
    }
  }

  /** The window of an event accepts it; with a size in whole seconds no other window begins before and ends after it. */
  lemma TumblingWindowIsTheOne(size: nat, ts: nat, n: nat)
    requires size >= SECOND
    ensures TumblingAt(size, TumblingNumber(size, ts)).AddEvent(ts, "").Ok?
    ensures size % SECOND == 0 ==>
              (n == TumblingNumber(size, ts) <==> TumblingAt(size, n).start <= ts < TumblingAt(size, n).end)
  {
    var secs, step := ts / SECOND, size / SECOND;
    var m := TumblingNumber(size, ts);
    QuotientBounds(secs, step);
    QuotientBounds(ts, SECOND);
    QuotientBounds(size, SECOND);
    StartInSeconds(size, m);
    assert m * step * SECOND <= secs * SECOND < (m * step + step) * SECOND;
    if n < m {
      MultiplesAscend(step * SECOND, n, m);
    } else if m < n {
      MultiplesAscend(step * SECOND, m, n);
    }
  }

  lemma StartInSeconds(size: nat, n: nat)
    ensures TumblingAt(size, n).start == n * (size / SECOND) * SECOND
  {
  }

  /** Sliding by the size is tumbling: the tumbling window is always among the sliding ones. */
  lemma SlidingBySizeTumbles(size: nat, ts: nat)
    requires size >= SECOND && size % SECOND == 0
    ensures TumblingAt(size, TumblingNumber(size, ts)) in Returned(Shape(size, size), ts)
  {
    TumblingWindowIsTheOne(size, ts, 0);
    NothingMissedWithoutOverlap(Shape(size, size), ts, TumblingNumber(size, ts));
  }

  // ---- What evicting does ----

  /** A window is kept as it is unless it ends before the cutoff, and those that are not kept are returned, closed. */
  lemma EvictionDivides(windows: map<nat, Window>, cutoff: nat)
    ensures var kept := Retained(windows, cutoff);
            && (forall k :: k in kept <==> k in windows && cutoff <= windows[k].end)
            && (forall k :: k in kept ==> kept[k] == windows[k])
            && (forall w :: w in Expired(windows, cutoff) <==> exists k :: k in windows && k !in kept && w == windows[k].(closed := true))
  {
  }
}
