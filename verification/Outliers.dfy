/**
 * The outlier rules of `detect_outliers` (crates/statguardian-engine/src/batch.rs), over the reals.
 *
 * The z-score rule compares a deviation with three standard deviations; here both sides are
 * squared, which avoids the square root (`SquaresDecide`).
 */
module Outliers {
  import opened Sequences
  import opened Ast
  import S = StableSort

  /** A value that is present, with its row. */
  datatype Observation = Observation(row: nat, x: real)

  predicate RealLe(a: real, b: real) { a <= b }

  function Observations(cells: seq<Option<real>>): seq<Observation> {
    if cells == [] then [] else
      var n := |cells| - 1;
      Observations(cells[..n]) + (if cells[n].Some? then [Observation(n, cells[n].value)] else [])
  }

  function Xs(obs: seq<Observation>): (xs: seq<real>)
    ensures |xs| == |obs|
  {
    if obs == [] then [] else [obs[0].x] + Xs(obs[1..])
  }

  /** The rows whose value the rule flags, in order. */
  function RowsWhere(obs: seq<Observation>, flag: real -> bool): seq<nat> {
    if obs == [] then []
    else (if flag(obs[0].x) then [obs[0].row] else []) + RowsWhere(obs[1..], flag)
  }

  // ---- Interquartile range ----

  datatype Fences = Fences(lo: real, hi: real)

  /** The fences lie one and a half interquartile ranges outside the quartiles, by position. */
  function IqrFences(xs: seq<real>): Fences
    requires xs != []
  {
    var sorted := S.Sort(RealLe, xs);
    var n := |xs|;
    var q1, q3 := sorted[n / 4], sorted[3 * n / 4];
    Fences(q1 - 1.5 * (q3 - q1), q3 + 1.5 * (q3 - q1))
  }

  predicate Outside(f: Fences, x: real) { x < f.lo || x > f.hi }

  // ---- z-score ----

  function Sum(xs: seq<real>): real {
    if xs == [] then 0.0 else xs[0] + Sum(xs[1..])
  }

  function Mean(xs: seq<real>): real
    requires xs != []
  {
    Sum(xs) / (|xs| as real)
  }

  function Square(x: real): (r: real)
    ensures r >= 0.0
  {
    x * x
  }

  function SumOfSquares(xs: seq<real>, mean: real): (r: real)
    ensures r >= 0.0
  {
    if xs == [] then 0.0 else Square(xs[0] - mean) + SumOfSquares(xs[1..], mean)
  }

  /**
   * The square of the sample standard deviation, never below the machine epsilon's square.  For a
   * single value the source divides zero by zero and keeps the epsilon.
   */
  function Variance(xs: seq<real>): (v: real)
    requires xs != []
    ensures v > 0.0
  {
    var floor := EPSILON * EPSILON;
    if |xs| == 1 then floor else
      var v := SumOfSquares(xs, Mean(xs)) / (|xs| - 1) as real;
      if v >= floor then v else floor
  }

  predicate Extreme(mean: real, variance: real, x: real) { Square(x - mean) > 9.0 * variance }

  lemma ProductSign(a: real, b: real)
    requires a >= 0.0 && b >= 0.0
    ensures a * b >= 0.0
    ensures a > 0.0 && b > 0.0 ==> a * b > 0.0
  {
  }

  lemma SquareLess(a: real, b: real)
    requires 0.0 <= a < b
    ensures a * a < b * b
  {
    var d := b - a;
    ProductSign(a, d);
    ProductSign(b, d);
    assert a * d + b * d == b * b - a * a;
  }

  lemma SquareOrder(a: real, b: real)
    requires a >= 0.0 && b >= 0.0
    ensures a < b <==> a * a < b * b
  {
    if a < b {
      SquareLess(a, b);
    } else if b < a {
      SquareLess(b, a);
    }
  }

  /** Comparing squares decides whether a value lies more than three standard deviations from the mean. */
  lemma SquaresDecide(mean: real, std: real, x: real)
    requires std > 0.0
    ensures Extreme(mean, Square(std), x) <==> Distance(x, mean) / std > 3.0
  {
    var d := Distance(x, mean);
    assert Square(x - mean) == d * d;
    var q := d / std;
    assert q * std == d;
    assert q > 3.0 <==> d > 3.0 * std by {
      assert q > 3.0 ==> (q - 3.0) * std > 0.0;
      assert q <= 3.0 ==> (3.0 - q) * std >= 0.0;
    }
    SquareOrder(3.0 * std, d);
    assert (3.0 * std) * (3.0 * std) == 9.0 * Square(std);
  }

  // ---- The rules ----

  /** The rows flagged by a method; an unknown method flags none. */
  function OutlierRows(rule: string, cells: seq<Option<real>>): seq<nat> {
    var obs := Observations(cells);
    var xs := Xs(obs);
    if xs == [] then []
    else if rule == "iqr" then RowsWhere(obs, IqrFlag(IqrFences(xs)))
    else if rule == "zscore" then RowsWhere(obs, ZScoreFlag(Mean(xs), Variance(xs)))
    else []
  }

  function IqrFlag(fences: Fences): real -> bool { x => Outside(fences, x) }

  function ZScoreFlag(mean: real, variance: real): real -> bool { x => Extreme(mean, variance, x) }

  lemma {:induction false} RowsWhereCount(obs: seq<Observation>, flag: real -> bool)
    ensures |RowsWhere(obs, flag)| == S.CountIf(flag, Xs(obs))
  {
    if obs == [] {
    } else {
      RowsWhereCount(obs[1..], flag);
      assert Xs(obs)[1..] == Xs(obs[1..]);
    }
  }

  lemma {:induction false} RowsWhereMember(obs: seq<Observation>, flag: real -> bool, row: nat)
    ensures row in RowsWhere(obs, flag) <==> exists o :: o in obs && o.row == row && flag(o.x)
  {
    if obs == [] {
    } else {
      RowsWhereMember(obs[1..], flag, row);
      assert forall o :: o in obs <==> o == obs[0] || o in obs[1..];
    }
  }

  lemma {:induction false} ObservationsAre(cells: seq<Option<real>>, o: Observation)
    ensures o in Observations(cells) <==> o.row < |cells| && cells[o.row] == Some(o.x)
  {
    if cells == [] {
    } else {
      ObservationsAre(cells[..|cells| - 1], o);
    }
  }

  /** A row is flagged exactly when it holds a value that the rule flags; a null never is. */
  lemma FlaggedRowsAre(cells: seq<Option<real>>, flag: real -> bool, row: nat)
    ensures row in RowsWhere(Observations(cells), flag) <==>
      row < |cells| && cells[row].Some? && flag(cells[row].value)
  {
    RowsWhereMember(Observations(cells), flag, row);
    forall o ensures o in Observations(cells) <==> o.row < |cells| && cells[o.row] == Some(o.x) {
      ObservationsAre(cells, o);
    }
    if row < |cells| && cells[row].Some? {
      assert Observation(row, cells[row].value) in Observations(cells);
    }
  }

  // ---- Bounds ----

  lemma RealOrder()
    ensures S.TotalPreorder(RealLe)
  {
  }

  /** The values at the sorted positions from a quarter to three quarters are never flagged. */
  lemma IqrKeepsTheMiddle(xs: seq<real>, k: nat)
    requires xs != [] && |xs| / 4 <= k <= 3 * |xs| / 4
    ensures k < |xs| && !Outside(IqrFences(xs), S.Sort(RealLe, xs)[k])
  {
    RealsSort(xs);
    var sorted, n := S.Sort(RealLe, xs), |xs|;
    InOrder(sorted, n / 4, k);
    InOrder(sorted, k, 3 * n / 4);
  }

  lemma RealsSort(xs: seq<real>)
    ensures S.Sorted(RealLe, S.Sort(RealLe, xs))
  {
    RealOrder();
    S.SortIsStable(RealLe, xs);
  }

  lemma InOrder(s: seq<real>, i: nat, j: nat)
    requires S.Sorted(RealLe, s) && i <= j < |s|
    ensures s[i] <= s[j]
  {
  }

  /** So the rule flags at most the values outside those positions. */
  lemma IqrFlagsAtMost(cells: seq<Option<real>>)
    requires Observations(cells) != []
    ensures var n := |Observations(cells)|;
      |OutlierRows("iqr", cells)| <= n - (3 * n / 4 - n / 4 + 1)
  {
    var obs := Observations(cells);
    var xs, n := Xs(obs), |obs|;
    var flag := IqrFlag(IqrFences(xs));
    RowsWhereCount(obs, flag);
    S.SortCount(flag, RealLe, xs);
    forall k | n / 4 <= k <= 3 * n / 4 ensures !flag(S.Sort(RealLe, xs)[k]) {
      IqrKeepsTheMiddle(xs, k);
    }
    UnflaggedRun(flag, S.Sort(RealLe, xs), n / 4, 3 * n / 4 + 1);
  }

  /** A stretch of unflagged values leaves at most the rest to be flagged. */
  lemma UnflaggedRun(flag: real -> bool, xs: seq<real>, a: nat, b: nat)
    requires a <= b <= |xs|
    requires forall k :: a <= k < b ==> !flag(xs[k])
    ensures S.CountIf(flag, xs) <= |xs| - (b - a)
  {
    S.CountPrefix(flag, xs[a..b], 0);
    S.CountSplit(flag, xs, b);
    S.CountSplit(flag, xs[..b], a);
    assert xs[..b][..a] == xs[..a] && xs[..b][a..] == xs[a..b];
  }

  lemma OneMoreTimes(k: nat, t: real)
    ensures (k + 1) as real * t == k as real * t + t
  {
  }

  /** If `k` values lie beyond a squared distance `t`, their squares alone add up to more than `k * t`. */
  lemma {:induction false} ExtremesAddUp(xs: seq<real>, mean: real, variance: real)
    ensures var k := S.CountIf(ZScoreFlag(mean, variance), xs);
      && SumOfSquares(xs, mean) >= k as real * (9.0 * variance)
      && (k > 0 ==> SumOfSquares(xs, mean) > k as real * (9.0 * variance))
  {
    if xs == [] {
    } else {
      ExtremesAddUp(xs[1..], mean, variance);
      OneMoreTimes(S.CountIf(ZScoreFlag(mean, variance), xs[1..]), 9.0 * variance);
    }
  }

  /**
   * The z-score rule flags `k` of `n` values only if `9k < n - 1`, so it flags nothing at all among
   * ten values or fewer.
   */
  lemma ZScoreFlagsAtMost(cells: seq<Option<real>>)
    ensures var k, n := |OutlierRows("zscore", cells)|, |Observations(cells)|;
      k == 0 || 9 * k < n - 1
  {
    var obs := Observations(cells);
    if obs != [] {
      var flag := ZScoreFlag(Mean(Xs(obs)), Variance(Xs(obs)));
      RowsWhereCount(obs, flag);
      FewAreExtreme(Xs(obs));
    }
  }

  lemma VarianceAtLeast(xs: seq<real>)
    requires |xs| > 1
    ensures Variance(xs) >= SumOfSquares(xs, Mean(xs)) / (|xs| - 1) as real
  {
  }

  lemma FewBeyond(xs: seq<real>, mean: real, variance: real, m: nat)
    requires m > 0 && variance > 0.0
    requires variance >= SumOfSquares(xs, mean) / m as real
    ensures var k := S.CountIf(ZScoreFlag(mean, variance), xs);
      k == 0 || 9 * k < m
  {
    var k := S.CountIf(ZScoreFlag(mean, variance), xs);
    var ss := SumOfSquares(xs, mean);
    ExtremesAddUp(xs, mean, variance);
    if k > 0 {
      FewExtremes(ss, variance, k, m);
    }
  }

  lemma FewAreExtreme(xs: seq<real>)
    requires xs != []
    ensures var k := S.CountIf(ZScoreFlag(Mean(xs), Variance(xs)), xs);
      k == 0 || 9 * k < |xs| - 1
  {
    if |xs| == 1 {
      SingleValueIsItsMean(xs);
      ProductSign(1.0, 9.0 * Variance(xs));
      ExtremesAddUp(xs, xs[0], Variance(xs));
    } else {
      VarianceAtLeast(xs);
      FewBeyond(xs, Mean(xs), Variance(xs), |xs| - 1);
    }
  }

  lemma SingleValueIsItsMean(xs: seq<real>)
    requires |xs| == 1
    ensures Mean(xs) == xs[0] && SumOfSquares(xs, Mean(xs)) == 0.0
  {
    assert Sum(xs) == xs[0] + Sum(xs[1..]);
  }

  lemma FewExtremes(ss: real, variance: real, k: nat, m: nat)
    requires m > 0 && variance > 0.0
    requires variance >= ss / m as real
    requires ss > k as real * (9.0 * variance)
    ensures 9 * k < m
  {
  }

  /** The bound is reached: among eleven values one can be flagged. */
  lemma ElevenValuesCanHaveAnOutlier()
    ensures OutlierRows("zscore", seq(10, _ => Some(0.0)) + [Some(11.0)]) == [10]
  {
    var cells := seq(10, _ => Some(0.0)) + [Some(11.0)];
    var zeros := Zeros(10);
    ZeroObservations(10);
    assert cells[..10] == seq(10, _ => Some(0.0));
    var obs := Observations(cells);
    assert obs == zeros + [Observation(10, 11.0)];
    ZerosThen(zeros, 11.0);
    var xs := Xs(obs);
    assert Mean(xs) == 1.0 && SumOfSquares(xs, 1.0) == 110.0;
    assert Variance(xs) == 11.0;
    var flag := ZScoreFlag(1.0, 11.0);
    assert !flag(0.0) && flag(11.0) by {
      assert Square(-1.0) == 1.0 && Square(10.0) == 100.0;
    }
    OnlyTheLast(zeros, Observation(10, 11.0), flag);
  }

  function Zeros(n: nat): seq<Observation> {
    seq(n, i requires 0 <= i => Observation(i, 0.0))
  }

  lemma {:induction false} ZeroObservations(n: nat)
    ensures Observations(seq(n, _ => Some(0.0))) == Zeros(n)
  {
    if n == 0 {
    } else {
      ZeroObservations(n - 1);
      assert seq(n, _ => Some(0.0))[..n - 1] == seq(n - 1, _ => Some(0.0));
      assert Zeros(n) == Zeros(n - 1) + [Observation(n - 1, 0.0)];
    }
  }

  lemma {:induction false} ZerosThen(zeros: seq<Observation>, x: real)
    requires forall o :: o in zeros ==> o.x == 0.0
    ensures var xs := Xs(zeros + [Observation(10, x)]);
      Sum(xs) == x && SumOfSquares(xs, 1.0) == |zeros| as real + Square(x - 1.0)
  {
    var all := zeros + [Observation(10, x)];
    if zeros == [] {
      assert Xs(all) == [x];
      assert Sum([x]) == x + Sum([x][1..]);
    } else {
      ZerosThen(zeros[1..], x);
      assert all[1..] == zeros[1..] + [Observation(10, x)];
      assert Xs(all)[1..] == Xs(all[1..]);
      assert zeros[0] in zeros;
    }
  }

  lemma {:induction false} OnlyTheLast(zeros: seq<Observation>, last: Observation, flag: real -> bool)
    requires forall o :: o in zeros ==> o.x == 0.0
    requires !flag(0.0) && flag(last.x)
    ensures RowsWhere(zeros + [last], flag) == [last.row]
  {
    var all := zeros + [last];
    if zeros != [] {
      OnlyTheLast(zeros[1..], last, flag);
      assert all[1..] == zeros[1..] + [last];
      assert zeros[0] in zeros;
    }
  }

  // ---- Which values are flagged ----

  /** The interquartile rule flags a value that lies beyond a quartile by more than one and a half times their distance. */
  lemma IqrFlagsExactly(cells: seq<Option<real>>, row: nat)
    requires Observations(cells) != []
    ensures var sorted := S.Sort(RealLe, Xs(Observations(cells)));
            var n := |sorted|;
            var low, high := sorted[n / 4], sorted[3 * n / 4];
            row in OutlierRows("iqr", cells) <==>
              row < |cells| && cells[row].Some? &&
              (2.0 * (low - cells[row].value) > 3.0 * (high - low) || 2.0 * (cells[row].value - high) > 3.0 * (high - low))
  {
    FlaggedRowsAre(cells, IqrFlag(IqrFences(Xs(Observations(cells)))), row);
  }

  /** The mean is what the values sum to when each is replaced by it. */
  lemma MeanTimesCount(xs: seq<real>)
    requires xs != []
    ensures Mean(xs) * |xs| as real == Sum(xs)
  {
  }

  /**
   * The squared distance from the mean is more than nine times the sample variance, which is taken to be
   * at least the square of the machine epsilon; a single value is never that far.
   */
  predicate FarFromMean(xs: seq<real>, x: real)
    requires xs != []
  {
    var n, d := |xs|, x - Mean(xs);
    n > 1 && (n - 1) as real * (d * d) > 9.0 * SumOfSquares(xs, Mean(xs)) && d * d > 9.0 * (EPSILON * EPSILON)
  }

  lemma ZScoreFlagsExactly(cells: seq<Option<real>>, row: nat)
    requires Observations(cells) != []
    ensures row in OutlierRows("zscore", cells) <==>
              row < |cells| && cells[row].Some? && FarFromMean(Xs(Observations(cells)), cells[row].value)
  {
    var xs := Xs(Observations(cells));
    FlaggedRowsAre(cells, ZScoreFlag(Mean(xs), Variance(xs)), row);
    if row < |cells| && cells[row].Some? {
      OnlyObservation(cells, row);
      ExtremeExactly(xs, cells[row].value);
    }
  }

  lemma OnlyObservation(cells: seq<Option<real>>, row: nat)
    requires row < |cells| && cells[row].Some?
    ensures var obs := Observations(cells); |obs| == 1 ==> Xs(obs)[0] == cells[row].value
  {
    var o := Observation(row, cells[row].value);
    ObservationsAre(cells, o);
    assert |Observations(cells)| == 1 ==> Observations(cells)[0] == o;
  }

  lemma ExtremeExactly(xs: seq<real>, x: real)
    requires xs != [] && (|xs| == 1 ==> xs[0] == x)
    ensures Extreme(Mean(xs), Variance(xs), x) <==> FarFromMean(xs, x)
  {
    var d := x - Mean(xs);
    assert Square(d) == d * d;
    if |xs| == 1 {
      SingleValueIsItsMean(xs);
      assert d * d == 0.0;
    } else {
      ExtremeMeans(SumOfSquares(xs, Mean(xs)), |xs| - 1, d);
    }
  }

  lemma ExtremeMeans(spread: real, m: nat, d: real)
    requires m > 0 && spread >= 0.0
    ensures var v, floor := spread / m as real, EPSILON * EPSILON;
            d * d > 9.0 * (if v >= floor then v else floor) <==> m as real * (d * d) > 9.0 * spread && d * d > 9.0 * floor
  {
    var v := spread / m as real;
    assert v * m as real == spread;
    var gap := d * d - 9.0 * v;
    assert gap * m as real == m as real * (d * d) - 9.0 * spread;
    assert (gap > 0.0 ==> gap * m as real > 0.0) && (gap <= 0.0 ==> (-gap) * m as real >= 0.0);
  }

  lemma OtherMethodsFlagNothing(rule: string, cells: seq<Option<real>>)
    requires (rule != "iqr" && rule != "zscore") || Observations(cells) == []
    ensures OutlierRows(rule, cells) == []
  {
  }
}
