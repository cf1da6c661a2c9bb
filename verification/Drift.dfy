/**
 * The Kolmogorov-Smirnov statistic (`DriftEngine::ks_statistic`,
 * crates/statguardian-stats/src/drift.rs): a merge of two sorted samples that tracks the largest
 * gap between their empirical distribution functions.
 *
 * Sample values are the NaN-free floats: the reals and the two infinities.  The fractions are
 * exact.
 */
module Drift {
  import opened Sequences
  import opened Ast
  import S = StableSort

  datatype Num = NegInf | Fin(x: real) | PosInf

  predicate Leq(a: Num, b: Num) {
    a.NegInf? || b.PosInf? || (a.Fin? && b.Fin? && a.x <= b.x)
  }

  lemma NumOrder()
    ensures S.TotalPreorder(Leq)
  {
  }

  // ---- Specification ----

  function AtMost(t: Num): Num -> bool { x => Leq(x, t) }

  /** The empirical distribution function: the fraction of samples at most `t`. */
  function Fraction(s: seq<Num>, t: Num): real
    requires s != []
  {
    S.CountIf(AtMost(t), s) as real / |s| as real
  }

  function Gap(a: seq<Num>, b: seq<Num>, t: Num): real
    requires a != [] && b != []
  {
    Distance(Fraction(a, t), Fraction(b, t))
  }

  /** `d` is the largest gap between the two distribution functions, and 0 without samples. */
  ghost predicate IsKs(a: seq<Num>, b: seq<Num>, d: real) {
    if a == [] || b == [] then d == 0.0
    else (forall t :: Gap(a, b, t) <= d) && (exists t :: Gap(a, b, t) == d)
  }

  // ---- The merge ----

  /** The first `n` elements are at most `last`, the others above it; without a `last` none is consumed. */
  ghost predicate Cut(s: seq<Num>, n: nat, last: Option<Num>) {
    && n <= |s|
    && (last.None? ==> n == 0)
    && (last.Some? ==> (forall k :: 0 <= k < n ==> Leq(s[k], last.value)) &&
                       (forall k :: n <= k < |s| ==> !Leq(s[k], last.value)))
  }

  predicate Beyond(last: Option<Num>, t: Num) { last.Some? ==> !Leq(t, last.value) }

  /** Between `last` and the next element the distribution function stays where it was. */
  lemma CountWithin(s: seq<Num>, n: nat, last: Option<Num>, t: Num)
    requires Cut(s, n, last) && Beyond(last, t)
    requires forall k :: n <= k < |s| ==> !Leq(s[k], t)
    ensures S.CountIf(AtMost(t), s) == n
  {
    S.CountPrefix(AtMost(t), s, n);
  }

  lemma CountAtCut(s: seq<Num>, n: nat, t: Num)
    requires Cut(s, n, Some(t))
    ensures S.CountIf(AtMost(t), s) == n
  {
    S.CountPrefix(AtMost(t), s, n);
  }

  /** `vals.get(i)`, or infinity past the end. */
  function ValueAt(s: seq<Num>, i: nat): Num { if i < |s| then s[i] else PosInf }

  /** Consumes the elements equal to the merge value `m`, when this side holds it. */
  method Advance(s: seq<Num>, i: nat, m: Num, ghost last: Option<Num>) returns (j: nat)
    requires S.Sorted(Leq, s) && Cut(s, i, last) && Beyond(last, m)
    requires Leq(m, ValueAt(s, i))
    ensures Cut(s, j, Some(m)) && j >= i
    ensures i < |s| && s[i] == m ==> j > i
  {
    j := i;
    while j < |s| && s[j] == m
      invariant i <= j <= |s|
      invariant forall k :: i <= k < j ==> s[k] == m
    {
      j := j + 1;
    }
    forall k | j <= k < |s| ensures !Leq(s[k], m) {
      assert Leq(s[j], s[k]);
      assert Leq(s[i], s[j]);
    }
  }

  /** The largest gap up to `last` is `d`, which is reached somewhere and covers the current gap. */
  ghost predicate LargestSoFar(a: seq<Num>, b: seq<Num>, last: Option<Num>, i: nat, j: nat, d: real)
    requires a != [] && b != []
  {
    && (forall t :: !Beyond(last, t) ==> Gap(a, b, t) <= d)
    && (exists t :: Gap(a, b, t) == d)
    && Distance(i as real / |a| as real, j as real / |b| as real) <= d
  }

  /** Extending the merge to the next value keeps the maximum. */
  lemma StepKeepsLargest(a: seq<Num>, b: seq<Num>, last: Option<Num>, i: nat, j: nat, d: real, m: Num, i': nat, j': nat)
    requires a != [] && b != [] && LargestSoFar(a, b, last, i, j, d)
    requires Cut(a, i, last) && Cut(b, j, last) && Beyond(last, m)
    requires forall k :: i <= k < |a| ==> Leq(m, a[k])
    requires forall k :: j <= k < |b| ==> Leq(m, b[k])
    requires Cut(a, i', Some(m)) && Cut(b, j', Some(m))
    ensures var g := Distance(i' as real / |a| as real, j' as real / |b| as real);
      LargestSoFar(a, b, Some(m), i', j', if g > d then g else d)
  {
    GapFromCounts(a, b, m, i', j') by {
      CountAtCut(a, i', m);
      CountAtCut(b, j', m);
    }
    forall t | Leq(t, m) && t != m && Beyond(last, t) ensures Gap(a, b, t) <= d {
      GapFromCounts(a, b, t, i, j) by {
        CountWithin(a, i, last, t);
        CountWithin(b, j, last, t);
      }
    }
  }

  lemma GapFromCounts(a: seq<Num>, b: seq<Num>, t: Num, i: nat, j: nat)
    requires a != [] && b != []
    requires S.CountIf(AtMost(t), a) == i && S.CountIf(AtMost(t), b) == j
    ensures Gap(a, b, t) == Distance(i as real / |a| as real, j as real / |b| as real)
  {
  }

  /** Both samples start with a zero gap, which is reached at infinity. */
  lemma StartsAtZero(a: seq<Num>, b: seq<Num>)
    requires a != [] && b != []
    ensures LargestSoFar(a, b, None, 0, 0, 0.0)
  {
    GapFromCounts(a, b, PosInf, |a|, |b|) by {
      S.CountPrefix(AtMost(PosInf), a, |a|);
      S.CountPrefix(AtMost(PosInf), b, |b|);
    }
    Whole(|a|);
    Whole(|b|);
    assert Gap(a, b, PosInf) == 0.0;
  }

  lemma Whole(n: nat)
    requires n > 0
    ensures n as real / n as real == 1.0
  {
  }

  /** Once everything is merged, no later point has a gap. */
  lemma EndsAtOne(a: seq<Num>, b: seq<Num>, last: Option<Num>, d: real)
    requires a != [] && b != [] && LargestSoFar(a, b, last, |a|, |b|, d)
    requires Cut(a, |a|, last) && Cut(b, |b|, last)
    ensures IsKs(a, b, d)
  {
    forall t ensures Gap(a, b, t) <= d {
      if Beyond(last, t) {
        GapFromCounts(a, b, t, |a|, |b|) by {
          CountWithin(a, |a|, last, t);
          CountWithin(b, |b|, last, t);
        }
      }
    }
  }

  lemma SortedFrom(s: seq<Num>, i: nat, m: Num)
    requires S.Sorted(Leq, s) && Leq(m, ValueAt(s, i))
    ensures forall k :: i <= k < |s| ==> Leq(m, s[k])
  {
  }

  /**
   * The two-pointer merge.  Each round consumes at least one element, so it terminates; the result
   * is exactly the largest gap, ties and infinities included.
   */
  method MergeGaps(a: seq<Num>, b: seq<Num>) returns (maxDiff: real)
    requires a != [] && b != [] && S.Sorted(Leq, a) && S.Sorted(Leq, b)
    ensures IsKs(a, b, maxDiff)
  {
    var i: nat, j: nat := 0, 0;
    maxDiff := 0.0;
    ghost var last: Option<Num> := None;
    StartsAtZero(a, b);
    while i < |a| || j < |b|
      invariant Cut(a, i, last) && Cut(b, j, last)
      invariant LargestSoFar(a, b, last, i, j, maxDiff)
      decreases |a| - i + |b| - j
    {
      var rv, cv := ValueAt(a, i), ValueAt(b, j);
      ghost var m := if Leq(rv, cv) then rv else cv;
      SortedFrom(a, i, m);
      SortedFrom(b, j, m);
      var i', j' := i, j;
      if Leq(rv, cv) {
        i' := Advance(a, i, rv, last);
      }
      if Leq(cv, rv) {
        j' := Advance(b, j, cv, last);
      }
      StepKeepsLargest(a, b, last, i, j, maxDiff, m, i', j');
      i, j, last := i', j', Some(m);
      var diff := Distance(i as real / |a| as real, j as real / |b| as real);
      maxDiff := if diff > maxDiff then diff else maxDiff;
    }
    EndsAtOne(a, b, last, maxDiff);
  }

  method KsStatistic(reference: seq<Num>, current: seq<Num>) returns (d: real)
    ensures IsKs(reference, current, d)
  {
    if reference == [] || current == [] {
      return 0.0;
    }
    NumOrder();
    S.SortIsStable(Leq, reference);
    S.SortIsStable(Leq, current);
    d := MergeGaps(S.Sort(Leq, reference), S.Sort(Leq, current));
    forall t ensures Gap(S.Sort(Leq, reference), S.Sort(Leq, current), t) == Gap(reference, current, t) {
      S.SortCount(AtMost(t), Leq, reference);
      S.SortCount(AtMost(t), Leq, current);
    }
  }

  // ---- Properties of the statistic ----

  /** The statistic is determined by the samples and does not depend on which is the reference. */
  lemma KsIsSymmetric(a: seq<Num>, b: seq<Num>, d: real, e: real)
    requires IsKs(a, b, d) && IsKs(b, a, e)
    ensures d == e
  {
    if a != [] && b != [] {
      assert forall t :: Gap(a, b, t) == Gap(b, a, t);
      var t :| Gap(a, b, t) == d;
      var u :| Gap(b, a, u) == e;
      assert Gap(b, a, t) <= e && Gap(a, b, u) <= d;
    }
  }

  lemma FractionRange(s: seq<Num>, t: Num)
    requires s != []
    ensures 0.0 <= Fraction(s, t) <= 1.0
  {
  }

  /** It lies between 0 and 1 ... */
  lemma KsRange(a: seq<Num>, b: seq<Num>, d: real)
    requires IsKs(a, b, d)
    ensures 0.0 <= d <= 1.0
  {
    if a != [] && b != [] {
      var t :| Gap(a, b, t) == d;
      FractionRange(a, t);
      FractionRange(b, t);
    }
  }

  /** ... and is 0 exactly when the two distribution functions agree everywhere. */
  lemma KsZeroMeansEqual(a: seq<Num>, b: seq<Num>, d: real)
    requires a != [] && b != [] && IsKs(a, b, d)
    ensures d == 0.0 <==> forall t :: Fraction(a, t) == Fraction(b, t)
  {
    KsRange(a, b, d);
    if d == 0.0 {
      forall t ensures Fraction(a, t) == Fraction(b, t) {
        assert Gap(a, b, t) <= 0.0;
      }
    } else {
      var t :| Gap(a, b, t) == d;
      assert Fraction(a, t) != Fraction(b, t);
    }
  }
}
