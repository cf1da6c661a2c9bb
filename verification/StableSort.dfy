/**
 * The stable slice sort used throughout the program (`sort_by`, `sort_by_key`), on sequences.
 *
 * A comparison is a total preorder; elements it cannot tell apart form a class.  A stable sort is
 * an ordered rearrangement that lists every class in its original order, and that property
 * determines the result (`Unique`).
 */
module StableSort {

  ghost predicate TotalPreorder<T(!new)>(le: (T, T) -> bool) {
    && (forall a, b :: le(a, b) || le(b, a))
    && (forall a, b, c :: le(a, b) && le(b, c) ==> le(a, c))
  }

  ghost predicate Sorted<T>(le: (T, T) -> bool, s: seq<T>) {
    forall i, j :: 0 <= i < j < |s| ==> le(s[i], s[j])
  }

  predicate Equivalent<T>(le: (T, T) -> bool, a: T, b: T) {
    le(a, b) && le(b, a)
  }

  /** The elements of `s` that the comparison cannot tell from `x`, in order. */
  function Class<T>(le: (T, T) -> bool, x: T, s: seq<T>): seq<T> {
    if s == [] then []
    else if Equivalent(le, x, s[0]) then [s[0]] + Class(le, x, s[1..])
    else Class(le, x, s[1..])
  }

  ghost predicate SameClasses<T(!new)>(le: (T, T) -> bool, a: seq<T>, b: seq<T>) {
    forall x :: Class(le, x, a) == Class(le, x, b)
  }

  function Insert<T(!new)>(le: (T, T) -> bool, x: T, s: seq<T>): (r: seq<T>)
    ensures multiset(r) == multiset{x} + multiset(s)
  {
    if s == [] then [x]
    else if le(x, s[0]) then [x] + s
    else
      assert s == [s[0]] + s[1..];
      [s[0]] + Insert(le, x, s[1..])
  }

  function Sort<T(!new)>(le: (T, T) -> bool, s: seq<T>): (r: seq<T>)
    ensures multiset(r) == multiset(s)
    ensures |r| == |s|
    ensures forall x :: x in r <==> x in s
  {
    if s == [] then []
    else
      assert s == [s[0]] + s[1..];
      var r := Insert(le, s[0], Sort(le, s[1..]));
      assert |r| == |multiset(r)|;
      assert forall x :: x in r <==> x in multiset(r);
      assert forall x :: x in s <==> x in multiset(s);
      r
  }

  lemma {:induction false} InsertIsSorted<T(!new)>(le: (T, T) -> bool, x: T, s: seq<T>)
    requires TotalPreorder(le) && Sorted(le, s)
    ensures Sorted(le, Insert(le, x, s))
  {
    if s == [] {
    } else if le(x, s[0]) {
      forall j | 0 <= j < |s| ensures le(x, s[j]) {
        assert j > 0 ==> le(s[0], s[j]);
      }
    } else {
      var rest := Insert(le, x, s[1..]);
      InsertIsSorted(le, x, s[1..]);
      forall j | 0 <= j < |rest| ensures le(s[0], rest[j]) {
        assert rest[j] in multiset(rest);
        assert rest[j] == x || rest[j] in s[1..];
      }
    }
  }

  /** Among equivalent elements the inserted one goes first. */
  lemma {:induction false} InsertKeepsClass<T(!new)>(le: (T, T) -> bool, x: T, s: seq<T>, y: T)
    requires TotalPreorder(le)
    ensures Class(le, y, Insert(le, x, s)) == Class(le, y, [x] + s)
  {
    assert ([x] + s)[1..] == s;
    if s != [] && !le(x, s[0]) {
      InsertKeepsClass(le, x, s[1..], y);
      var rest := Insert(le, x, s[1..]);
      assert ([s[0]] + rest)[1..] == rest;
      assert ([x] + s[1..])[1..] == s[1..];
      assert Equivalent(le, y, x) ==> !le(y, s[0]);
    }
  }

  /** `Sort` meets the contract of a stable sort. */
  lemma {:induction false} SortIsStable<T(!new)>(le: (T, T) -> bool, s: seq<T>)
    requires TotalPreorder(le)
    ensures Sorted(le, Sort(le, s))
    ensures SameClasses(le, Sort(le, s), s)
  {
    if s == [] {
    } else {
      SortIsStable(le, s[1..]);
      InsertIsSorted(le, s[0], Sort(le, s[1..]));
      forall y ensures Class(le, y, Sort(le, s)) == Class(le, y, s) {
        InsertKeepsClass(le, s[0], Sort(le, s[1..]), y);
        var t := [s[0]] + Sort(le, s[1..]);
        assert t[1..] == Sort(le, s[1..]);
      }
    }
  }

  lemma {:induction false} ClassMember<T>(le: (T, T) -> bool, x: T, s: seq<T>, y: T)
    ensures y in Class(le, x, s) <==> y in s && Equivalent(le, x, y)
  {
    if s == [] {
    } else {
      ClassMember(le, x, s[1..], y);
    }
  }

  lemma {:induction false} ClassAppend<T>(le: (T, T) -> bool, x: T, a: seq<T>, b: seq<T>)
    ensures Class(le, x, a + b) == Class(le, x, a) + Class(le, x, b)
  {
    if a == [] {
      assert a + b == b;
    } else {
      var tail := a[1..];
      ClassAppend(le, x, tail, b);
      assert a + b == [a[0]] + (tail + b);
      ClassCons(le, x, a[0], tail + b);
    }
  }

  lemma ClassCons<T>(le: (T, T) -> bool, x: T, y: T, s: seq<T>)
    ensures Class(le, x, [y] + s) == if Equivalent(le, x, y) then [y] + Class(le, x, s) else Class(le, x, s)
  {
  }

  lemma HeadClass<T(!new)>(le: (T, T) -> bool, s: seq<T>)
    requires TotalPreorder(le)
    ensures s != [] ==> Class(le, s[0], s) != []
  {
  }

  /** A stable sort has only one possible result. */
  lemma {:induction false} Unique<T(!new)>(le: (T, T) -> bool, a: seq<T>, b: seq<T>)
    requires TotalPreorder(le) && Sorted(le, a) && Sorted(le, b)
    requires SameClasses(le, a, b)
    ensures a == b
  {
    HeadClass(le, b);
    if a != [] {
      var x := a[0];
      assert x in Class(le, x, a);
      ClassMember(le, x, b, x);
      var y := b[0];
      assert y in Class(le, y, b);
      ClassMember(le, y, a, y);
      assert le(x, y) && le(y, x);
      assert Class(le, x, a)[0] == x && Class(le, x, b)[0] == y;
      forall z ensures Class(le, z, a[1..]) == Class(le, z, b[1..]) {
        assert Class(le, z, a) == Class(le, z, b);
        if Equivalent(le, z, x) {
          assert Class(le, z, a)[1..] == Class(le, z, a[1..]);
          assert Class(le, z, b)[1..] == Class(le, z, b[1..]);
        }
      }
      Unique(le, a[1..], b[1..]);
    }
  }

  /** Inputs with the same classes sort to the same result: the order across classes is irrelevant. */
  lemma SortDependsOnClasses<T(!new)>(le: (T, T) -> bool, a: seq<T>, b: seq<T>)
    requires TotalPreorder(le) && SameClasses(le, a, b)
    ensures Sort(le, a) == Sort(le, b)
  {
    SortIsStable(le, a);
    SortIsStable(le, b);
    Unique(le, Sort(le, a), Sort(le, b));
  }

  /** Sorting what is already in order changes nothing. */
  lemma SortOfSorted<T(!new)>(le: (T, T) -> bool, s: seq<T>)
    requires TotalPreorder(le) && Sorted(le, s)
    ensures Sort(le, s) == s
  {
  }

  lemma {:induction false} ClassPositions<T>(le: (T, T) -> bool, x: T, s: seq<T>, i: nat, j: nat) returns (p: nat, q: nat)
    requires i < j < |s| && Equivalent(le, x, s[i]) && Equivalent(le, x, s[j])
    ensures p < q < |Class(le, x, s)| && Class(le, x, s)[p] == s[i] && Class(le, x, s)[q] == s[j]
  {
    if i == 0 {
      var r := ClassPosition(le, x, s[1..], j - 1);
      p, q := 0, r + 1;
    } else {
      p, q := ClassPositions(le, x, s[1..], i - 1, j - 1);
      if Equivalent(le, x, s[0]) {
        p, q := p + 1, q + 1;
      }
    }
  }

  lemma {:induction false} ClassPosition<T>(le: (T, T) -> bool, x: T, s: seq<T>, i: nat) returns (p: nat)
    requires i < |s| && Equivalent(le, x, s[i])
    ensures p < |Class(le, x, s)| && Class(le, x, s)[p] == s[i]
  {
    if i == 0 {
      p := 0;
    } else {
      p := ClassPosition(le, x, s[1..], i - 1);
      if Equivalent(le, x, s[0]) {
        p := p + 1;
      }
    }
  }

  lemma {:induction false} PositionsOfClass<T>(le: (T, T) -> bool, x: T, s: seq<T>, p: nat, q: nat) returns (i: nat, j: nat)
    requires p < q < |Class(le, x, s)|
    ensures i < j < |s| && s[i] == Class(le, x, s)[p] && s[j] == Class(le, x, s)[q]
  {
    if !Equivalent(le, x, s[0]) {
      i, j := PositionsOfClass(le, x, s[1..], p, q);
      i, j := i + 1, j + 1;
    } else if p == 0 {
      j := PositionOfClass(le, x, s[1..], q - 1);
      i, j := 0, j + 1;
    } else {
      i, j := PositionsOfClass(le, x, s[1..], p - 1, q - 1);
      i, j := i + 1, j + 1;
    }
  }

  lemma {:induction false} PositionOfClass<T>(le: (T, T) -> bool, x: T, s: seq<T>, p: nat) returns (i: nat)
    requires p < |Class(le, x, s)|
    ensures i < |s| && s[i] == Class(le, x, s)[p]
  {
    if !Equivalent(le, x, s[0]) {
      i := PositionOfClass(le, x, s[1..], p);
      i := i + 1;
    } else if p == 0 {
      i := 0;
    } else {
      i := PositionOfClass(le, x, s[1..], p - 1);
      i := i + 1;
    }
  }

  /** Sorting keeps the order of elements that the comparison cannot tell apart. */
  lemma SortKeepsOrder<T(!new)>(le: (T, T) -> bool, s: seq<T>, i: nat, j: nat) returns (a: nat, b: nat)
    requires TotalPreorder(le) && i < j < |s| && Equivalent(le, s[i], s[j])
    ensures a < b < |Sort(le, s)| && Sort(le, s)[a] == s[i] && Sort(le, s)[b] == s[j]
  {
    SortIsStable(le, s);
    assert le(s[i], s[i]);
    var p, q := ClassPositions(le, s[i], s, i, j);
    a, b := PositionsOfClass(le, s[i], Sort(le, s), p, q);
  }

  /** How many elements satisfy `p`. */
  function CountIf<T>(p: T -> bool, s: seq<T>): (n: nat)
    ensures n <= |s|
  {
    if s == [] then 0 else (if p(s[0]) then 1 else 0) + CountIf(p, s[1..])
  }

  lemma {:induction false} CountAppend<T>(p: T -> bool, a: seq<T>, b: seq<T>)
    ensures CountIf(p, a + b) == CountIf(p, a) + CountIf(p, b)
  {
    if a == [] {
      assert a + b == b;
    } else {
      assert (a + b)[1..] == a[1..] + b;
      CountAppend(p, a[1..], b);
    }
  }

  lemma CountSplit<T>(p: T -> bool, s: seq<T>, k: nat)
    requires k <= |s|
    ensures CountIf(p, s) == CountIf(p, s[..k]) + CountIf(p, s[k..])
  {
    assert s == s[..k] + s[k..];
    CountAppend(p, s[..k], s[k..]);
  }

  /** `n` is the count when exactly the first `n` elements satisfy `p`. */
  lemma {:induction false} CountPrefix<T>(p: T -> bool, s: seq<T>, n: nat)
    requires n <= |s|
    requires forall i :: 0 <= i < n ==> p(s[i])
    requires forall i :: n <= i < |s| ==> !p(s[i])
    ensures CountIf(p, s) == n
  {
    if s == [] {
    } else {
      CountPrefix(p, s[1..], if n == 0 then 0 else n - 1);
    }
  }

  lemma {:induction false} InsertCount<T(!new)>(p: T -> bool, le: (T, T) -> bool, x: T, s: seq<T>)
    ensures CountIf(p, Insert(le, x, s)) == (if p(x) then 1 else 0) + CountIf(p, s)
  {
    if s == [] || le(x, s[0]) {
      assert ([x] + s)[1..] == s;
    } else {
      InsertCount(p, le, x, s[1..]);
      var rest := Insert(le, x, s[1..]);
      assert ([s[0]] + rest)[1..] == rest;
    }
  }

  /** Sorting neither adds nor loses elements of any kind. */
  lemma {:induction false} SortCount<T(!new)>(p: T -> bool, le: (T, T) -> bool, s: seq<T>)
    ensures CountIf(p, Sort(le, s)) == CountIf(p, s)
  {
    if s == [] {
    } else {
      SortCount(p, le, s[1..]);
      InsertCount(p, le, s[0], Sort(le, s[1..]));
    }
  }
}
