/** sort.SliceStable, and when its result does not depend on the order it was given. */
module Sorting {

  /** What sort.SliceStable asks of its comparison, for three elements. */
  predicate WeakOrderAt<T>(less: (T, T) -> bool, x: T, y: T, z: T) {
    && (less(x, y) ==> !less(y, x))
    && (less(x, z) ==> less(x, y) || less(y, z))
  }

  ghost predicate StrictWeakOrder<T(!new)>(less: (T, T) -> bool) {
    forall x, y, z :: WeakOrderAt(less, x, y, z)
  }

  ghost predicate Sorted<T>(s: seq<T>, less: (T, T) -> bool) {
    forall i, j :: 0 <= i < j < |s| ==> !less(s[j], s[i])
  }

  /** Puts `x` behind every element that is not greater. */
  function Insert<T>(x: T, s: seq<T>, less: (T, T) -> bool): seq<T> {
    if s == [] || !less(x, s[|s| - 1]) then s + [x]
    else Insert(x, s[..|s| - 1], less) + [s[|s| - 1]]
  }

  function SliceStable<T>(s: seq<T>, less: (T, T) -> bool): seq<T> {
    if s == [] then [] else Insert(s[|s| - 1], SliceStable(s[..|s| - 1], less), less)
  }

  lemma {:induction false} InsertKeepsElements<T>(x: T, s: seq<T>, less: (T, T) -> bool)
    ensures multiset(Insert(x, s, less)) == multiset(s) + multiset{x}
  {
    if s != [] {
      InsertKeepsElements(x, s[..|s| - 1], less);
      assert s == s[..|s| - 1] + [s[|s| - 1]];
    }
  }

  lemma {:induction false} InsertSorts<T(!new)>(x: T, s: seq<T>, less: (T, T) -> bool)
    requires StrictWeakOrder(less) && Sorted(s, less)
    ensures Sorted(Insert(x, s, less), less)
  {
    if s != [] {
      var init, last := s[..|s| - 1], s[|s| - 1];
      if less(x, last) {
        var t := Insert(x, init, less);
        InsertSorts(x, init, less);
        InsertKeepsElements(x, init, less);
        forall i | 0 <= i < |t| ensures !less(last, t[i]) {
          assert t[i] in multiset(t);
          assert WeakOrderAt(less, x, last, x);
        }
        LastSorts(t, last, less);
      } else {
        forall i | 0 <= i < |s| ensures !less(x, s[i]) {
          assert WeakOrderAt(less, x, last, s[i]);
        }
        LastSorts(s, x, less);
      }
    }
  }

  lemma LastSorts<T>(s: seq<T>, x: T, less: (T, T) -> bool)
    requires Sorted(s, less) && forall i :: 0 <= i < |s| ==> !less(x, s[i])
    ensures Sorted(s + [x], less)
  {
  }

  lemma {:induction false} SliceStableSorts<T(!new)>(s: seq<T>, less: (T, T) -> bool)
    requires StrictWeakOrder(less)
    ensures Sorted(SliceStable(s, less), less)
    ensures multiset(SliceStable(s, less)) == multiset(s)
  {
    if s != [] {
      var init, last := s[..|s| - 1], s[|s| - 1];
      SliceStableSorts(init, less);
      InsertSorts(last, SliceStable(init, less), less);
      InsertKeepsElements(last, SliceStable(init, less), less);
      InitElements(s);
    }
  }

  lemma InitElements<T>(s: seq<T>)
    requires s != []
    ensures multiset(s) == multiset(s[..|s| - 1]) + multiset{s[|s| - 1]}
  {
    assert s == s[..|s| - 1] + [s[|s| - 1]];
  }

  // ---- Stability -------------------------------------------------------------

  predicate Tied<T>(x: T, y: T, less: (T, T) -> bool) { !less(x, y) && !less(y, x) }

  /** The elements of `s` that are tied with `x`, in their order. */
  function TiesOf<T>(x: T, s: seq<T>, less: (T, T) -> bool): seq<T> {
    if s == [] then []
    else TiesOf(x, s[..|s| - 1], less) + if Tied(x, s[|s| - 1], less) then [s[|s| - 1]] else []
  }

  /** Nothing that ties with the inserted element is passed by it. */
  lemma {:induction false} InsertIsStable<T(!new)>(y: T, s: seq<T>, x: T, less: (T, T) -> bool)
    requires StrictWeakOrder(less)
    ensures TiesOf(x, Insert(y, s, less), less) == TiesOf(x, s, less) + if Tied(x, y, less) then [y] else []
  {
    if s == [] || !less(y, s[|s| - 1]) {
      assert (s + [y])[..|s|] == s;
    } else {
      var init, last := s[..|s| - 1], s[|s| - 1];
      InsertIsStable(y, init, x, less);
      assert (Insert(y, init, less) + [last])[..|Insert(y, init, less)|] == Insert(y, init, less);
      assert WeakOrderAt(less, y, x, last);
    }
  }

  /** Elements that tie with any given one keep their order. */
  lemma {:induction false} SliceStableIsStable<T(!new)>(s: seq<T>, x: T, less: (T, T) -> bool)
    requires StrictWeakOrder(less)
    ensures TiesOf(x, SliceStable(s, less), less) == TiesOf(x, s, less)
  {
    if s != [] {
      SliceStableIsStable(s[..|s| - 1], x, less);
      InsertIsStable(s[|s| - 1], SliceStable(s[..|s| - 1], less), x, less);
    }
  }

  /** `t` is sorted, and every group of ties is in it as it is in `s`. */
  ghost predicate StablySorted<T(!new)>(t: seq<T>, s: seq<T>, less: (T, T) -> bool) {
    Sorted(t, less) && forall x :: TiesOf(x, t, less) == TiesOf(x, s, less)
  }

  lemma {:induction false} TiesAreMembers<T>(x: T, s: seq<T>, y: T, less: (T, T) -> bool)
    ensures y in TiesOf(x, s, less) <==> y in s && Tied(x, y, less)
  {
    if s != [] {
      TiesAreMembers(x, s[..|s| - 1], y, less);
      assert s == s[..|s| - 1] + [s[|s| - 1]];
    }
  }

  lemma TiesWithoutLast<T>(x: T, s: seq<T>, less: (T, T) -> bool)
    requires s != []
    ensures var ties := TiesOf(x, s, less);
            TiesOf(x, s[..|s| - 1], less) ==
            if Tied(x, s[|s| - 1], less) && ties != [] then ties[..|ties| - 1] else ties
  {
    var ties := TiesOf(x, s[..|s| - 1], less);
    assert (ties + [s[|s| - 1]])[..|ties|] == ties;
  }

  /** The last elements of two stable orders of one list are the same. */
  lemma SameLast<T(!new)>(a: seq<T>, b: seq<T>, less: (T, T) -> bool)
    requires StrictWeakOrder(less) && a != [] && b != [] && Sorted(a, less) && Sorted(b, less)
    requires forall x :: TiesOf(x, a, less) == TiesOf(x, b, less)
    ensures a[|a| - 1] == b[|b| - 1]
  {
    var x, y := a[|a| - 1], b[|b| - 1];
    NotBehindLast(a, b, x, less);
    NotBehindLast(b, a, y, less);
    assert WeakOrderAt(less, x, x, x);
    TiesEnd(x, a, less);
    TiesEnd(x, b, less);
  }

  /** An element of one order is not greater than the last of the other. */
  lemma NotBehindLast<T(!new)>(a: seq<T>, b: seq<T>, x: T, less: (T, T) -> bool)
    requires StrictWeakOrder(less) && b != [] && x in a && Sorted(b, less)
    requires TiesOf(x, a, less) == TiesOf(x, b, less)
    ensures !less(b[|b| - 1], x)
  {
    assert WeakOrderAt(less, x, x, x);
    TiesAreMembers(x, a, x, less);
    TiesAreMembers(x, b, x, less);
    var i :| 0 <= i < |b| && b[i] == x;
  }

  lemma TiesEnd<T>(x: T, s: seq<T>, less: (T, T) -> bool)
    requires s != [] && Tied(x, s[|s| - 1], less)
    ensures var ties := TiesOf(x, s, less); ties != [] && ties[|ties| - 1] == s[|s| - 1]
  {
  }

  /** There is one stable order, so SliceStable is the one Go computes. */
  lemma {:induction false} StableOrderIsUnique<T(!new)>(a: seq<T>, b: seq<T>, less: (T, T) -> bool)
    requires StrictWeakOrder(less) && Sorted(a, less) && Sorted(b, less)
    requires forall x :: TiesOf(x, a, less) == TiesOf(x, b, less)
    ensures a == b
    decreases |a| + |b|
  {
    if a == [] || b == [] {
      var c := a + b;
      if c != [] {
        assert WeakOrderAt(less, c[0], c[0], c[0]);
        TiesAreMembers(c[0], a, c[0], less);
        TiesAreMembers(c[0], b, c[0], less);
      }
    } else {
      SameLast(a, b, less);
      var m, n := |a| - 1, |b| - 1;
      forall x ensures TiesOf(x, a[..m], less) == TiesOf(x, b[..n], less) {
        TiesWithoutLast(x, a, less);
        TiesWithoutLast(x, b, less);
      }
      StableOrderIsUnique(a[..m], b[..n], less);
      assert a == a[..m] + [a[m]] && b == b[..n] + [b[n]];
    }
  }

  /** SliceStable sorts stably, and nothing else does. */
  lemma SliceStableIsTheStableOrder<T(!new)>(s: seq<T>, t: seq<T>, less: (T, T) -> bool)
    requires StrictWeakOrder(less)
    ensures t == SliceStable(s, less) <==> StablySorted(t, s, less)
  {
    SliceStableSorts(s, less);
    forall x ensures TiesOf(x, SliceStable(s, less), less) == TiesOf(x, s, less) {
      SliceStableIsStable(s, x, less);
    }
    if StablySorted(t, s, less) {
      StableOrderIsUnique(t, SliceStable(s, less), less);
    }
  }

  lemma SameElements<T>(a: seq<T>, b: seq<T>, x: T)
    requires multiset(a) == multiset(b) && x in a
    ensures x in b
  {
    assert x in multiset(a);
  }

  lemma {:induction false} DistinctCountsOne<T>(s: seq<T>, x: T)
    requires forall i, j :: 0 <= i < j < |s| ==> s[i] != s[j]
    ensures multiset(s)[x] == if x in s then 1 else 0
  {
    if s != [] {
      DistinctCountsOne(s[1..], x);
      assert s == [s[0]] + s[1..];
    }
  }

  lemma SmallestFirst<T>(a: seq<T>, b: seq<T>, less: (T, T) -> bool)
    requires a != [] && b != [] && Sorted(a, less) && Sorted(b, less) && multiset(a) == multiset(b)
    ensures a[0] == b[0] || (!less(a[0], b[0]) && !less(b[0], a[0]))
  {
    SameElements(a, b, a[0]);
    SameElements(b, a, b[0]);
    var i :| 0 <= i < |b| && b[i] == a[0];
    var j :| 0 <= j < |a| && a[j] == b[0];
  }

  lemma TailElements<T>(s: seq<T>)
    requires s != []
    ensures s == [s[0]] + s[1..] && multiset(s[1..]) == multiset(s) - multiset{s[0]}
  {
    assert s == [s[0]] + s[1..];
  }

  ghost predicate NeverTied<T>(s: seq<T>, less: (T, T) -> bool) {
    forall i, j :: 0 <= i < |s| && 0 <= j < |s| && s[i] != s[j] ==> !Tied(s[i], s[j], less)
  }

  lemma SameFirst<T>(a: seq<T>, b: seq<T>, less: (T, T) -> bool)
    requires a != [] && b != [] && Sorted(a, less) && Sorted(b, less) && multiset(a) == multiset(b)
    requires NeverTied(a, less)
    ensures a[0] == b[0]
  {
    SmallestFirst(a, b, less);
    SameElements(b, a, b[0]);
    var j :| 0 <= j < |a| && a[j] == b[0];
  }

  /** Elements that are never tied have one sorted order. */
  lemma {:induction false} SortedOrderIsUnique<T>(a: seq<T>, b: seq<T>, less: (T, T) -> bool)
    requires Sorted(a, less) && Sorted(b, less) && multiset(a) == multiset(b) && NeverTied(a, less)
    ensures a == b
    decreases |a|
  {
    assert |multiset(b)| == |multiset(a)|;
    if a != [] {
      SameFirst(a, b, less);
      TailElements(a);
      TailElements(b);
      SortedOrderIsUnique(a[1..], b[1..], less);
    }
  }

  /** Go's string order. */
  predicate StringLess(a: string, b: string) {
    if b == [] then false
    else if a == [] then true
    else if a[0] != b[0] then a[0] < b[0]
    else StringLess(a[1..], b[1..])
  }

  /** The first difference decides, and a proper prefix comes first. */
  lemma {:induction false} StringLessIff(a: string, b: string)
    ensures StringLess(a, b) <==> a < b || exists k: nat :: FirstDifference(a, b, k) && a[k] < b[k]
  {
    if a != [] && b != [] && a[0] == b[0] {
      StringLessIff(a[1..], b[1..]);
      assert a[1..] < b[1..] <==> a < b;
      if k: nat :| FirstDifference(a, b, k) && a[k] < b[k] {
        assert FirstDifference(a[1..], b[1..], k - 1) && a[1..][k - 1] < b[1..][k - 1];
      }
      if k: nat :| FirstDifference(a[1..], b[1..], k) && a[1..][k] < b[1..][k] {
        assert FirstDifference(a, b, k + 1) && a[k + 1] < b[k + 1];
      }
    } else if a != [] && b != [] {
      assert FirstDifference(a, b, 0);
      assert !(a < b);
    }
  }

  ghost predicate FirstDifference(a: string, b: string, k: nat) {
    k < |a| && k < |b| && a[k] != b[k] && forall i :: 0 <= i < k ==> a[i] == b[i]
  }

  lemma {:induction false} StringLessLaws(a: string, b: string, c: string)
    ensures StringLess(a, b) ==> !StringLess(b, a)
    ensures StringLess(a, c) ==> StringLess(a, b) || StringLess(b, c)
    ensures a == b || StringLess(a, b) || StringLess(b, a)
    decreases |a| + |b| + |c|
  {
    if a != [] && b != [] {
      if c == [] {
        StringLessLaws(a[1..], b[1..], c);
      } else {
        StringLessLaws(a[1..], b[1..], c[1..]);
      }
      assert a == [a[0]] + a[1..] && b == [b[0]] + b[1..];
    }
  }
}
