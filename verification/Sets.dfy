/** internal/sets/match.go: comparing two lists up to order by a greedy matching
    that never backtracks. */
module Sets {
  import opened Go

  ghost predicate Equivalence<T(!new)>(eq: (T, T) -> bool) {
    && (forall x :: eq(x, x))
    && (forall x, y :: eq(x, y) ==> eq(y, x))
    && (forall x, y, z :: eq(x, y) && eq(y, z) ==> eq(x, z))
  }

  // ---- The simple form: match the head with its first partner and drop both --

  function FirstMatch<T>(x: T, b: seq<T>, eq: (T, T) -> bool): (j: nat)
    ensures j <= |b|
    ensures j < |b| ==> eq(x, b[j])
    ensures forall k :: 0 <= k < j ==> !eq(x, b[k])
  {
    if b == [] || eq(x, b[0]) then 0 else 1 + FirstMatch(x, b[1..], eq)
  }

  function RemoveAt<T>(b: seq<T>, j: nat): seq<T>
    requires j < |b|
  {
    b[..j] + b[j + 1..]
  }

  predicate Pairs<T>(a: seq<T>, b: seq<T>, eq: (T, T) -> bool)
    requires |a| == |b|
  {
    a == [] || (
      var j := FirstMatch(a[0], b, eq);
      j < |b| && Pairs(a[1..], RemoveAt(b, j), eq))
  }

  /** What Compare decides. */
  predicate Same<T>(a: Slice<T>, b: Slice<T>, eq: (T, T) -> bool) {
    if a.NilSlice? || b.NilSlice? then a.NilSlice? && b.NilSlice?
    else |a.s| == |b.s| && Pairs(a.s, b.s, eq)
  }

  // ---- The loop with the visited array --------------------------------------

  /** The elements of `b` not yet visited, in order. */
  ghost function Unvisited<T>(b: seq<T>, visited: seq<bool>): seq<T>
    requires |b| == |visited|
  {
    if b == [] then []
    else if visited[0] then Unvisited(b[1..], visited[1..])
    else [b[0]] + Unvisited(b[1..], visited[1..])
  }

  lemma {:induction false} UnvisitedAll<T>(b: seq<T>, v: seq<bool>)
    requires |b| == |v| && forall k :: 0 <= k < |v| ==> !v[k]
    ensures Unvisited(b, v) == b
  {
    if b != [] {
      UnvisitedAll(b[1..], v[1..]);
    }
  }

  lemma FirstMatchPast<T>(x: T, y: T, s: seq<T>, eq: (T, T) -> bool)
    ensures FirstMatch(x, [y] + s, eq) == if eq(x, y) then 0 else 1 + FirstMatch(x, s, eq)
  {
    assert ([y] + s)[1..] == s;
  }

  lemma RemovePast<T>(y: T, s: seq<T>, m: nat)
    requires m < |s|
    ensures RemoveAt([y] + s, 1 + m) == [y] + RemoveAt(s, m)
  {
    assert ([y] + s)[..1 + m] == [y] + s[..m];
    assert ([y] + s)[1 + m + 1..] == s[m + 1..];
  }

  /** Visiting the first unvisited partner of `x` removes exactly the first match of `x` from
      what is left. */
  lemma {:induction false} VisitRemoves<T>(x: T, b: seq<T>, v: seq<bool>, j: nat, eq: (T, T) -> bool)
    requires |b| == |v| && j < |b| && !v[j] && eq(x, b[j])
    requires forall k :: 0 <= k < j ==> v[k] || !eq(x, b[k])
    ensures var left := Unvisited(b, v); var m := FirstMatch(x, left, eq);
            m < |left| && RemoveAt(left, m) == Unvisited(b, v[j := true])
  {
    if j == 0 {
      VisitHead(x, b, v, eq);
    } else {
      VisitRemoves(x, b[1..], v[1..], j - 1, eq);
      VisitTail(x, b, v, j, eq);
    }
  }

  lemma VisitHead<T>(x: T, b: seq<T>, v: seq<bool>, eq: (T, T) -> bool)
    requires |b| == |v| > 0 && !v[0] && eq(x, b[0])
    ensures var left := Unvisited(b, v);
            left != [] && FirstMatch(x, left, eq) == 0 && RemoveAt(left, 0) == Unvisited(b, v[0 := true])
  {
    var rest := Unvisited(b[1..], v[1..]);
    FirstMatchPast(x, b[0], rest, eq);
    assert v[0 := true][1..] == v[1..];
    assert RemoveAt([b[0]] + rest, 0) == rest;
  }

  lemma VisitTail<T>(x: T, b: seq<T>, v: seq<bool>, j: nat, eq: (T, T) -> bool)
    requires |b| == |v| && 0 < j < |b| && (v[0] || !eq(x, b[0]))
    requires var rest := Unvisited(b[1..], v[1..]); var m := FirstMatch(x, rest, eq);
             m < |rest| && RemoveAt(rest, m) == Unvisited(b[1..], v[1..][j - 1 := true])
    ensures var left := Unvisited(b, v); var m := FirstMatch(x, left, eq);
            m < |left| && RemoveAt(left, m) == Unvisited(b, v[j := true])
  {
    var w := v[j := true];
    assert w[1..] == v[1..][j - 1 := true];
    if v[0] {
      assert Unvisited(b, w) == Unvisited(b[1..], w[1..]);
    } else {
      assert Unvisited(b, w) == [b[0]] + Unvisited(b[1..], w[1..]);
      MatchPast(x, b[0], Unvisited(b[1..], v[1..]), eq);
    }
  }

  /** A first element that does not match stays in front. */
  lemma MatchPast<T>(x: T, y: T, s: seq<T>, eq: (T, T) -> bool)
    requires !eq(x, y) && FirstMatch(x, s, eq) < |s|
    ensures var m := FirstMatch(x, [y] + s, eq);
            m < |[y] + s| && RemoveAt([y] + s, m) == [y] + RemoveAt(s, FirstMatch(x, s, eq))
  {
    FirstMatchPast(x, y, s, eq);
    RemovePast(y, s, FirstMatch(x, s, eq));
  }

  lemma {:induction false} NoPartnerLeft<T>(x: T, b: seq<T>, v: seq<bool>, eq: (T, T) -> bool)
    requires |b| == |v| && forall k :: 0 <= k < |b| ==> v[k] || !eq(x, b[k])
    ensures FirstMatch(x, Unvisited(b, v), eq) == |Unvisited(b, v)|
  {
    if b != [] {
      NoPartnerLeft(x, b[1..], v[1..], eq);
      FirstMatchPast(x, b[0], Unvisited(b[1..], v[1..]), eq);
    }
  }

  /** sets.Compare. */
  method Compare<T(!new)>(a: Slice<T>, b: Slice<T>, eq: (T, T) -> bool) returns (same: bool)
    ensures same == Same(a, b, eq)
    ensures a.Elems? && b.Elems? && Equivalence(eq) ==>
              (same <==> exists p :: Bijection(a.s, b.s, eq, p))
  {
    if a.NilSlice? && b.NilSlice? { return true; }
    if a.NilSlice? != b.NilSlice? { return false; }
    var n := |a.s|;
    same := n == |b.s| && n == 0;
    if n == |b.s| && n > 0 {
      same := Match(a.s, b.s, eq);
    }
    if Equivalence(eq) {
      GreedyIsComplete(a.s, b.s, eq);
    }
  }

  /** The outer loop: find a partner for every element of `a`. */
  method Match<T>(a: seq<T>, b: seq<T>, eq: (T, T) -> bool) returns (same: bool)
    requires |a| == |b|
    ensures same == Pairs(a, b, eq)
  {
    var visited := new bool[|b|](_ => false);
    UnvisitedAll(b, visited[..]);
    assert a[0..] == a;
    for i := 0 to |a|
      invariant |Unvisited(b, visited[..])| == |a[i..]|
      invariant Pairs(a, b, eq) == Pairs(a[i..], Unvisited(b, visited[..]), eq)
    {
      assert a[i..][0] == a[i] && a[i..][1..] == a[i + 1..];
      var found := Visit(a[i], b, visited, eq);
      if !found {
        return false;
      }
    }
    same := true;
  }

  /** The inner loop: mark the first unvisited partner of `x`. */
  method Visit<T>(x: T, b: seq<T>, visited: array<bool>, eq: (T, T) -> bool) returns (found: bool)
    requires |b| == visited.Length
    modifies visited
    ensures var left := Unvisited(b, old(visited[..])); var m := FirstMatch(x, left, eq);
            && found == (m < |left|)
            && (found ==> Unvisited(b, visited[..]) == RemoveAt(left, m))
  {
    ghost var v := visited[..];
    for j := 0 to |b|
      invariant visited[..] == v
      invariant forall k :: 0 <= k < j ==> v[k] || !eq(x, b[k])
    {
      if !visited[j] && eq(x, b[j]) {
        VisitRemoves(x, b, v, j, eq);
        visited[j] := true;
        assert visited[..] == v[j := true];
        return true;
      }
    }
    NoPartnerLeft(x, b, v, eq);
    found := false;
  }

  // ---- What a successful greedy matching means -------------------------------

  /** `p` is a permutation of the positions that pairs related elements. */
  ghost predicate Bijection<T>(a: seq<T>, b: seq<T>, eq: (T, T) -> bool, p: seq<nat>) {
    && |a| == |b| == |p|
    && (forall i :: 0 <= i < |p| ==> p[i] < |b|)
    && (forall i, j :: 0 <= i < j < |p| ==> p[i] != p[j])
    && (forall i :: 0 <= i < |p| ==> eq(a[i], b[p[i]]))
  }

  /** How many elements of `s` are related to `x`. */
  ghost function Count<T>(x: T, s: seq<T>, eq: (T, T) -> bool): nat {
    if s == [] then 0 else Bit(eq(x, s[0])) + Count(x, s[1..], eq)
  }

  ghost predicate SameCounts<T(!new)>(a: seq<T>, b: seq<T>, eq: (T, T) -> bool) {
    forall x :: Count(x, a, eq) == Count(x, b, eq)
  }

  lemma {:induction false} CountConcat<T>(x: T, s: seq<T>, t: seq<T>, eq: (T, T) -> bool)
    ensures Count(x, s + t, eq) == Count(x, s, eq) + Count(x, t, eq)
  {
    if s == [] {
      assert s + t == t;
    } else {
      assert (s + t)[1..] == s[1..] + t;
      CountConcat(x, s[1..], t, eq);
    }
  }

  lemma CountRemoveAt<T>(x: T, s: seq<T>, j: nat, eq: (T, T) -> bool)
    requires j < |s|
    ensures Count(x, s, eq) == Count(x, RemoveAt(s, j), eq) + Bit(eq(x, s[j]))
  {
    assert s == s[..j] + ([s[j]] + s[j + 1..]);
    CountConcat(x, s[..j], [s[j]] + s[j + 1..], eq);
    CountConcat(x, s[..j], s[j + 1..], eq);
  }

  /** For an equivalence, the greedy matching succeeds exactly when every element
      has as many relatives on either side. */
  lemma {:induction false} GreedyIffCounts<T(!new)>(a: seq<T>, b: seq<T>, eq: (T, T) -> bool)
    requires Equivalence(eq)
    ensures |a| == |b| && Pairs(a, b, eq) <==> SameCounts(a, b, eq)
    decreases |a|
  {
    if a == [] {
      if b != [] {
        assert Count(b[0], b, eq) > 0;
      }
    } else {
      var j := FirstMatch(a[0], b, eq);
      if j < |b| {
        var c := RemoveAt(b, j);
        GreedyIffCounts(a[1..], c, eq);
        forall x ensures Count(x, a, eq) - Count(x, a[1..], eq) == Count(x, b, eq) - Count(x, c, eq) {
          CountRemoveAt(x, b, j, eq);
          assert eq(x, a[0]) == eq(x, b[j]);
        }
        if SameCounts(a, b, eq) {
          forall x ensures Count(x, a[1..], eq) == Count(x, c, eq) {
            assert Count(x, a, eq) == Count(x, b, eq);
          }
        }
        if SameCounts(a[1..], c, eq) {
          forall x ensures Count(x, a, eq) == Count(x, b, eq) {
            assert Count(x, a[1..], eq) == Count(x, c, eq);
          }
        }
      } else {
        NoMatchNoCount(a[0], b, eq);
        assert Count(a[0], a, eq) > 0;
      }
    }
  }

  lemma {:induction false} NoMatchNoCount<T>(x: T, b: seq<T>, eq: (T, T) -> bool)
    requires forall k :: 0 <= k < |b| ==> !eq(x, b[k])
    ensures Count(x, b, eq) == 0
  {
    if b != [] {
      NoMatchNoCount(x, b[1..], eq);
    }
  }

  function Skip(q: nat, j: nat): nat { if q < j then q else q + 1 }
  function SkipAll(q: seq<nat>, j: nat): (r: seq<nat>)
    ensures |r| == |q| && forall i :: 0 <= i < |q| ==> r[i] == Skip(q[i], j)
  {
    seq(|q|, i requires 0 <= i < |q| => Skip(q[i], j))
  }

  function Unskip(q: nat, j: nat): nat requires q != j { if q < j then q else q - 1 }

  /** A successful greedy matching is a bijection, whatever the relation is. */
  lemma {:induction false} GreedyGivesBijection<T>(a: seq<T>, b: seq<T>, eq: (T, T) -> bool) returns (p: seq<nat>)
    requires |a| == |b| && Pairs(a, b, eq)
    ensures Bijection(a, b, eq, p)
    decreases |a|
  {
    if a == [] {
      p := [];
    } else {
      var j := FirstMatch(a[0], b, eq);
      var q := GreedyGivesBijection(a[1..], RemoveAt(b, j), eq);
      p := [j] + SkipAll(q, j);
      ExtendBijection(a, b, eq, j, q, p);
    }
  }

  lemma ExtendBijection<T>(a: seq<T>, b: seq<T>, eq: (T, T) -> bool, j: nat, q: seq<nat>, p: seq<nat>)
    requires a != [] && j < |b| && eq(a[0], b[j])
    requires Bijection(a[1..], RemoveAt(b, j), eq, q)
    requires |p| == |q| + 1 && p[0] == j && forall i :: 1 <= i < |p| ==> p[i] == Skip(q[i - 1], j)
    ensures Bijection(a, b, eq, p)
  {
    forall i | 1 <= i < |p| ensures p[i] < |b| && p[i] != j && eq(a[i], b[p[i]]) {
      assert eq(a[1..][i - 1], RemoveAt(b, j)[q[i - 1]]);
    }
    forall i, k | 0 <= i < k < |p| ensures p[i] != p[k] {
      if i > 0 {
        assert q[i - 1] != q[k - 1];
      }
    }
  }

  /** Without the first pair, a bijection is still one. */
  lemma RestOfBijection<T>(a: seq<T>, b: seq<T>, eq: (T, T) -> bool, p: seq<nat>) returns (q: seq<nat>)
    requires a != [] && Bijection(a, b, eq, p)
    ensures Bijection(a[1..], RemoveAt(b, p[0]), eq, q)
  {
    var j := p[0];
    q := seq(|p| - 1, i requires 0 <= i < |p| - 1 => Unskip(p[i + 1], j));
    forall i | 0 <= i < |q|
      ensures q[i] < |RemoveAt(b, j)| && RemoveAt(b, j)[q[i]] == b[p[i + 1]]
      ensures eq(a[1..][i], RemoveAt(b, j)[q[i]])
    {
      assert p[0] != p[i + 1] && eq(a[i + 1], b[p[i + 1]]);
    }
    forall i, k | 0 <= i < k < |q| ensures q[i] != q[k] {
      assert p[0] != p[i + 1] && p[0] != p[k + 1] && p[i + 1] != p[k + 1];
    }
  }

  /** A bijection leaves no element with more relatives on one side. */
  lemma {:induction false} BijectionKeepsCounts<T(!new)>(x: T, a: seq<T>, b: seq<T>, eq: (T, T) -> bool, p: seq<nat>)
    requires Equivalence(eq) && Bijection(a, b, eq, p)
    ensures Count(x, a, eq) == Count(x, b, eq)
    decreases |a|
  {
    if a != [] {
      var q := RestOfBijection(a, b, eq, p);
      BijectionKeepsCounts(x, a[1..], RemoveAt(b, p[0]), eq, q);
      CountRemoveAt(x, b, p[0], eq);
      assert eq(x, a[0]) == eq(x, b[p[0]]);
    }
  }

  /** Without backtracking, the matching is still complete for an equivalence. */
  lemma GreedyIsComplete<T(!new)>(a: seq<T>, b: seq<T>, eq: (T, T) -> bool)
    requires Equivalence(eq)
    ensures |a| == |b| && Pairs(a, b, eq) <==> exists p :: Bijection(a, b, eq, p)
  {
    if |a| == |b| && Pairs(a, b, eq) {
      var p := GreedyGivesBijection(a, b, eq);
    }
    if p :| Bijection(a, b, eq, p) {
      forall x ensures Count(x, a, eq) == Count(x, b, eq) {
        BijectionKeepsCounts(x, a, b, eq, p);
      }
      GreedyIffCounts(a, b, eq);
    }
  }

  /** For a relation that is not an equivalence, greed can miss a bijection. */
  lemma GreedyMissesWithoutEquivalence()
    ensures var eq := (x: int, y: int) => y == 3 || x < y;
            !Equivalence(eq) && Bijection([1, 4], [3, 2], eq, [1, 0]) && !Pairs([1, 4], [3, 2], eq)
  {
    var eq := (x: int, y: int) => y == 3 || x < y;
    var a, b := [1, 4], [3, 2];
    assert FirstMatch(1, b, eq) == 0;
    assert RemoveAt(b, 0) == [2] && a[1..] == [4];
    assert FirstMatch(4, [2], eq) == 1 + FirstMatch(4, [2][1..], eq);
    assert !eq(2, 2);
  }

  // ---- Same is an equivalence on slices and respects anything eq respects ----

  lemma SameIsEquivalence<T(!new)>(eq: (T, T) -> bool)
    requires Equivalence(eq)
    ensures forall a :: Same(a, a, eq)
    ensures forall a, b :: Same(a, b, eq) ==> Same(b, a, eq)
    ensures forall a, b, c :: Same(a, b, eq) && Same(b, c, eq) ==> Same(a, c, eq)
  {
    forall a: seq<T>, b: seq<T>
      ensures |a| == |b| && Pairs(a, b, eq) <==> SameCounts(a, b, eq)
    {
      GreedyIffCounts(a, b, eq);
    }
  }

  /** Lists holding the same elements in any order are the same. */
  lemma PermutationIsSame<T(!new)>(a: seq<T>, b: seq<T>, eq: (T, T) -> bool)
    requires Equivalence(eq) && multiset(a) == multiset(b)
    ensures Same(Elems(a), Elems(b), eq)
  {
    forall x ensures Count(x, a, eq) == Count(x, b, eq) {
      PermutationKeepsCount(x, a, b, eq);
    }
    GreedyIffCounts(a, b, eq);
  }

  lemma {:induction false} PermutationKeepsCount<T>(x: T, a: seq<T>, b: seq<T>, eq: (T, T) -> bool)
    requires multiset(a) == multiset(b)
    ensures Count(x, a, eq) == Count(x, b, eq)
    decreases |a|
  {
    if a == [] {
      assert |multiset(b)| == 0;
    } else {
      assert a[0] in multiset(b);
      var j :| 0 <= j < |b| && b[j] == a[0];
      RemoveAtMultiset(a, 0);
      RemoveAtMultiset(b, j);
      assert RemoveAt(a, 0) == a[1..];
      PermutationKeepsCount(x, a[1..], RemoveAt(b, j), eq);
      CountRemoveAt(x, b, j, eq);
    }
  }

  lemma RemoveAtMultiset<T>(s: seq<T>, j: nat)
    requires j < |s|
    ensures multiset(RemoveAt(s, j)) == multiset(s) - multiset{s[j]}
  {
    assert s == s[..j] + [s[j]] + s[j + 1..];
  }

  function Map<T, U>(f: T -> U, s: seq<T>): (r: seq<U>)
    ensures |r| == |s| && forall i :: 0 <= i < |s| ==> r[i] == f(s[i])
  {
    seq(|s|, i requires 0 <= i < |s| => f(s[i]))
  }

  /** Whatever related elements share, matched lists hold equally often. */
  lemma {:induction false} MatchedListsShare<T(!new), U>(a: seq<T>, b: seq<T>, eq: (T, T) -> bool, f: T -> U)
    requires forall x, y :: eq(x, y) ==> f(x) == f(y)
    requires |a| == |b| && Pairs(a, b, eq)
    ensures multiset(Map(f, a)) == multiset(Map(f, b))
    decreases |a|
  {
    if a != [] {
      var j := FirstMatch(a[0], b, eq);
      MatchedListsShare(a[1..], RemoveAt(b, j), eq, f);
      assert RemoveAt(a, 0) == a[1..];
      MapRemoveAt(f, a, 0);
      MapRemoveAt(f, b, j);
    }
  }

  lemma {:induction false} CountIsMultiplicity<T, U>(x: T, s: seq<T>, eq: (T, T) -> bool, f: T -> U)
    requires forall y, z :: eq(y, z) <==> f(y) == f(z)
    ensures Count(x, s, eq) == multiset(Map(f, s))[f(x)]
  {
    if s != [] {
      CountIsMultiplicity(x, s[1..], eq, f);
      assert RemoveAt(s, 0) == s[1..];
      MapRemoveAt(f, s, 0);
    }
  }

  /** When being related is having the same `f`, two slices are the same exactly when both are
      nil or neither is, and they hold each value of `f` equally often. */
  lemma SameIffSharing<T(!new), U>(a: Slice<T>, b: Slice<T>, eq: (T, T) -> bool, f: T -> U)
    requires forall x, y :: eq(x, y) <==> f(x) == f(y)
    ensures Same(a, b, eq) <==>
              a.NilSlice? == b.NilSlice? && multiset(Map(f, a.Seq())) == multiset(Map(f, b.Seq()))
  {
    if a.Elems? && b.Elems? {
      if Same(a, b, eq) {
        MatchedListsShare(a.s, b.s, eq, f);
      } else if multiset(Map(f, a.s)) == multiset(Map(f, b.s)) {
        forall x ensures Count(x, a.s, eq) == Count(x, b.s, eq) {
          CountIsMultiplicity(x, a.s, eq, f);
          CountIsMultiplicity(x, b.s, eq, f);
        }
        assert Equivalence(eq);
        GreedyIffCounts(a.s, b.s, eq);
      }
    }
  }

  lemma MapRemoveAt<T, U>(f: T -> U, s: seq<T>, j: nat)
    requires j < |s|
    ensures multiset(Map(f, s)) == multiset(Map(f, RemoveAt(s, j))) + multiset{f(s[j])}
  {
    assert Map(f, RemoveAt(s, j)) == RemoveAt(Map(f, s), j);
    RemoveAtMultiset(Map(f, s), j);
    assert f(s[j]) == Map(f, s)[j];
    assert Map(f, s)[j] in multiset(Map(f, s));
  }
}
