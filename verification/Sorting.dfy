/** Python's `sorted`: a stable sort by a total preorder, with the laws that pin it down. */
module Sorting {
  ghost predicate TotalPreorder<T(!new)>(leq: (T, T) -> bool) {
    && (forall x, y :: leq(x, y) || leq(y, x))
    && (forall x, y, z :: leq(x, y) && leq(y, z) ==> leq(x, z))
  }

  ghost predicate SortedBy<T>(leq: (T, T) -> bool, s: seq<T>) {
    forall i, j :: 0 <= i < j < |s| ==> leq(s[i], s[j])
  }

  /** `x` goes after every element that is not above it, so equal keys keep their order. */
  function Insert<T>(leq: (T, T) -> bool, s: seq<T>, x: T): seq<T> {
    if s == [] then [x]
    else if leq(s[|s| - 1], x) then s + [x]
    else Insert(leq, s[..|s| - 1], x) + [s[|s| - 1]]
  }

  function Sorted<T>(leq: (T, T) -> bool, s: seq<T>): seq<T> {
    if s == [] then [] else Insert(leq, Sorted(leq, s[..|s| - 1]), s[|s| - 1])
  }

  function Filter<T>(p: T -> bool, s: seq<T>): seq<T> {
    if s == [] then []
    else Filter(p, s[..|s| - 1]) + if p(s[|s| - 1]) then [s[|s| - 1]] else []
  }

  lemma FilterAtMostOne<T>(p: T -> bool, s: seq<T>)
    requires |s| <= 1
    ensures Filter(p, s) == if s != [] && p(s[0]) then s else []
  {
    if s != [] {
      assert s[..0] == [] && s == [s[0]];
      assert Filter(p, s[..0]) == [];
    }
  }

  lemma {:induction false} InsertKeepsElements<T>(leq: (T, T) -> bool, s: seq<T>, x: T)
    ensures multiset(Insert(leq, s, x)) == multiset(s) + multiset{x}
  {
    if s != [] && !leq(s[|s| - 1], x) {
      InsertKeepsElements(leq, s[..|s| - 1], x);
      assert s == s[..|s| - 1] + [s[|s| - 1]];
    }
  }

  lemma {:induction false} InsertSorted<T(!new)>(leq: (T, T) -> bool, s: seq<T>, x: T)
    requires TotalPreorder(leq) && SortedBy(leq, s)
    ensures SortedBy(leq, Insert(leq, s, x))
  {
    if s != [] {
      var front, last := s[..|s| - 1], s[|s| - 1];
      if leq(last, x) {
        assert forall i :: 0 <= i < |s| ==> leq(s[i], last);
      } else {
        InsertSorted(leq, front, x);
        InsertKeepsElements(leq, front, x);
        var r := Insert(leq, front, x);
        forall i | 0 <= i < |r| ensures leq(r[i], last) {
          assert r[i] in multiset(r);
          assert r[i] in front || r[i] == x;
        }
      }
    }
  }

  lemma LastInMultiset<T>(s: seq<T>)
    requires s != []
    ensures multiset(s) == multiset(s[..|s| - 1]) + multiset{s[|s| - 1]}
  {
    assert s == s[..|s| - 1] + [s[|s| - 1]];
  }

  lemma {:induction false} SortedIsPermutation<T>(leq: (T, T) -> bool, s: seq<T>)
    ensures multiset(Sorted(leq, s)) == multiset(s)
  {
    if s != [] {
      var front, last := s[..|s| - 1], s[|s| - 1];
      SortedIsPermutation(leq, front);
      InsertKeepsElements(leq, Sorted(leq, front), last);
      LastInMultiset(s);
    }
  }

  lemma SortedSameMembers<T>(leq: (T, T) -> bool, s: seq<T>)
    ensures |Sorted(leq, s)| == |s|
    ensures forall x :: x in Sorted(leq, s) <==> x in s
  {
    SortedIsPermutation(leq, s);
    assert |multiset(Sorted(leq, s))| == |multiset(s)|;
    assert forall x :: x in s <==> x in multiset(s);
    assert forall x :: x in Sorted(leq, s) <==> x in multiset(Sorted(leq, s));
  }

  lemma {:induction false} SortedIsSorted<T(!new)>(leq: (T, T) -> bool, s: seq<T>)
    requires TotalPreorder(leq)
    ensures SortedBy(leq, Sorted(leq, s))
  {
    if s != [] {
      SortedIsSorted(leq, s[..|s| - 1]);
      InsertSorted(leq, Sorted(leq, s[..|s| - 1]), s[|s| - 1]);
    }
  }

  ghost predicate Pairwise<T>(rel: (T, T) -> bool, s: seq<T>) {
    forall i, j :: 0 <= i < j < |s| ==> rel(s[i], s[j])
  }

  lemma {:induction false} InsertPairwise<T(!new)>(leq: (T, T) -> bool, s: seq<T>, x: T, rel: (T, T) -> bool)
    requires forall a, b :: rel(a, b) == rel(b, a)
    requires Pairwise(rel, s) && forall i :: 0 <= i < |s| ==> rel(s[i], x)
    ensures Pairwise(rel, Insert(leq, s, x))
  {
    if s != [] && !leq(s[|s| - 1], x) {
      var front, last := s[..|s| - 1], s[|s| - 1];
      InsertPairwise(leq, front, x, rel);
      InsertKeepsElements(leq, front, x);
      var r := Insert(leq, front, x);
      forall i | 0 <= i < |r| ensures rel(r[i], last) {
        assert r[i] in multiset(r);
        assert r[i] in front || r[i] == x;
      }
    }
  }

  /** Sorting keeps every symmetric relation that holds between any two places. */
  lemma {:induction false} SortedPairwise<T(!new)>(leq: (T, T) -> bool, s: seq<T>, rel: (T, T) -> bool)
    requires forall a, b :: rel(a, b) == rel(b, a)
    requires Pairwise(rel, s)
    ensures Pairwise(rel, Sorted(leq, s))
  {
    if s != [] {
      var front, last := s[..|s| - 1], s[|s| - 1];
      SortedPairwise(leq, front, rel);
      SortedSameMembers(leq, front);
      var r := Sorted(leq, front);
      forall i | 0 <= i < |r| ensures rel(r[i], last) {
        assert r[i] in front;
      }
      InsertPairwise(leq, r, last, rel);
    }
  }

  lemma {:induction false} FilterInsertSize<T>(leq: (T, T) -> bool, s: seq<T>, x: T, p: T -> bool)
    ensures |Filter(p, Insert(leq, s, x))| == |Filter(p, s)| + if p(x) then 1 else 0
  {
    if s == [] || leq(s[|s| - 1], x) {
      assert (s + [x])[..|s|] == s;
    } else {
      FilterInsertSize(leq, s[..|s| - 1], x, p);
      var r := Insert(leq, s[..|s| - 1], x);
      assert (r + [s[|s| - 1]])[..|r|] == r;
    }
  }

  /** Sorting changes how many elements pass a test no more than which. */
  lemma {:induction false} FilterSortedSize<T>(leq: (T, T) -> bool, s: seq<T>, p: T -> bool)
    ensures |Filter(p, Sorted(leq, s))| == |Filter(p, s)|
  {
    if s != [] {
      FilterSortedSize(leq, s[..|s| - 1], p);
      FilterInsertSize(leq, Sorted(leq, s[..|s| - 1]), s[|s| - 1], p);
    }
  }

  lemma {:induction false} FilterSize<T>(p: T -> bool, s: seq<T>)
    ensures |Filter(p, s)| <= |s|
  {
    if s != [] {
      FilterSize(p, s[..|s| - 1]);
    }
  }

  lemma {:induction false} FilterAll<T>(p: T -> bool, s: seq<T>)
    requires forall x :: x in s ==> p(x)
    ensures Filter(p, s) == s
  {
    if s != [] {
      FilterAll(p, s[..|s| - 1]);
    }
  }

  lemma {:induction false} FilterSame<T>(p: T -> bool, q: T -> bool, s: seq<T>)
    requires forall x :: x in s ==> p(x) == q(x)
    ensures Filter(p, s) == Filter(q, s)
  {
    if s != [] {
      FilterSame(p, q, s[..|s| - 1]);
    }
  }

  lemma {:induction false} FilterConcat<T>(p: T -> bool, s: seq<T>, u: seq<T>)
    ensures Filter(p, s + u) == Filter(p, s) + Filter(p, u)
  {
    if u == [] {
      assert s + u == s;
    } else {
      assert (s + u)[..|s + u| - 1] == s + u[..|u| - 1];
      FilterConcat(p, s, u[..|u| - 1]);
    }
  }

  lemma {:induction false} InsertSplits<T>(leq: (T, T) -> bool, s: seq<T>, x: T) returns (p: nat)
    ensures p <= |s| && Insert(leq, s, x) == s[..p] + [x] + s[p..]
    ensures forall k :: p <= k < |s| ==> !leq(s[k], x)
    ensures p > 0 ==> leq(s[p - 1], x)
  {
    if s == [] || leq(s[|s| - 1], x) {
      p := |s|;
    } else {
      p := InsertSplits(leq, s[..|s| - 1], x);
      assert s[p..] == s[..|s| - 1][p..] + [s[|s| - 1]];
    }
  }

  ghost predicate Placed(places: seq<int>, k: int) {
    exists i :: 0 <= i < |places| && places[i] == k
  }

  /** `places[i]` is where the `i`-th element of `r` stood in `s`: every place once, ranks never
      falling, and equal ranks in the order they stood in. */
  ghost predicate StablyPlaced<T>(leq: (T, T) -> bool, s: seq<T>, r: seq<T>, places: seq<int>) {
    && |places| == |r| == |s|
    && (forall i :: 0 <= i < |r| ==> 0 <= places[i] < |s| && r[i] == s[places[i]])
    && (forall k :: 0 <= k < |s| ==> Placed(places, k))
    && (forall i, j :: 0 <= i < j < |r| ==> InOrder(leq, r, places, i, j))
  }

  ghost predicate InOrder<T>(leq: (T, T) -> bool, r: seq<T>, places: seq<int>, i: int, j: int)
    requires 0 <= i < |r| == |places| && 0 <= j < |r|
  {
    leq(r[i], r[j]) && places[i] != places[j] && (leq(r[j], r[i]) ==> places[i] < places[j])
  }

  /** `Sorted` is a stable sort. */
  lemma {:induction false} SortedIsStablyPlaced<T(!new)>(leq: (T, T) -> bool, s: seq<T>) returns (places: seq<int>)
    requires TotalPreorder(leq)
    ensures StablyPlaced(leq, s, Sorted(leq, s), places)
  {
    if s == [] {
      places := [];
    } else {
      var n := |s| - 1;
      var front := Sorted(leq, s[..n]);
      var before := SortedIsStablyPlaced(leq, s[..n]);
      places := InsertIsStablyPlaced(leq, s, front, before);
    }
  }

  lemma InsertIsStablyPlaced<T(!new)>(leq: (T, T) -> bool, s: seq<T>, front: seq<T>, before: seq<int>)
    returns (places: seq<int>)
    requires TotalPreorder(leq) && s != [] && StablyPlaced(leq, s[..|s| - 1], front, before)
    ensures StablyPlaced(leq, s, Insert(leq, front, s[|s| - 1]), places)
  {
    var p := InsertSplits(leq, front, s[|s| - 1]);
    places := before[..p] + [|s| - 1] + before[p..];
    PlacesInserted(leq, s, front, before, p);
  }

  lemma PlacesInserted<T(!new)>(leq: (T, T) -> bool, s: seq<T>, front: seq<T>, before: seq<int>, p: nat)
    requires TotalPreorder(leq) && s != [] && StablyPlaced(leq, s[..|s| - 1], front, before)
    requires p <= |front| && (forall k :: p <= k < |front| ==> !leq(front[k], s[|s| - 1]))
    requires p > 0 ==> leq(front[p - 1], s[|s| - 1])
    ensures StablyPlaced(leq, s, front[..p] + [s[|s| - 1]] + front[p..], before[..p] + [|s| - 1] + before[p..])
  {
    var n := |s| - 1;
    var r, places := front[..p] + [s[n]] + front[p..], before[..p] + [n] + before[p..];
    forall k | 0 <= k < |s| ensures Placed(places, k) {
      if k < n {
        assert Placed(before, k);
        var i :| 0 <= i < |before| && before[i] == k;
        assert places[if i < p then i else i + 1] == k;
      } else {
        assert places[p] == n;
      }
    }
    forall i | 0 <= i < p ensures leq(front[i], s[n]) {
      assert i < p - 1 ==> InOrder(leq, front, before, i, p - 1);
    }
    forall k | p <= k < |front| ensures leq(s[n], front[k]) {
      assert !leq(front[k], s[n]);
    }
    forall i, j | 0 <= i < j < |r| ensures InOrder(leq, r, places, i, j) {
      OrderInserted(leq, front, before, s[n], n, p, i, j);
    }
  }

  lemma OrderInserted<T(!new)>(
    leq: (T, T) -> bool, front: seq<T>, before: seq<int>, x: T, n: int, p: nat, i: nat, j: nat)
    requires |front| == |before| && p <= |front| && i < j <= |front|
    requires forall k :: 0 <= k < |before| ==> before[k] < n
    requires forall k, l :: 0 <= k < l < |front| ==> InOrder(leq, front, before, k, l)
    requires forall k :: 0 <= k < p ==> leq(front[k], x)
    requires forall k :: p <= k < |front| ==> leq(x, front[k]) && !leq(front[k], x)
    ensures InOrder(leq, front[..p] + [x] + front[p..], before[..p] + [n] + before[p..], i, j)
  {
    var r, places := front[..p] + [x] + front[p..], before[..p] + [n] + before[p..];
    if i != p && j != p {
      var i', j' := if i < p then i else i - 1, if j < p then j else j - 1;
      assert InOrder(leq, front, before, i', j');
      assert r[i] == front[i'] && places[i] == before[i'];
      assert r[j] == front[j'] && places[j] == before[j'];
    }
  }

  /** `places` are where the elements of `r`, those of `s` that `p` keeps, stood. */
  ghost predicate KeptAt<T>(p: T -> bool, s: seq<T>, r: seq<T>, places: seq<int>) {
    && |places| == |r| && Ascending(places)
    && (forall i :: 0 <= i < |r| ==> 0 <= places[i] < |s| && r[i] == s[places[i]] && p(r[i]))
    && (forall k :: 0 <= k < |s| && p(s[k]) ==> Placed(places, k))
  }

  lemma PlacedMore(places: seq<int>, n: int, k: int)
    ensures Placed(places + [n], k) <==> Placed(places, k) || k == n
  {
    if i :| 0 <= i < |places| && places[i] == k {
      assert (places + [n])[i] == k;
    }
    assert (places + [n])[|places|] == n;
  }

  lemma KeptMore<T>(p: T -> bool, s: seq<T>, x: T, r: seq<T>, places: seq<int>)
    requires KeptAt(p, s, r, places)
    ensures p(x) ==> KeptAt(p, s + [x], r + [x], places + [|s|])
    ensures !p(x) ==> KeptAt(p, s + [x], r, places)
  {
    var longer := s + [x];
    forall k | 0 <= k < |longer| && p(longer[k]) ensures p(x) ==> Placed(places + [|s|], k) {
      PlacedMore(places, |s|, k);
      assert k < |s| ==> longer[k] == s[k];
    }
    forall k | 0 <= k < |longer| && p(longer[k]) ensures !p(x) ==> Placed(places, k) {
      assert k < |s| ==> longer[k] == s[k];
    }
  }

  lemma {:induction false} FilterPlaces<T>(p: T -> bool, s: seq<T>) returns (places: seq<int>)
    ensures KeptAt(p, s, Filter(p, s), places)
  {
    places := [];
    if s != [] {
      var front, x := s[..|s| - 1], s[|s| - 1];
      assert s == front + [x];
      places := FilterPlaces(p, front);
      KeptMore(p, front, x, Filter(p, front), places);
      if p(x) {
        places := places + [|front|];
        assert Filter(p, s) == Filter(p, front) + [x];
      } else {
        assert Filter(p, s) == Filter(p, front);
      }
    }
  }

  ghost function Composed(from: seq<int>, at: seq<int>): (places: seq<int>)
    requires forall i :: 0 <= i < |at| ==> 0 <= at[i] < |from|
  {
    seq(|at|, i requires 0 <= i < |at| => from[at[i]])
  }

  lemma PlacedThrough(from: seq<int>, at: seq<int>, k: int)
    requires forall i :: 0 <= i < |at| ==> 0 <= at[i] < |from|
    requires forall i :: 0 <= i < |from| ==> Placed(at, i)
    ensures Placed(from, k) ==> Placed(Composed(from, at), k)
  {
    if i :| 0 <= i < |from| && from[i] == k {
      assert Placed(at, i);
      var j :| 0 <= j < |at| && at[j] == i;
      assert Composed(from, at)[j] == k;
    }
  }

  /** `r` is the kept elements of `s`, each once, ranks never falling, and equal ranks in the order
      they stood in. */
  ghost predicate KeptInOrder<T>(p: T -> bool, leq: (T, T) -> bool, s: seq<T>, r: seq<T>, places: seq<int>) {
    && |places| == |r|
    && (forall i :: 0 <= i < |r| ==> 0 <= places[i] < |s| && r[i] == s[places[i]] && p(r[i]))
    && (forall k :: 0 <= k < |s| && p(s[k]) ==> Placed(places, k))
    && (forall i, j :: 0 <= i < j < |r| ==> InOrder(leq, r, places, i, j))
  }

  lemma SortedFilterIsKept<T(!new)>(p: T -> bool, leq: (T, T) -> bool, s: seq<T>) returns (places: seq<int>)
    requires TotalPreorder(leq)
    ensures KeptInOrder(p, leq, s, Sorted(leq, Filter(p, s)), places)
  {
    var kept := Filter(p, s);
    var from := FilterPlaces(p, s);
    var at := SortedIsStablyPlaced(leq, kept);
    var r := Sorted(leq, kept);
    places := Composed(from, at);
    forall k | 0 <= k < |s| && p(s[k]) ensures Placed(places, k) {
      PlacedThrough(from, at, k);
    }
    forall i, j | 0 <= i < j < |r| ensures InOrder(leq, r, places, i, j) {
      assert InOrder(leq, r, at, i, j);
    }
  }

  lemma {:induction false} FilterMembers<T>(p: T -> bool, s: seq<T>, x: T)
    ensures x in Filter(p, s) <==> x in s && p(x)
  {
    if s != [] {
      FilterMembers(p, s[..|s| - 1], x);
      assert s == s[..|s| - 1] + [s[|s| - 1]];
    }
  }

  ghost predicate Asymmetric(lt: (int, int) -> bool) {
    forall x, y :: lt(x, y) ==> !lt(y, x)
  }

  ghost predicate Ordered(lt: (int, int) -> bool, s: seq<int>) {
    forall i, j :: 0 <= i < j < |s| ==> lt(s[i], s[j])
  }

  lemma OrderedAt(lt: (int, int) -> bool, s: seq<int>, i: nat, j: nat)
    requires Ordered(lt, s)
    ensures i < j < |s| ==> lt(s[i], s[j])
  {
  }

  /** Two lists of the same places, both in the same strict order, are the same list. */
  lemma {:induction false} OrderFixesList(lt: (int, int) -> bool, p: seq<int>, q: seq<int>, n: nat)
    requires Asymmetric(lt) && Ordered(lt, p) && Ordered(lt, q) && n <= |p|
    requires forall i :: 0 <= i < |p| ==> Placed(q, p[i])
    requires forall i :: 0 <= i < |q| ==> Placed(p, q[i])
    ensures n <= |q| && forall i :: 0 <= i < n ==> p[i] == q[i]
  {
    if n > 0 {
      OrderFixesList(lt, p, q, n - 1);
      assert Placed(q, p[n - 1]);
      var m :| 0 <= m < |q| && q[m] == p[n - 1];
      assert forall i :: 0 <= i < n - 1 ==> p[i] != p[n - 1];
      assert Placed(p, q[n - 1]);
      var k :| 0 <= k < |p| && p[k] == q[n - 1];
      assert forall i :: 0 <= i < n - 1 ==> q[i] != q[n - 1];
      OrderedAt(lt, p, n - 1, k);
      OrderedAt(lt, q, n - 1, m);
    }
  }

  /** The least element of a non-empty set of numbers. */
  function MinOf(s: set<int>): (m: int)
    requires s != {}
    ensures m in s && forall x :: x in s ==> m <= x
  {
    LeastExists(s);
    var m :| LeastOf(s, m);
    m
  }

  ghost function AnyOf<T>(s: set<T>): (y: T)
    requires s != {}
    ensures y in s
  {
    var y :| y in s;
    y
  }

  lemma NoMembers(s: set<int>)
    requires forall x :: x !in s
    ensures s == {}
  {
    assert forall x: int :: x in s <==> x in {};
  }

  predicate LeastOf(s: set<int>, m: int) {
    m in s && forall x :: x in s ==> m <= x
  }

  lemma LeastWith(rest: set<int>, y: int, m: int)
    requires LeastOf(rest, m)
    ensures LeastOf(rest + {y}, if m <= y then m else y)
  {
  }

  lemma {:induction false} LeastExists(s: set<int>)
    requires s != {}
    ensures exists m :: LeastOf(s, m)
    decreases |s|
  {
    var y := AnyOf(s);
    var rest := s - {y};
    assert s == rest + {y};
    if rest == {} {
      assert LeastOf(s, y);
    } else {
      LeastExists(rest);
      var m :| LeastOf(rest, m);
      LeastWith(rest, y, m);
    }
  }

  ghost predicate Ascending(s: seq<int>) {
    forall i, j :: 0 <= i < j < |s| ==> s[i] < s[j]
  }

  /** `sorted` of a set of numbers: every member once, ascending. */
  function SortedSet(s: set<int>): (r: seq<int>)
    ensures Ascending(r)
    ensures forall x :: x in r <==> x in s
    decreases |s|
  {
    if s == {} then [] else
      var m := MinOf(s);
      [m] + SortedSet(s - {m})
  }
}
