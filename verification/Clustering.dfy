/** One-dimensional clustering of page coordinates, and nearest-centre lookup. */
module Clustering {
  import opened Sorting

  const ASCEND := (a: real, b: real) => a <= b

  function Sum(s: seq<real>): real {
    if s == [] then 0.0 else Sum(s[..|s| - 1]) + s[|s| - 1]
  }

  lemma {:induction false} SumConcat(s: seq<real>, u: seq<real>)
    ensures Sum(s + u) == Sum(s) + Sum(u)
  {
    if u == [] {
      assert s + u == s;
    } else {
      assert (s + u)[..|s + u| - 1] == s + u[..|u| - 1];
      SumConcat(s, u[..|u| - 1]);
    }
  }

  lemma {:induction false} SumInsert(s: seq<real>, x: real)
    ensures Sum(Insert(ASCEND, s, x)) == Sum(s) + x
  {
    if s == [] || ASCEND(s[|s| - 1], x) {
      SumConcat(s, [x]);
    } else {
      SumInsert(s[..|s| - 1], x);
      SumConcat(Insert(ASCEND, s[..|s| - 1], x), [s[|s| - 1]]);
    }
  }

  /** Sorting changes no sum. */
  lemma {:induction false} SumSorted(s: seq<real>)
    ensures Sum(Sorted(ASCEND, s)) == Sum(s)
  {
    if s != [] {
      SumSorted(s[..|s| - 1]);
      SumInsert(Sorted(ASCEND, s[..|s| - 1]), s[|s| - 1]);
    }
  }

  function Mean(s: seq<real>): real
    requires s != []
  {
    Sum(s) / (|s| as real)
  }

  lemma OneMoreBetween(total: real, n: real, x: real, lo: real, hi: real)
    requires lo * n <= total <= hi * n && lo <= x <= hi
    ensures lo * (n + 1.0) <= total + x <= hi * (n + 1.0)
  {
    assert lo * (n + 1.0) == lo * n + lo && hi * (n + 1.0) == hi * n + hi;
  }

  lemma {:induction false} SumBetween(s: seq<real>, lo: real, hi: real)
    requires forall x :: x in s ==> lo <= x <= hi
    ensures lo * (|s| as real) <= Sum(s) <= hi * (|s| as real)
  {
    if s != [] {
      var front, last := s[..|s| - 1], s[|s| - 1];
      assert last in s && forall x :: x in front ==> x in s;
      SumBetween(front, lo, hi);
      OneMoreBetween(Sum(front), |front| as real, last, lo, hi);
      assert |front| as real + 1.0 == |s| as real;
    }
  }

  lemma MeanBetween(s: seq<real>, lo: real, hi: real)
    requires s != [] && forall x :: x in s ==> lo <= x <= hi
    ensures lo <= Mean(s) <= hi
  {
    SumBetween(s, lo, hi);
    QuotientBetween(Sum(s), |s| as real, lo, hi);
  }

  lemma QuotientBetween(total: real, n: real, lo: real, hi: real)
    requires n > 0.0 && lo * n <= total <= hi * n
    ensures lo <= total / n <= hi
  {
    var q := total / n;
    assert q * n == total;
    assert q < lo ==> q * n < lo * n;
    assert q > hi ==> q * n > hi * n;
  }

  type Groups = seq<seq<real>>

  ghost function LastOf(g: seq<real>): real
    requires g != []
  {
    g[|g| - 1]
  }

  ghost predicate NoneEmpty(gs: Groups) {
    forall i :: 0 <= i < |gs| ==> gs[i] != []
  }

  /** The last group takes `x` if its last value is within `tol`, or else `x` starts a new one. */
  ghost function Extend(gs: Groups, x: real, tol: real): (r: Groups)
    requires gs != [] && NoneEmpty(gs)
    ensures r != [] && NoneEmpty(r) && LastOf(r[|r| - 1]) == x
  {
    var k := |gs| - 1;
    if x - LastOf(gs[k]) <= tol then gs[..k] + [gs[k] + [x]] else gs + [[x]]
  }

  /** Sorted values split wherever two neighbours are more than `tol` apart. */
  ghost function GroupsOf(ordered: seq<real>, tol: real): (gs: Groups)
    requires ordered != []
    ensures gs != [] && NoneEmpty(gs) && LastOf(gs[|gs| - 1]) == LastOf(ordered)
  {
    var n := |ordered| - 1;
    if n == 0 then [ordered] else Extend(GroupsOf(ordered[..n], tol), ordered[n], tol)
  }

  ghost function Flatten(gs: Groups): seq<real> {
    if gs == [] then [] else Flatten(gs[..|gs| - 1]) + gs[|gs| - 1]
  }

  ghost predicate Within(g: seq<real>, lo: real, hi: real) {
    forall x :: x in g ==> lo <= x <= hi
  }

  /** Every group lies between its first and last value, and groups are more than `tol` apart. */
  ghost predicate Separated(gs: Groups, tol: real) {
    && NoneEmpty(gs)
    && (forall i :: 0 <= i < |gs| ==> Within(gs[i], gs[i][0], gs[i][|gs[i]| - 1]))
    && (forall i, j :: 0 <= i < j < |gs| ==> gs[i][|gs[i]| - 1] + tol < gs[j][0])
  }

  lemma OpenSeparates(gs: Groups, tol: real, x: real)
    requires gs != [] && tol >= 0.0 && Separated(gs, tol) && LastOf(gs[|gs| - 1]) + tol < x
    ensures Separated(gs + [[x]], tol)
  {
    var k := |gs| - 1;
    assert Within(gs[k], gs[k][0], LastOf(gs[k])) && gs[k][0] in gs[k];
    forall i | 0 <= i <= k ensures LastOf(gs[i]) + tol < x {
      assert i < k ==> LastOf(gs[i]) + tol < gs[k][0];
    }
  }

  lemma JoinSeparates(gs: Groups, tol: real, x: real)
    requires gs != [] && tol >= 0.0 && Separated(gs, tol) && LastOf(gs[|gs| - 1]) <= x
    ensures Separated(gs[..|gs| - 1] + [gs[|gs| - 1] + [x]], tol)
  {
    var k := |gs| - 1;
    var joined := gs[k] + [x];
    assert Within(gs[k], gs[k][0], LastOf(gs[k])) && gs[k][0] in gs[k];
    forall y | y in joined ensures joined[0] <= y <= LastOf(joined) {
      assert y in gs[k] || y == x;
    }
    assert Within(joined, joined[0], LastOf(joined));
    var after := gs[..k] + [joined];
    assert forall i :: 0 <= i < k ==> after[i] == gs[i];
    assert after[k] == joined;
  }

  lemma ExtendSeparates(gs: Groups, tol: real, x: real)
    requires gs != [] && tol >= 0.0 && Separated(gs, tol) && LastOf(gs[|gs| - 1]) <= x
    ensures Separated(Extend(gs, x, tol), tol)
  {
    if x - LastOf(gs[|gs| - 1]) <= tol {
      JoinSeparates(gs, tol, x);
    } else {
      OpenSeparates(gs, tol, x);
    }
  }

  lemma OneGroupSeparated(x: real, tol: real)
    ensures Separated([[x]], tol)
  {
    assert Within([x], x, x);
  }

  lemma SortedFront(ordered: seq<real>)
    requires ordered != [] && SortedBy(ASCEND, ordered)
    ensures SortedBy(ASCEND, ordered[..|ordered| - 1])
    ensures |ordered| > 1 ==> LastOf(ordered[..|ordered| - 1]) <= LastOf(ordered)
  {
    assert |ordered| > 1 ==> ASCEND(ordered[|ordered| - 2], ordered[|ordered| - 1]);
  }

  lemma {:induction false} GroupsSeparate(ordered: seq<real>, tol: real)
    requires ordered != [] && SortedBy(ASCEND, ordered) && tol >= 0.0
    ensures Separated(GroupsOf(ordered, tol), tol)
  {
    var n := |ordered| - 1;
    if n == 0 {
      OneGroupSeparated(ordered[0], tol);
      assert [ordered[0]] == ordered;
    } else {
      SortedFront(ordered);
      GroupsSeparate(ordered[..n], tol);
      ExtendSeparates(GroupsOf(ordered[..n], tol), tol, ordered[n]);
    }
  }

  lemma FlattenSnoc(gs: Groups, g: seq<real>)
    ensures Flatten(gs + [g]) == Flatten(gs) + g
  {
    assert (gs + [g])[..|gs|] == gs;
  }

  lemma FlattenOne(g: seq<real>)
    ensures Flatten([g]) == g
  {
    FlattenSnoc([], g);
    assert [] + [g] == [g];
  }

  lemma ExtendFlattens(gs: Groups, tol: real, x: real)
    requires gs != [] && NoneEmpty(gs)
    ensures Flatten(Extend(gs, x, tol)) == Flatten(gs) + [x]
  {
    var k := |gs| - 1;
    if x - LastOf(gs[k]) <= tol {
      FlattenSnoc(gs[..k], gs[k] + [x]);
    } else {
      FlattenSnoc(gs, [x]);
    }
  }

  lemma {:induction false} GroupsFlatten(ordered: seq<real>, tol: real)
    requires ordered != []
    ensures Flatten(GroupsOf(ordered, tol)) == ordered
  {
    if |ordered| == 1 {
      FlattenOne(ordered);
    } else {
      var front, x := ordered[..|ordered| - 1], ordered[|ordered| - 1];
      GroupsFlatten(front, tol);
      ExtendFlattens(GroupsOf(front, tol), tol, x);
      assert GroupsOf(ordered, tol) == Extend(GroupsOf(front, tol), x, tol);
      LastGoesBack(ordered);
    }
  }

  lemma LastGoesBack<T>(s: seq<T>)
    requires s != []
    ensures s[..|s| - 1] + [s[|s| - 1]] == s
  {
  }

  ghost function Centres(gs: Groups): seq<real>
    requires NoneEmpty(gs)
  {
    seq(|gs|, i requires 0 <= i < |gs| => Mean(gs[i]))
  }

  /** Cluster centres are strictly ascending, and more than the tolerance apart. */
  lemma CentresApart(gs: Groups, tol: real, i: nat, j: nat)
    requires Separated(gs, tol) && i < j < |gs|
    ensures Centres(gs)[i] + tol < Centres(gs)[j]
  {
    MeanBetween(gs[i], gs[i][0], gs[i][|gs[i]| - 1]);
    MeanBetween(gs[j], gs[j][0], gs[j][|gs[j]| - 1]);
  }

  /** The values, sorted and cut at the wide gaps. */
  ghost function ClustersOf(values: seq<real>, tol: real): (gs: Groups)
    requires values != []
    ensures gs != [] && NoneEmpty(gs)
  {
    SortedSameMembers(ASCEND, values);
    GroupsOf(Sorted(ASCEND, values), tol)
  }

  ghost predicate Clusters(values: seq<real>, tol: real, gs: Groups)
    requires values != []
  {
    gs == ClustersOf(values, tol)
  }

  /** Groups of a list of values: the values themselves, sorted and cut at the wide gaps. */
  lemma ClustersSeparate(values: seq<real>, tol: real, gs: Groups)
    requires values != [] && tol >= 0.0 && Clusters(values, tol, gs)
    ensures Separated(gs, tol) && Flatten(gs) == Sorted(ASCEND, values)
    ensures forall x :: x in values ==> exists i :: 0 <= i < |gs| && x in gs[i]
  {
    SortedSameMembers(ASCEND, values);
    SortedIsSorted(ASCEND, values);
    GroupsSeparate(Sorted(ASCEND, values), tol);
    GroupsFlatten(Sorted(ASCEND, values), tol);
    forall x | x in values ensures exists i :: 0 <= i < |gs| && x in gs[i] {
      var i := InSomeGroup(gs, x);
    }
  }

  lemma {:induction false} InSomeGroup(gs: Groups, x: real) returns (i: nat)
    requires x in Flatten(gs)
    ensures i < |gs| && x in gs[i]
  {
    if x in gs[|gs| - 1] {
      i := |gs| - 1;
    } else {
      i := InSomeGroup(gs[..|gs| - 1], x);
    }
  }

  /** Split the sorted values at the wide gaps, and take each group's mean. */
  method Cluster(values: seq<real>, tol: real) returns (centres: seq<real>)
    requires values != []
    ensures centres == Centres(ClustersOf(values, tol))
  {
    var groups := GroupValues(values, tol);
    centres := [];
    for i := 0 to |groups|
      invariant |centres| == i
      invariant forall k :: 0 <= k < i ==> centres[k] == Mean(groups[k])
    {
      centres := centres + [Mean(groups[i])];
    }
  }

  method GroupValues(values: seq<real>, tol: real) returns (groups: Groups)
    requires values != []
    ensures groups == ClustersOf(values, tol)
  {
    SortedSameMembers(ASCEND, values);
    var ordered := Sorted(ASCEND, values);
    groups := [[ordered[0]]];
    assert ordered[..1] == [ordered[0]];
    for k := 1 to |ordered|
      invariant groups == GroupsOf(ordered[..k], tol)
    {
      GroupsGrow(ordered, tol, k);
      groups := JoinOrOpen(groups, ordered[k], tol);
    }
    assert ordered[..|ordered|] == ordered;
  }

  /** Append to the last group, or open a new one. */
  method JoinOrOpen(groups: Groups, x: real, tol: real) returns (r: Groups)
    requires groups != [] && NoneEmpty(groups)
    ensures r == Extend(groups, x, tol)
  {
    var last := |groups| - 1;
    if x - groups[last][|groups[last]| - 1] <= tol {
      r := groups[..last] + [groups[last] + [x]];
    } else {
      r := groups + [[x]];
    }
  }

  lemma GroupsGrow(ordered: seq<real>, tol: real, k: nat)
    requires 0 < k < |ordered|
    ensures GroupsOf(ordered[..k + 1], tol) == Extend(GroupsOf(ordered[..k], tol), ordered[k], tol)
  {
    assert ordered[..k + 1][..k] == ordered[..k];
  }

  // --- nearest centre ---------------------------------------------------------------

  function Distance(a: real, b: real): real {
    if a < b then b - a else a - b
  }

  /** Two values are within `d` of each other exactly when neither is more than `d` above the other. */
  lemma DistanceWithin(a: real, b: real, d: real)
    ensures Distance(a, b) <= d <==> a - b <= d && b - a <= d
  {
  }

  /** The first of the closest centres. */
  function Nearest(value: real, centres: seq<real>): (i: nat)
    requires centres != []
    ensures i < |centres|
  {
    var n := |centres| - 1;
    if n == 0 then 0 else
      var i := Nearest(value, centres[..n]);
      if Distance(centres[n], value) < Distance(centres[i], value) then n else i
  }

  lemma {:induction false} NearestIsClosest(value: real, centres: seq<real>)
    requires centres != []
    ensures var i := Nearest(value, centres);
            && (forall k :: 0 <= k < |centres| ==> Distance(centres[i], value) <= Distance(centres[k], value))
            && (forall k :: 0 <= k < i ==> Distance(centres[i], value) < Distance(centres[k], value))
  {
    var n := |centres| - 1;
    if n > 0 {
      NearestIsClosest(value, centres[..n]);
      assert forall k :: 0 <= k < n ==> centres[..n][k] == centres[k];
    }
  }

  ghost predicate Spread(g: seq<real>, width: real) {
    forall x, y :: x in g && y in g ==> x - y <= width
  }

  /** When no cluster is wider than the tolerance, the nearest centre to a value is the mean of
      the value's own cluster. */
  lemma NearestIsOwnCluster(gs: Groups, tol: real, i: nat, x: real)
    requires tol >= 0.0 && Separated(gs, tol) && i < |gs| && x in gs[i]
    requires Spread(gs[i], tol)
    ensures Nearest(x, Centres(gs)) == i
  {
    var centres := Centres(gs);
    NearestIsClosest(x, centres);
    var first, last := gs[i][0], gs[i][|gs[i]| - 1];
    assert first in gs[i] && last in gs[i] && Within(gs[i], first, last);
    MeanBetween(gs[i], first, last);
    forall k | 0 <= k < |gs| && k != i ensures Distance(centres[i], x) < Distance(centres[k], x) {
      MeanBetween(gs[k], gs[k][0], gs[k][|gs[k]| - 1]);
      if k < i {
        assert gs[k][|gs[k]| - 1] + tol < gs[i][0];
      } else {
        assert gs[i][|gs[i]| - 1] + tol < gs[k][0];
      }
    }
  }

  ghost predicate StrictlyAscending(s: seq<real>) {
    forall i, j :: 0 <= i < j < |s| ==> s[i] < s[j]
  }

  /** Over ascending centres, a larger value never goes to an earlier centre. */
  lemma NearestMonotone(centres: seq<real>, v: real, w: real)
    requires centres != [] && StrictlyAscending(centres) && v <= w
    ensures Nearest(v, centres) <= Nearest(w, centres)
  {
    var i := Nearest(v, centres);
    NearestIsClosest(v, centres);
    NearestIsClosest(w, centres);
    forall j | 0 <= j < i ensures Distance(centres[i], w) < Distance(centres[j], w) {
      LeansForward(centres[j], centres[i], v, w);
    }
  }

  lemma LeansForward(a: real, b: real, v: real, w: real)
    requires a < b && v <= w && Distance(b, v) < Distance(a, v)
    ensures Distance(b, w) < Distance(a, w)
  {
  }
}
