/** Pool names in Python's string order. */
module Names {
  import opened Sorting

  predicate Leq(a: string, b: string) {
    a == [] || (b != [] && (a[0] < b[0] || (a[0] == b[0] && Leq(a[1..], b[1..]))))
  }

  /** The order of the dictionary: a prefix comes first, and otherwise the first difference decides. */
  lemma {:induction false} LeqIsLexicographic(a: string, b: string)
    ensures Leq(a, b) <==> a <= b || exists i :: FirstDifference(a, b, i) && a[i] < b[i]
  {
    if a != [] && b != [] && a[0] == b[0] {
      var x, y := a[1..], b[1..];
      LeqIsLexicographic(x, y);
      TailPrefix(a, b);
      forall i ensures FirstDifference(x, y, i) <==> 0 <= i && FirstDifference(a, b, i + 1) {
        TailDifference(a, b, i);
      }
      if i :| FirstDifference(x, y, i) && x[i] < y[i] {
        assert FirstDifference(a, b, i + 1);
      }
      if i :| FirstDifference(a, b, i) && a[i] < b[i] {
        assert 0 <= i - 1 && FirstDifference(a, b, (i - 1) + 1);
        assert FirstDifference(x, y, i - 1);
      }
    } else if a != [] && b != [] {
      assert FirstDifference(a, b, 0);
      forall i | FirstDifference(a, b, i) ensures i == 0 {
        AgreesBefore(a, b, i);
      }
    }
  }

  lemma TailPrefix(a: string, b: string)
    requires a != [] && b != [] && a[0] == b[0]
    ensures a <= b <==> a[1..] <= b[1..]
  {
    assert a == [a[0]] + a[1..] && b == [b[0]] + b[1..];
  }

  lemma TailDifference(a: string, b: string, i: int)
    requires a != [] && b != [] && a[0] == b[0]
    ensures FirstDifference(a[1..], b[1..], i) <==> 0 <= i && FirstDifference(a, b, i + 1)
  {
    if 0 <= i < |a| - 1 && i < |b| - 1 {
      assert a[..i + 1] == [a[0]] + a[1..][..i] && b[..i + 1] == [b[0]] + b[1..][..i];
    }
  }

  lemma AgreesBefore(a: string, b: string, i: int)
    requires FirstDifference(a, b, i)
    ensures i > 0 ==> a[0] == b[0]
  {
    if i > 0 {
      assert a[..i][0] == a[0] && b[..i][0] == b[0];
    }
  }

  ghost predicate FirstDifference(a: string, b: string, i: int) {
    0 <= i < |a| && i < |b| && a[..i] == b[..i] && a[i] != b[i]
  }

  lemma {:induction false} Total(a: string, b: string)
    ensures Leq(a, b) || Leq(b, a)
  {
    if a != [] && b != [] && a[0] == b[0] {
      Total(a[1..], b[1..]);
    }
  }

  lemma {:induction false} Antisymmetric(a: string, b: string)
    requires Leq(a, b) && Leq(b, a)
    ensures a == b
  {
    if a != [] && b != [] {
      Antisymmetric(a[1..], b[1..]);
      assert a == [a[0]] + a[1..] && b == [b[0]] + b[1..];
    }
  }

  lemma {:induction false} Transitive(a: string, b: string, c: string)
    requires Leq(a, b) && Leq(b, c)
    ensures Leq(a, c)
  {
    if a != [] && b != [] && c != [] && a[0] == b[0] == c[0] {
      Transitive(a[1..], b[1..], c[1..]);
    }
  }

  lemma {:induction false} LeastExists(s: set<string>)
    requires s != {}
    ensures exists m :: IsLeast(s, m)
    decreases |s|
  {
    var y := AnyOf(s);
    var rest := s - {y};
    Total(y, y);
    if rest == {} {
      assert s == {y};
      assert IsLeast(s, y);
    } else {
      LeastExists(rest);
      var m :| IsLeast(rest, m);
      Total(m, y);
      var least := if Leq(m, y) then m else y;
      forall x | x in s ensures Leq(least, x) {
        if x != y && least == y {
          Transitive(y, m, x);
        }
      }
      assert IsLeast(s, least);
    }
  }

  predicate IsLeast(s: set<string>, m: string) {
    m in s && forall x :: x in s ==> Leq(m, x)
  }

  function LeastName(s: set<string>): (m: string)
    requires s != {}
    ensures m in s && forall x :: x in s ==> Leq(m, x)
  {
    LeastExists(s);
    assert forall m, n :: IsLeast(s, m) && IsLeast(s, n) ==> m == n by {
      forall m, n | IsLeast(s, m) && IsLeast(s, n) ensures m == n {
        Antisymmetric(m, n);
      }
    }
    var m :| m in s && IsLeast(s, m);
    m
  }

  /** `sorted` of a set of names: every name once, in order. */
  function SortedNames(s: set<string>): (r: seq<string>)
    ensures forall i, j :: 0 <= i < j < |r| ==> Leq(r[i], r[j]) && r[i] != r[j]
    ensures forall x :: x in r <==> x in s
    decreases |s|
  {
    if s == {} then [] else
      var m := LeastName(s);
      var rest := SortedNames(s - {m});
      assert forall i :: 0 <= i < |rest| ==> rest[i] in rest;
      [m] + rest
  }

  ghost predicate Ascending(s: seq<string>) {
    forall i, j :: 0 <= i < j < |s| ==> Leq(s[i], s[j]) && s[i] != s[j]
  }

  /** Two ascending lists of the same names are the same list. */
  lemma {:induction false} SortedUnique(a: seq<string>, b: seq<string>)
    requires Ascending(a) && Ascending(b) && forall x :: x in a <==> x in b
    ensures a == b
  {
    if a == [] {
      assert forall i :: 0 <= i < |b| ==> b[i] in b;
    } else {
      assert a[0] in a && b[0] in b;
      HeadIsLeast(a, b[0]);
      HeadIsLeast(b, a[0]);
      Antisymmetric(a[0], b[0]);
      assert a == [a[0]] + a[1..] && b == [b[0]] + b[1..];
      assert a[0] !in a[1..] && b[0] !in b[1..];
      assert forall x :: x in a <==> x == a[0] || x in a[1..];
      assert forall x :: x in b <==> x == b[0] || x in b[1..];
      SortedUnique(a[1..], b[1..]);
    }
  }

  lemma HeadIsLeast(s: seq<string>, x: string)
    requires Ascending(s) && x in s
    ensures Leq(s[0], x)
  {
    Total(x, x);
  }
}
