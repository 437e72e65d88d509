/** `sorted(list(s))` for a set of parameter indices: the increasing list of its members. */
module IndexSets {

  predicate Increasing(l: seq<nat>) {
    forall i, j :: 0 <= i < j < |l| ==> l[i] < l[j]
  }

  /** `m` is the least member of `s`. */
  predicate Least(m: nat, s: set<nat>) {
    m in s && forall y :: y in s ==> m <= y
  }

  /** A non-empty set of indices has a least member. */
  lemma {:induction false} MinExists(s: set<nat>)
    requires s != {}
    ensures exists m :: Least(m, s)
    decreases s
  {
    var x :| x in s;
    var r := s - {x};
    if r != {} {
      MinExists(r);
      var m :| Least(m, r);
      var least := if x < m then x else m;
      forall y | y in s ensures least <= y {
        if y != x {
          assert y in r;
        }
      }
      assert Least(least, s);
    } else {
      forall y | y in s ensures x <= y {
        assert y !in r;
      }
      assert Least(x, s);
    }
  }

  /** The members of `s` in increasing order. */
  ghost function SortedOf(s: set<nat>): (l: seq<nat>)
    ensures Increasing(l)
    ensures forall x :: x in l <==> x in s
    ensures |l| == |s|
    decreases s
  {
    if s == {} then []
    else
      MinExists(s);
      var m :| Least(m, s);
      var rest := SortedOf(s - {m});
      PrependLeast(m, s, rest);
      [m] + rest
  }

  /** Putting the least member in front of the increasing list of the others. */
  lemma PrependLeast(m: nat, s: set<nat>, rest: seq<nat>)
    requires Least(m, s)
    requires Increasing(rest) && forall x :: x in rest <==> x in s - {m}
    ensures Increasing([m] + rest)
    ensures forall x :: x in [m] + rest <==> x in s
  {
    var l := [m] + rest;
    forall i, j | 0 <= i < j < |l| ensures l[i] < l[j] {
      assert l[j] == rest[j - 1] && rest[j - 1] in rest;
      if i > 0 {
        assert l[i] == rest[i - 1];
      }
    }
  }

  /** Lists with the same members are both empty or both not. */
  lemma EmptyIff(a: seq<nat>, b: seq<nat>)
    requires forall x :: x in a <==> x in b
    ensures a == [] <==> b == []
  {
    if a != [] {
      assert a[0] in a;
    }
    if b != [] {
      assert b[0] in b;
    }
  }

  /** An increasing list is fixed by its members. */
  lemma {:induction false} IncreasingUnique(a: seq<nat>, b: seq<nat>)
    requires Increasing(a) && Increasing(b)
    requires forall x :: x in a <==> x in b
    ensures a == b
  {
    EmptyIff(a, b);
    if a != [] {
      assert a[0] == b[0] by {
        assert a[0] in b && b[0] in a;
        var i :| 0 <= i < |b| && b[i] == a[0];
        var j :| 0 <= j < |a| && a[j] == b[0];
        assert b[0] <= b[i] && a[0] <= a[j];
      }
      forall x ensures x in a[1..] <==> x in b[1..] {
        if x in a[1..] {
          var i :| 1 <= i < |a| && a[i] == x;
          assert x != a[0] && x in b;
        }
        if x in b[1..] {
          var i :| 1 <= i < |b| && b[i] == x;
          assert x != b[0] && x in a;
        }
      }
      IncreasingUnique(a[1..], b[1..]);
      assert a == [a[0]] + a[1..] && b == [b[0]] + b[1..];
    }
  }

  /** Appending a member above every listed one keeps the list increasing. */
  lemma AppendGreatest(l: seq<nat>, m: nat, rest: set<nat>)
    requires Increasing(l) && m in rest
    requires forall x, y :: x in l && y in rest ==> x < y
    ensures Increasing(l + [m])
  {
    forall i | 0 <= i < |l| ensures l[i] < m {
      assert l[i] in l;
    }
  }

  /** `sorted(list(s))`: the least remaining member is taken each time. */
  method SortIndices(s: set<nat>) returns (l: seq<nat>)
    ensures l == SortedOf(s)
  {
    l := [];
    var rest := s;
    while rest != {}
      invariant rest <= s
      invariant Increasing(l)
      invariant forall x :: x in l <==> x in s && x !in rest
      invariant forall x, y :: x in l && y in rest ==> x < y
      decreases rest
    {
      MinExists(rest);
      var m :| Least(m, rest);
      AppendGreatest(l, m, rest);
      l := l + [m];
      rest := rest - {m};
    }
    IncreasingUnique(l, SortedOf(s));
  }
}
