/**
 Byte-wise string order and sorting, standing in for Go's `sort.Strings`.  The order and
 permutation laws below are all that the rest of the project uses; they determine the result.
 */
module Sorting {

  /** Lexicographic order of strings. */
  predicate Leq(a: string, b: string) {
    a == "" || (b != "" && (a[0] < b[0] || (a[0] == b[0] && Leq(a[1..], b[1..]))))
  }

  predicate Sorted(s: seq<string>) {
    forall i, j :: 0 <= i < j < |s| ==> Leq(s[i], s[j])
  }

  /** `a` comes before `b` in byte order, or is equal: it is a prefix of `b`, or has the smaller
      character at the first place where they differ. */
  ghost predicate Precedes(a: string, b: string) {
    a <= b || exists i: nat :: SmallerAt(a, b, i)
  }

  ghost predicate SmallerAt(a: string, b: string, i: nat) {
    i < |a| && i < |b| && a[..i] == b[..i] && a[i] < b[i]
  }

  lemma {:induction false} LeqAtDifference(a: string, b: string, i: nat)
    requires SmallerAt(a, b, i)
    ensures Leq(a, b) && !Leq(b, a)
  {
    if i > 0 {
      assert a[0] == a[..i][0] == b[..i][0] == b[0];
      assert a[1..][..i - 1] == a[..i][1..] == b[..i][1..] == b[1..][..i - 1];
      LeqAtDifference(a[1..], b[1..], i - 1);
    }
  }

  lemma {:induction false} LeqIsByteOrder(a: string, b: string)
    ensures Leq(a, b) <==> Precedes(a, b)
  {
    if a == "" {
    } else if b == "" {
      assert !SmallerAt(a, b, 0);
    } else if a[0] < b[0] {
      assert SmallerAt(a, b, 0);
    } else if a[0] > b[0] {
      forall i: nat ensures !SmallerAt(a, b, i) {
        if i > 0 && i < |a| && i < |b| { assert a[..i][0] == a[0] && b[..i][0] == b[0]; }
      }
    } else {
      LeqIsByteOrder(a[1..], b[1..]);
      assert a == [a[0]] + a[1..] && b == [b[0]] + b[1..];
      if i: nat :| SmallerAt(a[1..], b[1..], i) {
        assert a[..i + 1] == [a[0]] + a[1..][..i] && b[..i + 1] == [b[0]] + b[1..][..i];
        assert SmallerAt(a, b, i + 1);
      }
      if i: nat :| SmallerAt(a, b, i) { LeqAtDifference(a, b, i); }
    }
  }

  /** In byte order, told from neighbours. */
  ghost predicate Ascending(s: seq<string>) {
    forall i :: 0 < i < |s| ==> Precedes(s[i - 1], s[i])
  }

  lemma SortedAscends(s: seq<string>)
    requires Sorted(s)
    ensures Ascending(s)
  {
    forall i | 0 < i < |s| ensures Precedes(s[i - 1], s[i]) { LeqIsByteOrder(s[i - 1], s[i]); }
  }

  lemma LeqTotal(a: string, b: string)
    ensures Leq(a, b) || Leq(b, a)
  {
  }

  lemma LeqAntisymmetric(a: string, b: string)
    requires Leq(a, b) && Leq(b, a)
    ensures a == b
  {
    if a != "" && b != "" {
      LeqAntisymmetric(a[1..], b[1..]);
      assert a == [a[0]] + a[1..] && b == [b[0]] + b[1..];
    }
  }

  lemma LeqTransitive(a: string, b: string, c: string)
    requires Leq(a, b) && Leq(b, c)
    ensures Leq(a, c)
  {
    if a != "" && a[0] == b[0] == c[0] {
      LeqTransitive(a[1..], b[1..], c[1..]);
    }
  }

  function InsertSorted(x: string, s: seq<string>): (r: seq<string>)
    requires Sorted(s)
    ensures Sorted(r) && multiset(r) == multiset(s) + multiset{x}
  {
    if s == [] then [x]
    else if Leq(x, s[0]) then
      assert forall i :: 0 <= i < |s| ==> Leq(x, s[i]) by {
        forall i | 0 <= i < |s| ensures Leq(x, s[i]) { if i > 0 { LeqTransitive(x, s[0], s[i]); } }
      }
      [x] + s
    else
      var rest := InsertSorted(x, s[1..]);
      assert s == [s[0]] + s[1..];
      assert forall i :: 0 <= i < |rest| ==> Leq(s[0], rest[i]) by {
        LeqTotal(x, s[0]);
        forall i | 0 <= i < |rest| ensures Leq(s[0], rest[i]) {
          assert rest[i] in multiset(rest);
          if rest[i] != x { assert rest[i] in s[1..]; }
        }
      }
      [s[0]] + rest
  }

  function Sort(s: seq<string>): (r: seq<string>)
    ensures Sorted(r) && multiset(r) == multiset(s)
  {
    if s == [] then []
    else
      assert s == [s[0]] + s[1..];
      InsertSorted(s[0], Sort(s[1..]))
  }

  lemma HeadAndTail(s: seq<string>)
    requires s != []
    ensures multiset(s) == multiset{s[0]} + multiset(s[1..])
  {
    assert s == [s[0]] + s[1..];
  }

  lemma SameMembers(a: seq<string>, b: seq<string>, x: string)
    requires multiset(a) == multiset(b) && x in a
    ensures x in b
  {
    assert x in multiset(a);
    assert x in multiset(b);
  }

  /** A sorted list is determined by what it contains. */
  lemma {:induction false} SortedUnique(a: seq<string>, b: seq<string>)
    requires Sorted(a) && Sorted(b) && multiset(a) == multiset(b)
    ensures a == b
  {
    assert |multiset(a)| == |a| && |multiset(b)| == |b|;
    if a != [] {
      SameMembers(a, b, a[0]);
      SameMembers(b, a, b[0]);
      HeadIsLeast(a, b[0]);
      HeadIsLeast(b, a[0]);
      LeqAntisymmetric(a[0], b[0]);
      HeadAndTail(a);
      HeadAndTail(b);
      CancelOne(a[0], multiset(a[1..]), multiset(b[1..]));
      SortedUnique(a[1..], b[1..]);
      assert a == [a[0]] + a[1..] && b == [b[0]] + b[1..];
    }
  }

  lemma CancelOne(x: string, m: multiset<string>, n: multiset<string>)
    requires multiset{x} + m == multiset{x} + n
    ensures m == n
  {
    assert m == (multiset{x} + m) - multiset{x};
    assert n == (multiset{x} + n) - multiset{x};
  }

  lemma LeqReflexive(a: string)
    ensures Leq(a, a)
  {
  }

  lemma HeadIsLeast(s: seq<string>, x: string)
    requires Sorted(s) && x in s
    ensures Leq(s[0], x)
  {
    var i :| 0 <= i < |s| && s[i] == x;
    if i == 0 { LeqReflexive(x); }
  }

  // ---- The sorted list of a set ---------------------------------------------------------

  lemma {:induction false} LeastExists(s: set<string>) returns (x: string)
    requires s != {}
    ensures x in s && forall y <- s :: Leq(x, y)
  {
    var y :| y in s;
    if s == {y} {
      x := y;
      LeqReflexive(y);
    } else {
      var x' := LeastExists(s - {y});
      LeqTotal(x', y);
      if Leq(x', y) {
        x := x';
      } else {
        x := y;
        LeqReflexive(y);
        forall z <- s ensures Leq(y, z) {
          if z != y { LeqTransitive(y, x', z); }
        }
      }
    }
  }

  ghost predicate IsLeast(s: set<string>, x: string) {
    x in s && forall y <- s :: Leq(x, y)
  }

  lemma ElementsOf(r: seq<string>, s: set<string>)
    requires multiset(r) == multiset(s)
    ensures forall i :: 0 <= i < |r| ==> r[i] in s
  {
    forall i | 0 <= i < |r| ensures r[i] in s {
      assert r[i] in multiset(r);
    }
  }

  /** The elements of `s`, sorted. */
  ghost function Names(s: set<string>): (r: seq<string>)
    ensures multiset(r) == multiset(s) && Sorted(r)
  {
    if s == {} then []
    else
      assert exists x :: IsLeast(s, x) by { var x := LeastExists(s); assert IsLeast(s, x); }
      var x :| IsLeast(s, x);
      var rest := Names(s - {x});
      assert multiset(s) == multiset{x} + multiset(s - {x});
      ElementsOf(rest, s - {x});
      [x] + rest
  }

  /** Collect the elements in any order, then sort them. */
  method SortedKeys(s: set<string>) returns (r: seq<string>)
    ensures r == Names(s)
    ensures Ascending(r) && multiset(r) == multiset(s)
  {
    var names := [];
    var rest := s;
    while rest != {}
      invariant multiset(names) + multiset(rest) == multiset(s)
    {
      var x :| x in rest;
      assert multiset(rest) == multiset{x} + multiset(rest - {x});
      names := names + [x];
      rest := rest - {x};
    }
    r := Sort(names);
    assert multiset(rest) == multiset{};
    SortedUnique(r, Names(s));
    SortedAscends(r);
  }
}
