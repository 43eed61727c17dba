/** Python's `sorted` on sets of integers, and counting over finite sets. */
module Sorting {

  predicate Increasing(s: seq<int>) {
    forall i, j :: 0 <= i < j < |s| ==> s[i] < s[j]
  }

  function ToSet(s: seq<int>): set<int> {
    set x | x in s
  }

  lemma Witness<T>(s: set<T>) returns (x: T)
    requires s != {}
    ensures x in s
  {
    x :| x in s;
  }

  predicate IsMin(s: set<int>, m: int) {
    m in s && forall x :: x in s ==> m <= x
  }

  lemma {:induction false} HasMin(s: set<int>)
    requires s != {}
    ensures exists m :: IsMin(s, m)
    decreases s
  {
    var y := Witness(s);
    if s == {y} {
      assert IsMin(s, y);
    } else {
      var rest := s - {y};
      HasMin(rest);
      var m :| IsMin(rest, m);
      var low := if m <= y then m else y;
      forall x | x in s ensures low <= x {
        if x != y { assert x in rest; }
      }
      assert IsMin(s, low);
    }
  }

  function MinOf(s: set<int>): (m: int)
    requires s != {}
    ensures IsMin(s, m)
  {
    HasMin(s);
    var m :| IsMin(s, m);
    m
  }

  lemma SortedCons(s: set<int>, m: int, rest: seq<int>)
    requires IsMin(s, m)
    requires Increasing(rest) && ToSet(rest) == s - {m}
    ensures Increasing([m] + rest) && ToSet([m] + rest) == s
  {
    forall i | 0 <= i < |rest| ensures m < rest[i] {
      assert rest[i] in ToSet(rest);
    }
    forall x ensures x in [m] + rest <==> x in s {
      assert x in rest <==> x in ToSet(rest);
    }
  }

  /** `sorted(s)` */
  function Sorted(s: set<int>): (r: seq<int>)
    ensures Increasing(r) && ToSet(r) == s && |r| == |s|
    decreases s
  {
    if s == {} then []
    else
      var m := MinOf(s);
      var rest := Sorted(s - {m});
      SortedCons(s, m, rest);
      [m] + rest
  }

  lemma NotEmptyList(b: seq<int>)
    requires |b| > 0
    ensures ToSet(b) != {}
  {
    assert b[0] in ToSet(b);
  }

  /** A set has only one increasing listing. */
  lemma {:induction false} IncreasingUnique(a: seq<int>, b: seq<int>)
    requires Increasing(a) && Increasing(b) && ToSet(a) == ToSet(b)
    ensures a == b
    decreases |a|
  {
    if a == [] {
      assert ToSet(b) == {};
      if b != [] { NotEmptyList(b); }
    } else {
      assert a[0] in ToSet(b);
      var i :| 0 <= i < |b| && b[i] == a[0];
      assert b[0] in ToSet(a);
      var j :| 0 <= j < |a| && a[j] == b[0];
      assert a[0] == b[0];
      Tail(a);
      Tail(b);
      IncreasingUnique(a[1..], b[1..]);
      assert a == [a[0]] + a[1..] && b == [b[0]] + b[1..];
    }
  }

  lemma Tail(a: seq<int>)
    requires Increasing(a) && a != []
    ensures Increasing(a[1..]) && ToSet(a[1..]) == ToSet(a) - {a[0]}
  {
    forall x | x in ToSet(a) - {a[0]} ensures x in a[1..] {
      var i :| 0 <= i < |a| && a[i] == x;
      assert a[1..][i-1] == x;
    }
    forall x | x in a[1..] ensures x in ToSet(a) - {a[0]} {
      var i :| 0 <= i < |a[1..]| && a[1..][i] == x;
      assert a[i+1] == x;
    }
  }

  lemma {:induction false} IncreasingSize(a: seq<int>)
    requires Increasing(a)
    ensures |ToSet(a)| == |a|
    decreases |a|
  {
    if a != [] {
      Tail(a);
      IncreasingSize(a[1..]);
    }
  }

  lemma SubsetSize<T>(a: set<T>, b: set<T>)
    requires a <= b
    ensures |a| <= |b|
    decreases a
  {
    if a != {} {
      var x :| x in a;
      SubsetSize(a - {x}, b - {x});
    }
  }

  ghost predicate Injects(a: set<int>, b: set<int>, f: int -> int) {
    && (forall x :: x in a ==> f(x) in b)
    && (forall x, y :: x in a && y in a && f(x) == f(y) ==> x == y)
  }

  /** An injective image of a set into another bounds its size. */
  lemma {:induction false} InjectionSize(a: set<int>, b: set<int>, f: int -> int)
    requires Injects(a, b, f)
    ensures |a| <= |b|
    decreases a
  {
    if a != {} {
      var x := Witness(a);
      assert Injects(a - {x}, b - {f(x)}, f);
      InjectionSize(a - {x}, b - {f(x)}, f);
    }
  }

  /** The first `n` entries of an increasing list. */
  lemma PrefixIncreasing(a: seq<int>, n: nat)
    requires Increasing(a) && n <= |a|
    ensures Increasing(a[..n]) && forall i, j :: 0 <= i < n <= j < |a| ==> a[..n][i] < a[j]
  {
  }

  lemma NextItem(items: seq<int>, n: nat)
    requires n < |items|
    ensures items[n] in ToSet(items) && ToSet(items[..n+1]) == ToSet(items[..n]) + {items[n]}
  {
    assert items[..n+1] == items[..n] + [items[n]];
  }
}
