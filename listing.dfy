/** `ORDER BY id` over the ids of a table: the ascending enumeration of a
    finite set of integers. */
module Listing {

  predicate Increasing(s: seq<int>) {
    forall i, j :: 0 <= i < j < |s| ==> s[i] < s[j]
  }

  lemma Pick(keys: set<int>) returns (x: int)
    requires keys != {}
    ensures x in keys
  {
    if forall y :: y !in keys {
      assert false;
    }
    x :| x in keys;
  }

  lemma {:induction false} LeastWitness(keys: set<int>) returns (m: int)
    requires keys != {}
    ensures m in keys && forall y :: y in keys ==> m <= y
  {
    var x := Pick(keys);
    var rest := keys - {x};
    if rest == {} {
      assert keys == {x};
      m := x;
    } else {
      var n := LeastWitness(rest);
      m := if x < n then x else n;
      forall y | y in keys
        ensures m <= y
      {
        if y != x {
          assert y in rest;
        }
      }
    }
  }

  lemma LeastExists(keys: set<int>)
    requires keys != {}
    ensures exists m :: m in keys && forall y :: y in keys ==> m <= y
  {
    var m := LeastWitness(keys);
  }

  /** The smallest element of a non-empty set. */
  function Least(keys: set<int>): (m: int)
    requires keys != {}
    ensures m in keys
    ensures forall y :: y in keys ==> m <= y
  {
    LeastExists(keys);
    var m :| m in keys && forall y :: y in keys ==> m <= y; m
  }

  /** The elements of `keys`, each once, smallest first. */
  function SortedIds(keys: set<int>): (ids: seq<int>)
    ensures Increasing(ids)
    ensures forall x :: x in ids <==> x in keys
    ensures |ids| == |keys|
    decreases keys
  {
    if keys == {} then []
    else
      var m := Least(keys);
      [m] + SortedIds(keys - {m})
  }

  /** The head of an increasing sequence is its least element. */
  lemma HeadIsLeast(s: seq<int>, x: int)
    requires Increasing(s) && x in s
    ensures s[0] <= x
  {
    var i :| 0 <= i < |s| && s[i] == x;
    if i > 0 {
      assert s[0] < s[i];
    }
  }

  /** Two increasing sequences with the same elements are equal: the order
      of `ORDER BY id` is determined by the set of ids alone. */
  lemma {:induction false} IncreasingUnique(a: seq<int>, b: seq<int>)
    requires Increasing(a) && Increasing(b)
    requires forall x :: x in a <==> x in b
    ensures a == b
  {
    if a != [] {
      assert a[0] in a;
    }
    if b != [] {
      assert b[0] in b;
    }
    if a != [] {
      assert b != [];
      HeadIsLeast(a, b[0]);
      HeadIsLeast(b, a[0]);
      assert a == [a[0]] + a[1..] && b == [b[0]] + b[1..];
      forall x
        ensures x in a[1..] <==> x in b[1..]
      {
        if x in a[1..] {
          var i :| 1 <= i < |a[1..]| + 1 && a[i] == x;
          assert a[0] < a[i] && a[i] in a;
          assert x in b && x != b[0];
        }
        if x in b[1..] {
          var i :| 1 <= i < |b[1..]| + 1 && b[i] == x;
          assert b[0] < b[i] && b[i] in b;
          assert x in a && x != a[0];
        }
      }
      IncreasingUnique(a[1..], b[1..]);
    } else if b != [] {
      assert false;
    }
  }
}
