/** Sequence helpers: duplicate-freedom, repetition and Python's `list.remove`. */
module Seqs {

  /** No element occurs twice. */
  predicate NoDup<T(==)>(xs: seq<T>) {
    forall i, j :: 0 <= i < j < |xs| ==> xs[i] != xs[j]
  }

  /** `n` copies of `x`. */
  function Repeat<T>(x: T, n: nat): (r: seq<T>)
    ensures |r| == n
    ensures forall i :: 0 <= i < n ==> r[i] == x
  {
    if n == 0 then [] else [x] + Repeat(x, n - 1)
  }

  /** Index of the first occurrence of `x` in `xs`. */
  function IndexOf<T(==)>(xs: seq<T>, x: T): (i: nat)
    requires x in xs
    ensures i < |xs| && xs[i] == x
    ensures x !in xs[..i]
  {
    if xs[0] == x then 0
    else
      assert x in xs[1..];
      var j := IndexOf(xs[1..], x);
      assert xs[..j + 1] == [xs[0]] + xs[1..][..j];
      j + 1
  }

  /** Python's `list.remove(x)`: drops the first element equal to `x`.
      The source raises on a missing element, so `x` must be present. */
  function RemoveFirst<T(==)>(xs: seq<T>, x: T): (r: seq<T>)
    requires x in xs
    ensures r == xs[..IndexOf(xs, x)] + xs[IndexOf(xs, x) + 1..]
  {
    if xs[0] == x then xs[1..]
    else
      assert x in xs[1..];
      var r := [xs[0]] + RemoveFirst(xs[1..], x);
      assert xs[..IndexOf(xs, x)] == [xs[0]] + xs[1..][..IndexOf(xs[1..], x)];
      r
  }

  /** In a duplicate-free sequence the multiplicity of an element is 0 or 1. */
  lemma {:induction false} NoDupCount<T>(xs: seq<T>, x: T)
    requires NoDup(xs)
    ensures multiset(xs)[x] == if x in xs then 1 else 0
  {
    if xs != [] {
      assert xs == [xs[0]] + xs[1..];
      assert NoDup(xs[1..]) by {
        forall i, j | 0 <= i < j < |xs[1..]| ensures xs[1..][i] != xs[1..][j] {
          assert xs[1..][i] == xs[i + 1] && xs[1..][j] == xs[j + 1];
        }
      }
      NoDupCount(xs[1..], x);
      if x == xs[0] {
        forall k | 0 <= k < |xs[1..]| ensures xs[1..][k] != x {
          assert xs[1..][k] == xs[k + 1];
        }
      }
    }
  }

  /** Where each element of `RemoveFirst(xs, x)` came from. */
  lemma RemoveFirstIndex<T>(xs: seq<T>, x: T, k: nat)
    requires x in xs && k < |xs| - 1
    ensures RemoveFirst(xs, x)[k] == xs[if k < IndexOf(xs, x) then k else k + 1]
  {
  }

  /** Removing a present element from a duplicate-free sequence removes every
      trace of it, keeps every other element, and keeps the result duplicate-free. */
  lemma RemoveFirstUnique<T>(xs: seq<T>, x: T)
    requires NoDup(xs) && x in xs
    ensures x !in RemoveFirst(xs, x)
    ensures NoDup(RemoveFirst(xs, x))
    ensures |RemoveFirst(xs, x)| == |xs| - 1
    ensures forall y :: y != x ==> (y in RemoveFirst(xs, x) <==> y in xs)
  {
    var i := IndexOf(xs, x);
    var r := RemoveFirst(xs, x);
    forall a, b | 0 <= a < b < |r| ensures r[a] != r[b] {
      RemoveFirstIndex(xs, x, a);
      RemoveFirstIndex(xs, x, b);
    }
    forall k | 0 <= k < |r| ensures r[k] != x {
      RemoveFirstIndex(xs, x, k);
    }
    forall y | y != x && y in xs ensures y in r {
      var k :| 0 <= k < |xs| && xs[k] == y;
      assert k != i;
      var k' := if k < i then k else k - 1;
      RemoveFirstIndex(xs, x, k');
    }
  }
}
