/**
 * Generic helpers over sequences, used to model Python's list/set
 * conversions (`set(xs)`, `list(s)[:n]`, comprehension filters).
 */
module Seqs {

  /** The set of elements of a sequence: Python's `set(xs)`. */
  function Elems<T(==,!new)>(xs: seq<T>): (s: set<T>)
    ensures forall x :: x in s <==> x in xs
  {
    set x | x in xs
  }

  /** No element occurs twice. */
  predicate NoDup<T(==)>(xs: seq<T>)
  {
    forall i, j :: 0 <= i < j < |xs| ==> xs[i] != xs[j]
  }

  function Min(a: int, b: int): int { if a <= b then a else b }

  function Max(a: int, b: int): int { if a >= b then a else b }

  /** A duplicate-free sequence has as many elements as its element set. */
  lemma {:induction false} DistinctLength<T(!new)>(xs: seq<T>)
    requires NoDup(xs)
    ensures |Elems(xs)| == |xs|
  {
    if xs != [] {
      var rest := xs[1..];
      assert NoDup(rest) by {
        forall i, j | 0 <= i < j < |rest| ensures rest[i] != rest[j] {
          assert rest[i] == xs[i + 1] && rest[j] == xs[j + 1];
        }
      }
      DistinctLength(rest);
      assert xs[0] !in rest by {
        forall k | 0 <= k < |rest| ensures rest[k] != xs[0] {
          assert rest[k] == xs[k + 1];
        }
      }
      assert Elems(xs) == {xs[0]} + Elems(rest) by {
        assert xs == [xs[0]] + rest;
      }
    }
  }

  /**
   * The elements of `xs` in order of first occurrence, each once. This is
   * the order the model uses where the source lists a set; the contracts
   * below speak only of membership and length, which do not depend on it.
   */
  function Unique<T(==,!new)>(xs: seq<T>): (r: seq<T>)
    ensures NoDup(r)
    ensures forall x :: x in r <==> x in xs
    ensures |r| <= |xs|
  {
    if xs == [] then []
    else
      var init := xs[..|xs| - 1];
      var last := xs[|xs| - 1];
      assert xs == init + [last];
      var u := Unique(init);
      if last in init then u else u + [last]
  }

  /**
   * The elements of `xs` whose membership in `s` equals `keep`, in order:
   * `[x for x in xs if x in s]` for `keep`, `... if x not in s` otherwise.
   */
  function Filter<T(==,!new)>(xs: seq<T>, s: set<T>, keep: bool): (r: seq<T>)
    ensures forall x :: x in r <==> x in xs && (x in s) == keep
    ensures |r| <= |xs|
    ensures NoDup(xs) ==> NoDup(r)
  {
    if xs == [] then []
    else
      var rest := Filter(xs[1..], s, keep);
      assert NoDup(xs) ==> NoDup(xs[1..]) && xs[0] !in xs[1..] by {
        if NoDup(xs) {
          forall i, j | 0 <= i < j < |xs| - 1 ensures xs[1..][i] != xs[1..][j] {
            assert xs[1..][i] == xs[i + 1] && xs[1..][j] == xs[j + 1];
          }
          forall k | 0 <= k < |xs| - 1 ensures xs[1..][k] != xs[0] {
            assert xs[1..][k] == xs[k + 1];
          }
        }
      }
      if (xs[0] in s) == keep then [xs[0]] + rest else rest
  }

  /** Helper: `Unique` keeps the element set, and its length is that set's size. */
  lemma UniqueCount<T(!new)>(xs: seq<T>)
    ensures Elems(Unique(xs)) == Elems(xs)
    ensures |Unique(xs)| == |Elems(xs)|
  {
    DistinctLength(Unique(xs));
  }

  /** Python's slice `xs[:n]`: the first `n` elements, or all of them. */
  function Take<T(==,!new)>(xs: seq<T>, n: nat): (r: seq<T>)
    ensures |r| == Min(|xs|, n)
    ensures forall x :: x in r ==> x in xs
    ensures |xs| <= n ==> r == xs
    ensures NoDup(xs) ==> NoDup(r)
  {
    if |xs| <= n then xs else xs[..n]
  }
}
