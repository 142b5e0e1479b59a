/** Sequence vocabulary shared by the directory model: subsequences, the
    first-occurrence index of a value, and the insertion-ordered
    de-duplication that `[...new Set(xs)]` performs. */
module Seqs {

  /** `a` is obtained from `b` by deleting elements, keeping the rest in order. */
  predicate IsSubsequence<T(==)>(a: seq<T>, b: seq<T>)
    decreases |b|
  {
    && |a| <= |b|
    && (|a| == 0
        || (a[0] == b[0] && IsSubsequence(a[1..], b[1..]))
        || IsSubsequence(a, b[1..]))
  }

  /** Appending one element to the longer sequence keeps a subsequence a
      subsequence, and appending it to both extends the subsequence. */
  lemma {:induction false} IsSubsequenceSnoc<T>(a: seq<T>, b: seq<T>, x: T)
    requires IsSubsequence(a, b)
    ensures IsSubsequence(a, b + [x])
    ensures IsSubsequence(a + [x], b + [x])
    decreases |b|
  {
    if b == [] {
      assert a == [];
      assert ([] + [x])[1..] == [];
    } else {
      assert (b + [x])[1..] == b[1..] + [x];
      if |a| == 0 {
        IsSubsequenceSnoc(a, b[1..], x);
      } else if a[0] == b[0] && IsSubsequence(a[1..], b[1..]) {
        IsSubsequenceSnoc(a[1..], b[1..], x);
        assert (a + [x])[1..] == a[1..] + [x];
      } else {
        IsSubsequenceSnoc(a, b[1..], x);
      }
    }
  }

  /** No value appears twice. */
  predicate NoDuplicates<T(==)>(xs: seq<T>) {
    forall i, j :: 0 <= i < j < |xs| ==> xs[i] != xs[j]
  }

  /** Position of the first occurrence of `x` in `xs`. */
  function IndexOf<T(==)>(xs: seq<T>, x: T): (k: nat)
    requires x in xs
    ensures k < |xs| && xs[k] == x
    ensures x !in xs[..k]
  {
    if xs[0] == x then 0
    else
      var k := 1 + IndexOf(xs[1..], x);
      assert xs[..k] == [xs[0]] + xs[1..][..k - 1];
      k
  }

  /** Any position satisfying the first-occurrence property is `IndexOf`. */
  lemma IndexOfUnique<T>(xs: seq<T>, x: T, k: nat)
    requires k < |xs| && xs[k] == x && x !in xs[..k]
    ensures IndexOf(xs, x) == k
  {
  }

  /** Appending a value never moves the first occurrence of a value already
      present, and places the first occurrence of a new value at the end. */
  lemma IndexOfAppend<T>(xs: seq<T>, y: T, x: T)
    requires x in xs + [y]
    ensures x in xs ==> IndexOf(xs + [y], x) == IndexOf(xs, x)
    ensures x !in xs ==> IndexOf(xs + [y], x) == |xs|
  {
    if x in xs {
      var k := IndexOf(xs, x);
      assert (xs + [y])[..k] == xs[..k];
      IndexOfUnique(xs + [y], x, k);
    } else {
      assert (xs + [y])[..|xs|] == xs;
      IndexOfUnique(xs + [y], x, |xs|);
    }
  }

  /** Appending keeps every existing first occurrence where it was. */
  lemma IndexOfAppendKeeps<T>(xs: seq<T>, y: T)
    ensures forall x :: x in xs ==> IndexOf(xs + [y], x) == IndexOf(xs, x)
  {
    forall x | x in xs
      ensures IndexOf(xs + [y], x) == IndexOf(xs, x)
    {
      IndexOfAppend(xs, y, x);
    }
  }

  /** `[...new Set(xs)]`: a JavaScript `Set` keeps each value once, in the
      order it was first added. Defined by the insertion the set performs
      for each successive element. */
  function Distinct<T(==,!new)>(xs: seq<T>): (r: seq<T>)
    ensures NoDuplicates(r)
    ensures forall x :: x in r <==> x in xs
    ensures forall i, j :: 0 <= i < j < |r| ==> IndexOf(xs, r[i]) < IndexOf(xs, r[j])
    decreases |xs|
  {
    if |xs| == 0 then []
    else
      var init := xs[..|xs| - 1];
      var y := xs[|xs| - 1];
      assert xs == init + [y];
      var d := Distinct(init);
      IndexOfAppendKeeps(init, y);
      if y in d then d
      else
        IndexOfAppend(init, y, y);
        d + [y]
  }
}
