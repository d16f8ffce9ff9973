/** Comparison functions, permutations and swaps, for the sorting routines. */
module Ordering {

  type Compare<!T> = (T, T) -> int

  /** The comparison is a total preorder. */
  ghost predicate TotalPreorder<T(!new)>(cmp: Compare<T>) {
    (forall x: T, y: T :: cmp(x, y) < 0 <==> cmp(y, x) > 0) &&
    (forall x: T, y: T, z: T {:trigger cmp(x, y), cmp(y, z)} :: cmp(x, y) <= 0 && cmp(y, z) <= 0 ==> cmp(x, z) <= 0)
  }

  ghost predicate Le<T>(cmp: Compare<T>, x: T, y: T) { cmp(x, y) <= 0 }

  lemma LeRefl<T(!new)>(cmp: Compare<T>, x: T)
    requires TotalPreorder(cmp)
    ensures Le(cmp, x, x)
  {
    assert cmp(x, x) < 0 <==> cmp(x, x) > 0;
  }

  lemma LeTrans<T(!new)>(cmp: Compare<T>, x: T, y: T, z: T)
    requires TotalPreorder(cmp) && Le(cmp, x, y) && Le(cmp, y, z)
    ensures Le(cmp, x, z)
  {
  }

  ghost predicate Sorted<T>(cmp: Compare<T>, s: seq<T>) {
    forall i, j :: 0 <= i < j < |s| ==> Le(cmp, s[i], s[j])
  }

  function Swapped<T>(s: seq<T>, i: nat, j: nat): (t: seq<T>)
    requires i < |s| && j < |s|
    ensures |t| == |s|
  {
    s[i := s[j]][j := s[i]]
  }

  lemma SwappedPermutes<T>(s: seq<T>, i: nat, j: nat)
    requires i < |s| && j < |s|
    ensures multiset(Swapped(s, i, j)) == multiset(s)
  {
  }

  /** The two elements at `i` and `j` of the part of `a` that begins at `base` trade places. */
  method Swap<T>(a: array<T>, base: nat, n: nat, i: nat, j: nat)
    requires base + n <= a.Length && i < n && j < n
    modifies a
    ensures a[..base] == old(a[..base]) && a[base + n..] == old(a[base + n..])
    ensures a[base..base + n] == Swapped(old(a[base..base + n]), i, j)
    ensures multiset(a[base..base + n]) == multiset(old(a[base..base + n]))
  {
    SwappedPermutes(a[base..base + n], i, j);
    a[base + i], a[base + j] := a[base + j], a[base + i];
  }
}
