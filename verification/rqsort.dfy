/** `rqsort`: three-way quicksort with a bounded stack, heap sort as a fallback, insertion sort for small parts. */
module RqSort {
  import opened Ordering

  // ----- insertion sort -----

  /** All but the element at `j` are sorted, and that element is not greater than what follows it. */
  ghost predicate SortedBut<T>(cmp: Compare<T>, s: seq<T>, j: nat, n: nat)
    requires j < n <= |s|
  {
    forall x, y :: 0 <= x < y < n && y != j ==> Le(cmp, s[x], s[y])
  }

  lemma SinkStep<T(!new)>(cmp: Compare<T>, s: seq<T>, j: nat, n: nat)
    requires TotalPreorder(cmp) && 0 < j < n <= |s| && SortedBut(cmp, s, j, n) && cmp(s[j - 1], s[j]) > 0
    ensures SortedBut(cmp, Swapped(s, j, j - 1), j - 1, n)
  {
    var t := Swapped(s, j, j - 1);
    forall x, y | 0 <= x < y < n && y != j - 1 ensures Le(cmp, t[x], t[y]) {
      if y == j {
        if x == j - 1 { assert cmp(s[j], s[j - 1]) < 0; } else { assert Le(cmp, s[x], s[j - 1]); }
      } else {
        var x' := if x == j then j - 1 else if x == j - 1 then j else x;
        assert Le(cmp, s[x'], s[y]);
      }
    }
  }

  lemma SinkDone<T(!new)>(cmp: Compare<T>, s: seq<T>, j: nat, n: nat)
    requires TotalPreorder(cmp) && j < n <= |s| && SortedBut(cmp, s, j, n) && (j > 0 ==> cmp(s[j - 1], s[j]) <= 0)
    ensures Sorted(cmp, s[..n])
  {
    forall x, y | 0 <= x < y < n ensures Le(cmp, s[x], s[y]) {
      if y == j && x < j - 1 {
        assert Le(cmp, s[x], s[j - 1]);
        LeTrans(cmp, s[x], s[j - 1], s[j]);
      }
    }
  }

  method InsertionSort<T(!new, ==)>(cmp: Compare<T>, a: array<T>, base: nat, n: nat)
    requires TotalPreorder(cmp) && base + n <= a.Length
    modifies a
    ensures a[..base] == old(a[..base]) && a[base + n..] == old(a[base + n..])
    ensures multiset(a[base..base + n]) == multiset(old(a[base..base + n]))
    ensures Sorted(cmp, a[base..base + n])
  {
    hide TotalPreorder, Swapped, Sorted, SortedBut;
    var i := 1;
    SortedShort(cmp, a[base..base + n], if n > 0 then 1 else 0);
    while i < n
      invariant 1 <= i && (n > 0 ==> i <= n)
      invariant a[..base] == old(a[..base]) && a[base + n..] == old(a[base + n..])
      invariant multiset(a[base..base + n]) == multiset(old(a[base..base + n]))
      invariant Sorted(cmp, a[base..base + n][..if i <= n then i else n])
      decreases n - i
    {
      var j := i;
      SortedButLast(cmp, a[base..base + n], i);
      while j > 0 && cmp(a[base + j - 1], a[base + j]) > 0
        invariant 0 <= j <= i
        invariant a[..base] == old(a[..base]) && a[base + n..] == old(a[base + n..])
        invariant multiset(a[base..base + n]) == multiset(old(a[base..base + n]))
        invariant SortedBut(cmp, a[base..base + n], j, i + 1)
        decreases j
      {
        SinkStep(cmp, a[base..base + n], j, i + 1);
        Swap(a, base, n, j, j - 1);
        j := j - 1;
      }
      SinkDone(cmp, a[base..base + n], j, i + 1);
      i := i + 1;
    }
    assert a[base..base + n][..n] == a[base..base + n];
  }

  lemma SortedShort<T>(cmp: Compare<T>, s: seq<T>, n: nat)
    requires n <= |s| && n <= 1
    ensures Sorted(cmp, s[..n])
  {
  }

  lemma SortedButLast<T>(cmp: Compare<T>, s: seq<T>, i: nat)
    requires i < |s| && Sorted(cmp, s[..i])
    ensures SortedBut(cmp, s, i, i + 1)
  {
    forall x, y | 0 <= x < y < i + 1 && y != i ensures Le(cmp, s[x], s[y]) {
      assert s[..i][x] == s[x] && s[..i][y] == s[y];
    }
  }

  // ----- three-way partition -----

  /** Equal to the pivot, below it, not looked at, above it, equal again. The pivot is the first element. */
  ghost predicate Parts<T>(cmp: Compare<T>, s: seq<T>, lt: nat, i: nat, j: nat, gt: nat) {
    && 1 <= lt <= i <= j <= gt <= |s|
    && (forall k :: 0 <= k < lt ==> cmp(s[0], s[k]) == 0)
    && (forall k :: lt <= k < i ==> cmp(s[0], s[k]) > 0)
    && (forall k :: j <= k < gt ==> cmp(s[0], s[k]) < 0)
    && (forall k :: gt <= k < |s| ==> cmp(s[0], s[k]) == 0)
  }

  lemma PartsStart<T(!new)>(cmp: Compare<T>, s: seq<T>)
    requires TotalPreorder(cmp) && s != []
    ensures Parts(cmp, s, 1, 1, |s|, |s|)
  {
    LeRefl(cmp, s[0]);
    assert cmp(s[0], s[0]) < 0 <==> cmp(s[0], s[0]) > 0;
  }

  lemma PartsLowEqual<T>(cmp: Compare<T>, s: seq<T>, lt: nat, i: nat, j: nat, gt: nat)
    requires Parts(cmp, s, lt, i, j, gt) && i < j && cmp(s[0], s[i]) == 0
    ensures Parts(cmp, Swapped(s, lt, i), lt + 1, i + 1, j, gt)
  {
  }

  lemma PartsHighEqual<T>(cmp: Compare<T>, s: seq<T>, lt: nat, i: nat, j: nat, gt: nat)
    requires Parts(cmp, s, lt, i, j, gt) && i < j && cmp(s[0], s[j - 1]) == 0
    ensures Parts(cmp, Swapped(s, gt - 1, j - 1), lt, i, j - 1, gt - 1)
  {
  }

  lemma PartsExchange<T>(cmp: Compare<T>, s: seq<T>, lt: nat, i: nat, j: nat, gt: nat)
    requires Parts(cmp, s, lt, i, j, gt) && i + 1 < j && cmp(s[0], s[i]) < 0 && cmp(s[0], s[j - 1]) > 0
    ensures Parts(cmp, Swapped(s, i, j - 1), lt, i + 1, j - 1, gt)
  {
  }

  /** The loop that moves up from the left, over the elements not above the pivot. */
  method ScanUp<T(!new, ==)>(cmp: Compare<T>, a: array<T>, base: nat, n: nat, lt0: nat, i0: nat, j: nat, gt: nat) returns (lt: nat, i: nat)
    requires base + n <= a.Length && Parts(cmp, a[base..base + n], lt0, i0, j, gt)
    modifies a
    ensures a[..base] == old(a[..base]) && a[base + n..] == old(a[base + n..])
    ensures multiset(a[base..base + n]) == multiset(old(a[base..base + n]))
    ensures Parts(cmp, a[base..base + n], lt, i, j, gt) && i0 <= i && (i < j ==> cmp(a[base], a[base + i]) < 0)
  {
    hide Swapped, Parts;
    lt, i := lt0, i0;
    PartsFacts(cmp, a[base..base + n], lt, i, j, gt);
    while i < j && cmp(a[base], a[base + i]) >= 0
      invariant i0 <= i
      invariant a[..base] == old(a[..base]) && a[base + n..] == old(a[base + n..])
      invariant multiset(a[base..base + n]) == multiset(old(a[base..base + n]))
      invariant Parts(cmp, a[base..base + n], lt, i, j, gt) && 1 <= lt <= i <= j <= gt <= n
      decreases j - i
    {
      if cmp(a[base], a[base + i]) == 0 {
        PartsLowEqual(cmp, a[base..base + n], lt, i, j, gt);
        Swap(a, base, n, lt, i);
        lt := lt + 1;
      } else {
        PartsLow(cmp, a[base..base + n], lt, i, j, gt);
      }
      i := i + 1;
      PartsFacts(cmp, a[base..base + n], lt, i, j, gt);
    }
  }

  lemma PartsFacts<T>(cmp: Compare<T>, s: seq<T>, lt: nat, i: nat, j: nat, gt: nat)
    requires Parts(cmp, s, lt, i, j, gt)
    ensures 1 <= lt <= i <= j <= gt <= |s|
  {
  }

  lemma PartsLow<T>(cmp: Compare<T>, s: seq<T>, lt: nat, i: nat, j: nat, gt: nat)
    requires Parts(cmp, s, lt, i, j, gt) && i < j && cmp(s[0], s[i]) > 0
    ensures Parts(cmp, s, lt, i + 1, j, gt)
  {
  }

  lemma PartsHigh<T>(cmp: Compare<T>, s: seq<T>, lt: nat, i: nat, j: nat, gt: nat)
    requires Parts(cmp, s, lt, i, j, gt) && i < j && cmp(s[0], s[j - 1]) < 0
    ensures Parts(cmp, s, lt, i, j - 1, gt)
  {
  }

  /**
   * The loop that moves down from the right, over the elements not below the pivot. It stops at an element
   * below the pivot, at `j - 1`, or where it meets `i`.
   */
  method ScanDown<T(!new, ==)>(cmp: Compare<T>, a: array<T>, base: nat, n: nat, lt: nat, i: nat, j0: nat, gt0: nat) returns (met: bool, j: nat, gt: nat)
    requires base + n <= a.Length && Parts(cmp, a[base..base + n], lt, i, j0, gt0) && (i < j0 ==> cmp(a[base], a[base + i]) < 0)
    modifies a
    ensures a[..base] == old(a[..base]) && a[base + n..] == old(a[base + n..])
    ensures multiset(a[base..base + n]) == multiset(old(a[base..base + n]))
    ensures Parts(cmp, a[base..base + n], lt, i, j, gt) && j <= j0
    ensures if met then i == j else i + 1 < j && cmp(a[base], a[base + i]) < 0 && cmp(a[base], a[base + (j - 1)]) > 0
  {
    hide Swapped, Parts;
    j, gt := j0, gt0;
    PartsFacts(cmp, a[base..base + n], lt, i, j, gt);
    while i + 1 < j && cmp(a[base], a[base + (j - 1)]) <= 0
      invariant a[..base] == old(a[..base]) && a[base + n..] == old(a[base + n..])
      invariant multiset(a[base..base + n]) == multiset(old(a[base..base + n]))
      invariant Parts(cmp, a[base..base + n], lt, i, j, gt) && 1 <= lt <= i <= j <= gt <= n && j <= j0
      invariant i < j ==> cmp(a[base], a[base + i]) < 0
      decreases j
    {
      ghost var s := a[base..base + n];
      if cmp(a[base], a[base + (j - 1)]) == 0 {
        PartsHighEqual(cmp, s, lt, i, j, gt);
        Swap(a, base, n, gt - 1, j - 1);
        SwappedElsewhere(s, gt - 1, j - 1, 0);
        SwappedElsewhere(s, gt - 1, j - 1, i);
        assert a[base] == a[base..base + n][0] == s[0] && a[base + i] == a[base..base + n][i] == s[i];
        gt := gt - 1;
      } else {
        PartsHigh(cmp, s, lt, i, j, gt);
      }
      j := j - 1;
      PartsFacts(cmp, a[base..base + n], lt, i, j, gt);
    }
    met := i + 1 >= j;
    if met && i < j {
      PartsHigh(cmp, a[base..base + n], lt, i, j, gt);
      j := i;
    }
  }

  lemma SwappedElsewhere<T>(s: seq<T>, i: nat, j: nat, k: nat)
    requires i < |s| && j < |s| && k < |s| && k != i && k != j
    ensures Swapped(s, i, j)[k] == s[k]
  {
  }

  /** The partition loop: from the pivot in front to four parts. */
  method Partition<T(!new, ==)>(cmp: Compare<T>, a: array<T>, base: nat, n: nat) returns (lt: nat, i: nat, gt: nat)
    requires TotalPreorder(cmp) && base + n <= a.Length && n > 0
    modifies a
    ensures a[..base] == old(a[..base]) && a[base + n..] == old(a[base + n..])
    ensures multiset(a[base..base + n]) == multiset(old(a[base..base + n]))
    ensures Parts(cmp, a[base..base + n], lt, i, i, gt)
  {
    hide Swapped, Parts, TotalPreorder;
    lt, i, gt := 1, 1, n;
    var j := n;
    PartsStart(cmp, a[base..base + n]);
    while true
      invariant a[..base] == old(a[..base]) && a[base + n..] == old(a[base + n..])
      invariant multiset(a[base..base + n]) == multiset(old(a[base..base + n]))
      invariant Parts(cmp, a[base..base + n], lt, i, j, gt)
      decreases j
    {
      lt, i := ScanUp(cmp, a, base, n, lt, i, j, gt);
      var met: bool;
      met, j, gt := ScanDown(cmp, a, base, n, lt, i, j, gt);
      if met {
        break;
      }
      PartsFacts(cmp, a[base..base + n], lt, i, j, gt);
      PartsExchange(cmp, a[base..base + n], lt, i, j, gt);
      Swap(a, base, n, i, j - 1);
      i := i + 1;
      j := j - 1;
    }
  }

  // ----- from four parts to three -----

  /** Two blocks of `span` elements at `x` and at `y` have traded places. */
  ghost predicate BlocksSwapped<T>(s: seq<T>, t: seq<T>, x: nat, y: nat, span: nat) {
    && x + span <= y && y + span <= |s| == |t|
    && (forall k :: 0 <= k < x ==> t[k] == s[k])
    && (forall k :: x <= k < x + span ==> t[k] == s[k - x + y])
    && (forall k :: x + span <= k < y ==> t[k] == s[k])
    && (forall k :: y <= k < y + span ==> t[k] == s[k - y + x])
    && (forall k :: y + span <= k < |s| ==> t[k] == s[k])
  }

  lemma BlocksNext<T>(s: seq<T>, t: seq<T>, x: nat, y: nat, k: nat)
    requires BlocksSwapped(s, t, x, y, k) && x + k < y && y + k < |s|
    ensures BlocksSwapped(s, Swapped(t, x + k, y + k), x, y, k + 1)
  {
  }

  /** `swap_block`. */
  method SwapBlock<T(==)>(a: array<T>, base: nat, n: nat, x: nat, y: nat, span: nat)
    requires base + n <= a.Length && x + span <= y && y + span <= n
    modifies a
    ensures a[..base] == old(a[..base]) && a[base + n..] == old(a[base + n..])
    ensures multiset(a[base..base + n]) == multiset(old(a[base..base + n]))
    ensures BlocksSwapped(old(a[base..base + n]), a[base..base + n], x, y, span)
  {
    hide Swapped, BlocksSwapped;
    ghost var s := a[base..base + n];
    BlocksNone(s, x, y);
    for k := 0 to span
      invariant a[..base] == old(a[..base]) && a[base + n..] == old(a[base + n..])
      invariant multiset(a[base..base + n]) == multiset(s)
      invariant BlocksSwapped(s, a[base..base + n], x, y, k)
    {
      BlocksNext(s, a[base..base + n], x, y, k);
      Swap(a, base, n, x + k, y + k);
    }
  }

  lemma BlocksNone<T>(s: seq<T>, x: nat, y: nat)
    requires x <= y <= |s|
    ensures BlocksSwapped(s, s, x, y, 0)
  {
  }

  /** Below the pivot `p`, equal to it, above it. */
  ghost predicate Three<T>(cmp: Compare<T>, s: seq<T>, p: T, lt: nat, gt: nat) {
    && lt <= gt <= |s|
    && (forall k :: 0 <= k < lt ==> cmp(p, s[k]) > 0)
    && (forall k :: lt <= k < gt ==> cmp(p, s[k]) == 0)
    && (forall k :: gt <= k < |s| ==> cmp(p, s[k]) < 0)
  }

  /** The equal elements of the front have moved behind the lower part. */
  ghost predicate HalfWay<T>(cmp: Compare<T>, s: seq<T>, p: T, lt: nat, i: nat, gt: nat) {
    && lt <= i <= gt <= |s|
    && (forall k :: 0 <= k < lt ==> cmp(p, s[k]) > 0)
    && (forall k :: lt <= k < i ==> cmp(p, s[k]) == 0)
    && (forall k :: i <= k < gt ==> cmp(p, s[k]) < 0)
    && (forall k :: gt <= k < |s| ==> cmp(p, s[k]) == 0)
  }

  function Min(x: nat, y: nat): nat { if x > y then y else x }

  lemma LowRegrouped<T>(cmp: Compare<T>, s: seq<T>, t: seq<T>, lt: nat, i: nat, gt: nat)
    requires Parts(cmp, s, lt, i, i, gt)
    requires var span := Min(lt, i - lt); BlocksSwapped(s, t, 0, i - span, span)
    ensures HalfWay(cmp, t, s[0], i - lt, i, gt)
  {
    var p, span := s[0], Min(lt, i - lt);
    forall k | 0 <= k < |t| ensures
      if k < i - lt then cmp(p, t[k]) > 0 else if k < i then cmp(p, t[k]) == 0
      else if k < gt then cmp(p, t[k]) < 0 else cmp(p, t[k]) == 0
    {
      var from := if k < span then k + (i - span) else if i - span <= k < i then k - (i - span) else k;
      assert t[k] == s[from];
    }
  }

  lemma HighRegrouped<T>(cmp: Compare<T>, s: seq<T>, t: seq<T>, p: T, lt: nat, i: nat, gt: nat)
    requires HalfWay(cmp, s, p, lt, i, gt)
    requires var span := Min(|s| - gt, gt - i); BlocksSwapped(s, t, i, |s| - span, span)
    ensures Three(cmp, t, p, lt, |s| - (gt - i))
  {
    var span := Min(|s| - gt, gt - i);
    var mid := |s| - (gt - i);
    forall k | 0 <= k < |t| ensures
      if k < lt then cmp(p, t[k]) > 0 else if k < mid then cmp(p, t[k]) == 0 else cmp(p, t[k]) < 0
    {
      var from := if i <= k < i + span then k - i + (|s| - span) else if |s| - span <= k then k - (|s| - span) + i else k;
      assert t[k] == s[from];
    }
  }

  /** The two block swaps that bring the equal elements into the middle. */
  method Regroup<T(!new, ==)>(cmp: Compare<T>, a: array<T>, base: nat, n: nat, lt: nat, i: nat, gt: nat) returns (lo: nat, hi: nat)
    requires base + n <= a.Length && n > 0 && Parts(cmp, a[base..base + n], lt, i, i, gt)
    modifies a
    ensures a[..base] == old(a[..base]) && a[base + n..] == old(a[base + n..])
    ensures multiset(a[base..base + n]) == multiset(old(a[base..base + n]))
    ensures Three(cmp, a[base..base + n], old(a[base]), lo, hi) && lo < hi <= n
  {
    hide BlocksSwapped, Parts, Three, HalfWay;
    ghost var s := a[base..base + n];
    PartsFacts(cmp, s, lt, i, i, gt);
    ghost var p := a[base];
    var span := Min(lt, i - lt);
    SwapBlock(a, base, n, 0, i - span, span);
    LowRegrouped(cmp, s, a[base..base + n], lt, i, gt);
    ghost var t := a[base..base + n];
    span := Min(n - gt, gt - i);
    SwapBlock(a, base, n, i, n - span, span);
    HighRegrouped(cmp, t, a[base..base + n], p, i - lt, i, gt);
    lo, hi := i - lt, n - (gt - i);
  }

  // ----- the parts that are still to be sorted -----

  /** An entry of the stack: a part of the array, and how deep the partitioning that made it is. */
  datatype Frame = Frame(base: nat, count: nat, depth: nat)

  ghost predicate Holds(f: Frame, x: int) { f.base <= x < f.base + f.count }

  /** The parts are inside the array and do not overlap. */
  ghost predicate Disjoint(frames: seq<Frame>, n: nat) {
    (forall k :: 0 <= k < |frames| ==> frames[k].base + frames[k].count <= n) &&
    (forall j, k, x :: 0 <= j < k < |frames| && Holds(frames[j], x) ==> !Holds(frames[k], x))
  }

  ghost predicate InOnePart(frames: seq<Frame>, x: int, y: int) {
    exists k :: 0 <= k < |frames| && Holds(frames[k], x) && Holds(frames[k], y)
  }

  /** Any two elements that do not lie in the same part are in order. */
  ghost predicate Pending<T>(cmp: Compare<T>, s: seq<T>, frames: seq<Frame>) {
    Disjoint(frames, |s|) &&
    forall x, y :: 0 <= x < y < |s| ==> Le(cmp, s[x], s[y]) || InOnePart(frames, x, y)
  }

  /** `t` differs from `s` only in the order of one part. */
  ghost predicate Rearranged<T>(s: seq<T>, t: seq<T>, base: nat, n: nat) {
    && |t| == |s| && base + n <= |s| && t[..base] == s[..base] && t[base + n..] == s[base + n..]
    && multiset(t[base..base + n]) == multiset(s[base..base + n])
  }

  lemma RearrangedWhole<T>(s: seq<T>, t: seq<T>, base: nat, n: nat)
    requires Rearranged(s, t, base, n)
    ensures multiset(t) == multiset(s)
  {
    assert s == s[..base] + s[base..base + n] + s[base + n..];
    assert t == t[..base] + t[base..base + n] + t[base + n..];
  }

  /** Every element of the part came from the part, the others stand where they stood. */
  lemma CameFrom<T>(s: seq<T>, t: seq<T>, base: nat, n: nat, x: nat) returns (from: nat)
    requires Rearranged(s, t, base, n) && x < |t|
    ensures from < |s| && t[x] == s[from] && (from == x || (base <= x < base + n && base <= from < base + n))
  {
    if x < base {
      assert t[..base][x] == s[..base][x];
      from := x;
    } else if x >= base + n {
      assert t[base + n..][x - base - n] == s[base + n..][x - base - n];
      from := x;
    } else {
      var part := t[base..base + n];
      assert part[x - base] in multiset(part);
      assert t[x] in s[base..base + n];
      var k :| 0 <= k < n && s[base..base + n][k] == t[x];
      from := base + k;
    }
  }

  lemma OnlyPart(frames: seq<Frame>, n: nat, k: nat, x: int, y: int)
    requires Disjoint(frames, n) && k < |frames| && Holds(frames[k], x) && !Holds(frames[k], y)
    ensures !InOnePart(frames, x, y) && !InOnePart(frames, y, x)
  {
  }

  lemma BothIn(frames: seq<Frame>, k: nat, x: int, y: int)
    requires k < |frames| && Holds(frames[k], x) && Holds(frames[k], y)
    ensures InOnePart(frames, x, y)
  {
  }

  lemma RearrangedLength<T>(s: seq<T>, t: seq<T>, base: nat, n: nat)
    requires Rearranged(s, t, base, n)
    ensures |t| == |s|
  {
  }

  /** Reordering one part keeps everything else in order. */
  lemma PendingRearranged<T>(cmp: Compare<T>, s: seq<T>, t: seq<T>, frames: seq<Frame>, k: nat)
    requires Pending(cmp, s, frames) && k < |frames| && Rearranged(s, t, frames[k].base, frames[k].count)
    ensures Pending(cmp, t, frames)
  {
    hide Rearranged, InOnePart;
    var f := frames[k];
    RearrangedLength(s, t, f.base, f.count);
    forall x, y | 0 <= x < y < |t| && !InOnePart(frames, x, y) ensures Le(cmp, t[x], t[y]) {
      var x' := CameFrom(s, t, f.base, f.count, x);
      var y' := CameFrom(s, t, f.base, f.count, y);
      if Holds(f, x) && Holds(f, y) {
        BothIn(frames, k, x, y);
      } else {
        if Holds(f, x) { OnlyPart(frames, |s|, k, x', y); }
        if Holds(f, y) { OnlyPart(frames, |s|, k, y', x); }
        assert Le(cmp, s[x'], s[y']) || InOnePart(frames, x', y');
      }
    }
  }

  /** A partitioned part is replaced by its lower and its upper part, in either order. */
  lemma PendingSplit<T(!new)>(cmp: Compare<T>, s: seq<T>, front: seq<Frame>, f: Frame, p: T, lo: nat, hi: nat, g: Frame, h: Frame)
    requires TotalPreorder(cmp) && Pending(cmp, s, front + [f]) && lo <= hi <= f.count && f.base + f.count <= |s|
    requires Three(cmp, s[f.base..f.base + f.count], p, lo, hi)
    requires g.base == f.base && g.count == lo && h.base == f.base + hi && h.count == f.count - hi
    ensures Pending(cmp, s, front + [g] + [h]) && Pending(cmp, s, front + [h] + [g])
  {
    hide Three;
    SplitPending(cmp, s, front, f, p, lo, hi, g, h);
    PendingSwap(cmp, s, front, g, h);
  }

  lemma SplitPending<T(!new)>(cmp: Compare<T>, s: seq<T>, front: seq<Frame>, f: Frame, p: T, lo: nat, hi: nat, g: Frame, h: Frame)
    requires TotalPreorder(cmp) && Pending(cmp, s, front + [f]) && lo <= hi <= f.count && f.base + f.count <= |s|
    requires Three(cmp, s[f.base..f.base + f.count], p, lo, hi)
    requires g.base == f.base && g.count == lo && h.base == f.base + hi && h.count == f.count - hi
    ensures Pending(cmp, s, front + [g] + [h])
  {
    hide Three, InOnePart, TotalPreorder;
    var before, after := front + [f], front + [g] + [h];
    SplitDisjoint(front, f, g, h, |s|);
    forall x, y | 0 <= x < y < |s| && !InOnePart(after, x, y) ensures Le(cmp, s[x], s[y]) {
      if Holds(f, x) && Holds(f, y) {
        if Holds(g, x) && Holds(g, y) { BothIn(after, |front|, x, y); }
        if Holds(h, x) && Holds(h, y) { BothIn(after, |front| + 1, x, y); }
        ThreeOrdered(cmp, s, f.base, f.count, p, lo, hi, x, y);
      } else {
        PartKept(front, f, g, h, x, y);
      }
    }
  }

  lemma PartKept(front: seq<Frame>, f: Frame, g: Frame, h: Frame, x: int, y: int)
    ensures InOnePart(front + [f], x, y) ==> InOnePart(front + [g] + [h], x, y) || (Holds(f, x) && Holds(f, y))
  {
    var before, after := front + [f], front + [g] + [h];
    if InOnePart(before, x, y) {
      var k :| 0 <= k < |before| && Holds(before[k], x) && Holds(before[k], y);
      if k < |front| { assert after[k] == before[k]; }
    }
  }

  lemma SplitDisjoint(front: seq<Frame>, f: Frame, g: Frame, h: Frame, n: nat)
    requires Disjoint(front + [f], n)
    requires g.base == f.base && g.count <= f.count && h.base >= g.base + g.count && h.base + h.count == f.base + f.count
    ensures Disjoint(front + [g] + [h], n)
  {
    var before, after := front + [f], front + [g] + [h];
    forall k | 0 <= k < |after| ensures after[k].base + after[k].count <= n {
      if k < |front| { assert after[k] == before[k]; } else { assert before[|front|] == f; }
    }
    forall j, k, x | 0 <= j < k < |after| && Holds(after[j], x) ensures !Holds(after[k], x) {
      if k < |front| {
        assert after[j] == before[j] && after[k] == before[k];
      } else if j < |front| {
        assert after[j] == before[j] && before[|front|] == f && Holds(before[j], x);
        assert !Holds(f, x);
      }
    }
  }

  /** Elements on different sides of the pivot, or equal to it, are in order. */
  lemma ThreeOrdered<T(!new)>(cmp: Compare<T>, s: seq<T>, base: nat, n: nat, p: T, lo: nat, hi: nat, x: nat, y: nat)
    requires TotalPreorder(cmp) && base + n <= |s| && Three(cmp, s[base..base + n], p, lo, hi)
    requires base <= x < y < base + n && !(y < base + lo) && !(x >= base + hi)
    ensures Le(cmp, s[x], s[y])
  {
    var part := s[base..base + n];
    assert s[x] == part[x - base] && s[y] == part[y - base];
    assert cmp(p, s[x]) < 0 <==> cmp(s[x], p) > 0;
    assert cmp(s[x], p) <= 0 && cmp(p, s[y]) <= 0;
    LeTrans(cmp, s[x], p, s[y]);
  }

  lemma PendingSwap<T>(cmp: Compare<T>, s: seq<T>, front: seq<Frame>, g: Frame, h: Frame)
    requires Pending(cmp, s, front + [g] + [h])
    ensures Pending(cmp, s, front + [h] + [g])
  {
    hide Le;
    var before, after := front + [g] + [h], front + [h] + [g];
    var m := |front|;
    forall k | 0 <= k < |after| ensures after[k].base + after[k].count <= |s| {
      assert after[k] == before[Other(m, k)];
    }
    forall j, k, x | 0 <= j < k < |after| && Holds(after[j], x) ensures !Holds(after[k], x) {
      var j', k' := Other(m, j), Other(m, k);
      assert after[j] == before[j'] && after[k] == before[k'];
      if j' < k' { assert Holds(before[j'], x); }
    }
    forall x, y | 0 <= x < y < |s| && InOnePart(before, x, y) ensures InOnePart(after, x, y) {
      var k :| 0 <= k < |before| && Holds(before[k], x) && Holds(before[k], y);
      assert after[Other(m, k)] == before[k];
    }
  }

  /** The last two of `m + 2` places trade places. */
  function Other(m: nat, k: nat): nat { if k == m then m + 1 else if k == m + 1 then m else k }

  /** A sorted part may be left out. */
  lemma PendingSorted<T>(cmp: Compare<T>, s: seq<T>, front: seq<Frame>, f: Frame)
    requires Pending(cmp, s, front + [f]) && f.base + f.count <= |s| && Sorted(cmp, s[f.base..f.base + f.count])
    ensures Pending(cmp, s, front)
  {
    hide Le;
    var before := front + [f];
    assert forall k :: 0 <= k < |front| ==> before[k] == front[k];
    forall x, y | 0 <= x < y < |s| && !InOnePart(front, x, y) ensures Le(cmp, s[x], s[y]) {
      if InOnePart(before, x, y) {
        var k :| 0 <= k < |before| && Holds(before[k], x) && Holds(before[k], y);
        assert k == |front|;
        var part := s[f.base..f.base + f.count];
        assert part[x - f.base] == s[x] && part[y - f.base] == s[y];
      }
    }
  }

  lemma PendingNone<T>(cmp: Compare<T>, s: seq<T>)
    requires Pending(cmp, s, [])
    ensures Sorted(cmp, s)
  {
    hide Le;
    forall x, y | 0 <= x < y < |s| ensures Le(cmp, s[x], s[y]) {
      assert !InOnePart([], x, y);
    }
  }

  lemma PendingAll<T>(cmp: Compare<T>, s: seq<T>, f: Frame)
    requires f.base == 0 && f.count == |s|
    ensures Pending(cmp, s, [f])
  {
    forall x, y | 0 <= x < y < |s| ensures InOnePart([f], x, y) {
      assert Holds([f][0], x) && Holds([f][0], y);
    }
  }

  // ----- heap sort -----

  /** From `from` on, no element is smaller than one of its children below `n`; `hole` is excepted. */
  ghost predicate HeapBut<T>(cmp: Compare<T>, s: seq<T>, from: nat, n: nat, hole: int) {
    n <= |s| &&
    forall k, c :: from <= k && k != hole && (c == 2 * k + 1 || c == 2 * k + 2) && c < n ==> Le(cmp, s[c], s[k])
  }

  ghost predicate Heap<T>(cmp: Compare<T>, s: seq<T>, from: nat, n: nat) { HeapBut(cmp, s, from, n, -1) }

  /** The children of the hole are not greater than its parent either. */
  ghost predicate UnderParent<T>(cmp: Compare<T>, s: seq<T>, from: nat, n: nat, hole: nat) {
    n <= |s| &&
    forall k, c :: from <= k && (hole == 2 * k + 1 || hole == 2 * k + 2) && (c == 2 * hole + 1 || c == 2 * hole + 2) && c < n
                   ==> Le(cmp, s[c], s[k])
  }

  lemma SiftStep<T(!new)>(cmp: Compare<T>, s: seq<T>, from: nat, n: nat, r: nat, c: nat)
    requires TotalPreorder(cmp) && HeapBut(cmp, s, from, n, r) && UnderParent(cmp, s, from, n, r) && from <= r
    requires (c == 2 * r + 1 || c == 2 * r + 2) && c < n && cmp(s[r], s[c]) <= 0
    requires forall d :: (d == 2 * r + 1 || d == 2 * r + 2) && d < n ==> Le(cmp, s[d], s[c])
    ensures HeapBut(cmp, Swapped(s, r, c), from, n, c) && UnderParent(cmp, Swapped(s, r, c), from, n, c)
  {
    var t := Swapped(s, r, c);
    forall k, d | from <= k && k != c && (d == 2 * k + 1 || d == 2 * k + 2) && d < n ensures Le(cmp, t[d], t[k]) {
      if d == r { assert Le(cmp, s[c], s[k]); } else if k != r { assert Le(cmp, s[d], s[k]); }
    }
    forall k, d | from <= k && (c == 2 * k + 1 || c == 2 * k + 2) && (d == 2 * c + 1 || d == 2 * c + 2) && d < n ensures Le(cmp, t[d], t[k]) {
      assert Le(cmp, s[d], s[c]);
    }
  }

  lemma SiftDone<T(!new)>(cmp: Compare<T>, s: seq<T>, from: nat, n: nat, r: nat)
    requires HeapBut(cmp, s, from, n, r)
    requires forall d :: (d == 2 * r + 1 || d == 2 * r + 2) && d < n ==> Le(cmp, s[d], s[r])
    ensures Heap(cmp, s, from, n)
  {
  }

  /** The loop that lets the element at `from` sink into the heap behind it. */
  method SiftDown<T(!new, ==)>(cmp: Compare<T>, a: array<T>, base: nat, n: nat, from: nat)
    requires TotalPreorder(cmp) && base + n <= a.Length && from < n
    requires Heap(cmp, a[base..base + n], from + 1, n)
    modifies a
    ensures a[..base] == old(a[..base]) && a[base + n..] == old(a[base + n..])
    ensures multiset(a[base..base + n]) == multiset(old(a[base..base + n]))
    ensures Heap(cmp, a[base..base + n], from, n)
  {
    hide TotalPreorder, Swapped, HeapBut, UnderParent, Heap;
    var r := from;
    SiftStart(cmp, a[base..base + n], from, n);
    while 2 * r + 1 < n
      invariant from <= r < n
      invariant a[..base] == old(a[..base]) && a[base + n..] == old(a[base + n..])
      invariant multiset(a[base..base + n]) == multiset(old(a[base..base + n]))
      invariant HeapBut(cmp, a[base..base + n], from, n, r) && UnderParent(cmp, a[base..base + n], from, n, r)
      decreases n - r
    {
      ghost var s := a[base..base + n];
      var c := 2 * r + 1;
      if c < n - 1 && cmp(a[base + c], a[base + c + 1]) <= 0 {
        c := c + 1;
      }
      GreaterChild(cmp, s, n, r, c);
      if cmp(a[base + r], a[base + c]) > 0 {
        NotBelow(cmp, s, n, r, c);
        break;
      }
      SiftStep(cmp, s, from, n, r, c);
      Swap(a, base, n, r, c);
      r := c;
    }
    SiftDone(cmp, a[base..base + n], from, n, r);
  }

  lemma SiftStart<T>(cmp: Compare<T>, s: seq<T>, from: nat, n: nat)
    requires Heap(cmp, s, from + 1, n)
    ensures HeapBut(cmp, s, from, n, from) && UnderParent(cmp, s, from, n, from)
  {
  }

  lemma GreaterChild<T(!new)>(cmp: Compare<T>, s: seq<T>, n: nat, r: nat, c: nat)
    requires TotalPreorder(cmp) && n <= |s| && 2 * r + 1 < n
    requires c == if 2 * r + 2 < n && cmp(s[2 * r + 1], s[2 * r + 2]) <= 0 then 2 * r + 2 else 2 * r + 1
    ensures forall d :: (d == 2 * r + 1 || d == 2 * r + 2) && d < n ==> Le(cmp, s[d], s[c])
  {
    LeRefl(cmp, s[c]);
    if 2 * r + 2 < n { assert cmp(s[2 * r + 2], s[2 * r + 1]) < 0 <==> cmp(s[2 * r + 1], s[2 * r + 2]) > 0; }
  }

  lemma NotBelow<T(!new)>(cmp: Compare<T>, s: seq<T>, n: nat, r: nat, c: nat)
    requires TotalPreorder(cmp) && n <= |s| && r < n && c < n && cmp(s[r], s[c]) > 0
    requires forall d :: (d == 2 * r + 1 || d == 2 * r + 2) && d < n ==> Le(cmp, s[d], s[c])
    ensures forall d :: (d == 2 * r + 1 || d == 2 * r + 2) && d < n ==> Le(cmp, s[d], s[r])
  {
    assert cmp(s[c], s[r]) < 0;
    forall d | (d == 2 * r + 1 || d == 2 * r + 2) && d < n ensures Le(cmp, s[d], s[r]) {
      LeTrans(cmp, s[d], s[c], s[r]);
    }
  }

  /** The root of a heap is its greatest element. */
  lemma {:induction false} RootGreatest<T(!new)>(cmp: Compare<T>, s: seq<T>, n: nat, k: nat)
    requires TotalPreorder(cmp) && Heap(cmp, s, 0, n) && k < n
    ensures Le(cmp, s[k], s[0])
    decreases k
  {
    hide TotalPreorder;
    if k == 0 {
      LeRefl(cmp, s[0]);
    } else {
      var parent: nat := (k - 1) / 2;
      RootGreatest(cmp, s, n, parent);
      assert k == 2 * parent + 1 || k == 2 * parent + 2;
      assert Le(cmp, s[k], s[parent]);
      LeTrans(cmp, s[k], s[parent], s[0]);
    }
  }

  /** The greatest elements are at the end, in order; before them nothing is greater. */
  ghost predicate SortedTail<T>(cmp: Compare<T>, s: seq<T>, i: nat) {
    i <= |s| && forall x, y :: 0 <= x < y < |s| && y >= i ==> Le(cmp, s[x], s[y])
  }

  /** The root has moved behind the heap. */
  lemma RootMoved<T(!new)>(cmp: Compare<T>, s: seq<T>, i: nat)
    requires TotalPreorder(cmp) && 0 < i < |s| && Heap(cmp, s[..i + 1], 0, i + 1) && SortedTail(cmp, s, i + 1)
    ensures var t := Swapped(s, 0, i); Heap(cmp, t[..i], 1, i) && SortedTail(cmp, t, i)
  {
    hide TotalPreorder;
    var t, h := Swapped(s, 0, i), s[..i + 1];
    forall k, c | 1 <= k && (c == 2 * k + 1 || c == 2 * k + 2) && c < i ensures Le(cmp, t[..i][c], t[..i][k]) {
      assert Le(cmp, h[c], h[k]);
    }
    forall x, y | 0 <= x < y < |t| && y >= i ensures Le(cmp, t[x], t[y]) {
      var x' := if x == 0 then i else x;
      if y == i {
        RootGreatest(cmp, h, i + 1, x');
        assert h[x'] == s[x'] && h[0] == s[0];
      } else {
        assert Le(cmp, s[if x == i then 0 else x'], s[y]);
      }
    }
  }

  /** Reordering the heap keeps the tail in order. */
  lemma TailKept<T>(cmp: Compare<T>, s: seq<T>, t: seq<T>, i: nat)
    requires SortedTail(cmp, s, i) && Rearranged(s, t, 0, i)
    ensures SortedTail(cmp, t, i)
  {
    hide Rearranged;
    RearrangedLength(s, t, 0, i);
    forall x, y | 0 <= x < y < |t| && y >= i ensures Le(cmp, t[x], t[y]) {
      var x' := CameFrom(s, t, 0, i, x);
      var y' := CameFrom(s, t, 0, i, y);
    }
  }

  /** The first half of heap sort: builds the heap from the last parent down. */
  method BuildHeap<T(!new, ==)>(cmp: Compare<T>, a: array<T>, base: nat, n: nat)
    requires TotalPreorder(cmp) && base + n <= a.Length && n > 1
    modifies a
    ensures a[..base] == old(a[..base]) && a[base + n..] == old(a[base + n..])
    ensures multiset(a[base..base + n]) == multiset(old(a[base..base + n]))
    ensures Heap(cmp, a[base..base + n], 0, n)
  {
    hide TotalPreorder, Heap;
    var i := n / 2;
    LeavesHeap(cmp, a[base..base + n], i);
    while i > 0
      invariant 0 <= i <= n / 2
      invariant a[..base] == old(a[..base]) && a[base + n..] == old(a[base + n..])
      invariant multiset(a[base..base + n]) == multiset(old(a[base..base + n]))
      invariant Heap(cmp, a[base..base + n], i, n)
    {
      i := i - 1;
      SiftDown(cmp, a, base, n, i);
    }
  }

  lemma LeavesHeap<T>(cmp: Compare<T>, s: seq<T>, i: nat)
    requires i == |s| / 2
    ensures Heap(cmp, s, i, |s|)
  {
  }

  /** The heap on the first `i + 1` elements, and the greatest elements in order behind it. */
  ghost predicate HeapAndTail<T>(cmp: Compare<T>, s: seq<T>, i: nat) {
    i < |s| && Heap(cmp, s[..i + 1], 0, i + 1) && SortedTail(cmp, s, i + 1)
  }

  /** One round of the second half of heap sort: moves the root behind the heap. */
  method PopRoot<T(!new, ==)>(cmp: Compare<T>, a: array<T>, base: nat, n: nat, i: nat)
    requires TotalPreorder(cmp) && base + n <= a.Length && 0 < i < n
    requires HeapAndTail(cmp, a[base..base + n], i)
    modifies a
    ensures a[..base] == old(a[..base]) && a[base + n..] == old(a[base + n..])
    ensures multiset(a[base..base + n]) == multiset(old(a[base..base + n]))
    ensures HeapAndTail(cmp, a[base..base + n], i - 1)
  {
    hide TotalPreorder, Heap, Swapped, SortedTail, Rearranged;
    RootMoved(cmp, a[base..base + n], i);
    Swap(a, base, n, 0, i);
    ghost var all, s := a[..], a[base..base + n];
    assert all[..base] == a[..base] && all[base + n..] == a[base + n..] && all[base..base + n] == s;
    assert a[base..base + i] == s[..i];
    SiftDown(cmp, a, base, i, 0);
    PartRearranged(all, a[..], base, n, i);
    assert a[..][base..base + n] == a[base..base + n] && a[..][base + n..] == a[base + n..];
    assert a[base..base + i] == a[..][base..base + i];
    SliceFront(a[..], base, n, i);
    TailKept(cmp, s, a[base..base + n], i);
  }

  lemma SliceFront<T>(s: seq<T>, base: nat, n: nat, i: nat)
    requires i <= n && base + n <= |s|
    ensures s[base..base + n][..i] == s[base..base + i]
  {
  }

  /** `heapsortx`. */
  method HeapSort<T(!new, ==)>(cmp: Compare<T>, a: array<T>, base: nat, n: nat)
    requires TotalPreorder(cmp) && base + n <= a.Length
    modifies a
    ensures a[..base] == old(a[..base]) && a[base + n..] == old(a[base + n..])
    ensures multiset(a[base..base + n]) == multiset(old(a[base..base + n]))
    ensures Sorted(cmp, a[base..base + n])
  {
    hide TotalPreorder, Heap, HeapAndTail, Sorted;
    if n <= 1 {
      SortedShort(cmp, a[base..base + n], n);
      assert a[base..base + n][..n] == a[base..base + n];
      return;
    }
    BuildHeap(cmp, a, base, n);
    var i := n - 1;
    TailStart(cmp, a[base..base + n]);
    while i > 0
      invariant 0 <= i < n
      invariant a[..base] == old(a[..base]) && a[base + n..] == old(a[base + n..])
      invariant multiset(a[base..base + n]) == multiset(old(a[base..base + n]))
      invariant HeapAndTail(cmp, a[base..base + n], i)
    {
      PopRoot(cmp, a, base, n, i);
      i := i - 1;
    }
    TailAll(cmp, a[base..base + n]);
  }

  lemma TailStart<T>(cmp: Compare<T>, s: seq<T>)
    requires s != [] && Heap(cmp, s, 0, |s|)
    ensures HeapAndTail(cmp, s, |s| - 1)
  {
    hide Heap;
    assert s[..|s| - 1 + 1] == s;
  }

  lemma TailAll<T>(cmp: Compare<T>, s: seq<T>)
    requires HeapAndTail(cmp, s, 0)
    ensures Sorted(cmp, s)
  {
  }

  /** Reordering the first `i` elements of a part reorders the part. */
  lemma PartRearranged<T>(all: seq<T>, now: seq<T>, base: nat, n: nat, i: nat)
    requires i <= n && base + n <= |all| == |now| && now[..base] == all[..base] && now[base + i..] == all[base + i..]
    requires multiset(now[base..base + i]) == multiset(all[base..base + i])
    ensures Rearranged(all[base..base + n], now[base..base + n], 0, i)
    ensures multiset(now[base..base + n]) == multiset(all[base..base + n]) && now[base + n..] == all[base + n..]
  {
    var s, t := all[base..base + n], now[base..base + n];
    assert t[0..i] == now[base..base + i] && s[0..i] == all[base..base + i];
    assert t[i..] == now[base + i..][..n - i] && s[i..] == all[base + i..][..n - i];
    assert now[base + n..] == now[base + i..][n - i..] && all[base + n..] == all[base + i..][n - i..];
    RearrangedWhole(s, t, 0, i);
  }

  // ----- the main loop -----

  /** `med3`: one of the three places, whose element is not below one of the others and not above another. */
  method Med3<T(!new)>(cmp: Compare<T>, a: array<T>, x: nat, y: nat, z: nat) returns (m: nat)
    requires TotalPreorder(cmp) && x < a.Length && y < a.Length && z < a.Length
    ensures (m == x && Between(cmp, a[x], a[y], a[z])) || (m == y && Between(cmp, a[y], a[x], a[z])) || (m == z && Between(cmp, a[z], a[x], a[y]))
  {
    if cmp(a[x], a[y]) < 0 {
      if cmp(a[y], a[z]) < 0 { m := y; } else if cmp(a[x], a[z]) < 0 { m := z; } else { m := x; }
    } else {
      if cmp(a[y], a[z]) > 0 { m := y; } else if cmp(a[x], a[z]) < 0 { m := x; } else { m := z; }
    }
    MedianFacts(cmp, a[x], a[y], a[z]);
  }

  ghost predicate Between<T>(cmp: Compare<T>, m: T, x: T, y: T) {
    (Le(cmp, x, m) && Le(cmp, m, y)) || (Le(cmp, y, m) && Le(cmp, m, x))
  }

  lemma MedianFacts<T(!new)>(cmp: Compare<T>, x: T, y: T, z: T)
    requires TotalPreorder(cmp)
    ensures (cmp(x, y) < 0 <==> cmp(y, x) > 0) && (cmp(y, z) < 0 <==> cmp(z, y) > 0) && (cmp(x, z) < 0 <==> cmp(z, x) > 0)
    ensures (cmp(y, x) < 0 <==> cmp(x, y) > 0) && (cmp(z, y) < 0 <==> cmp(y, z) > 0) && (cmp(z, x) < 0 <==> cmp(x, z) > 0)
  {
  }

  const STACK_LEN: nat := 50

  /** Twice the elements that are still to be sorted, and one for each part. */
  function Size(frames: seq<Frame>): nat {
    if frames == [] then 0 else Size(frames[..|frames| - 1]) + 2 * frames[|frames| - 1].count + 1
  }

  lemma SizeSnoc(frames: seq<Frame>, f: Frame)
    ensures Size(frames + [f]) == Size(frames) + 2 * f.count + 1
  {
    assert (frames + [f])[..|frames|] == frames;
  }

  /** The entry at `k` was made by partitioning more than `k` deep, but for the first one. */
  ghost predicate Depths(frames: seq<Frame>) {
    forall k :: 0 <= k < |frames| ==> frames[k].depth >= k && frames[k].depth <= STACK_LEN
  }

  /** Partitions one part around a median of three. */
  method Divide<T(!new, ==)>(cmp: Compare<T>, a: array<T>, base: nat, n: nat) returns (lo: nat, hi: nat, ghost p: T)
    requires TotalPreorder(cmp) && base + n <= a.Length && n > 6
    modifies a
    ensures Rearranged(old(a[..]), a[..], base, n)
    ensures Three(cmp, a[base..base + n], p, lo, hi) && lo < hi <= n
  {
    hide TotalPreorder, Three, Parts, Swapped, Between;
    var m4 := n / 4;
    var m := Med3(cmp, a, base + m4, base + 2 * m4, base + 3 * m4);
    Swap(a, base, n, 0, m - base);
    var lt, i, gt := Partition(cmp, a, base, n);
    p := a[base];
    lo, hi := Regroup(cmp, a, base, n, lt, i, gt);
    assert a[..][..base] == a[..base] && a[..][base + n..] == a[base + n..] && a[..][base..base + n] == a[base..base + n];
  }

  class Sorter<T(!new, ==)> {
    const cmp: Compare<T>
    const a: array<T>
    const stack: array<Frame>
    var sp: nat

    ghost predicate Valid()
      reads this, a, stack
    {
      && TotalPreorder(cmp) && stack.Length == STACK_LEN && sp <= STACK_LEN
      && Depths(stack[..sp])
    }

    /** `rqsort` starts with the whole array on its stack. */
    constructor (cmp: Compare<T>, a: array<T>)
      requires TotalPreorder(cmp)
      ensures Valid() && this.cmp == cmp && this.a == a && fresh(stack) && stack[..sp] == [Frame(0, a.Length, 0)]
    {
      this.cmp, this.a := cmp, a;
      stack := new Frame[STACK_LEN](_ => Frame(0, a.Length, 0));
      sp := 1;
    }

    /** Pushes a part; there is room because the depth of the part is greater than the height of the stack. */
    method Push(f: Frame)
      requires Valid() && sp < f.depth <= STACK_LEN
      modifies this`sp, stack
      ensures Valid() && stack[..sp] == old(stack[..sp]) + [f] && sp == old(sp) + 1
    {
      stack[sp] := f;
      sp := sp + 1;
    }

    /** One round of the inner loop: partitions the current part, pushes the larger side, goes on with the other. */
    method DivideCurrent(cur: Frame) returns (next: Frame)
      requires Valid() && cur.count > 6 && sp < cur.depth <= STACK_LEN && a as object != stack
      requires Pending(cmp, a[..], stack[..sp] + [cur])
      modifies this`sp, stack, a
      ensures Valid() && multiset(a[..]) == multiset(old(a[..])) && sp == old(sp) + 1
      ensures Pending(cmp, a[..], stack[..sp] + [next]) && next.depth == cur.depth && next.count < cur.count
      ensures Size(stack[..sp] + [next]) < Size(old(stack[..sp]) + [cur])
    {
      hide TotalPreorder, Pending, Three, Rearranged, Size;
      ghost var front, was := stack[..sp], a[..];
      PendingInside(cmp, was, front, cur);
      var lo, hi, p := Divide(cmp, a, cur.base, cur.count);
      DividedPending(cmp, was, a[..], front, cur, p, lo, hi);
      var lower, upper := Frame(cur.base, lo, cur.depth), Frame(cur.base + hi, cur.count - hi, cur.depth);
      if lo > cur.count - hi {
        Push(lower);
        next := upper;
      } else {
        Push(upper);
        next := lower;
      }
    }

    /** The inner loop: partitions until the current part is small, or so deep that it is heap-sorted. */
    method DivideParts(first: Frame) returns (last: Frame)
      requires Valid() && sp <= first.depth <= STACK_LEN && a as object != stack
      requires Pending(cmp, a[..], stack[..sp] + [first])
      modifies this`sp, stack, a
      ensures Valid() && multiset(a[..]) == multiset(old(a[..])) && last.count <= 6
      ensures Pending(cmp, a[..], stack[..sp] + [last])
      ensures Size(stack[..sp] + [last]) <= Size(old(stack[..sp]) + [first])
    {
      hide TotalPreorder, Pending, Size, Depths, Rearranged;
      last := first;
      while last.count > 6
        invariant Valid() && multiset(a[..]) == multiset(old(a[..])) && sp <= last.depth <= STACK_LEN
        invariant Pending(cmp, a[..], stack[..sp] + [last])
        invariant Size(stack[..sp] + [last]) <= Size(old(stack[..sp]) + [first])
        decreases last.count
      {
        last := last.(depth := last.depth + 1);
        DeeperPending(cmp, a[..], stack[..sp], last, last.depth - 1);
        if last.depth > STACK_LEN {
          PendingInside(cmp, a[..], stack[..sp], last);
          HeapSortPart(last);
          EmptyPart(cmp, a[..], stack[..sp], last);
          last := last.(count := 0);
          break;
        }
        last := DivideCurrent(last);
      }
    }

    method HeapSortPart(f: Frame)
      requires Valid() && f.base + f.count <= a.Length && a as object != stack
      requires Pending(cmp, a[..], stack[..sp] + [f])
      modifies a
      ensures Valid() && multiset(a[..]) == multiset(old(a[..])) && stack[..sp] == old(stack[..sp])
      ensures Pending(cmp, a[..], stack[..sp] + [f]) && Sorted(cmp, a[..][f.base..f.base + f.count])
    {
      hide TotalPreorder, Pending, Depths, Sorted;
      ghost var was, all := a[..], stack[..sp] + [f];
      HeapSort(cmp, a, f.base, f.count);
      PartSorted(cmp, was, a[..], all, |all| - 1);
    }

    method InsertionSortPart(f: Frame)
      requires Valid() && f.base + f.count <= a.Length && a as object != stack
      requires Pending(cmp, a[..], stack[..sp] + [f])
      modifies a
      ensures Valid() && multiset(a[..]) == multiset(old(a[..])) && stack[..sp] == old(stack[..sp])
      ensures Pending(cmp, a[..], stack[..sp])
    {
      hide TotalPreorder, Pending, Depths, Sorted;
      ghost var was, all := a[..], stack[..sp] + [f];
      InsertionSort(cmp, a, f.base, f.count);
      PartSorted(cmp, was, a[..], all, |all| - 1);
      PendingSorted(cmp, a[..], stack[..sp], f);
    }

    /** The outer loop of `rqsort`. */
    method Sort()
      requires Valid() && sp == 1 && stack[0] == Frame(0, a.Length, 0) && a as object != stack
      modifies this`sp, stack, a
      ensures Sorted(cmp, a[..]) && multiset(a[..]) == multiset(old(a[..]))
    {
      hide TotalPreorder, Pending, Size, Depths, Sorted;
      PendingAll(cmp, a[..], stack[0]);
      assert stack[..sp] == [stack[0]];
      while sp > 0
        invariant Valid() && multiset(a[..]) == multiset(old(a[..])) && Pending(cmp, a[..], stack[..sp])
        decreases Size(stack[..sp])
      {
        ghost var frames := stack[..sp];
        sp := sp - 1;
        var f := stack[sp];
        assert frames == stack[..sp] + [f];
        PoppedDepths(stack[..sp], f);
        f := DivideParts(f);
        PendingInside(cmp, a[..], stack[..sp], f);
        SizeSnoc(stack[..sp], f);
        InsertionSortPart(f);
      }
      PendingNone(cmp, a[..]);
    }
  }

  /** `rqsort`. */
  method Rqsort<T(!new, ==)>(cmp: Compare<T>, a: array<T>)
    requires TotalPreorder(cmp)
    modifies a
    ensures Sorted(cmp, a[..]) && multiset(a[..]) == multiset(old(a[..]))
  {
    hide TotalPreorder;
    if a.Length < 2 {
      return;
    }
    var s := new Sorter<T>(cmp, a);
    assert s.stack[0] == s.stack[..s.sp][0];
    s.Sort();
  }

  lemma PoppedDepths(front: seq<Frame>, f: Frame)
    requires Depths(front + [f])
    ensures Depths(front) && |front| <= f.depth <= STACK_LEN
  {
    var all := front + [f];
    assert all[|front|] == f;
    assert forall k :: 0 <= k < |front| ==> all[k] == front[k];
  }

  /** The depth of a part does not matter for what is pending. */
  lemma DeeperPending<T>(cmp: Compare<T>, s: seq<T>, front: seq<Frame>, f: Frame, depth: nat)
    requires Pending(cmp, s, front + [f.(depth := depth)])
    ensures Pending(cmp, s, front + [f]) && Size(front + [f]) == Size(front + [f.(depth := depth)])
  {
    hide Le;
    SizeSnoc(front, f);
    SizeSnoc(front, f.(depth := depth));
    SamePlaces(cmp, s, front + [f.(depth := depth)], front + [f]);
  }

  lemma SamePlaces<T>(cmp: Compare<T>, s: seq<T>, x: seq<Frame>, y: seq<Frame>)
    requires Pending(cmp, s, x) && |x| == |y| && forall k :: 0 <= k < |x| ==> x[k].base == y[k].base && x[k].count == y[k].count
    ensures Pending(cmp, s, y)
  {
    hide Le;
    forall k | 0 <= k < |y| ensures y[k].base + y[k].count <= |s| { assert x[k].base + x[k].count <= |s|; }
    forall j, k, i | 0 <= j < k < |y| && Holds(y[j], i) ensures !Holds(y[k], i) { assert Holds(x[j], i); }
    forall i, j | 0 <= i < j < |s| && InOnePart(x, i, j) ensures InOnePart(y, i, j) {
      var k :| 0 <= k < |x| && Holds(x[k], i) && Holds(x[k], j);
      assert Holds(y[k], i) && Holds(y[k], j);
    }
  }

  /** A part that has been sorted may shrink to nothing. */
  lemma EmptyPart<T>(cmp: Compare<T>, s: seq<T>, front: seq<Frame>, f: Frame)
    requires Pending(cmp, s, front + [f]) && f.base + f.count <= |s| && Sorted(cmp, s[f.base..f.base + f.count])
    ensures Pending(cmp, s, front + [f.(count := 0)]) && Size(front + [f.(count := 0)]) <= Size(front + [f])
  {
    hide Le;
    PendingSorted(cmp, s, front, f);
    SizeSnoc(front, f);
    SizeSnoc(front, f.(count := 0));
    WithEmpty(cmp, s, front, f.(count := 0));
  }

  lemma WithEmpty<T>(cmp: Compare<T>, s: seq<T>, front: seq<Frame>, f: Frame)
    requires Pending(cmp, s, front) && f.count == 0 && f.base <= |s|
    ensures Pending(cmp, s, front + [f])
  {
    hide Le;
    var all := front + [f];
    forall k | 0 <= k < |all| ensures all[k].base + all[k].count <= |s| { if k < |front| { assert all[k] == front[k]; } }
    forall j, k, i | 0 <= j < k < |all| && Holds(all[j], i) ensures !Holds(all[k], i) {
      if k < |front| { assert all[j] == front[j] && all[k] == front[k]; }
    }
    forall i, j | 0 <= i < j < |s| && InOnePart(front, i, j) ensures InOnePart(all, i, j) {
      var k :| 0 <= k < |front| && Holds(front[k], i) && Holds(front[k], j);
      assert all[k] == front[k];
    }
  }

  /** A part of the array has been sorted. */
  lemma PartSorted<T>(cmp: Compare<T>, was: seq<T>, now: seq<T>, frames: seq<Frame>, k: nat)
    requires Pending(cmp, was, frames) && k < |frames| && |now| == |was|
    requires var f := frames[k];
             && f.base + f.count <= |was| && now[..f.base] == was[..f.base] && now[f.base + f.count..] == was[f.base + f.count..]
             && multiset(now[f.base..f.base + f.count]) == multiset(was[f.base..f.base + f.count])
    ensures Pending(cmp, now, frames) && multiset(now) == multiset(was)
  {
    hide Pending;
    var f := frames[k];
    assert Rearranged(was, now, f.base, f.count);
    RearrangedWhole(was, now, f.base, f.count);
    PendingRearranged(cmp, was, now, frames, k);
  }

  lemma PendingInside<T>(cmp: Compare<T>, s: seq<T>, front: seq<Frame>, f: Frame)
    requires Pending(cmp, s, front + [f])
    ensures f.base + f.count <= |s|
  {
    assert (front + [f])[|front|] == f;
  }

  lemma DividedPending<T(!new)>(cmp: Compare<T>, was: seq<T>, now: seq<T>, front: seq<Frame>, f: Frame, p: T, lo: nat, hi: nat)
    requires TotalPreorder(cmp) && Pending(cmp, was, front + [f]) && f.base + f.count <= |was|
    requires Rearranged(was, now, f.base, f.count) && |now| == |was| && lo < hi <= f.count && Three(cmp, now[f.base..f.base + f.count], p, lo, hi)
    ensures var g, h := Frame(f.base, lo, f.depth), Frame(f.base + hi, f.count - hi, f.depth);
            && Pending(cmp, now, front + [g] + [h]) && Pending(cmp, now, front + [h] + [g])
            && Size(front + [g] + [h]) < Size(front + [f]) && Size(front + [h] + [g]) < Size(front + [f])
    ensures multiset(now) == multiset(was)
  {
    hide TotalPreorder, Pending, Three, Rearranged, Size;
    var g, h := Frame(f.base, lo, f.depth), Frame(f.base + hi, f.count - hi, f.depth);
    RearrangedWhole(was, now, f.base, f.count);
    assert (front + [f])[|front|] == f;
    PendingRearranged(cmp, was, now, front + [f], |front|);
    PendingSplit(cmp, now, front, f, p, lo, hi, g, h);
    SizeSnoc(front, f);
    SizeSnoc(front, g);
    SizeSnoc(front, h);
    SizeSnoc(front + [g], h);
    SizeSnoc(front + [h], g);
  }
}
