/** Canonical ordering of combining marks: `sort_cc`. */
module Combining {

  /** `unicode_get_cc`: the combining class of a character. */
  type Classes = int -> nat

  /** Inserts `ch` behind the last character of the run whose class is not greater. */
  function Insert(cc: Classes, run: seq<int>, ch: int): (r: seq<int>)
    ensures |r| == |run| + 1
  {
    var n := |run|;
    if n == 0 || cc(run[n - 1]) <= cc(ch) then run + [ch] else Insert(cc, run[..n - 1], ch) + [run[n - 1]]
  }

  /** Inserts the characters of a run one after the other. */
  function SortRun(cc: Classes, run: seq<int>): (r: seq<int>)
    ensures |r| == |run|
  {
    var n := |run|;
    if n == 0 then [] else Insert(cc, SortRun(cc, run[..n - 1]), run[n - 1])
  }

  /** Length of the run of characters with a class other than 0 at the front. */
  function RunLength(cc: Classes, s: seq<int>): (n: nat)
    ensures n <= |s| && (forall k :: 0 <= k < n ==> cc(s[k]) != 0) && (n < |s| ==> cc(s[n]) == 0)
  {
    if s == [] || cc(s[0]) == 0 then 0 else 1 + RunLength(cc, s[1..])
  }

  /** The canonical order of a text. */
  function Reorder(cc: Classes, s: seq<int>): (r: seq<int>)
    ensures |r| == |s|
  {
    if s == [] then []
    else if cc(s[0]) == 0 then [s[0]] + Reorder(cc, s[1..])
    else
      var n := RunLength(cc, s);
      SortRun(cc, s[..n]) + Reorder(cc, s[n..])
  }

  // ----- the loops -----

  /** The innermost loop: moves the greater classes of `a[start..j]` up and puts `a[j]` into the gap. */
  method ShiftIn(cc: Classes, a: array<int>, start: nat, j: nat)
    requires start <= j < a.Length
    modifies a
    ensures a[..start] == old(a[..start]) && a[j + 1..] == old(a[j + 1..])
    ensures a[start..j + 1] == Insert(cc, old(a[start..j]), old(a[j]))
  {
    hide Insert;
    ghost var was := a[..];
    var ch1 := a[j];
    var cc1 := cc(ch1);
    var k := j - 1;
    InsertStart(cc, was, start, j);
    while k >= start
      invariant start - 1 <= k < j
      invariant forall m :: 0 <= m <= k + 1 ==> a[m] == was[m]
      invariant forall m :: k + 1 < m <= j ==> a[m] == was[m - 1]
      invariant forall m :: j < m < a.Length ==> a[m] == was[m]
      invariant Insert(cc, was[start..j], ch1) == Insert(cc, was[start..k + 1], ch1) + was[k + 1..j]
      decreases k
    {
      if cc(a[k]) <= cc1 {
        break;
      }
      InsertBelow(cc, was, start, j, k, ch1);
      a[k + 1] := a[k];
      k := k - 1;
    }
    a[k + 1] := ch1;
    InsertHere(cc, was[start..k + 1], ch1);
    ShiftedRun(a[..], was, start, j, k + 1, ch1);
    assert was[..start] == old(a[..start]) && was[j + 1..] == old(a[j + 1..]) && was[start..j] == old(a[start..j]);
  }

  lemma InsertStart(cc: Classes, was: seq<int>, start: nat, j: nat)
    requires start <= j < |was|
    ensures Insert(cc, was[start..j], was[j]) == Insert(cc, was[start..j], was[j]) + was[j..j]
  {
    hide Insert;
  }

  lemma InsertBelow(cc: Classes, was: seq<int>, start: nat, j: nat, k: nat, ch: int)
    requires start <= k < j < |was| && cc(was[k]) > cc(ch)
    ensures Insert(cc, was[start..k + 1], ch) + was[k + 1..j] == Insert(cc, was[start..k], ch) + was[k..j]
  {
    var run := was[start..k + 1];
    assert run[..|run| - 1] == was[start..k] && run[|run| - 1] == was[k];
    assert [was[k]] + was[k + 1..j] == was[k..j];
  }

  lemma InsertHere(cc: Classes, run: seq<int>, ch: int)
    requires run == [] || cc(run[|run| - 1]) <= cc(ch)
    ensures Insert(cc, run, ch) == run + [ch]
  {
  }

  lemma ShiftedRun(now: seq<int>, was: seq<int>, start: nat, j: nat, k: nat, ch: int)
    requires start <= k <= j < |was| == |now| && now[k] == ch
    requires forall m :: 0 <= m < k ==> now[m] == was[m]
    requires forall m :: k < m <= j ==> now[m] == was[m - 1]
    requires forall m :: j < m < |was| ==> now[m] == was[m]
    ensures now[..start] == was[..start] && now[j + 1..] == was[j + 1..]
    ensures now[start..j + 1] == was[start..k] + [ch] + was[k..j]
  {
    var s, r := now[start..j + 1], was[start..k] + [ch] + was[k..j];
    forall m | 0 <= m < |s| ensures s[m] == r[m] {
      assert s[m] == now[start + m];
    }
  }

  /** The middle loop: sorts the run that begins at `start`, up to the next character of class 0. */
  method SortRunAt(cc: Classes, a: array<int>, start: nat) returns (j: nat)
    requires start < a.Length && cc(a[start]) != 0
    modifies a
    ensures start < j <= a.Length && j - start == RunLength(cc, old(a[start..]))
    ensures a[..start] == old(a[..start]) && a[j..] == old(a[j..])
    ensures a[start..j] == SortRun(cc, old(a[start..j]))
  {
    hide SortRun, Insert, RunLength;
    ghost var was := a[..];
    j := start + 1;
    SortOne(cc, was[start..j], was[start]);
    while j < a.Length && cc(a[j]) != 0
      invariant start < j <= a.Length && a[..start] == was[..start] && a[j..] == was[j..]
      invariant a[start..j] == SortRun(cc, was[start..j])
      invariant forall k :: start <= k < j ==> cc(was[k]) != 0
      decreases a.Length - j
    {
      SortNext(cc, was, start, j);
      ghost var before := a[..];
      assert a[j] == a[j..][0] && a[start..j] == before[start..j];
      ShiftIn(cc, a, start, j);
      assert a[j + 1..] == before[j + 1..] == before[j..][1..];
      assert was[j + 1..] == was[j..][1..];
      j := j + 1;
    }
    assert j < a.Length ==> a[j] == a[j..][0] == was[j..][0];
    LengthOfRun(cc, was[start..], j - start);
    assert was[start..] == old(a[start..]) && was[start..j] == old(a[start..j]) && was[j..] == old(a[j..]);
  }

  lemma SortOne(cc: Classes, run: seq<int>, ch: int)
    requires run == [ch]
    ensures SortRun(cc, run) == run
  {
    assert run[..0] == [];
  }

  lemma SortNext(cc: Classes, was: seq<int>, start: nat, j: nat)
    requires start <= j < |was|
    ensures SortRun(cc, was[start..j + 1]) == Insert(cc, SortRun(cc, was[start..j]), was[j])
  {
    var run := was[start..j + 1];
    assert run[..|run| - 1] == was[start..j] && run[|run| - 1] == was[j];
  }

  lemma {:induction false} LengthOfRun(cc: Classes, s: seq<int>, n: nat)
    requires n <= |s| && (forall k :: 0 <= k < n ==> cc(s[k]) != 0) && (n < |s| ==> cc(s[n]) == 0)
    ensures RunLength(cc, s) == n
    decreases n
  {
    if n > 0 {
      assert s[0] == s[0..][0];
      LengthOfRun(cc, s[1..], n - 1);
    }
  }

  /** `sort_cc`. */
  method SortCc(cc: Classes, a: array<int>)
    modifies a
    ensures a[..] == Reorder(cc, old(a[..]))
  {
    hide Reorder, SortRun, RunLength;
    ghost var was := a[..];
    var i := 0;
    ghost var done := 0;
    assert a[..0] + Reorder(cc, a[0..]) == Reorder(cc, was);
    while i < a.Length
      invariant 0 <= done <= a.Length && (i == done || i == done + 1 == a.Length + 1)
      invariant a[..done] + Reorder(cc, a[done..]) == Reorder(cc, was)
      decreases a.Length - i
    {
      ghost var before := a[..];
      assert before[..done] == a[..done] && before[done..] == a[done..];
      if cc(a[i]) != 0 {
        var j := SortRunAt(cc, a, i);
        ReorderRun(cc, before, a[..], i, j, Reorder(cc, was));
        i := j;
      }
      done := i;
      if done < a.Length {
        ReorderStarter(cc, a[..], done, Reorder(cc, was));
        done := done + 1;
      }
      i := i + 1;
    }
    assert a[..done] == a[..] && a[done..] == [];
    ReorderNone(cc, a[..], a[done..]);
  }

  lemma ReorderNone(cc: Classes, all: seq<int>, rest: seq<int>)
    requires rest == []
    ensures all + Reorder(cc, rest) == all
  {
  }

  lemma ReorderRun(cc: Classes, before: seq<int>, now: seq<int>, i: nat, j: nat, whole: seq<int>)
    requires i < j <= |before| == |now| && cc(before[i]) != 0 && j - i == RunLength(cc, before[i..])
    requires now[..i] == before[..i] && now[j..] == before[j..] && now[i..j] == SortRun(cc, before[i..j])
    requires before[..i] + Reorder(cc, before[i..]) == whole
    ensures now[..j] + Reorder(cc, now[j..]) == whole && (j < |now| ==> cc(now[j]) == 0)
  {
    hide SortRun, RunLength;
    var s, n := before[i..], j - i;
    assert s[..n] == before[i..j] && s[n..] == before[j..];
    assert s[0] == before[i];
    assert Reorder(cc, s) == SortRun(cc, s[..n]) + Reorder(cc, s[n..]);
    assert now[..j] == now[..i] + now[i..j];
    assert now[..i] + (now[i..j] + Reorder(cc, now[j..])) == now[..j] + Reorder(cc, now[j..]);
    if j < |now| { assert now[j] == now[j..][0] == before[j] == s[n]; }
  }

  lemma ReorderStarter(cc: Classes, now: seq<int>, i: nat, whole: seq<int>)
    requires i < |now| && cc(now[i]) == 0 && now[..i] + Reorder(cc, now[i..]) == whole
    ensures now[..i + 1] + Reorder(cc, now[i + 1..]) == whole
  {
    var s := now[i..];
    assert s[1..] == now[i + 1..] && s[0] == now[i];
    assert now[..i] + ([now[i]] + Reorder(cc, now[i + 1..])) == now[..i + 1] + Reorder(cc, now[i + 1..]);
  }

  // ----- what canonical ordering promises -----

  /** The characters of class `v`, in order. */
  function OfClass(cc: Classes, s: seq<int>, v: nat): seq<int> {
    if s == [] then [] else (if cc(s[0]) == v then [s[0]] else []) + OfClass(cc, s[1..], v)
  }

  lemma {:induction false} OfClassAppend(cc: Classes, x: seq<int>, y: seq<int>, v: nat)
    ensures OfClass(cc, x + y, v) == OfClass(cc, x, v) + OfClass(cc, y, v)
  {
    if x == [] {
      assert x + y == y;
    } else {
      assert (x + y)[0] == x[0] && (x + y)[1..] == x[1..] + y;
      OfClassAppend(cc, x[1..], y, v);
      Associate(if cc(x[0]) == v then [x[0]] else [], OfClass(cc, x[1..], v), OfClass(cc, y, v));
    }
  }

  lemma Associate(x: seq<int>, y: seq<int>, z: seq<int>)
    ensures x + (y + z) == x + y + z
  {
  }

  lemma OfClassOne(cc: Classes, ch: int, v: nat)
    ensures OfClass(cc, [ch], v) == if cc(ch) == v then [ch] else []
  {
    assert OfClass(cc, [ch][1..], v) == [];
  }

  lemma {:induction false} InsertKeeps(cc: Classes, run: seq<int>, ch: int, v: nat)
    ensures OfClass(cc, Insert(cc, run, ch), v) == OfClass(cc, run, v) + OfClass(cc, [ch], v)
    ensures multiset(Insert(cc, run, ch)) == multiset(run) + multiset{ch}
    decreases |run|
  {
    hide OfClass;
    var n := |run|;
    if n == 0 || cc(run[n - 1]) <= cc(ch) {
      OfClassAppend(cc, run, [ch], v);
    } else {
      var front, last := run[..n - 1], run[n - 1];
      InsertKeeps(cc, front, ch, v);
      OfClassAppend(cc, Insert(cc, front, ch), [last], v);
      OfClassAppend(cc, front, [last], v);
      assert run == front + [last];
      OfClassOne(cc, ch, v);
      OfClassOne(cc, last, v);
    }
  }

  lemma {:induction false} SortRunKeeps(cc: Classes, run: seq<int>, v: nat)
    ensures OfClass(cc, SortRun(cc, run), v) == OfClass(cc, run, v)
    ensures multiset(SortRun(cc, run)) == multiset(run)
    decreases |run|
  {
    hide OfClass, Insert;
    var n := |run|;
    if n > 0 {
      SortRunKeeps(cc, run[..n - 1], v);
      InsertKeeps(cc, SortRun(cc, run[..n - 1]), run[n - 1], v);
      OfClassAppend(cc, run[..n - 1], [run[n - 1]], v);
      assert run == run[..n - 1] + [run[n - 1]];
    }
  }

  /** The order within each class is kept, and the result is a permutation. */
  lemma {:induction false} ReorderKeeps(cc: Classes, s: seq<int>, v: nat)
    ensures OfClass(cc, Reorder(cc, s), v) == OfClass(cc, s, v)
    ensures multiset(Reorder(cc, s)) == multiset(s)
    decreases |s|
  {
    hide OfClass, SortRun, RunLength;
    if s != [] {
      if cc(s[0]) == 0 {
        ReorderKeeps(cc, s[1..], v);
        OfClassAppend(cc, [s[0]], Reorder(cc, s[1..]), v);
        OfClassAppend(cc, [s[0]], s[1..], v);
        assert s == [s[0]] + s[1..];
      } else {
        var n := RunLength(cc, s);
        RunNotEmpty(cc, s);
        SortRunKeeps(cc, s[..n], v);
        ReorderKeeps(cc, s[n..], v);
        OfClassAppend(cc, SortRun(cc, s[..n]), Reorder(cc, s[n..]), v);
        OfClassAppend(cc, s[..n], s[n..], v);
        assert s == s[..n] + s[n..];
      }
    }
  }

  lemma RunNotEmpty(cc: Classes, s: seq<int>)
    requires s != [] && cc(s[0]) != 0
    ensures RunLength(cc, s) > 0
  {
  }

  /** No character stands directly behind one of a greater class, unless its own class is 0. */
  ghost predicate InOrder(cc: Classes, s: seq<int>) {
    forall k :: 0 < k < |s| ==> (cc(s[k]) == 0 || cc(s[k - 1]) <= cc(s[k]))
  }

  ghost predicate Marks(cc: Classes, s: seq<int>) { forall k :: 0 <= k < |s| ==> cc(s[k]) != 0 }

  lemma {:induction false} InsertInOrder(cc: Classes, run: seq<int>, ch: int)
    requires Marks(cc, run) && InOrder(cc, run) && cc(ch) != 0
    ensures var r := Insert(cc, run, ch); Marks(cc, r) && InOrder(cc, r)
    ensures var r := Insert(cc, run, ch);
            cc(r[|r| - 1]) == if run != [] && cc(run[|run| - 1]) > cc(ch) then cc(run[|run| - 1]) else cc(ch)
    decreases |run|
  {
    var n := |run|;
    if n > 0 && cc(run[n - 1]) > cc(ch) {
      InsertInOrder(cc, run[..n - 1], ch);
      if n > 1 { assert run[n - 1 - 1] == run[..n - 1][n - 2]; }
    }
  }

  lemma {:induction false} SortRunInOrder(cc: Classes, run: seq<int>)
    requires Marks(cc, run)
    ensures Marks(cc, SortRun(cc, run)) && InOrder(cc, SortRun(cc, run))
    decreases |run|
  {
    hide Insert;
    var n := |run|;
    if n > 0 {
      SortRunInOrder(cc, run[..n - 1]);
      InsertInOrder(cc, SortRun(cc, run[..n - 1]), run[n - 1]);
    }
  }

  /** Characters of class 0 stay in place, the others go to places of others, and the result is in order. */
  lemma {:induction false} ReorderSorts(cc: Classes, s: seq<int>)
    ensures var r := Reorder(cc, s);
            InOrder(cc, r) && forall k :: 0 <= k < |s| ==> if cc(s[k]) == 0 then r[k] == s[k] else cc(r[k]) != 0
    decreases |s|
  {
    hide SortRun, RunLength;
    if s != [] {
      if cc(s[0]) == 0 {
        ReorderSorts(cc, s[1..]);
      } else {
        var n := RunLength(cc, s);
        RunNotEmpty(cc, s);
        SortRunInOrder(cc, s[..n]);
        ReorderSorts(cc, s[n..]);
        OrderedJoin(cc, SortRun(cc, s[..n]), Reorder(cc, s[n..]));
      }
    }
  }

  lemma OrderedJoin(cc: Classes, x: seq<int>, y: seq<int>)
    requires InOrder(cc, x) && InOrder(cc, y) && (y != [] ==> cc(y[0]) == 0)
    ensures InOrder(cc, x + y)
  {
    var z := x + y;
    forall k | 0 < k < |z| ensures (cc(z[k]) == 0 || cc(z[k - 1]) <= cc(z[k])) {
      if k > |x| { assert z[k] == y[k - |x|] && z[k - 1] == y[k - |x| - 1]; }
      if k < |x| { assert z[k] == x[k] && z[k - 1] == x[k - 1]; }
    }
  }

  lemma {:induction false} SortRunFixed(cc: Classes, run: seq<int>)
    requires Marks(cc, run) && InOrder(cc, run)
    ensures SortRun(cc, run) == run
    decreases |run|
  {
    hide Insert;
    var n := |run|;
    if n > 0 {
      SortRunFixed(cc, run[..n - 1]);
      if n > 1 { LastInOrder(cc, run); }
      InsertHere(cc, run[..n - 1], run[n - 1]);
      assert run == run[..n - 1] + [run[n - 1]];
    }
  }

  lemma LastInOrder(cc: Classes, run: seq<int>)
    requires Marks(cc, run) && InOrder(cc, run) && |run| > 1
    ensures cc(run[..|run| - 1][|run| - 2]) <= cc(run[|run| - 1])
  {
    var k := |run| - 1;
    assert cc(run[k]) == 0 || cc(run[k - 1]) <= cc(run[k]);
  }

  lemma {:induction false} InOrderFixed(cc: Classes, s: seq<int>)
    requires InOrder(cc, s)
    ensures Reorder(cc, s) == s
    decreases |s|
  {
    hide SortRun, RunLength, InOrder;
    if s != [] {
      if cc(s[0]) == 0 {
        SuffixInOrder(cc, s, 1);
        InOrderFixed(cc, s[1..]);
        assert s == [s[0]] + s[1..];
      } else {
        var n := RunLength(cc, s);
        RunNotEmpty(cc, s);
        SuffixInOrder(cc, s, n);
        SortRunFixed(cc, s[..n]);
        InOrderFixed(cc, s[n..]);
        assert s == s[..n] + s[n..];
      }
    }
  }

  /** Exactly the texts in order are left as they are, so ordering twice is ordering once. */
  lemma ReorderFixed(cc: Classes, s: seq<int>)
    ensures Reorder(cc, s) == s <==> InOrder(cc, s)
    ensures Reorder(cc, Reorder(cc, s)) == Reorder(cc, s)
  {
    hide Reorder;
    ReorderSorts(cc, s);
    InOrderFixed(cc, Reorder(cc, s));
    if InOrder(cc, s) { InOrderFixed(cc, s); }
  }

  lemma SuffixInOrder(cc: Classes, s: seq<int>, n: nat)
    requires InOrder(cc, s) && n <= |s|
    ensures InOrder(cc, s[..n]) && InOrder(cc, s[n..])
  {
    var t := s[n..];
    forall k | 0 < k < |t| ensures (cc(t[k]) == 0 || cc(t[k - 1]) <= cc(t[k])) {
      assert t[k] == s[n + k] && t[k - 1] == s[n + k - 1];
    }
  }
}
