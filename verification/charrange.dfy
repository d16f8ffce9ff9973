/** The `CharRange` buffer of libunicode and the operations that rewrite it in place. */
module CharRanges {
  import opened Pattern
  import opened RangeCode
  import opened CharSet

  class CharRange {
    var points: array<int>
    var len: nat

    ghost predicate Valid()
      reads this
    {
      len <= points.Length
    }

    function Points(): (s: seq<int>)
      requires Valid()
      reads this, points
      ensures |s| == len
    {
      points[..len]
    }

    /** The range still owns its old array or has a new one. */
    twostate predicate Owned()
      reads this
    {
      Valid() && (points == old(points) || fresh(points))
    }

    /** `cr_init`. */
    constructor ()
      ensures Valid() && fresh(points) && Points() == []
    {
      points := new int[0];
      len := 0;
    }

    /** `cr_realloc`. */
    method Reserve(size: nat)
      requires Valid()
      modifies this
      ensures Owned() && points.Length >= size && len == old(len) && Points() == old(Points())
    {
      if size > points.Length {
        var grown := points.Length * 3 / 2;
        var room := new int[if size > grown then size else grown];
        forall i | 0 <= i < len {
          room[i] := points[i];
        }
        points := room;
      }
    }

    /** `cr_add_point`. */
    method AddPoint(v: int)
      requires Valid()
      modifies this, points
      ensures Owned() && Points() == old(Points()) + [v]
    {
      if len >= points.Length {
        Reserve(len + 1);
      }
      points[len] := v;
      len := len + 1;
    }

    /** `cr_add_interval`. */
    method AddInterval(c1: int, c2: int)
      requires Valid()
      modifies this, points
      ensures Owned() && Points() == old(Points()) + [c1, c2]
    {
      if len + 2 > points.Length {
        Reserve(len + 2);
      }
      points[len] := c1;
      len := len + 1;
      points[len] := c2;
      len := len + 1;
    }

    /** `cr_copy`. */
    method Copy(other: CharRange)
      requires Valid() && other.Valid() && other != this && other.points != points
      modifies this, points
      ensures Owned() && Points() == other.Points() == old(other.Points())
    {
      Reserve(other.len);
      forall i | 0 <= i < other.len {
        points[i] := other.points[i];
      }
      len := other.len;
    }

    /** The last interval of those that touch one another from place `i` on. */
    method TouchingEnd(i: nat) returns (j: nat)
      requires Valid() && len % 2 == i % 2 == 0 && i + 1 < len
      ensures i <= j && j + 1 < len && j % 2 == 0
      ensures Normal(Points()[i + 1..]) == [points[j + 1]] + Normal(Points()[j + 2..])
    {
      hide Normal;
      ghost var s := Points();
      j := i;
      while j + 3 < len && points[j + 1] == points[j + 2]
        invariant i <= j && j + 1 < len && j % 2 == 0
        invariant Normal(s[i + 1..]) == Normal(s[j + 1..])
      {
        NormalEmpty(s, j + 1);
        j := j + 2;
      }
      NormalCloses(s, j + 1);
    }

    /** Copies two points to the front. */
    method KeepInterval(k: nat, first: int, last: int)
      requires Valid() && k + 2 <= len
      modifies points
      ensures Points() == old(Points())[..k] + [first, last] + old(Points())[k + 2..]
    {
      points[k] := first;
      points[k + 1] := last;
    }

    /** `cr_compress`: merges touching intervals and drops empty ones, in place. */
    method Compress()
      requires Valid() && len % 2 == 0
      modifies this`len, points
      ensures Valid() && points == old(points) && Points() == Normal(old(Points()))
    {
      hide Normal, Merging;
      ghost var was := Points();
      var i, k := 0, 0;
      MergingStart(was);
      while i + 1 < len
        invariant Valid() && points == old(points) && len == |was| && i % 2 == 0 && k <= i <= len
        invariant Merging(Points(), was, k, i)
        decreases len - i
        modifies points
      {
        ghost var before := Points();
        if points[i] == points[i + 1] {
          MergingSkip(before, was, k, i);
          i := i + 2;
        } else {
          var j := TouchingEnd(i);
          KeepInterval(k, points[i], points[j + 1]);
          MergingKeep(before, Points(), was, k, i, j);
          k := k + 2;
          i := j + 2;
        }
      }
      MergingEnd(Points(), was, k, i);
      len := k;
    }

    /** `cr_op`: appends the points where the combination of `a` and `b` changes, and compresses the whole. */
    method Op(a: seq<int>, b: seq<int>, op: SetOp)
      requires Valid() && len % 2 == |a| % 2 == |b| % 2 == 0
      modifies this, points
      ensures Owned() && Points() == Normal(old(Points()) + Walk(a, b, 0, 0, op, false))
      ensures old(len) == 0 ==> Points() == Combined(a, b, op)
    {
      hide Normal;
      ghost var was := Points();
      var aIdx, bIdx := 0, 0;
      ghost var out := false;
      while aIdx < |a| || bIdx < |b|
        invariant Owned() && aIdx <= |a| && bIdx <= |b|
        invariant out == (len % 2 == 1) == Decide(op, aIdx % 2 == 1, bIdx % 2 == 1)
        invariant Points() + Walk(a, b, aIdx, bIdx, op, out) == was + Walk(a, b, 0, 0, op, false)
        decreases |a| - aIdx, |b| - bIdx
      {
        ghost var i, j, before := aIdx, bIdx, Points();
        var v: int;
        if aIdx < |a| && bIdx < |b| {
          if a[aIdx] < b[bIdx] {
            v, aIdx := a[aIdx], aIdx + 1;
          } else if a[aIdx] == b[bIdx] {
            v, aIdx, bIdx := a[aIdx], aIdx + 1, bIdx + 1;
          } else {
            v, bIdx := b[bIdx], bIdx + 1;
          }
        } else if aIdx < |a| {
          v, aIdx := a[aIdx], aIdx + 1;
        } else {
          v, bIdx := b[bIdx], bIdx + 1;
        }
        assert Next(a, b, i, j) == (v, aIdx, bIdx);
        var isIn := Decide(op, aIdx % 2 == 1, bIdx % 2 == 1);
        WalkStep(a, b, i, j, op, out, before);
        if isIn != (len % 2 == 1) {
          AddPoint(v);
          out := isIn;
        }
      }
      assert Walk(a, b, aIdx, bIdx, op, out) == [];
      assert Points() + [] == Points();
      assert [] + Walk(a, b, 0, 0, op, false) == Walk(a, b, 0, 0, op, false);
      Compress();
    }

    /** `cr_union1`: the union of the range itself and `b`, built in a new array. */
    method Union1(b: seq<int>)
      requires Valid() && len % 2 == |b| % 2 == 0
      modifies this, points
      ensures Valid() && fresh(points) && Points() == Combined(old(Points()), b, Union)
    {
      var a := points[..len];
      points, len := new int[0], 0;
      Op(a, b, Union);
    }

    /**
     * `cr_union_interval`: adds the characters from `c1` to `c2`. The end of the interval is kept in 32 bits, so
     * for the greatest number it becomes 0.
     */
    method UnionInterval(c1: int, c2: int)
      requires Valid() && Bounds(Points()) && 0 <= c1 <= c2 <= UINT32_MAX
      modifies this, points
      ensures Valid() && fresh(points) && Points() == Combined(old(Points()), [c1, IntervalEnd(c2)], Union)
      ensures c2 < UINT32_MAX ==> Canonical(Points()) && forall c :: InSet(Points(), c) == (InSet(old(Points()), c) || c1 <= c <= c2)
    {
      hide Combined, Canonical;
      ghost var was := Points();
      Union1([c1, IntervalEnd(c2)]);
      if c2 < UINT32_MAX {
        forall c ensures InSet(Points(), c) == (InSet(was, c) || c1 <= c <= c2) {
          CombinedMember(was, [c1, c2 + 1], Union, c);
          IntervalMember(c1, c2, c);
        }
        CombinedMember(was, [c1, c2 + 1], Union, 0);
      }
    }

    /** `cr_invert`: the complement in `[0, UINT32_MAX)`, in place. */
    method Invert()
      requires Valid() && len % 2 == 0
      modifies this, points
      ensures Owned() && Points() == Inverted(old(Points()))
    {
      hide Normal;
      Reserve(len + 2);
      Enclose();
      Compress();
    }

    /** Puts a point before and a point after all others. */
    method Enclose()
      requires Valid() && len + 2 <= points.Length
      modifies this`len, points
      ensures Valid() && points == old(points) && Points() == [0] + old(Points()) + [UINT32_MAX]
    {
      ghost var was := Points();
      MoveUp();
      points[0] := 0;
      points[len + 1] := UINT32_MAX;
      len := len + 2;
      assert points[1..len - 1] == was;
      Enclosed(Points(), was);
    }

    /** Moves all points one place up. */
    method MoveUp()
      requires Valid() && len < points.Length
      modifies points
      ensures points[1..len + 1] == old(Points())
    {
      ghost var was := Points();
      var i := len;
      while i > 0
        invariant 0 <= i <= len
        invariant forall k :: 0 <= k < i ==> points[k] == was[k]
        invariant forall k :: i < k <= len ==> points[k] == was[k - 1]
      {
        points[i] := points[i - 1];
        i := i - 1;
      }
    }
  }

  lemma Enclosed(s: seq<int>, was: seq<int>)
    requires |s| == |was| + 2 && s[0] == 0 && s[1..|s| - 1] == was && s[|s| - 1] == UINT32_MAX
    ensures s == [0] + was + [UINT32_MAX]
  {
  }

  /** The point behind an interval, in 32 bits. */
  function IntervalEnd(c2: int): int { (c2 + 1) % 0x1_0000_0000 }

  /** An interval up to the greatest number adds nothing at all to an empty range. */
  lemma GreatestEndLost(c1: int, c: int)
    requires 0 <= c1 <= UINT32_MAX && 0 <= c
    ensures !InSet(Combined([], [c1, IntervalEnd(UINT32_MAX)], Union), c)
  {
    var b := [c1, 0];
    assert Walk([], b, 0, 2, Union, false) == [];
    assert Walk([], b, 0, 1, Union, true) == [0];
    assert Walk([], b, 0, 0, Union, false) == b;
    assert b[1..] == [0] && b[2..] == [] && Normal([0]) == [0];
    assert Normal(b) == if c1 == 0 then [] else b;
    InSetCons(c1, [0], c);
    InSetCons(0, [], c);
    assert [c1] + [0] == b && [0] + [] == [0];
  }

  lemma IntervalMember(c1: int, c2: int, c: int)
    requires c1 <= c2
    ensures InSet([c1, c2 + 1], c) == (c1 <= c <= c2)
  {
    InSetCons(c1, [c2 + 1], c);
    InSetCons(c2 + 1, [], c);
    assert [c1] + [c2 + 1] == [c1, c2 + 1] && [c2 + 1] + [] == [c2 + 1];
  }

  lemma WalkStep(a: seq<int>, b: seq<int>, i: nat, j: nat, op: SetOp, out: bool, front: seq<int>)
    requires i <= |a| && j <= |b| && (i < |a| || j < |b|)
    ensures var (v, i', j') := Next(a, b, i, j);
            var inside := Decide(op, i' % 2 == 1, j' % 2 == 1);
            front + Walk(a, b, i, j, op, out) ==
            (if inside != out then front + [v] else front) + Walk(a, b, i', j', op, inside)
  {
    hide Next, Decide;
    var (v, i', j') := Next(a, b, i, j);
    var inside := Decide(op, i' % 2 == 1, j' % 2 == 1);
    if inside != out { assert front + ([v] + Walk(a, b, i', j', op, inside)) == front + [v] + Walk(a, b, i', j', op, inside); }
  }

  /** The first `k` points are done, those from `i` on still have to be merged. */
  ghost predicate Merging(now: seq<int>, was: seq<int>, k: nat, i: nat) {
    k <= i <= |now| == |was| && now[i..] == was[i..] && now[..k] + Normal(was[i..]) == Normal(was)
  }

  lemma MergingStart(s: seq<int>)
    ensures Merging(s, s, 0, 0)
  {
    hide Normal;
    assert s[0..] == s && s[..0] + Normal(s) == Normal(s);
  }

  lemma MergingEnd(now: seq<int>, was: seq<int>, k: nat, i: nat)
    requires Merging(now, was, k, i) && i + 1 >= |was| && |was| % 2 == i % 2
    ensures now[..k] == Normal(was)
  {
    assert was[i..] == [];
    assert now[..k] + [] == now[..k];
  }

  lemma MergingSkip(now: seq<int>, was: seq<int>, k: nat, i: nat)
    requires Merging(now, was, k, i) && i + 1 < |was| && now[i] == now[i + 1]
    ensures Merging(now, was, k, i + 2)
  {
    hide Normal;
    SuffixOf(now, was, i, i + 1);
    SuffixOf(now, was, i, i + 2);
    NormalEmpty(was, i);
  }

  /** One merged interval has moved to the front. */
  lemma MergingKeep(before: seq<int>, now: seq<int>, was: seq<int>, k: nat, i: nat, j: nat)
    requires Merging(before, was, k, i) && i <= j && j + 1 < |was| && before[i] != before[i + 1]
    requires now == before[..k] + [before[i], before[j + 1]] + before[k + 2..]
    requires Normal(before[i + 1..]) == [before[j + 1]] + Normal(before[j + 2..])
    ensures Merging(now, was, k + 2, j + 2)
  {
    hide Normal;
    SuffixOf(before, was, i, i + 1);
    SuffixOf(before, was, i, j + 2);
    NormalOpens(was, i);
    Joined(before[..k], before[i], before[j + 1], Normal(was[j + 2..]));
    assert now[..k + 2] == before[..k] + [before[i], before[j + 1]];
    assert now[j + 2..] == before[j + 2..];
  }

  lemma SuffixOf(x: seq<int>, y: seq<int>, i: nat, j: nat)
    requires i <= j <= |x| == |y| && x[i..] == y[i..]
    ensures x[j..] == y[j..] && (i < |x| ==> x[i] == y[i]) && (j < |x| ==> x[j] == y[j])
  {
    assert x[i..][j - i..] == x[j..] && y[i..][j - i..] == y[j..];
    assert i < |x| ==> x[i..][0] == y[i..][0];
    assert j < |x| ==> x[i..][j - i] == y[i..][j - i];
  }

  lemma Joined(front: seq<int>, x: int, y: int, rest: seq<int>)
    ensures front + [x, y] + rest == front + ([x] + ([y] + rest))
  {
  }

  lemma NormalEmpty(s: seq<int>, i: nat)
    requires i + 1 < |s| && s[i] == s[i + 1]
    ensures Normal(s[i..]) == Normal(s[i + 2..])
  {
    assert s[i..][2..] == s[i + 2..];
  }

  lemma NormalOpens(s: seq<int>, i: nat)
    requires i + 1 < |s| && s[i] != s[i + 1]
    ensures Normal(s[i..]) == [s[i]] + Normal(s[i + 1..])
  {
    assert s[i..][1..] == s[i + 1..];
  }

  lemma NormalCloses(s: seq<int>, i: nat)
    requires i < |s| && (i + 1 < |s| ==> s[i] != s[i + 1])
    ensures Normal(s[i..]) == [s[i]] + Normal(s[i + 1..])
  {
    assert s[i..][1..] == s[i + 1..];
    if i + 1 == |s| { assert s[i..] == [s[i]]; }
  }
}
