/** Character sets as lists of points: union, intersection, exclusive or and inversion of libunicode. */
module CharSet {
  import opened Pattern
  import opened RangeCode

  datatype SetOp = Union | Inter | Xor

  function Decide(op: SetOp, a: bool, b: bool): bool {
    match op
    case Union => a || b
    case Inter => a && b
    case Xor => a != b
  }

  /** The bounds of a list of intervals in order; intervals may be empty and may touch. */
  ghost predicate Sorted(points: seq<int>) {
    (forall i :: 0 <= i < |points| ==> 0 <= points[i] <= UINT32_MAX) &&
    (forall i, j :: 0 <= i < j < |points| ==> points[i] <= points[j])
  }

  ghost predicate Bounds(points: seq<int>) { |points| % 2 == 0 && Sorted(points) }

  lemma CanonicalBounds(points: seq<int>)
    requires Canonical(points)
    ensures Bounds(points)
  {
    forall i, j | 0 <= i < j < |points| ensures points[i] <= points[j] { Increasing(points, i, j); }
  }

  // ----- canonical form -----

  /** Cancels equal neighbours: the points that occur an odd number of times. */
  function Normal(points: seq<int>): (r: seq<int>)
    ensures |r| <= |points| && (|r| - |points|) % 2 == 0
    decreases |points|
  {
    if |points| < 2 then points
    else if points[0] == points[1] then Normal(points[2..])
    else [points[0]] + Normal(points[1..])
  }

  lemma {:induction false} NormalMember(points: seq<int>, c: int)
    requires Sorted(points)
    ensures InSet(Normal(points), c) == InSet(points, c)
    decreases |points|
  {
    if |points| >= 2 {
      if points[0] == points[1] {
        NormalMember(points[2..], c);
        assert points[1..][1..] == points[2..];
      } else {
        NormalMember(points[1..], c);
        assert ([points[0]] + Normal(points[1..]))[1..] == Normal(points[1..]);
      }
    }
  }

  /** Strictly increasing, from `low` on. */
  ghost predicate Rising(points: seq<int>, low: int) {
    (forall i :: 0 <= i < |points| ==> low <= points[i] <= UINT32_MAX) &&
    (forall i :: 0 < i < |points| ==> points[i - 1] < points[i])
  }

  lemma RisingCons(v: int, rest: seq<int>, low: int)
    requires Rising(rest, v + 1) && low <= v <= UINT32_MAX
    ensures Rising([v] + rest, low)
  {
    var r := [v] + rest;
    forall i | 0 <= i < |r| ensures low <= r[i] <= UINT32_MAX && (i > 0 ==> r[i - 1] < r[i]) {
      if i > 0 { assert r[i] == rest[i - 1]; }
      if i > 1 { assert r[i - 1] == rest[i - 1 - 1]; }
    }
  }

  lemma {:induction false} NormalIncreasing(points: seq<int>, low: int)
    requires Sorted(points) && (points != [] ==> low <= points[0])
    ensures Rising(Normal(points), low)
    decreases |points|
  {
    if |points| >= 2 {
      if points[0] == points[1] {
        NormalIncreasing(points[2..], low);
      } else {
        NormalIncreasing(points[1..], points[0] + 1);
        RisingCons(points[0], Normal(points[1..]), low);
      }
    }
  }

  lemma NormalCanonical(points: seq<int>)
    requires Bounds(points)
    ensures Canonical(Normal(points))
  {
    hide Normal;
    NormalIncreasing(points, 0);
  }

  /** Below its first point a list has no members. */
  lemma {:induction false} MemberAbove(points: seq<int>, c: int)
    requires Sorted(points) && (forall i :: 0 <= i < |points| ==> points[i] <= c)
    ensures InSet(points, c) == (|points| % 2 == 1)
  {
    if points != [] { MemberAbove(points[1..], c); }
  }

  lemma RisingTail(points: seq<int>, low: int)
    requires Rising(points, low) && points != []
    ensures Rising(points[1..], points[0] + 1)
  {
    var t := points[1..];
    forall i | 0 < i < |t| ensures t[i - 1] < t[i] { assert t[i] == points[i + 1] && t[i - 1] == points[i + 1 - 1]; }
    RisingOver(points, low);
  }

  lemma {:induction false} RisingOver(points: seq<int>, low: int)
    requires Rising(points, low) && points != []
    ensures forall i :: 0 < i < |points| ==> points[0] < points[i]
    decreases |points|
  {
    if |points| > 1 {
      var front := points[..|points| - 1];
      RisingOver(front, low);
      assert points[|points| - 1 - 1] < points[|points| - 1];
      assert front[|front| - 1] == points[|points| - 2];
    }
  }

  /** Two strictly increasing lists with the same members are the same list. */
  lemma {:induction false} RisingUnique(p: seq<int>, q: seq<int>, low: int)
    requires Rising(p, low) && Rising(q, low)
    requires forall c :: low <= c <= UINT32_MAX ==> InSet(p, c) == InSet(q, c)
    ensures p == q
    decreases |p|
  {
    if p != [] {
      RisingTail(p, low);
      Starts(p, low);
    }
    if q != [] {
      RisingTail(q, low);
      Starts(q, low);
    }
    if p != [] && q != [] {
      forall c | p[0] + 1 <= c <= UINT32_MAX ensures InSet(p[1..], c) == InSet(q[1..], c) {
        assert InSet(p, c) == InSet(q, c);
      }
      RisingUnique(p[1..], q[1..], p[0] + 1);
    }
  }

  /** The first point is the first member. */
  lemma Starts(points: seq<int>, low: int)
    requires Rising(points, low) && points != []
    ensures low <= points[0] <= UINT32_MAX && InSet(points, points[0])
    ensures forall c :: low <= c < points[0] ==> !InSet(points, c)
  {
    RisingTail(points, low);
    var t := points[1..];
    assert t != [] ==> points[0] < t[0];
  }

  /** A set has exactly one canonical list. */
  lemma CanonicalUnique(p: seq<int>, q: seq<int>)
    requires Canonical(p) && Canonical(q)
    requires forall c :: 0 <= c <= UINT32_MAX ==> InSet(p, c) == InSet(q, c)
    ensures p == q
  {
    hide InSet;
    RisingUnique(p, q, 0);
  }

  // ----- binary operations -----

  /** The next point of the two lists, and the places after it. */
  function Next(a: seq<int>, b: seq<int>, i: nat, j: nat): (r: (int, nat, nat))
    requires i <= |a| && j <= |b| && (i < |a| || j < |b|)
    ensures i <= r.1 <= |a| && j <= r.2 <= |b| && i + j < r.1 + r.2
  {
    if j == |b| || (i < |a| && a[i] < b[j]) then (a[i], i + 1, j)
    else if i == |a| || b[j] < a[i] then (b[j], i, j + 1)
    else (a[i], i + 1, j + 1)
  }

  /** The points where the combination changes, while both lists are walked from `i` and `j` on. */
  function Walk(a: seq<int>, b: seq<int>, i: nat, j: nat, op: SetOp, out: bool): seq<int>
    requires i <= |a| && j <= |b|
    decreases |a| + |b| - i - j
  {
    if i == |a| && j == |b| then []
    else
      var (v, i', j') := Next(a, b, i, j);
      var inside := Decide(op, i' % 2 == 1, j' % 2 == 1);
      if inside != out then [v] + Walk(a, b, i', j', op, inside) else Walk(a, b, i', j', op, out)
  }

  /** What `cr_op` leaves. */
  function Combined(a: seq<int>, b: seq<int>, op: SetOp): seq<int> { Normal(Walk(a, b, 0, 0, op, false)) }

  lemma SortedTail(a: seq<int>, i: nat)
    requires Sorted(a) && i < |a|
    ensures a[i..][1..] == a[i + 1..] && a[i..][0] == a[i]
  {
  }

  lemma InSetFrom(a: seq<int>, i: nat, c: int)
    requires i < |a|
    ensures InSet(a[i..], c) == (c >= a[i] && !InSet(a[i + 1..], c))
  {
    assert a[i..][1..] == a[i + 1..];
  }

  lemma InSetNone(a: seq<int>, i: nat, c: int)
    requires i <= |a| && (i < |a| ==> c < a[i])
    ensures !InSet(a[i..], c)
  {
  }

  lemma InSetCons(v: int, rest: seq<int>, c: int)
    ensures InSet([v] + rest, c) == (c >= v && !InSet(rest, c))
  {
    assert ([v] + rest)[1..] == rest;
  }

  /** A character is inside the walked list just when its status differs from the one at the outset. */
  lemma {:induction false} WalkMember(a: seq<int>, b: seq<int>, i: nat, j: nat, op: SetOp, c: int)
    requires Sorted(a) && Sorted(b) && i <= |a| && j <= |b|
    ensures var out := Decide(op, i % 2 == 1, j % 2 == 1);
            InSet(Walk(a, b, i, j, op, out), c) ==
            (out != Decide(op, (i % 2 == 1) != InSet(a[i..], c), (j % 2 == 1) != InSet(b[j..], c)))
    decreases |a| + |b| - i - j
  {
    hide InSet, Decide, Walk;
    if i == |a| && j == |b| {
      WalkEnds(a, b, op, Decide(op, i % 2 == 1, j % 2 == 1));
      NoneInSet(c);
      assert a[i..] == [] && b[j..] == [];
    } else {
      var (v, i', j') := Next(a, b, i, j);
      var out, inside := Decide(op, i % 2 == 1, j % 2 == 1), Decide(op, i' % 2 == 1, j' % 2 == 1);
      WalkMember(a, b, i', j', op, c);
      InSetCons(v, Walk(a, b, i', j', op, inside), c);
      WalkUnfolds(a, b, i, j, op, out);
      if c < v {
        InSetNone(a, i, c);
        InSetNone(b, j, c);
        InSetNone(a, i', c);
        InSetNone(b, j', c);
      } else {
        if i < |a| { InSetFrom(a, i, c); }
        if j < |b| { InSetFrom(b, j, c); }
      }
    }
  }

  lemma WalkUnfolds(a: seq<int>, b: seq<int>, i: nat, j: nat, op: SetOp, out: bool)
    requires i <= |a| && j <= |b| && (i < |a| || j < |b|)
    ensures var (v, i', j') := Next(a, b, i, j);
            var inside := Decide(op, i' % 2 == 1, j' % 2 == 1);
            var rest := Walk(a, b, i', j', op, inside);
            Walk(a, b, i, j, op, out) == if inside != out then [v] + rest else rest
  {
    hide Next, Decide;
  }

  lemma WalkEnds(a: seq<int>, b: seq<int>, op: SetOp, out: bool)
    ensures Walk(a, b, |a|, |b|, op, out) == []
  {
  }

  lemma NoneInSet(c: int)
    ensures !InSet([], c)
  {
  }

  lemma {:induction false} WalkSorted(a: seq<int>, b: seq<int>, i: nat, j: nat, op: SetOp, out: bool, low: int)
    requires Sorted(a) && Sorted(b) && i <= |a| && j <= |b|
    requires 0 <= low && (i < |a| ==> low <= a[i]) && (j < |b| ==> low <= b[j])
    ensures Sorted(Walk(a, b, i, j, op, out)) && forall k :: 0 <= k < |Walk(a, b, i, j, op, out)| ==> low <= Walk(a, b, i, j, op, out)[k]
    decreases |a| + |b| - i - j
  {
    hide Decide;
    if i < |a| || j < |b| {
      var (v, i', j') := Next(a, b, i, j);
      var inside := Decide(op, i' % 2 == 1, j' % 2 == 1);
      WalkSorted(a, b, i', j', op, inside, v);
    }
  }

  lemma {:induction false} WalkParity(a: seq<int>, b: seq<int>, i: nat, j: nat, op: SetOp, out: bool)
    requires i <= |a| && j <= |b| && out == Decide(op, i % 2 == 1, j % 2 == 1)
    ensures (|Walk(a, b, i, j, op, out)| % 2 == 1) == (out != Decide(op, |a| % 2 == 1, |b| % 2 == 1))
    decreases |a| + |b| - i - j
  {
    if i < |a| || j < |b| {
      var (v, i', j') := Next(a, b, i, j);
      WalkParity(a, b, i', j', op, Decide(op, i' % 2 == 1, j' % 2 == 1));
    }
  }

  lemma WalkBounds(a: seq<int>, b: seq<int>, op: SetOp)
    requires Bounds(a) && Bounds(b)
    ensures Bounds(Walk(a, b, 0, 0, op, false))
  {
    hide Walk;
    WalkSorted(a, b, 0, 0, op, false, 0);
    WalkParity(a, b, 0, 0, op, false);
  }

  /** The result has exactly the members the operation asks for, and is canonical. */
  lemma CombinedMember(a: seq<int>, b: seq<int>, op: SetOp, c: int)
    requires Bounds(a) && Bounds(b)
    ensures Canonical(Combined(a, b, op))
    ensures InSet(Combined(a, b, op), c) == Decide(op, InSet(a, c), InSet(b, c))
  {
    hide InSet, Normal, Walk, Canonical;
    WalkBounds(a, b, op);
    WalkMember(a, b, 0, 0, op, c);
    NormalMember(Walk(a, b, 0, 0, op, false), c);
    NormalCanonical(Walk(a, b, 0, 0, op, false));
    assert a[0..] == a && b[0..] == b;
  }

  // ----- inversion -----

  /** What `cr_invert` leaves. */
  function Inverted(points: seq<int>): seq<int> { Normal([0] + points + [UINT32_MAX]) }

  lemma {:induction false} InSetLast(points: seq<int>, v: int, c: int)
    requires c < v
    ensures InSet(points + [v], c) == InSet(points, c)
  {
    if points != [] {
      assert (points + [v])[1..] == points[1..] + [v];
      InSetLast(points[1..], v, c);
    }
  }

  lemma InvertedMember(points: seq<int>, c: int)
    requires Bounds(points)
    ensures Canonical(Inverted(points))
    ensures 0 <= c < UINT32_MAX ==> InSet(Inverted(points), c) == !InSet(points, c)
    ensures c == UINT32_MAX ==> !InSet(Inverted(points), c) && !InSet(points, c)
  {
    hide InSet, Normal, Canonical;
    var l := [0] + points + [UINT32_MAX];
    assert Bounds(l);
    NormalMember(l, c);
    NormalCanonical(l);
    if c == UINT32_MAX {
      MemberAbove(l, c);
      MemberAbove(points, c);
    } else if 0 <= c < UINT32_MAX {
      InSetLast([0] + points, UINT32_MAX, c);
      InSetCons(0, points, c);
    }
  }

  /** Inverting twice gives the same list back, for every canonical list. */
  lemma InvertInvolution(points: seq<int>)
    requires Canonical(points)
    ensures Inverted(Inverted(points)) == points
  {
    hide InSet, Inverted, Canonical;
    CanonicalBounds(points);
    InvertedMember(points, 0);
    CanonicalBounds(Inverted(points));
    InvertedMember(Inverted(points), 0);
    forall c | 0 <= c <= UINT32_MAX ensures InSet(Inverted(Inverted(points)), c) == InSet(points, c) {
      InvertedMember(points, c);
      InvertedMember(Inverted(points), c);
    }
    CanonicalUnique(Inverted(Inverted(points)), points);
  }

  /** De Morgan's laws hold as equalities of lists. */
  lemma DeMorgan(a: seq<int>, b: seq<int>)
    requires Bounds(a) && Bounds(b)
    ensures Inverted(Combined(a, b, Union)) == Combined(Inverted(a), Inverted(b), Inter)
    ensures Inverted(Combined(a, b, Inter)) == Combined(Inverted(a), Inverted(b), Union)
  {
    InvertedOp(a, b, Union, Inter);
    InvertedOp(a, b, Inter, Union);
  }

  lemma InvertedOp(a: seq<int>, b: seq<int>, op: SetOp, dual: SetOp)
    requires Bounds(a) && Bounds(b) && ((op == Union && dual == Inter) || (op == Inter && dual == Union))
    ensures Inverted(Combined(a, b, op)) == Combined(Inverted(a), Inverted(b), dual)
  {
    hide InSet, Inverted, Canonical, Combined, Bounds;
    var u := Combined(a, b, op);
    InvertedMember(a, 0);
    InvertedMember(b, 0);
    CombinedMember(a, b, op, 0);
    CanonicalBounds(Inverted(a));
    CanonicalBounds(Inverted(b));
    CanonicalBounds(u);
    InvertedMember(u, 0);
    CombinedMember(Inverted(a), Inverted(b), dual, 0);
    forall c | 0 <= c <= UINT32_MAX ensures InSet(Inverted(u), c) == InSet(Combined(Inverted(a), Inverted(b), dual), c) {
      InvertedMember(a, c);
      InvertedMember(b, c);
      InvertedMember(u, c);
      CombinedMember(a, b, op, c);
      CombinedMember(Inverted(a), Inverted(b), dual, c);
    }
    CanonicalUnique(Inverted(u), Combined(Inverted(a), Inverted(b), dual));
  }

  /** The exclusive or is the union without the intersection. */
  lemma XorByOthers(a: seq<int>, b: seq<int>)
    requires Bounds(a) && Bounds(b)
    ensures Combined(a, b, Xor) == Combined(Combined(a, b, Union), Inverted(Combined(a, b, Inter)), Inter)
  {
    hide InSet, Inverted, Canonical, Combined, Bounds;
    var u, n := Combined(a, b, Union), Combined(a, b, Inter);
    CombinedMember(a, b, Union, 0);
    CombinedMember(a, b, Inter, 0);
    CombinedMember(a, b, Xor, 0);
    CanonicalBounds(u);
    CanonicalBounds(n);
    InvertedMember(n, 0);
    CanonicalBounds(Inverted(n));
    CombinedMember(u, Inverted(n), Inter, 0);
    forall c | 0 <= c <= UINT32_MAX ensures InSet(Combined(a, b, Xor), c) == InSet(Combined(u, Inverted(n), Inter), c) {
      CombinedMember(a, b, Union, c);
      CombinedMember(a, b, Inter, c);
      CombinedMember(a, b, Xor, c);
      InvertedMember(a, c);
      InvertedMember(b, c);
      InvertedMember(n, c);
      CombinedMember(u, Inverted(n), Inter, c);
    }
    CanonicalUnique(Combined(a, b, Xor), Combined(u, Inverted(n), Inter));
  }
}
