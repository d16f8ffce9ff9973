/** The code of every pattern is a closed block. */
module Blocks {
  import opened Bytes
  import opened Instructions
  import opened Code
  import opened Pattern
  import opened RangeCode
  import opened Generator
  import opened Correctness
  import opened Linking

  /** The number of intervals fits its field; the compiler checks this. */
  ghost predicate Encodable(r: Re) {
    match r
    case Set(points) => |points| / 2 < 65535
    case Group(a) => Encodable(a)
    case Look(_, _, a) => Encodable(a)
    case Cat(a, b) => Encodable(a) && Encodable(b)
    case Alt(a, b) => Encodable(a) && Encodable(b)
    case Rep(a, _, _, _) => Encodable(a)
    case _ => true
  }

  lemma SetFits(points: seq<int>)
    requires Canonical(points) && |points| / 2 < 65535
    ensures Fits(SetCode(points))
  {
    if |points| >= 2 {
      forall k: nat | 2 * k + 1 < |points|
        ensures 0 <= points[2 * k] < points[2 * k + 1] <= UINT32_MAX
        ensures LastBound(points) <= 0xffff ==> points[2 * k] <= 0xffff && 0 <= High16(points[2 * k + 1]) <= 0xffff
      {
        Increasing(points, 2 * k, 2 * k + 1);
        if LastBound(points) <= 0xffff { Interval16(points, k); }
      }
    }
  }

  lemma AtomClosed(o: Flags, r: Re, back: bool, captures: nat)
    requires IsAtom(r) && WellFormed(r) && Encodable(r)
    ensures Closed(Directed(AtomCode(o, r), back), captures)
  {
    hide Closed, Canonical, SetCode;
    var i := AtomCode(o, r);
    if r.Set? { SetFits(r.points); SetIsCharOp(r.points); SetOrdered(r.points); }
    ClosedOne(i, captures);
    if back {
      ClosedOne(Prev, captures);
      ClosedAppend([Prev], [i], captures);
      ClosedAppend([Prev] + [i], [Prev], captures);
      assert [Prev] + [i] + [Prev] == [Prev, i, Prev];
    }
  }

  lemma SetOrdered(points: seq<int>)
    requires Canonical(points)
    ensures var i := SetCode(points); i.Range? || i.Range32? ==> i.pairs != [] && Ordered(i.pairs)
  {
    hide Ordered;
    if points != [] {
      Pairs32Ordered(points);
      if LastBound(points) <= 0xffff { Pairs16Ordered(points); }
    }
  }

  lemma SetIsCharOp(points: seq<int>)
    ensures IsCharOp(SetCode(points))
  {
  }

  lemma StarSize(b: seq<Instr>, greedy: bool, guarded: bool)
    ensures CodeSize(StarCode(b, greedy, guarded)) == CodeSize(b) + if guarded then 11 else 10
  {
    hide CodeSize;
    if guarded {
      GuardedSize(b, greedy);
    } else {
      var n: int := CodeSize(b);
      SizeHeightOne(Goto(-(n + 10)));
      SizeAppend(b, [Goto(-(n + 10))]);
      SizeHeightCons(Split(greedy, n + 5), b + [Goto(-(n + 10))]);
    }
  }

  lemma ClosedStar(b: seq<Instr>, greedy: bool, guarded: bool, captures: nat)
    requires Closed(b, captures) && Small(StarCode(b, greedy, guarded))
    ensures Closed(StarCode(b, greedy, guarded), captures)
  {
    if guarded { ClosedGuardedStar(b, greedy, captures); } else { ClosedOpenStar(b, greedy, captures); }
  }

  lemma ClosedReset(c: nat, groups: nat, captures: nat)
    requires c + groups <= captures <= 255
    ensures Closed(ResetCode(c, groups), captures)
  {
    hide Closed;
    if groups > 0 { ClosedOne(SaveReset(c, c + groups - 1), captures); } else { ClosedNothing(captures); }
  }

  /** The parts of a quantifier's encoding are no larger than the whole. */
  lemma GeneralSizes(b: seq<Instr>, min: nat, max: nat, greedy: bool, guarded: bool, c: nat, groups: nat)
    requires max > 0
    ensures CodeSize(b) <= CodeSize(GeneralCode(b, min, max, greedy, guarded, c, groups))
    ensures min == 0 ==> CodeSize(SkippableCode(b, max, greedy, guarded)) <= CodeSize(GeneralCode(b, min, max, greedy, guarded, c, groups))
    ensures min > 0 && !(min == 1 && max == INFINITE && !guarded) ==>
              CodeSize(TailCode(b, min, max, greedy, guarded)) <= CodeSize(GeneralCode(b, min, max, greedy, guarded, c, groups))
              && (min > 1 ==> CodeSize(TimesCode(b, min)) <= CodeSize(GeneralCode(b, min, max, greedy, guarded, c, groups)))
  {
    hide CodeSize, StarCode, UptoCode, OnceCode, TimesCode, ResetCode;
    if min == 0 {
      SizeAppend(ResetCode(c, groups), SkippableCode(b, max, greedy, guarded));
      StarSize(b, greedy, guarded);
      UptoSize(b, max, greedy);
      OnceSize(b, greedy);
    } else if min == 1 && max == INFINITE && !guarded {
      SizeAppend(b, [Split(!greedy, -(CodeSize(b) as int + 5))]);
    } else {
      SizeAppend(if min == 1 then b else TimesCode(b, min), TailCode(b, min, max, greedy, guarded));
      TimesSize(b, min);
    }
  }

  lemma OnceSize(b: seq<Instr>, greedy: bool)
    ensures CodeSize(OnceCode(b, greedy)) == CodeSize(b) + 5
  {
    hide CodeSize;
    SizeHeightCons(Split(greedy, CodeSize(b)), b);
  }

  lemma ClosedGeneral(b: seq<Instr>, min: nat, max: nat, greedy: bool, guarded: bool, c: nat, groups: nat, captures: nat)
    requires max > 0 ==> Closed(b, captures)
    requires Small(GeneralCode(b, min, max, greedy, guarded, c, groups)) && min <= max <= INFINITE && c + groups <= captures <= 255
    ensures Closed(GeneralCode(b, min, max, greedy, guarded, c, groups), captures)
  {
    hide Closed, CodeSize, StarCode, UptoCode, OnceCode, TimesCode, ResetCode, PlusCode;
    ClosedNothing(captures);
    if max > 0 { GeneralSizes(b, min, max, greedy, guarded, c, groups); }
    if min == 0 {
      ClosedReset(c, groups, captures);
      ClosedSkippable(b, max, greedy, guarded, captures);
      ClosedAppend(ResetCode(c, groups), SkippableCode(b, max, greedy, guarded), captures);
    } else if min == 1 && max == INFINITE && !guarded {
      ClosedPlus(b, greedy, captures);
    } else {
      if min > 1 { ClosedTimes(b, min, captures); }
      ClosedTail(b, min, max, greedy, guarded, captures);
      ClosedAppend(if min == 1 then b else TimesCode(b, min), TailCode(b, min, max, greedy, guarded), captures);
    }
  }

  lemma ClosedSkippable(b: seq<Instr>, max: nat, greedy: bool, guarded: bool, captures: nat)
    requires max > 0 ==> Closed(b, captures) && Small(SkippableCode(b, max, greedy, guarded))
    requires max <= INFINITE
    ensures Closed(SkippableCode(b, max, greedy, guarded), captures)
  {
    hide Closed, CodeSize, StarCode, UptoCode, OnceCode;
    if max == 0 {
      ClosedNothing(captures);
    } else if max == 1 {
      ClosedOnce(b, greedy, captures);
    } else if max == INFINITE {
      ClosedStar(b, greedy, guarded, captures);
    } else {
      ClosedUpto(b, max, greedy, captures);
    }
  }

  lemma ClosedTail(b: seq<Instr>, min: nat, max: nat, greedy: bool, guarded: bool, captures: nat)
    requires Closed(b, captures) && Small(TailCode(b, min, max, greedy, guarded)) && max <= INFINITE
    ensures Closed(TailCode(b, min, max, greedy, guarded), captures)
  {
    hide Closed, CodeSize, StarCode, UptoCode;
    if max == INFINITE {
      ClosedStar(b, greedy, guarded, captures);
    } else if max > min {
      ClosedUpto(b, max - min, greedy, captures);
    } else {
      ClosedNothing(captures);
    }
  }

  /** The code of a subpattern is no larger than the code of the pattern. */
  lemma SubSizes(a: seq<Instr>, b: seq<Instr>, negative: bool, back: bool, c: nat, min: nat, max: nat)
    ensures CodeSize(a) <= CodeSize(AltCode(a, b)) && CodeSize(b) <= CodeSize(AltCode(a, b))
    ensures CodeSize(a) <= CodeSize(LookCode(negative, a)) && CodeSize(a) <= CodeSize(GroupCode(a, back, c))
    ensures CodeSize(a) <= CodeSize(FastCode(a, min, max))
  {
    hide CodeSize, SimpleCount;
    var i, j := Split(true, CodeSize(a) + 5), Goto(CodeSize(b));
    SizeHeightCons(j, b);
    SizeAppend(a, [j] + b);
    SizeHeightCons(i, a + ([j] + b));
    SizeAppend(a, [Match]);
    SizeHeightCons(Lookahead(negative, CodeSize(a) + 1), a + [Match]);
    SizeHeightCons(SimpleGreedyQuant(CodeSize(a) + 1, min, max, SimpleCount(a)), a + [Match]);
    SizeAppend(a, [Save(!back, c)]);
    SizeHeightCons(Save(back, c), a + [Save(!back, c)]);
  }

  /**
   * The code of a pattern is a closed block: its operands fit their fields, every jump lands on an
   * instruction inside or at the end of the block, and the counter stack is as high after it as before.
   */
  lemma {:induction false} GenClosed(o: Flags, r: Re, back: bool, c: nat, captures: nat)
    requires WellFormed(r) && Encodable(r) && Small(Gen(o, r, back, c)) && c + Groups(r) <= captures <= 255
    ensures Closed(Gen(o, r, back, c), captures)
    decreases r
  {
    hide Gen, Closed, CodeSize, AltCode, LookCode, GroupCode, FastCode, GeneralCode, Directed, AtomCode, SimpleCount, AdvanceScore;
    GenIs(o, r, back, c);
    match r
    case Rep(a, min, max, greedy) =>
      var b := Gen(o, a, back, c);
      var guarded := NeedsGuard(b, greedy);
      SubSizes(b, [], false, false, 0, min, max);
      if max > 0 {
        GeneralSizes(b, min, max, greedy, guarded, c, Groups(a));
        GenClosed(o, a, back, c, captures);
      }
      if UsesFast(b, max, greedy) {
        ClosedFast(b, min, max, captures);
      } else {
        ClosedGeneral(b, min, max, greedy, guarded, c, Groups(a), captures);
      }
    case Cat(a, b) =>
      var x, y := Gen(o, a, back, c), Gen(o, b, back, c + Groups(a));
      SizeAppend(x, y);
      SizeAppend(y, x);
      GenClosed(o, a, back, c, captures);
      GenClosed(o, b, back, c + Groups(a), captures);
      ClosedAppend(x, y, captures);
      ClosedAppend(y, x, captures);
    case Alt(a, b) =>
      var x, y := Gen(o, a, back, c), Gen(o, b, back, c + Groups(a));
      SubSizes(x, y, false, false, 0, 0, 0);
      GenClosed(o, a, back, c, captures);
      GenClosed(o, b, back, c + Groups(a), captures);
      ClosedAlt(x, y, captures);
    case Group(a) =>
      SubSizes(Gen(o, a, back, c + 1), [], false, back, c, 0, 0);
      GenClosed(o, a, back, c + 1, captures);
      ClosedGroup(Gen(o, a, back, c + 1), back, c, captures);
    case Look(negative, behind, a) =>
      SubSizes(Gen(o, a, behind, c), [], negative, false, 0, 0, 0);
      GenClosed(o, a, behind, c, captures);
      ClosedLook(negative, Gen(o, a, behind, c), captures);
    case Empty => ClosedNothing(captures);
    case LineStart => ClosedOne(LineStartOp, captures);
    case LineEnd => ClosedOne(LineEndOp, captures);
    case WordBoundary(neg) => ClosedOne(WordBoundaryOp(neg), captures);
    case BackRef(n) => ClosedOne(BackRefOp(back, n), captures);
    case Chr(_) => AtomClosed(o, r, back, captures);
    case Dot => AtomClosed(o, r, back, captures);
    case Set(_) => AtomClosed(o, r, back, captures);
  }

  // ----- the order of terms -----

  /** The blocks of the terms of an alternative, in the order of the text. */
  ghost function TermBlocks(o: Flags, r: Re, back: bool, c: nat): seq<seq<Instr>>
    decreases r
  {
    match r
    case Cat(a, b) => TermBlocks(o, a, back, c) + [Gen(o, b, back, c + Groups(a))]
    case _ => [Gen(o, r, back, c)]
  }

  function Join(blocks: seq<seq<Instr>>): seq<Instr> {
    if blocks == [] then [] else blocks[0] + Join(blocks[1..])
  }

  function Reversed<T>(s: seq<T>): (r: seq<T>)
    ensures |r| == |s| && forall k :: 0 <= k < |s| ==> r[k] == s[|s| - 1 - k]
  {
    if s == [] then [] else Reversed(s[1..]) + [s[0]]
  }

  lemma {:induction false} JoinLast(blocks: seq<seq<Instr>>, b: seq<Instr>)
    ensures Join(blocks + [b]) == Join(blocks) + b
  {
    if blocks == [] {
      assert Join([b]) == b + Join([]);
    } else {
      assert (blocks + [b])[0] == blocks[0] && (blocks + [b])[1..] == blocks[1..] + [b];
      JoinLast(blocks[1..], b);
    }
  }

  lemma JoinOne(b: seq<Instr>)
    ensures Join([b]) == b && Reversed([b]) == [b]
  {
    assert [b][1..] == [] && b + [] == b;
  }

  lemma JoinReversed(l: seq<seq<Instr>>, b: seq<Instr>)
    ensures Join(Reversed(l + [b])) == b + Join(Reversed(l))
  {
    hide Join;
    assert Reversed(l + [b]) == [b] + Reversed(l);
    JoinFirst(b, Reversed(l));
  }

  lemma JoinFirst(b: seq<Instr>, l: seq<seq<Instr>>)
    ensures Join([b] + l) == b + Join(l)
  {
    assert ([b] + l)[1..] == l;
  }

  lemma GenSequence(o: Flags, a: Re, b: Re, back: bool, c: nat)
    ensures Gen(o, Cat(a, b), back, c) ==
            if back then Gen(o, b, back, c + Groups(a)) + Gen(o, a, back, c) else Gen(o, a, back, c) + Gen(o, b, back, c + Groups(a))
  {
    hide RepCode, AltCode, LookCode, GroupCode, Directed, AtomCode;
  }

  /** Forwards the terms lie in the order of the text; inside a lookbehind exactly in the opposite order. */
  lemma {:induction false} TermOrder(o: Flags, r: Re, c: nat)
    ensures Gen(o, r, false, c) == Join(TermBlocks(o, r, false, c))
    ensures Gen(o, r, true, c) == Join(Reversed(TermBlocks(o, r, true, c)))
    decreases r
  {
    hide Gen, Join, Reversed;
    if r.Cat? {
      TermOrder(o, r.left, c);
      GenSequence(o, r.left, r.right, false, c);
      GenSequence(o, r.left, r.right, true, c);
      JoinLast(TermBlocks(o, r.left, false, c), Gen(o, r.right, false, c + Groups(r.left)));
      JoinReversed(TermBlocks(o, r.left, true, c), Gen(o, r.right, true, c + Groups(r.left)));
    } else {
      JoinOne(Gen(o, r, false, c));
      JoinOne(Gen(o, r, true, c));
    }
  }
}
