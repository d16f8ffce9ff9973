/** The code of every pattern explores exactly the matches of the pattern, in order. */
module Simulate {
  import opened Bytes
  import opened Instructions
  import opened Code
  import opened Text
  import opened Pattern
  import opened Progress
  import opened RangeCode
  import opened Generator
  import opened Machine
  import opened Explore
  import opened Constructs
  import opened Loops

  // ----- patterns that one instruction implements -----

  function Outcome(b: Place, l: seq<St>, base: seq<Choice>): State {
    if l == [] then Failing(base) else b.With(l[0], base)
  }

  /** From a good state the instruction yields at most one state, with the counter stack unchanged. */
  ghost predicate Yields(e: Env, pc: nat, size: nat, f: Matcher) {
    forall st, stack: seq<int>, base ::
      Good(e.x, st) ==>
        |f(st)| <= 1 && Step(e, Place(pc, stack).With(st, base)) == Outcome(Place(pc + size, stack), f(st), base)
  }

  lemma YieldsDoes(e: Env, pc: nat, size: nat, f: Matcher)
    requires Yields(e, pc, size, f)
    ensures Does(e, pc, size, f)
  {
    hide Explores, Step, Reaches, Place.With, Outcome;
    forall stack: seq<int> ensures From(e, Place(pc, stack), f, Place(pc + size, stack)) {
      var a, b := Place(pc, stack), Place(pc + size, stack);
      forall st, base | Good(e.x, st) ensures Explores(e, a.With(st, base), b, f(st), base) {
        ReachesStep(e, a.With(st, base), Outcome(b, f(st), base));
        OutcomeExplores(e, a.With(st, base), b, f(st), base);
      }
    }
  }

  /** The code emitted for a set accepts exactly its members. */
  lemma SetAccepts(o: Flags, points: seq<int>, c: code)
    requires Canonical(points)
    ensures CharAccepts(o, SetCode(points), c) == InSet(points, o.Fold(c))
  {
    hide Accepts16, Accepts32, Pairs16, Pairs32;
    if points != [] {
      if LastBound(points) <= 0xffff { RangeSearch16(points, o.Fold(c)); } else { RangeSearch32(points, o.Fold(c)); }
    }
  }

  lemma AtomAccepts(o: Flags, r: Re, c: code)
    requires IsAtom(r) && (r.Set? ==> Canonical(r.points))
    ensures CharAccepts(o, AtomCode(o, r), c) == Accepts(o, r, c)
  {
    hide InSet, Accepts16, Accepts32, SetCode;
    if r.Set? { SetAccepts(o, r.points, c); }
  }

  lemma AtomForward(e: Env, pc: nat, r: Re)
    requires IsAtom(r) && (r.Set? ==> Canonical(r.points))
    requires Decode(e.bc, pc) == Some(AtomCode(e.o, r))
    ensures Yields(e, pc, Size(AtomCode(e.o, r)), Read(e.x, e.o, r, false))
  {
    hide Decode, CharAccepts, Accepts, AtomCode;
    assert IsCharOp(AtomCode(e.o, r)) by { AtomIsCharOp(e.o, r); }
    forall c: code ensures CharAccepts(e.o, AtomCode(e.o, r), c) == Accepts(e.o, r, c) {
      AtomAccepts(e.o, r, c);
    }
  }

  lemma AtomIsCharOp(o: Flags, r: Re)
    requires IsAtom(r)
    ensures IsCharOp(AtomCode(o, r)) && IsSimple(AtomCode(o, r))
  {
  }

  lemma TestDoes(e: Env, pc: nat, r: Re, i: Instr)
    requires IsTest(r) && Decode(e.bc, pc) == Some(i)
    requires i == match r case LineStart => LineStartOp case LineEnd => LineEndOp case WordBoundary(neg) => WordBoundaryOp(neg)
    ensures Yields(e, pc, 1, Test(e.x, e.o, r))
  {
    hide Decode, AtLineStart, AtLineEnd, AtWordBoundary;
  }

  lemma RecallDoes(e: Env, pc: nat, n: nat, back: bool)
    requires Decode(e.bc, pc) == Some(BackRefOp(back, n))
    ensures Yields(e, pc, 2, Recall(e.x, e.o, n, back))
  {
    hide Decode, FollowBackRef;
  }

  lemma StepSimple(e: Env, pc: nat, i: Instr, stack: seq<int>, st: St, base: seq<Choice>)
    requires IsSimple(i) && Decode(e.bc, pc) == Some(i) && Good(e.x, st)
    ensures Step(e, Place(pc, stack).With(st, base)) ==
            var p := SimpleStep(e, i, st.pos);
            if p < 0 then Failing(base) else Place(pc + Size(i), stack).With(St(p, st.caps), base)
  {
    hide Decode, Size, SimpleStep;
  }

  lemma StepPrev(e: Env, pc: nat, stack: seq<int>, st: St, base: seq<Choice>)
    requires Decode(e.bc, pc) == Some(Prev) && Good(e.x, st)
    ensures Step(e, Place(pc, stack).With(st, base)) ==
            if st.pos == 0 then Failing(base) else Place(pc + 1, stack).With(St(PrevChar(e.x, st.pos), st.caps), base)
  {
    hide Decode, PrevChar;
  }

  /** Stepping back, reading, and stepping back again reads the character before the position. */
  lemma BackwardSteps(e: Env, pc: nat, r: Re, i: Instr, stack: seq<int>, st: St, base: seq<Choice>)
    requires IsAtom(r) && IsSimple(i) && IsCharOp(i) && Good(e.x, st)
    requires forall c: code :: CharAccepts(e.o, i, c) == Accepts(e.o, r, c)
    requires Decode(e.bc, pc) == Some(Prev) && Decode(e.bc, pc + 1) == Some(i) && Decode(e.bc, pc + 1 + Size(i)) == Some(Prev)
    ensures Reaches(e, Place(pc, stack).With(st, base),
                    Outcome(Place(pc + Size(i) + 2, stack), OneChar(e.x, e.o, r, true, st), base))
  {
    hide Decode, CharAccepts, Accepts, Size, Reaches, GetChar, GetPrevChar, PrevChar, Step, Place.With;
    StepPrev(e, pc, stack, st, base);
    var s0 := Place(pc, stack).With(st, base);
    if st.pos == 0 {
      ReachesStep(e, s0, Failing(base));
    } else {
      GetUndoesPrev(e.x, st.pos);
      var p := PrevChar(e.x, st.pos);
      var s1 := Place(pc + 1, stack).With(St(p, st.caps), base);
      ReachesStep(e, s0, s1);
      StepSimple(e, pc + 1, i, stack, St(p, st.caps), base);
      if Accepts(e.o, r, GetPrevChar(e.x, st.pos, 0).0) {
        var s2 := Place(pc + 1 + Size(i), stack).With(st, base);
        ReachesStep(e, s1, s2);
        StepPrev(e, pc + 1 + Size(i), stack, st, base);
        var s3 := Place(pc + Size(i) + 2, stack).With(St(p, st.caps), base);
        ReachesStep(e, s2, s3);
        ReachesTrans(e, s1, s2, s3);
        ReachesTrans(e, s0, s1, s3);
      } else {
        ReachesStep(e, s1, Failing(base));
        ReachesTrans(e, s0, s1, Failing(base));
      }
    }
  }

  lemma AtomBackward(e: Env, pc: nat, r: Re)
    requires IsAtom(r) && (r.Set? ==> Canonical(r.points))
    requires Placed(e.bc, pc, Directed(AtomCode(e.o, r), true))
    ensures Does(e, pc, Size(AtomCode(e.o, r)) + 2, Read(e.x, e.o, r, true))
  {
    hide Explores, Reaches, Decode, Placed, CharAccepts, Accepts, AtomCode, Place.With;
    var i := AtomCode(e.o, r);
    AtomIsCharOp(e.o, r);
    forall c: code ensures CharAccepts(e.o, i, c) == Accepts(e.o, r, c) { AtomAccepts(e.o, r, c); }
    assert [Prev, i, Prev] == [Prev] + ([i] + [Prev]);
    PlacedCons(e.bc, pc, Prev, [i] + [Prev]);
    PlacedCons(e.bc, pc + 1, i, [Prev]);
    PlacedOne(e.bc, pc + 1 + Size(i), Prev);
    forall stack: seq<int> ensures From(e, Place(pc, stack), Read(e.x, e.o, r, true), Place(pc + (Size(i) + 2), stack)) {
      var a, b := Place(pc, stack), Place(pc + (Size(i) + 2), stack);
      forall st, base | Good(e.x, st) ensures Explores(e, a.With(st, base), b, OneChar(e.x, e.o, r, true, st), base) {
        BackwardSteps(e, pc, r, i, stack, st, base);
        OutcomeExplores(e, a.With(st, base), b, OneChar(e.x, e.o, r, true, st), base);
      }
    }
  }

  lemma OutcomeExplores(e: Env, s: State, b: Place, l: seq<St>, base: seq<Choice>)
    requires |l| <= 1 && Reaches(e, s, Outcome(b, l, base))
    ensures Explores(e, s, b, l, base)
  {
    hide Explores, Reaches;
    if l == [] {
      ExploresNone(e, b, base);
    } else {
      assert l == [l[0]];
      ExploresOne(e, b, l[0], base);
    }
    ExploresAfter(e, s, Outcome(b, l, base), b, l, base);
  }

  // ----- groups and lookarounds -----

  function SaveAs(k: nat): Matcher { (st: St) => [St(st.pos, SetCap(st.caps, k, st.pos))] }

  lemma {:induction false} FlatMapSaveAs(k: nat, l: seq<St>)
    ensures FlatMap(SaveAs(k), l) == MapSave(l, k)
  {
    if l != [] { FlatMapSaveAs(k, l[1..]); }
  }

  lemma SaveDoes(e: Env, pc: nat, end: bool, k: nat)
    requires Decode(e.bc, pc) == Some(Save(end, k))
    ensures Does(e, pc, 2, SaveAs(if end then 2 * k + 1 else 2 * k))
  {
    hide Does;
    YieldsSave(e, pc, end, k);
    YieldsDoes(e, pc, 2, SaveAs(if end then 2 * k + 1 else 2 * k));
  }

  lemma YieldsSave(e: Env, pc: nat, end: bool, k: nat)
    requires Decode(e.bc, pc) == Some(Save(end, k))
    ensures Yields(e, pc, 2, SaveAs(if end then 2 * k + 1 else 2 * k))
  {
    hide Decode;
  }

  lemma GroupDoes(e: Env, back: bool, pc: nat, b: seq<Instr>, f: Matcher, c: nat)
    requires Placed(e.bc, pc, GroupCode(b, back, c)) && Does(e, pc + 2, CodeSize(b), f) && Steady(e.x, back, f)
    ensures Does(e, pc, CodeSize(GroupCode(b, back, c)), if back then Captured(f, 2 * c + 1, 2 * c) else Captured(f, 2 * c, 2 * c + 1))
  {
    hide Does, From, Decode, Placed, CodeSize, Steady;
    var n := CodeSize(b);
    PlacedCons(e.bc, pc, Save(back, c), b + [Save(!back, c)]);
    PlacedAppend(e.bc, pc + 2, b, [Save(!back, c)]);
    SizeAppend(b, [Save(!back, c)]);
    PlacedOne(e.bc, pc + 2 + n, Save(!back, c));
    var opens, closes := if back then 2 * c + 1 else 2 * c, if back then 2 * c else 2 * c + 1;
    SaveDoes(e, pc, back, c);
    SaveDoes(e, pc + 2 + n, !back, c);
    SaveAsSteady(e.x, back, opens);
    CatDoes(e, back, pc + 2, n, 2, f, SaveAs(closes));
    CatDoes(e, back, pc, 2, n + 2, SaveAs(opens), Then(f, SaveAs(closes)));
    forall st ensures Then(SaveAs(opens), Then(f, SaveAs(closes)))(st) == Captured(f, opens, closes)(st) {
      var st' := St(st.pos, SetCap(st.caps, opens, st.pos));
      FlatMapSaveAs(closes, f(st'));
      FlatMapOne(Then(f, SaveAs(closes)), st');
    }
    DoesCongruence(e, pc, n + 4, Then(SaveAs(opens), Then(f, SaveAs(closes))), Captured(f, opens, closes));
  }

  lemma FlatMapOne(f: Matcher, st: St)
    ensures FlatMap(f, [st]) == f(st)
  {
  }

  lemma SaveAsSteady(x: Subject, back: bool, k: nat)
    ensures Steady(x, back, SaveAs(k))
  {
  }

  lemma DoesCongruence(e: Env, pc: nat, size: nat, f: Matcher, g: Matcher)
    requires Does(e, pc, size, f)
    requires forall st :: Good(e.x, st) ==> f(st) == g(st)
    ensures Does(e, pc, size, g)
  {
    hide From;
    forall stack: seq<int> ensures From(e, Place(pc, stack), g, Place(pc + size, stack)) {
      FromCongruence(e, Place(pc, stack), f, g, Place(pc + size, stack));
    }
  }

  /** A match unwinds every saved state that is not a lookaround. */
  lemma {:induction false} UnwindPlain(e: Env, caps: seq<int>, saved: seq<Choice>, own: seq<Choice>)
    requires Plain(own)
    ensures Reaches(e, Matched(caps, saved + own), Matched(caps, saved))
  {
    if own == [] {
      assert saved + own == saved;
      ReachesRefl(e, Matched(caps, saved));
    } else {
      var less := own[..|own| - 1];
      assert (saved + own)[..|saved + own| - 1] == saved + less;
      ReachesStep(e, Matched(caps, saved + own), Matched(caps, saved + less));
      UnwindPlain(e, caps, saved, less);
      ReachesTrans(e, Matched(caps, saved + own), Matched(caps, saved + less), Matched(caps, saved));
    }
  }

  /** Code at `pc`: a lookaround, its body of `n` bytes, and `match`. */
  ghost predicate LookBlock(e: Env, pc: nat, n: nat, negative: bool) {
    Decode(e.bc, pc) == Some(Lookahead(negative, n + 1)) && Decode(e.bc, pc + 5 + n) == Some(Match)
  }

  function LookChoice(pc: nat, n: nat, negative: bool, stack: seq<int>, st: St): Choice {
    Choice(if negative then NegativeLookPoint else LookPoint, 0, st.pos, pc + 6 + n, st.caps, stack)
  }

  lemma LookSteps(e: Env, pc: nat, n: nat, negative: bool, stack: seq<int>, st: St, base: seq<Choice>)
    requires LookBlock(e, pc, n, negative) && Good(e.x, st)
    ensures var own := [LookChoice(pc, n, negative, stack, st)];
            && Step(e, Place(pc, stack).With(st, base)) == Place(pc + 5, stack).With(st, base + own)
            && Step(e, Failing(base + own)) == (if negative then Place(pc + 6 + n, stack).With(st, base) else Failing(base))
            && forall caps :: Step(e, Matched(caps, base + own)) ==
                 (if negative then Failing(base) else Place(pc + 6 + n, stack).With(St(st.pos, caps), base))
  {
    hide Decode;
    assert (base + [LookChoice(pc, n, negative, stack, st)])[..|base|] == base;
  }

  lemma MatchStep(e: Env, pc: nat, stack: seq<int>, st: St, base: seq<Choice>)
    requires Decode(e.bc, pc) == Some(Match) && Good(e.x, st)
    ensures Step(e, Place(pc, stack).With(st, base)) == Matched(st.caps, base)
  {
    hide Decode;
  }

  /** A lookaround takes the first result of its body only, and drops every state saved inside it. */
  lemma LookReaches(e: Env, behind: bool, pc: nat, n: nat, negative: bool, f: Matcher, stack: seq<int>, st: St, base: seq<Choice>)
    requires LookBlock(e, pc, n, negative) && Does(e, pc + 5, n, f) && Steady(e.x, behind, f) && Good(e.x, st)
    ensures Reaches(e, Place(pc, stack).With(st, base), Outcome(Place(pc + 6 + n, stack), Peek(f, negative)(st), base))
  {
    hide Decode, Reaches, Step, LookBlock;
    var own := [LookChoice(pc, n, negative, stack, st)];
    var s0, s1, mid := Place(pc, stack).With(st, base), Place(pc + 5, stack).With(st, base + own), Place(pc + 5 + n, stack);
    var last := Outcome(Place(pc + 6 + n, stack), Peek(f, negative)(st), base);
    LookSteps(e, pc, n, negative, stack, st, base);
    ReachesStep(e, s0, s1);
    assert From(e, Place(pc + 5, stack), f, mid);
    assert Explores(e, s1, mid, f(st), base + own);
    if f(st) == [] {
      ReachesStep(e, Failing(base + own), last);
      ReachesTrans(e, s1, Failing(base + own), last);
    } else {
      var caps := f(st)[0].caps;
      assert f(st)[0] in f(st);
      LookSucceeds(e, pc, n, negative, s1, f(st), stack, base + own);
      ReachesStep(e, Matched(caps, base + own), last);
      ReachesTrans(e, s1, Matched(caps, base + own), last);
    }
    ReachesTrans(e, s0, s1, last);
  }

  lemma LookSucceeds(e: Env, pc: nat, n: nat, negative: bool, s: State, l: seq<St>, stack: seq<int>, saved: seq<Choice>)
    requires LookBlock(e, pc, n, negative) && l != [] && Explores(e, s, Place(pc + 5 + n, stack), l, saved)
    requires Good(e.x, l[0])
    ensures Reaches(e, s, Matched(l[0].caps, saved))
  {
    hide Decode, Reaches, Step;
    var mid := Place(pc + 5 + n, stack);
    var own: seq<Choice> :| Plain(own) && Reaches(e, s, mid.With(l[0], saved + own));
    MatchStep(e, pc + 5 + n, stack, l[0], saved + own);
    ReachesStep(e, mid.With(l[0], saved + own), Matched(l[0].caps, saved + own));
    UnwindPlain(e, l[0].caps, saved, own);
    ReachesTrans(e, s, mid.With(l[0], saved + own), Matched(l[0].caps, saved + own));
    ReachesTrans(e, s, Matched(l[0].caps, saved + own), Matched(l[0].caps, saved));
  }

  lemma LookDoes(e: Env, behind: bool, pc: nat, b: seq<Instr>, f: Matcher, negative: bool)
    requires Placed(e.bc, pc, LookCode(negative, b)) && Does(e, pc + 5, CodeSize(b), f) && Steady(e.x, behind, f)
    ensures Does(e, pc, CodeSize(LookCode(negative, b)), Peek(f, negative))
  {
    hide Decode, Placed, CodeSize, Explores, Reaches, Outcome, Steady;
    var n := CodeSize(b);
    PlacedCons(e.bc, pc, Lookahead(negative, n + 1), b + [Match]);
    PlacedAppend(e.bc, pc + 5, b, [Match]);
    SizeAppend(b, [Match]);
    PlacedOne(e.bc, pc + 5 + n, Match);
    forall stack: seq<int> ensures From(e, Place(pc, stack), Peek(f, negative), Place(pc + (n + 6), stack)) {
      var a, z := Place(pc, stack), Place(pc + (n + 6), stack);
      forall st, base | Good(e.x, st) ensures Explores(e, a.With(st, base), z, Peek(f, negative)(st), base) {
        LookReaches(e, behind, pc, n, negative, f, stack, st, base);
        OutcomeExplores(e, a.With(st, base), z, Peek(f, negative)(st), base);
      }
    }
  }
}
