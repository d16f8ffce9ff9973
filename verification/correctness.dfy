/** Compiler correctness: the code of a pattern explores exactly its matches, best first. */
module Correctness {
  import opened Instructions
  import opened Code
  import opened Text
  import opened Pattern
  import opened Progress
  import opened RangeCode
  import opened Generator
  import opened Machine
  import opened Explore
  import opened Constructs
  import opened Loops
  import opened Simulate
  import opened Repetition
  import opened FastQuantifier

  /** What the parser guarantees: canonical character sets, numbers of captures, repetition counts in order. */
  ghost predicate WellFormed(r: Re) {
    match r
    case Set(points) => Canonical(points)
    case BackRef(n) => n < 255
    case Group(a) => WellFormed(a)
    case Look(_, _, a) => WellFormed(a)
    case Cat(a, b) => WellFormed(a) && WellFormed(b)
    case Alt(a, b) => WellFormed(a) && WellFormed(b)
    case Rep(a, min, max, _) => WellFormed(a) && min <= max <= INFINITE
    case _ => true
  }

  /**
   * Every unbounded repetition ends: its body always consumes a character, or it is greedy and the
   * body does not refer back to a capture of its own, so that the compiler adds its guard.
   */
  ghost predicate Terminating(o: Flags, r: Re, back: bool, c: nat)
    decreases r
  {
    match r
    case Group(a) => Terminating(o, a, back, c + 1)
    case Look(_, behind, a) => Terminating(o, a, behind, c)
    case Cat(a, b) => Terminating(o, a, back, c) && Terminating(o, b, back, c + Groups(a))
    case Alt(a, b) => Terminating(o, a, back, c) && Terminating(o, b, back, c + Groups(a))
    case Rep(a, _, max, greedy) =>
      Terminating(o, a, back, c) &&
      (max == INFINITE ==> MustAdvance(a) || (greedy && !SelfReferring(Gen(o, a, back, c))))
    case _ => true
  }

  // ----- the advance check is sound -----

  lemma EffectCons(i: Instr, rest: seq<Instr>)
    ensures FirstEffect([i] + rest) == if IsCharOp(i) then Advances else if IsNeutral(i) then FirstEffect(rest) else MayStay
  {
    assert ([i] + rest)[1..] == rest;
  }

  lemma EffectOfOptional(b: seq<Instr>, k: nat, greedy: bool, guarded: bool)
    ensures FirstEffect(StarCode(b, greedy, guarded)) == MayStay
    ensures FirstEffect(UptoCode(b, k, greedy)) == MayStay
    ensures FirstEffect(OnceCode(b, greedy)) == MayStay
    ensures FirstEffect(TimesCode(b, k)) == if FirstEffect(b) == Unknown then MayStay else FirstEffect(b)
  {
    hide FirstEffect, CodeSize;
    var n: int := CodeSize(b);
    EffectCons(Split(greedy, n + 6), [PushCharPos] + (b + [BneCharPos(-(n + 11))]));
    EffectCons(Split(greedy, n + 5), b + [Goto(-(n + 10))]);
    EffectCons(PushI32(k), [Split(greedy, n + 5)] + (b + ([Loop(-(n + 10))] + [Drop])));
    EffectCons(Split(greedy, n + 5), b + ([Loop(-(n + 10))] + [Drop]));
    EffectCons(Split(greedy, n), b);
    EffectCons(PushI32(k), b + ([Loop(-(n + 5))] + [Drop]));
    FirstEffectAppend(b, [Loop(-(n + 5))] + [Drop]);
    EffectCons(Loop(-(n + 5)), [Drop]);
  }

  lemma EffectOfReset(c: nat, groups: nat)
    ensures FirstEffect(ResetCode(c, groups)) == Unknown
  {
  }

  lemma EffectOfGeneral(b: seq<Instr>, min: nat, max: nat, greedy: bool, guarded: bool, c: nat, groups: nat)
    ensures FirstEffect(GeneralCode(b, min, max, greedy, guarded, c, groups)) == Advances ==> min > 0 && FirstEffect(b) == Advances
  {
    hide FirstEffect, CodeSize, StarCode, UptoCode, OnceCode, TimesCode, ResetCode;
    assert FirstEffect([]) == Unknown by { EffectOfNothing(); }
    EffectOfReset(c, groups);
    EffectOfOptional(b, max, greedy, guarded);
    FirstEffectAppend(ResetCode(c, groups), SkippableCode(b, max, greedy, guarded));
    if min > 0 {
      EffectOfOptional(b, min, greedy, guarded);
      if max > min { EffectOfOptional(b, max - min, greedy, guarded); }
      FirstEffectAppend(if min == 1 then b else TimesCode(b, min), TailCode(b, min, max, greedy, guarded));
      var s := Split(!greedy, -(CodeSize(b) as int + 5));
      FirstEffectAppend(b, [s]);
      EffectCons(s, []);
      assert [s] + [] == [s];
    }
  }

  lemma EffectOfNothing()
    ensures FirstEffect([]) == Unknown
  {
  }

  /** If the first opcode that matters reads a character, every match of the pattern moves. */
  lemma {:induction false} AdvanceSound(o: Flags, r: Re, back: bool, c: nat)
    requires FirstEffect(Gen(o, r, back, c)) == Advances
    ensures MustAdvance(r)
    decreases r
  {
    hide FirstEffect, AltCode, LookCode, GroupCode, FastCode, GeneralCode, Directed, SetCode, CodeSize, SimpleCount, AdvanceScore;
    match r
    case Group(a) =>
      EffectOfGroup(Gen(o, a, back, c + 1), back, c);
      AdvanceSound(o, a, back, c + 1);
    case Cat(a, b) =>
      var x, y := Gen(o, a, back, c), Gen(o, b, back, c + Groups(a));
      FirstEffectAppend(x, y);
      FirstEffectAppend(y, x);
      if FirstEffect(x) == Advances { AdvanceSound(o, a, back, c); } else { AdvanceSound(o, b, back, c + Groups(a)); }
    case Rep(a, min, max, greedy) =>
      var b := Gen(o, a, back, c);
      EffectOfFast(b, min, max);
      EffectOfGeneral(b, min, max, greedy, NeedsGuard(b, greedy), c, Groups(a));
      AdvanceSound(o, a, back, c);
    case Alt(a, b) => EffectOfBranch(Gen(o, a, back, c), Gen(o, b, back, c + Groups(a)));
    case Look(negative, behind, a) => EffectOfLook(negative, Gen(o, a, behind, c));
    case Empty => EffectOfNothing();
    case LineStart => EffectOfTest(LineStartOp);
    case LineEnd => EffectOfTest(LineEndOp);
    case WordBoundary(neg) => EffectOfTest(WordBoundaryOp(neg));
    case BackRef(n) => EffectOfTest(BackRefOp(back, n));
    case _ =>
  }

  lemma EffectOfGroup(b: seq<Instr>, back: bool, c: nat)
    ensures FirstEffect(GroupCode(b, back, c)) == FirstEffect(b)
  {
    hide FirstEffect;
    EffectCons(Save(back, c), b + [Save(!back, c)]);
    FirstEffectAppend(b, [Save(!back, c)]);
    EffectOfTest(Save(!back, c));
  }

  lemma EffectOfTest(i: Instr)
    requires IsNeutral(i)
    ensures FirstEffect([i]) == Unknown
  {
  }

  lemma EffectOfFast(b: seq<Instr>, min: nat, max: nat)
    ensures FirstEffect(FastCode(b, min, max)) == MayStay
  {
    hide SimpleCount, CodeSize;
    EffectCons(SimpleGreedyQuant(CodeSize(b) + 1, min, max, SimpleCount(b)), b + [Match]);
  }

  lemma EffectOfBranch(a: seq<Instr>, b: seq<Instr>)
    ensures FirstEffect(AltCode(a, b)) == MayStay
  {
    hide CodeSize;
    EffectCons(Split(true, CodeSize(a) + 5), a + ([Goto(CodeSize(b))] + b));
  }

  lemma EffectOfLook(negative: bool, b: seq<Instr>)
    ensures FirstEffect(LookCode(negative, b)) == MayStay
  {
    hide CodeSize;
    EffectCons(Lookahead(negative, CodeSize(b) + 1), b + [Match]);
  }

  // ----- straight-line patterns -----

  lemma CountCons(i: Instr, rest: seq<Instr>)
    ensures SimpleCount([i] + rest) >= 0 ==> IsSimple(i) && SimpleCount(rest) >= 0
  {
    assert ([i] + rest)[1..] == rest;
  }

  lemma CountOfOptional(b: seq<Instr>, k: nat, greedy: bool, guarded: bool)
    ensures SimpleCount(StarCode(b, greedy, guarded)) < 0 && SimpleCount(UptoCode(b, k, greedy)) < 0
    ensures SimpleCount(OnceCode(b, greedy)) < 0 && SimpleCount(TimesCode(b, k)) < 0
  {
    hide SimpleCount, CodeSize;
    var n: int := CodeSize(b);
    CountCons(Split(greedy, n + 6), [PushCharPos] + (b + [BneCharPos(-(n + 11))]));
    CountCons(Split(greedy, n + 5), b + [Goto(-(n + 10))]);
    CountCons(PushI32(k), [Split(greedy, n + 5)] + (b + ([Loop(-(n + 10))] + [Drop])));
    CountCons(Split(greedy, n), b);
    CountCons(PushI32(k), b + ([Loop(-(n + 5))] + [Drop]));
  }

  lemma CountOfReset(c: nat, groups: nat)
    ensures SimpleCount(ResetCode(c, groups)) >= 0 <==> groups == 0
  {
    if groups > 0 { CountCons(SaveReset(c, c + groups - 1), []); }
  }

  lemma CountOfNothing()
    ensures SimpleCount([]) == 0
  {
  }

  /** Among the encodings of a quantifier only `{0}` without captures and `{1}` are straight-line code. */
  lemma CountOfGeneral(b: seq<Instr>, min: nat, max: nat, greedy: bool, guarded: bool, c: nat, groups: nat)
    requires min <= max && SimpleCount(GeneralCode(b, min, max, greedy, guarded, c, groups)) >= 0
    ensures (max == 0 && groups == 0) || (min == 1 && max == 1 && SimpleCount(b) >= 0)
    ensures max == 0 && groups == 0 ==> GeneralCode(b, min, max, greedy, guarded, c, groups) == []
    ensures min == 1 && max == 1 ==> GeneralCode(b, min, max, greedy, guarded, c, groups) == b
  {
    hide SimpleCount, CodeSize, StarCode, UptoCode, OnceCode, TimesCode;
    CountOfNothing();
    CountOfReset(c, groups);
    CountOfOptional(b, max, greedy, guarded);
    CountOfOptional(b, min, greedy, guarded);
    if max > min { CountOfOptional(b, max - min, greedy, guarded); }
    if min == 0 {
      SimpleCountAppend(ResetCode(c, groups), SkippableCode(b, max, greedy, guarded));
    } else {
      SimpleCountAppend(if min == 1 then b else TimesCode(b, min), TailCode(b, min, max, greedy, guarded));
      var s := Split(!greedy, -(CodeSize(b) as int + 5));
      SimpleCountAppend(b, [s]);
      CountCons(s, []);
      assert [s] + [] == [s];
    }
  }

  lemma CountOfFast(b: seq<Instr>, min: nat, max: nat)
    ensures SimpleCount(FastCode(b, min, max)) < 0
  {
    hide CodeSize;
    CountCons(SimpleGreedyQuant(CodeSize(b) + 1, min, max, SimpleCount(b)), b + [Match]);
  }

  lemma CountOfBranches(a: seq<Instr>, b: seq<Instr>, negative: bool, back: bool, c: nat)
    ensures SimpleCount(AltCode(a, b)) < 0 && SimpleCount(LookCode(negative, a)) < 0 && SimpleCount(GroupCode(a, back, c)) < 0
  {
    hide CodeSize;
    CountCons(Split(true, CodeSize(a) + 5), a + ([Goto(CodeSize(b))] + b));
    CountCons(Lookahead(negative, CodeSize(a) + 1), a + [Match]);
    CountCons(Save(back, c), a + [Save(!back, c)]);
  }

  /** Backward code never qualifies for the fast opcode. */
  lemma {:induction false} BackwardNotFast(o: Flags, r: Re, c: nat)
    requires WellFormed(r)
    ensures SimpleCount(Gen(o, r, true, c)) <= 0
    decreases r
  {
    hide SimpleCount, FirstEffect, AltCode, LookCode, GroupCode, FastCode, GeneralCode, SetCode, CodeSize, AdvanceScore, AtomCode;
    match r
    case Group(a) => CountOfBranches(Gen(o, a, true, c + 1), [], false, true, c);
    case Look(negative, behind, a) => CountOfBranches(Gen(o, a, behind, c), [], negative, true, c);
    case Alt(a, b) => CountOfBranches(Gen(o, a, true, c), Gen(o, b, true, c + Groups(a)), false, true, c);
    case Cat(a, b) =>
      BackwardNotFast(o, a, c);
      BackwardNotFast(o, b, c + Groups(a));
      SimpleCountAppend(Gen(o, b, true, c + Groups(a)), Gen(o, a, true, c));
    case Rep(a, min, max, greedy) =>
      var b := Gen(o, a, true, c);
      CountOfFast(b, min, max);
      CountOfNothing();
      BackwardNotFast(o, a, c);
      if SimpleCount(GeneralCode(b, min, max, greedy, NeedsGuard(b, greedy), c, Groups(a))) >= 0 {
        CountOfGeneral(b, min, max, greedy, NeedsGuard(b, greedy), c, Groups(a));
      }
    case Empty => CountOfNothing();
    case LineStart => CountOfTest(LineStartOp);
    case LineEnd => CountOfTest(LineEndOp);
    case WordBoundary(neg) => CountOfTest(WordBoundaryOp(neg));
    case BackRef(n) => CountOfTest(BackRefOp(true, n));
    case _ =>
      CountOfBackward(AtomCode(o, r));
  }

  lemma CountOfTest(i: Instr)
    requires IsAssertion(i) || !IsSimple(i)
    ensures SimpleCount([i]) <= 0
    ensures SimpleCount([i]) == 0 <==> IsAssertion(i)
  {
  }

  lemma CountOfBackward(i: Instr)
    ensures SimpleCount(Directed(i, true)) < 0
  {
    CountCons(Prev, [i, Prev]);
    assert [Prev, i, Prev] == [Prev] + [i, Prev];
  }

  lemma LineOne(e: Env, i: Instr, st: St)
    requires st.pos <= |e.x.units|
    ensures LineResult(e, [i], st) == if SimpleStep(e, i, st.pos) < 0 then [] else [St(SimpleStep(e, i, st.pos), st.caps)]
  {
    hide SimpleStep;
    assert [i][0] == i && [i][1..] == [];
    var p := SimpleStep(e, i, st.pos);
    assert RunLine(e, [i], st.pos) == if p < 0 then -1 else RunLine(e, [], p);
  }

  lemma AtomLine(e: Env, r: Re)
    requires IsAtom(r) && (r.Set? ==> Canonical(r.points))
    ensures IsLine(e, [AtomCode(e.o, r)], Read(e.x, e.o, r, false))
  {
    hide CharAccepts, Accepts, AtomCode, RunLine;
    AtomIsCharOp(e.o, r);
    forall st | Good(e.x, st) && st.pos <= |e.x.units| ensures Read(e.x, e.o, r, false)(st) == LineResult(e, [AtomCode(e.o, r)], st) {
      LineOne(e, AtomCode(e.o, r), st);
      forall c: code ensures CharAccepts(e.o, AtomCode(e.o, r), c) == Accepts(e.o, r, c) { AtomAccepts(e.o, r, c); }
    }
  }

  lemma TestLine(e: Env, r: Re, i: Instr)
    requires IsTest(r)
    requires i == match r case LineStart => LineStartOp case LineEnd => LineEndOp case WordBoundary(neg) => WordBoundaryOp(neg)
    ensures IsLine(e, [i], Test(e.x, e.o, r))
  {
    hide AtLineStart, AtLineEnd, AtWordBoundary, RunLine;
    forall st | Good(e.x, st) ensures Test(e.x, e.o, r)(st) == LineResult(e, [i], st) {
      LineOne(e, i, st);
    }
  }

  lemma CatLine(e: Env, x: seq<Instr>, y: seq<Instr>, f: Matcher, g: Matcher)
    requires IsLine(e, x, f) && IsLine(e, y, g) && Steady(e.x, false, f)
    ensures IsLine(e, x + y, Then(f, g))
  {
    hide RunLine, Boundary;
    assert forall st :: Good(e.x, st) ==> st.pos <= |e.x.units| by {
      forall st | Good(e.x, st) ensures st.pos <= |e.x.units| { PosInside(e.x, st); }
    }
    forall st | Good(e.x, st) ensures Then(f, g)(st) == LineResult(e, x + y, st) {
      RunLineAppend(e, x, y, st.pos);
      if f(st) != [] {
        assert f(st) == [f(st)[0]] && f(st)[0] in f(st);
        FlatMapOne(g, f(st)[0]);
      }
    }
  }

  lemma PosInside(x: Subject, st: St)
    requires Good(x, st)
    ensures st.pos <= |x.units|
  {
  }

  lemma LineCongruence(e: Env, code: seq<Instr>, f: Matcher, g: Matcher)
    requires IsLine(e, code, f) && forall st :: Good(e.x, st) ==> f(st) == g(st)
    ensures IsLine(e, code, g)
  {
    hide RunLine;
  }

  lemma SkipLine(e: Env)
    ensures IsLine(e, [], Skip())
  {
  }

  /** A pattern whose code is straight-line has no groups, and its one match is the run of that code. */
  lemma {:induction false} StraightLine(e: Env, r: Re, c: nat)
    requires WellFormed(r) && SimpleCount(Gen(e.o, r, false, c)) >= 0
    ensures Groups(r) == 0 && IsLine(e, Gen(e.o, r, false, c), Matches(e.x, e.o, r, false, c))
    decreases r, 0
  {
    hide Gen, Matches, SimpleCount, AltCode, LookCode, GroupCode, FastCode, GeneralCode, SetCode, CodeSize, AdvanceScore, AtomCode, IsLine;
    GenIs(e.o, r, false, c);
    MatchesIs(e.x, e.o, r, false, c);
    match r
    case Group(a) => CountOfBranches(Gen(e.o, a, false, c + 1), [], false, false, c);
    case Look(negative, behind, a) => CountOfBranches(Gen(e.o, a, behind, c), [], negative, false, c);
    case Alt(a, b) => CountOfBranches(Gen(e.o, a, false, c), Gen(e.o, b, false, c + Groups(a)), false, false, c);
    case Cat(a, b) =>
      SimpleCountAppend(Gen(e.o, a, false, c), Gen(e.o, b, false, c + Groups(a)));
      StraightLine(e, a, c);
      StraightLine(e, b, c + Groups(a));
      MatchesSteady(e.x, e.o, a, false, c);
      CatLine(e, Gen(e.o, a, false, c), Gen(e.o, b, false, c + Groups(a)), Matches(e.x, e.o, a, false, c), Matches(e.x, e.o, b, false, c + Groups(a)));
    case Rep(a, min, max, greedy) => RepLine(e, a, min, max, greedy, c);
    case Empty => SkipLine(e);
    case LineStart => TestLine(e, r, LineStartOp);
    case LineEnd => TestLine(e, r, LineEndOp);
    case WordBoundary(neg) => TestLine(e, r, WordBoundaryOp(neg));
    case BackRef(n) => CountOfTest(BackRefOp(false, n));
    case Chr(_) => AtomLine(e, r);
    case Dot => AtomLine(e, r);
    case Set(_) => AtomLine(e, r);
  }

  lemma {:induction false} RepLine(e: Env, a: Re, min: nat, max: nat, greedy: bool, c: nat)
    requires WellFormed(Rep(a, min, max, greedy)) && SimpleCount(Gen(e.o, Rep(a, min, max, greedy), false, c)) >= 0
    ensures Groups(a) == 0 && IsLine(e, Gen(e.o, Rep(a, min, max, greedy), false, c), Matches(e.x, e.o, Rep(a, min, max, greedy), false, c))
    decreases a, 1
  {
    hide SimpleCount, FastCode, GeneralCode, CodeSize, AdvanceScore, IsLine;
    var b, f := Gen(e.o, a, false, c), Matches(e.x, e.o, a, false, c);
    CountOfFast(b, min, max);
    CountOfGeneral(b, min, max, greedy, NeedsGuard(b, greedy), c, Groups(a));
    if max == 0 {
      SkipLine(e);
      RepeatNone(e.x, f, greedy, c);
      LineCongruence(e, [], Skip(), Repeat(e.x, f, false, min, max, greedy, c, Groups(a)));
    } else {
      StraightLine(e, a, c);
      RepeatOnce(e.x, f, greedy, c);
      LineCongruence(e, b, f, Repeat(e.x, f, false, 1, 1, greedy, c, 0));
    }
  }

  lemma RepeatNone(x: Subject, f: Matcher, greedy: bool, c: nat)
    ensures forall st :: Repeat(x, f, false, 0, 0, greedy, c, 0)(st) == Skip()(st)
  {
    assert Times(f, 0, Optional(x, f, false, 0, 0, greedy)) == Skip();
  }

  lemma RepeatOnce(x: Subject, f: Matcher, greedy: bool, c: nat)
    ensures forall st :: Repeat(x, f, false, 1, 1, greedy, c, 0)(st) == f(st)
  {
    forall st ensures Repeat(x, f, false, 1, 1, greedy, c, 0)(st) == f(st) {
      TimesOne(f, Skip());
      assert Optional(x, f, false, 1, 1, greedy) == Skip();
      assert Prepare(st, 1, c, 0) == st;
      FlatMapSkip(f(st));
    }
  }

  // ----- the theorem -----

  lemma {:induction false} RepImplements(e: Env, a: Re, min: nat, max: nat, greedy: bool, back: bool, c: nat)
    requires WellFormed(Rep(a, min, max, greedy)) && Terminating(e.o, Rep(a, min, max, greedy), back, c)
    requires Implements(e, Gen(e.o, a, back, c), Matches(e.x, e.o, a, back, c))
    ensures Implements(e, Gen(e.o, Rep(a, min, max, greedy), back, c), Matches(e.x, e.o, Rep(a, min, max, greedy), back, c))
  {
    hide Placed, Does, CodeSize, SimpleCount, FirstEffect, FastCode, GeneralCode, Repeat;
    var b, f := Gen(e.o, a, back, c), Matches(e.x, e.o, a, back, c);
    MatchesSteady(e.x, e.o, a, back, c);
    forall pc: nat | Placed(e.bc, pc, RepCode(b, min, max, greedy, c, Groups(a)))
      ensures Does(e, pc, CodeSize(RepCode(b, min, max, greedy, c, Groups(a))), Repeat(e.x, f, back, min, max, greedy, c, Groups(a)))
    {
      if UsesFast(b, max, greedy) {
        if back { BackwardNotFast(e.o, a, c); }
        StraightLine(e, a, c);
        FastDoes(e, b, f, pc, min, max, c);
      } else {
        LoopEnds(e, a, max, greedy, back, c);
        GeneralDoes(e, back, pc, b, f, min, max, greedy, NeedsGuard(b, greedy), c, Groups(a));
      }
    }
  }

  lemma LoopEnds(e: Env, a: Re, max: nat, greedy: bool, back: bool, c: nat)
    requires max == INFINITE ==> MustAdvance(a) || (greedy && !SelfReferring(Gen(e.o, a, back, c)))
    ensures Ends(e.x, Matches(e.x, e.o, a, back, c), max, NeedsGuard(Gen(e.o, a, back, c), greedy))
  {
    hide FirstEffect, SelfReferring, Moving, Gen;
    if max == INFINITE && !NeedsGuard(Gen(e.o, a, back, c), greedy) {
      if !MustAdvance(a) { AdvanceSound(e.o, a, back, c); }
      MustAdvanceMoves(e.x, e.o, a, back, c);
    }
  }

  /**
   * Wherever the code of a pattern is placed in a program, entering it with any state explores exactly
   * the matches of the pattern from that state, with their captures, in order of priority, and then fails.
   */
  lemma {:induction false} CodeImplements(e: Env, r: Re, back: bool, c: nat)
    requires WellFormed(r) && Terminating(e.o, r, back, c)
    ensures Implements(e, Gen(e.o, r, back, c), Matches(e.x, e.o, r, back, c))
    decreases r
  {
    hide Placed, Does, CodeSize, SimpleCount, FirstEffect, Repeat, RepCode, Steady, AltCode, LookCode, GroupCode;
    match r
    case Rep(a, min, max, greedy) =>
      CodeImplements(e, a, back, c);
      RepImplements(e, a, min, max, greedy, back, c);
    case Cat(a, b) =>
      CodeImplements(e, a, back, c);
      CodeImplements(e, b, back, c + Groups(a));
      MatchesSteady(e.x, e.o, a, back, c);
      MatchesSteady(e.x, e.o, b, back, c + Groups(a));
      var f, g := Matches(e.x, e.o, a, back, c), Matches(e.x, e.o, b, back, c + Groups(a));
      if back {
        CatImplements(e, back, Gen(e.o, b, back, c + Groups(a)), Gen(e.o, a, back, c), g, f);
      } else {
        CatImplements(e, back, Gen(e.o, a, back, c), Gen(e.o, b, back, c + Groups(a)), f, g);
      }
    case Alt(a, b) =>
      CodeImplements(e, a, back, c);
      CodeImplements(e, b, back, c + Groups(a));
      MatchesSteady(e.x, e.o, a, back, c);
      AltImplements(e, back, Gen(e.o, a, back, c), Gen(e.o, b, back, c + Groups(a)),
                    Matches(e.x, e.o, a, back, c), Matches(e.x, e.o, b, back, c + Groups(a)));
    case Group(a) =>
      CodeImplements(e, a, back, c + 1);
      MatchesSteady(e.x, e.o, a, back, c + 1);
      GroupImplements(e, back, Gen(e.o, a, back, c + 1), Matches(e.x, e.o, a, back, c + 1), c);
    case Look(negative, behind, a) =>
      CodeImplements(e, a, behind, c);
      MatchesSteady(e.x, e.o, a, behind, c);
      LookImplements(e, behind, negative, Gen(e.o, a, behind, c), Matches(e.x, e.o, a, behind, c));
    case Empty => NothingImplements(e);
    case BackRef(n) => BackRefImplements(e, back, n);
    case LineStart => TestImplements(e, r, LineStartOp);
    case LineEnd => TestImplements(e, r, LineEndOp);
    case WordBoundary(neg) => TestImplements(e, r, WordBoundaryOp(neg));
    case Chr(_) => AtomImplements(e, r, back);
    case Dot => AtomImplements(e, r, back);
    case Set(_) => AtomImplements(e, r, back);
  }

  lemma CatImplements(e: Env, back: bool, a: seq<Instr>, b: seq<Instr>, f: Matcher, g: Matcher)
    requires Implements(e, a, f) && Implements(e, b, g) && Steady(e.x, back, f)
    ensures Implements(e, a + b, Then(f, g))
  {
    hide Placed, Does, CodeSize, Steady;
    SizeAppend(a, b);
    forall pc: nat | Placed(e.bc, pc, a + b) ensures Does(e, pc, CodeSize(a + b), Then(f, g)) {
      PlacedAppend(e.bc, pc, a, b);
      CatDoes(e, back, pc, CodeSize(a), CodeSize(b), f, g);
    }
  }

  lemma AltImplements(e: Env, back: bool, a: seq<Instr>, b: seq<Instr>, f: Matcher, g: Matcher)
    requires Implements(e, a, f) && Implements(e, b, g) && Steady(e.x, back, f)
    ensures Implements(e, AltCode(a, b), Either(f, g))
  {
    hide Placed, Does, CodeSize, Steady, AltCode;
    forall pc: nat | Placed(e.bc, pc, AltCode(a, b)) ensures Does(e, pc, CodeSize(AltCode(a, b)), Either(f, g)) {
      AltPlaced(e, pc, a, b);
      AltDoes(e, back, pc, a, b, f, g);
    }
  }

  lemma GroupImplements(e: Env, back: bool, b: seq<Instr>, f: Matcher, c: nat)
    requires Implements(e, b, f) && Steady(e.x, back, f)
    ensures Implements(e, GroupCode(b, back, c), if back then Captured(f, 2 * c + 1, 2 * c) else Captured(f, 2 * c, 2 * c + 1))
  {
    hide Placed, Does, CodeSize, Steady;
    forall pc: nat | Placed(e.bc, pc, GroupCode(b, back, c))
      ensures Does(e, pc, CodeSize(GroupCode(b, back, c)), if back then Captured(f, 2 * c + 1, 2 * c) else Captured(f, 2 * c, 2 * c + 1))
    {
      PlacedCons(e.bc, pc, Save(back, c), b + [Save(!back, c)]);
      PlacedAppend(e.bc, pc + 2, b, [Save(!back, c)]);
      GroupDoes(e, back, pc, b, f, c);
    }
  }

  lemma LookImplements(e: Env, behind: bool, negative: bool, b: seq<Instr>, f: Matcher)
    requires Implements(e, b, f) && Steady(e.x, behind, f)
    ensures Implements(e, LookCode(negative, b), Peek(f, negative))
  {
    hide Placed, Does, CodeSize, Steady;
    forall pc: nat | Placed(e.bc, pc, LookCode(negative, b)) ensures Does(e, pc, CodeSize(LookCode(negative, b)), Peek(f, negative)) {
      PlacedCons(e.bc, pc, Lookahead(negative, CodeSize(b) + 1), b + [Match]);
      PlacedAppend(e.bc, pc + 5, b, [Match]);
      LookDoes(e, behind, pc, b, f, negative);
    }
  }

  lemma NothingImplements(e: Env)
    ensures Implements(e, [], Skip())
  {
    hide Does;
    forall pc: nat ensures Does(e, pc, CodeSize([]), Skip()) { NothingDoes(e, pc); }
  }

  lemma BackRefImplements(e: Env, back: bool, n: nat)
    ensures Implements(e, [BackRefOp(back, n)], Recall(e.x, e.o, n, back))
  {
    hide Placed, Does, CodeSize, Yields;
    forall pc: nat | Placed(e.bc, pc, [BackRefOp(back, n)]) ensures Does(e, pc, CodeSize([BackRefOp(back, n)]), Recall(e.x, e.o, n, back)) {
      PlacedOne(e.bc, pc, BackRefOp(back, n));
      RecallDoes(e, pc, n, back);
      YieldsDoes(e, pc, 2, Recall(e.x, e.o, n, back));
    }
  }

  lemma TestImplements(e: Env, r: Re, i: Instr)
    requires IsTest(r)
    requires i == match r case LineStart => LineStartOp case LineEnd => LineEndOp case WordBoundary(neg) => WordBoundaryOp(neg)
    ensures Implements(e, [i], Test(e.x, e.o, r))
  {
    hide Placed, Does, CodeSize, Yields;
    forall pc: nat | Placed(e.bc, pc, [i]) ensures Does(e, pc, CodeSize([i]), Test(e.x, e.o, r)) {
      PlacedOne(e.bc, pc, i);
      TestDoes(e, pc, r, i);
      YieldsDoes(e, pc, 1, Test(e.x, e.o, r));
    }
  }

  lemma AtomImplements(e: Env, r: Re, back: bool)
    requires IsAtom(r) && (r.Set? ==> Canonical(r.points))
    ensures Implements(e, Directed(AtomCode(e.o, r), back), Read(e.x, e.o, r, back))
  {
    hide Placed, Does, CodeSize, Yields, AtomCode;
    var i := AtomCode(e.o, r);
    forall pc: nat | Placed(e.bc, pc, Directed(i, back)) ensures Does(e, pc, CodeSize(Directed(i, back)), Read(e.x, e.o, r, back)) {
      if back {
        DirectedSize(i);
        AtomBackward(e, pc, r);
      } else {
        PlacedOne(e.bc, pc, i);
        AtomForward(e, pc, r);
        YieldsDoes(e, pc, Size(i), Read(e.x, e.o, r, false));
      }
    }
  }

  lemma DirectedSize(i: Instr)
    ensures CodeSize(Directed(i, true)) == Size(i) + 2
  {
    hide CodeSize, Size;
    assert [Prev, i, Prev] == [Prev] + ([i] + [Prev]);
    PlacedCons([], 0, Prev, [i] + [Prev]);
    PlacedCons([], 1, i, [Prev]);
    PlacedOne([], 1, Prev);
    assert Size(Prev) == 1 by { PrevSize(); }
  }

  lemma PrevSize()
    ensures Size(Prev) == 1
  {
  }
}
