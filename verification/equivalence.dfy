/** Two codes for one pattern, and two limits: where the fast opcode differs, and where a loop does not end. */
module Equivalence {
  import opened Bytes
  import opened Instructions
  import opened Code
  import opened Text
  import opened Pattern
  import opened Progress
  import opened Generator
  import opened Machine
  import opened Explore
  import opened Constructs
  import opened Loops
  import opened Simulate
  import opened Repetition
  import opened FastQuantifier
  import opened Correctness

  // ----- the fast opcode and the general encoding -----

  /** A straight-line body as a matcher. */
  function Line(e: Env, code: seq<Instr>): Matcher {
    (st: St) => if st.pos <= |e.x.units| then LineResult(e, code, st) else []
  }

  lemma LineSteady(e: Env, code: seq<Instr>)
    requires SimpleCount(code) >= 0
    ensures Steady(e.x, false, Line(e, code))
    ensures SimpleCount(code) > 0 ==> Moving(e.x, Line(e, code))
  {
    hide RunLine, SimpleCount, Forward, Boundary;
    forall s, t | Good(e.x, s) && t in Line(e, code)(s)
      ensures Good(e.x, t) && Ahead(false, s.pos, t.pos) && (SimpleCount(code) > 0 ==> t.pos != s.pos)
    {
      RunLineForward(e, code, s.pos);
      ForwardBoundary(e.x, s.pos, SimpleCount(code));
    }
  }

  lemma SimpleYields(e: Env, pc: nat, i: Instr)
    requires IsSimple(i) && Decode(e.bc, pc) == Some(i)
    ensures Yields(e, pc, Size(i), Line(e, [i]))
  {
    hide Decode, Size, SimpleStep, Step, Place.With;
    forall st, stack: seq<int>, base | Good(e.x, st)
      ensures |Line(e, [i])(st)| <= 1
      ensures Step(e, Place(pc, stack).With(st, base)) == Outcome(Place(pc + Size(i), stack), Line(e, [i])(st), base)
    {
      StepSimple(e, pc, i, stack, st, base);
      LineOf(e, i, st);
    }
  }

  lemma LineOf(e: Env, i: Instr, st: St)
    requires st.pos <= |e.x.units|
    ensures Line(e, [i])(st) == if SimpleStep(e, i, st.pos) < 0 then [] else [St(SimpleStep(e, i, st.pos), st.caps)]
  {
    hide SimpleStep;
    var p := SimpleStep(e, i, st.pos);
    assert RunLine(e, [i], st.pos) == if p < 0 then -1 else RunLine(e, [], p);
  }

  /** Straight-line code does what running it says, wherever it is placed. */
  lemma {:induction false} LineImplements(e: Env, code: seq<Instr>)
    requires SimpleCount(code) >= 0
    ensures Implements(e, code, Line(e, code))
    decreases code
  {
    hide Placed, Does, CodeSize, SimpleCount, RunLine, Yields;
    forall pc: nat | Placed(e.bc, pc, code) ensures Does(e, pc, CodeSize(code), Line(e, code)) {
      if code == [] {
        NothingSize();
        NothingDoes(e, pc);
        NothingLine(e);
        DoesCongruence(e, pc, 0, Skip(), Line(e, []));
      } else {
        var i, rest := code[0], code[1..];
        SimpleCountCons(code);
        assert code == [i] + rest;
        PlacedCons(e.bc, pc, i, rest);
        SimpleYields(e, pc, i);
        YieldsDoes(e, pc, Size(i), Line(e, [i]));
        LineImplements(e, rest);
        OneCount(i);
        LineSteady(e, [i]);
        CatDoes(e, false, pc, Size(i), CodeSize(rest), Line(e, [i]), Line(e, rest));
        LineThen(e, i, rest);
        DoesCongruence(e, pc, CodeSize(code), Then(Line(e, [i]), Line(e, rest)), Line(e, code));
      }
    }
  }

  lemma NothingSize()
    ensures CodeSize([]) == 0
  {
  }

  lemma NothingLine(e: Env)
    ensures forall st :: Good(e.x, st) ==> Skip()(st) == Line(e, [])(st)
  {
  }

  lemma OneCount(i: Instr)
    requires IsSimple(i)
    ensures SimpleCount([i]) >= 0
  {
    assert SimpleCount([i][1..]) == 0;
  }

  lemma LineThen(e: Env, i: Instr, rest: seq<Instr>)
    ensures forall st :: Good(e.x, st) ==> Then(Line(e, [i]), Line(e, rest))(st) == Line(e, [i] + rest)(st)
  {
    hide RunLine;
    forall st | Good(e.x, st) ensures Then(Line(e, [i]), Line(e, rest))(st) == Line(e, [i] + rest)(st) {
      RunLineAppend(e, [i], rest, st.pos);
      var l := Line(e, [i])(st);
      if l != [] {
        assert l == [l[0]];
        FlatMapOne(Line(e, rest), l[0]);
      }
    }
  }

  /**
   * For every straight-line body with at least one character opcode, the fast opcode and the general
   * encoding with its counters and splits explore the same states in the same order.
   */
  lemma FastRefinesGeneral(e: Env, code: seq<Instr>, min: nat, max: nat, guarded: bool, fast: nat, general: nat)
    requires SimpleCount(code) > 0 && min <= max && 0 < max
    requires Placed(e.bc, fast, FastCode(code, min, max))
    requires Placed(e.bc, general, GeneralCode(code, min, max, true, guarded, 0, 0))
    ensures var all := Repeat(e.x, Line(e, code), false, min, max, true, 0, 0);
            && Does(e, fast, CodeSize(FastCode(code, min, max)), all)
            && Does(e, general, CodeSize(GeneralCode(code, min, max, true, guarded, 0, 0)), all)
  {
    hide Placed, CodeSize, SimpleCount, Does, FastCode, GeneralCode, Repeat, RunLine;
    LineSteady(e, code);
    LineImplements(e, code);
    GeneralDoes(e, false, general, code, Line(e, code), min, max, true, guarded, 0, 0);
    FastDoes(e, code, Line(e, code), fast, min, max, 0);
  }

  /**
   * What both explore: the ends of the rounds of the body, from the longest run of rounds that matches and
   * that `max` allows down to `min` rounds, with the captures unchanged.
   */
  lemma MostRoundsFirst(e: Env, code: seq<Instr>, min: nat, max: nat, st: St) returns (ps: seq<nat>)
    requires SimpleCount(code) > 0 && min <= max && 0 < max && Good(e.x, st)
    ensures Chain(e, code, ps) && ps[0] == st.pos && Complete(e, code, ps, max != INFINITE, max)
    ensures Repeat(e.x, Line(e, code), false, min, max, true, 0, 0)(st) == Descend(st.caps, ps, min, |ps| - 1)
  {
    hide SimpleCount, Repeat, RunLine, Descend;
    ps := LongestChain(e, code, st.pos, max, 0);
    assert st == St(ps[0], st.caps);
    RepeatChain(e, code, Line(e, code), ps, st.caps, min, max, 0);
  }

  lemma {:induction false} LongestChain(e: Env, code: seq<Instr>, pos: nat, max: nat, q: nat) returns (ps: seq<nat>)
    requires pos <= |e.x.units| && SimpleCount(code) > 0 && (max == INFINITE || q <= max)
    ensures Chain(e, code, ps) && ps[0] == pos && Complete(e, code, ps, max != INFINITE, max - q)
    decreases |e.x.units| - pos
  {
    hide RunLine, SimpleCount;
    var p := RunLine(e, code, pos);
    if p < 0 || (max != INFINITE && q == max) {
      ps := [pos];
    } else {
      RunLineForward(e, code, pos);
      var rest := LongestChain(e, code, p, max, q + 1);
      ps := [pos] + rest;
      ChainCons(e, code, pos, rest);
    }
  }

  // ----- the start must not split a surrogate pair -----

  /** A high and a low surrogate, in UTF-16 mode. */
  const Pair: Subject := Subject([0xd83d, 0xde00], true)

  /**
   * Started between the two halves of a pair, `.*` backtracks from the end of the text to its beginning:
   * to a position before the start, and not to the start itself.
   */
  lemma StartInsidePair(e: Env, pc: nat, caps: seq<int>, stack: seq<int>, base: seq<Choice>)
    requires e.x == Pair && Placed(e.bc, pc, FastCode([AnyOp], 0, INFINITE))
    ensures !Boundary(e.x, 1)
    ensures var own, exit := [GreedyChoice(pc, 1, 2, caps, stack)], Place(pc + 19, stack);
            && Step(e, Place(pc, stack).With(St(1, caps), base)) == exit.With(St(2, caps), base + own)
            && Step(e, Failing(base + own)) == exit.With(St(0, caps), base)
  {
    hide Decode, Placed, Step, CodeSize, SimpleCount, FastCode;
    FastPlaced(e, pc, [AnyOp], 0, INFINITE);
    AnyFacts();
    PlacedOne(e.bc, pc + 17, AnyOp);
    PairRounds(e, pc);
    PairChain(e);
    FastStep(e, [AnyOp], pc, [1, 2], 0, INFINITE, caps, stack, base);
    PairResume(e, pc, caps, stack, base);
  }

  lemma AnyFacts()
    ensures SimpleCount([AnyOp]) == 1 && CodeSize([AnyOp]) == 1
  {
  }

  lemma PairChain(e: Env)
    requires e.x == Pair
    ensures Chain(e, [AnyOp], [1, 2])
  {
    assert RunLine(e, [AnyOp], 1) == RunLine(e, [], 2);
  }

  lemma PairResume(e: Env, pc: nat, caps: seq<int>, stack: seq<int>, base: seq<Choice>)
    requires e.x == Pair && Decode(e.bc, pc) == Some(SimpleGreedyQuant(2, 0, INFINITE, 1))
    ensures Step(e, Failing(base + [GreedyChoice(pc, 1, 2, caps, stack)])) == Place(pc + 19, stack).With(St(0, caps), base)
  {
    hide Decode, GetU32, GetI32;
    QuantFields(e.bc, pc, 2, 0, INFINITE, 1);
    assert Back(e.x, 0, 0) == 0;
    assert (base + [GreedyChoice(pc, 1, 2, caps, stack)])[..|base|] == base;
  }

  lemma PairRounds(e: Env, pc: nat)
    requires e.x == Pair && Decode(e.bc, pc + 17) == Some(AnyOp) && Decode(e.bc, pc + 18) == Some(Match)
    ensures RunGreedy(e, pc + 17, 1, INFINITE, 0) == (1, 2)
  {
    hide Decode;
    Readable(e.bc, pc + 17);
    Readable(e.bc, pc + 18);
    assert RunBody(e, pc + 18, 2) == 2;
    assert RunBody(e, pc + 17, 1) == 2;
    assert RunBody(e, pc + 17, 2) == -1;
  }

  lemma Readable(b: seq<byte>, pc: nat)
    requires Decode(b, pc) != None
    ensures pc < |b|
  {
  }

  // ----- a lazy loop over nothing -----

  /** A lazy unbounded repetition of the empty pattern, with a character after it. */
  const LazyNothing: Re := Cat(Rep(Empty, 0, INFINITE, false), Chr(0x62))

  /** Its code, which has no guard against rounds that do not move. */
  lemma LazyCode(o: Flags)
    requires !o.ignoreCase
    ensures Gen(o, LazyNothing, false, 1) == [Split(false, 5)] + ([Goto(-10)] + [Char(0x62)])
    ensures WellFormed(LazyNothing) && !Terminating(o, LazyNothing, false, 1)
  {
    assert StarCode([], false, false) == [Split(false, 5)] + [Goto(-10)];
  }

  /** The four states of its endless run. */
  function Round(pc: nat, caps: seq<int>, stack: seq<int>, base: seq<Choice>, k: nat): State {
    var own := [Choice(SplitPoint, 0, 0, pc + 5, caps, stack)];
    if k % 4 == 0 then Running(pc, 0, caps, stack, base)
    else if k % 4 == 1 then Running(pc + 10, 0, caps, stack, base + own)
    else if k % 4 == 2 then Failing(base + own)
    else Running(pc + 5, 0, caps, stack, base)
  }

  lemma RoundStep(e: Env, pc: nat, caps: seq<int>, stack: seq<int>, base: seq<Choice>, k: nat)
    requires e.x.units == [] && Decode(e.bc, pc) == Some(Split(false, 5))
    requires Decode(e.bc, pc + 5) == Some(Goto(-10)) && Decode(e.bc, pc + 10) == Some(Char(0x62))
    ensures Step(e, Round(pc, caps, stack, base, k)) == Round(pc, caps, stack, base, k + 1)
  {
    hide Decode, Step;
    if k % 4 == 2 { RoundResume(e, pc, caps, stack, base); } else { RoundExecute(e, pc, caps, stack, base, k); }
  }

  lemma RoundResume(e: Env, pc: nat, caps: seq<int>, stack: seq<int>, base: seq<Choice>)
    ensures Step(e, Round(pc, caps, stack, base, 2)) == Round(pc, caps, stack, base, 3)
  {
    assert (base + [Choice(SplitPoint, 0, 0, pc + 5, caps, stack)])[..|base|] == base;
  }

  lemma RoundExecute(e: Env, pc: nat, caps: seq<int>, stack: seq<int>, base: seq<Choice>, k: nat)
    requires e.x.units == [] && k % 4 != 2 && Decode(e.bc, pc) == Some(Split(false, 5))
    requires Decode(e.bc, pc + 5) == Some(Goto(-10)) && Decode(e.bc, pc + 10) == Some(Char(0x62))
    ensures Step(e, Round(pc, caps, stack, base, k)) == Round(pc, caps, stack, base, k + 1)
  {
    hide Decode, Step;
    var st, own := St(0, caps), [Choice(SplitPoint, 0, 0, pc + 5, caps, stack)];
    if k % 4 == 0 {
      SplitStep(e, pc, caps, stack, base);
    } else if k % 4 == 1 {
      StepSimple(e, pc + 10, Char(0x62), stack, st, base + own);
      assert SimpleStep(e, Char(0x62), 0) == -1;
    } else {
      PassGoto(e, pc + 5, -10, stack);
      assert Place(pc + 5, stack).With(st, base) == Round(pc, caps, stack, base, k);
    }
  }

  lemma SplitStep(e: Env, pc: nat, caps: seq<int>, stack: seq<int>, base: seq<Choice>)
    requires Decode(e.bc, pc) == Some(Split(false, 5))
    ensures Step(e, Running(pc, 0, caps, stack, base)) == Running(pc + 10, 0, caps, stack, base + [Choice(SplitPoint, 0, 0, pc + 5, caps, stack)])
  {
    hide Decode;
  }

  lemma {:induction false} RoundSteps(e: Env, pc: nat, caps: seq<int>, stack: seq<int>, base: seq<Choice>, k: nat, n: nat)
    requires e.x.units == [] && Decode(e.bc, pc) == Some(Split(false, 5))
    requires Decode(e.bc, pc + 5) == Some(Goto(-10)) && Decode(e.bc, pc + 10) == Some(Char(0x62))
    ensures Steps(e, Round(pc, caps, stack, base, k), n) == Round(pc, caps, stack, base, k + n)
    decreases n
  {
    hide Decode, Step, Round;
    if n > 0 {
      RoundStep(e, pc, caps, stack, base, k);
      RoundSteps(e, pc, caps, stack, base, k + 1, n - 1);
    }
  }

  /** On the empty text the run of that code never halts and never leaves it. */
  lemma LazyNothingDiverges(e: Env, pc: nat, caps: seq<int>, stack: seq<int>, base: seq<Choice>, n: nat)
    requires e.x.units == [] && !e.o.ignoreCase && Placed(e.bc, pc, Gen(e.o, LazyNothing, false, 1))
    ensures var s := Steps(e, Running(pc, 0, caps, stack, base), n);
            (s.Running? && pc <= s.pc <= pc + 10) || (s.Failing? && s.saved != base)
  {
    hide Decode, Placed, Steps, Gen, CodeSize;
    LazyCode(e.o);
    PlacedCons(e.bc, pc, Split(false, 5), [Goto(-10)] + [Char(0x62)]);
    PlacedCons(e.bc, pc + 5, Goto(-10), [Char(0x62)]);
    PlacedOne(e.bc, pc + 10, Char(0x62));
    RoundSteps(e, pc, caps, stack, base, 0, n);
  }
}
