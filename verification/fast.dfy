/** `simple_greedy_quant` explores what the general encoding of the quantifier explores. */
module FastQuantifier {
  import opened Bytes
  import opened Instructions
  import opened Code
  import opened Text
  import opened Pattern
  import opened Progress
  import opened Generator
  import opened Machine
  import opened Explore
  import opened Constructs
  import opened Simulate
  import opened Repetition

  // ----- straight-line code -----

  /** The position after running straight-line code, or -1. */
  function RunLine(e: Env, code: seq<Instr>, pos: nat): (r: int)
    requires pos <= |e.x.units|
    ensures -1 <= r <= |e.x.units|
    decreases code
  {
    if code == [] then pos
    else if SimpleStep(e, code[0], pos) < 0 then -1
    else RunLine(e, code[1..], SimpleStep(e, code[0], pos))
  }

  /** The one result of straight-line code, if it has one. */
  function LineResult(e: Env, code: seq<Instr>, st: St): seq<St>
    requires st.pos <= |e.x.units|
  {
    if RunLine(e, code, st.pos) < 0 then [] else [St(RunLine(e, code, st.pos), st.caps)]
  }

  lemma {:induction false} RunLineAppend(e: Env, x: seq<Instr>, y: seq<Instr>, pos: nat)
    requires pos <= |e.x.units|
    ensures RunLine(e, x + y, pos) == if RunLine(e, x, pos) < 0 then -1 else RunLine(e, y, RunLine(e, x, pos))
    decreases x
  {
    hide SimpleStep;
    if x == [] {
      assert x + y == y;
    } else {
      assert (x + y)[0] == x[0] && (x + y)[1..] == x[1..] + y;
      if SimpleStep(e, x[0], pos) >= 0 { RunLineAppend(e, x[1..], y, SimpleStep(e, x[0], pos)); }
    }
  }

  lemma SimpleCountCons(code: seq<Instr>)
    requires code != [] && SimpleCount(code) >= 0
    ensures IsSimple(code[0]) && SimpleCount(code[1..]) >= 0
    ensures SimpleCount(code) == SimpleCount(code[1..]) + if IsCharOp(code[0]) then 1 else 0
  {
  }

  /** Straight-line code with `k` character opcodes moves `k` characters forward. */
  lemma {:induction false} RunLineForward(e: Env, code: seq<Instr>, pos: nat)
    requires pos <= |e.x.units| && SimpleCount(code) >= 0 && RunLine(e, code, pos) >= 0
    ensures Forward(e.x, pos, SimpleCount(code)) == RunLine(e, code, pos)
    decreases code
  {
    hide CharAccepts, AtLineStart, AtLineEnd, AtWordBoundary;
    if code != [] {
      SimpleCountCons(code);
      RunLineForward(e, code[1..], SimpleStep(e, code[0], pos));
    }
  }

  /** One opcode of the nested run. */
  lemma RunBodyStep(e: Env, pc: nat, i: Instr, pos: nat)
    requires pos <= |e.x.units| && Decode(e.bc, pc) == Some(i)
    ensures RunBody(e, pc, pos) ==
            if i == Match then pos
            else if !IsSimple(i) || SimpleStep(e, i, pos) < 0 then -1
            else RunBody(e, pc + Size(i), SimpleStep(e, i, pos))
  {
    DecodeInside(e.bc, pc);
    hide SimpleStep, Decode, Size;
  }

  lemma DecodeInside(b: seq<byte>, pc: nat)
    requires Decode(b, pc) != None
    ensures pc < |b|
  {
    hide DecodeOperands;
  }

  /** The nested run of the bytes of the body is the run of its instructions. */
  lemma {:induction false} RunBodyLine(e: Env, pc: nat, code: seq<Instr>, pos: nat)
    requires pos <= |e.x.units| && SimpleCount(code) >= 0
    requires Placed(e.bc, pc, code) && Decode(e.bc, pc + CodeSize(code)) == Some(Match)
    ensures RunBody(e, pc, pos) == RunLine(e, code, pos)
    decreases code
  {
    hide SimpleStep, Decode, Size, RunBody;
    if code == [] {
      RunBodyStep(e, pc, Match, pos);
    } else {
      SimpleCountCons(code);
      RunBodyStep(e, pc, code[0], pos);
      if SimpleStep(e, code[0], pos) >= 0 {
        RunBodyLine(e, pc + Size(code[0]), code[1..], SimpleStep(e, code[0], pos));
      }
    }
  }

  // ----- chains of rounds -----

  /** `ps` are the positions before and after successive rounds of the body. */
  ghost predicate Chain(e: Env, code: seq<Instr>, ps: seq<nat>) {
    ps != [] && (forall i :: 0 <= i < |ps| ==> ps[i] <= |e.x.units|) &&
    forall i {:trigger ps[i]} :: 0 < i < |ps| ==> RunLine(e, code, ps[i - 1]) == ps[i]
  }

  /** No further round is possible, or none is allowed. */
  ghost predicate Complete(e: Env, code: seq<Instr>, ps: seq<nat>, bounded: bool, limit: int)
    requires Chain(e, code, ps)
  {
    if bounded then |ps| - 1 <= limit && (RunLine(e, code, ps[|ps| - 1]) < 0 || |ps| - 1 == limit)
    else RunLine(e, code, ps[|ps| - 1]) < 0
  }

  lemma ChainTail(e: Env, code: seq<Instr>, ps: seq<nat>)
    requires Chain(e, code, ps) && |ps| > 1
    ensures Chain(e, code, ps[1..]) && RunLine(e, code, ps[0]) == ps[1]
  {
    forall i {:trigger ps[1..][i]} | 0 < i < |ps[1..]| ensures RunLine(e, code, ps[1..][i - 1]) == ps[1..][i] {
      assert ps[1..][i] == ps[i + 1] && ps[1..][i - 1] == ps[i];
    }
    assert ps[1] == RunLine(e, code, ps[1 - 1]);
  }

  lemma ChainCons(e: Env, code: seq<Instr>, pos: nat, ps: seq<nat>)
    requires Chain(e, code, ps) && pos <= |e.x.units| && RunLine(e, code, pos) == ps[0]
    ensures Chain(e, code, [pos] + ps)
  {
    hide RunLine;
    var qs := [pos] + ps;
    forall i {:trigger qs[i]} | 0 < i < |qs| ensures RunLine(e, code, qs[i - 1]) == qs[i] {
      if i > 1 { assert ps[i - 1] == qs[i] && ps[i - 2] == qs[i - 1]; }
    }
  }

  /** The greedy loop of the opcode runs a complete chain. */
  lemma {:induction false} GreedyChain(e: Env, pc: nat, code: seq<Instr>, pos: nat, max: nat, q: nat) returns (ps: seq<nat>)
    requires pos <= |e.x.units| && SimpleCount(code) > 0 && (max == INFINITE || q < max)
    requires Placed(e.bc, pc, code) && Decode(e.bc, pc + CodeSize(code)) == Some(Match)
    ensures Chain(e, code, ps) && ps[0] == pos
    ensures RunGreedy(e, pc, pos, max, q) == (q + |ps| - 1, ps[|ps| - 1])
    ensures Complete(e, code, ps, max != INFINITE, max - q)
    decreases |e.x.units| - pos
  {
    hide Decode, Placed, CodeSize, RunLine, RunBody;
    RunBodyLine(e, pc, code, pos);
    var p := RunLine(e, code, pos);
    if p < 0 {
      ps := [pos];
    } else {
      RunLineForward(e, code, pos);
      if q + 1 >= max && max != INFINITE {
        ps := [pos, p];
      } else {
        var rest := GreedyChain(e, pc, code, p, max, q + 1);
        ps := [pos] + rest;
        ChainCons(e, code, pos, rest);
      }
    }
  }

  /** The states at the positions `j`, `j - 1`, ..., `i` of a chain. */
  function Descend(caps: seq<int>, ps: seq<nat>, i: nat, j: int): (l: seq<St>)
    requires j < |ps|
    ensures |l| == if j < i then 0 else j - i + 1
    decreases j
  {
    if j < i then [] else [St(ps[j], caps)] + Descend(caps, ps, i, j - 1)
  }

  lemma {:induction false} DescendTail(caps: seq<int>, ps: seq<nat>, i: nat, j: int)
    requires 0 < i && j < |ps| && ps != []
    ensures Descend(caps, ps, i, j) == Descend(caps, ps[1..], i - 1, j - 1)
    decreases j
  {
    if j >= i { DescendTail(caps, ps, i, j - 1); }
  }

  lemma {:induction false} DescendLast(caps: seq<int>, ps: seq<nat>, i: nat, j: int)
    requires i <= j < |ps|
    ensures Descend(caps, ps, i, j) == Descend(caps, ps, i + 1, j) + [St(ps[i], caps)]
    decreases j
  {
    if i < j {
      DescendLast(caps, ps, i, j - 1);
    }
  }

  // ----- the matcher on a straight-line body -----

  ghost predicate IsLine(e: Env, code: seq<Instr>, f: Matcher) {
    forall st :: Good(e.x, st) ==> f(st) == LineResult(e, code, st)
  }

  lemma RoundMoves(e: Env, code: seq<Instr>, pos: nat)
    requires SimpleCount(code) > 0 && pos <= |e.x.units| && RunLine(e, code, pos) >= 0
    ensures RunLine(e, code, pos) > pos && Boundary(e.x, RunLine(e, code, pos))
  {
    RunLineForward(e, code, pos);
    ForwardBoundary(e.x, pos, SimpleCount(code));
  }

  lemma {:induction false} StarChain(e: Env, code: seq<Instr>, f: Matcher, ps: seq<nat>, caps: seq<int>)
    requires SimpleCount(code) > 0 && IsLine(e, code, f) && Chain(e, code, ps) && Boundary(e.x, ps[0])
    requires RunLine(e, code, ps[|ps| - 1]) < 0
    ensures Star(e.x, f, false, true, St(ps[0], caps)) == Descend(caps, ps, 0, |ps| - 1)
    decreases |ps|
  {
    hide RunLine;
    var st := St(ps[0], caps);
    if |ps| > 1 {
      var next := St(ps[1], caps);
      ChainTail(e, code, ps);
      RoundMoves(e, code, ps[0]);
      StarChain(e, code, f, ps[1..], caps);
      assert f(st) == [next];
      FlatMapOne(Again(e.x, f, false, true, st), next);
      DescendTail(caps, ps, 1, |ps| - 1);
      DescendLast(caps, ps, 0, |ps| - 1);
    } else {
      assert f(st) == [];
      DescendLast(caps, ps, 0, 0);
    }
  }

  lemma DescendNone(caps: seq<int>, ps: seq<nat>)
    ensures Descend(caps, ps, 0, -1) == []
    ensures |ps| == 1 ==> Descend(caps, ps, 1, 0) == []
  {
  }

  lemma {:induction false} UptoChain(e: Env, code: seq<Instr>, f: Matcher, ps: seq<nat>, caps: seq<int>, k: nat)
    requires SimpleCount(code) > 0 && IsLine(e, code, f) && Chain(e, code, ps) && Boundary(e.x, ps[0])
    requires |ps| - 1 <= k && (RunLine(e, code, ps[|ps| - 1]) < 0 || |ps| - 1 == k)
    ensures Upto(f, k, true)(St(ps[0], caps)) == Descend(caps, ps, 0, |ps| - 1)
    decreases k
  {
    hide RunLine, SimpleCount, Boundary, Descend;
    var st := St(ps[0], caps);
    DescendLast(caps, ps, 0, |ps| - 1);
    DescendNone(caps, ps);
    if |ps| > 1 {
      var next := St(ps[1], caps);
      ChainTail(e, code, ps);
      RoundMoves(e, code, ps[0]);
      UptoChain(e, code, f, ps[1..], caps, k - 1);
      assert f(st) == [next];
      FlatMapOne(Upto(f, k - 1, true), next);
      DescendTail(caps, ps, 1, |ps| - 1);
    } else if k > 0 {
      assert f(st) == [];
    }
  }

  lemma OptionalChain(e: Env, code: seq<Instr>, f: Matcher, ps: seq<nat>, caps: seq<int>, min: nat, max: nat)
    requires SimpleCount(code) > 0 && IsLine(e, code, f) && Chain(e, code, ps) && Boundary(e.x, ps[0])
    requires min <= max && Complete(e, code, ps, max != INFINITE, max - min)
    ensures Optional(e.x, f, false, min, max, true)(St(ps[0], caps)) == Descend(caps, ps, 0, |ps| - 1)
  {
    hide RunLine, Descend, IsLine, Star, Upto, SimpleCount, Boundary;
    if max == INFINITE {
      StarChain(e, code, f, ps, caps);
    } else if max > min {
      UptoChain(e, code, f, ps, caps, max - min);
    } else {
      DescendOne(caps, ps, 0);
    }
  }

  lemma DescendOne(caps: seq<int>, ps: seq<nat>, i: nat)
    requires i < |ps|
    ensures Descend(caps, ps, i, i) == [St(ps[i], caps)]
  {
  }

  lemma {:induction false} TimesChain(e: Env, code: seq<Instr>, f: Matcher, ps: seq<nat>, caps: seq<int>, min: nat, rest: Matcher)
    requires SimpleCount(code) > 0 && IsLine(e, code, f) && Chain(e, code, ps) && Boundary(e.x, ps[0])
    requires |ps| - 1 < min ==> RunLine(e, code, ps[|ps| - 1]) < 0
    ensures Times(f, min, rest)(St(ps[0], caps)) == if |ps| - 1 < min then [] else rest(St(ps[min], caps))
    ensures |ps| - 1 >= min ==> Chain(e, code, ps[min..]) && Boundary(e.x, ps[min])
    decreases min
  {
    hide RunLine, SimpleCount, Boundary;
    var st := St(ps[0], caps);
    if min == 0 {
      assert ps[0..] == ps;
    } else if |ps| > 1 {
      var next := St(ps[1], caps);
      ChainTail(e, code, ps);
      RoundMoves(e, code, ps[0]);
      TimesChain(e, code, f, ps[1..], caps, min - 1, rest);
      if min < |ps| { assert ps[1..][min - 1..] == ps[min..]; }
      assert f(st) == [next];
      FlatMapOne(Times(f, min - 1, rest), next);
    } else {
      assert f(st) == [];
    }
  }

  lemma {:induction false} DescendShift(caps: seq<int>, ps: seq<nat>, m: nat, j: int)
    requires m < |ps| && 0 <= j + 1 <= |ps| - m
    ensures Descend(caps, ps[m..], 0, j) == Descend(caps, ps, m, j + m)
    decreases j
  {
    if j >= 0 { DescendShift(caps, ps, m, j - 1); }
  }

  /** Repeating a straight-line body gives the positions of the chain, from the last one down to the `min`-th. */
  lemma RepeatChain(e: Env, code: seq<Instr>, f: Matcher, ps: seq<nat>, caps: seq<int>, min: nat, max: nat, c: nat)
    requires SimpleCount(code) > 0 && IsLine(e, code, f) && Chain(e, code, ps) && Boundary(e.x, ps[0])
    requires min <= max && Complete(e, code, ps, max != INFINITE, max)
    ensures Repeat(e.x, f, false, min, max, true, c, 0)(St(ps[0], caps)) == Descend(caps, ps, min, |ps| - 1)
  {
    hide RunLine, IsLine, Times, Optional, SimpleCount, Boundary, Chain, Descend, Repeat;
    ChainNonempty(e, code, ps);
    var rest := Optional(e.x, f, false, min, max, true);
    TimesChain(e, code, f, ps, caps, min, rest);
    RepeatWhole(e.x, f, min, max, c, St(ps[0], caps));
    if |ps| - 1 >= min {
      assert ps[min..][|ps| - min - 1] == ps[|ps| - 1];
      OptionalChain(e, code, f, ps[min..], caps, min, max);
      DescendShift(caps, ps, min, |ps| - 1 - min);
    }
  }

  lemma ChainNonempty(e: Env, code: seq<Instr>, ps: seq<nat>)
    requires Chain(e, code, ps)
    ensures ps != []
  {
    hide RunLine;
  }

  lemma RepeatWhole(x: Subject, f: Matcher, min: nat, max: nat, c: nat, st: St)
    ensures Repeat(x, f, false, min, max, true, c, 0)(st) == Times(f, min, Optional(x, f, false, min, max, true))(st)
  {
    hide Times, Optional;
    assert Prepare(st, min, c, 0) == st;
  }

  // ----- the opcode -----

  function GreedyChoice(pc: nat, count: nat, pos: nat, caps: seq<int>, stack: seq<int>): Choice {
    Choice(GreedyPoint, count, pos, pc + 1, caps, stack)
  }

  lemma QuantFields(b: seq<byte>, pc: nat, off: int, min: int, max: int, count: int)
    requires Decode(b, pc) == Some(SimpleGreedyQuant(off, min, max, count))
    ensures pc + 17 <= |b| && GetI32(b, pc + 1) == off && GetU32(b, pc + 13) == count
  {
    hide GetU16, GetU32, GetI32;
  }

  /** Going back over one round of the body leads to where the round began. */
  lemma ChainBack(e: Env, code: seq<Instr>, ps: seq<nat>, j: nat)
    requires SimpleCount(code) > 0 && Chain(e, code, ps) && Boundary(e.x, ps[0]) && 0 < j < |ps|
    ensures Back(e.x, ps[j], SimpleCount(code)) == ps[j - 1]
  {
    hide RunLine, SimpleCount, Back, Boundary;
    assert RunLine(e, code, ps[j - 1]) == ps[j];
    if j > 1 {
      assert RunLine(e, code, ps[j - 1 - 1]) == ps[j - 1];
      RoundMoves(e, code, ps[j - 2]);
    }
    RunLineForward(e, code, ps[j - 1]);
    BackUndoesForward(e.x, ps[j - 1], SimpleCount(code));
  }

  function PendingRounds(pc: nat, ps: seq<nat>, min: nat, j: nat, caps: seq<int>, stack: seq<int>): seq<Choice>
    requires j < |ps|
  {
    if j > min then [GreedyChoice(pc, j - min, ps[j], caps, stack)] else []
  }

  lemma ResumeGreedy(e: Env, code: seq<Instr>, pc: nat, ps: seq<nat>, min: nat, max: int, j: nat, caps: seq<int>, stack: seq<int>, base: seq<Choice>)
    requires Decode(e.bc, pc) == Some(SimpleGreedyQuant(CodeSize(code) + 1, min, max, SimpleCount(code)))
    requires SimpleCount(code) > 0 && Chain(e, code, ps) && Boundary(e.x, ps[0]) && min < j < |ps|
    ensures Step(e, Failing(base + PendingRounds(pc, ps, min, j, caps, stack))) ==
            Place(pc + 18 + CodeSize(code), stack).With(St(ps[j - 1], caps), base + PendingRounds(pc, ps, min, j - 1, caps, stack))
  {
    hide Decode, RunLine, SimpleCount, CodeSize, GetU32, GetI32, Back, Boundary;
    QuantFields(e.bc, pc, CodeSize(code) + 1, min, max, SimpleCount(code));
    ChainBack(e, code, ps, j);
    assert (base + PendingRounds(pc, ps, min, j, caps, stack))[..|base|] == base;
    assert base + [] == base;
  }

  lemma {:induction false} GreedyExplores(e: Env, code: seq<Instr>, pc: nat, ps: seq<nat>, min: nat, max: int, j: nat,
                                          caps: seq<int>, stack: seq<int>, base: seq<Choice>)
    requires Decode(e.bc, pc) == Some(SimpleGreedyQuant(CodeSize(code) + 1, min, max, SimpleCount(code)))
    requires SimpleCount(code) > 0 && Chain(e, code, ps) && Boundary(e.x, ps[0]) && min <= j < |ps|
    ensures Explores(e, Place(pc + 18 + CodeSize(code), stack).With(St(ps[j], caps), base + PendingRounds(pc, ps, min, j, caps, stack)),
                     Place(pc + 18 + CodeSize(code), stack), Descend(caps, ps, min, j), base)
    decreases j
  {
    hide Decode, SimpleCount, CodeSize, Explores, Reaches, Place.With, Step, Chain, Boundary;
    var b := Place(pc + 18 + CodeSize(code), stack);
    var own, first := PendingRounds(pc, ps, min, j, caps, stack), St(ps[j], caps);
    DescendOne(caps, ps, min);
    ExploresOne(e, b, first, base + own);
    if j == min {
      assert base + own == base;
    } else {
      var s1 := b.With(St(ps[j - 1], caps), base + PendingRounds(pc, ps, min, j - 1, caps, stack));
      GreedyExplores(e, code, pc, ps, min, max, j - 1, caps, stack, base);
      ResumeGreedy(e, code, pc, ps, min, max, j, caps, stack, base);
      ReachesStep(e, Failing(base + own), s1);
      ExploresAfter(e, Failing(base + own), s1, b, Descend(caps, ps, min, j - 1), base);
      ExploresAppend(e, b.With(first, base + own), b, [first], Descend(caps, ps, min, j - 1), base, own);
    }
  }

  lemma FastStep(e: Env, code: seq<Instr>, pc: nat, ps: seq<nat>, min: nat, max: nat, caps: seq<int>, stack: seq<int>, base: seq<Choice>)
    requires Decode(e.bc, pc) == Some(SimpleGreedyQuant(CodeSize(code) + 1, min, max, SimpleCount(code)))
    requires Chain(e, code, ps) && RunGreedy(e, pc + 17, ps[0], max, 0) == (|ps| - 1, ps[|ps| - 1])
    ensures Step(e, Place(pc, stack).With(St(ps[0], caps), base)) ==
            if |ps| - 1 < min then Failing(base)
            else Place(pc + 18 + CodeSize(code), stack).With(St(ps[|ps| - 1], caps), base + PendingRounds(pc, ps, min, |ps| - 1, caps, stack))
  {
    hide Decode, RunLine, SimpleCount, CodeSize, RunGreedy;
    assert base + [] == base;
  }

  lemma FastExplores(e: Env, code: seq<Instr>, f: Matcher, pc: nat, min: nat, max: nat, c: nat, st: St, stack: seq<int>, base: seq<Choice>)
    requires Placed(e.bc, pc, FastCode(code, min, max))
    requires SimpleCount(code) > 0 && IsLine(e, code, f) && Good(e.x, st) && min <= max && 0 < max
    ensures Explores(e, Place(pc, stack).With(st, base), Place(pc + 18 + CodeSize(code), stack),
                     Repeat(e.x, f, false, min, max, true, c, 0)(st), base)
  {
    hide Decode, Placed, SimpleCount, CodeSize, Explores, Reaches, Place.With, Step, Chain, Complete, IsLine, RunGreedy, Repeat;
    FastPlaced(e, pc, code, min, max);
    var ps := GreedyChain(e, pc + 17, code, st.pos, max, 0);
    RepeatChain(e, code, f, ps, st.caps, min, max, c);
    assert st == St(ps[0], st.caps);
    FastStep(e, code, pc, ps, min, max, st.caps, stack, base);
    var a, b, j := Place(pc, stack), Place(pc + 18 + CodeSize(code), stack), |ps| - 1;
    if j < min {
      ReachesStep(e, a.With(st, base), Failing(base));
      ExploresNone(e, b, base);
      ExploresAfter(e, a.With(st, base), Failing(base), b, [], base);
    } else {
      var s1 := b.With(St(ps[j], st.caps), base + PendingRounds(pc, ps, min, j, st.caps, stack));
      ReachesStep(e, a.With(st, base), s1);
      GreedyExplores(e, code, pc, ps, min, max, j, st.caps, stack, base);
      ExploresAfter(e, a.With(st, base), s1, b, Descend(st.caps, ps, min, j), base);
    }
  }

  lemma FastPlaced(e: Env, pc: nat, b: seq<Instr>, min: nat, max: nat)
    requires Placed(e.bc, pc, FastCode(b, min, max))
    ensures Decode(e.bc, pc) == Some(SimpleGreedyQuant(CodeSize(b) + 1, min, max, SimpleCount(b)))
    ensures Placed(e.bc, pc + 17, b) && Decode(e.bc, pc + 17 + CodeSize(b)) == Some(Match)
    ensures CodeSize(FastCode(b, min, max)) == CodeSize(b) + 18
  {
    hide Decode, Placed, CodeSize, SimpleCount;
    PlacedCons(e.bc, pc, SimpleGreedyQuant(CodeSize(b) + 1, min, max, SimpleCount(b)), b + [Match]);
    PlacedAppend(e.bc, pc + 17, b, [Match]);
    SizeAppend(b, [Match]);
    PlacedOne(e.bc, pc + 17 + CodeSize(b), Match);
  }

  /** The fast opcode explores `min` to `max` repetitions of a straight-line body, most repetitions first. */
  lemma FastDoes(e: Env, code: seq<Instr>, f: Matcher, pc: nat, min: nat, max: nat, c: nat)
    requires Placed(e.bc, pc, FastCode(code, min, max))
    requires SimpleCount(code) > 0 && IsLine(e, code, f) && min <= max && 0 < max
    ensures Does(e, pc, CodeSize(FastCode(code, min, max)), Repeat(e.x, f, false, min, max, true, c, 0))
  {
    hide Decode, Placed, SimpleCount, CodeSize, Explores, IsLine, Repeat, Good;
    FastPlaced(e, pc, code, min, max);
    forall stack: seq<int>
      ensures From(e, Place(pc, stack), Repeat(e.x, f, false, min, max, true, c, 0), Place(pc + (CodeSize(code) + 18), stack))
    {
      var a, b := Place(pc, stack), Place(pc + (CodeSize(code) + 18), stack);
      forall st, base | Good(e.x, st)
        ensures Explores(e, a.With(st, base), b, Repeat(e.x, f, false, min, max, true, c, 0)(st), base)
      {
        FastExplores(e, code, f, pc, min, max, c, st, stack, base);
      }
    }
  }
}
