/** The general encoding of a quantifier explores the repetitions of its body. */
module Repetition {
  import opened Bytes
  import opened Instructions
  import opened Code
  import opened Text
  import opened Pattern
  import opened Progress
  import opened Generator
  import opened Machine
  import opened Explore
  import opened Constructs
  import opened Loops
  import opened Simulate

  /** Wherever the code is placed, it does what `f` says: the code is relocatable. */
  ghost predicate Implements(e: Env, code: seq<Instr>, f: Matcher) {
    forall pc: nat :: Placed(e.bc, pc, code) ==> Does(e, pc, CodeSize(code), f)
  }

  lemma NothingDoes(e: Env, pc: nat)
    ensures Does(e, pc, 0, Skip())
  {
    hide From;
    forall stack: seq<int> ensures From(e, Place(pc, stack), Skip(), Place(pc + 0, stack)) {
      FromSkip(e, Place(pc, stack));
    }
  }

  function ResetAll(c: nat, groups: nat): Matcher { (st: St) => [Prepare(st, 0, c, groups)] }

  lemma YieldsReset(e: Env, pc: nat, c: nat, groups: nat)
    requires groups > 0 && Decode(e.bc, pc) == Some(SaveReset(c, c + groups - 1))
    ensures Yields(e, pc, 3, ResetAll(c, groups))
  {
    hide Decode;
  }

  lemma ResetDoes(e: Env, pc: nat, c: nat, groups: nat)
    requires Placed(e.bc, pc, ResetCode(c, groups))
    ensures Does(e, pc, CodeSize(ResetCode(c, groups)), ResetAll(c, groups))
  {
    hide Does, Decode, Placed, CodeSize;
    if groups > 0 {
      PlacedOne(e.bc, pc, SaveReset(c, c + groups - 1));
      YieldsReset(e, pc, c, groups);
      YieldsDoes(e, pc, 3, ResetAll(c, groups));
    } else {
      EmptySize();
      NothingDoes(e, pc);
      DoesCongruence(e, pc, 0, Skip(), ResetAll(c, groups));
    }
  }

  lemma EmptySize()
    ensures CodeSize([]) == 0
  {
  }

  lemma ResetSteady(x: Subject, back: bool, c: nat, groups: nat)
    ensures Steady(x, back, ResetAll(c, groups))
  {
  }

  /** What has to hold of an unbounded loop for its code to leave it: a guard, or a body that always moves. */
  ghost predicate Ends(x: Subject, f: Matcher, max: nat, guarded: bool) {
    max == INFINITE ==> guarded || Moving(x, f)
  }

  lemma SkippableDoes(e: Env, back: bool, pc: nat, b: seq<Instr>, f: Matcher, max: nat, greedy: bool, guarded: bool)
    requires Placed(e.bc, pc, SkippableCode(b, max, greedy, guarded)) && Implements(e, b, f)
    requires Steady(e.x, back, f) && Ends(e.x, f, max, guarded)
    ensures Does(e, pc, CodeSize(SkippableCode(b, max, greedy, guarded)), Optional(e.x, f, back, 0, max, greedy))
  {
    hide Does, Decode, Placed, CodeSize, Steady, Moving, StarCode, UptoCode, Upto;
    if max == 0 {
      EmptySize();
      NothingDoes(e, pc);
    } else if max == 1 {
      PlacedCons(e.bc, pc, Split(greedy, CodeSize(b)), b);
      OnceDoes(e, pc, b, f, greedy);
      UptoOne(f, greedy);
      DoesCongruence(e, pc, CodeSize(OnceCode(b, greedy)), if greedy then Either(f, Skip()) else Either(Skip(), f), Upto(f, 1, greedy));
    } else if max == INFINITE {
      StarPlaced(e, pc, b, greedy, guarded);
      StarDoes(e, back, pc, b, f, greedy, guarded);
    } else {
      UptoPlaced(e, pc, b, max, greedy);
      UptoDoes(e, back, pc, b, f, max, greedy);
    }
  }

  lemma UptoOne(f: Matcher, greedy: bool)
    ensures forall st :: (if greedy then Either(f, Skip()) else Either(Skip(), f))(st) == Upto(f, 1, greedy)(st)
  {
    forall st ensures (if greedy then Either(f, Skip()) else Either(Skip(), f))(st) == Upto(f, 1, greedy)(st) {
      FlatMapSkip(f(st));
    }
  }

  lemma TailDoes(e: Env, back: bool, pc: nat, b: seq<Instr>, f: Matcher, min: nat, max: nat, greedy: bool, guarded: bool)
    requires Placed(e.bc, pc, TailCode(b, min, max, greedy, guarded)) && Implements(e, b, f)
    requires Steady(e.x, back, f) && Ends(e.x, f, max, guarded)
    ensures Does(e, pc, CodeSize(TailCode(b, min, max, greedy, guarded)), Optional(e.x, f, back, min, max, greedy))
  {
    hide Does, Decode, Placed, CodeSize, Steady, Moving, StarCode, UptoCode, Upto;
    if max == INFINITE {
      StarPlaced(e, pc, b, greedy, guarded);
      StarDoes(e, back, pc, b, f, greedy, guarded);
    } else if max > min {
      UptoPlaced(e, pc, b, max - min, greedy);
      UptoDoes(e, back, pc, b, f, max - min, greedy);
    } else {
      EmptySize();
      NothingDoes(e, pc);
    }
  }

  lemma TimesDoes(e: Env, back: bool, pc: nat, b: seq<Instr>, k: nat, f: Matcher, n: nat, rest: Matcher)
    requires Placed(e.bc, pc, TimesCode(b, k)) && Implements(e, b, f) && Steady(e.x, back, f) && k > 0
    requires Does(e, pc + CodeSize(b) + 11, n, rest)
    ensures Does(e, pc, CodeSize(b) + 11 + n, Times(f, k, rest))
  {
    hide From, Decode, Placed, CodeSize, Steady, TimesCode;
    TimesPlaced(e, pc, b, k);
    var m := CodeSize(b);
    forall stack: seq<int> ensures From(e, Place(pc, stack), Times(f, k, rest), Place(pc + (m + 11 + n), stack)) {
      var exit := Place(pc + (m + 11 + n), stack);
      assert From(e, Place(pc + m + 11, stack), rest, Place(pc + m + 11 + n, stack));
      TimesLoop(e, back, pc + 5, m, f, k, rest, stack, exit);
      PassPush(e, pc, k, stack);
      FromPass(e, Place(pc, stack), Place(pc + 5, stack + [k]), Times(f, k, rest), exit);
    }
  }

  /** The compulsory rounds, and then the optional ones. */
  lemma CompulsoryDoes(e: Env, back: bool, pc: nat, b: seq<Instr>, f: Matcher, min: nat, max: nat, greedy: bool, guarded: bool)
    requires min > 0
    requires Placed(e.bc, pc, (if min == 1 then b else TimesCode(b, min)) + TailCode(b, min, max, greedy, guarded))
    requires Implements(e, b, f) && Steady(e.x, back, f) && Ends(e.x, f, max, guarded)
    ensures Does(e, pc, CodeSize((if min == 1 then b else TimesCode(b, min)) + TailCode(b, min, max, greedy, guarded)),
                 Times(f, min, Optional(e.x, f, back, min, max, greedy)))
  {
    hide Does, Decode, Placed, CodeSize, Steady, Moving, TimesCode, TailCode, Optional;
    var head, tail := if min == 1 then b else TimesCode(b, min), TailCode(b, min, max, greedy, guarded);
    var rest := Optional(e.x, f, back, min, max, greedy);
    PlacedAppend(e.bc, pc, head, tail);
    SizeAppend(head, tail);
    TailDoes(e, back, pc + CodeSize(head), b, f, min, max, greedy, guarded);
    if min == 1 {
      CatDoes(e, back, pc, CodeSize(b), CodeSize(tail), f, rest);
      TimesOne(f, rest);
    } else {
      TimesPlaced(e, pc, b, min);
      TimesDoes(e, back, pc, b, min, f, CodeSize(tail), rest);
    }
  }

  lemma TimesOne(f: Matcher, rest: Matcher)
    ensures Times(f, 1, rest) == Then(f, rest)
  {
    assert Times(f, 0, rest) == rest;
  }

  /** The general encoding of `{min,max}` explores `min` to `max` repetitions of the body, best first. */
  lemma GeneralDoes(e: Env, back: bool, pc: nat, b: seq<Instr>, f: Matcher, min: nat, max: nat, greedy: bool, guarded: bool,
                    c: nat, groups: nat)
    requires Placed(e.bc, pc, GeneralCode(b, min, max, greedy, guarded, c, groups))
    requires Implements(e, b, f) && Steady(e.x, back, f) && Ends(e.x, f, max, guarded)
    ensures Does(e, pc, CodeSize(GeneralCode(b, min, max, greedy, guarded, c, groups)),
                 Repeat(e.x, f, back, min, max, greedy, c, groups))
  {
    hide Does, Decode, Placed, CodeSize, Steady, Moving, ResetCode, SkippableCode, PlusCode, Optional, TimesCode, TailCode;
    var rest := Optional(e.x, f, back, min, max, greedy);
    if min == 0 {
      var pre, code := ResetCode(c, groups), SkippableCode(b, max, greedy, guarded);
      PlacedAppend(e.bc, pc, pre, code);
      SizeAppend(pre, code);
      ResetDoes(e, pc, c, groups);
      ResetSteady(e.x, back, c, groups);
      SkippableDoes(e, back, pc + CodeSize(pre), b, f, max, greedy, guarded);
      CatDoes(e, back, pc, CodeSize(pre), CodeSize(code), ResetAll(c, groups), rest);
      RepeatFromReset(e, pc, CodeSize(pre) + CodeSize(code), f, back, max, greedy, c, groups);
    } else {
      if min == 1 && max == INFINITE && !guarded {
        PlusIsTimes(e, back, pc, b, f, greedy);
      } else {
        CompulsoryDoes(e, back, pc, b, f, min, max, greedy, guarded);
      }
      RepeatFromTimes(e, pc, CodeSize(GeneralCode(b, min, max, greedy, guarded, c, groups)), f, back, min, max, greedy, c, groups);
    }
  }

  lemma PlusIsTimes(e: Env, back: bool, pc: nat, b: seq<Instr>, f: Matcher, greedy: bool)
    requires Placed(e.bc, pc, PlusCode(b, greedy)) && Implements(e, b, f)
    requires Steady(e.x, back, f) && Moving(e.x, f)
    ensures Does(e, pc, CodeSize(PlusCode(b, greedy)), Times(f, 1, Optional(e.x, f, back, 1, INFINITE, greedy)))
  {
    hide Does, Decode, Placed, CodeSize, Steady, Moving;
    var n: int := CodeSize(b);
    PlacedAppend(e.bc, pc, b, [Split(!greedy, -(n + 5))]);
    PlusDoes(e, back, pc, b, f, greedy);
    TimesOne(f, Optional(e.x, f, back, 1, INFINITE, greedy));
  }

  lemma RepeatFromReset(e: Env, pc: nat, size: nat, f: Matcher, back: bool, max: nat, greedy: bool, c: nat, groups: nat)
    requires Does(e, pc, size, Then(ResetAll(c, groups), Optional(e.x, f, back, 0, max, greedy)))
    ensures Does(e, pc, size, Repeat(e.x, f, back, 0, max, greedy, c, groups))
  {
    hide Does, Optional;
    var rest := Optional(e.x, f, back, 0, max, greedy);
    assert Times(f, 0, rest) == rest;
    forall st ensures Then(ResetAll(c, groups), rest)(st) == Repeat(e.x, f, back, 0, max, greedy, c, groups)(st) {
      FlatMapOne(rest, Prepare(st, 0, c, groups));
    }
    DoesCongruence(e, pc, size, Then(ResetAll(c, groups), rest), Repeat(e.x, f, back, 0, max, greedy, c, groups));
  }

  lemma RepeatFromTimes(e: Env, pc: nat, size: nat, f: Matcher, back: bool, min: nat, max: nat, greedy: bool, c: nat, groups: nat)
    requires min > 0 && Does(e, pc, size, Times(f, min, Optional(e.x, f, back, min, max, greedy)))
    ensures Does(e, pc, size, Repeat(e.x, f, back, min, max, greedy, c, groups))
  {
    hide Does, Optional, Times;
    var all := Times(f, min, Optional(e.x, f, back, min, max, greedy));
    forall st ensures all(st) == Repeat(e.x, f, back, min, max, greedy, c, groups)(st) {
      assert Prepare(st, min, c, groups) == st;
    }
    DoesCongruence(e, pc, size, all, Repeat(e.x, f, back, min, max, greedy, c, groups));
  }
}
