/** What the loop encodings of quantifiers explore. */
module Loops {
  import opened Bytes
  import opened Instructions
  import opened Code
  import opened Text
  import opened Pattern
  import opened Progress
  import opened Generator
  import opened Machine
  import opened Explore
  import opened Constructs

  lemma OnceDoes(e: Env, pc: nat, b: seq<Instr>, f: Matcher, greedy: bool)
    requires Placed(e.bc, pc, OnceCode(b, greedy)) && Does(e, pc + 5, CodeSize(b), f)
    ensures Does(e, pc, CodeSize(OnceCode(b, greedy)), if greedy then Either(f, Skip()) else Either(Skip(), f))
  {
    hide From, Decode, Placed, CodeSize;
    PlacedCons(e.bc, pc, Split(greedy, CodeSize(b)), b);
    var n := CodeSize(b);
    forall stack: seq<int>
      ensures From(e, Place(pc, stack), if greedy then Either(f, Skip()) else Either(Skip(), f), Place(pc + (n + 5), stack))
    {
      var end := Place(pc + (n + 5), stack);
      assert From(e, Place(pc + 5, stack), f, Place(pc + 5 + n, stack));
      FromSkip(e, end);
      if greedy {
        FromSplit(e, pc, true, n, stack, f, Skip(), end);
      } else {
        FromSplit(e, pc, false, n, stack, Skip(), f, end);
      }
    }
  }

  // ----- counted loops -----

  /** Code at `pc`: a body of `n` bytes, then `loop` back to it, then `drop`. */
  ghost predicate CountedLoop(e: Env, pc: nat, n: nat) {
    Decode(e.bc, pc + n) == Some(Loop(-(n + 5))) && Decode(e.bc, pc + n + 5) == Some(Drop)
  }

  lemma TimesPlaced(e: Env, pc: nat, b: seq<Instr>, k: nat)
    requires Placed(e.bc, pc, TimesCode(b, k))
    ensures Decode(e.bc, pc) == Some(PushI32(k)) && Placed(e.bc, pc + 5, b) && CountedLoop(e, pc + 5, CodeSize(b))
    ensures CodeSize(TimesCode(b, k)) == CodeSize(b) + 11
  {
    hide Decode, Placed, CodeSize;
    var j := Loop(-(CodeSize(b) + 5));
    PlacedCons(e.bc, pc, PushI32(k), b + ([j] + [Drop]));
    PlacedAppend(e.bc, pc + 5, b, [j] + [Drop]);
    SizeAppend(b, [j] + [Drop]);
    PlacedCons(e.bc, pc + 5 + CodeSize(b), j, [Drop]);
    PlacedOne(e.bc, pc + CodeSize(b) + 10, Drop);
  }

  lemma {:induction false} TimesLoop(e: Env, back: bool, pc: nat, n: nat, f: Matcher, k: nat, rest: Matcher, stack: seq<int>, exit: Place)
    requires CountedLoop(e, pc, n) && Does(e, pc, n, f) && Steady(e.x, back, f) && k > 0
    requires From(e, Place(pc + n + 6, stack), rest, exit)
    ensures From(e, Place(pc, stack + [k]), Times(f, k, rest), exit)
    decreases k
  {
    hide From, Decode, Steady, Passes;
    var mid := Place(pc + n, stack + [k]);
    PassLoop(e, pc + n, -(n + 5), k, stack);
    if k == 1 {
      var last := Place(pc + n + 5, stack + [0]);
      PassDrop(e, pc + n + 5, 0, stack);
      FromPass(e, last, Place(pc + n + 6, stack), rest, exit);
      FromPass(e, mid, last, rest, exit);
    } else {
      TimesLoop(e, back, pc, n, f, k - 1, rest, stack, exit);
      FromPass(e, mid, Place(pc, stack + [k - 1]), Times(f, k - 1, rest), exit);
    }
    FromThen(e, back, Place(pc, stack + [k]), f, mid, Times(f, k - 1, rest), exit);
  }

  lemma UptoPlaced(e: Env, pc: nat, b: seq<Instr>, k: nat, greedy: bool)
    requires Placed(e.bc, pc, UptoCode(b, k, greedy))
    ensures Decode(e.bc, pc) == Some(PushI32(k)) && Decode(e.bc, pc + 5) == Some(Split(greedy, CodeSize(b) + 5))
    ensures Placed(e.bc, pc + 10, b)
    ensures Decode(e.bc, pc + CodeSize(b) + 10) == Some(Loop(-(CodeSize(b) + 10)))
    ensures Decode(e.bc, pc + CodeSize(b) + 15) == Some(Drop)
    ensures CodeSize(UptoCode(b, k, greedy)) == CodeSize(b) + 16
  {
    hide Decode, Placed, CodeSize;
    var s, j := Split(greedy, CodeSize(b) + 5), Loop(-(CodeSize(b) + 10));
    PlacedCons(e.bc, pc, PushI32(k), [s] + (b + ([j] + [Drop])));
    PlacedCons(e.bc, pc + 5, s, b + ([j] + [Drop]));
    PlacedAppend(e.bc, pc + 10, b, [j] + [Drop]);
    SizeAppend(b, [j] + [Drop]);
    PlacedCons(e.bc, pc + 10 + CodeSize(b), j, [Drop]);
    PlacedOne(e.bc, pc + CodeSize(b) + 15, Drop);
  }

  lemma {:induction false} UptoLoop(e: Env, back: bool, pc: nat, n: nat, f: Matcher, k: nat, greedy: bool, stack: seq<int>)
    requires Decode(e.bc, pc) == Some(Split(greedy, n + 5))
    requires Decode(e.bc, pc + n + 5) == Some(Loop(-(n + 10))) && Decode(e.bc, pc + n + 10) == Some(Drop)
    requires Does(e, pc + 5, n, f) && Steady(e.x, back, f) && k > 0
    ensures From(e, Place(pc, stack + [k]), Upto(f, k, greedy), Place(pc + n + 11, stack))
    decreases k
  {
    hide From, Decode, Steady, Passes;
    var exit := Place(pc + n + 11, stack);
    var mid := Place(pc + n + 5, stack + [k]);
    FromSkip(e, exit);
    PassLoop(e, pc + n + 5, -(n + 10), k, stack);
    FromDrop(e, pc + n + 10, k, stack);
    if k == 1 {
      FromDrop(e, pc + n + 10, 0, stack);
      FromPass(e, mid, Place(pc + n + 10, stack + [0]), Skip(), exit);
    } else {
      UptoLoop(e, back, pc, n, f, k - 1, greedy, stack);
      FromPass(e, mid, Place(pc, stack + [k - 1]), Upto(f, k - 1, greedy), exit);
    }
    assert From(e, Place(pc + 5, stack + [k]), f, mid);
    FromThen(e, back, Place(pc + 5, stack + [k]), f, mid, Upto(f, k - 1, greedy), exit);
    if greedy {
      FromSplit(e, pc, true, n + 5, stack + [k], Then(f, Upto(f, k - 1, greedy)), Skip(), exit);
    } else {
      FromSplit(e, pc, false, n + 5, stack + [k], Skip(), Then(f, Upto(f, k - 1, greedy)), exit);
    }
  }

  lemma FromDrop(e: Env, pc: nat, k: int, stack: seq<int>)
    requires Decode(e.bc, pc) == Some(Drop)
    ensures From(e, Place(pc, stack + [k]), Skip(), Place(pc + 1, stack))
  {
    hide From, Decode, Passes;
    PassDrop(e, pc, k, stack);
    FromSkip(e, Place(pc + 1, stack));
    FromPass(e, Place(pc, stack + [k]), Place(pc + 1, stack), Skip(), Place(pc + 1, stack));
  }

  lemma UptoDoes(e: Env, back: bool, pc: nat, b: seq<Instr>, f: Matcher, k: nat, greedy: bool)
    requires Placed(e.bc, pc, UptoCode(b, k, greedy)) && Does(e, pc + 10, CodeSize(b), f)
    requires Steady(e.x, back, f) && k > 0
    ensures Does(e, pc, CodeSize(UptoCode(b, k, greedy)), Upto(f, k, greedy))
  {
    hide From, Decode, Steady, Passes, Placed, CodeSize, UptoCode;
    UptoPlaced(e, pc, b, k, greedy);
    var n := CodeSize(b);
    forall stack: seq<int> ensures From(e, Place(pc, stack), Upto(f, k, greedy), Place(pc + (n + 16), stack)) {
      UptoLoop(e, back, pc + 5, n, f, k, greedy, stack);
      PassPush(e, pc, k, stack);
      FromPass(e, Place(pc, stack), Place(pc + 5, stack + [k]), Upto(f, k, greedy), Place(pc + n + 16, stack));
    }
  }

  // ----- unbounded loops -----

  /** Code at `pc`: a split, the optional guard, a body of `n` bytes, and the jump back. */
  ghost predicate OpenLoop(e: Env, pc: nat, n: nat, greedy: bool, guarded: bool) {
    if guarded then
      Decode(e.bc, pc) == Some(Split(greedy, n + 6)) && Decode(e.bc, pc + 5) == Some(PushCharPos)
      && Decode(e.bc, pc + n + 6) == Some(BneCharPos(-(n + 11)))
    else
      Decode(e.bc, pc) == Some(Split(greedy, n + 5)) && Decode(e.bc, pc + n + 5) == Some(Goto(-(n + 10)))
  }

  function GuardSize(guarded: bool): nat { if guarded then 1 else 0 }

  lemma StarPlaced(e: Env, pc: nat, b: seq<Instr>, greedy: bool, guarded: bool)
    requires Placed(e.bc, pc, StarCode(b, greedy, guarded))
    ensures OpenLoop(e, pc, CodeSize(b), greedy, guarded)
    ensures Placed(e.bc, pc + 5 + GuardSize(guarded), b)
    ensures CodeSize(StarCode(b, greedy, guarded)) == CodeSize(b) + 10 + GuardSize(guarded)
  {
    hide Decode, Placed, CodeSize;
    var n: int := CodeSize(b);
    if guarded {
      var j := BneCharPos(-(n + 11));
      PlacedCons(e.bc, pc, Split(greedy, n + 6), [PushCharPos] + (b + [j]));
      PlacedCons(e.bc, pc + 5, PushCharPos, b + [j]);
      PlacedAppend(e.bc, pc + 6, b, [j]);
      SizeAppend(b, [j]);
      PlacedOne(e.bc, pc + 6 + n, j);
    } else {
      var j := Goto(-(n + 10));
      PlacedCons(e.bc, pc, Split(greedy, n + 5), b + [j]);
      PlacedAppend(e.bc, pc + 5, b, [j]);
      SizeAppend(b, [j]);
      PlacedOne(e.bc, pc + 5 + n, j);
    }
  }

  /** Into the body of an open loop: the guard remembers the position. */
  lemma EnterRound(e: Env, pc: nat, n: nat, greedy: bool, guarded: bool, stack: seq<int>, st: St, base: seq<Choice>)
    requires OpenLoop(e, pc, n, greedy, guarded) && Good(e.x, st)
    ensures Reaches(e, Place(pc + 5, stack).With(st, base),
                    Place(pc + 5 + GuardSize(guarded), if guarded then stack + [st.pos] else stack).With(st, base))
  {
    hide Decode, GetChar;
    if guarded {
      ReachesStep(e, Place(pc + 5, stack).With(st, base), Place(pc + 6, stack + [st.pos]).With(st, base));
    } else {
      ReachesRefl(e, Place(pc + 5, stack).With(st, base));
    }
  }

  /** Out of the body of an open loop: back to the split after a move, otherwise on. */
  lemma LeaveRound(e: Env, pc: nat, n: nat, greedy: bool, guarded: bool, stack: seq<int>, from: nat, st: St, base: seq<Choice>)
    requires OpenLoop(e, pc, n, greedy, guarded) && Good(e.x, st)
    requires guarded || st.pos != from
    ensures Reaches(e, Place(pc + 5 + GuardSize(guarded) + n, if guarded then stack + [from] else stack).With(st, base),
                    Place(if st.pos != from then pc else pc + n + 11, stack).With(st, base))
  {
    hide Decode, GetChar;
    assert (stack + [from])[..|stack|] == stack;
    ReachesStep(e, Place(pc + 5 + GuardSize(guarded) + n, if guarded then stack + [from] else stack).With(st, base),
                Place(if st.pos != from then pc else pc + n + 11, stack).With(st, base));
  }

  lemma {:induction false} StarExplores(e: Env, back: bool, pc: nat, n: nat, f: Matcher, greedy: bool, guarded: bool,
                                        stack: seq<int>, st: St, base: seq<Choice>)
    requires OpenLoop(e, pc, n, greedy, guarded) && Does(e, pc + 5 + GuardSize(guarded), n, f)
    requires Steady(e.x, back, f) && (guarded || Moving(e.x, f)) && Good(e.x, st)
    ensures Explores(e, Place(pc, stack).With(st, base), Place(pc + n + 10 + GuardSize(guarded), stack),
                     Star(e.x, f, back, greedy, st), base)
    decreases Left(e.x, back, st.pos), 1
  {
    hide Explores, Decode, Does, Place.With;
    var exit := Place(pc + n + 10 + GuardSize(guarded), stack);
    var more := FlatMap(Again(e.x, f, back, greedy, st), f(st));
    var round := Place(pc + 5, stack);
    forall base': seq<Choice> ensures Explores(e, round.With(st, base'), exit, more, base') {
      RoundExplores(e, back, pc, n, f, greedy, guarded, stack, st, base');
    }
    forall base': seq<Choice> ensures Explores(e, exit.With(st, base'), exit, [st], base') {
      ExploresOne(e, exit, st, base');
    }
    if greedy {
      SplitExplores(e, pc, true, n + 5 + GuardSize(guarded), round, exit, st, base, more, [st], exit);
    } else {
      SplitExplores(e, pc, false, n + 5 + GuardSize(guarded), exit, round, st, base, [st], more, exit);
    }
  }

  lemma {:induction false} RoundExplores(e: Env, back: bool, pc: nat, n: nat, f: Matcher, greedy: bool, guarded: bool,
                                         stack: seq<int>, st: St, base: seq<Choice>)
    requires OpenLoop(e, pc, n, greedy, guarded) && Does(e, pc + 5 + GuardSize(guarded), n, f)
    requires Steady(e.x, back, f) && (guarded || Moving(e.x, f)) && Good(e.x, st)
    ensures Explores(e, Place(pc + 5, stack).With(st, base), Place(pc + n + 10 + GuardSize(guarded), stack),
                     FlatMap(Again(e.x, f, back, greedy, st), f(st)), base)
    decreases Left(e.x, back, st.pos), 0
  {
    hide Explores, Decode, OpenLoop, Reaches;
    var exit := Place(pc + n + 10 + GuardSize(guarded), stack);
    var stack' := if guarded then stack + [st.pos] else stack;
    var body, mid := Place(pc + 5 + GuardSize(guarded), stack'), Place(pc + 5 + GuardSize(guarded) + n, stack');
    var g := Again(e.x, f, back, greedy, st);
    EnterRound(e, pc, n, greedy, guarded, stack, st, base);
    assert From(e, body, f, mid);
    forall t, base': seq<Choice> | t in f(st) ensures Explores(e, mid.With(t, base'), exit, g(t), base') {
      LeaveRound(e, pc, n, greedy, guarded, stack, st.pos, t, base');
      if t.pos != st.pos {
        StarExplores(e, back, pc, n, f, greedy, guarded, stack, t, base');
        ExploresAfter(e, mid.With(t, base'), Place(pc, stack).With(t, base'), exit, g(t), base');
      } else {
        ExploresOne(e, exit, t, base');
        ExploresAfter(e, mid.With(t, base'), exit.With(t, base'), exit, g(t), base');
      }
    }
    ExploresThen(e, body.With(st, base), mid, f(st), g, exit, base);
    ExploresAfter(e, Place(pc + 5, stack).With(st, base), body.With(st, base), exit, FlatMap(g, f(st)), base);
  }

  lemma StarDoes(e: Env, back: bool, pc: nat, b: seq<Instr>, f: Matcher, greedy: bool, guarded: bool)
    requires Placed(e.bc, pc, StarCode(b, greedy, guarded)) && Does(e, pc + 5 + GuardSize(guarded), CodeSize(b), f)
    requires Steady(e.x, back, f) && (guarded || Moving(e.x, f))
    ensures Does(e, pc, CodeSize(StarCode(b, greedy, guarded)), StarFrom(e.x, f, back, greedy))
  {
    hide Explores, Decode, OpenLoop, Steady, Moving, Placed, CodeSize, StarCode;
    StarPlaced(e, pc, b, greedy, guarded);
    var n := CodeSize(b);
    forall stack: seq<int>
      ensures From(e, Place(pc, stack), StarFrom(e.x, f, back, greedy), Place(pc + (n + 10 + GuardSize(guarded)), stack))
    {
      var exit := Place(pc + (n + 10 + GuardSize(guarded)), stack);
      forall st, base | Good(e.x, st)
        ensures Explores(e, Place(pc, stack).With(st, base), exit, StarFrom(e.x, f, back, greedy)(st), base)
      {
        StarExplores(e, back, pc, n, f, greedy, guarded, stack, st, base);
      }
    }
  }

  /** One round and then the split back: the loop of `+`. */
  lemma PlusDoes(e: Env, back: bool, pc: nat, b: seq<Instr>, f: Matcher, greedy: bool)
    requires Placed(e.bc, pc, PlusCode(b, greedy)) && Does(e, pc, CodeSize(b), f)
    requires Steady(e.x, back, f) && Moving(e.x, f)
    ensures Does(e, pc, CodeSize(PlusCode(b, greedy)), Then(f, StarFrom(e.x, f, back, greedy)))
  {
    hide From, Decode, Placed, CodeSize;
    var n: int := CodeSize(b);
    var s := Split(!greedy, -(n + 5));
    PlacedAppend(e.bc, pc, b, [s]);
    PlacedOne(e.bc, pc + n, s);
    SizeAppend(b, [s]);
    forall stack: seq<int>
      ensures From(e, Place(pc, stack), Then(f, StarFrom(e.x, f, back, greedy)), Place(pc + (n + 5), stack))
    {
      assert From(e, Place(pc, stack), f, Place(pc + n, stack));
      FromPlusSplit(e, back, pc, n, f, greedy, stack);
      FromThen(e, back, Place(pc, stack), f, Place(pc + n, stack), StarFrom(e.x, f, back, greedy), Place(pc + (n + 5), stack));
    }
  }

  lemma FromPlusSplit(e: Env, back: bool, pc: nat, n: nat, f: Matcher, greedy: bool, stack: seq<int>)
    requires Decode(e.bc, pc + n) == Some(Split(!greedy, -(n + 5))) && Does(e, pc, n, f)
    requires Steady(e.x, back, f) && Moving(e.x, f)
    ensures From(e, Place(pc + n, stack), StarFrom(e.x, f, back, greedy), Place(pc + n + 5, stack))
  {
    hide Explores, Decode, Steady, Moving, Does;
    var entry := Place(pc + n, stack);
    forall st, base | Good(e.x, st)
      ensures Explores(e, entry.With(st, base), Place(pc + n + 5, stack), StarFrom(e.x, f, back, greedy)(st), base)
    {
      PlusExplores(e, back, pc, n, f, greedy, stack, st, base);
    }
  }

  lemma {:induction false} PlusExplores(e: Env, back: bool, pc: nat, n: nat, f: Matcher, greedy: bool,
                                        stack: seq<int>, st: St, base: seq<Choice>)
    requires Decode(e.bc, pc + n) == Some(Split(!greedy, -(n + 5))) && Does(e, pc, n, f)
    requires Steady(e.x, back, f) && Moving(e.x, f) && Good(e.x, st)
    ensures Explores(e, Place(pc + n, stack).With(st, base), Place(pc + n + 5, stack), Star(e.x, f, back, greedy, st), base)
    decreases Left(e.x, back, st.pos), 1
  {
    hide Explores, Decode, Does, Place.With, Steady, Moving;
    var exit, round := Place(pc + n + 5, stack), Place(pc, stack);
    var more := FlatMap(Again(e.x, f, back, greedy, st), f(st));
    forall base': seq<Choice> ensures Explores(e, round.With(st, base'), exit, more, base') {
      PlusRound(e, back, pc, n, f, greedy, stack, st, base');
    }
    forall base': seq<Choice> ensures Explores(e, exit.With(st, base'), exit, [st], base') {
      ExploresOne(e, exit, st, base');
    }
    if greedy {
      SplitExplores(e, pc + n, false, -(n + 5), round, exit, st, base, more, [st], exit);
    } else {
      SplitExplores(e, pc + n, true, -(n + 5), exit, round, st, base, [st], more, exit);
    }
  }

  lemma {:induction false} PlusRound(e: Env, back: bool, pc: nat, n: nat, f: Matcher, greedy: bool,
                                     stack: seq<int>, st: St, base: seq<Choice>)
    requires Decode(e.bc, pc + n) == Some(Split(!greedy, -(n + 5))) && Does(e, pc, n, f)
    requires Steady(e.x, back, f) && Moving(e.x, f) && Good(e.x, st)
    ensures Explores(e, Place(pc, stack).With(st, base), Place(pc + n + 5, stack),
                     FlatMap(Again(e.x, f, back, greedy, st), f(st)), base)
    decreases Left(e.x, back, st.pos), 0
  {
    hide Explores, Decode;
    var mid, g := Place(pc + n, stack), Again(e.x, f, back, greedy, st);
    assert From(e, Place(pc, stack), f, mid);
    forall t, base': seq<Choice> | t in f(st) ensures Explores(e, mid.With(t, base'), Place(pc + n + 5, stack), g(t), base') {
      PlusExplores(e, back, pc, n, f, greedy, stack, t, base');
    }
    ExploresThen(e, Place(pc, stack).With(st, base), mid, f(st), g, Place(pc + n + 5, stack), base);
  }
}
