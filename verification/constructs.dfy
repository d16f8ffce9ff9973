/** What the code of each construct explores, given what its parts explore. */
module Constructs {
  import opened Instructions
  import opened Code
  import opened Text
  import opened Pattern
  import opened Progress
  import opened RangeCode
  import opened Generator
  import opened Machine
  import opened Explore

  // ----- single instructions -----

  lemma PassGoto(e: Env, pc: nat, off: int, stack: seq<int>)
    requires Decode(e.bc, pc) == Some(Goto(off)) && pc + 5 + off >= 0
    ensures Passes(e, Place(pc, stack), Place(pc + 5 + off, stack))
  {
    hide Decode;
  }

  lemma PassPush(e: Env, pc: nat, k: int, stack: seq<int>)
    requires Decode(e.bc, pc) == Some(PushI32(k))
    ensures Passes(e, Place(pc, stack), Place(pc + 5, stack + [k]))
  {
    hide Decode;
  }

  lemma PassDrop(e: Env, pc: nat, k: int, stack: seq<int>)
    requires Decode(e.bc, pc) == Some(Drop)
    ensures Passes(e, Place(pc, stack + [k]), Place(pc + 1, stack))
  {
    hide Decode;
    assert (stack + [k])[..|stack|] == stack;
  }

  lemma PassLoop(e: Env, pc: nat, off: int, k: int, stack: seq<int>)
    requires Decode(e.bc, pc) == Some(Loop(off)) && pc + 5 + off >= 0
    ensures Passes(e, Place(pc, stack + [k]), Place(if k == 1 then pc + 5 else pc + 5 + off, stack + [k - 1]))
  {
    hide Decode;
    assert (stack + [k])[|stack| := k - 1] == stack + [k - 1];
  }

  /** A split tries one way first and keeps the other for later. */
  lemma FromSplit(e: Env, pc: nat, nextFirst: bool, off: int, stack: seq<int>, f: Matcher, g: Matcher, exit: Place)
    requires Decode(e.bc, pc) == Some(Split(nextFirst, off)) && pc + 5 + off >= 0
    requires From(e, Place(if nextFirst then pc + 5 else pc + 5 + off, stack), f, exit)
    requires From(e, Place(if nextFirst then pc + 5 + off else pc + 5, stack), g, exit)
    ensures From(e, Place(pc, stack), Either(f, g), exit)
  {
    hide Explores, Decode;
    var first := Place(if nextFirst then pc + 5 else pc + 5 + off, stack);
    var second := Place(if nextFirst then pc + 5 + off else pc + 5, stack);
    forall st, base | Good(e.x, st)
      ensures Explores(e, Place(pc, stack).With(st, base), exit, Either(f, g)(st), base)
    {
      SplitExplores(e, pc, nextFirst, off, first, second, st, base, f(st), g(st), exit);
    }
  }

  lemma SplitExplores(e: Env, pc: nat, nextFirst: bool, off: int, first: Place, second: Place, st: St, base: seq<Choice>,
                      k: seq<St>, l: seq<St>, exit: Place)
    requires Decode(e.bc, pc) == Some(Split(nextFirst, off)) && pc + 5 + off >= 0
    requires first.pc == if nextFirst then pc + 5 else pc + 5 + off
    requires second == Place(if nextFirst then pc + 5 + off else pc + 5, first.stack)
    requires Good(e.x, st)
    requires forall base' :: Explores(e, first.With(st, base'), exit, k, base')
    requires Explores(e, second.With(st, base), exit, l, base)
    ensures Explores(e, Place(pc, first.stack).With(st, base), exit, k + l, base)
  {
    hide Explores, Decode, GetChar;
    var own := [Choice(SplitPoint, 0, st.pos, second.pc, st.caps, first.stack)];
    ReachesStep(e, Place(pc, first.stack).With(st, base), first.With(st, base + own));
    assert (base + own)[..|base|] == base;
    ReachesStep(e, Failing(base + own), second.With(st, base));
    ExploresAfter(e, Failing(base + own), second.With(st, base), exit, l, base);
    ExploresAppend(e, first.With(st, base + own), exit, k, l, base, own);
    ExploresAfter(e, Place(pc, first.stack).With(st, base), first.With(st, base + own), exit, k + l, base);
  }

  // ----- blocks -----

  /** The block of `size` bytes at `pc` does what `f` says, for every counter stack. */
  ghost predicate Does(e: Env, pc: nat, size: nat, f: Matcher) {
    forall stack: seq<int> :: From(e, Place(pc, stack), f, Place(pc + size, stack))
  }

  lemma CatDoes(e: Env, back: bool, pc: nat, m: nat, n: nat, f: Matcher, g: Matcher)
    requires Steady(e.x, back, f)
    requires Does(e, pc, m, f) && Does(e, pc + m, n, g)
    ensures Does(e, pc, m + n, Then(f, g))
  {
    hide From;
    forall stack: seq<int> ensures From(e, Place(pc, stack), Then(f, g), Place(pc + (m + n), stack)) {
      FromThen(e, back, Place(pc, stack), f, Place(pc + m, stack), g, Place(pc + m + n, stack));
    }
  }

  lemma AltDoes(e: Env, back: bool, pc: nat, a: seq<Instr>, b: seq<Instr>, f: Matcher, g: Matcher)
    requires Steady(e.x, back, f)
    requires Placed(e.bc, pc, AltCode(a, b))
    requires Does(e, pc + 5, CodeSize(a), f) && Does(e, pc + CodeSize(a) + 10, CodeSize(b), g)
    ensures Does(e, pc, CodeSize(AltCode(a, b)), Either(f, g))
  {
    hide From, Placed, CodeSize, AltCode, Decode, Steady;
    AltPlaced(e, pc, a, b);
    var m, n := CodeSize(a), CodeSize(b);
    forall stack: seq<int> ensures From(e, Place(pc, stack), Either(f, g), Place(pc + (m + n + 10), stack)) {
      var end := Place(pc + m + n + 10, stack);
      assert From(e, Place(pc + 5, stack), f, Place(pc + 5 + m, stack));
      FromGoto(e, back, Place(pc + 5, stack), f, pc + 5 + m, n, end);
      FromSplit(e, pc, true, m + 5, stack, f, g, end);
    }
  }

  lemma FromGoto(e: Env, back: bool, a: Place, f: Matcher, pc: nat, off: int, c: Place)
    requires Steady(e.x, back, f)
    requires Decode(e.bc, pc) == Some(Goto(off)) && c.pc == pc + 5 + off
    requires From(e, a, f, Place(pc, c.stack))
    ensures From(e, a, f, c)
  {
    hide From, Decode, Steady, Passes;
    PassGoto(e, pc, off, c.stack);
    FromSkip(e, c);
    FromPass(e, Place(pc, c.stack), c, Skip(), c);
    FromOnward(e, back, a, f, Place(pc, c.stack), c);
  }

  lemma AltPlaced(e: Env, pc: nat, a: seq<Instr>, b: seq<Instr>)
    requires Placed(e.bc, pc, AltCode(a, b))
    ensures Decode(e.bc, pc) == Some(Split(true, CodeSize(a) + 5))
    ensures Placed(e.bc, pc + 5, a)
    ensures Decode(e.bc, pc + 5 + CodeSize(a)) == Some(Goto(CodeSize(b)))
    ensures Placed(e.bc, pc + CodeSize(a) + 10, b)
    ensures CodeSize(AltCode(a, b)) == CodeSize(a) + CodeSize(b) + 10
  {
    hide Decode, Placed, CodeSize;
    var i, j := Split(true, CodeSize(a) + 5), Goto(CodeSize(b));
    PlacedCons(e.bc, pc, i, a + ([j] + b));
    PlacedAppend(e.bc, pc + 5, a, [j] + b);
    SizeAppend(a, [j] + b);
    PlacedCons(e.bc, pc + 5 + CodeSize(a), j, b);
  }
}
