/**
 * Loops without a guard: from where they end. A loop that may be left and entered again runs for ever exactly
 * when its rounds can reach a state from which the body also matches without moving.
 */
module Halting {
  import opened Bytes
  import opened Instructions
  import opened Code
  import opened Text
  import opened Pattern
  import opened Progress
  import opened SamePlaces
  import opened Generator
  import opened Machine
  import opened Explore
  import opened Constructs
  import opened Loops
  import opened Correctness

  // ----- the same run above other saved states -----

  function Lift(own: seq<Choice>, s: State): State {
    match s
    case Running(pc, pos, caps, stack, saved) => Running(pc, pos, caps, stack, own + saved)
    case Failing(saved) => Failing(own + saved)
    case Matched(caps, saved) => Matched(caps, own + saved)
    case _ => s
  }

  /** Until it halts a run does not look below the states it has saved itself. */
  lemma LiftStep(e: Env, own: seq<Choice>, s: State)
    requires !Step(e, s).Halted?
    ensures Step(e, Lift(own, s)) == Lift(own, Step(e, s))
  {
    match s
    case Running(pc, _, _, _, _) =>
      hide Decode;
      if Decode(e.bc, pc).Some? { LiftExecute(e, own, Decode(e.bc, pc).value, pc + Size(Decode(e.bc, pc).value), s); }
    case Failing(saved) => LiftResume(e, own, saved);
    case Matched(caps, saved) => LiftAccept(own, caps, saved);
    case _ =>
  }

  lemma LiftExecute(e: Env, own: seq<Choice>, i: Instr, pc: nat, s: State)
    requires s.Running?
    ensures Execute(e, i, pc, Lift(own, s)) == Lift(own, Execute(e, i, pc, s))
  {
    hide SimpleStep, RunGreedy, FollowBackRef, ResetCaps, SetCap, PrevChar;
    assert forall c: Choice :: own + (s.saved + [c]) == own + s.saved + [c];
  }

  lemma LiftResume(e: Env, own: seq<Choice>, saved: seq<Choice>)
    requires saved != []
    ensures Resume(e, own + saved) == Lift(own, Resume(e, saved))
  {
    hide Back, GetU32, GetI32;
    var rest := saved[..|saved| - 1];
    assert (own + saved)[|own + saved| - 1] == saved[|saved| - 1];
    assert (own + saved)[..|own + saved| - 1] == own + rest;
    assert forall c: Choice :: own + (rest + [c]) == own + rest + [c];
  }

  lemma LiftAccept(own: seq<Choice>, caps: seq<int>, saved: seq<Choice>)
    requires saved != []
    ensures Accept(caps, own + saved) == Lift(own, Accept(caps, saved))
  {
    assert (own + saved)[|own + saved| - 1] == saved[|saved| - 1];
    assert (own + saved)[..|own + saved| - 1] == own + saved[..|saved| - 1];
  }

  lemma {:induction false} HaltedStays(e: Env, s: State, n: nat)
    requires s.Halted?
    ensures Steps(e, s, n) == s
    decreases n
  {
    if n > 0 { HaltedStays(e, s, n - 1); }
  }

  lemma NotYetHalted(e: Env, s: State, m: nat, n: nat)
    requires m <= n && !Steps(e, s, n).Halted?
    ensures !Steps(e, s, m).Halted?
  {
    hide Step;
    StepsAdd(e, s, m, n - m);
    if Steps(e, s, m).Halted? { HaltedStays(e, Steps(e, s, m), n - m); }
  }

  lemma {:induction false} LiftSteps(e: Env, own: seq<Choice>, s: State, n: nat)
    requires !Steps(e, s, n).Halted?
    ensures Steps(e, Lift(own, s), n) == Lift(own, Steps(e, s, n))
    decreases n
  {
    hide Step, Lift;
    if n > 0 {
      NotYetHalted(e, s, 1, n);
      assert Steps(e, s, 1) == Steps(e, Step(e, s), 0);
      LiftStep(e, own, s);
      LiftSteps(e, own, Step(e, s), n - 1);
    }
  }

  // ----- rounds -----

  ghost predicate NeverEnds(e: Env, s: State) { forall n: nat :: !Steps(e, s, n).Halted? }

  /** States that follow each other by rounds of `f`. */
  ghost predicate Rounds(f: Matcher, p: seq<St>) {
    p != [] && forall k :: 0 <= k < |p| - 1 ==> p[k + 1] in f(p[k])
  }

  /** No sequence of rounds from `st` ends with a round that stays where it is. */
  ghost predicate AlwaysMoves(f: Matcher, st: St) {
    forall p: seq<St> :: Rounds(f, p) && p[0] == st && |p| > 1 ==> p[|p| - 1].pos != p[|p| - 2].pos
  }

  /** The same by recursion on what is left of the subject. */
  ghost predicate Settled(x: Subject, f: Matcher, back: bool, st: St)
    decreases Left(x, back, st.pos)
  {
    forall t :: t in f(st) ==> Left(x, back, t.pos) < Left(x, back, st.pos) && Settled(x, f, back, t)
  }

  lemma RoundsOne(f: Matcher, st: St, t: St)
    requires t in f(st)
    ensures Rounds(f, [st, t])
  {
  }

  lemma RoundsMore(f: Matcher, st: St, p: seq<St>)
    requires Rounds(f, p) && p[0] in f(st)
    ensures Rounds(f, [st] + p)
  {
  }

  lemma SmallerLeft(x: Subject, back: bool, f: Matcher, st: St, t: St)
    requires Steady(x, back, f) && Good(x, st) && t in f(st)
    ensures Good(x, t) && (Left(x, back, t.pos) < Left(x, back, st.pos) <==> t.pos != st.pos)
  {
    assert Good(x, t);
  }

  lemma {:induction false} SettledMoves(x: Subject, back: bool, f: Matcher, st: St, p: seq<St>)
    requires Steady(x, back, f) && Good(x, st) && Settled(x, f, back, st) && Rounds(f, p) && p[0] == st && |p| > 1
    ensures p[|p| - 1].pos != p[|p| - 2].pos
    decreases |p|
  {
    hide Steady;
    assert p[1] in f(p[0]);
    SmallerLeft(x, back, f, st, p[1]);
    if |p| > 2 {
      assert Rounds(f, p[1..]) by {
        forall k | 0 <= k < |p[1..]| - 1 ensures p[1..][k + 1] in f(p[1..][k]) { assert p[k + 2] in f(p[k + 1]); }
      }
      SettledMoves(x, back, f, p[1], p[1..]);
    }
  }

  lemma {:induction false} MovesSettled(x: Subject, back: bool, f: Matcher, st: St)
    requires Steady(x, back, f) && Good(x, st) && AlwaysMoves(f, st)
    ensures Settled(x, f, back, st)
    decreases Left(x, back, st.pos)
  {
    hide Steady;
    forall t | t in f(st) ensures Left(x, back, t.pos) < Left(x, back, st.pos) && Settled(x, f, back, t) {
      RoundsOne(f, st, t);
      assert [st, t][1].pos != [st, t][0].pos;
      SmallerLeft(x, back, f, st, t);
      forall p: seq<St> | Rounds(f, p) && p[0] == t && |p| > 1 ensures p[|p| - 1].pos != p[|p| - 2].pos {
        RoundsMore(f, st, p);
        var q := [st] + p;
        assert q[|q| - 1].pos != q[|q| - 2].pos;
      }
      MovesSettled(x, back, f, t);
    }
  }

  lemma SettledIff(x: Subject, back: bool, f: Matcher, st: St)
    requires Steady(x, back, f) && Good(x, st)
    ensures Settled(x, f, back, st) <==> AlwaysMoves(f, st)
  {
    hide Steady, Settled;
    if AlwaysMoves(f, st) { MovesSettled(x, back, f, st); }
    if Settled(x, f, back, st) {
      forall p: seq<St> | Rounds(f, p) && p[0] == st && |p| > 1 ensures p[|p| - 1].pos != p[|p| - 2].pos {
        SettledMoves(x, back, f, st, p);
      }
    }
  }

  lemma {:induction false} SettledByPosition(x: Subject, back: bool, f: Matcher, s: St, t: St)
    requires Steady(x, back, f) && SamePositions(x, f) && Good(x, s) && s.pos == t.pos && Settled(x, f, back, s)
    ensures Settled(x, f, back, t)
    decreases Left(x, back, s.pos)
  {
    hide Steady;
    assert Positions(f(s)) == Positions(f(t));
    forall u | u in f(t) ensures Left(x, back, u.pos) < Left(x, back, t.pos) && Settled(x, f, back, u) {
      var k :| 0 <= k < |f(t)| && f(t)[k] == u;
      assert Positions(f(s))[k] == Positions(f(t))[k];
      var v := f(s)[k];
      assert v in f(s);
      SmallerLeft(x, back, f, s, v);
      SettledByPosition(x, back, f, v, u);
    }
  }

  // ----- a loop without a guard -----

  /** What follows `a` finds nothing, and everything saved on the way is used up. */
  ghost predicate Fails(e: Env, a: Place) {
    forall st, base :: Good(e.x, st) ==> Reaches(e, a.With(st, base), Failing(base))
  }

  function Pending(p: Place, st: St): Choice { Choice(SplitPoint, 0, st.pos, p.pc, st.caps, p.stack) }

  /** At `entry` a split leads to a round of `f` from `body` back to `entry`, or out to `exit`. */
  ghost predicate OpenRound(e: Env, entry: Place, body: Place, exit: Place, f: Matcher, greedy: bool) {
    && From(e, body, f, entry)
    && forall st, base :: Good(e.x, st) ==>
         Step(e, entry.With(st, base)) == if greedy then body.With(st, base + [Pending(exit, st)]) else exit.With(st, base + [Pending(body, st)])
  }

  lemma TakeUp(e: Env, p: Place, st: St, base: seq<Choice>)
    ensures Reaches(e, Failing(base + [Pending(p, st)]), p.With(st, base))
  {
    assert (base + [Pending(p, st)])[..|base|] == base;
    ReachesStep(e, Failing(base + [Pending(p, st)]), p.With(st, base));
  }

  /** When going on from every state of a list fails, exploring the list fails. */
  lemma {:induction false} AllFail(e: Env, s: State, mid: Place, l: seq<St>, base: seq<Choice>)
    requires Explores(e, s, mid, l, base)
    requires forall t, base' :: t in l ==> Reaches(e, mid.With(t, base'), Failing(base'))
    ensures Reaches(e, s, Failing(base))
    decreases |l|
  {
    hide Reaches, Place.With;
    if l != [] {
      var own: seq<Choice> :| Plain(own) && Reaches(e, s, mid.With(l[0], base + own)) && Explores(e, Failing(base + own), mid, l[1..], base);
      assert l[0] in l;
      assert Reaches(e, mid.With(l[0], base + own), Failing(base + own));
      ReachesTrans(e, s, mid.With(l[0], base + own), Failing(base + own));
      AllFail(e, Failing(base + own), mid, l[1..], base);
      ReachesTrans(e, s, Failing(base + own), Failing(base));
    }
  }

  /** When going on from all states before the `k`-th fails, the `k`-th is reached. */
  lemma {:induction false} WalkTo(e: Env, s: State, mid: Place, l: seq<St>, k: nat, base: seq<Choice>) returns (own: seq<Choice>)
    requires Explores(e, s, mid, l, base) && k < |l|
    requires forall j, base' :: 0 <= j < k ==> Reaches(e, mid.With(l[j], base'), Failing(base'))
    ensures Reaches(e, s, mid.With(l[k], base + own))
    decreases k
  {
    hide Reaches, Place.With;
    own :| Plain(own) && Reaches(e, s, mid.With(l[0], base + own)) && Explores(e, Failing(base + own), mid, l[1..], base);
    if k > 0 {
      assert Reaches(e, mid.With(l[0], base + own), Failing(base + own));
      ReachesTrans(e, s, mid.With(l[0], base + own), Failing(base + own));
      forall j, base': seq<Choice> | 0 <= j < k - 1 ensures Reaches(e, mid.With(l[1..][j], base'), Failing(base')) {
        assert l[1..][j] == l[j + 1];
      }
      var own' := WalkTo(e, Failing(base + own), mid, l[1..], k - 1, base);
      ReachesTrans(e, s, Failing(base + own), mid.With(l[k], base + own'));
      own := own';
    }
  }

  /** A loop whose rounds always move fails back when what follows fails. */
  lemma {:induction false} FailsBack(e: Env, back: bool, entry: Place, body: Place, exit: Place, f: Matcher, greedy: bool, st: St, base: seq<Choice>)
    requires OpenRound(e, entry, body, exit, f, greedy) && Fails(e, exit) && Steady(e.x, back, f)
    requires Good(e.x, st) && Settled(e.x, f, back, st)
    ensures Reaches(e, entry.With(st, base), Failing(base))
    decreases Left(e.x, back, st.pos)
  {
    hide Reaches, Place.With, Step, Explores, Steady;
    forall t, base': seq<Choice> | t in f(st) ensures Reaches(e, entry.With(t, base'), Failing(base')) {
      SmallerLeft(e.x, back, f, st, t);
      FailsBack(e, back, entry, body, exit, f, greedy, t, base');
    }
    var first, second := if greedy then body else exit, if greedy then exit else body;
    var base1 := base + [Pending(second, st)];
    ReachesStep(e, entry.With(st, base), first.With(st, base1));
    BothFail(e, entry, body, exit, f, st, base1);
    BothFail(e, entry, body, exit, f, st, base);
    TakeUp(e, second, st, base);
    ReachesTrans(e, entry.With(st, base), first.With(st, base1), Failing(base1));
    ReachesTrans(e, entry.With(st, base), Failing(base1), second.With(st, base));
    ReachesTrans(e, entry.With(st, base), second.With(st, base), Failing(base));
  }

  lemma BothFail(e: Env, entry: Place, body: Place, exit: Place, f: Matcher, st: St, base: seq<Choice>)
    requires From(e, body, f, entry) && Fails(e, exit) && Good(e.x, st)
    requires forall t, base' :: t in f(st) ==> Reaches(e, entry.With(t, base'), Failing(base'))
    ensures Reaches(e, body.With(st, base), Failing(base)) && Reaches(e, exit.With(st, base), Failing(base))
  {
    hide Reaches, Place.With, Explores;
    AllFail(e, body.With(st, base), entry, f(st), base);
  }

  /** From the split into the body, if need be by way of the exit. */
  lemma IntoBody(e: Env, entry: Place, body: Place, exit: Place, f: Matcher, greedy: bool, st: St) returns (s1: State, base1: seq<Choice>)
    requires OpenRound(e, entry, body, exit, f, greedy) && Fails(e, exit) && Good(e.x, st)
    ensures s1 == Step(e, entry.With(st, [])) && Reaches(e, s1, body.With(st, base1))
  {
    hide Reaches, Place.With, Step, From, Pending;
    s1 := Step(e, entry.With(st, []));
    if greedy {
      base1 := [] + [Pending(exit, st)];
      ReachesRefl(e, s1);
    } else {
      base1 := [];
      TakeUp(e, body, st, []);
      ReachesTrans(e, s1, Failing([] + [Pending(body, st)]), body.With(st, []));
    }
  }

  /** From a state that is not settled the rounds go on to another such state. */
  lemma NextBad(e: Env, back: bool, entry: Place, body: Place, exit: Place, f: Matcher, greedy: bool, st: St)
    returns (t: St, own: seq<Choice>, m: nat)
    requires OpenRound(e, entry, body, exit, f, greedy) && Fails(e, exit) && Steady(e.x, back, f) && SamePositions(e.x, f)
    requires Good(e.x, st) && !Settled(e.x, f, back, st)
    ensures Good(e.x, t) && !Settled(e.x, f, back, t) && m > 0 && Steps(e, entry.With(st, []), m) == entry.With(t, own)
  {
    hide Reaches, Place.With, Step, Explores, Steady, SamePositions, Settled;
    var k := FirstBad(e.x, back, f, st);
    t := f(st)[k];
    assert t in f(st);
    SmallerLeft(e.x, back, f, st, t);
    forall j, base': seq<Choice> | 0 <= j < k ensures Reaches(e, entry.With(f(st)[j], base'), Failing(base')) {
      assert f(st)[j] in f(st);
      SmallerLeft(e.x, back, f, st, f(st)[j]);
      FailsBack(e, back, entry, body, exit, f, greedy, f(st)[j], base');
    }
    var s1, base1 := IntoBody(e, entry, body, exit, f, greedy, st);
    own := WalkTo(e, body.With(st, base1), entry, f(st), k, base1);
    own := base1 + own;
    ReachesTrans(e, s1, body.With(st, base1), entry.With(t, own));
    var n := HowMany(e, s1, entry.With(t, own));
    m := n + 1;
  }

  lemma HowMany(e: Env, s: State, t: State) returns (n: nat)
    requires Reaches(e, s, t)
    ensures Steps(e, s, n) == t
  {
    n :| Steps(e, s, n) == t;
  }

  /** The first result from which the rounds need not end. */
  lemma FirstBad(x: Subject, back: bool, f: Matcher, st: St) returns (k: nat)
    requires Steady(x, back, f) && SamePositions(x, f) && Good(x, st) && !Settled(x, f, back, st)
    ensures k < |f(st)| && !Settled(x, f, back, f(st)[k]) && forall j :: 0 <= j < k ==> Settled(x, f, back, f(st)[j])
  {
    var i := SomeBad(x, back, f, st);
    k := FirstFrom(x, back, f, f(st), 0, i);
  }

  lemma {:induction false} FirstFrom(x: Subject, back: bool, f: Matcher, l: seq<St>, j: nat, i: nat) returns (k: nat)
    requires j <= i < |l| && !Settled(x, f, back, l[i]) && forall h :: 0 <= h < j ==> Settled(x, f, back, l[h])
    ensures k < |l| && !Settled(x, f, back, l[k]) && forall h :: 0 <= h < k ==> Settled(x, f, back, l[h])
    decreases |l| - j
  {
    hide Settled;
    k := j;
    if Settled(x, f, back, l[j]) { k := FirstFrom(x, back, f, l, j + 1, i); }
  }

  lemma SomeBad(x: Subject, back: bool, f: Matcher, st: St) returns (i: nat)
    requires Steady(x, back, f) && SamePositions(x, f) && Good(x, st) && !Settled(x, f, back, st)
    ensures i < |f(st)| && !Settled(x, f, back, f(st)[i])
  {
    hide Steady, SamePositions;
    var t :| t in f(st) && !(Left(x, back, t.pos) < Left(x, back, st.pos) && Settled(x, f, back, t));
    i :| 0 <= i < |f(st)| && f(st)[i] == t;
    SmallerLeft(x, back, f, st, t);
    if Settled(x, f, back, t) { SettledByPosition(x, back, f, t, st); }
  }

  /** From a state that is not settled the run never halts. */
  lemma {:induction false} NeverHalts(e: Env, back: bool, entry: Place, body: Place, exit: Place, f: Matcher, greedy: bool, st: St, n: nat)
    requires OpenRound(e, entry, body, exit, f, greedy) && Fails(e, exit) && Steady(e.x, back, f) && SamePositions(e.x, f)
    requires Good(e.x, st) && !Settled(e.x, f, back, st)
    ensures !Steps(e, entry.With(st, []), n).Halted?
    decreases n
  {
    hide OpenRound, Fails, Steady, SamePositions, Settled, Step, Lift;
    var t, own, m := NextBad(e, back, entry, body, exit, f, greedy, st);
    if n <= m {
      NotYetHalted(e, entry.With(st, []), n, m);
    } else {
      NeverHalts(e, back, entry, body, exit, f, greedy, t, n - m);
      StepsAdd(e, entry.With(st, []), m, n - m);
      LiftSteps(e, own, entry.With(t, []), n - m);
      LiftEntry(own, entry, t);
      LiftHalted(own, Steps(e, entry.With(t, []), n - m));
    }
  }

  lemma LiftEntry(own: seq<Choice>, a: Place, st: St)
    ensures Lift(own, a.With(st, [])) == a.With(st, own)
  {
    assert own + [] == own;
  }

  lemma LiftHalted(own: seq<Choice>, s: State)
    ensures Lift(own, s).Halted? == s.Halted?
  {
  }

  /**
   * When what follows fails, a loop without a guard fails back from every state from which no rounds end with
   * one that does not move. From every other state its run never ends, if the captures do not decide where a
   * round leads; so then the condition is exact.
   */
  lemma OpenRoundHalts(e: Env, back: bool, entry: Place, body: Place, exit: Place, f: Matcher, greedy: bool, st: St, base: seq<Choice>)
    requires OpenRound(e, entry, body, exit, f, greedy) && Fails(e, exit) && Steady(e.x, back, f) && Good(e.x, st)
    ensures AlwaysMoves(f, st) ==> Reaches(e, entry.With(st, base), Failing(base))
    ensures SamePositions(e.x, f) && !AlwaysMoves(f, st) ==>
              NeverEnds(e, entry.With(st, base)) && !Reaches(e, entry.With(st, base), Failing(base))
  {
    hide OpenRound, Fails, Steady, SamePositions, Settled, AlwaysMoves, Step, Lift;
    SettledIff(e.x, back, f, st);
    if AlwaysMoves(f, st) {
      FailsBack(e, back, entry, body, exit, f, greedy, st, base);
    } else if SamePositions(e.x, f) {
      forall n: nat ensures !Steps(e, entry.With(st, base), n).Halted? && Steps(e, entry.With(st, base), n) != Failing(base) {
        NeverHalts(e, back, entry, body, exit, f, greedy, st, n);
        NeverHalts(e, back, entry, body, exit, f, greedy, st, n + 1);
        LiftSteps(e, base, entry.With(st, []), n);
        LiftEntry(base, entry, st);
        LiftHalted(base, Steps(e, entry.With(st, []), n));
        NotEmpty(e, base, entry.With(st, []), n);
      }
    }
  }

  lemma NotEmpty(e: Env, base: seq<Choice>, s: State, n: nat)
    requires !Steps(e, s, n + 1).Halted?
    ensures Lift(base, Steps(e, s, n)) != Failing(base)
  {
    StepsAdd(e, s, n, 1);
    var t := Steps(e, s, n);
    assert Steps(e, t, 1) == Steps(e, Step(e, t), 0) == Step(e, t);
    if t.Failing? { assert t.saved != [] && |base + t.saved| > |base|; }
  }

  // ----- the loops the compiler writes -----

  /** The loop of `*` without a guard. */
  lemma StarHalts(e: Env, back: bool, pc: nat, b: seq<Instr>, f: Matcher, greedy: bool, stack: seq<int>, st: St, base: seq<Choice>)
    requires Placed(e.bc, pc, StarCode(b, greedy, false)) && Does(e, pc + 5, CodeSize(b), f)
    requires Fails(e, Place(pc + CodeSize(StarCode(b, greedy, false)), stack))
    requires Steady(e.x, back, f) && Good(e.x, st)
    ensures AlwaysMoves(f, st) ==> Reaches(e, Place(pc, stack).With(st, base), Failing(base))
    ensures SamePositions(e.x, f) && !AlwaysMoves(f, st) ==>
              NeverEnds(e, Place(pc, stack).With(st, base)) && !Reaches(e, Place(pc, stack).With(st, base), Failing(base))
  {
    hide Decode, Placed, CodeSize, From, Fails, AlwaysMoves, Steady, SamePositions, Reaches;
    StarPlaced(e, pc, b, greedy, false);
    var n: int := CodeSize(b);
    var entry, body, exit := Place(pc, stack), Place(pc + 5, stack), Place(pc + n + 10, stack);
    assert From(e, body, f, Place(pc + 5 + n, stack));
    FromGoto(e, back, body, f, pc + 5 + n, -(n + 10), entry);
    SplitRound(e, pc, greedy, n + 5, stack);
    assert OpenRound(e, entry, body, exit, f, greedy);
    OpenRoundHalts(e, back, entry, body, exit, f, greedy, st, base);
  }

  /** The split with its two ways out, when the loop lies behind it or in front of it. */
  lemma SplitRound(e: Env, pc: nat, nextFirst: bool, off: int, stack: seq<int>)
    requires Decode(e.bc, pc) == Some(Split(nextFirst, off)) && pc + 5 + off >= 0
    ensures forall st, base :: Good(e.x, st) ==>
              Step(e, Place(pc, stack).With(st, base)) ==
                if nextFirst then Place(pc + 5, stack).With(st, base + [Pending(Place(pc + 5 + off, stack), st)])
                else Place(pc + 5 + off, stack).With(st, base + [Pending(Place(pc + 5, stack), st)])
  {
    hide Decode, GetChar;
  }

  /** The loop of `+`, whose split stands behind the body: every result of the first round must be such a state. */
  lemma PlusHalts(e: Env, back: bool, pc: nat, b: seq<Instr>, f: Matcher, greedy: bool, stack: seq<int>, st: St, base: seq<Choice>)
    requires Placed(e.bc, pc, PlusCode(b, greedy)) && Does(e, pc, CodeSize(b), f)
    requires Fails(e, Place(pc + CodeSize(PlusCode(b, greedy)), stack))
    requires Steady(e.x, back, f) && Good(e.x, st)
    ensures AlwaysMoves(f, st) ==> Reaches(e, Place(pc + CodeSize(b), stack).With(st, base), Failing(base))
    ensures SamePositions(e.x, f) && !AlwaysMoves(f, st) ==>
              NeverEnds(e, Place(pc + CodeSize(b), stack).With(st, base)) && !Reaches(e, Place(pc + CodeSize(b), stack).With(st, base), Failing(base))
  {
    hide Decode, Placed, CodeSize, OpenRound, Fails, AlwaysMoves, Steady, SamePositions, Reaches, PlusCode;
    PlusRounds(e, pc, b, f, greedy, stack);
    var n := CodeSize(b);
    OpenRoundHalts(e, back, Place(pc + n, stack), Place(pc, stack), Place(pc + n + 5, stack), f, greedy, st, base);
  }

  lemma PlusRounds(e: Env, pc: nat, b: seq<Instr>, f: Matcher, greedy: bool, stack: seq<int>)
    requires Placed(e.bc, pc, PlusCode(b, greedy)) && Does(e, pc, CodeSize(b), f)
    ensures var n := CodeSize(b);
            CodeSize(PlusCode(b, greedy)) == n + 5 && OpenRound(e, Place(pc + n, stack), Place(pc, stack), Place(pc + n + 5, stack), f, greedy)
  {
    hide Decode, Placed, CodeSize, From;
    var n: int := CodeSize(b);
    var s := Split(!greedy, -(n + 5));
    PlacedAppend(e.bc, pc, b, [s]);
    PlacedOne(e.bc, pc + n, s);
    SizeAppend(b, [s]);
    SplitRound(e, pc + n, !greedy, -(n + 5), stack);
    assert From(e, Place(pc, stack), f, Place(pc + n, stack));
  }

  /** For a pattern that refers back to no capture: when its lazy loop ends. */
  lemma LazyHaltsIff(e: Env, back: bool, pc: nat, a: Re, c: nat, stack: seq<int>, st: St, base: seq<Choice>)
    requires WellFormed(a) && Terminating(e.o, a, back, c) && NoBackRefs(a) && Good(e.x, st)
    requires Placed(e.bc, pc, StarCode(Gen(e.o, a, back, c), false, false))
    requires Fails(e, Place(pc + CodeSize(StarCode(Gen(e.o, a, back, c), false, false)), stack))
    ensures Reaches(e, Place(pc, stack).With(st, base), Failing(base)) <==> AlwaysMoves(Matches(e.x, e.o, a, back, c), st)
    ensures !AlwaysMoves(Matches(e.x, e.o, a, back, c), st) ==> NeverEnds(e, Place(pc, stack).With(st, base))
  {
    hide Decode, Placed, CodeSize, Does, Fails, AlwaysMoves, Steady, SamePositions, Reaches, Gen, Matches, StarCode, Terminating, WellFormed, NoBackRefs;
    CodeImplements(e, a, back, c);
    MatchesSteady(e.x, e.o, a, back, c);
    MatchesSame(e.x, e.o, a, back, c);
    StarPlaced(e, pc, Gen(e.o, a, back, c), false, false);
    StarHalts(e, back, pc, Gen(e.o, a, back, c), Matches(e.x, e.o, a, back, c), false, stack, st, base);
  }
}
