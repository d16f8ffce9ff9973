/** A whole compiled expression: its code, and what a run of it finds. */
module Program {
  import opened Bytes
  import opened Instructions
  import opened Code
  import opened Text
  import opened Pattern
  import opened Progress
  import opened Generator
  import opened Machine
  import opened Explore
  import opened Constructs
  import opened Simulate
  import opened Repetition
  import opened Correctness

  const HEADER_LEN: nat := 7

  /** Tries every position in turn, like a lazy loop over any character. */
  const Search: seq<Instr> := [Split(false, 6)] + ([AnyOp] + [Goto(-11)])

  ghost function WholeCode(o: Flags, r: Re): seq<Instr> { GroupCode(Gen(o, r, false, 1), false, 0) }

  ghost function ProgramCode(o: Flags, r: Re, sticky: bool): seq<Instr> {
    (if sticky then [] else Search) + (WholeCode(o, r) + [Match])
  }

  /** The expression as capture group 0. */
  function Whole(x: Subject, o: Flags, r: Re): Matcher { Matches(x, o, Group(r), false, 0) }

  /** The matches from `pos`, and if the search goes on also those from the later positions. */
  function AllFrom(x: Subject, o: Flags, r: Re, sticky: bool, pos: nat, caps: seq<int>): seq<St>
    decreases if pos <= |x.units| then |x.units| - pos else 0
  {
    var here := Whole(x, o, r)(St(pos, caps));
    if sticky || pos >= |x.units| then here
    else here + AllFrom(x, o, r, sticky, GetChar(x, pos, |x.units|).1, caps)
  }

  /** No capture is set. */
  function Unset(n: nat): (caps: seq<int>)
    ensures |caps| == 2 * n && forall k :: 0 <= k < 2 * n ==> caps[k] == -1
  {
    seq(2 * n, _ => -1)
  }

  function Start(cindex: nat, captures: nat): State {
    Running(HEADER_LEN, cindex, Unset(captures), [], [])
  }

  /** The verdict of `lre_exec` and its captures, for a list of matches. */
  function Verdict(l: seq<St>): State {
    if l == [] then Halted(false, []) else Halted(true, l[0].caps)
  }

  lemma WholeTerminates(o: Flags, r: Re)
    requires WellFormed(r) && Terminating(o, r, false, 1)
    ensures WellFormed(Group(r)) && Terminating(o, Group(r), false, 0)
    ensures Gen(o, Group(r), false, 0) == WholeCode(o, r)
  {
  }

  /** Where the pieces of a program lie. */
  lemma ProgramPlaced(e: Env, r: Re, sticky: bool, pc: nat)
    requires Placed(e.bc, pc, ProgramCode(e.o, r, sticky))
    ensures var w := if sticky then pc else pc + 11;
            && Placed(e.bc, w, WholeCode(e.o, r))
            && Decode(e.bc, w + CodeSize(WholeCode(e.o, r))) == Some(Match)
    ensures !sticky ==> Decode(e.bc, pc) == Some(Split(false, 6)) && Decode(e.bc, pc + 5) == Some(AnyOp) && Decode(e.bc, pc + 6) == Some(Goto(-11))
  {
    hide Placed, CodeSize, Decode, WholeCode;
    var w := WholeCode(e.o, r);
    if sticky {
      assert [] + (w + [Match]) == w + [Match];
      PlacedAppend(e.bc, pc, w, [Match]);
      PlacedOne(e.bc, pc + CodeSize(w), Match);
    } else {
      PlacedAppend(e.bc, pc, Search, w + [Match]);
      PlacedCons(e.bc, pc, Split(false, 6), [AnyOp] + [Goto(-11)]);
      PlacedCons(e.bc, pc + 5, AnyOp, [Goto(-11)]);
      PlacedOne(e.bc, pc + 6, Goto(-11));
      PlacedAppend(e.bc, pc + 11, w, [Match]);
      PlacedOne(e.bc, pc + 11 + CodeSize(w), Match);
    }
  }

  /** From the position on, the whole expression explores its matches up to the final `match`. */
  lemma WholeFrom(e: Env, r: Re, sticky: bool, pc: nat)
    requires WellFormed(r) && Terminating(e.o, r, false, 1) && Placed(e.bc, pc, ProgramCode(e.o, r, sticky))
    ensures var w := if sticky then pc else pc + 11;
            From(e, Place(w, []), Whole(e.x, e.o, r), Place(w + CodeSize(WholeCode(e.o, r)), []))
  {
    hide Placed, CodeSize, Decode, From, Gen, Matches, WellFormed, Terminating, ProgramCode;
    ProgramPlaced(e, r, sticky, pc);
    WholeTerminates(e.o, r);
    CodeImplements(e, Group(r), false, 0);
  }

  lemma SearchSteps(e: Env, pc: nat, st: St, base: seq<Choice>)
    requires Decode(e.bc, pc + 5) == Some(AnyOp) && Decode(e.bc, pc + 6) == Some(Goto(-11)) && Good(e.x, st)
    ensures Reaches(e, Place(pc + 5, []).With(st, base),
                    if st.pos >= |e.x.units| then Failing(base)
                    else Place(pc, []).With(St(GetChar(e.x, st.pos, |e.x.units|).1, st.caps), base))
  {
    hide Decode, GetChar, Step, Reaches;
    StepSimple(e, pc + 5, AnyOp, [], st, base);
    if st.pos >= |e.x.units| {
      ReachesStep(e, Place(pc + 5, []).With(st, base), Failing(base));
    } else {
      var next := St(GetChar(e.x, st.pos, |e.x.units|).1, st.caps);
      PrevUndoesGet(e.x, st.pos);
      PassGoto(e, pc + 6, -11, []);
      ReachesStep(e, Place(pc + 5, []).With(st, base), Place(pc + 6, []).With(next, base));
      ReachesStep(e, Place(pc + 6, []).With(next, base), Place(pc, []).With(next, base));
      ReachesTrans(e, Place(pc + 5, []).With(st, base), Place(pc + 6, []).With(next, base), Place(pc, []).With(next, base));
    }
  }

  lemma {:induction false} SearchExplores(e: Env, r: Re, pc: nat, end: nat, st: St, base: seq<Choice>)
    requires Decode(e.bc, pc) == Some(Split(false, 6)) && Decode(e.bc, pc + 5) == Some(AnyOp) && Decode(e.bc, pc + 6) == Some(Goto(-11))
    requires From(e, Place(pc + 11, []), Whole(e.x, e.o, r), Place(end, [])) && Good(e.x, st)
    ensures Explores(e, Place(pc, []).With(st, base), Place(end, []), AllFrom(e.x, e.o, r, false, st.pos, st.caps), base)
    decreases |e.x.units| - st.pos
  {
    hide Decode, Explores, Step, Reaches, Whole, Place.With;
    var n, exit := |e.x.units|, Place(end, []);
    var here := Whole(e.x, e.o, r)(st);
    var first, second := Place(pc + 11, []), Place(pc + 5, []);
    assert st == St(st.pos, st.caps);
    SearchSteps(e, pc, st, base);
    if st.pos >= n {
      ExploresNone(e, exit, base);
      ExploresAfter(e, second.With(st, base), Failing(base), exit, [], base);
      SplitExplores(e, pc, false, 6, first, second, st, base, here, [], exit);
      assert here + [] == here;
    } else {
      var next := St(GetChar(e.x, st.pos, n).1, st.caps);
      PrevUndoesGet(e.x, st.pos);
      SearchExplores(e, r, pc, end, next, base);
      var later := AllFrom(e.x, e.o, r, false, next.pos, st.caps);
      ExploresAfter(e, second.With(st, base), Place(pc, []).With(next, base), exit, later, base);
      SplitExplores(e, pc, false, 6, first, second, st, base, here, later, exit);
    }
  }

  /** A list explored at the final `match` above no saved state decides the verdict. */
  lemma VerdictReached(e: Env, s: State, end: nat, l: seq<St>)
    requires Explores(e, s, Place(end, []), l, []) && Decode(e.bc, end) == Some(Match)
    requires l != [] ==> Good(e.x, l[0])
    ensures Reaches(e, s, Verdict(l))
  {
    hide Decode, Reaches;
    if l == [] {
      ReachesStep(e, Failing([]), Halted(false, []));
      ReachesTrans(e, s, Failing([]), Halted(false, []));
    } else {
      var mid, caps := Place(end, []), l[0].caps;
      var own: seq<Choice> :| Plain(own) && Reaches(e, s, mid.With(l[0], [] + own));
      assert [] + own == own;
      MatchStep(e, end, [], l[0], own);
      ReachesStep(e, mid.With(l[0], own), Matched(caps, own));
      UnwindPlain(e, caps, [], own);
      ReachesStep(e, Matched(caps, []), Halted(true, caps));
      ReachesTrans(e, s, mid.With(l[0], own), Matched(caps, own));
      ReachesTrans(e, s, Matched(caps, own), Matched(caps, []));
      ReachesTrans(e, s, Matched(caps, []), Halted(true, caps));
    }
  }

  lemma {:induction false} AllFromGood(x: Subject, o: Flags, r: Re, sticky: bool, pos: nat, caps: seq<int>)
    requires Boundary(x, pos)
    ensures forall t :: t in AllFrom(x, o, r, sticky, pos, caps) ==> Good(x, t)
    decreases |x.units| - pos
  {
    MatchesSteady(x, o, Group(r), false, 0);
    assert Good(x, St(pos, caps));
    if !sticky && pos < |x.units| {
      PrevUndoesGet(x, pos);
      AllFromGood(x, o, r, sticky, GetChar(x, pos, |x.units|).1, caps);
    }
  }

  /**
   * The bytecode of an expression run from a character boundary halts, finds a match exactly when the
   * matcher has one, and reports the captures of the matcher's first result.
   */
  lemma ProgramCorrect(e: Env, r: Re, sticky: bool, cindex: nat, captures: nat)
    requires WellFormed(r) && Terminating(e.o, r, false, 1)
    requires Placed(e.bc, HEADER_LEN, ProgramCode(e.o, r, sticky))
    requires Boundary(e.x, cindex)
    ensures Reaches(e, Start(cindex, captures), Verdict(AllFrom(e.x, e.o, r, sticky, cindex, Unset(captures))))
  {
    hide Decode, Placed, Explores, Reaches, CodeSize, ProgramCode, WholeCode, AllFrom, Whole, Verdict;
    var st := St(cindex, Unset(captures));
    var w := if sticky then HEADER_LEN else HEADER_LEN + 11;
    var end := w + CodeSize(WholeCode(e.o, r));
    var l := AllFrom(e.x, e.o, r, sticky, cindex, Unset(captures));
    ProgramPlaced(e, r, sticky, HEADER_LEN);
    WholeFrom(e, r, sticky, HEADER_LEN);
    AllFromGood(e.x, e.o, r, sticky, cindex, Unset(captures));
    assert Good(e.x, st);
    if sticky {
      StickyAll(e.x, e.o, r, cindex, Unset(captures));
      assert Explores(e, Place(w, []).With(st, []), Place(end, []), Whole(e.x, e.o, r)(st), []);
    } else {
      SearchExplores(e, r, HEADER_LEN, end, st, []);
    }
    if l != [] { assert l[0] in l; }
    VerdictReached(e, Start(cindex, captures), end, l);
  }

  lemma StickyAll(x: Subject, o: Flags, r: Re, pos: nat, caps: seq<int>)
    ensures AllFrom(x, o, r, true, pos, caps) == Whole(x, o, r)(St(pos, caps))
  {
  }
}
