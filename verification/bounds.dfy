/** The static stack bound in the header covers every run of a compiled program. */
module Bounds {
  import opened Bytes
  import opened Instructions
  import opened Code
  import opened Text
  import opened Pattern
  import opened Generator
  import opened Machine
  import opened Correctness
  import opened Linking
  import opened Blocks
  import opened Program
  import opened Safety

  /** The greatest height of the linear scan over `code` from `height` on. */
  function Peak(code: seq<Instr>, height: int): int {
    if code == [] then height
    else
      var rest := Peak(code[1..], height + Delta(code[0]));
      if rest > height then rest else height
  }

  lemma {:induction false} PeakCovers(code: seq<Instr>, height: int, j: nat)
    requires j <= |code|
    ensures height + Height(code[..j]) <= Peak(code, height)
    decreases j
  {
    if j > 0 {
      PeakCovers(code[1..], height + Delta(code[0]), j - 1);
      assert code[..j][0] == code[0] && code[..j][1..] == code[1..][..j - 1];
    }
  }

  lemma {:induction false} PeakReached(code: seq<Instr>, height: int) returns (j: nat)
    ensures j <= |code| && height + Height(code[..j]) == Peak(code, height)
  {
    j := 0;
    if code != [] && Peak(code, height) != height {
      j := PeakReached(code[1..], height + Delta(code[0]));
      j := j + 1;
      assert code[..j][0] == code[0] && code[..j][1..] == code[1..][..j - 1];
    }
  }

  /** Two labels at the same byte have the same height: the linear scan is a function of the place. */
  lemma LabelUnique(all: seq<Instr>, at: int, h: int, h': int)
    requires Label(all, at, h) && Label(all, at, h')
    ensures h == h'
  {
    var j :| 0 <= j <= |all| && CodeSize(all[..j]) == at && Height(all[..j]) == h;
    var k :| 0 <= k <= |all| && CodeSize(all[..k]) == at && Height(all[..k]) == h';
    if j < k { PrefixGrows(all, j, k); } else if k < j { PrefixGrows(all, k, j); }
  }

  lemma PrefixGrows(all: seq<Instr>, j: nat, k: nat)
    requires j < k <= |all|
    ensures CodeSize(all[..j]) < CodeSize(all[..k])
  {
    assert all[..k] == all[..j] + all[j..k];
    SizeAppend(all[..j], all[j..k]);
  }

  /** A program without its final `match`. */
  ghost function Body(o: Flags, r: Re, sticky: bool): seq<Instr> {
    (if sticky then [] else Search) + WholeCode(o, r)
  }

  ghost function ImageOf(o: Flags, r: Re, sticky: bool): Image { Image(Body(o, r, sticky), 1 + Groups(r)) }

  /** What a successful compilation of `r` has checked. */
  ghost predicate Compilable(o: Flags, r: Re, sticky: bool) {
    WellFormed(r) && Encodable(r) && 1 + Groups(r) <= 255 && Small(ProgramCode(o, r, sticky))
  }

  lemma SearchClosed(captures: nat)
    ensures Closed(Search, captures)
  {
    var b := [AnyOp];
    ClosedOne(AnyOp, captures);
    SizeHeightOne(AnyOp);
    SingleLabels(Split(false, 6), b, Goto(-11));
    ClosedSingle(Split(false, 6), b, Goto(-11), captures);
  }

  lemma BodyClosed(o: Flags, r: Re, sticky: bool)
    requires Compilable(o, r, sticky)
    ensures Closed(Body(o, r, sticky), 1 + Groups(r))
    ensures ProgramCode(o, r, sticky) == Body(o, r, sticky) + [Match]
  {
    hide Closed, CodeSize, GroupCode, Gen;
    var w, n := WholeCode(o, r), 1 + Groups(r);
    SizeAppend(w, [Match]);
    SizeAppend(if sticky then [] else Search, w + [Match]);
    WholeIsGroup(o, r);
    GenClosed(o, Group(r), false, 0, n);
    SearchClosed(n);
    ClosedNothing(n);
    ClosedAppend(if sticky then [] else Search, w, n);
    assert (if sticky then [] else Search) + (w + [Match]) == (if sticky then [] else Search) + w + [Match];
  }

  lemma WholeIsGroup(o: Flags, r: Re)
    ensures Gen(o, Group(r), false, 0) == WholeCode(o, r)
  {
  }

  /** The bytecode loaded after its header. */
  ghost predicate Compiled(e: Env, r: Re, sticky: bool) {
    Compilable(e.o, r, sticky) && Placed(e.bc, HEADER_LEN, ProgramCode(e.o, r, sticky))
  }

  lemma StartOk(e: Env, r: Re, sticky: bool, cindex: nat)
    requires Compiled(e, r, sticky) && cindex <= |e.x.units|
    ensures var p := ImageOf(e.o, r, sticky); Loaded(e, p) && StateOk(e, p, Start(cindex, p.captures))
  {
    hide Closed, Placed, ProgramCode, Body;
    BodyClosed(e.o, r, sticky);
    LabelStart(Body(e.o, r, sticky));
  }

  /** Height of the counter stack in a state that executes. */
  ghost predicate HeightIs(p: Image, pc: nat, stack: seq<int>, bound: int) {
    Lies(p, pc, |stack|) && (forall h :: Lies(p, pc, h) ==> h == |stack|) && |stack| <= bound
  }

  /**
   * At every moment of every run the program counter is on an instruction of the program, the counter
   * stack is exactly as high as the linear scan says for that instruction, and never higher than the
   * bound in the header. The machine is never stuck.
   */
  lemma StackBound(e: Env, r: Re, sticky: bool, cindex: nat, n: nat)
    requires Compiled(e, r, sticky) && cindex <= |e.x.units|
    ensures var p := ImageOf(e.o, r, sticky);
            var s := Steps(e, Start(cindex, p.captures), n);
            && StateOk(e, p, s) && s != Stuck
            && (s.Running? ==> HeightIs(p, s.pc, s.stack, Peak(ProgramCode(e.o, r, sticky), 0)))
  {
    hide Placed, ProgramCode, Body, Loaded, Steps;
    var p := ImageOf(e.o, r, sticky);
    StartOk(e, r, sticky, cindex);
    RunOk(e, p, Start(cindex, p.captures), n);
    var s := Steps(e, Start(cindex, p.captures), n);
    if s.Running? {
      BodyClosed(e.o, r, sticky);
      HeightBound(e.o, r, sticky, s.pc, |s.stack|);
      forall h | Lies(p, s.pc, h) ensures h == |s.stack| {
        LabelUnique(p.code, s.pc - HEADER_LEN, h, |s.stack|);
      }
    }
  }

  lemma HeightBound(o: Flags, r: Re, sticky: bool, pc: nat, height: int)
    requires Compilable(o, r, sticky) && Lies(ImageOf(o, r, sticky), pc, height)
    ensures height <= Peak(ProgramCode(o, r, sticky), 0)
  {
    hide Compilable, Body, ProgramCode, Peak;
    BodyClosed(o, r, sticky);
    LabelLeft(Body(o, r, sticky), [Match], pc - HEADER_LEN, height);
    var all := ProgramCode(o, r, sticky);
    var j :| 0 <= j <= |all| && CodeSize(all[..j]) == pc - HEADER_LEN && Height(all[..j]) == height;
    PeakCovers(all, 0, j);
  }
}
