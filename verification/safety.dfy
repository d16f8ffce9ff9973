/**
 * Safety of every run: whatever the pattern and the subject, the machine never leaves the program, never
 * gets stuck, and its counter stack is always as high as the linear scan says.
 */
module Safety {
  import opened Bytes
  import opened Instructions
  import opened Code
  import opened Text
  import opened Pattern
  import opened Generator
  import opened Machine
  import opened Explore
  import opened FastQuantifier
  import opened Correctness
  import opened Linking
  import opened Blocks
  import opened Program

  /** A program without its final `match`, and its number of captures. */
  datatype Image = Image(code: seq<Instr>, captures: nat)

  /** The image is closed and is what the bytecode holds, followed by `match`. */
  ghost predicate Loaded(e: Env, p: Image) {
    Closed(p.code, p.captures) && Placed(e.bc, HEADER_LEN, p.code + [Match])
  }

  /** `pc` is an instruction of the program where the linear scan gives `height`. */
  ghost predicate Lies(p: Image, pc: int, height: int) { Label(p.code, pc - HEADER_LEN, height) }

  ghost predicate CapsOk(x: Subject, p: Image, caps: seq<int>) {
    |caps| == 2 * p.captures && forall k :: 0 <= k < |caps| ==> -1 <= caps[k] <= |x.units|
  }

  /** The position of a greedy point was reached by `count` rounds of `k` characters. */
  ghost predicate Rounds(x: Subject, pos: nat, k: nat, count: nat) {
    exists from: nat :: from <= |x.units| && Forward(x, from, k * count) == pos
  }

  ghost predicate GreedyOk(e: Env, p: Image, c: Choice) {
    c.pc >= 1 && c.count >= 1 &&
    match Decode(e.bc, c.pc - 1)
    case Some(SimpleGreedyQuant(off, _, _, k)) =>
      k > 0 && Lies(p, c.pc + 16 + off, |c.stack|) && Rounds(e.x, c.pos, k, c.count)
    case _ => false
  }

  ghost predicate ChoiceOk(e: Env, p: Image, c: Choice) {
    CapsOk(e.x, p, c.caps) && c.pos <= |e.x.units| &&
    if c.kind == GreedyPoint then GreedyOk(e, p, c) else Lies(p, c.pc, |c.stack|)
  }

  ghost predicate ChoicesOk(e: Env, p: Image, saved: seq<Choice>) {
    forall k :: 0 <= k < |saved| ==> ChoiceOk(e, p, saved[k])
  }

  /** The invariant of every run. */
  ghost predicate StateOk(e: Env, p: Image, s: State) {
    match s
    case Running(pc, pos, caps, stack, saved) =>
      Lies(p, pc, |stack|) && pos <= |e.x.units| && CapsOk(e.x, p, caps) && ChoicesOk(e, p, saved)
    case Failing(saved) => ChoicesOk(e, p, saved)
    case Matched(caps, saved) => CapsOk(e.x, p, caps) && ChoicesOk(e, p, saved)
    case Halted(found, caps) => found ==> CapsOk(e.x, p, caps)
    case Stuck => false
  }

  // ----- where a running state is -----

  lemma {:induction false} LinkedAt(all: seq<Instr>, code: seq<Instr>, at: int, height: int, captures: nat, j: nat)
    requires Linked(all, code, at, height, captures) && j < |code|
    ensures Sound(all, code[j..], at + CodeSize(code[..j]), height + Height(code[..j]), captures)
    decreases code
  {
    hide Sound, Size, Delta;
    if j == 0 {
      assert code[0..] == code && code[..0] == [];
    } else {
      LinkedAt(all, code[1..], at + Size(code[0]), height + Delta(code[0]), captures, j - 1);
      assert code[1..][j - 1..] == code[j..];
      assert code[..j][0] == code[0] && code[..j][1..] == code[1..][..j - 1];
    }
  }

  lemma LabelNext(all: seq<Instr>, j: nat)
    requires j < |all|
    ensures Label(all, CodeSize(all[..j]) + Size(all[j]), Height(all[..j]) + Delta(all[j]))
  {
    hide Size, Delta, Label, CodeSize, Height;
    assert all[..j + 1] == all[..j] + [all[j]];
    SizeAppend(all[..j], [all[j]]);
    HeightAppend(all[..j], [all[j]]);
    SizeHeightOne(all[j]);
    LabelEnd(all[..j + 1]);
    LabelLeft(all[..j + 1], all[j + 1..], CodeSize(all[..j + 1]), Height(all[..j + 1]));
    assert all[..j + 1] + all[j + 1..] == all;
  }

  /** What the code holds at a place of the program. */
  lemma FetchAt(e: Env, p: Image, pc: nat, height: int) returns (rest: seq<Instr>, j: nat)
    requires Loaded(e, p) && Lies(p, pc, height)
    ensures j <= |p.code| && rest == p.code[j..]
    ensures Placed(e.bc, pc, rest + [Match])
    ensures rest != [] ==> Sound(p.code, rest, pc - HEADER_LEN, height, p.captures) && Lies(p, pc + Size(rest[0]), height + Delta(rest[0]))
  {
    hide Decode, Placed, Sound, Size, Delta, CodeSize, Height, Linked;
    j :| 0 <= j <= |p.code| && CodeSize(p.code[..j]) == pc - HEADER_LEN && Height(p.code[..j]) == height;
    rest := p.code[j..];
    assert p.code + [Match] == p.code[..j] + (rest + [Match]);
    PlacedAppend(e.bc, HEADER_LEN, p.code[..j], rest + [Match]);
    if j < |p.code| {
      LinkedAt(p.code, p.code, 0, 0, p.captures, j);
      LabelNext(p.code, j);
    }
  }

  // ----- one step keeps the invariant -----

  lemma SetCapOk(x: Subject, p: Image, caps: seq<int>, k: nat, v: int)
    requires CapsOk(x, p, caps) && -1 <= v <= |x.units|
    ensures CapsOk(x, p, SetCap(caps, k, v))
  {
  }

  lemma {:induction false} ResetCapsOk(x: Subject, p: Image, caps: seq<int>, first: nat, last: int)
    requires CapsOk(x, p, caps)
    ensures CapsOk(x, p, ResetCaps(caps, first, last))
    decreases last - first
  {
    if first <= last {
      SetCapOk(x, p, caps, 2 * first, -1);
      SetCapOk(x, p, SetCap(caps, 2 * first, -1), 2 * first + 1, -1);
      ResetCapsOk(x, p, SetCap(SetCap(caps, 2 * first, -1), 2 * first + 1, -1), first + 1, last);
    }
  }

  /** Instructions that move or test the position. */
  lemma MoveStepOk(e: Env, p: Image, s: State, i: Instr)
    requires s.Running? && StateOk(e, p, s) && Decode(e.bc, s.pc) == Some(i)
    requires Lies(p, s.pc + Size(i), |s.stack|)
    requires IsSimple(i) || i.Prev? || i.BackRefOp? || i.Match?
    requires Fits(i)
    ensures StateOk(e, p, Step(e, s))
  {
    hide Decode, Lies, ChoicesOk, GetChar, PrevChar, FollowBackRef, SimpleStep, CapsOk, Size;
  }

  /** Instructions that save positions or work on the counter stack. */
  lemma SaveStepOk(e: Env, p: Image, s: State, i: Instr)
    requires s.Running? && StateOk(e, p, s) && Decode(e.bc, s.pc) == Some(i)
    requires Lies(p, s.pc + Size(i), |s.stack| + Delta(i))
    requires i.PushI32? || i.PushCharPos? || i.Drop? || i.Save? || i.SaveReset?
    requires |s.stack| + Delta(i) >= 0 && Fits(i)
    ensures StateOk(e, p, Step(e, s))
  {
    hide Decode, Lies, ChoicesOk, SimpleStep, CapsOk, Size;
    if i.Save? { SetCapOk(e.x, p, s.caps, if i.end then 2 * i.n + 1 else 2 * i.n, s.pos); }
    if i.SaveReset? { ResetCapsOk(e.x, p, s.caps, i.first, i.last); }
  }

  lemma JumpStepOk(e: Env, p: Image, s: State, i: Instr)
    requires s.Running? && StateOk(e, p, s) && Decode(e.bc, s.pc) == Some(i)
    requires Lies(p, s.pc + Size(i), |s.stack| + Delta(i))
    requires i.Goto? || i.Split? || i.Loop? || i.BneCharPos? || i.Lookahead?
    requires |s.stack| + Delta(i) >= 0 && (i.Loop? ==> |s.stack| >= 1)
    requires Lies(p, s.pc + Size(i) + i.off, |s.stack| + Delta(i))
    ensures StateOk(e, p, Step(e, s))
  {
    hide Decode, CapsOk, Lies;
    LiesInside(p, s.pc + Size(i) + i.off, |s.stack| + Delta(i));
  }

  lemma LiesInside(p: Image, pc: int, height: int)
    requires Lies(p, pc, height)
    ensures pc >= HEADER_LEN
  {
  }

  lemma ChainStep(e: Env, code: seq<Instr>, ps: seq<nat>, i: nat)
    requires SimpleCount(code) > 0 && Chain(e, code, ps) && i + 1 < |ps|
    ensures ps[i] <= |e.x.units| && Forward(e.x, ps[i], SimpleCount(code)) == ps[i + 1]
  {
    hide RunLine, SimpleCount, Forward;
    assert RunLine(e, code, ps[i + 1 - 1]) == ps[i + 1];
    RunLineForward(e, code, ps[i]);
  }

  lemma {:induction false} ChainForward(e: Env, code: seq<Instr>, ps: seq<nat>, i: nat, m: nat, k: nat)
    requires k == SimpleCount(code) > 0 && Chain(e, code, ps) && i + m < |ps|
    ensures ps[i] <= |e.x.units| && Forward(e.x, ps[i], k * m) == ps[i + m]
  {
    hide RunLine, SimpleCount, Forward;
    if m == 0 {
      assert k * m == 0;
      ForwardZero(e.x, ps[i]);
    } else {
      ChainForward(e, code, ps, i, m - 1, k);
      ChainStep(e, code, ps, i + m - 1);
      var before := k * (m - 1);
      assert k * m == before + k;
      ForwardSplit(e.x, ps[i], before, k);
    }
  }

  lemma ForwardZero(x: Subject, pos: nat)
    requires pos <= |x.units|
    ensures Forward(x, pos, 0) == pos
  {
  }

  lemma GreedyStepOk(e: Env, p: Image, s: State, rest: seq<Instr>)
    requires Loaded(e, p) && s.Running? && StateOk(e, p, s) && rest != [] && rest[0].SimpleGreedyQuant?
    requires Placed(e.bc, s.pc, rest + [Match]) && Sound(p.code, rest, s.pc - HEADER_LEN, |s.stack|, p.captures)
    ensures StateOk(e, p, Step(e, s))
  {
    hide Decode, Placed, StateOk, Lies, Label, CodeSize, Height, SimpleCount, Closed;
    var i := rest[0];
    assert rest + [Match] == [i] + (rest[1..] + [Match]);
    PlacedCons(e.bc, s.pc, i, rest[1..] + [Match]);
    var code := GreedyBody(e, s.pc + 17, rest[1..], i.off, i.count);
    LiesFromLabel(p, s.pc + 17 + i.off, |s.stack|);
    GreedyTarget(e, p, s, i, code);
  }

  /** The fast quantifier leaves a point whose rounds are those the greedy loop has run. */
  lemma GreedyTarget(e: Env, p: Image, s: State, i: Instr, code: seq<Instr>)
    requires s.Running? && StateOk(e, p, s) && Decode(e.bc, s.pc) == Some(i)
    requires i.SimpleGreedyQuant? && 0 <= i.min <= i.max && 0 < i.max && i.off == CodeSize(code) + 1
    requires SimpleCount(code) == i.count > 0 && Placed(e.bc, s.pc + 17, code) && Decode(e.bc, s.pc + 17 + CodeSize(code)) == Some(Match)
    requires Lies(p, s.pc + 17 + i.off, |s.stack|)
    ensures StateOk(e, p, Step(e, s))
  {
    hide Decode, Placed, CapsOk, Lies, CodeSize, SimpleCount, RunGreedy, RunLine, Forward, Rounds, Step;
    var ps := GreedyChain(e, s.pc + 17, code, s.pos, i.max, 0);
    assert s == Place(s.pc, s.stack).With(St(ps[0], s.caps), s.saved);
    FastStep(e, code, s.pc, ps, i.min, i.max, s.caps, s.stack, s.saved);
    if |ps| - 1 > i.min {
      ChainRounds(e, code, ps, i.min);
    }
  }

  lemma ChainRounds(e: Env, code: seq<Instr>, ps: seq<nat>, min: nat)
    requires SimpleCount(code) > 0 && Chain(e, code, ps) && min < |ps| - 1
    ensures Rounds(e.x, ps[|ps| - 1], SimpleCount(code), |ps| - 1 - min)
  {
    hide RunLine, SimpleCount, Forward;
    ChainForward(e, code, ps, min, |ps| - 1 - min, SimpleCount(code));
  }

  lemma LiesFromLabel(p: Image, pc: int, height: int)
    requires Label(p.code, pc - HEADER_LEN, height)
    ensures Lies(p, pc, height)
  {
  }

  /** The straight-line body that follows a fast quantifier. */
  lemma GreedyBody(e: Env, pc: nat, rest: seq<Instr>, off: int, count: int) returns (code: seq<Instr>)
    requires Placed(e.bc, pc, rest + [Match]) && BodyAhead(rest, off, count)
    ensures SimpleCount(code) == count > 0 && Placed(e.bc, pc, code) && Decode(e.bc, pc + CodeSize(code)) == Some(Match)
    ensures off == CodeSize(code) + 1 && code <= rest
  {
    hide Decode, Placed, SimpleCount, CodeSize;
    var m :| 0 <= m < |rest| && SimpleCount(rest[..m]) == count && count > 0 && CodeSize(rest[..m]) + 1 == off && rest[m] == Match;
    code := rest[..m];
    assert rest + [Match] == code + ([Match] + (rest[m + 1..] + [Match]));
    PlacedAppend(e.bc, pc, code, [Match] + (rest[m + 1..] + [Match]));
    PlacedCons(e.bc, pc + CodeSize(code), Match, rest[m + 1..] + [Match]);
  }

  lemma RunningStepOk(e: Env, p: Image, s: State)
    requires Loaded(e, p) && s.Running? && StateOk(e, p, s)
    ensures StateOk(e, p, Step(e, s))
  {
    hide Decode, Placed, Lies, Label, CodeSize, Height, Closed, Step, StateOk, BodyAhead, CapsOk;
    RunningLies(e, p, s);
    var rest, _ := FetchAt(e, p, s.pc, |s.stack|);
    if rest == [] {
      assert rest + [Match] == [Match];
      PlacedOne(e.bc, s.pc, Match);
      MatchStepOk(e, p, s);
    } else {
      var i := rest[0];
      assert rest + [Match] == [i] + (rest[1..] + [Match]);
      PlacedCons(e.bc, s.pc, i, rest[1..] + [Match]);
      if i.SimpleGreedyQuant? {
        GreedyStepOk(e, p, s, rest);
      } else if i.Goto? || i.Split? || i.Loop? || i.BneCharPos? || i.Lookahead? {
        LiesFromLabel(p, s.pc + Size(i) + i.off, |s.stack| + Delta(i));
        JumpStepOk(e, p, s, i);
      } else {
        if i.PushI32? || i.PushCharPos? || i.Drop? || i.Save? || i.SaveReset? {
          SaveStepOk(e, p, s, i);
        } else {
          MoveStepOk(e, p, s, i);
        }
      }
    }
  }

  lemma RunningLies(e: Env, p: Image, s: State)
    requires s.Running? && StateOk(e, p, s)
    ensures Lies(p, s.pc, |s.stack|)
  {
  }

  lemma MatchStepOk(e: Env, p: Image, s: State)
    requires s.Running? && StateOk(e, p, s) && Decode(e.bc, s.pc) == Some(Match)
    ensures StateOk(e, p, Step(e, s))
  {
    hide Decode, CapsOk, Lies;
  }

  /** Going back one round keeps the remaining rounds. */
  lemma RoundsBack(x: Subject, pos: nat, k: nat, count: nat)
    requires k > 0 && count > 0 && pos <= |x.units| && Rounds(x, pos, k, count)
    ensures Back(x, pos, k) >= 0
    ensures count > 1 ==> Rounds(x, Back(x, pos, k), k, count - 1)
  {
    hide Forward, Back, Boundary;
    var from: nat :| from <= |x.units| && Forward(x, from, k * count) == pos;
    var m := k * (count - 1);
    assert k * count == m + k;
    ForwardPrefix(x, from, m, k);
    ForwardSplit(x, from, m, k);
    var p := Forward(x, from, m);
    BackDefined(x, p, k);
    if count > 1 {
      assert m >= 1;
      ForwardBoundary(x, from, m);
      BackUndoesForward(x, p, k);
    }
  }

  lemma {:induction false} ForwardPrefix(x: Subject, pos: nat, j: nat, k: nat)
    requires pos <= |x.units| && Forward(x, pos, j + k) >= 0
    ensures Forward(x, pos, j) >= 0
    decreases j
  {
    if j > 0 { ForwardPrefix(x, GetChar(x, pos, |x.units|).1, j - 1, k); }
  }

  lemma ResumeGreedyOk(e: Env, p: Image, saved: seq<Choice>)
    requires ChoicesOk(e, p, saved) && saved != [] && saved[|saved| - 1].kind == GreedyPoint
    ensures StateOk(e, p, Resume(e, saved))
  {
    hide Decode, CapsOk, Lies, Rounds, Back, GetI32, GetU32;
    var top := saved[|saved| - 1];
    assert ChoiceOk(e, p, top);
    var SimpleGreedyQuant(off, min, max, k) := Decode(e.bc, top.pc - 1).value;
    QuantFields(e.bc, top.pc - 1, off, min, max, k);
    RoundsBack(e.x, top.pos, k, top.count);
    LiesInside(p, top.pc + 16 + off, |top.stack|);
  }

  lemma ResumeOk(e: Env, p: Image, saved: seq<Choice>)
    requires ChoicesOk(e, p, saved)
    ensures StateOk(e, p, Resume(e, saved))
  {
    if saved != [] && saved[|saved| - 1].kind == GreedyPoint {
      ResumeGreedyOk(e, p, saved);
    } else if saved != [] {
      hide CapsOk, Lies;
      assert ChoiceOk(e, p, saved[|saved| - 1]);
    }
  }

  lemma AcceptOk(e: Env, p: Image, caps: seq<int>, saved: seq<Choice>)
    requires ChoicesOk(e, p, saved) && CapsOk(e.x, p, caps)
    ensures StateOk(e, p, Accept(caps, saved))
  {
    hide CapsOk, Lies;
    if saved != [] { assert ChoiceOk(e, p, saved[|saved| - 1]); }
  }

  lemma StepOk(e: Env, p: Image, s: State)
    requires Loaded(e, p) && StateOk(e, p, s)
    ensures StateOk(e, p, Step(e, s))
  {
    hide Decode, CapsOk, Lies, ChoicesOk, Resume, Accept, Execute, Loaded;
    match s
    case Running(_, _, _, _, _) => RunningStepOk(e, p, s);
    case Failing(saved) => ResumeOk(e, p, saved);
    case Matched(caps, saved) => AcceptOk(e, p, caps, saved);
    case Halted(_, _) =>
  }

  /** The invariant holds at every moment of every run. */
  lemma {:induction false} RunOk(e: Env, p: Image, s: State, n: nat)
    requires Loaded(e, p) && StateOk(e, p, s)
    ensures StateOk(e, p, Steps(e, s, n))
    decreases n
  {
    hide StateOk, Step, Loaded;
    if n > 0 {
      StepOk(e, p, s);
      RunOk(e, p, Step(e, s), n - 1);
    }
  }
}
