/** The backtracking machine: one step of `lre_exec_backtrack` as a function on its state. */
module Machine {
  import opened Bytes
  import opened Instructions
  import opened Code
  import opened Text
  import opened Pattern
  import opened RangeCode

  datatype Kind = SplitPoint | LookPoint | NegativeLookPoint | GreedyPoint

  /** A saved state: `count` is only used by greedy points. */
  datatype Choice = Choice(kind: Kind, count: nat, pos: nat, pc: nat, caps: seq<int>, stack: seq<int>)

  /**
   * `Running` executes at `pc`; `Failing` and `Matched` are the two ways of unwinding the saved
   * states, after `no_match` and after the `match` opcode.
   */
  datatype State =
    | Running(pc: nat, pos: nat, caps: seq<int>, stack: seq<int>, saved: seq<Choice>)
    | Failing(saved: seq<Choice>)
    | Matched(caps: seq<int>, saved: seq<Choice>)
    | Halted(found: bool, caps: seq<int>)
    | Stuck

  /** What is fixed during a run. */
  datatype Env = Env(x: Subject, o: Flags, bc: seq<byte>)

  /** One opcode that reads a character or tests the position: the new position, or -1. */
  function SimpleStep(e: Env, i: Instr, pos: nat): (r: int)
    requires pos <= |e.x.units|
    ensures -1 <= r <= |e.x.units|
  {
    var n := |e.x.units|;
    match i
    case LineStartOp => if AtLineStart(e.x, e.o, pos) then pos else -1
    case LineEndOp => if AtLineEnd(e.x, e.o, pos) then pos else -1
    case WordBoundaryOp(neg) => if AtWordBoundary(e.x, pos) != neg then pos else -1
    case _ =>
      if pos >= n then -1
      else
        var (c, next) := GetChar(e.x, pos, n);
        if CharAccepts(e.o, i, c) then next else -1
  }

  predicate CharAccepts(o: Flags, i: Instr, c: code) {
    match i
    case Char(ch) => ch == o.Fold(c)
    case Char32(ch) => ch == o.Fold(c)
    case DotOp => !IsLineTerminator(c)
    case AnyOp => true
    case Range(pairs) => Accepts16(pairs, o.Fold(c))
    case Range32(pairs) => Accepts32(pairs, o.Fold(c))
    case _ => false
  }

  /** The nested run of a quantified straight-line body, up to its `match`: the final position, -1 for no match. */
  function RunBody(e: Env, pc: nat, pos: nat): (r: int)
    requires pos <= |e.x.units|
    ensures -1 <= r <= |e.x.units|
    decreases |e.bc| - pc
  {
    if pc >= |e.bc| then -1
    else
      match Decode(e.bc, pc)
      case None => -1
      case Some(i) =>
        if i == Match then pos
        else if !IsSimple(i) || SimpleStep(e, i, pos) < 0 then -1
        else RunBody(e, pc + Size(i), SimpleStep(e, i, pos))
  }

  /** The greedy loop: how often the body matched, and where it ended. */
  function RunGreedy(e: Env, pc: nat, pos: nat, max: nat, q: nat): (r: (nat, nat))
    requires pos <= |e.x.units|
    ensures r.0 >= q && r.1 <= |e.x.units|
    decreases |e.x.units| - pos
  {
    var p := RunBody(e, pc, pos);
    if p < 0 then (q, pos)
    else if q + 1 >= max && max != INFINITE then (q + 1, p)
    else if p <= pos then (q + 1, p)
    else RunGreedy(e, pc, p, max, q + 1)
  }

  /** Executes the instruction `i` whose successor in the code is at `pc`. */
  function Execute(e: Env, i: Instr, pc: nat, s: State): State
    requires s.Running?
  {
    var n := |e.x.units|;
    var pos, caps, stack, saved := s.pos, s.caps, s.stack, s.saved;
    if pos > n then Stuck
    else if IsSimple(i) then
      var p := SimpleStep(e, i, pos);
      if p < 0 then Failing(saved) else Running(pc, p, caps, stack, saved)
    else
      match i
      case Goto(off) => Jump(s, pc + off)
      case Split(nextFirst, off) =>
        if pc + off < 0 then Stuck
        else if nextFirst then Running(pc, pos, caps, stack, saved + [Choice(SplitPoint, 0, pos, pc + off, caps, stack)])
        else Running(pc + off, pos, caps, stack, saved + [Choice(SplitPoint, 0, pos, pc, caps, stack)])
      case Match => Matched(caps, saved)
      case Save(end, k) => if k < 0 then Stuck else Running(pc, pos, SetCap(caps, if end then 2 * k + 1 else 2 * k, pos), stack, saved)
      case SaveReset(first, last) => if first < 0 then Stuck else Running(pc, pos, ResetCaps(caps, first, last), stack, saved)
      case PushI32(k) => Running(pc, pos, caps, stack + [k], saved)
      case Drop => if stack == [] then Stuck else Running(pc, pos, caps, stack[..|stack| - 1], saved)
      case Loop(off) =>
        if stack == [] then Stuck
        else
          var top := stack[|stack| - 1] - 1;
          Jump(s.(stack := stack[|stack| - 1 := top]), if top != 0 then pc + off else pc)
      case PushCharPos => Running(pc, pos, caps, stack + [pos], saved)
      case BneCharPos(off) =>
        if stack == [] then Stuck
        else Jump(s.(stack := stack[..|stack| - 1]), if stack[|stack| - 1] != pos then pc + off else pc)
      case BackRefOp(backward, k) =>
        if k < 0 then Stuck
        else
          var p := FollowBackRef(e.x, e.o, caps, k, backward, pos);
          if p < 0 then Failing(saved) else Running(pc, p, caps, stack, saved)
      case Lookahead(neg, off) =>
        if pc + off < 0 then Stuck
        else
          var kind := if neg then NegativeLookPoint else LookPoint;
          Running(pc, pos, caps, stack, saved + [Choice(kind, 0, pos, pc + off, caps, stack)])
      case Prev => if pos == 0 then Failing(saved) else Running(pc, PrevChar(e.x, pos), caps, stack, saved)
      case SimpleGreedyQuant(off, min, max, _) =>
        if min < 0 || max < 0 || pc + off < 0 || pc < 16 then Stuck
        else
          var (q, p) := RunGreedy(e, pc, pos, max, 0);
          if q < min then Failing(saved)
          else if q > min then
            Running(pc + off, p, caps, stack, saved + [Choice(GreedyPoint, q - min, p, pc - 16, caps, stack)])
          else Running(pc + off, p, caps, stack, saved)
  }

  function Jump(s: State, target: int): State
    requires s.Running?
  {
    if target < 0 then Stuck else s.(pc := target)
  }

  /** Takes up the most recent saved state after a failure. */
  function Resume(e: Env, saved: seq<Choice>): State {
    if saved == [] then Halted(false, [])
    else
      var top, rest := saved[|saved| - 1], saved[..|saved| - 1];
      match top.kind
      case SplitPoint => Running(top.pc, top.pos, top.caps, top.stack, rest)
      case LookPoint => Failing(rest)
      case NegativeLookPoint => Running(top.pc, top.pos, top.caps, top.stack, rest)
      case GreedyPoint =>
        if top.pos > |e.x.units| || top.pc + 16 > |e.bc| then Stuck
        else
          var pos := Back(e.x, top.pos, GetU32(e.bc, top.pc + 12));
          var pc := top.pc + 16 + GetI32(e.bc, top.pc);
          if pos < 0 || pc < 0 || top.count == 0 then Stuck
          else
            var left := if top.count == 1 then rest else rest + [top.(pos := pos, count := top.count - 1)];
            Running(pc, pos, top.caps, top.stack, left)
  }

  /** Unwinds the saved states after a match: up to the innermost lookaround, if there is one. */
  function Accept(caps: seq<int>, saved: seq<Choice>): State {
    if saved == [] then Halted(true, caps)
    else
      var top, rest := saved[|saved| - 1], saved[..|saved| - 1];
      match top.kind
      case LookPoint => Running(top.pc, top.pos, caps, top.stack, rest)
      case NegativeLookPoint => Failing(rest)
      case _ => Matched(caps, rest)
  }

  function Step(e: Env, s: State): State {
    match s
    case Running(pc, _, _, _, _) =>
      (match Decode(e.bc, pc)
       case None => Stuck
       case Some(i) => Execute(e, i, pc + Size(i), s))
    case Failing(saved) => Resume(e, saved)
    case Matched(caps, saved) => Accept(caps, saved)
    case _ => s
  }

  function Steps(e: Env, s: State, n: nat): State
    decreases n
  {
    if n == 0 then s else Steps(e, Step(e, s), n - 1)
  }

  lemma {:induction false} StepsAdd(e: Env, s: State, m: nat, n: nat)
    ensures Steps(e, s, m + n) == Steps(e, Steps(e, s, m), n)
    decreases m
  {
    hide Step;
    if m > 0 {
      StepsAdd(e, Step(e, s), m - 1, n);
    }
  }
}
