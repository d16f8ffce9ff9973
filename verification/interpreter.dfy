/** `lre_exec` and `lre_exec_backtrack`: the backtracking interpreter over its mutable stacks. */
module Interpreter {
  import opened Bytes
  import opened Instructions
  import opened Code
  import opened Text
  import opened Pattern
  import opened RangeCode
  import opened Machine
  import opened FastQuantifier
  import opened Linking
  import opened Safety
  import opened Scans

  // ----- reading instructions -----

  lemma OpcodeAt(b: seq<byte>, pc: nat, i: Instr)
    requires Decode(b, pc) == Some(i)
    ensures pc < |b| && b[pc] == Opcode(i) && pc + FixedSize(b[pc]) <= |b|
  {
    hide GetU16, GetU32, GetI32;
  }

  // ----- character sets -----

  /** The binary search of the `range` opcode over the `n` intervals stored from `q` on. */
  method SearchRange16(b: seq<byte>, q: nat, n: nat, c: code) returns (found: bool)
    requires 0 < n && q + 4 * n <= |b| && Ordered(GetPairs16(b, q, n))
    ensures found == Accepts16(GetPairs16(b, q, n), c)
  {
    hide GetU16, GetPairs16, Ordered;
    ghost var pairs := GetPairs16(b, q, n);
    var idxMin: nat := 0;
    var low := GetU16(b, q);
    assert pairs[0].0 == low;
    if c < low {
      return false;
    }
    var idxMax: nat := n - 1;
    var high := GetU16(b, q + 4 * idxMax + 2);
    if c >= 0xffff && high == 0xffff {
      return true;
    }
    if c > high {
      return false;
    }
    while idxMin <= idxMax
      invariant idxMax < n && Search(pairs, c, 0, n - 1) == Search(pairs, c, idxMin, idxMax)
      decreases idxMax as int - idxMin
    {
      var idx := (idxMin + idxMax) / 2;
      low := GetU16(b, q + 4 * idx);
      high := GetU16(b, q + 4 * idx + 2);
      assert pairs[idx] == (low, high);
      if c < low {
        NoUnderflow(pairs, c, idxMin, idxMax);
        idxMax := idx - 1;
      } else if c > high {
        idxMin := idx + 1;
      } else {
        return true;
      }
    }
    return false;
  }

  method SearchRange32(b: seq<byte>, q: nat, n: nat, c: code) returns (found: bool)
    requires 0 < n && q + 8 * n <= |b| && Ordered(GetPairs32(b, q, n))
    ensures found == Accepts32(GetPairs32(b, q, n), c)
  {
    hide GetU32, GetPairs32, Ordered;
    ghost var pairs := GetPairs32(b, q, n);
    var idxMin: nat := 0;
    var low := GetU32(b, q);
    assert pairs[0].0 == low;
    if c < low {
      return false;
    }
    var idxMax: nat := n - 1;
    var high := GetU32(b, q + 8 * idxMax + 4);
    if c > high {
      return false;
    }
    while idxMin <= idxMax
      invariant idxMax < n && Search(pairs, c, 0, n - 1) == Search(pairs, c, idxMin, idxMax)
      decreases idxMax as int - idxMin
    {
      var idx := (idxMin + idxMax) / 2;
      low := GetU32(b, q + 8 * idx);
      high := GetU32(b, q + 8 * idx + 4);
      assert pairs[idx] == (low, high);
      if c < low {
        NoUnderflow(pairs, c, idxMin, idxMax);
        idxMax := idx - 1;
      } else if c > high {
        idxMin := idx + 1;
      } else {
        return true;
      }
    }
    return false;
  }

  // ----- opcodes that read a character or test the position -----

  ghost predicate RangeOk(i: Instr) { i.Range? || i.Range32? ==> i.pairs != [] && Ordered(i.pairs) }

  /** The character opcode `op` with operands at `q` accepts `c`; `next` is the place after the instruction. */
  method TestChar(e: Env, op: byte, q: nat, c: code, ghost i: Instr) returns (ok: bool, next: nat)
    requires q > 0 && Decode(e.bc, q - 1) == Some(i) && IsCharOp(i) && RangeOk(i) && op == e.bc[q - 1] == Opcode(i)
    requires q - 1 + FixedSize(op) <= |e.bc|
    ensures ok == CharAccepts(e.o, i, c) && next == q - 1 + Size(i)
  {
    hide Ordered, Search, GetU16, GetU32, GetPairs16, GetPairs32;
    if op == CHAR {
      ok, next := GetU16(e.bc, q) == e.o.Fold(c), q + 2;
    } else if op == CHAR32 {
      ok, next := GetU32(e.bc, q) == e.o.Fold(c), q + 4;
    } else if op == DOT {
      ok, next := !IsLineTerminator(c), q;
    } else if op == ANY {
      ok, next := true, q;
    } else if op == RANGE {
      var n := GetU16(e.bc, q);
      ok := SearchRange16(e.bc, q + 2, n, e.o.Fold(c));
      next := q + 2 + 4 * n;
    } else {
      var n := GetU16(e.bc, q);
      ok := SearchRange32(e.bc, q + 2, n, e.o.Fold(c));
      next := q + 2 + 8 * n;
    }
  }

  /** One such opcode from `pos`: the new position, or -1 for no match. */
  method TestOp(e: Env, op: byte, q: nat, pos: nat, ghost i: Instr) returns (p: int, next: nat)
    requires q > 0 && Decode(e.bc, q - 1) == Some(i) && IsSimple(i) && RangeOk(i) && op == e.bc[q - 1] == Opcode(i)
    requires q - 1 + FixedSize(op) <= |e.bc| && pos <= |e.x.units|
    ensures p == SimpleStep(e, i, pos) && (p >= 0 ==> next == q - 1 + Size(i))
  {
    hide Decode, CharAccepts, Size, RangeOk;
    OpcodeKinds(i);
    TestSizes(i);
    next := q;
    if op == LINE_START {
      p := if AtLineStart(e.x, e.o, pos) then pos else -1;
    } else if op == LINE_END {
      p := if AtLineEnd(e.x, e.o, pos) then pos else -1;
    } else if op == WORD_BOUNDARY {
      p := if AtWordBoundary(e.x, pos) then pos else -1;
    } else if op == NOT_WORD_BOUNDARY {
      p := if AtWordBoundary(e.x, pos) then -1 else pos;
    } else {
      if pos >= |e.x.units| {
        return -1, q;
      }
      var (c, after) := GetChar(e.x, pos, |e.x.units|);
      var ok, n := TestChar(e, op, q, c, i);
      p, next := if ok then after else -1, n;
    }
  }

  lemma TestSizes(i: Instr)
    ensures IsAssertion(i) ==> Size(i) == 1
    ensures Opcode(i) == LINE_START <==> i == LineStartOp
    ensures Opcode(i) == LINE_END <==> i == LineEndOp
    ensures Opcode(i) == WORD_BOUNDARY <==> i == WordBoundaryOp(false)
    ensures Opcode(i) == NOT_WORD_BOUNDARY <==> i == WordBoundaryOp(true)
  {
  }

  // ----- the nested run of a quantified body -----

  ghost predicate BodyPlaced(e: Env, pc: nat, code: seq<Instr>) {
    SimpleCount(code) >= 0 && Placed(e.bc, pc, code) && Decode(e.bc, pc + CodeSize(code)) == Some(Match)
    && forall k :: 0 <= k < |code| ==> RangeOk(code[k])
  }

  /** The call of the interpreter on itself that stops at `match` and does not backtrack. */
  method RunNested(e: Env, start: nat, cptr: nat, ghost code: seq<Instr>) returns (res: int)
    requires cptr <= |e.x.units| && BodyPlaced(e, start, code)
    ensures res == RunBody(e, start, cptr)
  {
    hide Decode, SimpleStep, Size, RangeOk, RunBody, BodyPlaced;
    ghost var rest := code;
    var pc: nat, pos: nat := start, cptr;
    while true
      invariant pos <= |e.x.units| && BodyPlaced(e, pc, rest)
      invariant RunBody(e, start, cptr) == RunBody(e, pc, pos)
      decreases |rest|
    {
      ghost var i := BodyFront(e, pc, rest);
      OpcodeAt(e.bc, pc, i);
      MatchOpcode(i);
      RunBodyStep(e, pc, i, pos);
      var op := e.bc[pc];
      if op == MATCH {
        return pos;
      }
      var p, next := TestOp(e, op, pc + 1, pos, i);
      if p < 0 {
        return -1;
      }
      BodyRest(e, pc, rest);
      pc, pos := next, p;
      rest := rest[1..];
    }
  }

  /** The next opcode of the body, or the `match` behind it. */
  lemma BodyFront(e: Env, pc: nat, code: seq<Instr>) returns (i: Instr)
    requires BodyPlaced(e, pc, code)
    ensures Decode(e.bc, pc) == Some(i) && if code == [] then i == Match else i == code[0] && IsSimple(i) && RangeOk(i)
  {
    hide Decode, Size, RangeOk;
    i := if code == [] then Match else code[0];
    if code != [] { SimpleCountCons(code); }
  }

  lemma MatchOpcode(i: Instr)
    ensures Opcode(i) == MATCH <==> i == Match
    ensures IsSimple(i) ==> i != Match
  {
  }

  lemma BodyRest(e: Env, pc: nat, code: seq<Instr>)
    requires BodyPlaced(e, pc, code) && code != []
    ensures BodyPlaced(e, pc + Size(code[0]), code[1..])
  {
    hide Decode, Size, RangeOk;
    SimpleCountCons(code);
    forall k | 0 <= k < |code[1..]| ensures RangeOk(code[1..][k]) { assert code[1..][k] == code[k + 1]; }
  }

  /** The greedy loop of `simple_greedy_quant`. */
  method RunRounds(e: Env, pc: nat, cptr: nat, max: nat, ghost code: seq<Instr>) returns (q: nat, p: nat)
    requires cptr <= |e.x.units| && BodyPlaced(e, pc, code) && SimpleCount(code) > 0
    ensures (q, p) == RunGreedy(e, pc, cptr, max, 0)
  {
    hide Decode, RunBody, SimpleCount, BodyPlaced;
    q, p := 0, cptr;
    while true
      invariant p <= |e.x.units| && RunGreedy(e, pc, cptr, max, 0) == RunGreedy(e, pc, p, max, q)
      decreases |e.x.units| - p
    {
      var res := RunNested(e, pc, p, code);
      if res < 0 {
        return;
      }
      BodyAdvances(e, pc, p, code);
      p := res;
      q := q + 1;
      if q >= max && max != INFINITE {
        return;
      }
    }
  }

  lemma BodyAdvances(e: Env, pc: nat, pos: nat, code: seq<Instr>)
    requires pos <= |e.x.units| && BodyPlaced(e, pc, code) && SimpleCount(code) > 0 && RunBody(e, pc, pos) >= 0
    ensures RunBody(e, pc, pos) > pos
  {
    hide Decode, RunLine, SimpleCount, RunBody, RangeOk, Placed, CodeSize;
    RunBodyLine(e, pc, code, pos);
    RunLineForward(e, code, pos);
  }

  // ----- back references -----

  /** The comparison loop of a back reference that reads forwards. */
  method FollowForward(e: Env, start: nat, end: nat, cptr: nat) returns (p: int)
    requires end <= |e.x.units| && cptr <= |e.x.units|
    ensures p == SameForward(e.x, e.o, start, end, cptr)
  {
    hide GetChar;
    var cptr1: nat, pos: nat := start, cptr;
    while cptr1 < end
      invariant pos <= |e.x.units|
      invariant SameForward(e.x, e.o, start, end, cptr) == SameForward(e.x, e.o, cptr1, end, pos)
    {
      if pos >= |e.x.units| {
        return -1;
      }
      var (c1, next1) := GetChar(e.x, cptr1, end);
      var (c2, next) := GetChar(e.x, pos, |e.x.units|);
      if e.o.Fold(c1) != e.o.Fold(c2) {
        return -1;
      }
      cptr1, pos := next1, next;
    }
    return pos;
  }

  method FollowBackward(e: Env, start: nat, end: nat, cptr: nat) returns (p: int)
    requires end <= |e.x.units| && cptr <= |e.x.units|
    ensures p == SameBackward(e.x, e.o, start, end, cptr)
  {
    hide GetPrevChar;
    var cptr1: nat, pos: nat := end, cptr;
    while cptr1 > start
      invariant cptr1 <= |e.x.units| && pos <= |e.x.units|
      invariant SameBackward(e.x, e.o, start, end, cptr) == SameBackward(e.x, e.o, start, cptr1, pos)
    {
      if pos == 0 {
        return -1;
      }
      var (c1, next1) := GetPrevChar(e.x, cptr1, start);
      var (c2, next) := GetPrevChar(e.x, pos, 0);
      if e.o.Fold(c1) != e.o.Fold(c2) {
        return -1;
      }
      cptr1, pos := next1, next;
    }
    return pos;
  }

  // ----- the interpreter -----

  datatype Outcome = Continue | NoMatch | Accepted

  class Exec {
    const e: Env
    const captureCount: nat
    const stackSizeMax: nat
    var capture: array<int>
    var stack: array<int>
    var stackLen: nat
    var pc: nat
    var cptr: nat
    var stateStack: seq<Choice>

    ghost predicate Valid()
      reads this
    {
      capture.Length == 2 * captureCount && stack.Length == stackSizeMax && stackLen <= stack.Length && capture != stack
    }

    function Caps(): seq<int>
      reads this, capture
    {
      capture[..]
    }

    function Counters(): seq<int>
      requires Valid()
      reads this, stack
    {
      stack[..stackLen]
    }

    /** The abstract state while instructions run. */
    function Now(): State
      requires Valid()
      reads this, capture, stack
    {
      Running(pc, cptr, capture[..], stack[..stackLen], stateStack)
    }

    /** The abstract state after an instruction. */
    function After(outcome: Outcome): State
      requires Valid()
      reads this, capture, stack
    {
      match outcome
      case Continue => Now()
      case NoMatch => Failing(stateStack)
      case Accepted => Matched(capture[..], stateStack)
    }

    /** The arrays stay the same objects. */
    twostate predicate SameArrays()
      reads this
    {
      Valid() && capture == old(capture) && stack == old(stack)
    }

    constructor (e: Env, captureCount: nat, stackSizeMax: nat, cindex: nat)
      ensures Valid() && fresh(capture) && fresh(stack)
      ensures this.e == e && this.captureCount == captureCount && this.stackSizeMax == stackSizeMax
      ensures Caps() == seq(2 * captureCount, _ => -1) && stackLen == 0 && pc == 7 && cptr == cindex && stateStack == []
    {
      this.e, this.captureCount, this.stackSizeMax := e, captureCount, stackSizeMax;
      capture := new int[2 * captureCount](_ => -1);
      stack := new int[stackSizeMax](_ => 0);
      stackLen, pc, cptr, stateStack := 0, 7, cindex, [];
    }

    /** `push_state`. */
    method PushState(kind: Kind, savedPc: nat, savedPos: nat, count: nat)
      requires Valid()
      modifies this`stateStack
      ensures Valid() && stateStack == old(stateStack) + [Choice(kind, count, savedPos, savedPc, old(Caps()), old(Counters()))]
    {
      stateStack := stateStack + [Choice(kind, count, savedPos, savedPc, capture[..], stack[..stackLen])];
    }

    /** `split` and `lookahead`. */
    method StepBranch(op: byte, ghost i: Instr)
      requires Valid() && cptr <= |e.x.units| && Decode(e.bc, pc) == Some(i) && (i.Split? || i.Lookahead?)
      requires op == Opcode(i) && pc + 5 + i.off >= 0
      modifies this
      ensures SameArrays() && Now() == Step(e, old(Now()))
    {
      hide GetI32;
      var val := GetI32(e.bc, pc + 1);
      pc := pc + 5;
      if op == SPLIT_NEXT_FIRST {
        PushState(SplitPoint, pc + val, cptr, 0);
      } else if op == SPLIT_GOTO_FIRST {
        PushState(SplitPoint, pc, cptr, 0);
        pc := pc + val;
      } else {
        PushState(if op == NEGATIVE_LOOKAHEAD then NegativeLookPoint else LookPoint, pc + val, cptr, 0);
      }
    }

    /** `goto`, `loop` and `bne_char_pos`. */
    method StepJump(op: byte, ghost i: Instr)
      requires Valid() && cptr <= |e.x.units| && Decode(e.bc, pc) == Some(i) && (i.Goto? || i.Loop? || i.BneCharPos?)
      requires op == Opcode(i) && pc + 5 + i.off >= 0 && (!i.Goto? ==> stackLen > 0)
      modifies this, stack
      ensures SameArrays() && Now() == Step(e, old(Now())) && stateStack == old(stateStack)
    {
      hide GetI32, Decode, Step;
      JumpEffect(e, Now(), i);
      var val := GetI32(e.bc, pc + 1);
      pc := pc + 5;
      if op == GOTO {
        pc := pc + val;
      } else if op == LOOP {
        stack[stackLen - 1] := stack[stackLen - 1] - 1;
        if stack[stackLen - 1] != 0 {
          pc := pc + val;
        }
      } else {
        stackLen := stackLen - 1;
        if stack[stackLen] != cptr {
          pc := pc + val;
        }
      }
    }

    /** `push_i32`, `push_char_pos` and `drop`. */
    method StepStack(op: byte, ghost i: Instr)
      requires Valid() && cptr <= |e.x.units| && Decode(e.bc, pc) == Some(i) && (i.PushI32? || i.PushCharPos? || i.Drop?)
      requires op == Opcode(i) && (if i.Drop? then stackLen > 0 else stackLen < stackSizeMax)
      modifies this, stack
      ensures SameArrays() && Now() == Step(e, old(Now())) && stateStack == old(stateStack)
    {
      hide GetU32, Decode, Step;
      StackEffect(e, Now(), i);
      if op == PUSH_I32 {
        stack[stackLen] := GetU32(e.bc, pc + 1);
        stackLen := stackLen + 1;
        pc := pc + 5;
      } else if op == PUSH_CHAR_POS {
        stack[stackLen] := cptr;
        stackLen := stackLen + 1;
        pc := pc + 1;
      } else {
        stackLen := stackLen - 1;
        pc := pc + 1;
      }
    }

    /** `save_start` and `save_end`. */
    method StepSave(op: byte, ghost i: Instr)
      requires Valid() && cptr <= |e.x.units| && Decode(e.bc, pc) == Some(i) && i.Save? && 0 <= i.n < captureCount
      requires op == Opcode(i)
      modifies this, capture
      ensures SameArrays() && Now() == Step(e, old(Now())) && stateStack == old(stateStack)
    {
      var val: nat := e.bc[pc + 1];
      capture[2 * val + if op == SAVE_END then 1 else 0] := cptr;
      pc := pc + 2;
    }

    /** `save_reset`. */
    method StepReset(ghost i: Instr)
      requires Valid() && cptr <= |e.x.units| && Decode(e.bc, pc) == Some(i) && i.SaveReset? && 0 <= i.first <= i.last < captureCount
      modifies this, capture
      ensures SameArrays() && Now() == Step(e, old(Now())) && stateStack == old(stateStack)
    {
      hide Decode, Step;
      ResetEffect(e, Now(), i);
      var val: nat, val2: nat := e.bc[pc + 1], e.bc[pc + 2];
      while val <= val2
        invariant SameArrays() && val <= val2 + 1 && val2 < captureCount && stackLen == old(stackLen)
        invariant stack[..] == old(stack[..])
        invariant ResetCaps(capture[..], val, val2) == ResetCaps(old(capture[..]), i.first, i.last)
        modifies capture
      {
        ghost var before := capture[..];
        capture[2 * val] := -1;
        capture[2 * val + 1] := -1;
        assert capture[..] == SetCap(SetCap(before, 2 * val, -1), 2 * val + 1, -1);
        val := val + 1;
      }
      pc := pc + 3;
    }

    /** `back_reference` and its backward form. */
    method StepBackRef(op: byte, ghost i: Instr) returns (ok: bool)
      requires Valid() && cptr <= |e.x.units| && Decode(e.bc, pc) == Some(i) && i.BackRefOp? && op == Opcode(i)
      requires forall k :: 0 <= k < capture.Length ==> -1 <= capture[k] <= |e.x.units|
      modifies this
      ensures SameArrays() && After(if ok then Continue else NoMatch) == Step(e, old(Now())) && stateStack == old(stateStack)
    {
      hide SameForward, SameBackward;
      var val: nat := e.bc[pc + 1];
      pc := pc + 2;
      if val >= captureCount {
        return false;
      }
      var start, end := capture[2 * val], capture[2 * val + 1];
      if start < 0 || end < 0 {
        return true;
      }
      var p: int;
      if op == BACK_REFERENCE {
        p := FollowForward(e, start, end, cptr);
      } else {
        p := FollowBackward(e, start, end, cptr);
      }
      if p < 0 {
        return false;
      }
      cptr := p;
      return true;
    }

    /** `prev`. */
    method StepPrev(ghost i: Instr) returns (ok: bool)
      requires Valid() && cptr <= |e.x.units| && Decode(e.bc, pc) == Some(i) && i.Prev?
      modifies this
      ensures SameArrays() && After(if ok then Continue else NoMatch) == Step(e, old(Now())) && stateStack == old(stateStack)
    {
      hide PrevChar;
      if cptr == 0 {
        return false;
      }
      cptr := PrevChar(e.x, cptr);
      pc := pc + 1;
      return true;
    }

    method StepTest(op: byte, ghost i: Instr) returns (ok: bool)
      requires Valid() && cptr <= |e.x.units| && Decode(e.bc, pc) == Some(i) && IsSimple(i) && RangeOk(i)
      requires op == e.bc[pc] == Opcode(i) && pc + FixedSize(op) <= |e.bc|
      modifies this
      ensures SameArrays() && After(if ok then Continue else NoMatch) == Step(e, old(Now())) && stateStack == old(stateStack)
    {
      hide Decode, SimpleStep, Size, RangeOk, FixedSize;
      var p, next := TestOp(e, op, pc + 1, cptr, i);
      if p < 0 {
        return false;
      }
      pc, cptr := next, p;
      return true;
    }

    /** `simple_greedy_quant`: all rounds at once, and a saved state from which they are undone one by one. */
    method StepQuant(ghost i: Instr, ghost code: seq<Instr>) returns (ok: bool)
      requires Valid() && cptr <= |e.x.units| && Decode(e.bc, pc) == Some(i) && i.SimpleGreedyQuant? && pc + 17 + i.off >= 0
      requires BodyPlaced(e, pc + 17, code) && SimpleCount(code) > 0
      modifies this
      ensures SameArrays() && After(if ok then Continue else NoMatch) == Step(e, old(Now()))
    {
      hide GetU32, GetI32, BodyPlaced, RunGreedy, SimpleCount;
      var nextPos := GetI32(e.bc, pc + 1);
      var quantMin, quantMax := GetU32(e.bc, pc + 5), GetU32(e.bc, pc + 9);
      var pc1 := pc + 17;
      var q, p := RunRounds(e, pc1, cptr, quantMax, code);
      if q < quantMin {
        return false;
      }
      pc, cptr := pc1 + nextPos, p;
      if q > quantMin {
        PushState(GreedyPoint, pc1 - 16, cptr, q - quantMin);
      }
      return true;
    }

    ghost predicate Ready(p: Image)
      reads this, capture, stack
    {
      Valid() && Loaded(e, p) && StateOk(e, p, Now()) && p.captures == captureCount && RoomFor(p, stackSizeMax)
    }

    /** One turn of the interpreter's loop. */
    method ExecuteOne(ghost p: Image) returns (outcome: Outcome)
      requires Ready(p)
      modifies this, capture, stack
      ensures SameArrays() && After(outcome) == Step(e, old(Now()))
    {
      hide Decode, Size, FixedSize, RangeOk, Loaded, StateOk, Step, BodyPlaced, SimpleCount;
      ghost var i, code := Next(e, p, Now(), stackSizeMax);
      assert cptr <= |e.x.units| && forall k :: 0 <= k < capture.Length ==> -1 <= capture[k] <= |e.x.units| by { WithinText(e, p, Now()); }
      OpcodeAt(e.bc, pc, i);
      var op := e.bc[pc];
      Dispatch(i);
      outcome := Continue;
      if IsCharOpcode(op) || IsTestOpcode(op) {
        var ok := StepTest(op, i);
        outcome := if ok then Continue else NoMatch;
      } else if op == MATCH {
        StepMatch(e, Now());
        outcome := Accepted;
      } else if op == SPLIT_GOTO_FIRST || op == SPLIT_NEXT_FIRST || op == LOOKAHEAD || op == NEGATIVE_LOOKAHEAD {
        StepBranch(op, i);
      } else if op == GOTO || op == LOOP || op == BNE_CHAR_POS {
        StepJump(op, i);
      } else if op == PUSH_I32 || op == PUSH_CHAR_POS || op == DROP {
        StepStack(op, i);
      } else if op == SAVE_START || op == SAVE_END {
        StepSave(op, i);
      } else if op == SAVE_RESET {
        StepReset(i);
      } else if op == BACK_REFERENCE || op == BACKWARD_BACK_REFERENCE {
        var ok := StepBackRef(op, i);
        outcome := if ok then Continue else NoMatch;
      } else if op == PREV {
        var ok := StepPrev(i);
        outcome := if ok then Continue else NoMatch;
      } else {
        var ok := StepQuant(i, code);
        outcome := if ok then Continue else NoMatch;
      }
    }

    // ----- backtracking -----

    /** The abstract state while saved states are unwound. */
    function Unwinding(ret: bool): State
      reads this, capture
    {
      if ret then Matched(capture[..], stateStack) else Failing(stateStack)
    }

    /** Copies the saved captures back. */
    method RestoreCaptures(caps: seq<int>)
      requires Valid() && |caps| == capture.Length
      modifies capture
      ensures SameArrays() && capture[..] == caps && stack[..] == old(stack[..])
    {
      forall i | 0 <= i < capture.Length {
        capture[i] := caps[i];
      }
    }

    /** Copies the saved counter stack back. */
    method RestoreStack(counters: seq<int>)
      requires Valid() && |counters| <= stack.Length
      modifies this`stackLen, stack
      ensures SameArrays() && stack[..stackLen] == counters && capture[..] == old(capture[..])
    {
      forall i | 0 <= i < |counters| {
        stack[i] := counters[i];
      }
      stackLen := |counters|;
    }

    /** The arrays and the saved states are as the invariant wants them while unwinding. */
    ghost predicate UnwindReady(p: Image, ret: bool)
      reads this, capture
    {
      Valid() && Loaded(e, p) && StateOk(e, p, Unwinding(ret)) && p.captures == captureCount && RoomFor(p, stackSizeMax)
    }

    /** Takes up a plain saved state: with its captures, or with those of a successful lookaround. */
    method Pop(top: Choice, keepCaptures: bool)
      requires Valid() && stateStack != [] && top == stateStack[|stateStack| - 1]
      requires |top.caps| == capture.Length && |top.stack| <= stack.Length
      modifies this, capture, stack
      ensures SameArrays()
      ensures Now() == Running(top.pc, top.pos, if keepCaptures then old(capture[..]) else top.caps, top.stack, old(stateStack)[..|old(stateStack)| - 1])
    {
      if !keepCaptures {
        RestoreCaptures(top.caps);
      }
      RestoreStack(top.stack);
      pc, cptr := top.pc, top.pos;
      stateStack := stateStack[..|stateStack| - 1];
    }

    /** Undoes one round of a fast quantifier and goes on behind it. */
    method PopRound(top: Choice, ghost p: Image)
      requires UnwindReady(p, false) && stateStack != [] && top == stateStack[|stateStack| - 1] && top.kind == GreedyPoint
      modifies this, capture, stack
      ensures SameArrays() && Now() == Step(e, old(Unwinding(false)))
    {
      hide GetU32, GetI32, Loaded, StateOk, RoomFor, Back, Step;
      GreedyFacts(e, p, stateStack, stackSizeMax);
      GreedyEffect(e, stateStack);
      RestoreCaptures(top.caps);
      RestoreStack(top.stack);
      var charCount := GetU32(e.bc, top.pc + 12);
      cptr := GoBack(e.x, top.pos, charCount);
      pc := (top.pc + 16) + GetI32(e.bc, top.pc);
      var rest := stateStack[..|stateStack| - 1];
      stateStack := if top.count - 1 == 0 then rest else rest + [top.(pos := cptr, count := top.count - 1)];
    }

    /** The unwinding loop: up to a saved state that is taken up, or to the end of the run. */
    method Unwind(ret0: bool, ghost p: Image) returns (halted: bool, ret: bool, ghost k: nat)
      requires UnwindReady(p, ret0)
      modifies this, capture, stack
      ensures SameArrays() && Loaded(e, p)
      ensures Steps(e, old(Unwinding(ret0)), k) == if halted then Halted(ret, if ret then capture[..] else []) else Now()
      ensures !halted ==> StateOk(e, p, Now())
    {
      hide Step, Loaded, StateOk, Steps, RoomFor;
      ret, k := ret0, 0;
      StepsZero(e, Unwinding(ret));
      while true
        invariant SameArrays() && UnwindReady(p, ret)
        invariant Steps(e, old(Unwinding(ret0)), k) == Unwinding(ret)
        decreases |stateStack|
      {
        ghost var before := Unwinding(ret);
        StepOk(e, p, before);
        StepsSuccessor(e, old(Unwinding(ret0)), k);
        k := k + 1;
        StepUnwind(e, before);
        if stateStack == [] {
          return true, ret, k;
        }
        var rs := stateStack[|stateStack| - 1];
        ChoiceFacts(e, p, before, stackSizeMax);
        if rs.kind == SplitPoint {
          if !ret {
            Pop(rs, false);
            return false, ret, k;
          }
        } else if rs.kind == GreedyPoint {
          if !ret {
            PopRound(rs, p);
            return false, ret, k;
          }
        } else {
          ret := (rs.kind == LookPoint && ret) || (rs.kind == NegativeLookPoint && !ret);
          if ret {
            Pop(rs, rs.kind == LookPoint);
            return false, ret, k;
          }
        }
        stateStack := stateStack[..|stateStack| - 1];
      }
    }

    /**
     * `lre_exec_backtrack`: executes and unwinds until no saved state is left. `final` is what the
     * abstract machine halts with, after `fuel` steps.
     */
    method Run(ghost p: Image, ghost fuel: nat, ghost final: State) returns (ret: bool)
      requires Ready(p) && Steps(e, Now(), fuel) == final && final.Halted?
      modifies this, capture, stack
      ensures SameArrays() && final == Halted(ret, if ret then capture[..] else [])
    {
      hide Step, Loaded, StateOk, Steps, RoomFor;
      ghost var left := fuel;
      while true
        invariant SameArrays() && Ready(p) && Steps(e, Now(), left) == final
        decreases left
      {
        ghost var before := Now();
        StepOk(e, p, before);
        RunningContinues(e, before, left);
        var outcome := ExecuteOne(p);
        left := left - 1;
        if outcome != Continue {
          ghost var middle := After(outcome);
          var halted, found, k := Unwind(outcome == Accepted, p);
          if halted {
            HaltsOnce(e, middle, k, left);
            return found;
          }
          RunningBefore(e, middle, k, left);
          left := left - k;
        }
      }
    }
  }

  lemma ResetEffect(e: Env, s: State, i: Instr)
    requires s.Running? && s.pos <= |e.x.units| && Decode(e.bc, s.pc) == Some(i) && i.SaveReset? && i.first >= 0
    ensures s.pc + 3 <= |e.bc| && e.bc[s.pc + 1] == i.first && e.bc[s.pc + 2] == i.last
    ensures Step(e, s) == s.(pc := s.pc + 3, caps := ResetCaps(s.caps, i.first, i.last))
  {
    hide GetU16, GetU32, GetI32;
  }

  lemma StackEffect(e: Env, s: State, i: Instr)
    requires s.Running? && s.pos <= |e.x.units| && Decode(e.bc, s.pc) == Some(i) && (i.PushI32? || i.PushCharPos? || (i.Drop? && s.stack != []))
    ensures i.PushI32? ==> s.pc + 5 <= |e.bc| && GetU32(e.bc, s.pc + 1) == i.n && Step(e, s) == s.(pc := s.pc + 5, stack := s.stack + [i.n])
    ensures i.PushCharPos? ==> Step(e, s) == s.(pc := s.pc + 1, stack := s.stack + [s.pos])
    ensures i.Drop? ==> Step(e, s) == s.(pc := s.pc + 1, stack := s.stack[..|s.stack| - 1])
  {
    hide GetU16, GetU32, GetI32;
  }

  lemma JumpEffect(e: Env, s: State, i: Instr)
    requires s.Running? && s.pos <= |e.x.units| && Decode(e.bc, s.pc) == Some(i) && (i.Goto? || i.Loop? || i.BneCharPos?)
    requires s.pc + 5 + i.off >= 0 && (!i.Goto? ==> s.stack != [])
    ensures s.pc + 5 <= |e.bc| && GetI32(e.bc, s.pc + 1) == i.off
    ensures i.Goto? ==> Step(e, s) == s.(pc := s.pc + 5 + i.off)
    ensures i.Loop? ==>
              var m := |s.stack| - 1;
              var top := s.stack[m] - 1;
              Step(e, s) == s.(stack := s.stack[m := top], pc := if top != 0 then s.pc + 5 + i.off else s.pc + 5)
    ensures i.BneCharPos? ==>
              var m := |s.stack| - 1;
              Step(e, s) == s.(stack := s.stack[..m], pc := if s.stack[m] != s.pos then s.pc + 5 + i.off else s.pc + 5)
  {
    hide GetU16, GetU32, GetI32;
  }

  /** The loop of PREV_CHARs that undoes one round. */
  method GoBack(x: Subject, cptr: nat, count: nat) returns (p: nat)
    requires cptr <= |x.units| && Back(x, cptr, count) >= 0
    ensures p == Back(x, cptr, count)
  {
    hide PrevChar;
    p := cptr;
    for i := 0 to count
      invariant p <= |x.units| && Back(x, p, count - i) == Back(x, cptr, count)
    {
      p := PrevChar(x, p);
    }
  }

  lemma StepsZero(e: Env, s: State)
    ensures Steps(e, s, 0) == s
  {
  }

  lemma StepsSuccessor(e: Env, s: State, k: nat)
    ensures Steps(e, s, k + 1) == Step(e, Steps(e, s, k))
  {
    hide Step;
    StepsAdd(e, s, k, 1);
    assert Steps(e, Steps(e, s, k), 1) == Steps(e, Step(e, Steps(e, s, k)), 0);
  }

  lemma {:induction false} HaltedStays(e: Env, s: State, n: nat)
    requires s.Halted?
    ensures Steps(e, s, n) == s
    decreases n
  {
    if n > 0 { HaltedStays(e, s, n - 1); }
  }

  lemma RunningContinues(e: Env, s: State, n: nat)
    requires s.Running? && Steps(e, s, n).Halted?
    ensures n > 0 && Steps(e, s, n) == Steps(e, Step(e, s), n - 1)
  {
    hide Step;
  }

  /** A run halts with one result only. */
  lemma HaltsOnce(e: Env, s: State, m: nat, n: nat)
    requires Steps(e, s, m).Halted? && Steps(e, s, n).Halted?
    ensures Steps(e, s, m) == Steps(e, s, n)
  {
    hide Step, Steps;
    if m <= n {
      StepsAdd(e, s, m, n - m);
      HaltedStays(e, Steps(e, s, m), n - m);
    } else {
      StepsAdd(e, s, n, m - n);
      HaltedStays(e, Steps(e, s, n), m - n);
    }
  }

  lemma RunningBefore(e: Env, s: State, k: nat, n: nat)
    requires !Steps(e, s, k).Halted? && Steps(e, s, n).Halted?
    ensures k < n && Steps(e, Steps(e, s, k), n - k) == Steps(e, s, n)
  {
    hide Step, Steps;
    if n <= k {
      StepsAdd(e, s, n, k - n);
      HaltedStays(e, Steps(e, s, n), k - n);
    } else {
      StepsAdd(e, s, k, n - k);
    }
  }

  /** What one step does while unwinding, by the kind of the most recent saved state. */
  lemma StepUnwind(e: Env, s: State)
    requires s.Failing? || s.Matched?
    ensures s.saved == [] ==> Step(e, s) == Halted(s.Matched?, if s.Matched? then s.caps else [])
    ensures s.saved != [] ==>
      var top, rest := s.saved[|s.saved| - 1], s.saved[..|s.saved| - 1];
      && (s.Failing? && top.kind == SplitPoint ==> Step(e, s) == Running(top.pc, top.pos, top.caps, top.stack, rest))
      && (s.Failing? && top.kind == NegativeLookPoint ==> Step(e, s) == Running(top.pc, top.pos, top.caps, top.stack, rest))
      && (s.Failing? && top.kind == LookPoint ==> Step(e, s) == Failing(rest))
      && (s.Matched? && top.kind == LookPoint ==> Step(e, s) == Running(top.pc, top.pos, s.caps, top.stack, rest))
      && (s.Matched? && top.kind == NegativeLookPoint ==> Step(e, s) == Failing(rest))
      && (s.Matched? && (top.kind == SplitPoint || top.kind == GreedyPoint) ==> Step(e, s) == Matched(s.caps, rest))
  {
  }

  /** The sizes of a saved state fit the arrays. */
  lemma ChoiceFacts(e: Env, p: Image, s: State, room: int)
    requires (s.Failing? || s.Matched?) && s.saved != [] && StateOk(e, p, s) && RoomFor(p, room)
    ensures var top := s.saved[|s.saved| - 1];
            |top.caps| == 2 * p.captures && (top.kind != GreedyPoint ==> |top.stack| <= room)
  {
    hide Lies, Decode;
    assert ChoiceOk(e, p, s.saved[|s.saved| - 1]);
  }

  /** What undoing a round relies on. */
  lemma GreedyFacts(e: Env, p: Image, saved: seq<Choice>, room: int)
    requires saved != [] && StateOk(e, p, Failing(saved)) && RoomFor(p, room) && saved[|saved| - 1].kind == GreedyPoint
    ensures var top := saved[|saved| - 1];
            && |top.caps| == 2 * p.captures && |top.stack| <= room && top.count >= 1 && top.pos <= |e.x.units|
            && top.pc + 16 <= |e.bc| && Back(e.x, top.pos, GetU32(e.bc, top.pc + 12)) >= 0 && top.pc + 16 + GetI32(e.bc, top.pc) >= 0
  {
    hide Decode, Lies, Rounds, Back, GetI32, GetU32;
    var top := saved[|saved| - 1];
    assert ChoiceOk(e, p, top);
    var SimpleGreedyQuant(off, min, max, k) := Decode(e.bc, top.pc - 1).value;
    QuantFields(e.bc, top.pc - 1, off, min, max, k);
    RoundsBack(e.x, top.pos, k, top.count);
    LiesInside(p, top.pc + 16 + off, |top.stack|);
  }

  lemma GreedyEffect(e: Env, saved: seq<Choice>)
    requires saved != [] && saved[|saved| - 1].kind == GreedyPoint
    requires var top := saved[|saved| - 1];
             && top.count >= 1 && top.pos <= |e.x.units| && top.pc + 16 <= |e.bc|
             && Back(e.x, top.pos, GetU32(e.bc, top.pc + 12)) >= 0 && top.pc + 16 + GetI32(e.bc, top.pc) >= 0
    ensures var top, rest := saved[|saved| - 1], saved[..|saved| - 1];
            var pos: nat := Back(e.x, top.pos, GetU32(e.bc, top.pc + 12));
            Step(e, Failing(saved)) == Running(top.pc + 16 + GetI32(e.bc, top.pc), pos, top.caps, top.stack,
                                               if top.count == 1 then rest else rest + [top.(pos := pos, count := top.count - 1)])
  {
    hide GetU32, GetI32, Back;
  }

  /** No place of the program has a greater height than the counter stack has room for. */
  ghost predicate RoomFor(p: Image, room: int) {
    forall pc: int, height: int :: Lies(p, pc, height) ==> height <= room
  }

  lemma WithinText(e: Env, p: Image, s: State)
    requires s.Running? && StateOk(e, p, s)
    ensures s.pos <= |e.x.units| && forall k :: 0 <= k < |s.caps| ==> -1 <= s.caps[k] <= |e.x.units|
  {
  }

  lemma Dispatch(i: Instr)
    ensures IsCharOpcode(Opcode(i)) || IsTestOpcode(Opcode(i)) <==> IsSimple(i)
    ensures Opcode(i) == MATCH <==> i == Match
    ensures Opcode(i) == SPLIT_GOTO_FIRST || Opcode(i) == SPLIT_NEXT_FIRST || Opcode(i) == LOOKAHEAD || Opcode(i) == NEGATIVE_LOOKAHEAD <==> i.Split? || i.Lookahead?
    ensures Opcode(i) == GOTO || Opcode(i) == LOOP || Opcode(i) == BNE_CHAR_POS <==> i.Goto? || i.Loop? || i.BneCharPos?
    ensures Opcode(i) == PUSH_I32 || Opcode(i) == PUSH_CHAR_POS || Opcode(i) == DROP <==> i.PushI32? || i.PushCharPos? || i.Drop?
    ensures Opcode(i) == SAVE_START || Opcode(i) == SAVE_END <==> i.Save?
    ensures Opcode(i) == SAVE_RESET <==> i.SaveReset?
    ensures Opcode(i) == BACK_REFERENCE || Opcode(i) == BACKWARD_BACK_REFERENCE <==> i.BackRefOp?
    ensures Opcode(i) == PREV <==> i == Prev
  {
  }

  lemma StepMatch(e: Env, s: State)
    requires s.Running? && s.pos <= |e.x.units| && Decode(e.bc, s.pc) == Some(Match)
    ensures Step(e, s) == Matched(s.caps, s.saved)
  {
    hide Decode;
  }

  /** What the interpreter relies on before it executes `i`. */
  ghost predicate Prepared(e: Env, pc: nat, height: nat, room: int, captures: nat, i: Instr, code: seq<Instr>) {
    RangeOk(i) &&
    (i.Drop? || i.Loop? || i.BneCharPos? ==> height >= 1) &&
    (i.PushI32? || i.PushCharPos? ==> height + 1 <= room) &&
    (i.Goto? || i.Split? || i.Loop? || i.BneCharPos? || i.Lookahead? ==> pc + 5 + i.off >= 0) &&
    (i.Save? ==> 0 <= i.n < captures) &&
    (i.SaveReset? ==> 0 <= i.first <= i.last < captures) &&
    (i.SimpleGreedyQuant? ==> pc + 17 + i.off >= 0 && BodyPlaced(e, pc + 17, code) && SimpleCount(code) > 0)
  }

  lemma {:induction false} LinkedRanges(all: seq<Instr>, code: seq<Instr>, at: int, height: int, captures: nat)
    requires Linked(all, code, at, height, captures)
    ensures forall k :: 0 <= k < |code| ==> RangeOk(code[k])
    decreases code
  {
    hide Size, Delta, Fits, Label, BodyAhead, Ordered;
    if code != [] {
      LinkedRanges(all, code[1..], at + Size(code[0]), height + Delta(code[0]), captures);
      forall k | 0 <= k < |code| ensures RangeOk(code[k]) {
        if k > 0 { assert code[k] == code[1..][k - 1]; }
      }
    }
  }

  /** The next instruction of a sound state, and the body that follows it if it is a fast quantifier. */
  lemma Next(e: Env, p: Image, s: State, room: int) returns (i: Instr, code: seq<Instr>)
    requires Loaded(e, p) && s.Running? && StateOk(e, p, s) && RoomFor(p, room)
    ensures Decode(e.bc, s.pc) == Some(i)
    ensures Prepared(e, s.pc, |s.stack|, room, p.captures, i, code)
  {
    hide Decode, Placed, Lies, Label, CodeSize, Height, Linked, StateOk, BodyAhead, RangeOk, Ordered;
    RunningLies(e, p, s);
    var rest := FetchRanges(e, p, s.pc, |s.stack|);
    code := [];
    if rest == [] {
      assert rest + [Match] == [Match];
      PlacedOne(e.bc, s.pc, Match);
      i := Match;
      MatchRangeOk();
    } else {
      i := rest[0];
      assert rest + [Match] == [i] + (rest[1..] + [Match]);
      PlacedCons(e.bc, s.pc, i, rest[1..] + [Match]);
      if i.SimpleGreedyQuant? {
        code := NextBody(e, s.pc + 17, rest[1..], i.off, i.count);
        LiesFromLabel(p, s.pc + 17 + i.off, |s.stack|);
        LiesInside(p, s.pc + 17 + i.off, |s.stack|);
      } else if i.Goto? || i.Split? || i.Loop? || i.BneCharPos? || i.Lookahead? {
        LiesFromLabel(p, s.pc + 5 + i.off, |s.stack| + Delta(i));
        LiesInside(p, s.pc + 5 + i.off, |s.stack| + Delta(i));
      }
    }
  }

  lemma MatchRangeOk()
    ensures RangeOk(Match)
  {
  }

  lemma FetchRanges(e: Env, p: Image, pc: nat, height: int) returns (rest: seq<Instr>)
    requires Loaded(e, p) && Lies(p, pc, height)
    ensures Placed(e.bc, pc, rest + [Match])
    ensures rest != [] ==> Sound(p.code, rest, pc - 7, height, p.captures) && Lies(p, pc + Size(rest[0]), height + Delta(rest[0]))
    ensures forall k :: 0 <= k < |rest| ==> RangeOk(rest[k])
  {
    hide Decode, Placed, Lies, Sound, Size, Delta, Linked, RangeOk;
    var j: nat;
    rest, j := FetchAt(e, p, pc, height);
    LinkedRanges(p.code, p.code, 0, 0, p.captures);
    forall k | 0 <= k < |rest| ensures RangeOk(rest[k]) { assert rest[k] == p.code[j + k]; }
  }

  lemma NextBody(e: Env, pc: nat, rest: seq<Instr>, off: int, count: int) returns (code: seq<Instr>)
    requires Placed(e.bc, pc, rest + [Match]) && BodyAhead(rest, off, count)
    requires forall k :: 0 <= k < |rest| ==> RangeOk(rest[k])
    ensures BodyPlaced(e, pc, code) && SimpleCount(code) > 0
  {
    hide Decode, Placed, SimpleCount, CodeSize, RangeOk;
    code := GreedyBody(e, pc, rest, off, count);
    forall k | 0 <= k < |code| ensures RangeOk(code[k]) { assert code[k] == rest[k]; }
  }
}
