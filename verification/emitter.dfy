/** The code generator: a parser that emits into a growing buffer, inserts into it, copies from it and patches it. */
module Emitter {
  import opened Bytes
  import opened Instructions
  import opened Code
  import opened Pattern
  import opened RangeCode
  import opened Generator
  import opened Correctness
  import opened Linking
  import opened Blocks
  import opened Scans
  import opened DynamicBuffer

  const CAPTURE_COUNT_MAX: nat := 255

  // ----- the bytes of each encoding -----

  lemma FlattenOne(i: Instr)
    ensures Flatten([i]) == Encode(i)
  {
    assert [i][0] == i && [i][1..] == [];
  }

  lemma FlattenCons(i: Instr, rest: seq<Instr>)
    ensures Flatten([i] + rest) == Encode(i) + Flatten(rest)
  {
    assert ([i] + rest)[0] == i && ([i] + rest)[1..] == rest;
  }

  lemma EncodeTiny()
    ensures Encode(PushCharPos) == [PUSH_CHAR_POS] && Encode(Drop) == [DROP] && Encode(Match) == [MATCH] && Encode(Prev) == [PREV]
    ensures Encode(LineStartOp) == [LINE_START] && Encode(LineEndOp) == [LINE_END] && Encode(DotOp) == [DOT] && Encode(AnyOp) == [ANY]
  {
  }

  function SplitOp(nextFirst: bool): byte { if nextFirst then SPLIT_NEXT_FIRST else SPLIT_GOTO_FIRST }

  lemma EncodeJump(nextFirst: bool, off: int)
    ensures Encode(Split(nextFirst, off)) == [SplitOp(nextFirst)] + PutU32(off)
    ensures Encode(Goto(off)) == [GOTO] + PutU32(off) && Encode(Loop(off)) == [LOOP] + PutU32(off)
    ensures Encode(BneCharPos(off)) == [BNE_CHAR_POS] + PutU32(off) && Encode(PushI32(off)) == [PUSH_I32] + PutU32(off)
  {
    hide PutU32;
  }

  lemma FlattenGuardedStar(b: seq<Instr>, greedy: bool)
    ensures var n: int := CodeSize(b);
            Flatten(StarCode(b, greedy, true)) == Encode(Split(greedy, n + 6)) + [PUSH_CHAR_POS] + Flatten(b) + Encode(BneCharPos(-(n + 11)))
  {
    hide Flatten, CodeSize, Encode;
    EncodeTiny();
    var n: int := CodeSize(b);
    var j := BneCharPos(-(n + 11));
    FlattenCons(Split(greedy, n + 6), [PushCharPos] + (b + [j]));
    FlattenCons(PushCharPos, b + [j]);
    FlattenAppend(b, [j]);
    FlattenOne(j);
    Regroup3(Encode(Split(greedy, n + 6)), [PUSH_CHAR_POS], Flatten(b), Encode(j));
    Regroup3([], [PUSH_CHAR_POS], Flatten(b), Encode(j));
  }

  lemma FlattenOpenStar(b: seq<Instr>, greedy: bool)
    ensures var n: int := CodeSize(b);
            Flatten(StarCode(b, greedy, false)) == Encode(Split(greedy, n + 5)) + Flatten(b) + Encode(Goto(-(n + 10)))
  {
    hide Flatten, CodeSize, Encode;
    var n: int := CodeSize(b);
    var j := Goto(-(n + 10));
    FlattenCons(Split(greedy, n + 5), b + [j]);
    FlattenAppend(b, [j]);
    FlattenOne(j);
  }

  lemma FlattenUpto(b: seq<Instr>, k: nat, greedy: bool)
    ensures var n: int := CodeSize(b);
            Flatten(UptoCode(b, k, greedy)) ==
            Encode(PushI32(k)) + Encode(Split(greedy, n + 5)) + Flatten(b) + Encode(Loop(-(n + 10))) + [DROP]
  {
    hide Flatten, CodeSize, Encode;
    EncodeTiny();
    var n: int := CodeSize(b);
    var s, j := Split(greedy, n + 5), Loop(-(n + 10));
    FlattenCons(PushI32(k), [s] + (b + ([j] + [Drop])));
    FlattenCons(s, b + ([j] + [Drop]));
    FlattenAppend(b, [j] + [Drop]);
    FlattenCons(j, [Drop]);
    FlattenOne(Drop);
  }

  lemma FlattenTimes(b: seq<Instr>, k: nat)
    ensures var n: int := CodeSize(b);
            Flatten(TimesCode(b, k)) == Encode(PushI32(k)) + Flatten(b) + Encode(Loop(-(n + 5))) + [DROP]
  {
    hide Flatten, CodeSize, Encode;
    EncodeTiny();
    var n: int := CodeSize(b);
    var j := Loop(-(n + 5));
    FlattenCons(PushI32(k), b + ([j] + [Drop]));
    FlattenAppend(b, [j] + [Drop]);
    FlattenCons(j, [Drop]);
    FlattenOne(Drop);
  }

  lemma FlattenFast(b: seq<Instr>, min: nat, max: nat)
    ensures Flatten(FastCode(b, min, max)) == Encode(SimpleGreedyQuant(CodeSize(b) + 1, min, max, SimpleCount(b))) + Flatten(b) + [MATCH]
  {
    hide Flatten, CodeSize, SimpleCount, Encode;
    EncodeTiny();
    FlattenCons(SimpleGreedyQuant(CodeSize(b) + 1, min, max, SimpleCount(b)), b + [Match]);
    FlattenAppend(b, [Match]);
    FlattenOne(Match);
  }

  lemma EncodeQuant(len: int, min: nat, max: nat, count: int)
    ensures Encode(SimpleGreedyQuant(len, min, max, count)) == [SIMPLE_GREEDY_QUANT] + (PutU32(len) + PutU32(min) + PutU32(max) + PutU32(count))
  {
    hide PutU32;
  }

  lemma FlattenReset(c: nat, groups: nat)
    requires c + groups <= 255
    ensures Flatten(ResetCode(c, groups)) == if groups > 0 then [SAVE_RESET, c, c + groups - 1] else []
  {
    if groups > 0 { FlattenOne(SaveReset(c, c + groups - 1)); }
  }

  // ----- the parser state -----

  class Parser {
    const code: DynBuf
    const flags: Flags
    var captureCount: nat

    ghost predicate Valid()
      reads this, code
    {
      code.Valid()
    }

    constructor (flags: Flags)
      ensures Valid() && fresh(code) && fresh(code.buf) && code.Contents() == []
      ensures this.flags == flags && captureCount == 1
    {
      code := new DynBuf();
      this.flags := flags;
      captureCount := 1;
    }

    method EmitOp(op: byte)
      requires Valid()
      modifies code, code.buf
      ensures code.Owned() && code.Contents() == old(code.Contents()) + [op]
    {
      code.Put([op]);
    }

    method EmitOpU8(op: byte, v: byte)
      requires Valid()
      modifies code, code.buf
      ensures code.Owned() && code.Contents() == old(code.Contents()) + [op, v]
    {
      code.Put([op]);
      code.Put([v]);
    }

    /** Returns the offset of the 32-bit operand. */
    method EmitOpU32(op: byte, v: int) returns (pos: nat)
      requires Valid()
      modifies code, code.buf
      ensures code.Owned() && code.Contents() == old(code.Contents()) + ([op] + PutU32(v))
      ensures pos == old(code.size) + 1
    {
      code.Put([op]);
      pos := code.size;
      code.Put(PutU32(v));
    }

    /** A jump to the byte `target`. */
    method EmitGoto(op: byte, target: nat)
      requires Valid()
      modifies code, code.buf
      ensures code.Owned() && code.Contents() == old(code.Contents()) + ([op] + PutU32(target - (old(code.size) + 5)))
    {
      code.Put([op]);
      var pos := code.size;
      code.Put(PutU32(target - (pos + 4)));
    }

    /** `dbuf_insert` and the stores that fill the gap. */
    method InsertCode(pos: nat, piece: seq<byte>)
      requires Valid() && pos <= code.size
      modifies code, code.buf
      ensures code.Owned() && code.Contents() == old(code.Contents())[..pos] + piece + old(code.Contents())[pos..]
    {
      code.Insert(pos, |piece|);
      code.Store(pos, piece);
    }

    /** The same in front of what follows `pre`. */
    method InsertBefore(start: nat, piece: seq<byte>, ghost pre: seq<byte>, ghost rest: seq<byte>)
      requires Valid() && code.Contents() == pre + rest && start == |pre|
      modifies code, code.buf
      ensures code.Owned() && code.Contents() == pre + piece + rest
    {
      InsertCode(start, piece);
      assert (pre + rest)[..start] == pre && (pre + rest)[start..] == rest;
    }

    // ----- quantifiers -----

    /** The body of the quantifier, `b`, is what the buffer holds after `pre`. */
    ghost predicate Holds(pre: seq<byte>, b: seq<Instr>)
      reads this, code, code.buf
    {
      Valid() && code.Contents() == pre + Flatten(b)
    }

    method EmitFast(start: nat, min: nat, max: nat, count: int, ghost pre: seq<byte>, ghost b: seq<Instr>)
      requires Holds(pre, b) && start == |pre| && count == SimpleCount(b)
      modifies code, code.buf
      ensures code.Owned() && Holds(pre, FastCode(b, min, max))
    {
      hide Flatten, CodeSize, SimpleCount, FastCode, PutU32, Encode;
      EmitOp(MATCH);
      var len := code.size - start;
      FlattenFast(b, min, max);
      EncodeQuant(len, min, max, count);
      assert code.Contents() == pre + (Flatten(b) + [MATCH]);
      InsertBefore(start, [SIMPLE_GREEDY_QUANT] + (PutU32(len) + PutU32(min) + PutU32(max) + PutU32(count)), pre, Flatten(b) + [MATCH]);
    }

    method EmitReset(start: nat, lastCaptureCount: nat, ghost pre: seq<byte>, ghost b: seq<Instr>) returns (next: nat)
      requires Holds(pre, b) && start == |pre| && lastCaptureCount <= captureCount <= 255
      modifies code, code.buf
      ensures code.Owned() && Holds(pre + Flatten(ResetCode(lastCaptureCount, captureCount - lastCaptureCount)), b)
      ensures next == |pre + Flatten(ResetCode(lastCaptureCount, captureCount - lastCaptureCount))|
    {
      hide CodeSize, Encode;
      next := start;
      FlattenReset(lastCaptureCount, captureCount - lastCaptureCount);
      if lastCaptureCount != captureCount {
        InsertBefore(start, [SAVE_RESET, lastCaptureCount, captureCount - 1], pre, Flatten(b));
        next := start + 3;
      } else {
        assert pre + [] == pre;
      }
    }

    method EmitStarAround(start: nat, greedy: bool, guarded: bool, ghost pre: seq<byte>, ghost b: seq<Instr>)
      requires Holds(pre, b) && start == |pre|
      modifies code, code.buf
      ensures code.Owned() && Holds(pre, StarCode(b, greedy, guarded))
    {
      hide Flatten, CodeSize, StarCode, PutU32, Encode;
      var len: int := code.size - start;
      if guarded {
        FlattenGuardedStar(b, greedy);
        EncodeJump(greedy, len + 6);
        EncodeJump(greedy, -(len + 11));
        InsertBefore(start, [SplitOp(greedy)] + PutU32(len + 6) + [PUSH_CHAR_POS], pre, Flatten(b));
        EmitGoto(BNE_CHAR_POS, start);
        assert code.Contents() == pre + Flatten(StarCode(b, greedy, true));
      } else {
        FlattenOpenStar(b, greedy);
        EncodeJump(greedy, len + 5);
        EncodeJump(greedy, -(len + 10));
        InsertBefore(start, [SplitOp(greedy)] + PutU32(len + 5), pre, Flatten(b));
        EmitGoto(GOTO, start);
        assert code.Contents() == pre + Flatten(StarCode(b, greedy, false));
      }
    }

    method EmitOnceAround(start: nat, greedy: bool, ghost pre: seq<byte>, ghost b: seq<Instr>)
      requires Holds(pre, b) && start == |pre|
      modifies code, code.buf
      ensures code.Owned() && Holds(pre, OnceCode(b, greedy))
    {
      hide Flatten, CodeSize, PutU32, Encode;
      var len := code.size - start;
      FlattenCons(Split(greedy, len), b);
      EncodeJump(greedy, len);
      InsertBefore(start, [SplitOp(greedy)] + PutU32(len), pre, Flatten(b));
    }

    method EmitUptoAround(start: nat, k: nat, greedy: bool, ghost pre: seq<byte>, ghost b: seq<Instr>)
      requires Holds(pre, b) && start == |pre|
      modifies code, code.buf
      ensures code.Owned() && Holds(pre, UptoCode(b, k, greedy))
    {
      hide Flatten, CodeSize, UptoCode, PutU32, Encode;
      var len: int := code.size - start;
      FlattenUpto(b, k, greedy);
      EncodeJump(greedy, k);
      EncodeJump(greedy, len + 5);
      EncodeJump(greedy, -(len + 10));
      InsertBefore(start, [PUSH_I32] + PutU32(k) + [SplitOp(greedy)] + PutU32(len + 5), pre, Flatten(b));
      EmitGoto(LOOP, start + 5);
      EmitOp(DROP);
      assert code.Contents() == pre + Flatten(UptoCode(b, k, greedy));
    }

    method EmitTimesAround(start: nat, k: nat, ghost pre: seq<byte>, ghost b: seq<Instr>)
      requires Holds(pre, b) && start == |pre|
      modifies code, code.buf
      ensures code.Owned() && Holds(pre, TimesCode(b, k))
      ensures code.size == start + 11 + CodeSize(b) && code.Contents()[start + 5..start + 5 + CodeSize(b)] == Flatten(b)
    {
      hide Flatten, CodeSize, TimesCode, PutU32, Encode;
      var len: int := code.size - start;
      FlattenTimes(b, k);
      EncodeJump(true, k);
      EncodeJump(true, -(len + 5));
      InsertBefore(start, [PUSH_I32] + PutU32(k), pre, Flatten(b));
      EmitGoto(LOOP, start + 5);
      EmitOp(DROP);
      assert code.Contents() == pre + Flatten(TimesCode(b, k));
      assert code.Contents() == (pre + [PUSH_I32] + PutU32(k)) + Flatten(b) + (Encode(Loop(-(len + 5))) + [DROP]);
    }

    method EmitPlusAround(start: nat, greedy: bool, ghost pre: seq<byte>, ghost b: seq<Instr>)
      requires Holds(pre, b) && start == |pre|
      modifies code, code.buf
      ensures code.Owned() && Holds(pre, PlusCode(b, greedy))
    {
      hide Flatten, CodeSize, PutU32, Encode;
      var len: int := code.size - start;
      FlattenAppend(b, [Split(!greedy, -(len + 5))]);
      FlattenOne(Split(!greedy, -(len + 5)));
      EncodeJump(!greedy, -(len + 5));
      EmitGoto(SplitOp(!greedy), start);
      assert code.Contents() == pre + (Flatten(b) + Encode(Split(!greedy, -(len + 5))));
    }

    /** The optional rounds after the compulsory ones: a copy of the body in a loop of its own. */
    method EmitTail(start: nat, len: nat, min: nat, max: nat, greedy: bool, guarded: bool, ghost b: seq<Instr>)
      requires Valid() && start + len <= code.size && len == CodeSize(b) && code.Contents()[start..start + len] == Flatten(b)
      modifies code, code.buf
      ensures code.Owned() && code.Contents() == old(code.Contents()) + Flatten(TailCode(b, min, max, greedy, guarded))
    {
      hide Flatten, CodeSize, StarCode, UptoCode, PutU32, Encode;
      if max == INFINITE {
        EmitStarCopy(start, len, greedy, guarded, b);
      } else if max > min {
        EmitUptoCopy(start, len, max - min, greedy, b);
      } else {
        FlattenNothing();
        assert code.Contents() + [] == code.Contents();
      }
    }

    method EmitStarCopy(start: nat, len: nat, greedy: bool, guarded: bool, ghost b: seq<Instr>)
      requires Valid() && start + len <= code.size && len == CodeSize(b) && code.Contents()[start..start + len] == Flatten(b)
      modifies code, code.buf
      ensures code.Owned() && code.Contents() == old(code.Contents()) + Flatten(StarCode(b, greedy, guarded))
    {
      hide Flatten, CodeSize, StarCode, PutU32, Encode;
      if guarded {
        EmitGuardedCopy(start, len, greedy, b);
      } else {
        EmitOpenCopy(start, len, greedy, b);
      }
    }

    /** `dbuf_put_self` of the body `b`, which is still where it was in the earlier contents `before`. */
    method CopyBody(start: nat, len: nat, ghost before: seq<byte>, ghost after: seq<byte>, ghost b: seq<Instr>)
      requires Valid() && code.Contents() == before + after
      requires start + len <= |before| && before[start..start + len] == Flatten(b)
      modifies code, code.buf
      ensures code.Owned() && code.Contents() == old(code.Contents()) + Flatten(b)
    {
      hide Flatten;
      assert (before + after)[start..start + len] == before[start..start + len];
      code.PutSelf(start, len);
    }

    method EmitGuardedCopy(start: nat, len: nat, greedy: bool, ghost b: seq<Instr>)
      requires Valid() && start + len <= code.size && len == CodeSize(b) && code.Contents()[start..start + len] == Flatten(b)
      modifies code, code.buf
      ensures code.Owned() && code.Contents() == old(code.Contents()) + Flatten(StarCode(b, greedy, true))
    {
      hide Flatten, CodeSize, StarCode, PutU32, Encode;
      var pos := code.size;
      ghost var before, n: int := code.Contents(), len;
      FlattenGuardedStar(b, greedy);
      EncodeJump(greedy, n + 6);
      EncodeJump(greedy, -(n + 11));
      ghost var x, w := [SplitOp(greedy)] + PutU32(n + 6), [BNE_CHAR_POS] + PutU32(-(n + 11));
      var _ := EmitOpU32(SplitOp(greedy), len + 6);
      EmitOp(PUSH_CHAR_POS);
      Regroup2(before, x, [PUSH_CHAR_POS]);
      CopyBody(start, len, before, x + [PUSH_CHAR_POS], b);
      EmitGoto(BNE_CHAR_POS, pos);
      Regroup3(before, x + [PUSH_CHAR_POS], Flatten(b), w);
    }

    method EmitOpenCopy(start: nat, len: nat, greedy: bool, ghost b: seq<Instr>)
      requires Valid() && start + len <= code.size && len == CodeSize(b) && code.Contents()[start..start + len] == Flatten(b)
      modifies code, code.buf
      ensures code.Owned() && code.Contents() == old(code.Contents()) + Flatten(StarCode(b, greedy, false))
    {
      hide Flatten, CodeSize, StarCode, PutU32, Encode;
      var pos := code.size;
      ghost var before, n: int := code.Contents(), len;
      FlattenOpenStar(b, greedy);
      EncodeJump(greedy, n + 5);
      EncodeJump(greedy, -(n + 10));
      ghost var x, w := [SplitOp(greedy)] + PutU32(n + 5), [GOTO] + PutU32(-(n + 10));
      var _ := EmitOpU32(SplitOp(greedy), len + 5);
      CopyBody(start, len, before, x, b);
      EmitGoto(GOTO, pos);
      Regroup3(before, x, Flatten(b), w);
    }

    method EmitUptoCopy(start: nat, len: nat, k: nat, greedy: bool, ghost b: seq<Instr>)
      requires Valid() && start + len <= code.size && len == CodeSize(b) && code.Contents()[start..start + len] == Flatten(b)
      modifies code, code.buf
      ensures code.Owned() && code.Contents() == old(code.Contents()) + Flatten(UptoCode(b, k, greedy))
    {
      hide Flatten, CodeSize, UptoCode, PutU32, Encode;
      ghost var before, n: int := code.Contents(), len;
      FlattenUpto(b, k, greedy);
      EncodeJump(greedy, k);
      EncodeJump(greedy, n + 5);
      EncodeJump(greedy, -(n + 10));
      ghost var x, y, w := [PUSH_I32] + PutU32(k), [SplitOp(greedy)] + PutU32(n + 5), [LOOP] + PutU32(-(n + 10));
      var pos := EmitCounter(k, len + 5, greedy);
      CopyBody(start, len, before, x + y, b);
      EmitGoto(LOOP, pos);
      Regroup3(before, x + y, Flatten(b), w);
      EmitOp(DROP);
      Regroup2(before, x + y + Flatten(b) + w, [DROP]);
    }

    /** The counter of a loop, and the split at its top; `pos` is where the loop goes back to. */
    method EmitCounter(k: nat, off: nat, greedy: bool) returns (pos: nat)
      requires Valid()
      modifies code, code.buf
      ensures code.Owned() && pos == old(code.size) + 5
      ensures code.Contents() == old(code.Contents()) + ([PUSH_I32] + PutU32(k) + ([SplitOp(greedy)] + PutU32(off)))
    {
      hide PutU32;
      ghost var before := code.Contents();
      var _ := EmitOpU32(PUSH_I32, k);
      pos := code.size;
      var _ := EmitOpU32(SplitOp(greedy), off);
      Regroup2(before, [PUSH_I32] + PutU32(k), [SplitOp(greedy)] + PutU32(off));
    }

    method EmitSkippable(start: nat, max: nat, greedy: bool, guarded: bool, ghost pre: seq<byte>, ghost b: seq<Instr>)
      requires Holds(pre, b) && start == |pre|
      modifies code, code.buf
      ensures code.Owned() && Holds(pre, SkippableCode(b, max, greedy, guarded))
    {
      hide Flatten, CodeSize, OnceCode, StarCode, UptoCode, PutU32, Encode;
      if max == 0 {
        code.Truncate(start);
        FlattenNothing();
        assert pre + [] == pre;
      } else if max == 1 {
        EmitOnceAround(start, greedy, pre, b);
      } else if max == INFINITE {
        EmitStarAround(start, greedy, guarded, pre, b);
      } else {
        EmitUptoAround(start, max, greedy, pre, b);
      }
    }

    method EmitCompulsory(start: nat, min: nat, max: nat, greedy: bool, guarded: bool, ghost pre: seq<byte>, ghost b: seq<Instr>)
      requires Holds(pre, b) && start == |pre| && min > 0
      modifies code, code.buf
      ensures code.Owned() && Holds(pre, (if min == 1 then b else TimesCode(b, min)) + TailCode(b, min, max, greedy, guarded))
    {
      hide Flatten, CodeSize, TimesCode, TailCode, PutU32, Encode;
      var len := code.size - start;
      ghost var tail := TailCode(b, min, max, greedy, guarded);
      if min == 1 {
        EmitTail(start, len, min, max, greedy, guarded, b);
        FlattenAppend(b, tail);
        assert code.Contents() == pre + (Flatten(b) + Flatten(tail));
      } else {
        EmitTimesAround(start, min, pre, b);
        EmitTail(start + 5, len, min, max, greedy, guarded, b);
        FlattenAppend(TimesCode(b, min), tail);
        assert code.Contents() == pre + (Flatten(TimesCode(b, min)) + Flatten(tail));
      }
    }

    method EmitGeneral(start: nat, lastCaptureCount: nat, min: nat, max: nat, greedy: bool, guarded: bool,
                       ghost pre: seq<byte>, ghost b: seq<Instr>)
      requires Holds(pre, b) && start == |pre| && lastCaptureCount <= captureCount <= 255
      modifies code, code.buf
      ensures code.Owned()
      ensures Holds(pre, GeneralCode(b, min, max, greedy, guarded, lastCaptureCount, captureCount - lastCaptureCount))
    {
      hide Flatten, CodeSize, TimesCode, TailCode, ResetCode, SkippableCode, PlusCode, PutU32, Encode;
      if min == 0 {
        ghost var reset := ResetCode(lastCaptureCount, captureCount - lastCaptureCount);
        var next := EmitReset(start, lastCaptureCount, pre, b);
        EmitSkippable(next, max, greedy, guarded, pre + Flatten(reset), b);
        FlattenAppend(reset, SkippableCode(b, max, greedy, guarded));
        assert code.Contents() == pre + (Flatten(reset) + Flatten(SkippableCode(b, max, greedy, guarded)));
      } else if min == 1 && max == INFINITE && !guarded {
        EmitPlusAround(start, greedy, pre, b);
      } else {
        EmitCompulsory(start, min, max, greedy, guarded, pre, b);
      }
    }

    /** The quantifier part of `re_parse_term`, for an atom whose code `b` begins at `start`. */
    method EmitQuantifier(start: nat, lastCaptureCount: nat, min: nat, max: nat, greedy: bool, ghost pre: seq<byte>, ghost b: seq<Instr>)
      requires Holds(pre, b) && start == |pre| && lastCaptureCount <= captureCount <= 255 && AllReadable(b)
      modifies code, code.buf
      ensures code.Owned() && Holds(pre, RepCode(b, min, max, greedy, lastCaptureCount, captureCount - lastCaptureCount))
    {
      hide Flatten, CodeSize, SimpleCount, AdvanceScore, FastCode, GeneralCode, AllReadable;
      var guarded := false;
      assert code.Contents()[start..] == Flatten(b);
      if greedy {
        if max > 0 {
          var len := IsSimpleQuantifier(code.Contents()[start..], b);
          if len > 0 {
            EmitFast(start, min, max, len, pre, b);
            return;
          }
        }
        var score := CheckAdvance(code.Contents()[start..], b);
        guarded := score == 0;
      }
      EmitGeneral(start, lastCaptureCount, min, max, greedy, guarded, pre, b);
    }

    // ----- atoms -----

    /** `re_emit_range`. */
    method EmitRange(points: seq<int>) returns (ok: bool)
      requires Valid() && |points| % 2 == 0
      modifies code, code.buf
      ensures code.Owned() && (ok <==> |points| / 2 < 65535)
      ensures ok ==> code.Contents() == old(code.Contents()) + Encode(SetCode(points))
      ensures !ok ==> code.Contents() == old(code.Contents())
    {
      hide PutU16, PutU32, PutPairs16, PutPairs32, Encode;
      ghost var before := code.Contents();
      var n := |points|;
      var len := n / 2;
      EncodeSet(points);
      if len >= 65535 {
        return false;
      }
      if len == 0 {
        var _ := EmitOpU32(CHAR32, UINT32_MAX);
        assert code.Contents() == before + ([CHAR32] + PutU32(UINT32_MAX));
        return true;
      }
      var high := points[n - 1];
      if high == UINT32_MAX {
        high := points[n - 2];
      }
      if high <= 0xffff {
        code.Put([RANGE]);
        code.Put(PutU16(len));
        EmitPairs16(points);
        assert code.Contents() == before + ([RANGE] + PutU16(len) + PutPairs16(Pairs16(points)));
      } else {
        code.Put([RANGE32]);
        code.Put(PutU16(len));
        EmitPairs32(points);
        assert code.Contents() == before + ([RANGE32] + PutU16(len) + PutPairs32(Pairs32(points)));
      }
      return true;
    }

    method EmitPairs16(points: seq<int>)
      requires Valid() && |points| % 2 == 0
      modifies code, code.buf
      ensures code.Owned() && code.Contents() == old(code.Contents()) + PutPairs16(Pairs16(points))
    {
      hide PutU16, PutPairs16;
      ghost var before, pairs := code.Contents(), Pairs16(points);
      var i := 0;
      PairsNothing();
      assert before + [] == before;
      while i < |points|
        invariant code.Owned() && 0 <= i <= |points| && i % 2 == 0
        invariant code.Contents() == before + PutPairs16(pairs[..i / 2])
      {
        code.Put(PutU16(points[i]));
        var high := points[i + 1] - 1;
        if high == UINT32_MAX - 1 {
          high := 0xffff;
        }
        code.Put(PutU16(high));
        PairsNext16(pairs, i / 2);
        i := i + 2;
      }
      assert pairs[..i / 2] == pairs;
    }

    method EmitPairs32(points: seq<int>)
      requires Valid() && |points| % 2 == 0
      modifies code, code.buf
      ensures code.Owned() && code.Contents() == old(code.Contents()) + PutPairs32(Pairs32(points))
    {
      hide PutU32, PutPairs32;
      ghost var before, pairs := code.Contents(), Pairs32(points);
      var i := 0;
      PairsNothing();
      assert before + [] == before;
      while i < |points|
        invariant code.Owned() && 0 <= i <= |points| && i % 2 == 0
        invariant code.Contents() == before + PutPairs32(pairs[..i / 2])
      {
        code.Put(PutU32(points[i]));
        code.Put(PutU32(points[i + 1] - 1));
        PairsNext32(pairs, i / 2);
        i := i + 2;
      }
      assert pairs[..i / 2] == pairs;
    }

    /** The opcode of a single-character atom. */
    method EmitChar(r: Re) returns (ok: bool)
      requires Valid() && IsAtom(r) && WellFormed(r)
      modifies code, code.buf
      ensures code.Owned() && (ok <==> Encodable(r))
      ensures ok ==> code.Contents() == old(code.Contents()) + Encode(AtomCode(flags, r))
    {
      hide PutU16, PutU32, SetCode;
      ok := true;
      match r
      case Dot =>
        EmitOp(if flags.dotAll then ANY else DOT);
      case Chr(ch) =>
        var c := flags.Fold(ch);
        if c <= 0xffff {
          code.Put([CHAR]);
          code.Put(PutU16(c));
        } else {
          var _ := EmitOpU32(CHAR32, c);
        }
      case Set(points) =>
        ok := EmitRange(points);
    }

    /** An atom in its direction: backwards it is read between two steps back. */
    method EmitAtom(r: Re, back: bool) returns (ok: bool)
      requires Valid() && IsAtom(r) && WellFormed(r)
      modifies code, code.buf
      ensures code.Owned() && (ok <==> Encodable(r))
      ensures ok ==> code.Contents() == old(code.Contents()) + Flatten(Directed(AtomCode(flags, r), back))
    {
      hide Encode, AtomCode;
      ghost var before := code.Contents();
      FlattenDirected(AtomCode(flags, r), back);
      if back {
        EmitOp(PREV);
      }
      ok := EmitChar(r);
      if ok && back {
        EmitOp(PREV);
        assert code.Contents() == before + ([PREV] + Encode(AtomCode(flags, r)) + [PREV]);
      }
    }

    /** Moves the block from `mid` on in front of the block that begins at `start`. */
    method MoveToFront(start: nat, mid: nat)
      requires Valid() && start <= mid <= code.size
      modifies code, code.buf
      ensures code.Owned()
      ensures code.Contents() == old(code.Contents())[..start] + old(code.Contents())[mid..] + old(code.Contents())[start..mid]
    {
      ghost var before := code.Contents();
      var end := code.size;
      var size := end - mid;
      code.Insert(start, size);
      assert code.Contents()[end..] == before[start..][mid - start..] by {
        assert code.Contents()[start + size..][mid - start..] == code.Contents()[end..];
      }
      assert code.Contents()[end..end + size] == before[mid..];
      code.Store(start, code.Contents()[end..end + size]);
      assert code.Contents()[start + size..] == before[start..];
      code.Truncate(end);
    }

    // ----- patterns -----

    /** `re_parse_disjunction`: alternatives from left to right. */
    method ParseDisjunction(r: Re, back: bool) returns (ok: bool)
      requires Valid() && WellFormed(r) && captureCount <= CAPTURE_COUNT_MAX
      modifies this, code, code.buf
      ensures code.Owned() && (ok <==> Encodable(r) && old(captureCount) + Groups(r) <= CAPTURE_COUNT_MAX)
      ensures ok ==> captureCount == old(captureCount) + Groups(r)
                     && code.Contents() == old(code.Contents()) + Flatten(Gen(flags, r, back, old(captureCount)))
      decreases r, 3
    {
      if r.Alt? {
        ok := ParseBranches(r, back);
      } else {
        ok := ParseAlternative(r, back);
      }
    }

    /** A split is inserted in front of the first branch, and the jump over the second is patched when its end is known. */
    method ParseBranches(r: Re, back: bool) returns (ok: bool)
      requires Valid() && WellFormed(r) && r.Alt? && captureCount <= CAPTURE_COUNT_MAX
      modifies this, code, code.buf
      ensures code.Owned() && (ok <==> Encodable(r) && old(captureCount) + Groups(r) <= CAPTURE_COUNT_MAX)
      ensures ok ==> captureCount == old(captureCount) + Groups(r)
                     && code.Contents() == old(code.Contents()) + Flatten(Gen(flags, r, back, old(captureCount)))
      decreases r, 0
    {
      hide Gen, Flatten, CodeSize, AltCode, PutU32, Encode, Encodable, WellFormed, Groups;
      GenIs(flags, r, back, captureCount);
      ghost var pre, c := code.Contents(), captureCount;
      PartsOf(r);
      var start := code.size;
      ok := ParseDisjunction(r.left, back);
      if !ok { return; }
      ghost var a := Gen(flags, r.left, back, c);
      var len := code.size - start;
      InsertBefore(start, [SPLIT_NEXT_FIRST] + PutU32(len + 5), pre, Flatten(a));
      var pos := EmitOpU32(GOTO, 0);
      ghost var mid := code.Contents();
      ok := ParseAlternative(r.right, back);
      if !ok { return; }
      ghost var b := Gen(flags, r.right, back, c + Groups(r.left));
      code.Store(pos, PutU32(code.size - (pos + 4)));
      AltBytes(pre, a, b, code.Contents(), mid, pos);
    }

    /** `re_parse_alternative`: terms one after the other; backward terms in opposite order. */
    method ParseAlternative(r: Re, back: bool) returns (ok: bool)
      requires Valid() && WellFormed(r) && captureCount <= CAPTURE_COUNT_MAX
      modifies this, code, code.buf
      ensures code.Owned() && (ok <==> Encodable(r) && old(captureCount) + Groups(r) <= CAPTURE_COUNT_MAX)
      ensures ok ==> captureCount == old(captureCount) + Groups(r)
                     && code.Contents() == old(code.Contents()) + Flatten(Gen(flags, r, back, old(captureCount)))
      decreases r, 2
    {
      if r.Cat? {
        ok := ParseSequence(r, back);
      } else {
        ok := ParseTerm(r, back);
      }
    }

    method ParseSequence(r: Re, back: bool) returns (ok: bool)
      requires Valid() && WellFormed(r) && r.Cat? && captureCount <= CAPTURE_COUNT_MAX
      modifies this, code, code.buf
      ensures code.Owned() && (ok <==> Encodable(r) && old(captureCount) + Groups(r) <= CAPTURE_COUNT_MAX)
      ensures ok ==> captureCount == old(captureCount) + Groups(r)
                     && code.Contents() == old(code.Contents()) + Flatten(Gen(flags, r, back, old(captureCount)))
      decreases r, 0
    {
      hide Gen, Flatten, CodeSize, Encodable, WellFormed, Groups;
      GenIs(flags, r, back, captureCount);
      ghost var pre, c := code.Contents(), captureCount;
      PartsOf(r);
      var start := code.size;
      ok := ParseAlternative(r.left, back);
      if !ok { return; }
      var termStart := code.size;
      ok := ParseTerm(r.right, back);
      if !ok { return; }
      ghost var a, b := Gen(flags, r.left, back, c), Gen(flags, r.right, back, c + Groups(r.left));
      SequenceBytes(pre, a, b, code.Contents());
      if back {
        MoveToFront(start, termStart);
      }
    }

    /** `re_parse_term`: an atom, an assertion, a group, or a lookaround, and a quantifier behind it. */
    method ParseTerm(r: Re, back: bool) returns (ok: bool)
      requires Valid() && WellFormed(r) && captureCount <= CAPTURE_COUNT_MAX
      modifies this, code, code.buf
      ensures code.Owned() && (ok <==> Encodable(r) && old(captureCount) + Groups(r) <= CAPTURE_COUNT_MAX)
      ensures ok ==> captureCount == old(captureCount) + Groups(r)
                     && code.Contents() == old(code.Contents()) + Flatten(Gen(flags, r, back, old(captureCount)))
      decreases r, 1
    {
      hide Gen, Flatten, Directed, AtomCode, RepCode, LookCode, GroupCode, AltCode;
      GenIs(flags, r, back, captureCount);
      ghost var before := code.Contents();
      FlattenNothing();
      assert before + [] == before;
      match r
      case Empty => ok := true;
      case Chr(_) => ok := EmitAtom(r, back);
      case Dot => ok := EmitAtom(r, back);
      case Set(_) => ok := EmitAtom(r, back);
      case LineStart =>
        FlattenTest(LineStartOp, LINE_START);
        EmitOp(LINE_START);
        ok := true;
      case LineEnd =>
        FlattenTest(LineEndOp, LINE_END);
        EmitOp(LINE_END);
        ok := true;
      case WordBoundary(neg) =>
        FlattenTest(WordBoundaryOp(neg), if neg then NOT_WORD_BOUNDARY else WORD_BOUNDARY);
        EmitOp(if neg then NOT_WORD_BOUNDARY else WORD_BOUNDARY);
        ok := true;
      case BackRef(n) =>
        FlattenBackRef(back, n);
        EmitOpU8(if back then BACKWARD_BACK_REFERENCE else BACK_REFERENCE, n);
        ok := true;
      case Group(_) => ok := ParseGroup(r, back);
      case Look(_, _, _) => ok := ParseLook(r, back);
      case Cat(_, _) => ok := ParseSequence(r, back);
      case Alt(_, _) => ok := ParseBranches(r, back);
      case Rep(_, _, _, _) => ok := ParseQuantified(r, back);
    }

    method ParseGroup(r: Re, back: bool) returns (ok: bool)
      requires Valid() && WellFormed(r) && r.Group? && captureCount <= CAPTURE_COUNT_MAX
      modifies this, code, code.buf
      ensures code.Owned() && (ok <==> Encodable(r) && old(captureCount) + Groups(r) <= CAPTURE_COUNT_MAX)
      ensures ok ==> captureCount == old(captureCount) + Groups(r)
                     && code.Contents() == old(code.Contents()) + Flatten(Gen(flags, r, back, old(captureCount)))
      decreases r, 0
    {
      hide Gen, Flatten, CodeSize, Encode, GroupCode, AllReadable;
      GenIs(flags, r, back, captureCount);
      if captureCount >= CAPTURE_COUNT_MAX {
        return false;
      }
      ghost var pre := code.Contents();
      var captureIndex := captureCount;
      captureCount := captureCount + 1;
      EmitOpU8(if back then SAVE_END else SAVE_START, captureIndex);
      ok := ParseDisjunction(r.body, back);
      if !ok { return; }
      ghost var b := Gen(flags, r.body, back, captureIndex + 1);
      EmitOpU8(if back then SAVE_START else SAVE_END, captureIndex);
      FlattenGroup(b, back, captureIndex);
      assert code.Contents() == pre + Flatten(GroupCode(b, back, captureIndex));
    }

    method ParseLook(r: Re, back: bool) returns (ok: bool)
      requires Valid() && WellFormed(r) && r.Look? && captureCount <= CAPTURE_COUNT_MAX
      modifies this, code, code.buf
      ensures code.Owned() && (ok <==> Encodable(r) && old(captureCount) + Groups(r) <= CAPTURE_COUNT_MAX)
      ensures ok ==> captureCount == old(captureCount) + Groups(r)
                     && code.Contents() == old(code.Contents()) + Flatten(Gen(flags, r, back, old(captureCount)))
      decreases r, 0
    {
      hide Gen, Flatten, CodeSize, Encode, PutU32, LookCode;
      GenIs(flags, r, back, captureCount);
      ghost var pre, c := code.Contents(), captureCount;
      var op := if r.negative then NEGATIVE_LOOKAHEAD else LOOKAHEAD;
      var pos := EmitOpU32(op, 0);
      ok := ParseDisjunction(r.body, r.behind);
      if !ok { return; }
      ghost var b := Gen(flags, r.body, r.behind, c);
      EmitOp(MATCH);
      ghost var mid := code.Contents();
      code.Store(pos, PutU32(code.size - (pos + 4)));
      LookBytes(pre, op, r.negative, b, code.Contents(), mid, pos);
    }

    method ParseQuantified(r: Re, back: bool) returns (ok: bool)
      requires Valid() && WellFormed(r) && r.Rep? && captureCount <= CAPTURE_COUNT_MAX
      modifies this, code, code.buf
      ensures code.Owned() && (ok <==> Encodable(r) && old(captureCount) + Groups(r) <= CAPTURE_COUNT_MAX)
      ensures ok ==> captureCount == old(captureCount) + Groups(r)
                     && code.Contents() == old(code.Contents()) + Flatten(Gen(flags, r, back, old(captureCount)))
      decreases r, 0
    {
      hide Gen, Flatten, CodeSize, RepCode, AllReadable;
      GenIs(flags, r, back, captureCount);
      ghost var pre := code.Contents();
      var start, lastCaptureCount := code.size, captureCount;
      ok := ParseDisjunction(r.body, back);
      if !ok { return; }
      ghost var b := Gen(flags, r.body, back, lastCaptureCount);
      GenReadable(flags, r.body, back, lastCaptureCount);
      EmitQuantifier(start, lastCaptureCount, r.min, r.max, r.greedy, pre, b);
    }
  }

  lemma Regroup2(s: seq<byte>, x: seq<byte>, y: seq<byte>)
    ensures s + x + y == s + (x + y)
  {
  }

  lemma Regroup3(s: seq<byte>, x: seq<byte>, y: seq<byte>, z: seq<byte>)
    ensures s + x + y + z == s + (x + y + z)
    ensures s + (x + y) + z == s + (x + y + z)
  {
  }

  lemma FlattenNothing()
    ensures Flatten([]) == []
  {
  }

  lemma PairsNothing()
    ensures PutPairs16([]) == [] && PutPairs32([]) == []
  {
  }

  lemma {:induction false} PairsAppend16(x: seq<(int, int)>, p: (int, int))
    ensures PutPairs16(x + [p]) == PutPairs16(x) + (PutU16(p.0) + PutU16(p.1))
  {
    hide PutU16;
    if x == [] {
      assert [p][1..] == [];
    } else {
      assert (x + [p])[1..] == x[1..] + [p];
      PairsAppend16(x[1..], p);
    }
  }

  lemma {:induction false} PairsAppend32(x: seq<(int, int)>, p: (int, int))
    ensures PutPairs32(x + [p]) == PutPairs32(x) + (PutU32(p.0) + PutU32(p.1))
  {
    hide PutU32;
    if x == [] {
      assert [p][1..] == [];
    } else {
      assert (x + [p])[1..] == x[1..] + [p];
      PairsAppend32(x[1..], p);
    }
  }

  lemma PairsNext16(pairs: seq<(int, int)>, k: nat)
    requires k < |pairs|
    ensures PutPairs16(pairs[..k + 1]) == PutPairs16(pairs[..k]) + (PutU16(pairs[k].0) + PutU16(pairs[k].1))
  {
    hide PutU16, PutPairs16;
    assert pairs[..k + 1] == pairs[..k] + [pairs[k]];
    PairsAppend16(pairs[..k], pairs[k]);
  }

  lemma PairsNext32(pairs: seq<(int, int)>, k: nat)
    requires k < |pairs|
    ensures PutPairs32(pairs[..k + 1]) == PutPairs32(pairs[..k]) + (PutU32(pairs[k].0) + PutU32(pairs[k].1))
  {
    hide PutU32, PutPairs32;
    assert pairs[..k + 1] == pairs[..k] + [pairs[k]];
    PairsAppend32(pairs[..k], pairs[k]);
  }

  lemma EncodeSet(points: seq<int>)
    ensures Encode(SetCode(points)) ==
            if |points| < 2 then [CHAR32] + PutU32(UINT32_MAX)
            else if LastBound(points) <= 0xffff then [RANGE] + PutU16(|points| / 2) + PutPairs16(Pairs16(points))
            else [RANGE32] + PutU16(|points| / 2) + PutPairs32(Pairs32(points))
  {
    EncodeRanges(Pairs16(points), Pairs32(points));
    hide PutU16, PutU32, PutPairs16, PutPairs32, Encode;
  }

  lemma EncodeRanges(p: seq<(int, int)>, q: seq<(int, int)>)
    ensures Encode(Char32(UINT32_MAX)) == [CHAR32] + PutU32(UINT32_MAX)
    ensures Encode(Range(p)) == [RANGE] + PutU16(|p|) + PutPairs16(p)
    ensures Encode(Range32(q)) == [RANGE32] + PutU16(|q|) + PutPairs32(q)
  {
    hide PutU16, PutU32, PutPairs16, PutPairs32;
    assert [RANGE] + (PutU16(|p|) + PutPairs16(p)) == [RANGE] + PutU16(|p|) + PutPairs16(p);
    assert [RANGE32] + (PutU16(|q|) + PutPairs32(q)) == [RANGE32] + PutU16(|q|) + PutPairs32(q);
  }

  lemma FlattenDirected(i: Instr, back: bool)
    ensures Flatten(Directed(i, back)) == if back then [PREV] + Encode(i) + [PREV] else Encode(i)
  {
    hide Encode;
    EncodeTiny();
    if back {
      assert [Prev, i, Prev] == [Prev] + ([i] + [Prev]);
      FlattenCons(Prev, [i] + [Prev]);
      FlattenCons(i, [Prev]);
      FlattenOne(Prev);
    } else {
      FlattenOne(i);
    }
  }

  lemma PartsOf(r: Re)
    requires r.Cat? || r.Alt?
    ensures WellFormed(r) <==> WellFormed(r.left) && WellFormed(r.right)
    ensures Encodable(r) <==> Encodable(r.left) && Encodable(r.right)
    ensures Groups(r) == Groups(r.left) + Groups(r.right)
  {
  }

  lemma FlattenTest(i: Instr, op: byte)
    requires IsAssertion(i) && op == Opcode(i)
    ensures Flatten([i]) == [op]
  {
    FlattenOne(i);
  }

  lemma FlattenBackRef(back: bool, n: nat)
    requires n < 255
    ensures Flatten([BackRefOp(back, n)]) == [if back then BACKWARD_BACK_REFERENCE else BACK_REFERENCE, n]
  {
    FlattenOne(BackRefOp(back, n));
  }

  lemma FlattenGroup(b: seq<Instr>, back: bool, c: nat)
    requires c < 255
    ensures Flatten(GroupCode(b, back, c)) == [if back then SAVE_END else SAVE_START, c] + Flatten(b) + [if back then SAVE_START else SAVE_END, c]
  {
    hide Flatten;
    FlattenCons(Save(back, c), b + [Save(!back, c)]);
    FlattenAppend(b, [Save(!back, c)]);
    FlattenOne(Save(!back, c));
  }

  lemma FlattenLook(negative: bool, b: seq<Instr>)
    ensures Flatten(LookCode(negative, b)) == [if negative then NEGATIVE_LOOKAHEAD else LOOKAHEAD] + PutU32(CodeSize(b) + 1) + (Flatten(b) + [MATCH])
  {
    hide Flatten, CodeSize, PutU32;
    FlattenCons(Lookahead(negative, CodeSize(b) + 1), b + [Match]);
    FlattenAppend(b, [Match]);
    FlattenOne(Match);
  }

  lemma FlattenAlt(a: seq<Instr>, b: seq<Instr>)
    ensures Flatten(AltCode(a, b)) == [SPLIT_NEXT_FIRST] + PutU32(CodeSize(a) + 5) + Flatten(a) + [GOTO] + PutU32(CodeSize(b)) + Flatten(b)
  {
    hide Flatten, CodeSize, PutU32, Encode;
    var i, j := Split(true, CodeSize(a) + 5), Goto(CodeSize(b));
    EncodeJump(true, CodeSize(a) + 5);
    EncodeJump(true, CodeSize(b));
    FlattenCons(i, a + ([j] + b));
    FlattenAppend(a, [j] + b);
    FlattenCons(j, b);
  }

  /** Patching the jump over the second branch completes the code of an alternative. */
  lemma AltBytes(pre: seq<byte>, a: seq<Instr>, b: seq<Instr>, now: seq<byte>, mid: seq<byte>, pos: nat)
    requires mid == pre + ([SPLIT_NEXT_FIRST] + PutU32(CodeSize(a) + 5)) + Flatten(a) + ([GOTO] + PutU32(0))
    requires pos + 4 == |mid|
    requires now == (mid + Flatten(b))[..pos] + PutU32(CodeSize(b)) + (mid + Flatten(b))[pos + 4..]
    ensures now == pre + Flatten(AltCode(a, b))
  {
    hide Flatten, CodeSize, PutU32;
    FlattenAlt(a, b);
    var front := pre + ([SPLIT_NEXT_FIRST] + PutU32(CodeSize(a) + 5)) + Flatten(a) + [GOTO];
    assert mid + Flatten(b) == front + PutU32(0) + Flatten(b);
    assert (mid + Flatten(b))[..pos] == front && (mid + Flatten(b))[pos + 4..] == Flatten(b);
  }

  lemma SequenceBytes(pre: seq<byte>, a: seq<Instr>, b: seq<Instr>, whole: seq<byte>)
    requires whole == pre + Flatten(a) + Flatten(b)
    ensures whole == pre + Flatten(a + b)
    ensures |pre| <= |pre| + CodeSize(a) <= |whole|
    ensures whole[..|pre|] + whole[|pre| + CodeSize(a)..] + whole[|pre|..|pre| + CodeSize(a)] == pre + Flatten(b + a)
  {
    hide Flatten, CodeSize;
    FlattenAppend(a, b);
    FlattenAppend(b, a);
    SwapBytes(pre, Flatten(a), Flatten(b));
  }

  lemma SwapBytes(pre: seq<byte>, x: seq<byte>, y: seq<byte>)
    ensures pre + x + y == pre + (x + y)
    ensures var whole := pre + x + y; whole[..|pre|] + whole[|pre| + |x|..] + whole[|pre|..|pre| + |x|] == pre + (y + x)
  {
    var whole := pre + x + y;
    assert whole[..|pre|] == pre;
    assert whole[|pre| + |x|..] == y;
    assert whole[|pre|..|pre| + |x|] == x;
  }

  lemma LookBytes(pre: seq<byte>, op: byte, negative: bool, b: seq<Instr>, now: seq<byte>, mid: seq<byte>, pos: nat)
    requires op == if negative then NEGATIVE_LOOKAHEAD else LOOKAHEAD
    requires mid == pre + ([op] + PutU32(0)) + Flatten(b) + [MATCH] && pos == |pre| + 1
    requires now == mid[..pos] + PutU32(CodeSize(b) + 1) + mid[pos + 4..]
    ensures now == pre + Flatten(LookCode(negative, b))
  {
    hide Flatten, CodeSize, PutU32, LookCode;
    FlattenLook(negative, b);
    assert mid[..pos] == pre + [op];
    assert mid[pos + 4..] == Flatten(b) + [MATCH];
  }

  // ----- what the scans need -----

  lemma ReadableAppend(x: seq<Instr>, y: seq<Instr>)
    ensures AllReadable(x + y) <==> AllReadable(x) && AllReadable(y)
  {
    if AllReadable(x + y) {
      forall k | 0 <= k < |x| ensures Readable(x[k]) { assert (x + y)[k] == x[k]; }
      forall k | 0 <= k < |y| ensures Readable(y[k]) { assert (x + y)[|x| + k] == y[k]; }
    }
  }

  lemma ReadableOne(i: Instr)
    ensures AllReadable([i]) <==> Readable(i)
  {
    assert [i][0] == i;
  }

  lemma ReadableRep(b: seq<Instr>, min: nat, max: nat, greedy: bool, guarded: bool, c: nat, groups: nat)
    requires AllReadable(b) && c + groups <= 255
    ensures AllReadable(FastCode(b, min, max)) && AllReadable(GeneralCode(b, min, max, greedy, guarded, c, groups))
  {
    hide SimpleCount, CodeSize, AllReadable;
    var n: int := CodeSize(b);
    var s, j := Split(!greedy, -(n + 5)), Loop(-(n + 5));
    NothingReadable();
    ReadableOne(SimpleGreedyQuant(n + 1, min, max, SimpleCount(b)));
    ReadableOne(Match);
    ReadableOne(s);
    if groups > 0 { ReadableOne(SaveReset(c, c + groups - 1)); }
    ReadableAppend(b, [Match]);
    ReadableAppend([SimpleGreedyQuant(n + 1, min, max, SimpleCount(b))], b + [Match]);
    ReadableAppend(b, [s]);
    ReadableLoops(b, greedy, guarded, min);
    ReadableLoops(b, greedy, guarded, max);
    if max > min { ReadableLoops(b, greedy, guarded, max - min); }
    ReadableAppend(ResetCode(c, groups), SkippableCode(b, max, greedy, guarded));
    ReadableAppend(if min == 1 then b else TimesCode(b, min), TailCode(b, min, max, greedy, guarded));
  }

  lemma NothingReadable()
    ensures AllReadable([])
  {
  }

  lemma ReadableLoops(b: seq<Instr>, greedy: bool, guarded: bool, k: nat)
    requires AllReadable(b)
    ensures AllReadable(OnceCode(b, greedy)) && AllReadable(StarCode(b, greedy, guarded))
    ensures AllReadable(UptoCode(b, k, greedy)) && AllReadable(TimesCode(b, k))
  {
    hide CodeSize;
  }

  lemma {:induction false} GenReadable(o: Flags, r: Re, back: bool, c: nat)
    requires WellFormed(r) && Encodable(r) && c + Groups(r) <= 255
    ensures AllReadable(Gen(o, r, back, c))
    decreases r
  {
    hide Gen, SimpleCount, CodeSize, AdvanceScore, FastCode, GeneralCode, SetCode, Canonical, AllReadable, AltCode, LookCode, GroupCode;
    GenIs(o, r, back, c);
    NothingReadable();
    match r
    case Group(a) =>
      GenReadable(o, a, back, c + 1);
      ReadableParts(Gen(o, a, back, c + 1), [], false, back, c);
    case Look(negative, behind, a) =>
      GenReadable(o, a, behind, c);
      ReadableParts(Gen(o, a, behind, c), [], negative, back, 0);
    case Cat(a, b) =>
      GenReadable(o, a, back, c);
      GenReadable(o, b, back, c + Groups(a));
      ReadableAppend(Gen(o, a, back, c), Gen(o, b, back, c + Groups(a)));
      ReadableAppend(Gen(o, b, back, c + Groups(a)), Gen(o, a, back, c));
    case Alt(a, b) =>
      GenReadable(o, a, back, c);
      GenReadable(o, b, back, c + Groups(a));
      ReadableParts(Gen(o, a, back, c), Gen(o, b, back, c + Groups(a)), false, back, 0);
    case Rep(a, min, max, greedy) =>
      var b := Gen(o, a, back, c);
      GenReadable(o, a, back, c);
      ReadableRep(b, min, max, greedy, NeedsGuard(b, greedy), c, Groups(a));
    case _ => LeafReadable(o, r, back, c);
  }

  /** The code around one or two readable blocks. */
  lemma ReadableParts(a: seq<Instr>, b: seq<Instr>, negative: bool, back: bool, c: nat)
    requires AllReadable(a) && AllReadable(b)
    ensures AllReadable(AltCode(a, b)) && AllReadable(LookCode(negative, a))
    ensures c < 255 ==> AllReadable(GroupCode(a, back, c))
  {
    hide CodeSize;
  }

  lemma LeafReadable(o: Flags, r: Re, back: bool, c: nat)
    requires (IsAtom(r) || IsTest(r) || r.BackRef? || r.Empty?) && WellFormed(r) && Encodable(r)
    ensures AllReadable(Gen(o, r, back, c))
  {
    hide SetCode, Canonical;
    GenIs(o, r, back, c);
    if r.Set? { SetReadable(r.points); }
  }

  lemma SetReadable(points: seq<int>)
    requires |points| / 2 < 65535
    ensures Readable(SetCode(points))
  {
  }
}
