/** The linear scans the compiler makes over emitted bytes. */
module Scans {
  import opened Bytes
  import opened Instructions
  import opened Code
  import opened Bounds

  /** The operands a scan reads are stored without loss. */
  predicate Readable(i: Instr) {
    match i
    case Range(pairs) => IsU16(|pairs|)
    case Range32(pairs) => IsU16(|pairs|)
    case Save(_, n) => 0 <= n < 255
    case SaveReset(first, last) => 0 <= first <= last < 255
    case BackRefOp(_, n) => 0 <= n < 255
    case _ => true
  }

  predicate AllReadable(code: seq<Instr>) { forall j :: 0 <= j < |code| ==> Readable(code[j]) }

  /** `reopcode_info[opcode].size` plus the intervals of a range: the length of the instruction at `pos`. */
  function ScanSize(b: seq<byte>, pos: nat): nat
    requires pos < |b| && pos + FixedSize(b[pos]) <= |b|
  {
    var op := b[pos];
    if op == RANGE then 3 + 4 * GetU16(b, pos + 1)
    else if op == RANGE32 then 3 + 8 * GetU16(b, pos + 1)
    else FixedSize(op)
  }

  /** The scan is at instruction `j` of `code`. */
  lemma {:induction false} ScanAt(b: seq<byte>, code: seq<Instr>, j: nat)
    requires b == Flatten(code) && j < |code|
    ensures At(b, CodeSize(code[..j]), Encode(code[j]))
    ensures CodeSize(code[..j + 1]) == CodeSize(code[..j]) + Size(code[j]) <= |b|
  {
    hide Encode, Size;
    assert code == code[..j] + code[j..];
    FlattenAppend(code[..j], code[j..]);
    assert code[j..][0] == code[j];
    assert code[..j + 1] == code[..j] + [code[j]];
    SizeAppend(code[..j], [code[j]]);
    OneSize(code[j]);
  }

  lemma OneSize(i: Instr)
    ensures CodeSize([i]) == Size(i)
  {
    assert [i][0] == i && [i][1..] == [];
  }

  /** The opcode and the length the scan reads are those of the instruction. */
  lemma ScanReads(b: seq<byte>, pos: nat, i: Instr)
    requires At(b, pos, Encode(i)) && Readable(i)
    ensures pos < |b| && b[pos] == Opcode(i) && pos + FixedSize(b[pos]) <= |b| && ScanSize(b, pos) == Size(i)
    ensures i.Save? || i.BackRefOp? ==> b[pos + 1] == i.n
    ensures i.SaveReset? ==> b[pos + 1] == i.first && b[pos + 2] == i.last
  {
    AtSplit(b, pos, [Opcode(i)], Operands(i));
    assert b[pos] == b[pos..pos + 1][0];
    match i
    case Range(pairs) =>
      AtSplit(b, pos + 1, PutU16(|pairs|), PutPairs16(pairs));
      ReadU16(b, pos + 1, |pairs|);
    case Range32(pairs) =>
      AtSplit(b, pos + 1, PutU16(|pairs|), PutPairs32(pairs));
      ReadU16(b, pos + 1, |pairs|);
    case Save(_, n) => assert b[pos + 1] == b[pos + 1..pos + 2][0];
    case BackRefOp(_, n) => assert b[pos + 1] == b[pos + 1..pos + 2][0];
    case SaveReset(first, last) =>
      assert b[pos + 1] == b[pos + 1..pos + 3][0] && b[pos + 2] == b[pos + 1..pos + 3][1];
    case _ =>
  }

  predicate IsCharOpcode(op: byte) { op == CHAR || op == CHAR32 || op == DOT || op == ANY || op == RANGE || op == RANGE32 }

  predicate IsTestOpcode(op: byte) { op == LINE_START || op == LINE_END || op == WORD_BOUNDARY || op == NOT_WORD_BOUNDARY }

  lemma OpcodeKinds(i: Instr)
    ensures IsCharOpcode(Opcode(i)) == IsCharOp(i) && IsTestOpcode(Opcode(i)) == IsAssertion(i)
  {
  }

  lemma WholePrefix(code: seq<Instr>)
    ensures code[..|code|] == code && code[..0] == []
  {
  }

  lemma SimplePrefix(code: seq<Instr>, j: nat)
    requires j < |code|
    ensures SimpleCount(code[..j]) >= 0 ==> SimpleCount(code[..j + 1]) == if IsCharOp(code[j]) then SimpleCount(code[..j]) + 1 else if IsAssertion(code[j]) then SimpleCount(code[..j]) else -1
    ensures SimpleCount(code[..j + 1]) < 0 ==> SimpleCount(code) < 0
  {
    hide IsCharOp, IsAssertion;
    assert code[..j + 1] == code[..j] + [code[j]];
    SimpleCountAppend(code[..j], [code[j]]);
    SimpleOne(code[j]);
    assert code == code[..j + 1] + code[j + 1..];
    SimpleCountAppend(code[..j + 1], code[j + 1..]);
  }

  lemma SimpleOne(i: Instr)
    ensures SimpleCount([i]) == if IsCharOp(i) then 1 else if IsAssertion(i) then 0 else -1
  {
    assert [i][0] == i && [i][1..] == [];
  }

  /** `re_is_simple_quantifier`. */
  method IsSimpleQuantifier(b: seq<byte>, ghost code: seq<Instr>) returns (n: int)
    requires b == Flatten(code) && AllReadable(code)
    ensures n == SimpleCount(code)
  {
    hide Encode, Size, SimpleCount, Flatten, CodeSize, IsCharOp, IsAssertion, ScanSize, At, FixedSize;
    var count, pos := 0, 0;
    ghost var j := 0;
    assert |b| == CodeSize(code);
    WholePrefix(code);
    EmptyPrefix();
    while pos < |b|
      invariant 0 <= j <= |code| && pos == CodeSize(code[..j])
      invariant count == SimpleCount(code[..j]) >= 0
      decreases |code| - j
    {
      PrefixShort(code, j);
      ScanAt(b, code, j);
      ScanReads(b, pos, code[j]);
      OpcodeKinds(code[j]);
      SimplePrefix(code, j);
      if IsCharOpcode(b[pos]) {
        count := count + 1;
      } else if !IsTestOpcode(b[pos]) {
        return -1;
      }
      pos := pos + ScanSize(b, pos);
      j := j + 1;
    }
    PrefixFull(code, j);
    return count;
  }

  lemma EmptyPrefix()
    ensures CodeSize([]) == 0 && SimpleCount([]) == 0 && FirstEffect([]) == Unknown && Height([]) == 0
  {
  }

  lemma PrefixShort(code: seq<Instr>, j: nat)
    requires j <= |code| && CodeSize(code[..j]) < CodeSize(code)
    ensures j < |code|
  {
    WholePrefix(code);
  }

  lemma PrefixFull(code: seq<Instr>, j: nat)
    requires j <= |code| && CodeSize(code[..j]) >= CodeSize(code)
    ensures j == |code| && code[..j] == code
  {
    if j < |code| { PrefixGrows(code, j, |code|); }
    assert code[..|code|] == code;
  }

  // ----- re_check_advance -----

  lemma EffectPrefix(code: seq<Instr>, j: nat)
    requires j < |code|
    ensures FirstEffect(code[..j + 1]) ==
            if FirstEffect(code[..j]) != Unknown then FirstEffect(code[..j])
            else if IsCharOp(code[j]) then Advances else if IsNeutral(code[j]) then Unknown else MayStay
  {
    assert code[..j + 1] == code[..j] + [code[j]];
    FirstEffectAppend(code[..j], [code[j]]);
    assert [code[j]][0] == code[j] && [code[j]][1..] == [];
  }

  lemma WritesPrefix(code: seq<Instr>, j: nat, k: int)
    requires j < |code|
    ensures AnyWrites(code[..j + 1], k) <==> AnyWrites(code[..j], k) || Writes(code[j], k)
    ensures AnyReferences(code[..j + 1], k) <==> AnyReferences(code[..j], k) || References(code[j], k)
  {
    var p, q := code[..j], code[..j + 1];
    assert forall m :: 0 <= m < j ==> p[m] == q[m];
    assert q[j] == code[j];
    if AnyWrites(p, k) { var m :| 0 <= m < j && Writes(p[m], k); assert Writes(q[m], k); }
    if AnyReferences(p, k) { var m :| 0 <= m < j && References(p[m], k); assert References(q[m], k); }
  }

  predicate IsNeutralOpcode(op: byte) {
    IsTestOpcode(op) || op == PUSH_I32 || op == PUSH_CHAR_POS || op == DROP || op == PREV || op == SAVE_START || op == SAVE_END
    || op == SAVE_RESET || op == BACK_REFERENCE || op == BACKWARD_BACK_REFERENCE
  }

  lemma NeutralKinds(i: Instr)
    ensures IsNeutralOpcode(Opcode(i)) == IsNeutral(i)
    ensures (Opcode(i) == SAVE_START || Opcode(i) == SAVE_END) == i.Save?
    ensures (Opcode(i) == SAVE_RESET) == i.SaveReset?
    ensures (Opcode(i) == BACK_REFERENCE || Opcode(i) == BACKWARD_BACK_REFERENCE) == i.BackRefOp?
  {
  }

  /** Bit 0 of an entry: the capture is written; bit 1: it is referred to. */
  ghost predicate Marks(bits: seq<bv8>, code: seq<Instr>) {
    |bits| == 255 &&
    forall k :: 0 <= k < 255 ==> (bits[k] & 1 != 0 <==> AnyWrites(code, k)) && (bits[k] & 2 != 0 <==> AnyReferences(code, k)) && bits[k] <= 3
  }

  /** The capture bits after one more instruction. */
  method Mark(bitmap: array<bv8>, b: seq<byte>, pos: nat, ghost code: seq<Instr>, ghost j: nat)
    requires bitmap.Length == 255 && j < |code| && Marks(bitmap[..], code[..j])
    requires At(b, pos, Encode(code[j])) && Readable(code[j])
    modifies bitmap
    ensures Marks(bitmap[..], code[..j + 1])
  {
    ScanReads(b, pos, code[j]);
    NeutralKinds(code[j]);
    hide Encode, At, AnyWrites, AnyReferences;
    forall k ensures (AnyWrites(code[..j + 1], k) <==> AnyWrites(code[..j], k) || Writes(code[j], k)) && (AnyReferences(code[..j + 1], k) <==> AnyReferences(code[..j], k) || References(code[j], k)) {
      WritesPrefix(code, j, k);
    }
    var op := b[pos];
    if op == SAVE_START || op == SAVE_END {
      var val := b[pos + 1];
      bitmap[val] := bitmap[val] | 1;
    } else if op == SAVE_RESET {
      var val, last := b[pos + 1] as int, b[pos + 2] as int;
      while val < last
        invariant b[pos + 1] as int <= val <= last < 255
        invariant forall k :: 0 <= k < 255 ==>
          bitmap[k] == if b[pos + 1] as int <= k < val then old(bitmap[k]) | 1 else old(bitmap[k])
      {
        bitmap[val] := bitmap[val] | 1;
        val := val + 1;
      }
    } else if op == BACK_REFERENCE || op == BACKWARD_BACK_REFERENCE {
      var val := b[pos + 1];
      bitmap[val] := bitmap[val] | 2;
    }
  }

  lemma MarkInRange(code: seq<Instr>, k: int)
    requires AllReadable(code) && AnyReferences(code, k)
    ensures 0 <= k < 255
  {
    var m :| 0 <= m < |code| && References(code[m], k);
    assert Readable(code[m]);
  }

  lemma SelfReferringAt(code: seq<Instr>, k: int)
    requires AnyWrites(code, k) && AnyReferences(code, k)
    ensures SelfReferring(code)
  {
  }

  /** The bits decide whether the block refers to a capture of its own. */
  method AnySelfReference(bitmap: array<bv8>, ghost code: seq<Instr>) returns (found: bool)
    requires bitmap.Length == 255 && Marks(bitmap[..], code) && AllReadable(code)
    ensures found == SelfReferring(code)
  {
    hide AnyWrites, AnyReferences;
    for i := 0 to 255
      invariant forall k :: 0 <= k < i ==> bitmap[k] != 3
    {
      if bitmap[i] == 3 {
        SelfReferringAt(code, i);
        return true;
      }
    }
    forall k | AnyReferences(code, k) ensures !AnyWrites(code, k) {
      MarkInRange(code, k);
      assert bitmap[..][k] != 3;
    }
    return false;
  }

  lemma NothingMarked(bits: seq<bv8>)
    requires |bits| == 255 && forall k :: 0 <= k < 255 ==> bits[k] == 0
    ensures Marks(bits, [])
  {
  }

  /** `re_check_advance`; -2 stands for an effect that is not known yet. */
  method CheckAdvance(b: seq<byte>, ghost code: seq<Instr>) returns (ret: int)
    requires b == Flatten(code) && AllReadable(code)
    ensures ret == AdvanceScore(code)
  {
    hide Encode, Size, FirstEffect, Flatten, CodeSize, IsCharOp, IsNeutral, ScanSize, At, FixedSize, Marks, SelfReferring, AnyReferences;
    NothingReferred();
    var pos, hasBackReference := 0, false;
    var captureBitmap := new bv8[255](_ => 0);
    ret := -2;
    ghost var j := 0;
    assert |b| == CodeSize(code);
    WholePrefix(code);
    EmptyPrefix();
    NothingMarked(captureBitmap[..]);
    while pos < |b|
      invariant 0 <= j <= |code| && pos == CodeSize(code[..j])
      invariant ret == match FirstEffect(code[..j]) case Unknown => -2 case Advances => 1 case MayStay => 0
      invariant Marks(captureBitmap[..], code[..j])
      invariant hasBackReference || Unreferring(code[..j])
      decreases |code| - j
    {
      PrefixShort(code, j);
      ScanAt(b, code, j);
      ScanReads(b, pos, code[j]);
      OpcodeKinds(code[j]);
      NeutralKinds(code[j]);
      EffectPrefix(code, j);
      var op := b[pos];
      if IsCharOpcode(op) {
        ret := if ret == -2 then 1 else ret;
      } else if !IsNeutralOpcode(op) {
        ret := if ret == -2 then 0 else ret;
      }
      hasBackReference := hasBackReference || op == BACK_REFERENCE || op == BACKWARD_BACK_REFERENCE;
      if !hasBackReference { StillNoReference(code, j); }
      Mark(captureBitmap, b, pos, code, j);
      pos := pos + ScanSize(b, pos);
      j := j + 1;
    }
    PrefixFull(code, j);
    if hasBackReference {
      var found := AnySelfReference(captureBitmap, code);
      if found { return -1; }
    } else {
      NoReference(code);
    }
    ret := if ret == -2 then 0 else ret;
  }

  ghost predicate Unreferring(code: seq<Instr>) { forall k :: !AnyReferences(code, k) }

  lemma NothingReferred()
    ensures Unreferring([])
  {
  }

  lemma StillNoReference(code: seq<Instr>, j: nat)
    requires j < |code| && !code[j].BackRefOp? && Unreferring(code[..j])
    ensures Unreferring(code[..j + 1])
  {
    var next := code[..j + 1];
    forall k ensures !AnyReferences(next, k) { WritesPrefix(code, j, k); }
  }

  lemma NoReference(code: seq<Instr>)
    requires Unreferring(code)
    ensures !SelfReferring(code)
  {
  }

  // ----- compute_stack_size -----

  lemma PeakPrefix(code: seq<Instr>, j: nat)
    requires j < |code|
    ensures Height(code[..j + 1]) == Height(code[..j]) + Delta(code[j])
    ensures Peak(code[..j + 1], 0) == if Height(code[..j + 1]) > Peak(code[..j], 0) then Height(code[..j + 1]) else Peak(code[..j], 0)
    ensures Peak(code[..j + 1], 0) <= Peak(code, 0) && Height(code[..j]) <= Peak(code[..j], 0)
  {
    hide Delta, Peak, Height;
    var p := code[..j];
    assert code[..j + 1] == p + [code[j]];
    HeightAppend(p, [code[j]]);
    HeightOne(code[j]);
    PeakAppend(p, [code[j]], 0);
    PeakCovers(p, 0, |p|);
    assert p[..|p|] == p;
    PeakOne(code[j], Height(p));
    assert code == code[..j + 1] + code[j + 1..];
    PeakAppend(code[..j + 1], code[j + 1..], 0);
  }

  lemma HeightOne(i: Instr)
    ensures Height([i]) == Delta(i)
  {
    hide Delta;
    assert [i][0] == i && [i][1..] == [];
  }

  lemma PeakOne(i: Instr, height: int)
    ensures Peak([i], height) == if Delta(i) > 0 then height + Delta(i) else height
  {
    hide Delta;
    assert [i][0] == i && [i][1..] == [];
  }

  lemma {:induction false} PeakAppend(x: seq<Instr>, y: seq<Instr>, height: int)
    ensures Peak(x + y, height) == var tail := Peak(y, height + Height(x)); if tail > Peak(x, height) then tail else Peak(x, height)
    decreases x
  {
    hide Delta;
    if x == [] {
      assert x + y == y;
    } else {
      assert (x + y)[0] == x[0] && (x + y)[1..] == x[1..] + y;
      PeakAppend(x[1..], y, height + Delta(x[0]));
    }
  }

  lemma DeltaKinds(i: Instr)
    ensures (Opcode(i) == PUSH_I32 || Opcode(i) == PUSH_CHAR_POS) == (Delta(i) == 1)
    ensures (Opcode(i) == DROP || Opcode(i) == BNE_CHAR_POS) == (Delta(i) == -1)
    ensures -1 <= Delta(i) <= 1
  {
  }

  const STACK_SIZE_MAX: int := 255

  /** `compute_stack_size`: the greatest height, or -1 when it is above the limit. */
  method ComputeStackSize(b: seq<byte>, ghost code: seq<Instr>) returns (size: int)
    requires b == Flatten(code) && AllReadable(code)
    requires forall j :: 0 <= j <= |code| ==> Height(code[..j]) >= 0
    ensures size == if Peak(code, 0) <= STACK_SIZE_MAX then Peak(code, 0) else -1
  {
    hide Encode, Size, Flatten, CodeSize, ScanSize, At, FixedSize, Peak, Delta;
    var stackSize, pos := 0, 0;
    size := 0;
    ghost var j := 0;
    assert |b| == CodeSize(code);
    WholePrefix(code);
    EmptyPrefix();
    PeakOfNothing();
    while pos < |b|
      invariant 0 <= j <= |code| && pos == CodeSize(code[..j])
      invariant stackSize == Height(code[..j]) && size == Peak(code[..j], 0) <= STACK_SIZE_MAX
      decreases |code| - j
    {
      PrefixShort(code, j);
      ScanAt(b, code, j);
      ScanReads(b, pos, code[j]);
      DeltaKinds(code[j]);
      PeakPrefix(code, j);
      var op := b[pos];
      if op == PUSH_I32 || op == PUSH_CHAR_POS {
        stackSize := stackSize + 1;
        if stackSize > size {
          if stackSize > STACK_SIZE_MAX {
            return -1;
          }
          size := stackSize;
        }
      } else if op == DROP || op == BNE_CHAR_POS {
        assert stackSize > 0;
        stackSize := stackSize - 1;
      }
      pos := pos + ScanSize(b, pos);
      j := j + 1;
    }
    PrefixFull(code, j);
  }

  lemma PeakOfNothing()
    ensures Peak([], 0) == 0
  {
  }
}
