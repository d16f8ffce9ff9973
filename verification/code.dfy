/** Sequences of instructions, where they sit in a byte buffer, and the linear scans over them. */
module Code {
  import opened Bytes
  import opened Instructions

  function CodeSize(code: seq<Instr>): nat {
    if code == [] then 0 else Size(code[0]) + CodeSize(code[1..])
  }

  function Flatten(code: seq<Instr>): (b: seq<byte>)
    ensures |b| == CodeSize(code)
  {
    if code == [] then [] else Encode(code[0]) + Flatten(code[1..])
  }

  predicate AllFit(code: seq<Instr>) {
    forall k :: 0 <= k < |code| ==> Fits(code[k])
  }

  /** Decoding from byte `pc` on yields exactly the instructions of `code`. */
  predicate Placed(b: seq<byte>, pc: nat, code: seq<Instr>)
    decreases code
  {
    code == [] || (Decode(b, pc) == Some(code[0]) && Placed(b, pc + Size(code[0]), code[1..]))
  }

  lemma {:induction false} SizeAppend(x: seq<Instr>, y: seq<Instr>)
    ensures CodeSize(x + y) == CodeSize(x) + CodeSize(y)
  {
    if x == [] {
      assert x + y == y;
    } else {
      assert (x + y)[0] == x[0] && (x + y)[1..] == x[1..] + y;
      SizeAppend(x[1..], y);
    }
  }

  lemma {:induction false} FlattenAppend(x: seq<Instr>, y: seq<Instr>)
    ensures Flatten(x + y) == Flatten(x) + Flatten(y)
  {
    if x == [] {
      assert x + y == y;
    } else {
      assert (x + y)[0] == x[0] && (x + y)[1..] == x[1..] + y;
      FlattenAppend(x[1..], y);
    }
  }

  lemma {:induction false} PlacedAppend(b: seq<byte>, pc: nat, x: seq<Instr>, y: seq<Instr>)
    ensures Placed(b, pc, x + y) <==> Placed(b, pc, x) && Placed(b, pc + CodeSize(x), y)
    decreases x
  {
    hide Decode, Size;
    if x == [] {
      assert x + y == y;
    } else {
      assert (x + y)[0] == x[0] && (x + y)[1..] == x[1..] + y;
      PlacedAppend(b, pc + Size(x[0]), x[1..], y);
    }
  }

  lemma PlacedCons(b: seq<byte>, pc: nat, i: Instr, rest: seq<Instr>)
    ensures Placed(b, pc, [i] + rest) <==> Decode(b, pc) == Some(i) && Placed(b, pc + Size(i), rest)
    ensures CodeSize([i] + rest) == Size(i) + CodeSize(rest)
  {
    hide Decode, Size;
    assert ([i] + rest)[0] == i && ([i] + rest)[1..] == rest;
  }

  lemma PlacedOne(b: seq<byte>, pc: nat, i: Instr)
    ensures Placed(b, pc, [i]) <==> Decode(b, pc) == Some(i)
    ensures CodeSize([i]) == Size(i)
  {
    hide Decode, Size;
    assert [i][0] == i && [i][1..] == [];
  }

  /** A block that was written to the buffer is found there again, instruction by instruction. */
  lemma {:induction false} PlacedFlatten(b: seq<byte>, pc: nat, code: seq<Instr>)
    requires At(b, pc, Flatten(code)) && AllFit(code)
    ensures Placed(b, pc, code)
    decreases code
  {
    hide Decode, Encode, Fits, At;
    if code != [] {
      AtSplit(b, pc, Encode(code[0]), Flatten(code[1..]));
      DecodeEncode(b, pc, code[0]);
      PlacedFlatten(b, pc + Size(code[0]), code[1..]);
    }
  }

  /** Opcodes that consume one character. */
  predicate IsCharOp(i: Instr) {
    i.Char? || i.Char32? || i.DotOp? || i.AnyOp? || i.Range? || i.Range32?
  }

  /** Opcodes that only test the current position. */
  predicate IsAssertion(i: Instr) {
    i.LineStartOp? || i.LineEndOp? || i.WordBoundaryOp?
  }

  /** The opcodes a straight-line block may hold. */
  predicate IsSimple(i: Instr) { IsCharOp(i) || IsAssertion(i) }

  /** Number of characters a straight-line block consumes, or -1 when it holds any other opcode. */
  function SimpleCount(code: seq<Instr>): (n: int)
    ensures n >= -1
  {
    if code == [] then 0
    else
      var rest := SimpleCount(code[1..]);
      if rest < 0 then -1
      else if IsCharOp(code[0]) then rest + 1
      else if IsAssertion(code[0]) then rest
      else -1
  }

  lemma {:induction false} SimpleCountAppend(x: seq<Instr>, y: seq<Instr>)
    ensures SimpleCount(x + y) == if SimpleCount(x) < 0 || SimpleCount(y) < 0 then -1 else SimpleCount(x) + SimpleCount(y)
  {
    if x == [] {
      assert x + y == y;
    } else {
      assert (x + y)[0] == x[0] && (x + y)[1..] == x[1..] + y;
      SimpleCountAppend(x[1..], y);
    }
  }

  /** Opcodes the advance check skips. */
  predicate IsNeutral(i: Instr) {
    IsAssertion(i) || i.PushI32? || i.PushCharPos? || i.Drop? || i.Prev? || i.Save? || i.SaveReset? || i.BackRefOp?
  }

  datatype Effect = Unknown | Advances | MayStay

  /** What the first opcode that is not neutral does. */
  function FirstEffect(code: seq<Instr>): Effect {
    if code == [] then Unknown
    else if IsCharOp(code[0]) then Advances
    else if IsNeutral(code[0]) then FirstEffect(code[1..])
    else MayStay
  }

  lemma {:induction false} FirstEffectAppend(x: seq<Instr>, y: seq<Instr>)
    ensures FirstEffect(x + y) == if FirstEffect(x) == Unknown then FirstEffect(y) else FirstEffect(x)
  {
    if x == [] {
      assert x + y == y;
    } else {
      assert (x + y)[0] == x[0] && (x + y)[1..] == x[1..] + y;
      FirstEffectAppend(x[1..], y);
    }
  }

  /** The advance check marks capture `k` as written; it does not mark the last capture of a reset. */
  predicate Writes(i: Instr, k: int) {
    (i.Save? && i.n == k) || (i.SaveReset? && i.first <= k < i.last)
  }

  predicate References(i: Instr, k: int) {
    i.BackRefOp? && i.n == k
  }

  ghost predicate AnyWrites(code: seq<Instr>, k: int) {
    exists j :: 0 <= j < |code| && Writes(code[j], k)
  }

  ghost predicate AnyReferences(code: seq<Instr>, k: int) {
    exists j :: 0 <= j < |code| && References(code[j], k)
  }

  /** The block refers back to a capture it writes itself. */
  ghost predicate SelfReferring(code: seq<Instr>) {
    exists k :: AnyWrites(code, k) && AnyReferences(code, k)
  }

  /** 1: always advances; 0: may stay; -1: depends on a capture the block itself writes. */
  ghost function AdvanceScore(code: seq<Instr>): int {
    if SelfReferring(code) then -1
    else if FirstEffect(code) == Advances then 1
    else 0
  }

  /** Change of the counter-stack height made by one instruction. */
  function Delta(i: Instr): int {
    if i.PushI32? || i.PushCharPos? then 1
    else if i.Drop? || i.BneCharPos? then -1
    else 0
  }

  /** Height the linear scan gives after all of `code`. */
  function Height(code: seq<Instr>): int {
    if code == [] then 0 else Delta(code[0]) + Height(code[1..])
  }

  lemma {:induction false} HeightAppend(x: seq<Instr>, y: seq<Instr>)
    ensures Height(x + y) == Height(x) + Height(y)
  {
    if x == [] {
      assert x + y == y;
    } else {
      assert (x + y)[0] == x[0] && (x + y)[1..] == x[1..] + y;
      HeightAppend(x[1..], y);
    }
  }
}
