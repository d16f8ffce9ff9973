/** The bytecode of libregexp: instructions, their bytes, and reading them back. */
module Instructions {
  import opened Bytes

  datatype Option<+T> = None | Some(value: T)

  /** One instruction. `off` is relative to the byte after the instruction. */
  datatype Instr =
    | Char(c: int)
    | Char32(c: int)
    | DotOp
    | AnyOp
    | LineStartOp
    | LineEndOp
    | Goto(off: int)
    | Split(nextFirst: bool, off: int)
    | Match
    | Save(end: bool, n: int)
    | SaveReset(first: int, last: int)
    | Loop(off: int)
    | PushI32(n: int)
    | Drop
    | WordBoundaryOp(neg: bool)
    | BackRefOp(backward: bool, n: int)
    | Range(pairs: seq<(int, int)>)
    | Range32(pairs: seq<(int, int)>)
    | Lookahead(neg: bool, off: int)
    | PushCharPos
    | BneCharPos(off: int)
    | Prev
    | SimpleGreedyQuant(off: int, min: int, max: int, count: int)

  const CHAR: byte := 1
  const CHAR32: byte := 2
  const DOT: byte := 3
  const ANY: byte := 4
  const LINE_START: byte := 5
  const LINE_END: byte := 6
  const GOTO: byte := 7
  const SPLIT_GOTO_FIRST: byte := 8
  const SPLIT_NEXT_FIRST: byte := 9
  const MATCH: byte := 10
  const SAVE_START: byte := 11
  const SAVE_END: byte := 12
  const SAVE_RESET: byte := 13
  const LOOP: byte := 14
  const PUSH_I32: byte := 15
  const DROP: byte := 16
  const WORD_BOUNDARY: byte := 17
  const NOT_WORD_BOUNDARY: byte := 18
  const BACK_REFERENCE: byte := 19
  const BACKWARD_BACK_REFERENCE: byte := 20
  const RANGE: byte := 21
  const RANGE32: byte := 22
  const LOOKAHEAD: byte := 23
  const NEGATIVE_LOOKAHEAD: byte := 24
  const PUSH_CHAR_POS: byte := 25
  const BNE_CHAR_POS: byte := 26
  const PREV: byte := 27
  const SIMPLE_GREEDY_QUANT: byte := 28

  function Opcode(i: Instr): byte {
    match i
    case Char(_) => CHAR
    case Char32(_) => CHAR32
    case DotOp => DOT
    case AnyOp => ANY
    case LineStartOp => LINE_START
    case LineEndOp => LINE_END
    case Goto(_) => GOTO
    case Split(nextFirst, _) => if nextFirst then SPLIT_NEXT_FIRST else SPLIT_GOTO_FIRST
    case Match => MATCH
    case Save(end, _) => if end then SAVE_END else SAVE_START
    case SaveReset(_, _) => SAVE_RESET
    case Loop(_) => LOOP
    case PushI32(_) => PUSH_I32
    case Drop => DROP
    case WordBoundaryOp(neg) => if neg then NOT_WORD_BOUNDARY else WORD_BOUNDARY
    case BackRefOp(backward, _) => if backward then BACKWARD_BACK_REFERENCE else BACK_REFERENCE
    case Range(_) => RANGE
    case Range32(_) => RANGE32
    case Lookahead(neg, _) => if neg then NEGATIVE_LOOKAHEAD else LOOKAHEAD
    case PushCharPos => PUSH_CHAR_POS
    case BneCharPos(_) => BNE_CHAR_POS
    case Prev => PREV
    case SimpleGreedyQuant(_, _, _, _) => SIMPLE_GREEDY_QUANT
  }

  function PutPairs16(pairs: seq<(int, int)>): (r: seq<byte>)
    ensures |r| == 4 * |pairs|
  {
    if pairs == [] then [] else PutU16(pairs[0].0) + PutU16(pairs[0].1) + PutPairs16(pairs[1..])
  }

  function PutPairs32(pairs: seq<(int, int)>): (r: seq<byte>)
    ensures |r| == 8 * |pairs|
  {
    if pairs == [] then [] else PutU32(pairs[0].0) + PutU32(pairs[0].1) + PutPairs32(pairs[1..])
  }

  function Operands(i: Instr): seq<byte> {
    match i
    case Char(c) => PutU16(c)
    case Char32(c) => PutU32(c)
    case Goto(off) => PutU32(off)
    case Split(_, off) => PutU32(off)
    case Save(_, n) => [n % 256]
    case SaveReset(first, last) => [first % 256, last % 256]
    case Loop(off) => PutU32(off)
    case PushI32(n) => PutU32(n)
    case BackRefOp(_, n) => [n % 256]
    case Range(pairs) => PutU16(|pairs|) + PutPairs16(pairs)
    case Range32(pairs) => PutU16(|pairs|) + PutPairs32(pairs)
    case Lookahead(_, off) => PutU32(off)
    case BneCharPos(off) => PutU32(off)
    case SimpleGreedyQuant(off, min, max, count) => PutU32(off) + PutU32(min) + PutU32(max) + PutU32(count)
    case _ => []
  }

  function Encode(i: Instr): seq<byte> { [Opcode(i)] + Operands(i) }

  /** `reopcode_info[opcode].size`. */
  function FixedSize(op: byte): nat {
    if op == CHAR || op == SAVE_RESET || op == RANGE || op == RANGE32 then 3
    else if op == SAVE_START || op == SAVE_END || op == BACK_REFERENCE || op == BACKWARD_BACK_REFERENCE then 2
    else if op == SIMPLE_GREEDY_QUANT then 17
    else if op == CHAR32 || op == GOTO || op == SPLIT_GOTO_FIRST || op == SPLIT_NEXT_FIRST || op == LOOP || op == PUSH_I32
            || op == LOOKAHEAD || op == NEGATIVE_LOOKAHEAD || op == BNE_CHAR_POS then 5
    else 1
  }

  function Size(i: Instr): (n: nat)
    ensures n == |Encode(i)| >= 1
  {
    FixedSize(Opcode(i)) + match i
                           case Range(pairs) => 4 * |pairs|
                           case Range32(pairs) => 8 * |pairs|
                           case _ => 0
  }

  /** Every operand of `i` can be stored in its field. */
  predicate Fits(i: Instr) {
    match i
    case Char(c) => IsU16(c)
    case Char32(c) => IsU32(c)
    case Goto(off) => IsI32(off)
    case Split(_, off) => IsI32(off)
    case Save(_, n) => 0 <= n < 256
    case SaveReset(first, last) => 0 <= first < 256 && 0 <= last < 256
    case Loop(off) => IsI32(off)
    case PushI32(n) => IsU32(n)
    case BackRefOp(_, n) => 0 <= n < 256
    case Range(pairs) => IsU16(|pairs|) && forall k :: 0 <= k < |pairs| ==> IsU16(pairs[k].0) && IsU16(pairs[k].1)
    case Range32(pairs) => IsU16(|pairs|) && forall k :: 0 <= k < |pairs| ==> IsU32(pairs[k].0) && IsU32(pairs[k].1)
    case Lookahead(_, off) => IsI32(off)
    case BneCharPos(off) => IsI32(off)
    case SimpleGreedyQuant(off, min, max, count) => IsI32(off) && IsU32(min) && IsU32(max) && IsU32(count)
    case _ => true
  }

  function GetPairs16(b: seq<byte>, p: nat, n: nat): (r: seq<(int, int)>)
    requires p + 4 * n <= |b|
    ensures |r| == n
    ensures forall k :: 0 <= k < n ==> r[k] == (GetU16(b, p + 4 * k), GetU16(b, p + 4 * k + 2))
    decreases n
  {
    if n == 0 then [] else [(GetU16(b, p), GetU16(b, p + 2))] + GetPairs16(b, p + 4, n - 1)
  }

  function GetPairs32(b: seq<byte>, p: nat, n: nat): (r: seq<(int, int)>)
    requires p + 8 * n <= |b|
    ensures |r| == n
    ensures forall k :: 0 <= k < n ==> r[k] == (GetU32(b, p + 8 * k), GetU32(b, p + 8 * k + 4))
    decreases n
  {
    if n == 0 then [] else [(GetU32(b, p), GetU32(b, p + 4))] + GetPairs32(b, p + 8, n - 1)
  }

  /** The instruction whose operands start at `q`, just after opcode `op`; none when the opcode or its length is bad. */
  function DecodeOperands(b: seq<byte>, op: byte, q: nat): Option<Instr> {
    if q + FixedSize(op) - 1 > |b| then None
    else if op == CHAR then Some(Char(GetU16(b, q)))
    else if op == CHAR32 then Some(Char32(GetU32(b, q)))
    else if op == DOT then Some(DotOp)
    else if op == ANY then Some(AnyOp)
    else if op == LINE_START then Some(LineStartOp)
    else if op == LINE_END then Some(LineEndOp)
    else if op == GOTO then Some(Goto(GetI32(b, q)))
    else if op == SPLIT_GOTO_FIRST then Some(Split(false, GetI32(b, q)))
    else if op == SPLIT_NEXT_FIRST then Some(Split(true, GetI32(b, q)))
    else if op == MATCH then Some(Match)
    else if op == SAVE_START then Some(Save(false, b[q]))
    else if op == SAVE_END then Some(Save(true, b[q]))
    else if op == SAVE_RESET then Some(SaveReset(b[q], b[q + 1]))
    else if op == LOOP then Some(Loop(GetI32(b, q)))
    else if op == PUSH_I32 then Some(PushI32(GetU32(b, q)))
    else if op == DROP then Some(Drop)
    else if op == WORD_BOUNDARY then Some(WordBoundaryOp(false))
    else if op == NOT_WORD_BOUNDARY then Some(WordBoundaryOp(true))
    else if op == BACK_REFERENCE then Some(BackRefOp(false, b[q]))
    else if op == BACKWARD_BACK_REFERENCE then Some(BackRefOp(true, b[q]))
    else if op == RANGE then
      var n := GetU16(b, q);
      if q + 2 + 4 * n > |b| then None else Some(Range(GetPairs16(b, q + 2, n)))
    else if op == RANGE32 then
      var n := GetU16(b, q);
      if q + 2 + 8 * n > |b| then None else Some(Range32(GetPairs32(b, q + 2, n)))
    else if op == LOOKAHEAD then Some(Lookahead(false, GetI32(b, q)))
    else if op == NEGATIVE_LOOKAHEAD then Some(Lookahead(true, GetI32(b, q)))
    else if op == PUSH_CHAR_POS then Some(PushCharPos)
    else if op == BNE_CHAR_POS then Some(BneCharPos(GetI32(b, q)))
    else if op == PREV then Some(Prev)
    else if op == SIMPLE_GREEDY_QUANT then
      Some(SimpleGreedyQuant(GetI32(b, q), GetU32(b, q + 4), GetU32(b, q + 8), GetU32(b, q + 12)))
    else None
  }

  /** The instruction that starts at byte `p`. */
  function Decode(b: seq<byte>, p: nat): Option<Instr> {
    if p >= |b| then None else DecodeOperands(b, b[p], p + 1)
  }

  lemma {:induction false} ReadPairs16(b: seq<byte>, p: nat, pairs: seq<(int, int)>)
    requires At(b, p, PutPairs16(pairs))
    requires forall k :: 0 <= k < |pairs| ==> IsU16(pairs[k].0) && IsU16(pairs[k].1)
    ensures GetPairs16(b, p, |pairs|) == pairs
    decreases pairs
  {
    if pairs != [] {
      var x, y, rest := PutU16(pairs[0].0), PutU16(pairs[0].1), PutPairs16(pairs[1..]);
      AtSplit(b, p, x + y, rest);
      AtSplit(b, p, x, y);
      ReadU16(b, p, pairs[0].0);
      ReadU16(b, p + 2, pairs[0].1);
      ReadPairs16(b, p + 4, pairs[1..]);
    }
  }

  lemma {:induction false} ReadPairs32(b: seq<byte>, p: nat, pairs: seq<(int, int)>)
    requires At(b, p, PutPairs32(pairs))
    requires forall k :: 0 <= k < |pairs| ==> IsU32(pairs[k].0) && IsU32(pairs[k].1)
    ensures GetPairs32(b, p, |pairs|) == pairs
    decreases pairs
  {
    if pairs != [] {
      var x, y, rest := PutU32(pairs[0].0), PutU32(pairs[0].1), PutPairs32(pairs[1..]);
      AtSplit(b, p, x + y, rest);
      AtSplit(b, p, x, y);
      ReadU32(b, p, pairs[0].0);
      ReadU32(b, p + 4, pairs[0].1);
      ReadPairs32(b, p + 8, pairs[1..]);
    }
  }

  lemma ReadJump(b: seq<byte>, q: nat, i: Instr)
    requires i.Goto? || i.Split? || i.Loop? || i.Lookahead? || i.BneCharPos?
    requires At(b, q, Operands(i)) && Fits(i)
    ensures DecodeOperands(b, Opcode(i), q) == Some(i)
  {
    ReadU32(b, q, i.off);
  }

  lemma ReadChar(b: seq<byte>, q: nat, i: Instr)
    requires i.Char? || i.Char32? || i.PushI32?
    requires At(b, q, Operands(i)) && Fits(i)
    ensures DecodeOperands(b, Opcode(i), q) == Some(i)
  {
    match i
    case Char(c) => ReadU16(b, q, c);
    case Char32(c) => ReadU32(b, q, c);
    case PushI32(n) => ReadU32(b, q, n);
  }

  lemma ReadRange(b: seq<byte>, q: nat, i: Instr)
    requires i.Range?
    requires At(b, q, Operands(i)) && Fits(i)
    ensures DecodeOperands(b, Opcode(i), q) == Some(i)
  {
    AtSplit(b, q, PutU16(|i.pairs|), PutPairs16(i.pairs));
    ReadU16(b, q, |i.pairs|);
    ReadPairs16(b, q + 2, i.pairs);
  }

  lemma ReadRange32(b: seq<byte>, q: nat, i: Instr)
    requires i.Range32?
    requires At(b, q, Operands(i)) && Fits(i)
    ensures DecodeOperands(b, Opcode(i), q) == Some(i)
  {
    AtSplit(b, q, PutU16(|i.pairs|), PutPairs32(i.pairs));
    ReadU16(b, q, |i.pairs|);
    ReadPairs32(b, q + 2, i.pairs);
  }

  lemma ReadQuant(b: seq<byte>, q: nat, i: Instr)
    requires i.SimpleGreedyQuant?
    requires At(b, q, Operands(i)) && Fits(i)
    ensures DecodeOperands(b, Opcode(i), q) == Some(i)
  {
    var x, y, z, w := PutU32(i.off), PutU32(i.min), PutU32(i.max), PutU32(i.count);
    AtSplit(b, q, x + y + z, w);
    AtSplit(b, q, x + y, z);
    AtSplit(b, q, x, y);
    ReadU32(b, q, i.off);
    ReadU32(b, q + 4, i.min);
    ReadU32(b, q + 8, i.max);
    ReadU32(b, q + 12, i.count);
  }

  lemma ReadCapture(b: seq<byte>, q: nat, i: Instr)
    requires i.Save? || i.BackRefOp? || i.SaveReset?
    requires At(b, q, Operands(i)) && Fits(i)
    ensures DecodeOperands(b, Opcode(i), q) == Some(i)
  {
    if i.SaveReset? {
      assert b[q] == b[q..q + 2][0] && b[q + 1] == b[q..q + 2][1];
    } else {
      assert b[q] == b[q..q + 1][0];
    }
  }

  /** Reading back the operands of an instruction that was written from `q` on. */
  lemma ReadOperands(b: seq<byte>, q: nat, i: Instr)
    requires At(b, q, Operands(i)) && Fits(i)
    ensures DecodeOperands(b, Opcode(i), q) == Some(i)
  {
    if i.Goto? || i.Split? || i.Loop? || i.Lookahead? || i.BneCharPos? {
      ReadJump(b, q, i);
    } else if i.Char? || i.Char32? || i.PushI32? {
      ReadChar(b, q, i);
    } else if i.Range? {
      ReadRange(b, q, i);
    } else if i.Range32? {
      ReadRange32(b, q, i);
    } else if i.SimpleGreedyQuant? {
      ReadQuant(b, q, i);
    } else if i.Save? || i.BackRefOp? || i.SaveReset? {
      ReadCapture(b, q, i);
    }
  }

  /** Decoding is a left inverse of encoding. */
  lemma DecodeEncode(b: seq<byte>, p: nat, i: Instr)
    requires At(b, p, Encode(i)) && Fits(i)
    ensures Decode(b, p) == Some(i)
  {
    AtSplit(b, p, [Opcode(i)], Operands(i));
    assert b[p] == b[p..p + 1][0];
    ReadOperands(b, p + 1, i);
  }
}
