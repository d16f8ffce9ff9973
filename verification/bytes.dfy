/** Little-endian fields of a byte buffer, as the `put_u16`/`get_u32` helpers lay them out. */
module Bytes {
  type byte = b: int | 0 <= b < 256

  /** The two low bytes of `v`. */
  function PutU16(v: int): (r: seq<byte>)
    ensures |r| == 2
  {
    [v % 256, v / 256 % 256]
  }

  /** The four low bytes of `v`; a negative `v` is stored in two's complement. */
  function PutU32(v: int): (r: seq<byte>)
    ensures |r| == 4
  {
    var w := v % 0x1_0000_0000;
    [w % 256, w / 0x100 % 256, w / 0x1_0000 % 256, w / 0x100_0000]
  }

  function GetU16(b: seq<byte>, p: nat): nat
    requires p + 2 <= |b|
  {
    b[p] as int + 0x100 * b[p + 1] as int
  }

  function GetU32(b: seq<byte>, p: nat): nat
    requires p + 4 <= |b|
  {
    b[p] as int + 0x100 * b[p + 1] as int + 0x1_0000 * b[p + 2] as int + 0x100_0000 * b[p + 3] as int
  }

  /** The cast `(int)get_u32(p)`. */
  function GetI32(b: seq<byte>, p: nat): int
    requires p + 4 <= |b|
  {
    var v := GetU32(b, p);
    if v < 0x8000_0000 then v else v - 0x1_0000_0000
  }

  predicate IsU16(v: int) { 0 <= v < 0x1_0000 }

  predicate IsU32(v: int) { 0 <= v < 0x1_0000_0000 }

  predicate IsI32(v: int) { -0x8000_0000 <= v < 0x8000_0000 }

  /** `piece` is what the buffer holds from `p` on. */
  predicate At(b: seq<byte>, p: nat, piece: seq<byte>) {
    p + |piece| <= |b| && b[p..p + |piece|] == piece
  }

  lemma AtSplit(b: seq<byte>, p: nat, x: seq<byte>, y: seq<byte>)
    ensures At(b, p, x + y) <==> At(b, p, x) && At(b, p + |x|, y)
  {
    if p + |x + y| <= |b| {
      var whole := b[p..p + |x + y|];
      assert whole == b[p..p + |x|] + b[p + |x|..p + |x| + |y|];
      assert whole[..|x|] == b[p..p + |x|] && whole[|x|..] == b[p + |x|..p + |x| + |y|];
    }
  }

  lemma LowBytes(v: int)
    requires IsU32(v)
    ensures v == v % 256 + 0x100 * (v / 0x100 % 256) + 0x1_0000 * (v / 0x1_0000 % 256) + 0x100_0000 * (v / 0x100_0000)
  {
    assert v / 0x1_0000 == v / 0x100 / 0x100 && v / 0x100_0000 == v / 0x1_0000 / 0x100;
  }

  /** A field that was stored reads back as the value it was stored from. */
  lemma ReadU16(b: seq<byte>, p: nat, v: int)
    requires At(b, p, PutU16(v)) && IsU16(v)
    ensures p + 2 <= |b| && GetU16(b, p) == v
  {
    assert b[p] == b[p..p + 2][0] == v % 256;
    assert b[p + 1] == b[p..p + 2][1] == v / 256;
  }

  lemma ReadU32(b: seq<byte>, p: nat, v: int)
    requires At(b, p, PutU32(v)) && (IsU32(v) || IsI32(v))
    ensures p + 4 <= |b|
    ensures IsU32(v) ==> GetU32(b, p) == v
    ensures IsI32(v) ==> GetI32(b, p) == v
  {
    var w := if v < 0 then v + 0x1_0000_0000 else v;
    assert w == v % 0x1_0000_0000;
    var q := b[p..p + 4];
    assert b[p] == q[0] && b[p + 1] == q[1] && b[p + 2] == q[2] && b[p + 3] == q[3];
    LowBytes(w);
  }
}
