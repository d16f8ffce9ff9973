/** The UTF-8 codec of cutils, with sequences of one to six bytes (section 2 of RFC 2279). */
module Utf8 {
  import opened Bytes

  const CODE_END: int := 0x8000_0000
  const MAX_LEN: nat := 6

  datatype Decoded = Malformed | Char(code: nat, len: nat)

  // ----- the format -----

  /** Number of bytes behind the first one. */
  function Trailing(c: nat): (l: nat)
    ensures l <= 5
  {
    if c < 0x80 then 0 else if c < 0x800 then 1 else if c < 0x1_0000 then 2
    else if c < 0x20_0000 then 3 else if c < 0x400_0000 then 4 else 5
  }

  /** The mark of a first byte with `l` bytes behind it. */
  function Mark(l: nat): int
    requires 1 <= l <= 5
  {
    if l == 1 then 0xc0 else if l == 2 then 0xe0 else if l == 3 then 0xf0 else if l == 4 then 0xf8 else 0xfc
  }

  /** How many first bytes have that mark. */
  function Leads(l: nat): int
    requires 1 <= l <= 5
  {
    if l == 1 then 0x20 else if l == 2 then 0x10 else if l == 3 then 8 else if l == 4 then 4 else 2
  }

  function MinCode(l: nat): int
    requires 1 <= l <= 5
  {
    if l == 1 then 0x80 else if l == 2 then 0x800 else if l == 3 then 0x1_0000 else if l == 4 then 0x20_0000 else 0x400_0000
  }

  /** `c` without its low `6 * l` bits. */
  function High(c: nat, l: nat): nat { if l == 0 then c else High(c / 64, l - 1) }

  /** The low `6 * l` bits of `c` as continuation bytes. */
  function Tail(c: nat, l: nat): (s: seq<byte>)
    ensures |s| == l && forall k :: 0 <= k < l ==> 0x80 <= s[k] < 0xc0
  {
    if l == 0 then [] else Tail(c / 64, l - 1) + [0x80 + c % 64]
  }

  lemma HighBound(c: nat, l: nat)
    requires c < CODE_END && l == Trailing(c) > 0
    ensures High(c, l) < Leads(l) && MinCode(l) <= c
  {
    assert High(c, 1) == c / 64;
    assert High(c, 2) == High(c / 64, 1);
    assert High(c, 3) == High(c / 64, 2);
    assert High(c, 4) == High(c / 64, 3);
    assert High(c, 5) == High(c / 64, 4);
    HighUnfolds(c);
  }

  lemma HighUnfolds(c: nat)
    ensures High(c, 2) == c / 64 / 64 && High(c, 3) == c / 64 / 64 / 64 && High(c, 4) == c / 64 / 64 / 64 / 64
    ensures High(c, 5) == c / 64 / 64 / 64 / 64 / 64
  {
    hide High;
    var d := c / 64;
    HighStep(c, 1);
    HighStep(c, 2);
    HighStep(c, 3);
    HighStep(c, 4);
    HighStep(d, 0);
    HighStep(d, 1);
    HighStep(d, 2);
    HighStep(d, 3);
    HighStep(d / 64, 0);
    HighStep(d / 64, 1);
    HighStep(d / 64, 2);
    HighStep(d / 64 / 64, 0);
    HighStep(d / 64 / 64, 1);
    HighStep(d / 64 / 64 / 64, 0);
  }

  lemma HighStep(c: nat, l: nat)
    ensures High(c, l + 1) == High(c / 64, l) && High(c, 0) == c && High(c / 64, 0) == c / 64
  {
  }

  /** The bytes of a code point below 2^31. */
  function EncodeChar(c: nat): (s: seq<byte>)
    requires c < CODE_END
    ensures |s| == Trailing(c) + 1
  {
    var l := Trailing(c);
    if l == 0 then [c] else
      HighBound(c, l);
      [Mark(l) + High(c, l)] + Tail(c, l)
  }

  /** The length by the size of the code point, the mark of the first byte by the length, and six bits in every other byte. */
  lemma EncodeTable(c: nat)
    requires c < CODE_END
    ensures var s := EncodeChar(c);
            if c < 0x80 then s == [c]
            else
              && |s| == (if c < 0x800 then 2 else if c < 0x1_0000 then 3 else if c < 0x20_0000 then 4 else if c < 0x400_0000 then 5 else 6)
              && s[0] as int == (if |s| == 2 then 0xc0 else if |s| == 3 then 0xe0 else if |s| == 4 then 0xf0
                                 else if |s| == 5 then 0xf8 else 0xfc) + Bits(c, |s| - 1)
              && forall k :: 1 <= k < |s| ==> s[k] as int == 0x80 + Bits(c, |s| - 1 - k)
  {
    hide EncodeChar, Bits;
    if c < 0x80 { EncodeShort(c); } else { EncodeBits(c); }
  }

  lemma EncodeShort(c: nat)
    requires c < 0x80
    ensures EncodeChar(c) == [c]
  {
  }

  lemma EncodeBits(c: nat)
    requires 0x80 <= c < CODE_END
    ensures var l, s := Trailing(c), EncodeChar(c);
            1 <= l && s[0] == Mark(l) + Bits(c, l) && forall k :: 1 <= k <= l ==> s[k] == 0x80 + Bits(c, l - k)
  {
    hide Tail, High, Bits;
    var l := Trailing(c);
    HighBound(c, l);
    HighBits(c, l);
    TailBits(c, l);
    forall k | 1 <= k <= l ensures EncodeChar(c)[k] == 0x80 + Bits(c, l - k) { assert EncodeChar(c)[k] == Tail(c, l)[k - 1]; }
  }

  /** The six bits of `c` from bit `6 * k` on. */
  function Bits(c: nat, k: nat): (b: int)
    ensures 0 <= b < 64
  {
    if k == 0 then c % 64 else Bits(c / 64, k - 1)
  }

  lemma {:induction false} HighBits(c: nat, l: nat)
    requires High(c, l) < 64
    ensures High(c, l) == Bits(c, l)
    decreases l
  {
    if l > 0 { HighBits(c / 64, l - 1); }
  }

  lemma {:induction false} TailBits(c: nat, l: nat)
    ensures forall k :: 0 <= k < l ==> Tail(c, l)[k] == 0x80 + Bits(c, l - 1 - k)
    decreases l
  {
    if l > 0 { TailBits(c / 64, l - 1); }
  }

  /** The value of continuation bytes behind a value. */
  function Value(v: nat, s: seq<byte>): nat
    requires forall k :: 0 <= k < |s| ==> 0x80 <= s[k] < 0xc0
  {
    if s == [] then v else Value(v, s[..|s| - 1]) * 64 + (s[|s| - 1] - 0x80)
  }

  predicate Continues(s: seq<byte>) { forall k :: 0 <= k < |s| ==> 0x80 <= s[k] < 0xc0 }

  /** Number of bytes behind a first byte, or -1 for a byte that begins nothing. */
  function LeadLength(b: byte): int {
    if b < 0x80 then 0 else if b < 0xc0 then -1 else if b < 0xe0 then 1 else if b < 0xf0 then 2
    else if b < 0xf8 then 3 else if b < 0xfc then 4 else if b < 0xfe then 5 else -1
  }

  /** The character at the front of `s`: only the shortest form is accepted. */
  function DecodeChar(s: seq<byte>): (d: Decoded)
    ensures d.Char? ==> 1 <= d.len <= |s| && d.len <= MAX_LEN
  {
    if s == [] then Malformed
    else
      var l := LeadLength(s[0]);
      if l == 0 then Char(s[0], 1)
      else if l < 0 || l + 1 > |s| || !Continues(s[1..l + 1]) then Malformed
      else
        var c := Value(s[0] as int % Leads(l), s[1..l + 1]);
        if c < MinCode(l) then Malformed else Char(c, l + 1)
  }

  // ----- encoding and decoding undo each other -----

  lemma {:induction false} ValueOfTail(c: nat, l: nat)
    ensures Value(High(c, l), Tail(c, l)) == c
    decreases l
  {
    if l > 0 {
      ValueOfTail(c / 64, l - 1);
      var s := Tail(c, l);
      assert s[..|s| - 1] == Tail(c / 64, l - 1);
    }
  }

  lemma SixBits(q: nat, r: int)
    requires 0 <= r < 64
    ensures (q * 64 + r) / 64 == q && (q * 64 + r) % 64 == r
  {
  }

  lemma {:induction false} TailOfValue(v: nat, s: seq<byte>)
    requires Continues(s)
    ensures Tail(Value(v, s), |s|) == s && High(Value(v, s), |s|) == v
    decreases |s|
  {
    hide Tail, High, Value;
    var n := |s| - 1;
    if s == [] {
      NoTail(v);
    } else {
      TailOfValue(v, s[..n]);
      OneMore(v, s);
      assert s == s[..n] + [s[n]];
    }
  }

  lemma NoTail(v: nat)
    ensures Value(v, []) == v && Tail(v, 0) == [] && High(v, 0) == v
  {
  }

  lemma OneMore(v: nat, s: seq<byte>)
    requires s != [] && Continues(s)
    ensures var n := |s| - 1;
            var q := Value(v, s[..n]);
            Tail(Value(v, s), |s|) == Tail(q, n) + [s[n]] && High(Value(v, s), |s|) == High(q, n)
  {
    var n := |s| - 1;
    SixBits(Value(v, s[..n]), s[n] as int - 0x80);
    hide Value;
    assert Value(v, s) == Value(v, s[..n]) * 64 + (s[n] - 0x80) by { LastValue(v, s); }
  }

  lemma LastValue(v: nat, s: seq<byte>)
    requires s != [] && Continues(s)
    ensures Value(v, s) == Value(v, s[..|s| - 1]) * 64 + (s[|s| - 1] - 0x80)
  {
  }

  /** The first byte of a character tells its length and its high bits. */
  lemma LeadOf(l: nat, high: nat)
    requires 1 <= l <= 5 && high < Leads(l)
    ensures Mark(l) + high < 256 && LeadLength(Mark(l) + high) == l && (Mark(l) + high) % Leads(l) == high
  {
  }

  /** Decoding what has been encoded gives the code point back, whatever follows it. */
  lemma DecodeEncoded(c: nat, rest: seq<byte>)
    requires c < CODE_END
    ensures DecodeChar(EncodeChar(c) + rest) == Char(c, |EncodeChar(c)|)
  {
    hide Mark, Leads, High, Tail, Value, MinCode;
    var l := Trailing(c);
    var s := EncodeChar(c) + rest;
    if l > 0 {
      HighBound(c, l);
      LeadOf(l, High(c, l));
      ValueOfTail(c, l);
      assert s[1..l + 1] == Tail(c, l);
    }
  }

  lemma LeadParts(b: byte)
    requires LeadLength(b) > 0
    ensures var l := LeadLength(b); b == Mark(l) + b as int % Leads(l)
  {
  }

  /** A value of `l` continuation bytes has as many bytes behind its first when encoded. */
  lemma ValueTrailing(c: nat, l: nat)
    requires 1 <= l <= 5 && MinCode(l) <= c && High(c, l) < Leads(l)
    ensures c < CODE_END && Trailing(c) == l
  {
    HighUnfolds(c);
    assert High(c, 1) == c / 64;
  }

  /** Accepted bytes are those of the character they stand for. */
  lemma EncodeDecoded(s: seq<byte>)
    requires DecodeChar(s).Char?
    ensures var d := DecodeChar(s); d.code < CODE_END && s[..d.len] == EncodeChar(d.code)
  {
    hide Mark, Leads, High, Tail, Value, MinCode, Trailing;
    var l, d := LeadLength(s[0]), DecodeChar(s);
    if l == 0 {
      AsciiTrailing(s[0]);
    } else {
      LeadsPositive(l);
      var high := s[0] as int % Leads(l);
      TailOfValue(high, s[1..l + 1]);
      LeadParts(s[0]);
      ValueTrailing(d.code, l);
      assert s[..l + 1] == [s[0]] + s[1..l + 1];
    }
  }

  lemma AsciiTrailing(b: byte)
    ensures b < 0x80 ==> Trailing(b) == 0
  {
  }

  lemma LeadsPositive(l: nat)
    requires 1 <= l <= 5
    ensures Leads(l) > 0
  {
  }

  // ----- texts -----

  predicate Codes(cs: seq<nat>) { forall k :: 0 <= k < |cs| ==> cs[k] < CODE_END }

  function EncodeText(cs: seq<nat>): seq<byte>
    requires Codes(cs)
  {
    if cs == [] then [] else EncodeChar(cs[0]) + EncodeText(cs[1..])
  }

  datatype Text = NoText | Text(codes: seq<nat>)

  /** All characters of `s`, if it is well formed throughout. */
  function DecodeText(s: seq<byte>): Text
    decreases |s|
  {
    if s == [] then Text([])
    else
      match DecodeChar(s)
      case Malformed => NoText
      case Char(c, n) =>
        match DecodeText(s[n..])
        case NoText => NoText
        case Text(cs) => Text([c] + cs)
  }

  /** Decoding undoes encoding for every sequence of code points. */
  lemma {:induction false} TextRoundTrip(cs: seq<nat>)
    requires Codes(cs)
    ensures DecodeText(EncodeText(cs)) == Text(cs)
    decreases cs
  {
    hide DecodeChar, EncodeChar;
    if cs != [] {
      var first, rest := EncodeChar(cs[0]), EncodeText(cs[1..]);
      DecodeEncoded(cs[0], rest);
      TextRoundTrip(cs[1..]);
      assert (first + rest)[|first|..] == rest;
    }
  }

  /** Accepted bytes are the encoding of what they decode to, so no text has two encodings. */
  lemma {:induction false} BytesRoundTrip(s: seq<byte>)
    requires DecodeText(s).Text?
    ensures Codes(DecodeText(s).codes) && EncodeText(DecodeText(s).codes) == s
    decreases |s|
  {
    hide DecodeChar, EncodeChar;
    if s != [] {
      var Char(c, n) := DecodeChar(s);
      EncodeDecoded(s);
      BytesRoundTrip(s[n..]);
      var cs := DecodeText(s[n..]).codes;
      assert ([c] + cs)[1..] == cs;
      assert s == s[..n] + s[n..];
    }
  }

  // ----- the loops -----

  lemma TailTwo(c: nat)
    ensures Tail(c, 1) == [0x80 + c % 64] && Tail(c, 2) == [0x80 + c / 64 % 64, 0x80 + c % 64]
  {
    assert Tail(c / 64, 1) == Tail(c / 64 / 64, 0) + [0x80 + c / 64 % 64];
    assert Tail(c, 2) == Tail(c / 64, 1) + [0x80 + c % 64];
    assert Tail(c, 1) == Tail(c / 64, 0) + [0x80 + c % 64];
  }

  lemma TailThree(c: nat)
    ensures Tail(c, 3) == [0x80 + c / 0x1000 % 64, 0x80 + c / 64 % 64, 0x80 + c % 64]
    ensures High(c, 2) == c / 0x1000
  {
    TailTwo(c / 64);
    HighUnfolds(c);
    assert Tail(c, 3) == Tail(c / 64, 2) + [0x80 + c % 64];
  }

  lemma TailFour(c: nat)
    ensures Tail(c, 4) == [0x80 + c / 0x4_0000 % 64, 0x80 + c / 0x1000 % 64, 0x80 + c / 64 % 64, 0x80 + c % 64]
    ensures High(c, 3) == c / 0x4_0000
  {
    TailThree(c / 64);
    HighUnfolds(c);
    assert c / 64 / 0x1000 == c / 0x4_0000 && c / 64 / 64 == c / 0x1000;
    assert Tail(c, 4) == Tail(c / 64, 3) + [0x80 + c % 64];
  }

  lemma TailFive(c: nat)
    ensures Tail(c, 5) == [0x80 + c / 0x100_0000 % 64, 0x80 + c / 0x4_0000 % 64, 0x80 + c / 0x1000 % 64, 0x80 + c / 64 % 64, 0x80 + c % 64]
    ensures High(c, 4) == c / 0x100_0000 && High(c, 5) == c / 0x4000_0000 && High(c, 1) == c / 64
  {
    TailFour(c / 64);
    HighUnfolds(c);
    assert High(c, 1) == c / 64;
    assert c / 64 / 0x4_0000 == c / 0x100_0000 && c / 64 / 0x1000 == c / 0x4_0000 && c / 64 / 64 == c / 0x1000;
    assert Tail(c, 5) == Tail(c / 64, 4) + [0x80 + c % 64];
  }

  /** The bytes written out, as shifts and masks compute them. */
  lemma Explicit(c: nat)
    requires 0x80 <= c < CODE_END
    ensures EncodeChar(c) ==
            if c < 0x800 then [c / 0x40 + 0xc0, c % 0x40 + 0x80]
            else if c < 0x1_0000 then [c / 0x1000 + 0xe0, c / 0x40 % 0x40 + 0x80, c % 0x40 + 0x80]
            else if c < 0x20_0000 then [c / 0x4_0000 + 0xf0, c / 0x1000 % 0x40 + 0x80, c / 0x40 % 0x40 + 0x80, c % 0x40 + 0x80]
            else if c < 0x400_0000 then
              [c / 0x100_0000 + 0xf8, c / 0x4_0000 % 0x40 + 0x80, c / 0x1000 % 0x40 + 0x80, c / 0x40 % 0x40 + 0x80, c % 0x40 + 0x80]
            else
              [c / 0x4000_0000 + 0xfc, c / 0x100_0000 % 0x40 + 0x80, c / 0x4_0000 % 0x40 + 0x80, c / 0x1000 % 0x40 + 0x80,
               c / 0x40 % 0x40 + 0x80, c % 0x40 + 0x80]
  {
    hide Tail, High;
    TailTwo(c);
    TailThree(c);
    TailFour(c);
    TailFive(c);
  }

  /** `unicode_to_utf8`: writes the bytes of `c` to the buffer and returns their number, 0 for a code out of range. */
  method ToUtf8(buf: array<byte>, c: nat) returns (n: nat)
    requires buf.Length >= MAX_LEN && c < 0x1_0000_0000
    modifies buf
    ensures if c < CODE_END then n == |EncodeChar(c)| && buf[..n] == EncodeChar(c) else n == 0
  {
    var q := 0;
    if c < 0x80 {
      buf[q] := c;
      return 1;
    }
    if c >= CODE_END {
      return 0;
    }
    Explicit(c);
    if c < 0x800 {
      buf[q] := c / 0x40 + 0xc0;
      q := q + 1;
    } else {
      if c < 0x1_0000 {
        buf[q] := c / 0x1000 + 0xe0;
        q := q + 1;
      } else {
        if c < 0x20_0000 {
          buf[q] := c / 0x4_0000 + 0xf0;
          q := q + 1;
        } else {
          if c < 0x400_0000 {
            buf[q] := c / 0x100_0000 + 0xf8;
            q := q + 1;
          } else {
            buf[q] := c / 0x4000_0000 + 0xfc;
            q := q + 1;
            buf[q] := c / 0x100_0000 % 0x40 + 0x80;
            q := q + 1;
          }
          buf[q] := c / 0x4_0000 % 0x40 + 0x80;
          q := q + 1;
        }
        buf[q] := c / 0x1000 % 0x40 + 0x80;
        q := q + 1;
      }
      buf[q] := c / 0x40 % 0x40 + 0x80;
      q := q + 1;
    }
    buf[q] := c % 0x40 + 0x80;
    q := q + 1;
    n := q;
  }

  lemma ValueSnoc(v: nat, s: seq<byte>, b: byte)
    requires Continues(s) && 0x80 <= b < 0xc0
    ensures Continues(s + [b]) && Value(v, s + [b]) == Value(v, s) * 64 + (b - 0x80)
  {
    var t := s + [b];
    assert t[..|t| - 1] == s;
  }

  function Min(x: nat, y: nat): nat { if x < y then x else y }

  /**
   * `unicode_from_utf8` on the bytes from `p` on: the code point, or -1, and the place behind it. It reads at
   * most `maxLen` bytes, and never beyond a final zero byte.
   */
  method FromUtf8(s: seq<byte>, p: nat, maxLen: nat) returns (code: int, next: nat)
    requires p < |s| && 1 <= maxLen && (p + maxLen <= |s| || s[|s| - 1] == 0)
    ensures var d := DecodeChar(s[p..Min(p + maxLen, |s|)]);
            if d.Malformed? then code == -1 && next == p else code == d.code && next == p + d.len
  {
    hide Mark, Value;
    ghost var all := s[p..Min(p + maxLen, |s|)];
    var b0: int := s[p];
    assert all[0] == s[p];
    if b0 < 0x80 {
      return b0, p + 1;
    }
    var l := LeadLength(s[p]);
    if l < 0 || l > maxLen - 1 {
      return -1, p;
    }
    LeadsPositive(l);
    var c: nat := b0 % Leads(l);
    ghost var first := c;
    assert all[1..1] == [];
    ValueNone(first);
    for i := 0 to l
      invariant 1 + i <= |all| && Continues(all[1..1 + i]) && c == Value(first, all[1..1 + i])
    {
      assert all[i] == s[p + i] && all[i] != 0 by { if i > 0 { assert all[1..1 + i][i - 1] == all[i]; } }
      var b: int := s[p + 1 + i];
      assert all[1 + i] == s[p + 1 + i];
      if b < 0x80 || b >= 0xc0 {
        if l + 1 <= |all| { assert all[1..l + 1][i] == b; }
        return -1, p;
      }
      ValueSnoc(first, all[1..1 + i], b);
      assert all[1..1 + i] + [b] == all[1..2 + i];
      c := c * 64 + b % 64;
    }
    if c < MinCode(l) {
      return -1, p;
    }
    return c, p + 1 + l;
  }

  lemma ValueNone(v: nat)
    ensures Value(v, []) == v
  {
  }
}
