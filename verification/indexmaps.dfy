/** `utf8_to_utf16`: conversion of a string, with maps between the places of its characters in both forms. */
module IndexMaps {
  import opened Bytes
  import opened Utf8
  import T = Text

  // ----- units -----

  /** `x | 0xdc00` in 16 bits: only bit 13 and the ten low bits of `x` still show. */
  function OrLow(x: nat): (u: T.unit) { 0xdc00 + x / 0x2000 % 2 * 0x2000 + x % 0x400 }

  /** `x | 0xd800` in 16 bits. */
  function OrHigh(x: nat): (u: T.unit) { 0xd800 + x / 0x2000 % 2 * 0x2000 + x % 0x800 }

  /** The units written for a character. */
  function UnitsOf(c: nat): (u: seq<T.unit>)
    ensures 1 <= |u| <= 2
  {
    if c > 0xffff then [OrHigh((c - 0x1_0000) / 0x400), OrLow(c % 0x1_0000)] else [c]
  }

  /**
   * The mask that is used lets bit 13 of the character through, so an astral character becomes its surrogate
   * pair exactly when that bit is off.
   */
  lemma PairIff(c: nat)
    requires 0x1_0000 <= c < 0x11_0000
    ensures var u := UnitsOf(c);
            |u| == 2 && T.IsHigh(u[0]) && ((T.IsLow(u[1]) && T.Combine(u[0], u[1]) == c) <==> c / 0x2000 % 2 == 0)
  {
    var x, low := (c - 0x1_0000) / 0x400, c % 0x1_0000;
    LowBits(c);
    assert x / 0x2000 == 0 && x % 0x800 == x;
    var h, l := OrHigh(x), OrLow(low);
    assert h == 0xd800 + x && h % 0x400 == x;
    OrLowIs(low);
    assert x * 0x400 + c % 0x400 + 0x1_0000 == c;
  }

  lemma LowBits(c: nat)
    ensures c % 0x1_0000 / 0x2000 % 2 == c / 0x2000 % 2 && c % 0x1_0000 % 0x400 == c % 0x400
  {
    var q, r := c / 0x1_0000, c % 0x1_0000;
    Shifted(q, r);
  }

  lemma Shifted(q: nat, r: nat)
    requires r < 0x1_0000
    ensures (0x1_0000 * q + r) / 0x2000 == 8 * q + r / 0x2000 && (0x1_0000 * q + r) % 0x400 == r % 0x400
  {
    ByteQuotient(8 * q + r / 0x2000, r % 0x2000);
    LowRemainder(64 * q + r / 0x400, r % 0x400);
  }

  lemma ByteQuotient(k: nat, t: nat)
    requires t < 0x2000
    ensures (0x2000 * k + t) / 0x2000 == k
  {
  }

  lemma LowRemainder(k: nat, t: nat)
    requires t < 0x400
    ensures (0x400 * k + t) % 0x400 == t
  {
  }

  lemma OrLowIs(x: nat)
    ensures OrLow(x) % 0x400 == x % 0x400
    ensures T.IsLow(OrLow(x)) <==> x / 0x2000 % 2 == 0
  {
  }

  /** Number of units of a text. */
  function UnitLen(cs: seq<nat>): nat { if cs == [] then 0 else UnitLen(cs[..|cs| - 1]) + |UnitsOf(cs[|cs| - 1])| }

  /** Number of bytes of a text. */
  function ByteLen(cs: seq<nat>): nat { if cs == [] then 0 else ByteLen(cs[..|cs| - 1]) + Trailing(cs[|cs| - 1]) + 1 }

  function AllUnits(cs: seq<nat>): (u: seq<T.unit>)
    ensures |u| == UnitLen(cs)
  {
    if cs == [] then [] else AllUnits(cs[..|cs| - 1]) + UnitsOf(cs[|cs| - 1])
  }

  lemma Snoc(cs: seq<nat>, c: nat)
    ensures UnitLen(cs + [c]) == UnitLen(cs) + |UnitsOf(c)| && ByteLen(cs + [c]) == ByteLen(cs) + Trailing(c) + 1
    ensures AllUnits(cs + [c]) == AllUnits(cs) + UnitsOf(c)
  {
    assert (cs + [c])[..|cs|] == cs;
  }

  /** A text never has more units than bytes. */
  lemma {:induction false} UnitsFit(cs: seq<nat>)
    ensures UnitLen(cs) <= ByteLen(cs)
    decreases |cs|
  {
    if cs != [] {
      UnitsFit(cs[..|cs| - 1]);
    }
  }

  /** Characters begin at increasing places, in bytes and in units. */
  lemma {:induction false} Increasing(cs: seq<nat>, j: nat, k: nat)
    requires j < k <= |cs|
    ensures UnitLen(cs[..j]) < UnitLen(cs[..k]) && ByteLen(cs[..j]) < ByteLen(cs[..k])
    decreases k
  {
    assert cs[..k] == cs[..k - 1] + [cs[k - 1]];
    Snoc(cs[..k - 1], cs[k - 1]);
    if j < k - 1 { Increasing(cs, j, k - 1); }
  }

  // ----- the conversion -----

  /** The place of the zero byte that ends a string. */
  function FirstZero(mem: seq<byte>, from: nat): (m: nat)
    requires from < |mem| && mem[|mem| - 1] == 0
    ensures from <= m < |mem| && mem[m] == 0 && forall k :: from <= k < m ==> mem[k] != 0
    decreases |mem| - from
  {
    if mem[from] == 0 then from else FirstZero(mem, from + 1)
  }

  /** The two maps, each at the places where the first `k` characters begin. */
  ghost predicate MapsAgree(cs: seq<nat>, k: nat, indices: seq<nat>, revIndices: seq<nat>) {
    k <= |cs| &&
    forall j :: 0 <= j < k ==>
      && UnitLen(cs[..j]) < |indices| && ByteLen(cs[..j]) < |revIndices|
      && indices[UnitLen(cs[..j])] == ByteLen(cs[..j]) && revIndices[ByteLen(cs[..j])] == UnitLen(cs[..j])
  }

  /** The result: units and maps for the whole text, whose end is the end of the string. */
  ghost predicate Converted(cs: seq<nat>, n: nat, units: seq<T.unit>, indices: seq<nat>, revIndices: seq<nat>) {
    && units == AllUnits(cs) && |units| <= n && |indices| == |revIndices| == n + 1
    && MapsAgree(cs, |cs|, indices, revIndices)
    && indices[|units|] == n && revIndices[n] == |units|
  }

  /** Both maps are strictly increasing on the beginnings of characters, and there each undoes the other. */
  lemma MutuallyInverse(cs: seq<nat>, n: nat, units: seq<T.unit>, indices: seq<nat>, revIndices: seq<nat>, j: nat, k: nat)
    requires Converted(cs, n, units, indices, revIndices) && j < k < |cs|
    ensures var u, v := UnitLen(cs[..j]), UnitLen(cs[..k]);
            && u < v < |indices| && indices[u] < indices[v] < |revIndices|
            && revIndices[indices[u]] == u && revIndices[indices[v]] == v && revIndices[indices[u]] < revIndices[indices[v]]
  {
    Increasing(cs, j, k);
  }

  lemma SliceSlice(s: seq<byte>, a: nat, b: nat, i: nat, j: nat)
    requires a <= b <= |s| && i <= j <= b - a
    ensures s[a..b][i..j] == s[a + i..a + j]
  {
    var x, y := s[a..b][i..j], s[a + i..a + j];
    forall k | 0 <= k < j - i ensures x[k] == y[k] {
      assert x[k] == s[a..b][i + k] == s[a + (i + k)];
    }
  }

  /** The zero byte ends a character that is cut off, so it does not matter what follows it. */
  lemma SameChar(mem: seq<byte>, pos: nat, m: nat)
    requires pos < m < |mem| && mem[m] == 0 && mem[|mem| - 1] == 0
    ensures DecodeChar(mem[pos..Min(pos + MAX_LEN, |mem|)]) == DecodeChar(mem[pos..m])
  {
    hide Value, Mark, MinCode, Leads;
    var x, y := mem[pos..Min(pos + MAX_LEN, |mem|)], mem[pos..m];
    assert x[0] == y[0] == mem[pos];
    var l := LeadLength(mem[pos]);
    if l > 0 {
      if pos + l < m {
        SliceSlice(mem, pos, Min(pos + MAX_LEN, |mem|), 1, l + 1);
        SliceSlice(mem, pos, m, 1, l + 1);
      } else if l + 1 <= |x| {
        SliceSlice(mem, pos, Min(pos + MAX_LEN, |mem|), 1, l + 1);
        assert mem[pos + 1..pos + l + 1][m - pos - 1] == mem[m];
      }
    }
  }

  /** What is still to be decoded decides with what has been decoded. */
  ghost predicate Rest(whole: Text, cs: seq<nat>, rest: Text) {
    whole == match rest case NoText => NoText case Text(r) => Text(cs + r)
  }

  lemma RestStart(s: seq<byte>)
    ensures Rest(DecodeText(s), [], DecodeText(s))
  {
    match DecodeText(s)
    case NoText =>
    case Text(r) => assert [] + r == r;
  }

  lemma RestNext(whole: Text, cs: seq<nat>, mem: seq<byte>, pos: nat, m: nat)
    requires pos < m <= |mem| && Rest(whole, cs, DecodeText(mem[pos..m]))
    ensures var d := DecodeChar(mem[pos..m]);
            if d.Malformed? then whole == NoText
            else d.code < CODE_END && d.len == Trailing(d.code) + 1 && pos + d.len <= m && Rest(whole, cs + [d.code], DecodeText(mem[pos + d.len..m]))
  {
    hide DecodeChar, EncodeChar;
    var s := mem[pos..m];
    var d := DecodeChar(s);
    if d.Char? {
      EncodeDecoded(s);
      assert s[d.len..] == mem[pos + d.len..m];
      match DecodeText(s[d.len..])
      case NoText =>
      case Text(r) => assert cs + ([d.code] + r) == cs + [d.code] + r;
    }
  }

  /** The maps stay as they are where they have been written, and take one more character. */
  lemma MapsNext(cs: seq<nat>, c: nat, indices: seq<nat>, revIndices: seq<nat>)
    requires MapsAgree(cs, |cs|, indices, revIndices) && UnitLen(cs) < |indices| && ByteLen(cs) < |revIndices|
    ensures MapsAgree(cs + [c], |cs| + 1, indices[UnitLen(cs) := ByteLen(cs)], revIndices[ByteLen(cs) := UnitLen(cs)])
  {
    hide UnitLen, ByteLen;
    var all, u, v := cs + [c], UnitLen(cs), ByteLen(cs);
    var i', r' := indices[u := v], revIndices[v := u];
    forall j | 0 <= j < |cs| + 1
      ensures UnitLen(all[..j]) < |i'| && ByteLen(all[..j]) < |r'| && i'[UnitLen(all[..j])] == ByteLen(all[..j]) && r'[ByteLen(all[..j])] == UnitLen(all[..j])
    {
      assert all[..j] == cs[..j];
      if j < |cs| { Increasing(cs, j, |cs|); }
      assert cs[..|cs|] == cs;
    }
  }

  lemma MapsEnd(cs: seq<nat>, n: nat, indices: seq<nat>, revIndices: seq<nat>)
    requires MapsAgree(cs, |cs|, indices, revIndices) && UnitLen(cs) < |indices| && ByteLen(cs) <= n < |revIndices|
    ensures MapsAgree(cs, |cs|, indices[UnitLen(cs) := n], revIndices[n := UnitLen(cs)])
  {
    forall j | 0 <= j < |cs| ensures UnitLen(cs[..j]) < UnitLen(cs) && ByteLen(cs[..j]) < ByteLen(cs) {
      Increasing(cs, j, |cs|);
      assert cs[..|cs|] == cs;
    }
  }

  /** The units of one character at the end of the string. */
  method WriteUnits(str: array<T.unit>, q0: nat, c: nat) returns (q: nat)
    requires q0 + |UnitsOf(c)| <= str.Length
    modifies str
    ensures q == q0 + |UnitsOf(c)| && str[..q] == old(str[..q0]) + UnitsOf(c)
  {
    q := q0;
    if c > 0xffff {
      str[q] := OrHigh((c - 0x1_0000) / 0x400);
      q := q + 1;
      str[q] := OrLow(c % 0x1_0000);
      q := q + 1;
    } else {
      str[q] := c % 0x1_0000;
      q := q + 1;
    }
  }

  /**
   * `utf8_to_utf16` on a string of `n` bytes and its final zero byte. It fails exactly when the text up to the
   * first zero byte is malformed, and never writes outside its three arrays.
   */
  method Utf8ToUtf16(mem: seq<byte>, n: nat) returns (ok: bool, len: nat, str: array<T.unit>, indices: array<nat>, revIndices: array<nat>)
    requires |mem| == n + 1 && mem[n] == 0
    ensures ok <==> DecodeText(mem[..FirstZero(mem, 0)]).Text?
    ensures ok ==> len <= n && str.Length == n + 1 && Converted(DecodeText(mem[..FirstZero(mem, 0)]).codes, n, str[..len], indices[..], revIndices[..])
  {
    hide DecodeChar, DecodeText, MapsAgree, AllUnits, UnitLen, ByteLen, UnitsOf, FirstZero, Trailing, Rest;
    indices := new nat[n + 1](_ => 0);
    revIndices := new nat[n + 1](_ => 0);
    str := new T.unit[n + 1];
    var q, pos := 0, 0;
    ghost var m := FirstZero(mem, 0);
    ghost var whole := DecodeText(mem[..m]);
    ghost var cs: seq<nat> := [];
    assert mem[0..m] == mem[..m];
    RestStart(mem[..m]);
    NothingYet(indices[..], revIndices[..]);
    assert str[..0] == [];
    while mem[pos] != 0
      invariant pos <= m && pos == ByteLen(cs) && q == UnitLen(cs) && q <= pos
      invariant Rest(whole, cs, DecodeText(mem[pos..m]))
      invariant MapsAgree(cs, |cs|, indices[..], revIndices[..]) && str[..q] == AllUnits(cs)
      decreases m - pos
    {
      ghost var was, rev := indices[..], revIndices[..];
      indices[q] := pos;
      revIndices[pos] := q;
      SameChar(mem, pos, m);
      RestNext(whole, cs, mem, pos, m);
      var c, next := FromUtf8(mem, pos, MAX_LEN);
      if c == -1 {
        return false, 0, str, indices, revIndices;
      }
      MapsNext(cs, c, was, rev);
      assert indices[..] == was[q := pos] && revIndices[..] == rev[pos := q];
      Snoc(cs, c);
      UnitsShort(c);
      q := WriteUnits(str, q, c);
      cs := cs + [c];
      pos := next;
    }
    AllDecoded(whole, cs, mem, pos, m);
    UnitsFit(cs);
    MapsEnd(cs, n, indices[..], revIndices[..]);
    ghost var units, was, rev := str[..q], indices[..], revIndices[..];
    str[q] := 0;
    indices[q] := n;
    revIndices[n] := q;
    assert indices[..] == was[q := n] && revIndices[..] == rev[n := q] && str[..q] == units;
    return true, q, str, indices, revIndices;
  }

  lemma NothingYet(indices: seq<nat>, revIndices: seq<nat>)
    ensures MapsAgree([], 0, indices, revIndices) && UnitLen([]) == 0 && ByteLen([]) == 0 && AllUnits([]) == []
  {
  }

  /** Two units only for a character of four bytes or more. */
  lemma UnitsShort(c: nat)
    ensures |UnitsOf(c)| <= Trailing(c) + 1
    ensures UnitsOf(c) == if c > 0xffff then [OrHigh((c - 0x1_0000) / 0x400), OrLow(c % 0x1_0000)] else [c]
  {
  }

  lemma AllDecoded(whole: Text, cs: seq<nat>, mem: seq<byte>, pos: nat, m: nat)
    requires m < |mem| && pos <= m && mem[pos] == 0 && (forall k :: 0 <= k < m ==> mem[k] != 0) && Rest(whole, cs, DecodeText(mem[pos..m]))
    ensures pos == m && whole == Text(cs)
  {
    assert mem[pos..m] == [] && cs + [] == cs;
  }
}
