/** What the tests and moves on the subject mean in terms of its units alone. */
module Reading {
  import opened Text
  import opened Pattern
  import opened BackReferences

  // ----- characters and their units -----

  /** UTF-16: one unit, or a surrogate pair for a character outside the basic plane. */
  function Units(c: code): (u: seq<unit>)
    ensures 1 <= |u| <= 2
  {
    if c < 0x1_0000 then [c]
    else
      var v: int := c - 0x1_0000;
      [0xd800 + v / 0x400, 0xdc00 + v % 0x400]
  }

  predicate IsSurrogate(c: code) { 0xd800 <= c < 0xe000 }

  function AllUnits(cs: seq<code>): seq<unit> {
    if cs == [] then [] else Units(cs[0]) + AllUnits(cs[1..])
  }

  /** The units of a character that is no surrogate are read as that character, whatever follows. */
  lemma ReadsCharacter(x: Subject, c: code, pos: nat)
    requires x.pairs && !IsSurrogate(c) && pos + |Units(c)| <= |x.units| && x.units[pos..pos + |Units(c)|] == Units(c)
    ensures GetChar(x, pos, |x.units|) == (c, pos + |Units(c)|)
  {
    var u := Units(c);
    assert x.units[pos] == x.units[pos..pos + |u|][0] == u[0];
    if c >= 0x1_0000 {
      assert x.units[pos + 1] == x.units[pos..pos + |u|][1] == u[1];
      PairValue(c - 0x1_0000);
    }
  }

  lemma PairValue(v: int)
    requires 0 <= v < 0x10_0000
    ensures var h, l := 0xd800 + v / 0x400, 0xdc00 + v % 0x400;
            0xd800 <= h < 0xdc00 && 0xdc00 <= l < 0xe000 && h % 0x400 == v / 0x400 && l % 0x400 == v % 0x400
  {
    var q := v / 0x400;
    assert 0xd800 + q == 0x400 * 54 + q && 0 <= q < 0x400;
    assert 0xdc00 + v % 0x400 == 0x400 * 55 + v % 0x400;
  }

  /** Every text of characters that are no surrogates is read back from its units, character by character. */
  lemma {:induction false} ReadsText(x: Subject, o: Flags, cs: seq<code>, pos: nat)
    requires x.pairs && !o.ignoreCase && pos <= |x.units| && x.units[pos..] == AllUnits(cs)
    requires forall k :: 0 <= k < |cs| ==> !IsSurrogate(cs[k])
    ensures Chars(x, o, pos, |x.units|) == cs
    decreases |cs|
  {
    hide Chars, GetChar, Units;
    CharsStep(x, o, pos, |x.units|);
    if cs != [] {
      var u := Units(cs[0]);
      assert x.units[pos..] == u + AllUnits(cs[1..]);
      assert x.units[pos..pos + |u|] == x.units[pos..][..|u|] == u;
      assert x.units[pos + |u|..] == x.units[pos..][|u|..] == AllUnits(cs[1..]);
      ReadsCharacter(x, cs[0], pos);
      ReadsText(x, o, cs[1..], pos + |u|);
    }
  }

  /** Reading backwards finds the same characters. */
  lemma ReadsBack(x: Subject, c: code, pos: nat)
    requires x.pairs && !IsSurrogate(c) && |Units(c)| <= pos <= |x.units| && x.units[pos - |Units(c)|..pos] == Units(c)
    ensures GetPrevChar(x, pos, 0) == (c, pos - |Units(c)|)
  {
    var u := Units(c);
    assert x.units[pos - 1] == x.units[pos - |u|..pos][|u| - 1] == u[|u| - 1];
    if c >= 0x1_0000 {
      assert x.units[pos - 2] == x.units[pos - |u|..pos][0] == u[0];
      PairValue(c - 0x1_0000);
    }
  }

  // ----- assertions -----

  predicate EndsLine(u: unit) { u in {0x0a, 0x0d, 0x2028, 0x2029} }

  /** The points of the class `\w`. */
  const WordPoints: seq<int> := [0x30, 0x3a, 0x41, 0x5b, 0x5f, 0x60, 0x61, 0x7b]

  predicate InWord(u: unit) { 0x30 <= u < 0x3a || 0x41 <= u < 0x5b || u == 0x5f || 0x61 <= u < 0x7b }

  /** The test for word characters accepts exactly the class `\w`. */
  lemma WordClass(c: code)
    ensures IsWordChar(c) <==> InSet(WordPoints, c)
  {
    var p := WordPoints;
    assert p[1..][1..] == p[2..] && p[2..][1..][1..] == p[4..] && p[4..][1..][1..] == p[6..] && p[6..][1..][1..] == [];
    InSetTwo(p, c);
    InSetTwo(p[2..], c);
    InSetTwo(p[4..], c);
    InSetTwo(p[6..], c);
  }

  lemma InSetTwo(p: seq<int>, c: int)
    requires |p| >= 2 && p[0] <= p[1]
    ensures InSet(p, c) == if c < p[0] then false else c < p[1] || InSet(p[2..], c)
  {
    assert p[1..][0] == p[1] && p[1..][1..] == p[2..];
  }

  /** `^` looks at the unit before the position, and without the multi-line flag only at the start. */
  lemma LineStartMeans(x: Subject, o: Flags, pos: nat)
    requires pos <= |x.units|
    ensures AtLineStart(x, o, pos) <==> pos == 0 || (o.multiLine && EndsLine(x.units[pos - 1]))
  {
  }

  /** `$` looks at the unit behind it. */
  lemma LineEndMeans(x: Subject, o: Flags, pos: nat)
    requires pos <= |x.units|
    ensures AtLineEnd(x, o, pos) <==> pos == |x.units| || (o.multiLine && EndsLine(x.units[pos]))
  {
  }

  /** `\b` holds where exactly one of the two neighbouring units belongs to a word. */
  lemma WordBoundaryMeans(x: Subject, pos: nat)
    requires pos <= |x.units|
    ensures AtWordBoundary(x, pos) <==> (pos > 0 && InWord(x.units[pos - 1])) != (pos < |x.units| && InWord(x.units[pos]))
  {
  }

  /** `.` accepts every character but these, and every one with the dot-all flag. */
  lemma DotMeans(o: Flags, c: code)
    ensures Accepts(o, Dot, c) <==> o.dotAll || c >= 0x1_0000 || !EndsLine(c)
  {
  }

  // ----- captures -----

  /** Unsetting the captures from `first` to `last` clears both their slots, and leaves all others. */
  lemma {:induction false} ResetMeans(caps: seq<int>, first: nat, last: int, k: nat)
    requires k < |caps|
    ensures ResetCaps(caps, first, last)[k] == if 2 * first <= k <= 2 * last + 1 then -1 else caps[k]
    decreases last - first
  {
    if first <= last {
      ResetMeans(SetCap(SetCap(caps, 2 * first, -1), 2 * first + 1, -1), first + 1, last, k);
    }
  }
}
