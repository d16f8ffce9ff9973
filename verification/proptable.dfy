/** Run-length property tables of libunicode: the indexed lookup and the sequential decoder. */
module PropertyTable {
  import opened Bytes
  import opened Pattern
  import opened RangeCode
  import opened CharSet
  import opened CharRanges

  // ----- the format -----

  /** Bytes taken by the entry at `pos`. */
  function EntrySize(t: seq<byte>, pos: nat): (n: nat)
    requires pos < |t|
    ensures 1 <= n <= 3
  {
    if t[pos] < 64 || t[pos] >= 0x80 then 1 else if t[pos] < 0x60 then 2 else 3
  }

  /** The lengths of the runs in the entry at `pos`: two short ones in one byte, or one of up to three bytes. */
  function EntryRuns(t: seq<byte>, pos: nat): (r: seq<nat>)
    requires pos < |t| && pos + EntrySize(t, pos) <= |t|
    ensures 1 <= |r| <= 2 && r[0] >= 1 && (|r| == 2 ==> r[1] >= 1)
  {
    var b: int := t[pos];
    if b < 64 then [b / 8 + 1, b % 8 + 1]
    else if b >= 0x80 then [b - 0x80 + 1]
    else if b < 0x60 then [(b - 0x40) * 0x100 + t[pos + 1] as int + 1]
    else [(b - 0x60) * 0x1_0000 + t[pos + 1] as int * 0x100 + t[pos + 2] as int + 1]
  }

  /** No entry is cut off by the end of the table. */
  predicate Complete(t: seq<byte>, pos: nat)
    decreases |t| - pos
  {
    pos >= |t| || (pos + EntrySize(t, pos) <= |t| && Complete(t, pos + EntrySize(t, pos)))
  }

  /** All runs from the entry at `pos` on. */
  function Runs(t: seq<byte>, pos: nat): (r: seq<nat>)
    requires Complete(t, pos)
    ensures forall k :: 0 <= k < |r| ==> r[k] >= 1
    decreases |t| - pos
  {
    if pos >= |t| then [] else EntryRuns(t, pos) + Runs(t, pos + EntrySize(t, pos))
  }

  function Total(runs: seq<nat>): nat { if runs == [] then 0 else runs[0] + Total(runs[1..]) }

  /** The property of `c` when `runs` alternate from `code` on, beginning with `bit`. */
  predicate InRuns(runs: seq<nat>, code: nat, bit: bool, c: nat) {
    if runs == [] then false
    else if c < code + runs[0] then bit
    else InRuns(runs[1..], code + runs[0], !bit, c)
  }

  /** What a table says of `c`, decoded from its first byte. */
  predicate HasProperty(t: seq<byte>, c: nat)
    requires Complete(t, 0)
  {
    InRuns(Runs(t, 0), 0, false, c)
  }

  // ----- writing tables -----

  /** Lengths that an entry can hold. */
  predicate Writable(runs: seq<nat>) { forall k :: 0 <= k < |runs| ==> 1 <= runs[k] <= 0x20_0000 }

  /** The shortest entry for one run. */
  function Single(n: nat): (s: seq<byte>)
    requires 1 <= n <= 0x20_0000
  {
    if n <= 0x80 then [0x80 + n - 1]
    else if n <= 0x2000 then [0x40 + (n - 1) / 0x100, (n - 1) % 0x100]
    else [0x60 + (n - 1) / 0x1_0000, (n - 1) / 0x100 % 0x100, (n - 1) % 0x100]
  }

  /** A table with these runs: two runs of at most eight characters share a byte. */
  function Packed(runs: seq<nat>): seq<byte>
    requires Writable(runs)
    decreases |runs|
  {
    if runs == [] then []
    else if |runs| >= 2 && runs[0] <= 8 && runs[1] <= 8 then [(runs[0] - 1) * 8 + (runs[1] - 1)] + Packed(runs[2..])
    else Single(runs[0]) + Packed(runs[1..])
  }

  /** What stands before an entry does not matter. */
  lemma {:induction false} RunsBehind(x: seq<byte>, t: seq<byte>, pos: nat)
    ensures Complete(x + t, |x| + pos) <==> Complete(t, pos)
    ensures Complete(t, pos) ==> Runs(x + t, |x| + pos) == Runs(t, pos)
    decreases |t| - pos
  {
    if pos < |t| {
      assert (x + t)[|x| + pos] == t[pos];
      RunsBehind(x, t, pos + EntrySize(t, pos));
    }
  }

  /** The first entry of a table. */
  lemma EntryFirst(x: seq<byte>, t: seq<byte>)
    requires x != [] && EntrySize(x, 0) == |x| && Complete(t, 0)
    ensures Complete(x + t, 0) && Runs(x + t, 0) == EntryRuns(x, 0) + Runs(t, 0)
  {
    RunsBehind(x, t, 0);
    assert (x + t)[0] == x[0] && EntrySize(x + t, 0) == |x|;
    assert EntryRuns(x + t, 0) == EntryRuns(x, 0);
  }

  lemma SingleRuns(n: nat)
    requires 1 <= n <= 0x20_0000
    ensures var s := Single(n); s != [] && EntrySize(s, 0) == |s| && EntryRuns(s, 0) == [n]
  {
  }

  /** Every list of runs is read back from the table written for it. */
  lemma {:induction false} ReadsPacked(runs: seq<nat>)
    requires Writable(runs)
    ensures Complete(Packed(runs), 0) && Runs(Packed(runs), 0) == runs
    decreases |runs|
  {
    hide Runs, Complete, Single, EntryRuns, EntrySize;
    if runs == [] {
      NoRuns();
    } else if |runs| >= 2 && runs[0] <= 8 && runs[1] <= 8 {
      ReadsPacked(runs[2..]);
      PairRuns(runs[0], runs[1]);
      EntryFirst([(runs[0] - 1) * 8 + (runs[1] - 1)], Packed(runs[2..]));
      assert [runs[0], runs[1]] + runs[2..] == runs;
    } else {
      ReadsPacked(runs[1..]);
      SingleRuns(runs[0]);
      EntryFirst(Single(runs[0]), Packed(runs[1..]));
      assert [runs[0]] + runs[1..] == runs;
    }
  }

  lemma PairRuns(m: nat, n: nat)
    requires 1 <= m <= 8 && 1 <= n <= 8
    ensures var s: seq<byte> := [(m - 1) * 8 + (n - 1)]; EntrySize(s, 0) == 1 && EntryRuns(s, 0) == [m, n]
  {
  }

  lemma NoRuns()
    ensures Complete([], 0) && Runs([], 0) == []
  {
  }

  // ----- decoding -----

  lemma {:induction false} InRunsAppend(x: seq<nat>, y: seq<nat>, code: nat, bit: bool, c: nat)
    requires c >= code + Total(x)
    ensures InRuns(x + y, code, bit, c) == InRuns(y, code + Total(x), bit != (|x| % 2 == 1), c)
    decreases x
  {
    if x == [] {
      assert x + y == y;
    } else {
      assert (x + y)[1..] == x[1..] + y;
      InRunsAppend(x[1..], y, code + x[0], !bit, c);
    }
  }

  lemma {:induction false} TotalAppend(x: seq<nat>, y: seq<nat>)
    ensures Total(x + y) == Total(x) + Total(y)
  {
    if x == [] {
      assert x + y == y;
    } else {
      assert (x + y)[1..] == x[1..] + y;
      TotalAppend(x[1..], y);
    }
  }

  /**
   * In the table written for a list of runs the first run lacks the property, the next one has it, and so on in
   * turn; behind the last run no character has it.
   */
  lemma PackedMeans(runs: seq<nat>, k: nat, c: nat)
    requires Writable(runs) && k <= |runs| && Total(runs[..k]) <= c && (k < |runs| ==> c < Total(runs[..k]) + runs[k])
    ensures Complete(Packed(runs), 0) && HasProperty(Packed(runs), c) == (k < |runs| && k % 2 == 1)
  {
    hide Packed, Runs, Complete;
    ReadsPacked(runs);
    assert runs == runs[..k] + runs[k..];
    InRunsAppend(runs[..k], runs[k..], 0, false, c);
  }

  // ----- the sequential decoder -----

  /** The bounds of the runs that have the property. */
  function RunPoints(runs: seq<nat>, code: nat, bit: bool): seq<int> {
    if runs == [] then []
    else (if bit then [code as int, code + runs[0]] else []) + RunPoints(runs[1..], code + runs[0], !bit)
  }

  /** The members of the set with these bounds are the characters with the property. */
  lemma {:induction false} RunPointsMember(runs: seq<nat>, code: nat, bit: bool, c: nat)
    requires forall k :: 0 <= k < |runs| ==> runs[k] >= 1
    ensures InSet(RunPoints(runs, code, bit), c) == (c >= code && InRuns(runs, code, bit, c))
    decreases runs
  {
    hide InSet;
    if runs == [] {
      NoneInSet(c);
    } else {
      var end := code + runs[0];
      var rest := RunPoints(runs[1..], end, !bit);
      RunPointsMember(runs[1..], end, !bit, c);
      if bit {
        InSetCons(code, [end as int] + rest, c);
        InSetCons(end, rest, c);
        assert [code as int, end] + rest == [code as int] + ([end as int] + rest);
      } else {
        assert [] + rest == rest;
      }
    }
  }

  /** They are in canonical form already. */
  lemma {:induction false} RunPointsRising(runs: seq<nat>, code: nat, bit: bool)
    requires (forall k :: 0 <= k < |runs| ==> runs[k] >= 1) && code + Total(runs) <= UINT32_MAX
    ensures |RunPoints(runs, code, bit)| % 2 == 0
    ensures Rising(RunPoints(runs, code, bit), if bit then code else code + if runs == [] then 0 else 1)
    decreases runs
  {
    hide Rising, RunPoints;
    RunPointsIs(runs, code, bit);
    if runs == [] {
      NoneRising(code);
    } else {
      var end := code + runs[0];
      RunPointsRising(runs[1..], end, !bit);
      RunPointsIs(runs[1..], end, !bit);
      RunAdded(RunPoints(runs[1..], end, !bit), code, end, bit, runs[1..] == []);
    }
  }

  lemma RunAdded(rest: seq<int>, code: nat, end: nat, bit: bool, last: bool)
    requires code < end <= UINT32_MAX && (last ==> rest == []) && Rising(rest, if !bit || last then end else end + 1)
    ensures Rising((if bit then [code as int, end] else []) + rest, if bit then code else code + 1)
  {
    hide Rising;
    if bit {
      RisingFrom(rest, if last then end else end + 1, end + 1);
      RisingCons(end, rest, code + 1);
      RisingCons(code, [end as int] + rest, code);
      assert [code as int, end] + rest == [code as int] + ([end as int] + rest);
    } else {
      assert [] + rest == rest;
      RisingFrom(rest, end, code + 1);
    }
  }

  lemma RunPointsIs(runs: seq<nat>, code: nat, bit: bool)
    ensures RunPoints(runs, code, bit) ==
            if runs == [] then []
            else (if bit then [code as int, code + runs[0]] else []) + RunPoints(runs[1..], code + runs[0], !bit)
  {
  }

  lemma NoneRising(low: int)
    ensures Rising([], low)
  {
  }

  lemma RisingFrom(points: seq<int>, low: int, to: int)
    requires Rising(points, low) && (to <= low || points == [])
    ensures Rising(points, to)
  {
  }

  /** One entry: one or two runs, each added to the range if the property is on. */
  method AddEntry(cr: CharRange, t: seq<byte>, p0: nat, code: nat, on: bool) returns (p: nat, c: nat, bit: bool)
    requires cr.Valid() && p0 < |t| && p0 + EntrySize(t, p0) <= |t|
    modifies cr, cr.points
    ensures cr.Owned() && p == p0 + EntrySize(t, p0)
    ensures var r := EntryRuns(t, p0);
            && bit == (on != (|r| == 1)) && c == code + r[0] + (if |r| == 2 then r[1] else 0)
            && cr.Points() == old(cr.Points()) + (if on then [code as int, code + r[0]] else if |r| == 2 then [code + r[0] as int, code + r[0] + r[1]] else [])
  {
    p, c, bit := p0, code, on;
    var c0 := c;
    var b: int := t[p];
    p := p + 1;
    if b < 64 {
      c := c + (b / 8 + 1);
      if bit {
        cr.AddInterval(c0, c);
      }
      bit := !bit;
      c0 := c;
      c := c + (b % 8 + 1);
    } else if b >= 0x80 {
      c := c + (b - 0x80 + 1);
    } else if b < 0x60 {
      c := c + ((b - 0x40) * 0x100 + t[p] as int + 1);
      p := p + 1;
    } else {
      c := c + ((b - 0x60) * 0x1_0000 + t[p] as int * 0x100 + t[p + 1] as int + 1);
      p := p + 2;
    }
    if bit {
      cr.AddInterval(c0, c);
    }
    bit := !bit;
  }

  /** `unicode_prop1`: decodes a table into a character range. */
  method UnicodeProp1(t: seq<byte>) returns (cr: CharRange)
    requires Complete(t, 0) && Total(Runs(t, 0)) <= UINT32_MAX
    ensures fresh(cr) && cr.Valid() && Canonical(cr.Points())
    ensures forall c: nat :: InSet(cr.Points(), c) == HasProperty(t, c)
  {
    hide RunPoints, Runs, InSet, InRuns, Total, Complete, Rising, Canonical, EntryRuns, EntrySize;
    cr := new CharRange();
    var p: nat, c: nat, bit := 0, 0, false;
    ghost var all := Runs(t, 0);
    while p < |t|
      invariant fresh(cr) && fresh(cr.points) && cr.Valid() && Complete(t, p)
      invariant cr.Points() + RunPoints(Runs(t, p), c, bit) == RunPoints(all, 0, false)
      decreases |t| - p
    {
      CompleteNext(t, p);
      DecodeEntry(t, p, c, bit);
      ghost var before := cr.Points();
      ghost var rest := RunPoints(Runs(t, p), c, bit);
      p, c, bit := AddEntry(cr, t, p, c, bit);
      assert cr.Points() + RunPoints(Runs(t, p), c, bit) == before + rest;
    }
    PropertyPoints(t, p, c, bit, cr.Points());
  }

  lemma CompleteNext(t: seq<byte>, p: nat)
    requires Complete(t, p) && p < |t|
    ensures p + EntrySize(t, p) <= |t| && Complete(t, p + EntrySize(t, p))
  {
  }

  /** What one entry adds to the bounds. */
  lemma DecodeEntry(t: seq<byte>, p: nat, c: nat, bit: bool)
    requires p < |t| && p + EntrySize(t, p) <= |t| && Complete(t, p + EntrySize(t, p))
    ensures var r, rest := EntryRuns(t, p), Runs(t, p + EntrySize(t, p));
            RunPoints(Runs(t, p), c, bit) ==
            (if bit then [c as int, c + r[0]] else if |r| == 2 then [c + r[0] as int, c + r[0] + r[1]] else []) +
            RunPoints(rest, c + r[0] + (if |r| == 2 then r[1] else 0), bit != (|r| == 1))
  {
    hide EntryRuns, RunPoints;
    var r, rest := EntryRuns(t, p), Runs(t, p + EntrySize(t, p));
    assert Runs(t, p) == r + rest;
    RunPointsCons(r[0], r[1..] + rest, c, bit);
    assert r + rest == [r[0]] + (r[1..] + rest);
    if |r| == 1 {
      assert r[1..] + rest == rest;
    } else {
      RunPointsCons(r[1], rest, c + r[0], !bit);
      assert r[1..] + rest == [r[1]] + rest;
    }
  }

  lemma RunPointsCons(r: nat, rest: seq<nat>, c: nat, bit: bool)
    ensures RunPoints([r] + rest, c, bit) == (if bit then [c as int, c + r] else []) + RunPoints(rest, c + r, !bit)
  {
    assert ([r] + rest)[1..] == rest;
  }

  lemma PropertyPoints(t: seq<byte>, p: nat, c: nat, bit: bool, points: seq<int>)
    requires Complete(t, 0) && p >= |t| && Total(Runs(t, 0)) <= UINT32_MAX
    requires points + RunPoints(Runs(t, p), c, bit) == RunPoints(Runs(t, 0), 0, false)
    ensures Canonical(points)
    ensures forall c: nat :: InSet(points, c) == HasProperty(t, c)
  {
    hide InSet, InRuns;
    assert Runs(t, p) == [] && RunPoints(Runs(t, p), c, bit) == [];
    assert points + [] == points;
    RunPointsRising(Runs(t, 0), 0, false);
    forall c: nat ensures InSet(points, c) == HasProperty(t, c) {
      RunPointsMember(Runs(t, 0), 0, false, c);
    }
  }

  // ----- the index -----

  const BLOCK_LEN: nat := 32

  function GetLe24(b: seq<byte>, p: nat): nat
    requires p + 3 <= |b|
  {
    b[p] as int + 0x100 * b[p + 1] as int + 0x1_0000 * b[p + 2] as int
  }

  /** The code of an index entry: the low 21 bits. */
  function IndexCode(index: seq<byte>, k: nat): nat
    requires 3 * k + 3 <= |index|
  {
    GetLe24(index, 3 * k) % 0x20_0000
  }

  /** The place in the table that an index entry names: a block, and an offset in the high 3 bits. */
  function IndexPos(index: seq<byte>, k: nat): nat
    requires 3 * k + 3 <= |index|
  {
    (k + 1) * BLOCK_LEN + GetLe24(index, 3 * k) / 0x20_0000
  }

  /** Decoding from `at` comes to an entry at `pos` with `code`, where the property is off. */
  ghost predicate ArrivesAt(t: seq<byte>, at: nat, codeAt: nat, bit: bool, pos: nat, code: nat)
    requires Complete(t, at)
    decreases |t| - at
  {
    if at >= pos || at >= |t| then at == pos && codeAt == code && !bit
    else
      var r := EntryRuns(t, at);
      ArrivesAt(t, at + EntrySize(t, at), codeAt + Total(r), bit != (|r| % 2 == 1), pos, code)
  }

  /** Every entry but the last names a true place of the table, and the last one gives a code the table reaches. */
  ghost predicate IndexOk(t: seq<byte>, index: seq<byte>, n: nat) {
    n >= 1 && |index| == 3 * n && Complete(t, 0)
    && (forall k: nat :: k + 1 < n ==> ArrivesAt(t, 0, 0, false, IndexPos(index, k), IndexCode(index, k)))
    && GetLe24(index, 3 * (n - 1)) < 0x20_0000 && IndexCode(index, n - 1) <= Total(Runs(t, 0))
  }

  /** From a place the decoding arrives at, the rest of it decides as the whole does. */
  lemma {:induction false} ArrivesSame(t: seq<byte>, at: nat, codeAt: nat, bit: bool, pos: nat, code: nat, c: nat)
    requires Complete(t, at) && ArrivesAt(t, at, codeAt, bit, pos, code) && c >= code
    ensures Complete(t, pos) && codeAt <= code && code + Total(Runs(t, pos)) == codeAt + Total(Runs(t, at))
    ensures InRuns(Runs(t, at), codeAt, bit, c) == InRuns(Runs(t, pos), code, false, c)
    decreases |t| - at
  {
    hide EntryRuns, Total, InRuns, EntrySize;
    if at < pos && at < |t| {
      var r, next := EntryRuns(t, at), at + EntrySize(t, at);
      CompleteNext(t, at);
      ArrivesSame(t, next, codeAt + Total(r), bit != (|r| % 2 == 1), pos, code, c);
      InRunsAppend(r, Runs(t, next), codeAt, bit, c);
      TotalAppend(r, Runs(t, next));
    }
  }

  /** `get_index_pos`: the place to start decoding for `c`, and the code there; -1 behind the last code. */
  method GetIndexPos(c: nat, index: seq<byte>, n: nat, ghost t: seq<byte>) returns (pos: int, code: nat)
    requires IndexOk(t, index, n)
    ensures pos < 0 <==> c >= IndexCode(index, 0) && c >= IndexCode(index, n - 1)
    ensures pos >= 0 ==> code <= c && ArrivesAt(t, 0, 0, false, pos, code)
  {
    hide ArrivesAt, GetLe24, Total, Runs, Complete;
    var idxMin := 0;
    var v := GetLe24(index, 0);
    code := v % 0x20_0000;
    if c < code {
      ArrivesAtStart(t);
      return 0, 0;
    }
    var idxMax := n - 1;
    code := GetLe24(index, idxMax * 3);
    if c >= code {
      return -1, code;
    }
    while idxMax - idxMin > 1
      invariant 0 <= idxMin < idxMax < n
      invariant IndexCode(index, idxMin) <= c < IndexCode(index, idxMax)
      decreases idxMax - idxMin
    {
      var idx := (idxMax + idxMin) / 2;
      v := GetLe24(index, idx * 3);
      code := v % 0x20_0000;
      if c < code {
        idxMax := idx;
      } else {
        idxMin := idx;
      }
    }
    v := GetLe24(index, idxMin * 3);
    code := v % 0x20_0000;
    pos := (idxMin + 1) * BLOCK_LEN + v / 0x20_0000;
  }

  lemma ArrivesAtStart(t: seq<byte>)
    requires Complete(t, 0)
    ensures ArrivesAt(t, 0, 0, false, 0, 0)
  {
  }

  /**
   * `lre_is_in_table`: below the last code of the index the lookup gives the answer of the sequential
   * decoder, reads no byte outside the table, and halts; from the last code on the answer is no.
   */
  method IsInTable(c: nat, t: seq<byte>, index: seq<byte>, n: nat) returns (r: bool)
    requires IndexOk(t, index, n)
    ensures r == ((c < IndexCode(index, 0) || c < IndexCode(index, n - 1)) && HasProperty(t, c))
  {
    hide ArrivesAt, Total, Runs, InRuns, Complete;
    var pos: int, code: nat := GetIndexPos(c, index, n, t);
    if pos < 0 {
      return false;
    }
    ArrivesSame(t, 0, 0, false, pos, code, c);
    if n > 1 { ArrivesSame(t, 0, 0, false, IndexPos(index, 0), IndexCode(index, 0), IndexCode(index, 0)); }
    var p: nat, bit := pos, false;
    while true
      invariant Complete(t, p) && code <= c < code + Total(Runs(t, p))
      invariant InRuns(Runs(t, p), code, bit, c) == HasProperty(t, c)
      decreases |t| - p
    {
      EntryStep(t, p, code, bit, c);
      var b: int := t[p];
      p := p + 1;
      if b < 64 {
        code := code + (b / 8 + 1);
        if c < code {
          return bit;
        }
        bit := !bit;
        code := code + (b % 8 + 1);
      } else if b >= 0x80 {
        code := code + (b - 0x80 + 1);
      } else if b < 0x60 {
        code := code + ((b - 0x40) * 0x100 + t[p] as int + 1);
        p := p + 1;
      } else {
        code := code + ((b - 0x60) * 0x1_0000 + t[p] as int * 0x100 + t[p + 1] as int + 1);
        p := p + 2;
      }
      if c < code {
        return bit;
      }
      bit := !bit;
    }
  }

  lemma {:induction false} InRunsPast(runs: seq<nat>, code: nat, bit: bool, c: nat)
    requires c >= code + Total(runs)
    ensures !InRuns(runs, code, bit, c)
    decreases runs
  {
    if runs != [] { InRunsPast(runs[1..], code + runs[0], !bit, c); }
  }

  /** With the end of the table as the last code of the index, the lookup and the decoder agree on every character. */
  lemma ExactIndex(c: nat, t: seq<byte>, index: seq<byte>, n: nat)
    requires IndexOk(t, index, n) && IndexCode(index, n - 1) == Total(Runs(t, 0))
    ensures HasProperty(t, c) ==> c < IndexCode(index, n - 1)
  {
    hide InRuns, Total, Runs;
    if c >= IndexCode(index, n - 1) { InRunsPast(Runs(t, 0), 0, false, c); }
  }

  /** One entry of the lookup: inside one of its runs, or behind it. */
  lemma EntryStep(t: seq<byte>, p: nat, code: nat, bit: bool, c: nat)
    requires Complete(t, p) && code <= c < code + Total(Runs(t, p))
    ensures p < |t| && p + EntrySize(t, p) <= |t| && Complete(t, p + EntrySize(t, p))
    ensures var r, rest := EntryRuns(t, p), Runs(t, p + EntrySize(t, p));
            var end := if |r| == 1 then code + r[0] else code + r[0] + r[1];
            && Total(Runs(t, p)) == end - code + Total(rest)
            && InRuns(Runs(t, p), code, bit, c) ==
               if c < code + r[0] then bit
               else if |r| == 2 && c < end then !bit
               else InRuns(rest, end, bit != (|r| == 1), c)
  {
    hide EntryRuns, EntrySize, Total, InRuns, Runs;
    RunsNext(t, p);
    var r, rest := EntryRuns(t, p), Runs(t, p + EntrySize(t, p));
    assert r + rest == [r[0]] + (r[1..] + rest);
    InRunsCons(r[0], r[1..] + rest, code, bit, c);
    if |r| == 1 {
      assert r[1..] + rest == rest;
    } else {
      assert r[1..] + rest == [r[1]] + rest;
      InRunsCons(r[1], rest, code + r[0], !bit, c);
    }
  }

  lemma RunsNext(t: seq<byte>, p: nat)
    requires Complete(t, p) && Total(Runs(t, p)) > 0
    ensures p < |t| && p + EntrySize(t, p) <= |t| && Complete(t, p + EntrySize(t, p))
    ensures Runs(t, p) == EntryRuns(t, p) + Runs(t, p + EntrySize(t, p))
  {
    hide EntryRuns;
  }

  lemma InRunsCons(r: nat, rest: seq<nat>, code: nat, bit: bool, c: nat)
    ensures InRuns([r] + rest, code, bit, c) == if c < code + r then bit else InRuns(rest, code + r, !bit, c)
    ensures Total([r] + rest) == r + Total(rest)
  {
    assert ([r] + rest)[1..] == rest;
  }
}
