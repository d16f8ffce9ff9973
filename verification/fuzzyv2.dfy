/** `fzf_fuzzy_match_v2`: fills the score grid row by row in reused memory, and traces the best path back. */
module FuzzyV2 {
  import opened Bytes
  import opened FuzzyText
  import opened FuzzyWorth
  import opened FuzzyV1
  import opened FuzzyGrid
  import opened FuzzyTrace
  import opened FuzzySlab

  // ----- the first pass -----

  /** Where the last pattern character was seen last, once all have been seen. */
  ghost predicate LastSeen(g: Grid, pidx: nat, k: nat, last: nat) {
    pidx == |g.pat| == |g.f| > 0 ==>
      && k <= |g.t| && g.f[pidx - 1] <= last < k && g.t[last] == g.pat[pidx - 1]
      && forall j :: last < j < k ==> g.t[j] != g.pat[pidx - 1]
  }

  /** For a pattern of one character: the leftmost hit with the greatest bonus below `k`, if there is a hit. */
  ghost predicate BestSingle(g: Grid, k: nat, pos: nat, score: int) {
    && g.pat != [] && g.idx <= k <= |g.t| == |g.text|
    && if score == 0 then forall j :: g.idx <= j < k ==> g.t[j] != g.pat[0]
       else
         && g.idx <= pos < k && g.t[pos] == g.pat[0] && score == SCORE_MATCH + 2 * Bonus(g, pos)
         && (forall j :: g.idx <= j < k && g.t[j] == g.pat[0] ==> Bonus(g, j) <= Bonus(g, pos))
         && (forall j :: g.idx <= j < pos && g.t[j] == g.pat[0] ==> Bonus(g, j) < Bonus(g, pos))
  }

  lemma SingleMiss(g: Grid, k: nat, pos: nat, score: int)
    requires BestSingle(g, k, pos, score) && k < |g.t| && g.t[k] != g.pat[0]
    ensures BestSingle(g, k + 1, pos, score)
  {
    hide Bonus;
  }

  lemma SingleHit(g: Grid, k: nat, pos: nat, score: int)
    requires BestSingle(g, k, pos, score) && k < |g.t| && g.t[k] == g.pat[0]
    ensures var s := SCORE_MATCH + 2 * Bonus(g, k); if s > score then BestSingle(g, k + 1, k, s) else BestSingle(g, k + 1, pos, score)
    ensures Bonus(g, k) == BONUS_BOUNDARY && SCORE_MATCH + 2 * Bonus(g, k) > score ==> BestSingle(g, |g.t|, k, SCORE_MATCH + 2 * Bonus(g, k))
  {
    hide Bonus;
  }

  /** The pattern character that is looked for next; the last one again when all have been seen. */
  function Wanted(pat: seq<byte>, pidx: nat): byte
    requires pat != []
  {
    if pidx < |pat| then pat[pidx] else pat[|pat| - 1]
  }

  /** One place of the first pass: whether the next pattern character is found there. */
  lemma SeenStep(g: Grid, pidx: nat, k: nat, last: nat)
    requires g.pat != [] && g.idx <= k < |g.t| && g.f == Firsts(g.t, g.pat, g.idx)
    requires Before(g.f, pidx, k) && LastSeen(g, pidx, k, last)
    ensures pidx <= |g.pat|
    ensures g.t[k] == Wanted(g.pat, pidx) ==>
              if pidx < |g.pat| then pidx < |g.f| && g.f[pidx] == k && Before(g.f, pidx + 1, k + 1) && LastSeen(g, pidx + 1, k + 1, k)
              else Before(g.f, pidx, k + 1) && LastSeen(g, pidx, k + 1, k)
    ensures g.t[k] != Wanted(g.pat, pidx) ==> Before(g.f, pidx, k + 1) && LastSeen(g, pidx, k + 1, last)
  {
    hide Firsts;
    FirstsSpell(g.t, g.pat, g.idx);
    if pidx < |g.pat| {
      NextHit(g.t, g.pat, g.idx, k, pidx);
      if pidx + 1 < |g.f| { assert g.f[pidx] < g.f[pidx + 1]; }
    }
  }

  /** The part of the working memory that the first pass has written, below `k`. */
  ghost predicate Written(g: Grid, k: nat, tt: seq<byte>, bo: seq<int>, h0: seq<int>, c0: seq<int>) {
    && |tt| == |bo| == |h0| == |c0| == |g.t| == |g.text| && g.pat != [] && g.idx <= k <= |g.t|
    && (forall j :: g.idx <= j < k ==> tt[j] == g.t[j])
    && (forall j :: g.idx <= j < k ==> bo[j] == Bonus(g, j))
    && (forall j :: g.idx <= j < k ==> h0[j] == FirstRow(g, j))
    && (forall j :: g.idx <= j < k ==> c0[j] == if g.t[j] == g.pat[0] then 1 else 0)
  }

  lemma WrittenNext(g: Grid, k: nat, tt: seq<byte>, bo: seq<int>, h0: seq<int>, c0: seq<int>, x: byte, b: int, h: int, c: int)
    requires Written(g, k, tt, bo, h0, c0) && k < |g.t|
    requires x == g.t[k] && b == Bonus(g, k) && h == FirstRow(g, k) && c == if g.t[k] == g.pat[0] then 1 else 0
    ensures Written(g, k + 1, tt[k := x], bo[k := b], h0[k := h], c0[k := c])
  {
    hide Bonus, FirstRow;
  }

  lemma FirstRowStep(g: Grid, k: nat, prev: int, inGap: bool)
    requires |g.t| == |g.text| && g.pat != [] && g.idx <= k < |g.t|
    requires prev == if k > g.idx then FirstRow(g, k - 1) else 0
    requires inGap == (k > g.idx && g.t[k - 1] != g.pat[0])
    ensures FirstRow(g, k) == if g.t[k] == g.pat[0] then SCORE_MATCH + Bonus(g, k) * 2
                              else Max(prev + (if inGap then GAP_EXTENSION else GAP_START), 0)
  {
  }

  lemma BonusStep(g: Grid, k: nat, prev: CharClass)
    requires |g.t| == |g.text| && g.idx <= k < |g.text| && prev == if k > g.idx then ClassOf(g.text[k - 1]) else NonWord
    ensures Bonus(g, k) == BonusFor(prev, ClassOf(g.text[k]))
  {
  }

  lemma FoldByClass(caseSensitive: bool, c: byte)
    ensures Fold(caseSensitive, c) == if !caseSensitive && ClassOf(c) == UpperCase then c + 32 else c
  {
  }

  /** The memory of a call. What it holds at first is whatever an earlier call has left there. */
  class Memory {
    const tt: array<byte>
    const bo: array<int>
    const h0: array<int>
    const c0: array<int>
    const f: array<int>

    ghost predicate Apart(m: nat, n: nat)
      reads this
    {
      && tt.Length == bo.Length == h0.Length == c0.Length == n && f.Length == m
      && bo != h0 && bo != c0 && bo != f && h0 != c0 && h0 != f && c0 != f && tt as object != bo && tt as object != h0 && tt as object != c0 && tt as object != f
    }

    constructor (m: nat, n: nat)
      ensures Apart(m, n) && fresh(tt) && fresh(bo) && fresh(h0) && fresh(c0) && fresh(f)
    {
      tt, bo, h0, c0, f := new byte[n], new int[n], new int[n], new int[n], new int[m];
    }

    /** One place of the first pass: is the next pattern character there? */
    method NoteHit(ghost g: Grid, pat: seq<byte>, k: nat, c: byte, pidx0: nat, lastIdx0: nat) returns (pidx: nat, lastIdx: nat)
      requires g.pat == pat && |g.t| == |g.text| && pat != [] && g.idx <= k < |g.t| && c == g.t[k] && g.f == Firsts(g.t, g.pat, g.idx)
      requires pidx0 <= |pat| == f.Length && pidx0 <= |g.f| && Before(g.f, pidx0, k) && LastSeen(g, pidx0, k, lastIdx0)
      requires forall i :: 0 <= i < pidx0 ==> f[i] == g.f[i]
      modifies f
      ensures pidx <= |pat| && pidx <= |g.f| && Before(g.f, pidx, k + 1) && LastSeen(g, pidx, k + 1, lastIdx)
      ensures forall i :: 0 <= i < pidx ==> f[i] == g.f[i]
      ensures |pat| == 1 && c == pat[0] ==> pidx == 1
    {
      hide Firsts, Before, LastSeen;
      SeenStep(g, pidx0, k, lastIdx0);
      pidx, lastIdx := pidx0, lastIdx0;
      var pchar := pat[if pidx < |pat| - 1 then pidx else |pat| - 1];
      if c == pchar {
        if pidx < |pat| {
          f[pidx] := k;
          pidx := pidx + 1;
        }
        lastIdx := k;
      }
    }

    /** One place of the first pass: its folded character, its bonus, and its cell of the first row. */
    method WriteCell(ghost g: Grid, k: nat, c: byte, pchar0: byte, bonus: int, prevH0: int, inGap: bool)
      requires Apart(|g.pat|, |g.text|) && |g.t| == |g.text| && g.pat != [] && g.idx <= k < |g.t| && Written(g, k, tt[..], bo[..], h0[..], c0[..])
      requires c == g.t[k] && pchar0 == g.pat[0] && bonus == Bonus(g, k)
      requires prevH0 == if k > g.idx then FirstRow(g, k - 1) else 0
      requires inGap == (k > g.idx && g.t[k - 1] != g.pat[0])
      modifies tt, bo, h0, c0
      ensures Written(g, k + 1, tt[..], bo[..], h0[..], c0[..]) && h0[k] == FirstRow(g, k)
    {
      hide Bonus, FirstRow, Written;
      FirstRowStep(g, k, prevH0, inGap);
      ghost var t0, b0, h1, c1 := tt[..], bo[..], h0[..], c0[..];
      tt[k] := c;
      bo[k] := bonus;
      if c == pchar0 {
        h0[k] := SCORE_MATCH + bonus * 2;
        c0[k] := 1;
      } else {
        h0[k] := Max(prevH0 + (if inGap then GAP_EXTENSION else GAP_START), 0);
        c0[k] := 0;
      }
      WrittenNext(g, k, t0, b0, h1, c1, c, bonus, h0[k], c0[k]);
      assert tt[..] == t0[k := c] && bo[..] == b0[k := bonus] && h0[..] == h1[k := h0[k]] && c0[..] == c1[k := c0[k]];
    }

    /** The loop of the second phase of the source: bonuses, first places, and the first row. */
    method FirstPass(caseSensitive: bool, pat: seq<byte>, idx: nat, ghost g: Grid, text: seq<byte>)
      returns (pidx: nat, lastIdx: nat, maxScore: int, maxPos: nat)
      requires Apart(|pat|, |text|) && pat != [] && idx < |text| && g == GridOf(caseSensitive, text, pat, idx)
      modifies tt, bo, h0, c0, f
      ensures pidx == |pat| <==> |g.f| == |pat|
      ensures |pat| > 1 && pidx == |pat| ==>
                && Written(g, |text|, tt[..], bo[..], h0[..], c0[..]) && LastSeen(g, pidx, |text|, lastIdx)
                && forall i :: 0 <= i < |pat| ==> f[i] == g.f[i]
      ensures |pat| == 1 && pidx == |pat| ==> maxScore > 0 && BestSingle(g, |text|, maxPos, maxScore)
      ensures maxScore == 0 || |pat| == 1
    {
      hide Firsts, Bonus, FirstRow, Before, LastSeen, BestSingle, Written, Fold, ClassOf, BonusFor, FoldAll;
      pidx, lastIdx, maxScore, maxPos := 0, 0, 0, 0;
      var prevH0, prevClass, inGap := 0, NonWord, false;
      FirstPassStart(g, tt[..], bo[..], h0[..], c0[..]);
      for k := idx to |text|
        invariant pidx <= |pat| && pidx <= |g.f| && Before(g.f, pidx, k) && LastSeen(g, pidx, k, lastIdx)
        invariant Written(g, k, tt[..], bo[..], h0[..], c0[..])
        invariant forall i :: 0 <= i < pidx ==> f[i] == g.f[i]
        invariant prevH0 == if k > idx then FirstRow(g, k - 1) else 0
        invariant inGap == (k > idx && g.t[k - 1] != pat[0])
        invariant prevClass == if k > idx then ClassOf(text[k - 1]) else NonWord
        invariant |pat| == 1 ==> BestSingle(g, k, maxPos, maxScore)
        invariant maxScore == 0 || |pat| == 1
      {
        FoldByClass(caseSensitive, text[k]);
        FoldedAt(caseSensitive, text, pat, idx, k);
        BonusStep(g, k, prevClass);
        var cls := ClassOf(text[k]);
        var c := if !caseSensitive && cls == UpperCase then text[k] + 32 else text[k];
        var bonus := BonusFor(prevClass, cls);
        prevClass := cls;
        pidx, lastIdx := NoteHit(g, pat, k, c, pidx, lastIdx);
        WriteCell(g, k, c, pat[0], bonus, prevH0, inGap);
        inGap := c != pat[0];
        prevH0 := h0[k];
        if |pat| == 1 {
          if c == pat[0] {
            SingleHit(g, k, maxPos, maxScore);
            var score := SCORE_MATCH + bonus * 2;
            if score > maxScore {
              maxScore, maxPos := score, k;
              if bonus == BONUS_BOUNDARY {
                return;
              }
            }
          } else {
            SingleMiss(g, k, maxPos, maxScore);
          }
        }
      }
      AllSeen(g, pidx);
      if |pat| == 1 && pidx == 1 { SingleFound(g, maxPos, maxScore); }
    }
  }

  lemma FoldedAt(caseSensitive: bool, text: seq<byte>, pat: seq<byte>, idx: nat, k: nat)
    requires idx <= |text| && k < |text|
    ensures var g := GridOf(caseSensitive, text, pat, idx); g.t[k] == Fold(caseSensitive, text[k]) && |g.t| == |text| && g.text == text && g.pat == pat
  {
  }

  lemma AllSeen(g: Grid, pidx: nat)
    requires g.idx <= |g.t| && g.f == Firsts(g.t, g.pat, g.idx) && Before(g.f, pidx, |g.t|)
    ensures pidx == |g.f|
  {
    hide Firsts;
    FirstsSpell(g.t, g.pat, g.idx);
  }

  lemma SingleFound(g: Grid, pos: nat, score: int)
    requires g.idx <= |g.t| && g.f == Firsts(g.t, g.pat, g.idx) && |g.f| == |g.pat| == 1 && BestSingle(g, |g.t|, pos, score)
    ensures score > 0
  {
    hide Firsts;
    FirstsSpell(g.t, g.pat, g.idx);
    assert g.t[g.f[0]] == g.pat[..1][0];
  }

  lemma FirstPassStart(g: Grid, tt: seq<byte>, bo: seq<int>, h0: seq<int>, c0: seq<int>)
    requires |tt| == |bo| == |h0| == |c0| == |g.t| == |g.text| && g.pat != [] && g.idx <= |g.t| && g.f == Firsts(g.t, g.pat, g.idx)
    ensures Written(g, g.idx, tt, bo, h0, c0) && Before(g.f, 0, g.idx) && BestSingle(g, g.idx, 0, 0)
    ensures forall last :: LastSeen(g, 0, g.idx, last)
  {
    hide Firsts;
    FirstsSpell(g.t, g.pat, g.idx);
  }

  // ----- the grid in memory -----

  /** Row `r` holds its cells from its first place up to `k`. */
  ghost predicate RowDone(g: Grid, width: nat, h: seq<int>, c: seq<int>, r: nat, k: nat)
    requires Valid(g) && r < |g.pat|
  {
    |c| == |h| && k <= |g.t| &&
    forall j: nat {:trigger Slot(g, width, r, j)} :: g.f[r] <= j < k ==>
      0 <= Slot(g, width, r, j) < |h| && h[Slot(g, width, r, j)] == ScoreAt(g, r, j) && c[Slot(g, width, r, j)] == RunAt(g, r, j)
  }

  /** A write to a later row, or to the same row at `k` and later, leaves what is done alone. */
  lemma RowKept(g: Grid, last: nat, width: nat, h: seq<int>, c: seq<int>, r: nat, k: nat, p: nat, v: int, x: int)
    requires Frame(g, last, width, |h|) && r < |g.pat| && k <= last + 1 && RowDone(g, width, h, c, r, k)
    requires p < |h| && (p >= Row(r, width) + width || p >= Slot(g, width, r, k))
    ensures RowDone(g, width, h[p := v], c[p := x], r, k) && RowDone(g, width, h[p := v], c, r, k)
  {
    hide ScoreAt, RunAt, Row;
    forall j: nat | g.f[r] <= j < k ensures Slot(g, width, r, j) < p {
      SlotBound(g, last, width, |h|, r, j);
    }
  }

  /** The cell that has just been written extends its row. */
  lemma RowLonger(g: Grid, last: nat, width: nat, h: seq<int>, c: seq<int>, r: nat, k: nat, v: int, x: int)
    requires Frame(g, last, width, |h|) && r < |g.pat| && g.f[r] <= k <= last && RowDone(g, width, h, c, r, k)
    requires v == ScoreAt(g, r, k) && x == RunAt(g, r, k)
    ensures var p := Slot(g, width, r, k); 0 <= p < |h| && RowDone(g, width, h[p := v], c[p := x], r, k + 1)
  {
    hide ScoreAt, RunAt;
    var p := Slot(g, width, r, k);
    SlotBound(g, last, width, |h|, r, k);
    RowKept(g, last, width, h, c, r, k, p, v, x);
  }

  /** All rows below `i`, and row `i` up to `k`. */
  ghost predicate RowsDone(g: Grid, end: nat, width: nat, h: seq<int>, c: seq<int>, i: nat, k: nat)
    requires Valid(g) && i < |g.pat|
  {
    RowDone(g, width, h, c, i, k) && forall r: nat :: r < i ==> RowDone(g, width, h, c, r, end)
  }

  lemma RowsLonger(g: Grid, last: nat, width: nat, h: seq<int>, c: seq<int>, i: nat, k: nat, v: int, x: int)
    requires Frame(g, last, width, |h|) && |c| == |h| && i < |g.pat| && g.f[i] <= k <= last && RowsDone(g, last + 1, width, h, c, i, k)
    requires v == ScoreAt(g, i, k) && x == RunAt(g, i, k)
    ensures var p := Slot(g, width, i, k); 0 <= p < |h| && RowsDone(g, last + 1, width, h[p := v], c[p := x], i, k + 1)
  {
    hide ScoreAt, RunAt, RowDone, Row;
    RowLonger(g, last, width, h, c, i, k, v, x);
    SlotBound(g, last, width, |h|, i, k);
    var p, end := Slot(g, width, i, k), last + 1;
    var h', c' := h[p := v], c[p := x];
    forall r: nat | r < i ensures RowDone(g, width, h', c', r, end) {
      RowMono(r, i, width);
      RowKept(g, last, width, h, c, r, end, p, v, x);
    }
  }

  /** The zero to the left of a row's first cell. */
  lemma RowsBegin(g: Grid, last: nat, width: nat, h: seq<int>, c: seq<int>, i: nat)
    requires Frame(g, last, width, |h|) && 0 < i < |g.pat| && RowsDone(g, last + 1, width, h, c, i - 1, last + 1)
    ensures g.f[i] <= last && g.f[i] > g.f[0]
    ensures var p := Slot(g, width, i, g.f[i]) - 1; 0 <= p < |h| && RowsDone(g, last + 1, width, h[p := 0], c, i, g.f[i])
  {
    hide ScoreAt, RunAt, Row;
    assert g.f[0] < g.f[i] && (i == |g.pat| - 1 || g.f[i] < g.f[|g.pat| - 1]);
    SlotBound(g, last, width, |h|, i, g.f[i]);
    var p, end := Slot(g, width, i, g.f[i]) - 1, last + 1;
    var h' := h[p := 0];
    forall r: nat | r < i ensures RowDone(g, width, h', c, r, end) {
      RowMono(r, i, width);
      RowKept(g, last, width, h, c, r, end, p, 0, 0);
    }
  }

  /** The best column so far of the last row. */
  ghost predicate BestBelow(g: Grid, k: nat, score: int, pos: nat)
    requires Valid(g)
  {
    var m := |g.pat| - 1;
    && k <= |g.t|
    && (k <= g.f[m] ==> score == 0)
    && (k > g.f[m] ==> g.f[m] <= pos < k && score == ScoreAt(g, m, pos))
    && (forall j :: g.f[m] <= j < k ==> ScoreAt(g, m, j) <= score)
    && (forall j :: g.f[m] <= j < k && j < pos ==> ScoreAt(g, m, j) < score)
  }

  lemma BestStep(g: Grid, k: nat, score: int, pos: nat)
    requires Valid(g) && g.f[|g.pat| - 1] <= k < |g.t| && BestBelow(g, k, score, pos)
    ensures var s := ScoreAt(g, |g.pat| - 1, k); if s > score then BestBelow(g, k + 1, s, k) else BestBelow(g, k + 1, score, pos)
  {
    if k == g.f[|g.pat| - 1] { var c := CellAt(g, |g.pat| - 1, k); }
    hide ScoreAt;
  }

  /** Behind the last place of the last pattern character no column is better. */
  lemma {:induction false} NoneBetter(g: Grid, last: nat, k: nat, score: int, pos: nat)
    requires Valid(g) && LastSeen(g, |g.pat|, |g.t|, last) && BestBelow(g, last + 1, score, pos) && last < k < |g.t|
    ensures ScoreAt(g, |g.pat| - 1, k) <= score
    decreases k
  {
    hide ScoreAt;
    var m := |g.pat| - 1;
    Decays(g, m, k);
    if k - 1 > last { NoneBetter(g, last, k - 1, score, pos); }
  }

  lemma BestOverall(g: Grid, last: nat, score: int, pos: nat)
    requires Valid(g) && LastSeen(g, |g.pat|, |g.t|, last) && BestBelow(g, last + 1, score, pos)
    ensures BestColumn(g, pos) && pos <= last && score == ScoreAt(g, |g.pat| - 1, pos)
  {
    hide ScoreAt;
    var m := |g.pat| - 1;
    forall k | pos < k < |g.t| ensures ScoreAt(g, m, k) <= ScoreAt(g, m, pos) {
      if k > last { NoneBetter(g, last, k, score, pos); }
    }
  }

  /** What a cell reads of the memory. */
  lemma CellReads(g: Grid, last: nat, width: nat, h: seq<int>, c: seq<int>, i: nat, k: nat)
    requires Frame(g, last, width, |h|) && 0 < i < |g.pat| && g.f[i] <= k <= last && RowsDone(g, last + 1, width, h, c, i, k) && |c| == |h|
    ensures var p := Slot(g, width, i, k);
            && g.f[i - 1] <= k - 1 && 0 <= p - 1 - width && p < |h|
            && h[p - 1 - width] == ScoreAt(g, i - 1, k - 1) && c[p - 1 - width] == RunAt(g, i - 1, k - 1)
            && (k > g.f[i] ==> h[p - 1] == ScoreAt(g, i, k - 1))
  {
    hide ScoreAt, RunAt;
    assert g.f[i - 1] < g.f[i];
    SlotBound(g, last, width, |h|, i, k);
    SlotBound(g, last, width, |h|, i - 1, k - 1);
    assert RowDone(g, width, h, c, i - 1, last + 1);
    assert Slot(g, width, i - 1, k - 1) == Slot(g, width, i, k) - 1 - width;
    if k > g.f[i] { assert Slot(g, width, i, k - 1) == Slot(g, width, i, k) - 1; }
  }

  lemma CellIs(g: Grid, i: nat, k: nat)
    requires Valid(g) && 0 < i < |g.pat| && g.f[i] <= k < |g.t|
    ensures g.f[i - 1] <= k - 1 && RunAt(g, i - 1, k - 1) <= k
    ensures CellAt(g, i, k) == NextCell(g, i, k, if k > g.f[i] then ScoreAt(g, i, k - 1) else 0, k > g.f[i] && CellAt(g, i, k - 1).gap,
                                    ScoreAt(g, i - 1, k - 1), RunAt(g, i - 1, k - 1))
  {
    hide NextCell;
    assert g.f[i - 1] < g.f[i] && g.f[0] < g.f[i];
  }

  /** The bonus that a run takes over from where it began was written in the first pass. */
  lemma RunBonusRead(g: Grid, bo: seq<int>, i: nat, k: nat)
    requires Valid(g) && |bo| == |g.t| && (forall j :: g.idx <= j < |g.t| ==> bo[j] == Bonus(g, j)) && i < |g.pat| && g.f[i] <= k && k + 1 < |g.t|
    ensures var n := RunAt(g, i, k); g.idx <= k + 1 - n && bo[k + 1 - n] == Bonus(g, k + 1 - n)
  {
    hide RunAt, Bonus;
  }

  predicate Among(a: seq<int>, b: seq<int>) { forall x :: x in a ==> x in b }

  /** One cell of a later row, as the source computes it from what the memory holds. */
  method ComputeCell(ghost g: Grid, pchar: byte, ch: byte, left: int, inGap: bool, diag: int, diagRun: int, bonus: int, before: int, ghost i: nat, ghost k: nat)
    returns (score: int, run: int, gap: bool, ghost formed: seq<int>)
    requires |g.t| == |g.text| && i < |g.pat| && k < |g.text| && 0 <= diagRun <= k
    requires pchar == g.pat[i] && ch == g.t[k] && bonus == Bonus(g, k) && before == Bonus(g, k - diagRun)
    ensures Cell(score, run, gap) == NextCell(g, i, k, left, inGap, diag, diagRun)
    ensures score in formed && run in formed && Among(formed, Formed(g, k, left, inGap, diag, diagRun))
  {
    hide Bonus;
    var s1, s2, consecutive := 0, left + (if inGap then GAP_EXTENSION else GAP_START), 0;
    formed := [s1, s2, consecutive];
    if pchar == ch {
      s1 := diag + SCORE_MATCH;
      var b := bonus;
      consecutive := diagRun + 1;
      formed := formed + [s1, b, consecutive];
      if b == BONUS_BOUNDARY {
        consecutive := 1;
      } else if consecutive > 1 {
        b := Max(b, Max(BONUS_CONSECUTIVE, before));
      }
      formed := formed + [b, s1 + b, consecutive];
      if s1 + b < s2 {
        s1 := s1 + bonus;
        consecutive := 0;
      } else {
        s1 := s1 + b;
      }
    }
    score, run, gap := Max(Max(s1, s2), 0), consecutive, s1 < s2;
    formed := formed + [s1, run, score];
  }

  /** Left of the first place of each row the memory of the runs is as it was before the call. */
  ghost predicate Untouched(g: Grid, last: nat, width: nat, c: seq<int>, former: seq<int>) {
    && |c| == |former| && Frame(g, last, width, |c|)
    && forall r: nat, j: nat {:trigger Slot(g, width, r, j)} :: r < |g.pat| && g.f[0] <= j < g.f[r] ==>
         0 <= Slot(g, width, r, j) < |c| && c[Slot(g, width, r, j)] == former[Slot(g, width, r, j)]
  }

  lemma UntouchedAtFirst(g: Grid, last: nat, width: nat, c: seq<int>)
    requires Frame(g, last, width, |c|)
    ensures Untouched(g, last, width, c, c)
  {
    forall r: nat, j: nat | r < |g.pat| && g.f[0] <= j < g.f[r] ensures 0 <= Slot(g, width, r, j) < |c| {
      LastPlace(g, r);
      SlotBound(g, last, width, |c|, r, j);
    }
  }

  lemma LastPlace(g: Grid, r: nat)
    requires Valid(g) && r < |g.pat|
    ensures g.f[0] <= g.f[r] <= g.f[|g.pat| - 1]
  {
    if r < |g.pat| - 1 { assert g.f[r] < g.f[|g.pat| - 1]; }
  }

  /** Writing a cell of the grid keeps it so. */
  lemma UntouchedKept(g: Grid, last: nat, width: nat, c: seq<int>, former: seq<int>, i: nat, k: nat, x: int)
    requires Untouched(g, last, width, c, former) && i < |g.pat| && g.f[i] <= k <= last
    ensures var p := Slot(g, width, i, k); 0 <= p < |c| && Untouched(g, last, width, c[p := x], former)
  {
    hide Row;
    Ordered(g, i);
    SlotBound(g, last, width, |c|, i, k);
    var p := Slot(g, width, i, k);
    forall r: nat, j: nat | r < |g.pat| && g.f[0] <= j < g.f[r] ensures 0 <= Slot(g, width, r, j) < |c| && Slot(g, width, r, j) != p {
      LastPlace(g, r);
      SlotBound(g, last, width, |c|, r, j);
      if r < i { RowMono(r, i, width); } else if i < r { RowMono(i, r, width); }
    }
  }

  /** The hint as the memory shows it. */
  lemma HintReads(g: Grid, last: nat, width: nat, h: seq<int>, c: seq<int>, former: seq<int>, i: nat, j: nat)
    requires Untouched(g, last, width, c, former) && |h| == |c| && Standing(g, last, i, j)
    requires RowsDone(g, last + 1, width, h, c, |g.pat| - 1, last + 1)
    ensures var p := Slot(g, width, i, j);
            0 <= p < |c| && (c[p] > 1 || (p + width + 1 < |c| && c[p + width + 1] > 0)) == Hint(g, last, former, i, j)
  {
    hide ScoreAt, RunAt, Row;
    Ordered(g, i);
    SlotBound(g, last, width, |c|, i, j);
    assert RowDone(g, width, h, c, i, last + 1);
    if i + 1 < |g.pat| {
      SlotBound(g, last, width, |c|, i + 1, j + 1);
      RowNext(i, width);
      assert Slot(g, width, i + 1, j + 1) == Slot(g, width, i, j) + width + 1;
      assert RowDone(g, width, h, c, i + 1, last + 1);
    } else {
      RowNext(i, width);
    }
  }

  /** The first row has no place that is not written. */
  lemma LaterRowsKept(g: Grid, last: nat, width: nat, c1: seq<int>, c2: seq<int>, former: seq<int>)
    requires Untouched(g, last, width, c1, former) && |c2| == |c1| && forall k :: width <= k < |c1| ==> c2[k] == c1[k]
    ensures Untouched(g, last, width, c2, former)
  {
    hide Row;
    forall r: nat, j: nat | r < |g.pat| && g.f[0] <= j < g.f[r] ensures width <= Slot(g, width, r, j) < |c1| {
      LastPlace(g, r);
      SlotBound(g, last, width, |c1|, r, j);
      RowMono(0, r, width);
    }
  }

  lemma RowNext(i: nat, width: nat)
    ensures Row(i + 1, width) == Row(i, width) + width
  {
  }

  /** The two grids. The scores hold anything at first, the runs what earlier calls have left there. */
  class ScoreGrid {
    const m: Memory
    const pat: seq<byte>
    const f0: nat
    const last: nat
    const width: nat
    const h: array<int>
    const c: array<int>
    ghost const former: seq<int>

    /** The first pass is done, and the grids have the size of the pattern by the columns in use. */
    ghost predicate Ready(g: Grid)
      reads this, m, m.f, m.tt, m.bo, m.h0, m.c0
    {
      && Frame(g, last, width, h.Length) && c.Length == h.Length == |former| && h != c && pat == g.pat && f0 == g.f[0]
      && m.Apart(|g.pat|, |g.text|) && Written(g, |g.text|, m.tt[..], m.bo[..], m.h0[..], m.c0[..])
      && (forall i :: 0 <= i < |g.pat| ==> m.f[i] == g.f[i])
      && h !in {m.bo, m.h0, m.c0, m.f} && c !in {m.bo, m.h0, m.c0, m.f} && h as object != m.tt && c as object != m.tt
    }

    constructor (m: Memory, pat: seq<byte>, last: nat, former: seq<int>, ghost g: Grid)
      requires Valid(g) && |pat| > 1 && g.pat == pat && g.f[|pat| - 1] <= last < |g.t|
      requires m.Apart(|pat|, |g.text|) && Written(g, |g.text|, m.tt[..], m.bo[..], m.h0[..], m.c0[..])
      requires forall i :: 0 <= i < |pat| ==> m.f[i] == g.f[i]
      requires |former| == |pat| * (last + 1 - g.f[0])
      ensures Ready(g) && this.m == m && this.last == last && this.former == former && fresh(h) && fresh(c)
      ensures Untouched(g, last, width, c[..], former)
    {
      hide Written;
      FirstBeforeLast(g);
      var first: nat := m.f[0];
      var w: nat := last - first + 1;
      RowIs(|pat|, w);
      this.m, this.pat, this.f0, this.last, this.width, this.former := m, pat, first, last, w, former;
      h, c := new int[|pat| * w], new int[|pat| * w](k requires 0 <= k < |former| => former[k]);
      new;
      assert c[..] == former;
      UntouchedAtFirst(g, last, width, c[..]);
    }

    /** Copies the first row of the first pass. */
    method CopyFirstRow(ghost g: Grid)
      requires Ready(g) && Untouched(g, last, width, c[..], former)
      modifies h, c
      ensures Ready(g) && RowsDone(g, last + 1, width, h[..], c[..], 0, last + 1) && Untouched(g, last, width, c[..], former)
    {
      hide ScoreAt, RunAt;
      ghost var c1 := c[..];
      FirstBeforeLast(g);
      SlotBound(g, last, width, h.Length, 0, last);
      forall j | 0 <= j < width {
        h[j] := m.h0[f0 + j];
      }
      forall j | 0 <= j < width {
        c[j] := m.c0[f0 + j];
      }
      LaterRowsKept(g, last, width, c1, c[..], former);
      forall j: nat | g.f[0] <= j < last + 1
        ensures 0 <= Slot(g, width, 0, j) < h.Length && h[Slot(g, width, 0, j)] == ScoreAt(g, 0, j) && c[Slot(g, width, 0, j)] == RunAt(g, 0, j)
      {
        assert Slot(g, width, 0, j) == j - g.f[0];
        FirstCells(g, j, m.h0[..], m.c0[..], m.tt[..], m.bo[..]);
      }
    }

    /** One cell: reads the cells to its left and on the diagonal, and writes the new one. */
    method FillCell(ghost g: Grid, i: nat, k: nat, row: nat, inGap: bool) returns (score: int, gap: bool, ghost formed: seq<int>)
      requires Ready(g) && 0 < i < |pat| && m.f[i] <= k <= last && row == Row(i, width)
      requires RowsDone(g, last + 1, width, h[..], c[..], i, k) && Untouched(g, last, width, c[..], former)
      requires if k == m.f[i] then !inGap && 0 < Slot(g, width, i, k) <= h.Length && h[Slot(g, width, i, k) - 1] == 0 else inGap == CellAt(g, i, k - 1).gap
      modifies h, c
      ensures Ready(g) && RowsDone(g, last + 1, width, h[..], c[..], i, k + 1) && Untouched(g, last, width, c[..], former)
      ensures |g.text| * |g.pat| <= 100 * 1024 ==> Fits16(formed)
      ensures score == ScoreAt(g, i, k) && gap == CellAt(g, i, k).gap
    {
      hide CellAt, NextCell, RowsDone, Bonus, Row, RowDone, Written, Untouched, Formed;
      ghost var h1, c1 := h[..], c[..];
      CellReads(g, last, width, h1, c1, i, k);
      CellIs(g, i, k);
      FirstPassFacts(g, m.tt[..], m.bo[..], m.h0[..], m.c0[..]);
      RunBonusRead(g, m.bo[..], i - 1, k - 1);
      var p := row + k - f0;
      var diagRun := c[p - 1 - width];
      var run: int;
      score, run, gap, formed := ComputeCell(g, pat[i], m.tt[k], h[p - 1], inGap, h[p - 1 - width], diagRun, m.bo[k], m.bo[k - diagRun], i, k);
      CellFields(g, i, k, score, run, gap);
      if |g.text| * |g.pat| <= 100 * 1024 { CellFits(g, i, k, formed); }
      RowsLonger(g, last, width, h1, c1, i, k, score, run);
      UntouchedKept(g, last, width, c1, former, i, k, run);
      c[p] := run;
      h[p] := score;
      assert h[..] == h1[p := score] && c[..] == c1[p := run];
    }

    /** The loop over the columns of one row. */
    method FillRow(ghost g: Grid, i: nat, maxScore0: int, maxPos0: nat) returns (maxScore: int, maxPos: nat)
      requires Ready(g) && 0 < i < |pat| && RowsDone(g, last + 1, width, h[..], c[..], i - 1, last + 1) && Untouched(g, last, width, c[..], former)
      requires i == |pat| - 1 ==> BestBelow(g, g.f[i], maxScore0, maxPos0)
      modifies h, c
      ensures Ready(g) && RowsDone(g, last + 1, width, h[..], c[..], i, last + 1) && Untouched(g, last, width, c[..], former)
      ensures if i == |pat| - 1 then BestBelow(g, last + 1, maxScore, maxPos) else maxScore == maxScore0 && maxPos == maxPos0
    {
      hide ScoreAt, RunAt, CellAt, RowsDone, BestBelow, Row, RowDone, Written, Untouched;
      maxScore, maxPos := maxScore0, maxPos0;
      RowIs(i, width);
      var row, foff := i * width, m.f[i];
      ghost var h1 := h[..];
      RowsBegin(g, last, width, h1, c[..], i);
      h[row + foff - f0 - 1] := 0;
      assert h[..] == h1[row + foff - f0 - 1 := 0];
      var inGap := false;
      for k := foff to last + 1
        invariant Ready(g) && RowsDone(g, last + 1, width, h[..], c[..], i, k) && Untouched(g, last, width, c[..], former)
        invariant if k == foff then !inGap && 0 < Slot(g, width, i, k) <= h.Length && h[Slot(g, width, i, k) - 1] == 0 else inGap == CellAt(g, i, k - 1).gap
        invariant if i == |pat| - 1 then BestBelow(g, k, maxScore, maxPos) else maxScore == maxScore0 && maxPos == maxPos0
      {
        var score: int;
        ghost var formed: seq<int>;
        score, inGap, formed := FillCell(g, i, k, row, inGap);
        if i == |pat| - 1 {
          BestStep(g, k, maxScore, maxPos);
          if score > maxScore {
            maxScore, maxPos := score, k;
          }
        }
      }
    }

    /** The traceback: from the best column back to the first character, along the path that the grid and the memory give. */
    method Trace(ghost g: Grid, maxPos: nat) returns (pos: seq<nat>, start: nat)
      requires Ready(g) && RowsDone(g, last + 1, width, h[..], c[..], |pat| - 1, last + 1) && BestColumn(g, maxPos) && maxPos <= last
      requires Untouched(g, last, width, c[..], former)
      ensures Traced(g, last, former, maxPos, pos) && pos[|pat| - 1] == start
    {
      hide ScoreAt, RunAt, CellAt, RowsDone, BestColumn, Row, RowDone, Written, Untouched, Hint, Path;
      BestStanding(g, last, maxPos);
      pos := [];
      var i: nat, j: nat, preferMatch := |pat| - 1, maxPos, true;
      while true
        invariant i < |pat| == m.f.Length && Standing(g, last, i, j) && |pos| == |pat| - 1 - i
        invariant pos + Path(g, last, former, i, j, preferMatch) == Path(g, last, former, |pat| - 1, maxPos, true)
        decreases j
      {
        TraceReads(g, last, width, h[..], c[..], i, j);
        HintReads(g, last, width, h[..], c[..], former, i, j);
        StandsOn(g, last, i, j, preferMatch);
        PathStep(g, last, former, i, j, preferMatch);
        RowIs(i, width);
        var ii, j0 := i * width, j - f0;
        var s, s1, s2 := h[ii + j0], 0, 0;
        if i > 0 && j >= m.f[i] {
          s1 := h[ii - width + j0 - 1];
        }
        if j > m.f[i] {
          s2 := h[ii + j0 - 1];
        }
        if s > s1 && (s > s2 || (s == s2 && preferMatch)) {
          pos := pos + [j];
          if i == 0 {
            start := j;
            return;
          }
          i := i - 1;
        }
        preferMatch := c[ii + j0] > 1 || (ii + width + j0 + 1 < c.Length && c[ii + width + j0 + 1] > 0);
        j := j - 1;
      }
    }

    /** All rows, and the traceback if places are asked for. */
    method Solve(ghost g: Grid, withPos: bool) returns (maxScore: int, maxPos: nat, pos: seq<nat>, start: nat)
      requires Ready(g) && LastSeen(g, |pat|, |g.t|, last) && Untouched(g, last, width, c[..], former)
      modifies h, c
      ensures BestColumn(g, maxPos) && maxPos <= last && maxScore == ScoreAt(g, |pat| - 1, maxPos)
      ensures if withPos then Traced(g, last, former, maxPos, pos) && pos[|pat| - 1] == start else pos == [] && start == maxPos
    {
      hide ScoreAt, RunAt, CellAt, RowsDone, BestBelow, BestColumn, Row, RowDone, Written, LastSeen, Untouched;
      CopyFirstRow(g);
      maxScore, maxPos := 0, 0;
      BestNone(g);
      for i := 1 to |pat|
        invariant Ready(g) && RowsDone(g, last + 1, width, h[..], c[..], i - 1, last + 1) && Untouched(g, last, width, c[..], former)
        invariant if i == |pat| then BestBelow(g, last + 1, maxScore, maxPos) else maxScore == 0 && maxPos == 0
      {
        maxScore, maxPos := FillRow(g, i, maxScore, maxPos);
      }
      BestOverall(g, last, maxScore, maxPos);
      pos, start := [], maxPos;
      if withPos {
        pos, start := Trace(g, maxPos);
      }
    }
  }

  /** `pos` is what the traceback records from column `j` of the last row. */
  ghost predicate Traced(g: Grid, last: nat, former: seq<int>, j: nat, pos: seq<nat>)
  {
    && BestColumn(g, j) && j <= last && g.f[0] <= last && Frame(g, last, last + 1 - g.f[0], |former|)
    && (BestStanding(g, last, j); |pos| == |g.pat| && pos == Path(g, last, former, |g.pat| - 1, j, true))
  }

  lemma PathStep(g: Grid, last: nat, former: seq<int>, i: nat, j: nat, prefer: bool)
    requires Standing(g, last, i, j) && Frame(g, last, last + 1 - g.f[0], |former|)
    ensures if !Takes(g, last, i, j, prefer) then
              j > 0 && Standing(g, last, i, j - 1) && Path(g, last, former, i, j, prefer) == Path(g, last, former, i, j - 1, Hint(g, last, former, i, j))
            else if i == 0 then Path(g, last, former, i, j, prefer) == [j]
            else (j > 0 && Standing(g, last, i - 1, j - 1)
                  && Path(g, last, former, i, j, prefer) == [j] + Path(g, last, former, i - 1, j - 1, Hint(g, last, former, i, j)))
  {
    hide ScoreAt, RunAt, Hint, Frame;
    StandsOn(g, last, i, j, prefer);
  }

  lemma FirstPassFacts(g: Grid, tt: seq<byte>, bo: seq<int>, h0: seq<int>, c0: seq<int>)
    requires Written(g, |g.text|, tt, bo, h0, c0)
    ensures |tt| == |bo| == |g.t| == |g.text|
    ensures forall j :: g.idx <= j < |g.t| ==> tt[j] == g.t[j]
    ensures forall j :: g.idx <= j < |g.t| ==> bo[j] == Bonus(g, j)
  {
    hide FirstRow, Bonus;
  }

  lemma CellFits(g: Grid, i: nat, k: nat, formed: seq<int>)
    requires Valid(g) && 0 < i < |g.pat| && g.f[i] <= k < |g.t| && |g.text| * |g.pat| <= 100 * 1024
    requires g.f[i - 1] <= k - 1 && RunAt(g, i - 1, k - 1) <= k
    requires Among(formed, Formed(g, k, if k > g.f[i] then ScoreAt(g, i, k - 1) else 0, k > g.f[i] && CellAt(g, i, k - 1).gap,
                                  ScoreAt(g, i - 1, k - 1), RunAt(g, i - 1, k - 1)))
    ensures Fits16(formed)
  {
    hide CellAt, Formed;
    NoOverflow(g, i, k);
  }

  lemma CellFields(g: Grid, i: nat, k: nat, score: int, run: int, gap: bool)
    requires Valid(g) && i < |g.pat| && g.f[i] <= k < |g.t| && CellAt(g, i, k) == Cell(score, run, gap)
    ensures score == ScoreAt(g, i, k) && run == RunAt(g, i, k)
  {
    hide CellAt;
  }

  /** What the traceback reads of the memory, hint aside. */
  lemma TraceReads(g: Grid, last: nat, width: nat, h: seq<int>, c: seq<int>, i: nat, j: nat)
    requires Frame(g, last, width, |h|) && |c| == |h| && i < |g.pat| && g.f[i] <= j <= last
    requires RowsDone(g, last + 1, width, h, c, |g.pat| - 1, last + 1)
    ensures var p := Slot(g, width, i, j);
            && 0 <= p < |h| && h[p] == ScoreAt(g, i, j)
            && (i > 0 ==> 0 <= p - width - 1 && h[p - width - 1] == Diagonal(g, i, j))
            && (j > g.f[i] ==> 0 <= p - 1 && h[p - 1] == LeftOf(g, i, j))
  {
    hide ScoreAt, RunAt;
    assert RowDone(g, width, h, c, i, last + 1);
    SlotBound(g, last, width, |h|, i, j);
    if i > 0 {
      assert g.f[i - 1] < g.f[i];
      assert RowDone(g, width, h, c, i - 1, last + 1);
      SlotBound(g, last, width, |h|, i - 1, j - 1);
      assert Slot(g, width, i - 1, j - 1) == Slot(g, width, i, j) - width - 1;
    }
    if j > g.f[i] { assert Slot(g, width, i, j - 1) == Slot(g, width, i, j) - 1; SlotBound(g, last, width, |h|, i, j - 1); }
  }

  lemma BestNone(g: Grid)
    requires Valid(g)
    ensures BestBelow(g, g.f[|g.pat| - 1], 0, 0)
  {
  }

  lemma FirstBeforeLast(g: Grid)
    requires Valid(g) && |g.pat| > 1
    ensures g.f[0] < g.f[|g.pat| - 1]
  {
  }

  lemma FirstCells(g: Grid, j: nat, h0: seq<int>, c0: seq<int>, tt: seq<byte>, bo: seq<int>)
    requires Valid(g) && g.f[0] <= j < |g.t| && Written(g, |g.text|, tt, bo, h0, c0)
    ensures h0[j] == ScoreAt(g, 0, j) && c0[j] == RunAt(g, 0, j)
  {
    hide FirstRow, Bonus;
  }

  // ----- the match -----

  lemma SkippedPrefix(t: seq<byte>, pat: seq<byte>, idx: nat)
    requires pat != [] && idx <= |t| && forall j :: 0 <= j < idx ==> t[j] != pat[0]
    ensures IsSubsequence(t, pat, 0, |t|) <==> |Firsts(t, pat, idx)| == |pat|
  {
    FirstSkips(t, pat[0], 0, idx);
    FirstsDecide(t, pat, 0);
  }

  lemma ScanStartSkips(caseSensitive: bool, text: seq<byte>, pat: seq<byte>)
    requires pat != []
    ensures var k := ScanStart(caseSensitive, text, pat); k <= |text| && forall j :: 0 <= j < k ==> FoldAll(caseSensitive, text)[j] != pat[0]
  {
    hide ScanStart;
  }

  lemma {:induction false} FirstSkips(t: seq<byte>, b: byte, from: nat, idx: nat)
    requires from <= idx <= |t| && forall j :: from <= j < idx ==> t[j] != b
    ensures First(t, b, from) == First(t, b, idx)
    decreases idx - from
  {
    if from < idx { FirstSkips(t, b, from + 1, idx); }
  }

  lemma GridValid(caseSensitive: bool, text: seq<byte>, pat: seq<byte>, idx: nat)
    requires idx < |text| && pat != [] && |GridOf(caseSensitive, text, pat, idx).f| == |pat|
    ensures Valid(GridOf(caseSensitive, text, pat, idx))
  {
    hide Firsts;
    FirstsSpell(FoldAll(caseSensitive, text), pat, idx);
    assert pat[..|pat|] == pat;
  }

  /** The result for a pattern of one character. */
  ghost predicate SingleResult(g: Grid, withPos: bool, r: MatchResult, pos: seq<nat>) {
    && 0 <= r.start && r.end == r.start + 1 && r.score > 0 && BestSingle(g, |g.t|, r.start, r.score)
    && pos == if withPos then [r.start] else []
  }

  /** The size of the grid: the pattern by the columns in use. */
  ghost function Cells(g: Grid): nat
    requires Valid(g)
  {
    Ordered(g, |g.pat| - 1);
    |g.pat| * (LastColumn(g) + 1 - g.f[0])
  }

  lemma CellsFrame(g: Grid)
    requires Valid(g) && |g.pat| > 1
    ensures var last := LastColumn(g); g.f[0] <= last && Frame(g, last, last + 1 - g.f[0], Cells(g))
  {
    FirstBeforeLast(g);
    RowIs(|g.pat|, LastColumn(g) + 1 - g.f[0]);
  }

  /** The result for a longer one: the best column, and the path that the traceback takes from there. */
  ghost predicate GridResult(g: Grid, withPos: bool, slab: Slab, r: MatchResult, pos: seq<nat>)
    requires Valid(g) && |g.pat| > 1
  {
    && 0 <= r.start < r.end && BestColumn(g, r.end - 1) && r.score == ScoreAt(g, |g.pat| - 1, r.end - 1)
    && if withPos then pos != [] && r.start == pos[|pos| - 1] && Traced(g, LastColumn(g), FormerRuns(slab, |g.text|, Cells(g)), r.end - 1, pos)
       else pos == [] && r.start == r.end - 1
  }

  predicate TooLarge(text: seq<byte>, pat: seq<byte>, slab: Slab) { slab.Slab? && |text| * |pat| > |slab.i16| }

  /**
   * What `fzf_fuzzy_match_v2` returns. When the grid would not fit, the first algorithm answers. Otherwise
   * it matches exactly when the folded text contains the pattern as a subsequence.
   */
  ghost predicate Answers(caseSensitive: bool, text: seq<byte>, pat: seq<byte>, withPos: bool, slab: Slab, r: MatchResult, pos: seq<nat>) {
    var t := FoldAll(caseSensitive, text);
    if pat == [] then r == MatchResult(0, 0, 0) && pos == []
    else if !IsSubsequence(t, pat, 0, |t|) then r == MatchResult(-1, -1, 0) && pos == []
    else if TooLarge(text, pat, slab) then WindowResult(caseSensitive, text, pat, withPos, r, pos)
    else
      var g := GridOf(caseSensitive, text, pat, ScanStart(caseSensitive, text, pat));
      Valid(g) && if |pat| == 1 then SingleResult(g, withPos, r, pos) else GridResult(g, withPos, slab, r, pos)
  }

  ghost predicate WindowResult(caseSensitive: bool, text: seq<byte>, pat: seq<byte>, withPos: bool, r: MatchResult, pos: seq<nat>) {
    var t := FoldAll(caseSensitive, text);
    0 <= r.start <= |t| && Answers1(caseSensitive, text, pat, r, Firsts(t, pat, r.start)) && pos == if withPos then Firsts(t, pat, r.start) else []
  }

  /**
   * `fzf_fuzzy_match_v2`, with or without a buffer for the places, and with a slab that earlier calls have
   * used or without one.
   */
  method FuzzyMatchV2(caseSensitive: bool, text: seq<byte>, pat: seq<byte>, withPos: bool, slab: Slab) returns (r: MatchResult, pos: seq<nat>)
    ensures Answers(caseSensitive, text, pat, withPos, slab, r, pos)
  {
    hide Firsts, Worth, ShortestWindow, IsSubsequence, BestSingle, GridResult, Written, LastSeen, FoldAll, Fold, ScanStart;
    pos := [];
    if pat == [] {
      return MatchResult(0, 0, 0), [];
    }
    if slab.Slab? && |text| * |pat| > |slab.i16| {
      r, pos := FuzzyMatchV1(caseSensitive, text, pat);
      if !withPos {
        pos := [];
      }
      return;
    }
    var first := AsciiFuzzyIndex(text, pat, caseSensitive);
    if first < 0 {
      return MatchResult(-1, -1, 0), [];
    }
    ghost var g := GridOf(caseSensitive, text, pat, first);
    ScanStartSkips(caseSensitive, text, pat);
    SkippedPrefix(FoldAll(caseSensitive, text), pat, first);
    var m := new Memory(|pat|, |text|);
    var pidx, lastIdx, maxScore, maxPos := m.FirstPass(caseSensitive, pat, first, g, text);
    if pidx != |pat| {
      return MatchResult(-1, -1, 0), [];
    }
    GridValid(caseSensitive, text, pat, first);
    if |pat| == 1 {
      return MatchResult(maxPos, maxPos + 1, maxScore), if withPos then [maxPos] else [];
    }
    r, pos := SolveGrid(g, m, pat, lastIdx, withPos, slab);
  }

  /** The rows behind the first one, and the traceback. */
  method SolveGrid(ghost g: Grid, m: Memory, pat: seq<byte>, lastIdx: nat, withPos: bool, slab: Slab) returns (r: MatchResult, pos: seq<nat>)
    requires Valid(g) && |pat| > 1 && g.pat == pat && LastSeen(g, |pat|, |g.t|, lastIdx)
    requires m.Apart(|pat|, |g.text|) && Written(g, |g.text|, m.tt[..], m.bo[..], m.h0[..], m.c0[..])
    requires forall i :: 0 <= i < |pat| ==> m.f[i] == g.f[i]
    ensures GridResult(g, withPos, slab, r, pos)
  {
    hide BestColumn, ScoreAt, Written, FormerRuns, Untouched, Traced;
    LastInside(g, lastIdx);
    CellsFrame(g);
    hide LastSeen, Frame;
    var width := lastIdx - m.f[0] + 1;
    var former := RunsBefore(slab, m.tt.Length, |pat| * width);
    var grid := new ScoreGrid(m, pat, lastIdx, former, g);
    var maxScore, maxPos, start: nat;
    maxScore, maxPos, pos, start := grid.Solve(g, withPos);
    BestRange(g, maxPos);
    if withPos { TracedStart(g, lastIdx, former, maxPos, pos); }
    r := MatchResult(start, maxPos + 1, maxScore);
  }

  /** The pieces are taken one after the other; only what the last of them holds can show in the result. */
  method RunsBefore(slab: Slab, n: nat, cells: nat) returns (former: seq<int>)
    ensures former == FormerRuns(slab, n, cells) && |former| == cells
  {
    hide Alloc16, GridSizes;
    var offset, piece := 0, Fresh(0);
    var sizes := GridSizes(n, cells);
    ghost var pieces := Layout(slab, 0, sizes);
    for k := 0 to |sizes|
      invariant pieces[k..] == Layout(slab, offset, sizes[k..]) && (k > 0 ==> piece == pieces[k - 1])
    {
      var (p, next) := Alloc16(slab, offset, sizes[k]);
      assert sizes[k..][1..] == sizes[k + 1..];
      assert pieces[k..][0] == p && pieces[k..][1..] == pieces[k + 1..];
      piece, offset := p, next;
    }
    LayoutInside(slab, 0, sizes, 4);
    former := Contents(slab, piece, cells);
  }

  lemma TracedStart(g: Grid, last: nat, former: seq<int>, j: nat, pos: seq<nat>)
    requires Traced(g, last, former, j, pos)
    ensures SpellsBack(g.t, g.pat, |g.pat| - 1, pos) && pos[0] == j && pos[|g.pat| - 1] <= j
  {
    assert last < |g.t|;
    hide ScoreAt, Path, Frame, BestColumn;
    BestStanding(g, last, j);
    PathSpells(g, last, former, |g.pat| - 1, j, true);
    BestTaken(g, last, former, j);
    if |g.pat| > 1 { assert pos[0] > pos[|g.pat| - 1]; }
  }

  lemma BestTaken(g: Grid, last: nat, former: seq<int>, j: nat)
    requires BestColumn(g, j) && j <= last && Frame(g, last, last + 1 - g.f[0], |former|)
    ensures Standing(g, last, |g.pat| - 1, j) && Path(g, last, former, |g.pat| - 1, j, true)[0] == j
  {
    hide ScoreAt, Hint, BestColumn;
    BestStanding(g, last, j);
    BestAccepted(g, j);
    PathStep(g, last, former, |g.pat| - 1, j, true);
  }

  lemma LastInside(g: Grid, last: nat)
    requires Valid(g) && LastSeen(g, |g.pat|, |g.t|, last)
    ensures g.f[|g.pat| - 1] <= last < |g.t| && last == LastColumn(g)
  {
  }
}
