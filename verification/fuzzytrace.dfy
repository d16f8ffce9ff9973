/**
 * The traceback of `fzf_fuzzy_match_v2` as a function of the grid and of what the memory of the runs held
 * before the call, and when the latter matters.
 */
module FuzzyTrace {
  import opened Bytes
  import opened FuzzyText
  import opened FuzzyGrid

  // ----- where a cell lies -----

  /** Where row `i` begins. */
  function Row(i: nat, width: nat): nat { if i == 0 then 0 else Row(i - 1, width) + width }

  lemma {:induction false} RowIs(i: nat, width: nat)
    ensures Row(i, width) == i * width
  {
    if i > 0 { RowIs(i - 1, width); }
  }

  lemma {:induction false} RowMono(i: nat, j: nat, width: nat)
    requires i < j
    ensures Row(i, width) + width <= Row(j, width)
    decreases j
  {
    if i < j - 1 { RowMono(i, j - 1, width); }
  }

  /** The place of a cell in the memory. */
  function Slot(g: Grid, width: nat, r: nat, j: nat): int
    requires g.f != []
  {
    Row(r, width) + j - g.f[0]
  }

  /** What is fixed while the grid is filled: the first and the last column, and its memory. */
  ghost predicate Frame(g: Grid, last: nat, width: nat, size: nat) {
    && Valid(g) && |g.pat| > 1 && g.f[|g.pat| - 1] <= last < |g.t|
    && width == last - g.f[0] + 1 && size == Row(|g.pat|, width)
  }

  lemma SlotBound(g: Grid, last: nat, width: nat, size: nat, r: nat, j: nat)
    requires Frame(g, last, width, size) && r < |g.pat| && g.f[0] <= j <= last
    ensures Row(r, width) <= Slot(g, width, r, j) < Row(r, width) + width <= size
  {
    RowMono(r, |g.pat|, width);
  }

  // ----- the path -----

  /** A place the traceback may stand at: a cell of row `i`, and below the last row never the last column. */
  ghost predicate Standing(g: Grid, last: nat, i: nat, j: nat) {
    && Valid(g) && i < |g.pat| && g.f[i] <= j <= last < |g.t|
    && (i + 1 < |g.pat| ==> j < last)
  }

  lemma Ordered(g: Grid, i: nat)
    requires Valid(g) && i < |g.pat|
    ensures g.f[0] <= g.f[i] && (i > 0 ==> g.f[i - 1] < g.f[i])
  {
  }

  /** The hit at a place is as good as what lies to its left: the hint decides. */
  ghost predicate Tie(g: Grid, last: nat, i: nat, j: nat)
    requires Standing(g, last, i, j)
  {
    ScoreAt(g, i, j) > Diagonal(g, i, j) && ScoreAt(g, i, j) == LeftOf(g, i, j)
  }

  ghost predicate Takes(g: Grid, last: nat, i: nat, j: nat, prefer: bool)
    requires Standing(g, last, i, j)
  {
    ScoreAt(g, i, j) > Diagonal(g, i, j) && (ScoreAt(g, i, j) > LeftOf(g, i, j) || (ScoreAt(g, i, j) == LeftOf(g, i, j) && prefer))
  }

  /** The cell of the next row that the hint looks at was never written: it lies before the first place of that row. */
  ghost predicate LooksAtStale(g: Grid, last: nat, i: nat, j: nat)
    requires Standing(g, last, i, j)
  {
    RunAt(g, i, j) <= 1 && i + 1 < |g.pat| && j + 1 < g.f[i + 1]
  }

  /** `prefer_match` as it is computed at a place, when the memory of the runs held `former` before the call. */
  ghost predicate Hint(g: Grid, last: nat, former: seq<int>, i: nat, j: nat)
    requires Standing(g, last, i, j) && Frame(g, last, last + 1 - g.f[0], |former|)
  {
    Ordered(g, i);
    if LooksAtStale(g, last, i, j) then
      SlotBound(g, last, last + 1 - g.f[0], |former|, i + 1, j + 1);
      former[Slot(g, last + 1 - g.f[0], i + 1, j + 1)] > 0
    else RunAt(g, i, j) > 1 || (i + 1 < |g.pat| && RunAt(g, i + 1, j + 1) > 0)
  }

  /** Where the traceback goes from a place: up and left behind a hit it takes, left otherwise. */
  lemma StandsOn(g: Grid, last: nat, i: nat, j: nat, prefer: bool)
    requires Standing(g, last, i, j)
    ensures if Takes(g, last, i, j, prefer) then i > 0 ==> j > 0 && Standing(g, last, i - 1, j - 1)
            else j > 0 && Standing(g, last, i, j - 1)
  {
    hide ScoreAt;
    Ordered(g, i);
    FirstAccepted(g, i);
  }

  /** The places the traceback records from a place on. */
  ghost function Path(g: Grid, last: nat, former: seq<int>, i: nat, j: nat, prefer: bool): (ps: seq<nat>)
    requires Standing(g, last, i, j) && Frame(g, last, last + 1 - g.f[0], |former|)
    ensures |ps| == i + 1 && ps[0] <= j
    decreases j
  {
    StandsOn(g, last, i, j, prefer);
    var hint := Hint(g, last, former, i, j);
    if !Takes(g, last, i, j, prefer) then Path(g, last, former, i, j - 1, hint)
    else if i == 0 then [j]
    else [j] + Path(g, last, former, i - 1, j - 1, hint)
  }

  /** The places, from the last to the first, of the pattern up to character `i`. */
  ghost predicate SpellsBack(t: seq<byte>, pat: seq<byte>, i: nat, ps: seq<nat>) {
    && i < |pat| && |ps| == i + 1
    && (forall k :: 0 <= k < |ps| ==> ps[k] < |t| && t[ps[k]] == pat[i - k])
    && (forall k, l :: 0 <= k < l < |ps| ==> ps[k] > ps[l])
  }

  /** Whatever the memory held: the places are strictly decreasing and spell the pattern backwards. */
  lemma {:induction false} PathSpells(g: Grid, last: nat, former: seq<int>, i: nat, j: nat, prefer: bool)
    requires Standing(g, last, i, j) && Frame(g, last, last + 1 - g.f[0], |former|)
    ensures SpellsBack(g.t, g.pat, i, Path(g, last, former, i, j, prefer))
    decreases j
  {
    hide ScoreAt, RunAt, Frame, Hint, LooksAtStale;
    StandsOn(g, last, i, j, prefer);
    var hint := Hint(g, last, former, i, j);
    if !Takes(g, last, i, j, prefer) {
      PathSpells(g, last, former, i, j - 1, hint);
    } else {
      AcceptedHit(g, i, j);
      if i > 0 { PathSpells(g, last, former, i - 1, j - 1, hint); }
    }
  }

  // ----- when the path is a function of the grid -----

  /** What the grid alone says of a hint. */
  datatype GridHint = Known(prefer: bool) | Stale

  ghost function HintOf(g: Grid, last: nat, i: nat, j: nat): GridHint
    requires Standing(g, last, i, j)
  {
    Ordered(g, i);
    if LooksAtStale(g, last, i, j) then Stale
    else Known(RunAt(g, i, j) > 1 || (i + 1 < |g.pat| && RunAt(g, i + 1, j + 1) > 0))
  }

  /** From a place on the traceback decides no tie by a hint that looked at a cell never written. */
  ghost predicate NoStaleTie(g: Grid, last: nat, i: nat, j: nat, hint: GridHint)
    requires Standing(g, last, i, j)
    decreases j
  {
    var prefer := hint.Known? && hint.prefer;
    StandsOn(g, last, i, j, prefer);
    var next := HintOf(g, last, i, j);
    && !(hint.Stale? && Tie(g, last, i, j))
    && if !Takes(g, last, i, j, prefer) then NoStaleTie(g, last, i, j - 1, next)
       else i == 0 || NoStaleTie(g, last, i - 1, j - 1, next)
  }

  ghost predicate Agrees(hint: GridHint, prefer: bool) { hint.Known? ==> hint.prefer == prefer }

  lemma HintAgrees(g: Grid, last: nat, former: seq<int>, i: nat, j: nat)
    requires Standing(g, last, i, j) && Frame(g, last, last + 1 - g.f[0], |former|)
    ensures Agrees(HintOf(g, last, i, j), Hint(g, last, former, i, j))
  {
    hide RunAt;
  }

  lemma {:induction false} SamePath(g: Grid, last: nat, c1: seq<int>, c2: seq<int>, i: nat, j: nat, hint: GridHint, p1: bool, p2: bool)
    requires Standing(g, last, i, j) && Frame(g, last, last + 1 - g.f[0], |c1|) && |c1| == |c2|
    requires NoStaleTie(g, last, i, j, hint) && Agrees(hint, p1) && Agrees(hint, p2)
    ensures Path(g, last, c1, i, j, p1) == Path(g, last, c2, i, j, p2)
    decreases j
  {
    hide ScoreAt, RunAt, Frame, Standing, Hint, HintOf, LooksAtStale;
    var prefer := hint.Known? && hint.prefer;
    assert Takes(g, last, i, j, p1) == Takes(g, last, i, j, p2) == Takes(g, last, i, j, prefer);
    StandsOn(g, last, i, j, prefer);
    HintAgrees(g, last, c1, i, j);
    HintAgrees(g, last, c2, i, j);
    var h1, h2 := Hint(g, last, c1, i, j), Hint(g, last, c2, i, j);
    if !Takes(g, last, i, j, prefer) {
      SamePath(g, last, c1, c2, i, j - 1, HintOf(g, last, i, j), h1, h2);
    } else if i > 0 {
      SamePath(g, last, c1, c2, i - 1, j - 1, HintOf(g, last, i, j), h1, h2);
    }
  }

  ghost predicate All(c: seq<int>, v: int) { forall k :: 0 <= k < |c| ==> c[k] == v }

  lemma StaleHint(g: Grid, last: nat, c: seq<int>, v: int, i: nat, j: nat)
    requires Standing(g, last, i, j) && Frame(g, last, last + 1 - g.f[0], |c|) && All(c, v)
    ensures HintOf(g, last, i, j).Stale? ==> Hint(g, last, c, i, j) == (v > 0)
  {
    hide RunAt;
    if LooksAtStale(g, last, i, j) { SlotBound(g, last, last + 1 - g.f[0], |c|, i + 1, j + 1); }
  }

  /** Memory full of zeros and memory full of ones lead to different paths, if a tie hangs on it. */
  lemma {:induction false} TwoPaths(g: Grid, last: nat, c0: seq<int>, c1: seq<int>, i: nat, j: nat, hint: GridHint)
    requires Standing(g, last, i, j) && Frame(g, last, last + 1 - g.f[0], |c0|) && |c0| == |c1| && All(c0, 0) && All(c1, 1)
    requires !NoStaleTie(g, last, i, j, hint)
    ensures Path(g, last, c0, i, j, hint.Known? && hint.prefer) != Path(g, last, c1, i, j, hint.Stale? || hint.prefer)
    decreases j
  {
    hide ScoreAt, RunAt, Frame, Standing, Hint, HintOf, LooksAtStale;
    var p0, p1 := hint.Known? && hint.prefer, hint.Stale? || hint.prefer;
    StandsOn(g, last, i, j, p0);
    StandsOn(g, last, i, j, p1);
    HintAgrees(g, last, c0, i, j);
    HintAgrees(g, last, c1, i, j);
    StaleHint(g, last, c0, 0, i, j);
    StaleHint(g, last, c1, 1, i, j);
    var next := HintOf(g, last, i, j);
    if hint.Stale? && Tie(g, last, i, j) {
      assert Path(g, last, c1, i, j, p1)[0] == j;
      assert !Takes(g, last, i, j, p0);
    } else {
      assert Takes(g, last, i, j, p0) == Takes(g, last, i, j, p1);
      if !Takes(g, last, i, j, p0) {
        TwoPaths(g, last, c0, c1, i, j - 1, next);
      } else {
        TwoPaths(g, last, c0, c1, i - 1, j - 1, next);
        assert Path(g, last, c0, i, j, p0)[1..] == Path(g, last, c0, i - 1, j - 1, Hint(g, last, c0, i, j));
        assert Path(g, last, c1, i, j, p1)[1..] == Path(g, last, c1, i - 1, j - 1, Hint(g, last, c1, i, j));
      }
    }
  }

  /** The best column is a place to start from. */
  lemma BestStanding(g: Grid, last: nat, j: nat)
    requires BestColumn(g, j) && j <= last < |g.t|
    ensures Standing(g, last, |g.pat| - 1, j)
  {
    hide ScoreAt;
  }

  /**
   * The places, and with them the start, are the same for every former content of the memory if and only if
   * the traceback decides no tie by a hint that looked at a cell never written.
   */
  lemma PlacesIff(g: Grid, last: nat, size: nat, j: nat)
    requires BestColumn(g, j) && j <= last && Frame(g, last, last + 1 - g.f[0], size)
    ensures Standing(g, last, |g.pat| - 1, j)
    ensures (forall c1: seq<int>, c2: seq<int> :: |c1| == |c2| == size ==>
               Path(g, last, c1, |g.pat| - 1, j, true) == Path(g, last, c2, |g.pat| - 1, j, true))
            <==> NoStaleTie(g, last, |g.pat| - 1, j, Known(true))
  {
    assert last < |g.t|;
    hide ScoreAt, NoStaleTie, Path, Frame, Standing;
    var m := |g.pat| - 1;
    BestStanding(g, last, j);
    if NoStaleTie(g, last, m, j, Known(true)) {
      forall c1: seq<int>, c2: seq<int> | |c1| == |c2| == size
        ensures Path(g, last, c1, m, j, true) == Path(g, last, c2, m, j, true)
      {
        SamePath(g, last, c1, c2, m, j, Known(true), true, true);
      }
    } else {
      var c0, c1 := seq(size, _ => 0), seq(size, _ => 1);
      TwoPaths(g, last, c0, c1, m, j, Known(true));
    }
  }

  // ----- a text on which it matters -----

  /** An `a`, fourteen other letters, another `a`, two other letters, and the first `b`. */
  function Spread(): seq<byte> { seq(19, k => if k == 0 || k == 15 then 0x61 else if k == 18 then 0x62 else 0x78) }

  const TwoLetters: seq<byte> := [0x61, 0x62]

  function SpreadGrid(caseSensitive: bool): Grid { GridOf(caseSensitive, Spread(), TwoLetters, 0) }

  lemma SpreadFolded(caseSensitive: bool)
    ensures FoldAll(caseSensitive, Spread()) == Spread() && |Spread()| == 19
  {
  }

  lemma SpreadFirsts()
    ensures Firsts(Spread(), TwoLetters, 0) == [0, 18]
  {
    hide First;
    assert forall j :: 1 <= j < 18 ==> Spread()[j] != 0x62;
    assert Spread()[0] == 0x61 && Spread()[18] == 0x62;
    assert First(Spread(), 0x61, 0) == 0 && First(Spread(), 0x62, 1) == 18;
    assert TwoLetters[1..] == [0x62] && TwoLetters[1..][1..] == [];
    assert Firsts(Spread(), [0x62], 1) == [18];
  }

  lemma SpreadShape(caseSensitive: bool)
    ensures var g := SpreadGrid(caseSensitive); g.t == Spread() && g.f == [0, 18] && Valid(g)
  {
    hide Firsts;
    SpreadFolded(caseSensitive);
    SpreadFirsts();
    FirstsSpell(Spread(), TwoLetters, 0);
    assert TwoLetters[..2] == TwoLetters;
  }

  /** Letters as in that text, and the bonuses they have: one at the beginning of the text, none inside the word. */
  ghost predicate OneWord(g: Grid) {
    && |g.t| == |g.text| == 19 && g.idx == 0 && g.pat != [] && g.pat[0] == 0x61
    && forall j :: 0 <= j < 18 ==> (g.t[j] == 0x61 <==> j == 0 || j == 15) && Bonus(g, j) == if j == 0 then 8 else 0
  }

  lemma SpreadWord(caseSensitive: bool)
    ensures OneWord(SpreadGrid(caseSensitive))
  {
    hide Firsts, FoldAll;
    SpreadFolded(caseSensitive);
    forall j | 0 <= j < 18
      ensures (Spread()[j] == 0x61 <==> j == 0 || j == 15) && Bonus(SpreadGrid(caseSensitive), j) == if j == 0 then 8 else 0
    {
      assert ClassOf(Spread()[j]) == LowerCase;
      if j > 0 { assert ClassOf(Spread()[j - 1]) == LowerCase; }
    }
  }

  lemma {:induction false} WordRow(g: Grid, k: nat)
    requires OneWord(g) && k <= 17
    ensures FirstRow(g, k) == if k == 0 then 32 else if k <= 14 then 30 - k else if k == 15 then 16 else 29 - k
  {
    hide Bonus;
    if k > 0 { WordRow(g, k - 1); }
  }

  /** The scores of the grid: the decayed first hit and the second hit are equally good. */
  lemma SpreadScores(caseSensitive: bool, k: nat)
    requires k <= 17
    ensures var g := SpreadGrid(caseSensitive);
            && Valid(g) && g.f == [0, 18]
            && ScoreAt(g, 0, k) == (if k == 0 then 32 else if k <= 14 then 30 - k else if k == 15 then 16 else 29 - k)
            && RunAt(g, 0, k) == (if k == 0 || k == 15 then 1 else 0)
            && ScoreAt(g, 1, 18) == 28 && RunAt(g, 1, 18) == 1
  {
    hide FirstRow, Firsts;
    var g := SpreadGrid(caseSensitive);
    SpreadShape(caseSensitive);
    SpreadWord(caseSensitive);
    WordRow(g, k);
    WordRow(g, 17);
    assert CellAt(g, 0, 17) == Cell(12, 0, false);
  }

  lemma {:induction false} SpreadDown(caseSensitive: bool, former: seq<int>, j: nat, prefer: bool)
    requires j <= 14 && |former| == 38
    ensures var g := SpreadGrid(caseSensitive);
            Standing(g, 18, 0, j) && Frame(g, 18, 19, 38) && Path(g, 18, former, 0, j, prefer) == [0]
    decreases j
  {
    hide ScoreAt, RunAt, Firsts, Hint;
    SpreadFrame(caseSensitive);
    SpreadScores(caseSensitive, j);
    var g := SpreadGrid(caseSensitive);
    if j > 0 {
      SpreadScores(caseSensitive, j - 1);
      SpreadDown(caseSensitive, former, j - 1, Hint(g, 18, former, 0, j));
    }
  }

  lemma SpreadFrame(caseSensitive: bool)
    ensures var g := SpreadGrid(caseSensitive); Valid(g) && g.f == [0, 18] && Frame(g, 18, 19, 38) && BestColumn(g, 18)
  {
    hide ScoreAt, RunAt, Firsts;
    SpreadShape(caseSensitive);
    assert Row(1, 19) == 19 && Row(2, 19) == 38;
  }

  /**
   * On this text the places and the start depend on one cell that the call does not write: with a positive
   * number left over there the second `a` is recorded, otherwise the first.
   */
  lemma SpreadPaths(caseSensitive: bool, former: seq<int>)
    requires |former| == 38
    ensures var g := SpreadGrid(caseSensitive);
            && Frame(g, 18, 19, 38) && BestColumn(g, 18) && Standing(g, 18, 1, 18)
            && Path(g, 18, former, 1, 18, true) == if former[36] > 0 then [18, 15] else [18, 0]
  {
    hide ScoreAt, RunAt, Firsts;
    var g := SpreadGrid(caseSensitive);
    SpreadFrame(caseSensitive);
    SpreadScores(caseSensitive, 14);
    SpreadScores(caseSensitive, 15);
    SpreadScores(caseSensitive, 16);
    SpreadScores(caseSensitive, 17);
    SpreadDown(caseSensitive, former, 14, Hint(g, 18, former, 0, 15));
    assert Row(1, 19) == 19;
    var p16 := Hint(g, 18, former, 0, 16);
    assert p16 == (former[36] > 0);
    assert Path(g, 18, former, 0, 15, p16) == if p16 then [15] else [0];
    assert Path(g, 18, former, 0, 16, Hint(g, 18, former, 0, 17)) == Path(g, 18, former, 0, 15, p16);
    assert Path(g, 18, former, 0, 17, Hint(g, 18, former, 1, 18)) == Path(g, 18, former, 0, 16, Hint(g, 18, former, 0, 17));
  }
}
