/** What the answers of `fzf_fuzzy_match_v2` depend on: the score and the end on nothing but text and pattern, the places also on old memory. */
module FuzzyAnswers {
  import opened Bytes
  import opened FuzzyText
  import opened FuzzyWorth
  import opened FuzzyV1
  import opened FuzzyGrid
  import opened FuzzyTrace
  import opened FuzzySlab
  import opened FuzzyV2

  /** Two answers for one text and one pattern, from slabs of one size but any contents, with or without places. */
  ghost predicate Both(caseSensitive: bool, text: seq<byte>, pat: seq<byte>, w1: bool, s1: Slab, r1: MatchResult, pos1: seq<nat>,
                       w2: bool, s2: Slab, r2: MatchResult, pos2: seq<nat>) {
    SameSize(s1, s2) && Answers(caseSensitive, text, pat, w1, s1, r1, pos1) && Answers(caseSensitive, text, pat, w2, s2, r2, pos2)
  }

  ghost predicate UsesGrid(caseSensitive: bool, text: seq<byte>, pat: seq<byte>, slab: Slab) {
    |pat| > 1 && IsSubsequence(FoldAll(caseSensitive, text), pat, 0, |text|) && !TooLarge(text, pat, slab)
  }

  function GridFor(caseSensitive: bool, text: seq<byte>, pat: seq<byte>): Grid
    requires pat != []
  {
    GridOf(caseSensitive, text, pat, ScanStart(caseSensitive, text, pat))
  }

  lemma GridForValid(caseSensitive: bool, text: seq<byte>, pat: seq<byte>)
    requires pat != [] && IsSubsequence(FoldAll(caseSensitive, text), pat, 0, |text|)
    ensures Valid(GridFor(caseSensitive, text, pat))
  {
    hide Firsts, ScanStart, FoldAll, Fold;
    var t := FoldAll(caseSensitive, text);
    SkippedPrefix(t, pat, ScanStart(caseSensitive, text, pat));
    var ps :| Spells(t, pat, ps, 0, |t|);
    assert ps[0] < |text|;
    GridValid(caseSensitive, text, pat, ScanStart(caseSensitive, text, pat));
  }

  lemma SingleUnique(g: Grid, w1: bool, r1: MatchResult, pos1: seq<nat>, w2: bool, r2: MatchResult, pos2: seq<nat>)
    requires Valid(g) && SingleResult(g, w1, r1, pos1) && SingleResult(g, w2, r2, pos2)
    ensures r1 == r2 && (w1 == w2 ==> pos1 == pos2)
  {
    hide Bonus;
  }

  lemma WindowSame(caseSensitive: bool, text: seq<byte>, pat: seq<byte>, w1: bool, r1: MatchResult, pos1: seq<nat>, w2: bool, r2: MatchResult, pos2: seq<nat>)
    requires pat != [] && IsSubsequence(FoldAll(caseSensitive, text), pat, 0, |text|)
    requires WindowResult(caseSensitive, text, pat, w1, r1, pos1) && WindowResult(caseSensitive, text, pat, w2, r2, pos2)
    ensures r1 == r2 && (w1 == w2 ==> pos1 == pos2)
  {
    hide Firsts, ShortestWindow, IsSubsequence, Worth, FoldAll;
    var t := FoldAll(caseSensitive, text);
    var ps1, ps2 := Firsts(t, pat, r1.start), Firsts(t, pat, r2.start);
    WindowUnique(t, pat, r1.start, r1.end, ps1, r2.start, r2.end, ps2);
  }

  /** The score and the end are functions of text and pattern; where no grid is traced back the whole answer is. */
  lemma ScoreAndEnd(caseSensitive: bool, text: seq<byte>, pat: seq<byte>, w1: bool, s1: Slab, r1: MatchResult, pos1: seq<nat>,
                    w2: bool, s2: Slab, r2: MatchResult, pos2: seq<nat>)
    requires Both(caseSensitive, text, pat, w1, s1, r1, pos1, w2, s2, r2, pos2)
    ensures r1.score == r2.score && r1.end == r2.end
    ensures w1 == w2 && !(w1 && UsesGrid(caseSensitive, text, pat, s1)) ==> r1 == r2 && pos1 == pos2
  {
    hide IsSubsequence, WindowResult, SingleResult, FoldAll, ScanStart, Firsts, Valid, Traced, BestColumn, ScoreAt, FormerRuns;
    if pat != [] && IsSubsequence(FoldAll(caseSensitive, text), pat, 0, |text|) {
      if TooLarge(text, pat, s1) {
        WindowSame(caseSensitive, text, pat, w1, r1, pos1, w2, r2, pos2);
      } else if |pat| == 1 {
        SingleUnique(GridFor(caseSensitive, text, pat), w1, r1, pos1, w2, r2, pos2);
      } else {
        BestUnique(GridFor(caseSensitive, text, pat), r1.end - 1, r2.end - 1);
      }
    }
  }

  // ----- the best column exists -----

  lemma {:induction false} BestUpTo(g: Grid, k: nat) returns (score: int, pos: nat)
    requires Valid(g) && g.f[|g.pat| - 1] <= k <= |g.t|
    ensures BestBelow(g, k, score, pos)
    decreases k
  {
    hide BestBelow, ScoreAt;
    if k == g.f[|g.pat| - 1] {
      BestNone(g);
      score, pos := 0, 0;
    } else {
      score, pos := BestUpTo(g, k - 1);
      BestStep(g, k - 1, score, pos);
      if ScoreAt(g, |g.pat| - 1, k - 1) > score {
        score, pos := ScoreAt(g, |g.pat| - 1, k - 1), k - 1;
      }
    }
  }

  ghost function BestPlace(g: Grid): (j: nat)
    requires Valid(g)
    ensures BestColumn(g, j)
  {
    BestExists(g);
    var j: nat :| BestColumn(g, j);
    j
  }

  lemma BestExists(g: Grid)
    requires Valid(g)
    ensures exists j: nat :: BestColumn(g, j)
  {
    hide ScoreAt;
    var score, pos := BestUpTo(g, |g.t|);
    assert BestColumn(g, pos);
  }

  // ----- what the places depend on -----

  /** The traceback of the grid, if there is one, decides no tie by memory of the slab that the call did not write. */
  ghost predicate PlacesFixed(caseSensitive: bool, text: seq<byte>, pat: seq<byte>, withPos: bool, slab: Slab) {
    withPos && UsesGrid(caseSensitive, text, pat, slab) ==>
      (GridForValid(caseSensitive, text, pat);
       var g := GridFor(caseSensitive, text, pat);
       RunPiece(slab, |text|, Cells(g)).Fresh? || Decided(g))
  }

  ghost predicate Decided(g: Grid)
    requires Valid(g) && |g.pat| > 1
  {
    BestBeforeLast(g, BestPlace(g));
    BestStanding(g, LastColumn(g), BestPlace(g));
    NoStaleTie(g, LastColumn(g), |g.pat| - 1, BestPlace(g), Known(true))
  }

  lemma GridAnswerFixed(g: Grid, s1: Slab, r1: MatchResult, pos1: seq<nat>, s2: Slab, r2: MatchResult, pos2: seq<nat>)
    requires Valid(g) && |g.pat| > 1 && SameSize(s1, s2) && (RunPiece(s1, |g.text|, Cells(g)).Fresh? || Decided(g))
    requires GridResult(g, true, s1, r1, pos1) && GridResult(g, true, s2, r2, pos2)
    ensures r1 == r2 && pos1 == pos2
  {
    hide BestColumn, ScoreAt, FormerRuns, Valid, Frame, Path, NoStaleTie;
    var last, j := LastColumn(g), BestPlace(g);
    CellsFrame(g);
    BestBeforeLast(g, j);
    BestUnique(g, j, r1.end - 1);
    BestUnique(g, j, r2.end - 1);
    PlacesIff(g, last, Cells(g), j);
    if RunPiece(s1, |g.text|, Cells(g)).Fresh? { FreshSame(s1, s2, |g.text|, Cells(g)); }
  }

  lemma FreshSame(s1: Slab, s2: Slab, n: nat, cells: nat)
    requires SameSize(s1, s2) && RunPiece(s1, n, cells).Fresh?
    ensures FormerRuns(s1, n, cells) == FormerRuns(s2, n, cells)
  {
    hide Layout;
    LayoutSame(s1, s2, 0, GridSizes(n, cells));
    LayoutInside(s1, 0, GridSizes(n, cells), 4);
  }

  /** A slab of the same size that holds the same number everywhere. */
  function Filled(slab: Slab, v: int): Slab { if slab.NoSlab? then NoSlab else Slab(seq(|slab.i16|, _ => v)) }

  lemma FilledRuns(slab: Slab, v: int, n: nat, cells: nat)
    requires RunPiece(slab, n, cells).InSlab?
    ensures SameSize(Filled(slab, v), slab) && All(FormerRuns(Filled(slab, v), n, cells), v)
  {
    hide Layout;
    LayoutInside(slab, 0, GridSizes(n, cells), 4);
    LayoutSame(Filled(slab, v), slab, 0, GridSizes(n, cells));
    LayoutInside(Filled(slab, v), 0, GridSizes(n, cells), 4);
  }

  lemma GridAnswer(g: Grid, slab: Slab) returns (r: MatchResult, pos: seq<nat>)
    requires Valid(g) && |g.pat| > 1
    ensures GridResult(g, true, slab, r, pos) && r.end - 1 == BestPlace(g)
  {
    hide BestColumn, ScoreAt, FormerRuns, Valid, Frame, Path;
    var last, j := LastColumn(g), BestPlace(g);
    CellsFrame(g);
    BestBeforeLast(g, j);
    BestStanding(g, last, j);
    var former := FormerRuns(slab, |g.text|, Cells(g));
    pos := Path(g, last, former, |g.pat| - 1, j, true);
    TracedStart(g, last, former, j, pos);
    r := MatchResult(pos[|pos| - 1], j + 1, ScoreAt(g, |g.pat| - 1, j));
  }

  lemma GridAnswersDiffer(g: Grid, slab: Slab)
    requires Valid(g) && |g.pat| > 1 && RunPiece(slab, |g.text|, Cells(g)).InSlab? && !Decided(g)
    ensures exists s1: Slab, r1: MatchResult, pos1: seq<nat>, s2: Slab, r2: MatchResult, pos2: seq<nat> ::
              && SameSize(s1, slab) && SameSize(s2, slab) && GridResult(g, true, s1, r1, pos1) && GridResult(g, true, s2, r2, pos2)
              && pos1 != pos2
  {
    hide BestColumn, ScoreAt, FormerRuns, Valid, Frame, Path, NoStaleTie;
    var last, j := LastColumn(g), BestPlace(g);
    CellsFrame(g);
    BestBeforeLast(g, j);
    BestStanding(g, last, j);
    FilledRuns(slab, 0, |g.text|, Cells(g));
    FilledRuns(slab, 1, |g.text|, Cells(g));
    var r1, pos1 := GridAnswer(g, Filled(slab, 0));
    var r2, pos2 := GridAnswer(g, Filled(slab, 1));
    TwoPaths(g, last, FormerRuns(Filled(slab, 0), |g.text|, Cells(g)), FormerRuns(Filled(slab, 1), |g.text|, Cells(g)), |g.pat| - 1, j, Known(true));
  }

  /**
   * For slabs of a given size, the whole answer is the same whatever earlier calls have left in the slab, if
   * and only if the places do not hang on a tie that such memory decides.
   */
  lemma AnswerIff(caseSensitive: bool, text: seq<byte>, pat: seq<byte>, withPos: bool, slab: Slab)
    ensures (forall s1, r1, pos1, s2, r2, pos2 ::
               SameSize(s1, slab) && SameSize(s2, slab)
               && Answers(caseSensitive, text, pat, withPos, s1, r1, pos1) && Answers(caseSensitive, text, pat, withPos, s2, r2, pos2) ==>
                 r1 == r2 && pos1 == pos2)
            <==> PlacesFixed(caseSensitive, text, pat, withPos, slab)
  {
    if PlacesFixed(caseSensitive, text, pat, withPos, slab) {
      forall s1, r1, pos1, s2, r2, pos2 |
        SameSize(s1, slab) && SameSize(s2, slab)
        && Answers(caseSensitive, text, pat, withPos, s1, r1, pos1) && Answers(caseSensitive, text, pat, withPos, s2, r2, pos2)
        ensures r1 == r2 && pos1 == pos2
      {
        AnswerFixed(caseSensitive, text, pat, withPos, slab, s1, r1, pos1, s2, r2, pos2);
      }
    } else {
      AnswersDiffer(caseSensitive, text, pat, slab);
    }
  }

  lemma AnswerFixed(caseSensitive: bool, text: seq<byte>, pat: seq<byte>, withPos: bool, slab: Slab,
                    s1: Slab, r1: MatchResult, pos1: seq<nat>, s2: Slab, r2: MatchResult, pos2: seq<nat>)
    requires PlacesFixed(caseSensitive, text, pat, withPos, slab) && SameSize(s1, slab) && SameSize(s2, slab)
    requires Answers(caseSensitive, text, pat, withPos, s1, r1, pos1) && Answers(caseSensitive, text, pat, withPos, s2, r2, pos2)
    ensures r1 == r2 && pos1 == pos2
  {
    hide IsSubsequence, WindowResult, SingleResult, GridResult, FoldAll, ScanStart, Firsts, Valid, Decided, Layout;
    ScoreAndEnd(caseSensitive, text, pat, withPos, s1, r1, pos1, withPos, s2, r2, pos2);
    if withPos && UsesGrid(caseSensitive, text, pat, slab) {
      var g := GridFor(caseSensitive, text, pat);
      CellsFrame(g);
      LayoutSame(s1, slab, 0, GridSizes(|text|, Cells(g)));
      GridAnswerFixed(g, s1, r1, pos1, s2, r2, pos2);
    }
  }

  lemma AnswersDiffer(caseSensitive: bool, text: seq<byte>, pat: seq<byte>, slab: Slab)
    requires !PlacesFixed(caseSensitive, text, pat, true, slab)
    ensures exists s1, r1, pos1, s2, r2, pos2 ::
              && SameSize(s1, slab) && SameSize(s2, slab)
              && Answers(caseSensitive, text, pat, true, s1, r1, pos1) && Answers(caseSensitive, text, pat, true, s2, r2, pos2)
              && pos1 != pos2
  {
    hide IsSubsequence, WindowResult, SingleResult, GridResult, FoldAll, ScanStart, Firsts, Valid, Decided, Layout;
    GridForValid(caseSensitive, text, pat);
    var g := GridFor(caseSensitive, text, pat);
    GridAnswersDiffer(g, slab);
    var s1: Slab, r1: MatchResult, pos1: seq<nat>, s2: Slab, r2: MatchResult, pos2: seq<nat> :|
      && SameSize(s1, slab) && SameSize(s2, slab) && GridResult(g, true, s1, r1, pos1) && GridResult(g, true, s2, r2, pos2)
      && pos1 != pos2;
    assert Answers(caseSensitive, text, pat, true, s1, r1, pos1) && Answers(caseSensitive, text, pat, true, s2, r2, pos2);
  }

  // ----- a text whose start depends on old memory -----

  /**
   * For this text every answer from a slab that can hold the grid has the same score and end; but the start is
   * 15 or 0 by one number that an earlier call has left in the slab.
   */
  lemma SpreadAnswer(caseSensitive: bool, slab: Slab, r: MatchResult, pos: seq<nat>)
    requires slab.Slab? && |slab.i16| > 133 && Answers(caseSensitive, Spread(), TwoLetters, true, slab, r, pos)
    ensures r.score == 28 && r.end == 19
    ensures if slab.i16[131] > 0 then r.start == 15 && pos == [18, 15] else r.start == 0 && pos == [18, 0]
  {
    var g := SpreadGrid(caseSensitive);
    SpreadFrame(caseSensitive);
    assert LastColumn(g) == 18;
    hide BestColumn, ScoreAt, RunAt, Path, FormerRuns, Valid, Frame, Answers;
    SpreadResult(caseSensitive, slab, r, pos);
    SpreadRuns(slab);
    SpreadScores(caseSensitive, 0);
    SpreadPaths(caseSensitive, FormerRuns(slab, 19, 38));
    BestUnique(g, 18, r.end - 1);
  }

  lemma SpreadResult(caseSensitive: bool, slab: Slab, r: MatchResult, pos: seq<nat>)
    requires slab.Slab? && |slab.i16| > 133 && Answers(caseSensitive, Spread(), TwoLetters, true, slab, r, pos)
    ensures Valid(SpreadGrid(caseSensitive)) && GridResult(SpreadGrid(caseSensitive), true, slab, r, pos)
  {
    hide GridResult, WindowResult, ScanStart, Firsts, FoldAll, IsSubsequence, Valid;
    SpreadBegins(caseSensitive);
  }

  lemma SpreadBegins(caseSensitive: bool)
    ensures GridFor(caseSensitive, Spread(), TwoLetters) == SpreadGrid(caseSensitive)
    ensures IsSubsequence(FoldAll(caseSensitive, Spread()), TwoLetters, 0, 19)
  {
    hide Firsts;
    SpreadShape(caseSensitive);
    assert FirstHit(caseSensitive, Spread(), 0x61, 0) == 0;
    assert Spells(FoldAll(caseSensitive, Spread()), TwoLetters, [0, 18], 0, 19);
  }

  lemma SpreadRuns(slab: Slab)
    requires slab.Slab? && |slab.i16| > 133
    ensures FormerRuns(slab, 19, 38)[36] == slab.i16[131]
  {
    assert Layout(slab, 95, [38]) == [InSlab(95, 133)];
    assert Layout(slab, 57, [38, 38])[1] == InSlab(95, 133);
    assert Layout(slab, 38, [19, 38, 38])[2] == InSlab(95, 133);
    assert Layout(slab, 19, [19, 19, 38, 38])[3] == InSlab(95, 133);
  }
}
