/** What the scores of `fzf_fuzzy_match_v2` mean for the caller, and where they are not the best there could be. */
module FuzzyScores {
  import opened Bytes
  import opened FuzzyText
  import opened FuzzyWorth
  import opened FuzzyV1
  import opened FuzzyGrid
  import opened FuzzyMeaning
  import opened FuzzyBounds
  import opened FuzzyTrace
  import opened FuzzySlab
  import opened FuzzyV2
  import opened FuzzyAnswers

  ghost predicate ByGrid(caseSensitive: bool, text: seq<byte>, pat: seq<byte>, slab: Slab) {
    pat != [] && IsSubsequence(FoldAll(caseSensitive, text), pat, 0, |text|) && !TooLarge(text, pat, slab)
  }

  lemma GridStarted(caseSensitive: bool, text: seq<byte>, pat: seq<byte>)
    requires pat != [] && IsSubsequence(FoldAll(caseSensitive, text), pat, 0, |text|)
    ensures Started(GridFor(caseSensitive, text, pat))
  {
    hide Firsts, FoldAll, IsSubsequence;
    GridForValid(caseSensitive, text, pat);
    var g := GridFor(caseSensitive, text, pat);
    if g.idx > 0 && g.idx == g.f[0] {
      HitsFolded(caseSensitive, text[g.idx], pat[0]);
      assert false;
    }
  }

  /** A character that matches when folded is a hit. */
  lemma HitsFolded(caseSensitive: bool, c: byte, b: byte)
    ensures Fold(caseSensitive, c) == b ==> Hits(caseSensitive, c, b)
  {
  }

  /** The pattern is spelled by the places, anywhere in the text. */
  ghost predicate Spelling(caseSensitive: bool, text: seq<byte>, pat: seq<byte>, ps: seq<nat>) {
    Spells(FoldAll(caseSensitive, text), pat, ps, 0, |text|)
  }

  /** No spelling is ahead of the first places of the grid. */
  lemma SpellingAhead(caseSensitive: bool, text: seq<byte>, pat: seq<byte>, ps: seq<nat>)
    requires pat != [] && Spelling(caseSensitive, text, pat, ps)
    ensures var g := GridFor(caseSensitive, text, pat);
            Started(g) && SpellsTo(g, |pat| - 1, ps[|pat| - 1], ps) && ps[|pat| - 1] < |text| && forall j :: 0 <= j < |ps| ==> ps[j] < |text|
  {
    hide Firsts, FoldAll, Fold;
    var t, g, m := FoldAll(caseSensitive, text), GridFor(caseSensitive, text, pat), |pat| - 1;
    assert IsSubsequence(t, pat, 0, |t|);
    GridStarted(caseSensitive, text, pat);
    StartKept(caseSensitive, text, pat, ps);
    FirstsLeast(t, pat, ps, g.idx, |t|);
    forall j | 0 <= j <= m ensures ps[j] <= ps[m] { if j < m { assert ps[j] < ps[m]; } }
  }

  lemma StartKept(caseSensitive: bool, text: seq<byte>, pat: seq<byte>, ps: seq<nat>)
    requires pat != [] && Spelling(caseSensitive, text, pat, ps)
    ensures var k := ScanStart(caseSensitive, text, pat); k <= |text| && Spells(FoldAll(caseSensitive, text), pat, ps, k, |text|)
  {
    hide Fold, ScanStart;
    ScanStartSkips(caseSensitive, text, pat);
    var k := ScanStart(caseSensitive, text, pat);
    forall j | 0 <= j < |ps| ensures k <= ps[j] { if j > 0 { assert ps[0] < ps[j]; } }
  }

  /** The column of an answer and its score. */
  lemma AnswerColumn(caseSensitive: bool, text: seq<byte>, pat: seq<byte>, withPos: bool, slab: Slab, r: MatchResult, pos: seq<nat>)
    requires |pat| > 1 && ByGrid(caseSensitive, text, pat, slab) && Answers(caseSensitive, text, pat, withPos, slab, r, pos)
    ensures var g := GridFor(caseSensitive, text, pat);
            r.end > 0 && BestColumn(g, r.end - 1) && r.score == ScoreAt(g, |pat| - 1, r.end - 1)
  {
    hide IsSubsequence, FoldAll, ScanStart, Firsts, Traced, BestColumn, ScoreAt, FormerRuns, Valid;
    GridForValid(caseSensitive, text, pat);
  }

  /** The best column ends the spelling that accounts for it. */
  lemma BestAccounts(g: Grid, j: nat, ps: seq<nat>)
    requires BestColumn(g, j) && |g.pat| > 1 && Accounts(g, |g.pat| - 1, j, ps)
    ensures ps[|g.pat| - 1] == j && ScoreAt(g, |g.pat| - 1, j) == Held(g.text, ps)
  {
    hide Bonus, Held, RunBonus;
    var m := |g.pat| - 1;
    BestAccepted(g, j);
    hide CellAt, HitBonus;
    CellCases(g, m, j);
  }

  /**
   * The score is what a spelling is worth that ends where the match ends, where what has been gained is never
   * spent beyond zero on a gap.
   */
  lemma ScoreIsWorth(caseSensitive: bool, text: seq<byte>, pat: seq<byte>, withPos: bool, slab: Slab, r: MatchResult, pos: seq<nat>)
    returns (ps: seq<nat>)
    requires ByGrid(caseSensitive, text, pat, slab) && Answers(caseSensitive, text, pat, withPos, slab, r, pos)
    ensures Spelling(caseSensitive, text, pat, ps) && ps[|pat| - 1] == r.end - 1
    ensures (forall j :: 0 <= j < |ps| ==> ps[j] < |text|) && r.score == Held(text, ps)
  {
    hide IsSubsequence, FoldAll, ScanStart, Firsts, ScoreAt, BestColumn, Held, Accounts, GridResult, Started;
    GridStarted(caseSensitive, text, pat);
    var g := GridFor(caseSensitive, text, pat);
    if |pat| == 1 {
      ps := SingleWorth(g, withPos, r, pos);
    } else {
      AnswerColumn(caseSensitive, text, pat, withPos, slab, r, pos);
      BestRange(g, r.end - 1);
      ps := ScoreAttained(g, |pat| - 1, r.end - 1);
      BestAccounts(g, r.end - 1, ps);
      AccountsSpell(g, |pat| - 1, r.end - 1, ps);
    }
    assert pat[..|pat|] == pat;
  }

  lemma SingleWorth(g: Grid, withPos: bool, r: MatchResult, pos: seq<nat>) returns (ps: seq<nat>)
    requires Started(g) && |g.pat| == 1 && SingleResult(g, withPos, r, pos)
    ensures Spells(g.t, g.pat, ps, 0, |g.t|) && |g.t| == |g.text| && ps[0] == r.end - 1 && r.score == Held(g.text, ps)
  {
    hide Firsts;
    ps := [r.start];
    SingleBonus(g, r.start);
    HeldOne(g.text, r.start);
  }

  lemma SingleBonus(g: Grid, k: nat)
    requires Started(g) && g.idx <= k < |g.t| && g.t[k] == g.pat[0]
    ensures g.f[0] <= k && Bonus(g, k) == BonusAt(g.text, k)
  {
    assert First(g.t, g.pat[0], g.idx) <= k;
    assert g.f[0] == First(g.t, g.pat[0], g.idx);
    BonusIs(g, k);
  }

  lemma AccountsSpell(g: Grid, i: nat, k: nat, ps: seq<nat>)
    requires Accounts(g, i, k, ps)
    ensures |g.t| == |g.text| && Spells(g.t, g.pat[..i + 1], ps, 0, |g.t|)
  {
    hide CellAt, Held, RunBonus;
  }

  /** Between the first place and the second stands no further hit of the first character. */
  ghost predicate BeginsLate(caseSensitive: bool, text: seq<byte>, pat: seq<byte>, ps: seq<nat>)
    requires pat != [] && Spelling(caseSensitive, text, pat, ps)
  {
    |pat| > 1 ==> forall j :: ps[0] < j < ps[1] ==> FoldAll(caseSensitive, text)[j] != pat[0]
  }

  lemma AtLeastColumn(g: Grid, j: nat, k: nat)
    requires BestColumn(g, j) && g.f[|g.pat| - 1] <= k < |g.t|
    ensures ScoreAt(g, |g.pat| - 1, k) <= ScoreAt(g, |g.pat| - 1, j)
  {
    hide ScoreAt;
    if j != k { BestOther(g, j, k); }
  }

  /** No spelling that begins late is worth more, without the bonuses of runs and at 3 for each character of a gap. */
  lemma ScoreAtLeast(caseSensitive: bool, text: seq<byte>, pat: seq<byte>, withPos: bool, slab: Slab, r: MatchResult, pos: seq<nat>, ps: seq<nat>)
    requires ByGrid(caseSensitive, text, pat, slab) && Answers(caseSensitive, text, pat, withPos, slab, r, pos)
    requires Spelling(caseSensitive, text, pat, ps) && BeginsLate(caseSensitive, text, pat, ps)
    ensures (forall j :: 0 <= j < |ps| ==> ps[j] < |text|) && r.score >= Least(text, ps)
  {
    hide IsSubsequence, FoldAll, ScanStart, Firsts, ScoreAt, BestColumn, GridResult, Started, Fold;
    SpellingAhead(caseSensitive, text, pat, ps);
    var g, m := GridFor(caseSensitive, text, pat), |pat| - 1;
    if m == 0 {
      SingleLeast(g, withPos, r, pos, ps);
    } else {
      AnswerColumn(caseSensitive, text, pat, withPos, slab, r, pos);
      assert StartsLate(g, m, ps[m], ps);
      LeastBound(g, m, ps[m], ps);
      SpellsInside(g, m, ps[m], ps);
      AtLeastColumn(g, r.end - 1, ps[m]);
    }
  }

  lemma SingleLeast(g: Grid, withPos: bool, r: MatchResult, pos: seq<nat>, ps: seq<nat>)
    requires Started(g) && |g.pat| == 1 && SingleResult(g, withPos, r, pos) && ps != [] && SpellsTo(g, 0, ps[0], ps)
    ensures ps[0] < |g.text| && r.score >= Least(g.text, ps) && r.score >= Plain(g.text, ps)
  {
    hide Firsts, Bonus, BonusAt;
    assert g.f[0] >= g.idx;
    SingleBonus(g, r.start);
    SingleBonus(g, ps[0]);
    assert Bonus(g, ps[0]) <= Bonus(g, r.start);
  }

  /** In no row of the grid does a hit lose what the gap would have kept. */
  ghost predicate NoLoss(g: Grid)
    requires Valid(g)
  {
    forall h :: 0 <= h < |g.pat| ==> NeverLoses(g, h)
  }

  /** If no row of the grid loses, no spelling at all is worth more without the bonuses of runs. */
  lemma ScoreBest(caseSensitive: bool, text: seq<byte>, pat: seq<byte>, withPos: bool, slab: Slab, r: MatchResult, pos: seq<nat>, ps: seq<nat>)
    requires ByGrid(caseSensitive, text, pat, slab) && Answers(caseSensitive, text, pat, withPos, slab, r, pos)
    requires Spelling(caseSensitive, text, pat, ps)
    requires var g := GridFor(caseSensitive, text, pat); Valid(g) && (|pat| > 1 ==> NoLoss(g))
    ensures (forall j :: 0 <= j < |ps| ==> ps[j] < |text|) && r.score >= Plain(text, ps)
  {
    hide IsSubsequence, FoldAll, ScanStart, Firsts, ScoreAt, BestColumn, GridResult, Started, Fold, NeverLoses;
    SpellingAhead(caseSensitive, text, pat, ps);
    var g, m := GridFor(caseSensitive, text, pat), |pat| - 1;
    if m == 0 {
      SingleLeast(g, withPos, r, pos, ps);
    } else {
      AnswerColumn(caseSensitive, text, pat, withPos, slab, r, pos);
      PlainBound(g, m, ps[m], ps);
      SpellsInside(g, m, ps[m], ps);
      AtLeastColumn(g, r.end - 1, ps[m]);
    }
  }

  // ----- texts on which the conditions matter -----

  lemma SpellingFound(t: seq<byte>, pat: seq<byte>, ps: seq<nat>)
    requires Spells(t, pat, ps, 0, |t|)
    ensures IsSubsequence(t, pat, 0, |t|)
  {
  }

  lemma FirstCell(g: Grid, k: nat)
    requires Valid(g) && g.f[0] <= k < |g.t|
    ensures ScoreAt(g, 0, k) == FirstRow(g, k) && RunAt(g, 0, k) == if g.t[k] == g.pat[0] then 1 else 0
    ensures g.t[k] == g.pat[0] ==> FirstRow(g, k) == 16 + 2 * Bonus(g, k)
  {
  }

  // `bba` and the pattern `ba`.

  const Repeated: seq<byte> := [0x62, 0x62, 0x61]

  const Pair: seq<byte> := [0x62, 0x61]

  lemma RepeatedGrid(caseSensitive: bool)
    ensures var g := GridFor(caseSensitive, Repeated, Pair);
            Started(g) && g.f == [0, 2] && g.t == Repeated && g.idx == 0 && IsSubsequence(g.t, Pair, 0, 3) && Spelling(caseSensitive, Repeated, Pair, [0, 2])
  {
    hide Firsts;
    assert FoldAll(caseSensitive, Repeated) == Repeated;
    SpellingFound(Repeated, Pair, [0, 2]);
    assert FirstHit(caseSensitive, Repeated, 0x62, 0) == 0;
    GridStarted(caseSensitive, Repeated, Pair);
    RepeatedFirsts();
  }

  lemma RepeatedFirsts()
    ensures Firsts(Repeated, Pair, 0) == [0, 2]
  {
    assert First(Repeated, 0x62, 0) == 0 && First(Repeated, 0x61, 1) == 2;
    assert Pair[1..] == [0x61] && Pair[1..][1..] == [];
    assert Firsts(Repeated, [0x61], 1) == [2];
  }

  /** The second `b` overwrites the first in the first row, although the first one was worth more: that row loses. */
  lemma Overwritten(caseSensitive: bool, withPos: bool, slab: Slab, r: MatchResult, pos: seq<nat>)
    requires !TooLarge(Repeated, Pair, slab) && Answers(caseSensitive, Repeated, Pair, withPos, slab, r, pos)
    ensures Spelling(caseSensitive, Repeated, Pair, [0, 2]) && r.score == 36 && Plain(Repeated, [0, 2]) == 45
  {
    hide Firsts, CellAt, IsSubsequence, Answers, BestColumn, FirstRow;
    RepeatedGrid(caseSensitive);
    var g := GridFor(caseSensitive, Repeated, Pair);
    AnswerColumn(caseSensitive, Repeated, Pair, withPos, slab, r, pos);
    BestRange(g, r.end - 1);
    FirstCell(g, 1);
    CellIs(g, 1, 2);
    assert Bonus(g, 1) == 0 && Bonus(g, 2) == 0;
    assert [0, 2][..1] == [0] && Plain(Repeated, [0]) == 32;
  }

  // `aAaxb` and the pattern `aab`, with case ignored.

  const Mixed: seq<byte> := [0x61, 0x41, 0x61, 0x78, 0x62]

  const Double: seq<byte> := [0x61, 0x61, 0x62]

  lemma MixedGrid()
    ensures var g := GridFor(false, Mixed, Double);
            && Started(g) && g.f == [0, 1, 4] && g.t == [0x61, 0x61, 0x61, 0x78, 0x62] && g.idx == 0
            && IsSubsequence(g.t, Double, 0, 5) && Spelling(false, Mixed, Double, [0, 1, 4])
  {
    hide Firsts;
    var t: seq<byte> := [0x61, 0x61, 0x61, 0x78, 0x62];
    assert FoldAll(false, Mixed) == t;
    SpellingFound(t, Double, [0, 1, 4]);
    assert FirstHit(false, Mixed, 0x61, 0) == 0;
    GridStarted(false, Mixed, Double);
    MixedFirsts(t);
  }

  lemma MixedFirsts(t: seq<byte>)
    requires t == [0x61, 0x61, 0x61, 0x78, 0x62]
    ensures Firsts(t, Double, 0) == [0, 1, 4]
  {
    assert t[0] == 0x61 && t[1] == 0x61 && t[2] == 0x61 && t[3] == 0x78 && t[4] == 0x62;
    assert First(t, 0x61, 0) == 0 && First(t, 0x61, 1) == 1 && First(t, 0x62, 2) == 4;
    assert Double[1..] == [0x61, 0x62] && Double[1..][1..] == [0x62] && Double[1..][1..][1..] == [];
    assert Firsts(t, [0x62], 2) == [4];
    assert Firsts(t, [0x61, 0x62], 1) == [1, 4];
  }

  lemma MixedBonus()
    ensures var g := GridFor(false, Mixed, Double);
            |g.text| == 5 && Bonus(g, 0) == 8 && Bonus(g, 1) == 7 && Bonus(g, 2) == 0 && Bonus(g, 3) == 0 && Bonus(g, 4) == 0
  {
    hide Firsts;
    MixedGrid();
  }

  /** The second row: a run of two, and a tie between the gap behind it and the next hit. */
  lemma MixedRow()
    ensures var g := GridFor(false, Mixed, Double);
            && Started(g) && g.f == [0, 1, 4]
            && CellAt(g, 1, 1) == Cell(56, 2, false) && CellAt(g, 1, 2) == Cell(53, 2, false) && CellAt(g, 1, 3) == Cell(50, 0, true)
  {
    hide Firsts, FirstRow, Bonus, CellAt;
    MixedGrid();
    MixedBonus();
    var g := GridFor(false, Mixed, Double);
    FirstCell(g, 0);
    FirstCell(g, 1);
    CellIs(g, 1, 1);
    CellFields(g, 1, 1, 56, 2, false);
    CellIs(g, 1, 2);
    CellFields(g, 1, 2, 53, 2, false);
    CellIs(g, 1, 3);
  }

  /** The third `a` is taken on a tie, and the next cell pays for the beginning of a gap again: the second row loses. */
  lemma TieLoses(withPos: bool, slab: Slab, r: MatchResult, pos: seq<nat>)
    requires !TooLarge(Mixed, Double, slab) && Answers(false, Mixed, Double, withPos, slab, r, pos)
    ensures Spelling(false, Mixed, Double, [0, 1, 4]) && BeginsLate(false, Mixed, Double, [0, 1, 4])
    ensures r.score == 66 && Plain(Mixed, [0, 1, 4]) == 67
  {
    hide Firsts, CellAt, IsSubsequence, Answers, BestColumn, FirstRow, Bonus;
    MixedGrid();
    MixedBonus();
    MixedRow();
    var g := GridFor(false, Mixed, Double);
    AnswerColumn(false, Mixed, Double, withPos, slab, r, pos);
    BestRange(g, r.end - 1);
    CellIs(g, 2, 4);
    MixedPlain();
  }

  lemma MixedPlain()
    ensures Plain(Mixed, [0, 1, 4]) == 67
  {
    var ps: seq<nat> := [0, 1, 4];
    assert ps[..2] == [0, 1] && [0, 1][..1] == [0];
    assert Plain(Mixed, [0]) == 32;
    assert Plain(Mixed, [0, 1]) == 55;
  }

  // An `a`, thirty-one other letters and a `b`, and the pattern `ab`.

  function Faraway(): seq<byte> { seq(33, k => if k == 0 then 0x61 else if k == 32 then 0x62 else 0x78) }

  lemma FarawayOnly(caseSensitive: bool, ps: seq<nat>)
    requires Spelling(caseSensitive, Faraway(), TwoLetters, ps)
    ensures ps == [0, 32]
  {
    hide IsSubsequence;
    assert FoldAll(caseSensitive, Faraway()) == Faraway();
  }

  lemma FarawayFound(caseSensitive: bool)
    ensures Spelling(caseSensitive, Faraway(), TwoLetters, [0, 32]) && IsSubsequence(FoldAll(caseSensitive, Faraway()), TwoLetters, 0, 33)
  {
    assert FoldAll(caseSensitive, Faraway()) == Faraway();
    SpellingFound(Faraway(), TwoLetters, [0, 32]);
  }

  /** The gap costs more than the first hit has gained, so the score is more than the only spelling is worth. */
  lemma GapForgiven(caseSensitive: bool, withPos: bool, slab: Slab, r: MatchResult, pos: seq<nat>)
    requires !TooLarge(Faraway(), TwoLetters, slab) && Answers(caseSensitive, Faraway(), TwoLetters, withPos, slab, r, pos)
    ensures Spelling(caseSensitive, Faraway(), TwoLetters, [0, 32]) && r.score == 16 && Worth(Faraway(), [0, 32]) == 15
  {
    hide Answers, IsSubsequence, FoldAll, Held, Worth;
    FarawayFound(caseSensitive);
    var ps := ScoreIsWorth(caseSensitive, Faraway(), TwoLetters, withPos, slab, r, pos);
    FarawayOnly(caseSensitive, ps);
    FarawayWorth();
  }

  lemma FarawayWorth()
    ensures Held(Faraway(), [0, 32]) == 16 && Worth(Faraway(), [0, 32]) == 15
  {
    hide BonusAt, RunFrom;
    var text: seq<byte> := Faraway();
    assert BonusAt(text, 0) == 8 && BonusAt(text, 32) == 0 by { BonusMeans(text, 0); BonusMeans(text, 32); }
    assert [0] + [32] == [0, 32] && [] + [0] == [0];
    HeldNext(text, [0], 32);
    WorthNext(text, [0], 32);
    HeldNext(text, [], 0);
    WorthNext(text, [], 0);
  }
}
