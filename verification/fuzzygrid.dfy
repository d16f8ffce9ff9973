/** The score grid of `fzf_fuzzy_match_v2` as a function: what each cell holds, and how large it can be. */
module FuzzyGrid {
  import opened Bytes
  import opened FuzzyText

  /** A text and its folded form, the pattern, where the scan begins, and the first place of each pattern character. */
  datatype Grid = Grid(text: seq<byte>, t: seq<byte>, pat: seq<byte>, idx: nat, f: seq<nat>)

  ghost predicate Valid(g: Grid) {
    && |g.t| == |g.text| && g.pat != [] && g.idx < |g.t|
    && Spells(g.t, g.pat, g.f, g.idx, |g.t|)
  }

  /** The grid of a call whose first pass begins at `idx`. */
  function GridOf(caseSensitive: bool, text: seq<byte>, pat: seq<byte>, idx: nat): Grid
    requires idx <= |text|
  {
    var t := FoldAll(caseSensitive, text);
    Grid(text, t, pat, idx, Firsts(t, pat, idx))
  }

  /** The bonus of a place; the scan begins as if after a character that is no word character. */
  function Bonus(g: Grid, k: nat): (b: int)
    requires k < |g.text|
    ensures 0 <= b <= BONUS_BOUNDARY
  {
    if k == g.idx then BonusFor(NonWord, ClassOf(g.text[k])) else BonusAt(g.text, k)
  }

  /** The score of the first pattern character, decaying behind each hit. */
  function FirstRow(g: Grid, k: nat): (s: int)
    requires |g.t| == |g.text| && g.pat != [] && g.idx <= k < |g.t|
    ensures 0 <= s <= 32
    decreases k
  {
    if g.t[k] == g.pat[0] then SCORE_MATCH + 2 * Bonus(g, k)
    else
      var before := if k == g.idx then 0 else FirstRow(g, k - 1);
      Max(before + (if k > g.idx && g.t[k - 1] != g.pat[0] then GAP_EXTENSION else GAP_START), 0)
  }

  /** A cell: the score, the length of the run of hits that ends there, and whether it is in a gap. */
  datatype Cell = Cell(score: int, run: int, gap: bool)

  /** The run and the bonus of a hit behind a run of length `before`. */
  function HitBonus(g: Grid, k: nat, before: int): (r: (int, int))
    requires k < |g.text| && 0 <= before <= k
    ensures 1 <= r.0 <= before + 1 && 0 <= r.1 <= BONUS_BOUNDARY
  {
    var b := Bonus(g, k);
    if b == BONUS_BOUNDARY then (1, b)
    else if before + 1 > 1 then (before + 1, Max(b, Max(BONUS_CONSECUTIVE, Bonus(g, k - before))))
    else (before + 1, b)
  }

  /** A cell of a later row from the scores to its left and on the diagonal. */
  function NextCell(g: Grid, i: nat, k: nat, left: int, inGap: bool, diag: int, diagRun: int): Cell
    requires i < |g.pat| && k < |g.text| && |g.t| == |g.text| && 0 <= diagRun <= k
  {
    var s2 := left + (if inGap then GAP_EXTENSION else GAP_START);
    if g.t[k] == g.pat[i] then
      var (run, b) := HitBonus(g, k, diagRun);
      var s1 := diag + SCORE_MATCH;
      if s1 + b < s2 then Cell(Max(Max(s1 + Bonus(g, k), s2), 0), 0, s1 + Bonus(g, k) < s2)
      else Cell(Max(Max(s1 + b, s2), 0), run, s1 + b < s2)
    else Cell(Max(Max(0, s2), 0), 0, 0 < s2)
  }

  /** The cell of pattern character `i` at place `k`: never negative, and at most 24 per character and 8 more. */
  function CellAt(g: Grid, i: nat, k: nat): (c: Cell)
    requires Valid(g) && i < |g.pat| && g.f[i] <= k < |g.t|
    ensures 0 <= c.score <= 24 * (i + 1) + 8 && 0 <= c.run <= i + 1 && c.run <= k - g.f[0] + 1
    ensures c.run > 0 ==> g.t[k] == g.pat[i]
    ensures k == g.f[i] ==> c.score >= SCORE_MATCH
    decreases i, k
  {
    if i == 0 then Cell(FirstRow(g, k), if g.t[k] == g.pat[0] then 1 else 0, false)
    else
      assert g.f[0] < g.f[i] && g.f[i - 1] < g.f[i];
      var diag := CellAt(g, i - 1, k - 1);
      var left := if k == g.f[i] then Cell(0, 0, false) else CellAt(g, i, k - 1);
      NextCell(g, i, k, left.score, left.gap, diag.score, diag.run)
  }

  // ----- the numbers formed -----

  /** Every number the source assigns to a 16-bit variable while it computes a cell. */
  function Formed(g: Grid, k: nat, left: int, inGap: bool, diag: int, diagRun: int): seq<int>
    requires k < |g.text| && 0 <= diagRun <= k
  {
    var s1, s2 := diag + SCORE_MATCH, left + (if inGap then GAP_EXTENSION else GAP_START);
    var (run, b) := HitBonus(g, k, diagRun);
    [0, s2, s1, diagRun + 1, run, Bonus(g, k), b, s1 + b, s1 + Bonus(g, k), Max(s2, 0), Max(Max(s1 + b, s2), 0), Max(Max(s1 + Bonus(g, k), s2), 0)]
  }

  predicate Fits16(s: seq<int>) { forall x :: x in s ==> -0x8000 <= x < 0x8000 }

  lemma {:induction false} PlacesApart(g: Grid, i: nat)
    requires Valid(g) && i < |g.pat|
    ensures i <= g.f[i] < |g.t|
  {
    if i > 0 {
      PlacesApart(g, i - 1);
      assert g.f[i - 1] < g.f[i];
    }
  }

  /** Under the limit of the default slab nothing that is formed for a cell leaves the range of 16-bit numbers. */
  lemma NoOverflow(g: Grid, i: nat, k: nat)
    requires Valid(g) && 0 < i < |g.pat| && g.f[i] <= k < |g.t| && |g.text| * |g.pat| <= 100 * 1024
    ensures g.f[i - 1] <= k - 1 && 0 <= CellAt(g, i - 1, k - 1).run <= k
    ensures var diag := CellAt(g, i - 1, k - 1);
            var left := if k == g.f[i] then Cell(0, 0, false) else CellAt(g, i, k - 1);
            Fits16(Formed(g, k, left.score, left.gap, diag.score, diag.run))
  {
    hide CellAt, Formed;
    assert g.f[i - 1] < g.f[i] && g.f[0] < g.f[i];
    FewRows(g);
    var diag := CellAt(g, i - 1, k - 1);
    var left := if k == g.f[i] then Cell(0, 0, false) else CellAt(g, i, k - 1);
    FormedFits(g, k, left.score, left.gap, diag.score, diag.run);
  }

  lemma FewRows(g: Grid)
    requires Valid(g) && |g.text| * |g.pat| <= 100 * 1024
    ensures |g.pat| <= 320
  {
    PlacesApart(g, |g.pat| - 1);
    if |g.pat| > 320 { ProductBound(|g.text|, |g.pat|); }
  }

  lemma FormedFits(g: Grid, k: nat, left: int, inGap: bool, diag: int, diagRun: int)
    requires k < |g.text| && 0 <= diagRun <= k && diagRun <= 320 && 0 <= left <= 24 * 320 + 8 && 0 <= diag <= 24 * 320 + 8
    ensures Fits16(Formed(g, k, left, inGap, diag, diagRun))
  {
    hide Bonus;
  }

  lemma ProductBound(n: nat, m: nat)
    requires 320 < m <= n
    ensures n * m > 100 * 1024
  {
    assert n * m - n * 321 == n * (m - 321);
  }

  // ----- the traceback -----

  function ScoreAt(g: Grid, i: nat, k: nat): (s: int)
    requires Valid(g) && i < |g.pat| && g.f[i] <= k < |g.t|
    ensures 0 <= s <= 24 * (i + 1) + 8
  {
    CellAt(g, i, k).score
  }

  function RunAt(g: Grid, i: nat, k: nat): (n: int)
    requires Valid(g) && i < |g.pat| && g.f[i] <= k < |g.t|
    ensures 0 <= n <= k - g.f[0] + 1
  {
    CellAt(g, i, k).run
  }

  /** The score on the diagonal, as the traceback reads it. */
  function Diagonal(g: Grid, i: nat, j: nat): int
    requires Valid(g) && i < |g.pat| && g.f[i] <= j < |g.t|
  {
    if i > 0 then (assert g.f[i - 1] < g.f[i]; ScoreAt(g, i - 1, j - 1)) else 0
  }

  function LeftOf(g: Grid, i: nat, j: nat): int
    requires Valid(g) && i < |g.pat| && g.f[i] <= j < |g.t|
  {
    if j > g.f[i] then ScoreAt(g, i, j - 1) else 0
  }

  /** Where the pattern character does not stand, the score only decays. */
  lemma Decays(g: Grid, i: nat, j: nat)
    requires Valid(g) && i < |g.pat| && g.f[i] <= j < |g.t| && g.t[j] != g.pat[i]
    ensures ScoreAt(g, i, j) == 0 || ScoreAt(g, i, j) < LeftOf(g, i, j)
  {
    if i == 0 {
      assert g.f[0] >= g.idx && g.t[g.f[0]] == g.pat[0] && j > g.idx;
    } else {
      assert g.f[i - 1] < g.f[i] && g.t[g.f[i]] == g.pat[i];
    }
  }

  /** A place that the traceback accepts holds the pattern character. */
  lemma AcceptedHit(g: Grid, i: nat, j: nat)
    requires Valid(g) && i < |g.pat| && g.f[i] <= j < |g.t|
    requires ScoreAt(g, i, j) > Diagonal(g, i, j) && ScoreAt(g, i, j) >= LeftOf(g, i, j)
    ensures g.t[j] == g.pat[i]
  {
    hide CellAt;
    if g.t[j] != g.pat[i] { Decays(g, i, j); }
  }

  /** The first possible place of a character is always accepted: the traceback never runs past it. */
  lemma FirstAccepted(g: Grid, i: nat)
    requires Valid(g) && i < |g.pat|
    ensures var j := g.f[i]; ScoreAt(g, i, j) > Diagonal(g, i, j) && ScoreAt(g, i, j) > LeftOf(g, i, j)
  {
    if i > 0 {
      assert g.f[i - 1] < g.f[i] && g.f[0] < g.f[i];
      var diag := CellAt(g, i - 1, g.f[i] - 1);
    }
  }

  /** The leftmost of the greatest scores of the last row. */
  ghost predicate BestColumn(g: Grid, j: nat) {
    && Valid(g)
    && var m := |g.pat| - 1;
    && g.f[m] <= j < |g.t|
    && (forall k :: g.f[m] <= k < j ==> ScoreAt(g, m, k) < ScoreAt(g, m, j))
    && (forall k :: j < k < |g.t| ==> ScoreAt(g, m, k) <= ScoreAt(g, m, j))
  }

  /** The best column is accepted at once. */
  lemma BestAccepted(g: Grid, j: nat)
    requires BestColumn(g, j) && |g.pat| > 1
    ensures var m := |g.pat| - 1; ScoreAt(g, m, j) > Diagonal(g, m, j) && ScoreAt(g, m, j) > LeftOf(g, m, j)
    ensures g.t[j] == g.pat[|g.pat| - 1]
  {
    hide CellAt;
    var m := |g.pat| - 1;
    FirstAccepted(g, m);
    if j > g.f[m] {
      assert ScoreAt(g, m, j - 1) < ScoreAt(g, m, j);
      BestHit(g, m, j);
    }
  }

  lemma BestHit(g: Grid, i: nat, j: nat)
    requires Valid(g) && 0 < i < |g.pat| && g.f[i] < j < |g.t| && ScoreAt(g, i, j) > LeftOf(g, i, j)
    ensures g.t[j] == g.pat[i] && ScoreAt(g, i, j) > Diagonal(g, i, j)
  {
    if g.t[j] != g.pat[i] { Decays(g, i, j); }
    assert g.f[i - 1] < g.f[i] && g.f[0] < g.f[i];
    var diag := CellAt(g, i - 1, j - 1);
    var left := CellAt(g, i, j - 1);
  }

  lemma BestUnique(g: Grid, j: nat, k: nat)
    requires BestColumn(g, j) && BestColumn(g, k)
    ensures j == k
  {
    BestRange(g, j);
    BestRange(g, k);
    hide ScoreAt, BestColumn;
    BestOther(g, j, k);
    BestOther(g, k, j);
  }

  lemma BestRange(g: Grid, j: nat)
    requires BestColumn(g, j)
    ensures Valid(g) && g.f[|g.pat| - 1] <= j < |g.t|
  {
    hide ScoreAt;
  }

  lemma BestOther(g: Grid, j: nat, k: nat)
    requires BestColumn(g, j) && g.f[|g.pat| - 1] <= k < |g.t|
    ensures var m := |g.pat| - 1;
            if k < j then ScoreAt(g, m, k) < ScoreAt(g, m, j) else ScoreAt(g, m, k) <= ScoreAt(g, m, j)
  {
    hide ScoreAt;
  }

  /** The last place of the last pattern character. */
  ghost function LastColumn(g: Grid): (k: nat)
    requires Valid(g)
    ensures g.f[|g.pat| - 1] <= k < |g.t| && g.t[k] == g.pat[|g.pat| - 1] && forall j :: k < j < |g.t| ==> g.t[j] != g.pat[|g.pat| - 1]
  {
    Last(g.t, g.pat[|g.pat| - 1], |g.t|)
  }

  /** The best column does not lie behind it. */
  lemma BestBeforeLast(g: Grid, j: nat)
    requires BestColumn(g, j) && |g.pat| > 1
    ensures j <= LastColumn(g)
  {
    hide ScoreAt;
    BestAccepted(g, j);
  }
}
