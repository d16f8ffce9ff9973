/** What the scores of the grid mean: each is the worth of a spelling, and how they compare with other spellings. */
module FuzzyMeaning {
  import opened Bytes
  import opened FuzzyText
  import opened FuzzyWorth
  import opened FuzzyGrid

  /** The grid of a call: its first places are those of the text, and the scan does not begin inside the match. */
  ghost predicate Started(g: Grid) {
    && Valid(g) && g.f == Firsts(g.t, g.pat, g.idx) && (g.idx == 0 || g.idx < g.f[0])
  }

  lemma BonusIs(g: Grid, k: nat)
    requires Started(g) && g.f[0] <= k < |g.t|
    ensures Bonus(g, k) == BonusAt(g.text, k)
  {
  }

  /** The places `ps` spell the pattern up to character `i`, at or before column `k`. */
  ghost predicate SpellsTo(g: Grid, i: nat, k: nat, ps: seq<nat>) {
    && Valid(g) && i < |g.pat| && k < |g.t| && |ps| == i + 1 && g.f[i] <= k
    && (forall j :: 0 <= j <= i ==> g.f[j] <= ps[j] <= k && g.t[ps[j]] == g.pat[j])
    && (forall h, j :: 0 <= h < j <= i ==> ps[h] < ps[j])
  }

  // ----- every score is attained -----

  /** `ps` accounts for a cell: for its score, and for the run that ends there. */
  ghost predicate Accounts(g: Grid, i: nat, k: nat, ps: seq<nat>) {
    && SpellsTo(g, i, k, ps)
    && var c := CellAt(g, i, k);
    && c.score == Max(0, Held(g.text, ps) - GapCost(Between(ps[i], k + 1)))
    && (c.run > 0 ==> ps[i] == k && RunBonus(g.text, ps, i) == BonusAt(g.text, k + 1 - c.run))
    && (c.run == 0 ==> ps[i] < k)
    && (i > 0 && !c.gap && c.score > 0 ==> c.run > 0)
  }

  lemma HeldOne(text: seq<byte>, k: nat)
    requires k < |text|
    ensures Held(text, [k]) == 16 + 2 * BonusAt(text, k) && RunBonus(text, [k], 0) == BonusAt(text, k)
  {
    hide BonusAt;
  }

  /** The first row: the latest hit, decayed. */
  lemma {:induction false} FirstAccounts(g: Grid, k: nat) returns (ps: seq<nat>)
    requires Started(g) && g.f[0] <= k < |g.t|
    ensures Accounts(g, 0, k, ps)
    decreases k
  {
    hide Bonus, Held, RunBonus, BonusAt, Firsts;
    if g.t[k] == g.pat[0] {
      ps := [k];
      BonusIs(g, k);
      HeldOne(g.text, k);
    } else {
      ps := FirstAccounts(g, k - 1);
    }
  }

  /** To the left: a cell whose score comes from its left neighbour. */
  lemma GapAccounts(g: Grid, i: nat, k: nat, ps: seq<nat>)
    requires Started(g) && 0 < i < |g.pat| && g.f[i] < k < |g.t| && Accounts(g, i, k - 1, ps)
    requires var l, c := CellAt(g, i, k - 1), CellAt(g, i, k);
             var s2 := l.score + (if l.gap then GAP_EXTENSION else GAP_START);
             c.score == Max(0, s2) && c.run == 0 && (s2 > 0 ==> c.gap)
    requires CellAt(g, i, k - 1).gap ==> CellAt(g, i, k - 1).run == 0
    ensures Accounts(g, i, k, ps)
  {
    hide CellAt, Held, RunBonus, BonusAt;
  }

  /** On the diagonal: a hit behind what accounts for the cell there. */
  lemma HitAccounts(g: Grid, i: nat, k: nat, ps: seq<nat>)
    requires Started(g) && 0 < i < |g.pat| && g.f[i] <= k < |g.t| && g.t[k] == g.pat[i]
    requires g.f[i - 1] <= k - 1 && Accounts(g, i - 1, k - 1, ps) && 0 <= CellAt(g, i - 1, k - 1).run <= k
    requires var (run, b) := HitBonus(g, k, CellAt(g, i - 1, k - 1).run);
             CellAt(g, i, k).score == CellAt(g, i - 1, k - 1).score + SCORE_MATCH + b && CellAt(g, i, k).run == run
    ensures Accounts(g, i, k, ps + [k])
  {
    hide CellAt, Held, RunBonus, BonusAt, Bonus, RunFrom, Firsts;
    var d := CellAt(g, i - 1, k - 1);
    assert g.f[0] < g.f[i];
    DiagonalRun(g, i, k);
    BonusIs(g, k);
    BonusIs(g, k - d.run);
    HeldNext(g.text, ps, k);
    RunBonusNext(g.text, ps, k);
    SpellsMore(g, i, k, ps);
  }

  lemma DiagonalRun(g: Grid, i: nat, k: nat)
    requires Valid(g) && 0 < i < |g.pat| && g.f[i] <= k < |g.t|
    ensures g.f[i - 1] <= k - 1 && g.f[0] <= k - CellAt(g, i - 1, k - 1).run
  {
    assert g.f[i - 1] < g.f[i];
  }

  lemma SpellsMore(g: Grid, i: nat, k: nat, ps: seq<nat>)
    requires Valid(g) && 0 < i < |g.pat| && 0 < k && g.f[i] <= k < |g.t| && g.t[k] == g.pat[i] && SpellsTo(g, i - 1, k - 1, ps)
    ensures SpellsTo(g, i, k, ps + [k])
  {
    var l := ps + [k];
    forall h, j | 0 <= h < j <= i ensures l[h] < l[j] { if j == i { assert l[h] == ps[h] <= k - 1; } }
  }

  /** How a cell of a later row comes about: from the left, or from the diagonal. */
  lemma CellCases(g: Grid, i: nat, k: nat)
    requires Valid(g) && 0 < i < |g.pat| && g.f[i] <= k < |g.t|
    ensures g.f[i - 1] <= k - 1
    ensures var d, c := CellAt(g, i - 1, k - 1), CellAt(g, i, k);
            var s2 := if k == g.f[i] then -3 else CellAt(g, i, k - 1).score + (if CellAt(g, i, k - 1).gap then -1 else -3);
            && 0 <= d.run <= k
            && (c.gap ==> c.run == 0)
            && (k == g.f[i] ==> g.t[k] == g.pat[i])
            && if c.run == 0 then k > g.f[i] && c.score == Max(0, s2) && (c.gap <==> s2 > 0)
               else var (run, b) := HitBonus(g, k, d.run);
                    g.t[k] == g.pat[i] && c.score == d.score + 16 + b && c.run == run && !c.gap && c.score >= s2 && b >= Bonus(g, k)
    ensures g.t[k] == g.pat[i] ==> CellAt(g, i, k).score >= CellAt(g, i - 1, k - 1).score + 16 + Bonus(g, k)
  {
    hide Bonus;
    assert g.f[i - 1] < g.f[i] && g.f[0] < g.f[i];
    var d := CellAt(g, i - 1, k - 1);
    var l := if k == g.f[i] then Cell(0, 0, false) else CellAt(g, i, k - 1);
    assert CellAt(g, i, k) == NextCell(g, i, k, l.score, l.gap, d.score, d.run);
  }

  lemma FromLeft(g: Grid, i: nat, k: nat, ps: seq<nat>)
    requires Started(g) && 0 < i < |g.pat| && g.f[i] < k < |g.t| && Accounts(g, i, k - 1, ps) && CellAt(g, i, k).run == 0
    ensures Accounts(g, i, k, ps)
  {
    hide CellAt, Accounts, HitBonus, Bonus, Started;
    StartedValid(g);
    CellCases(g, i, k);
    CellCases(g, i, k - 1);
    GapAccounts(g, i, k, ps);
  }

  lemma StartedValid(g: Grid)
    requires Started(g)
    ensures Valid(g)
  {
  }

  lemma FromDiagonal(g: Grid, i: nat, k: nat, ps: seq<nat>)
    requires Started(g) && 0 < i < |g.pat| && g.f[i] <= k < |g.t| && CellAt(g, i, k).run > 0
    requires 0 < k && g.f[i - 1] <= k - 1 && Accounts(g, i - 1, k - 1, ps)
    ensures Accounts(g, i, k, ps + [k])
  {
    hide CellAt, Accounts, HitBonus, Bonus, Started;
    StartedValid(g);
    CellCases(g, i, k);
    HitAccounts(g, i, k, ps);
  }

  /** Every score of the grid is what a spelling is worth that ends at or before the cell, less the gap behind it. */
  lemma {:induction false} ScoreAttained(g: Grid, i: nat, k: nat) returns (ps: seq<nat>)
    requires Started(g) && i < |g.pat| && g.f[i] <= k < |g.t|
    ensures Accounts(g, i, k, ps)
    decreases i, k
  {
    hide CellAt, Accounts, Started;
    StartedValid(g);
    if i == 0 {
      ps := FirstAccounts(g, k);
    } else {
      CellPlaces(g, i, k);
      if CellAt(g, i, k).run == 0 {
        ps := ScoreAttained(g, i, k - 1);
        FromLeft(g, i, k, ps);
      } else {
        ps := ScoreAttained(g, i - 1, k - 1);
        FromDiagonal(g, i, k, ps);
        ps := ps + [k];
      }
    }
  }

  lemma CellPlaces(g: Grid, i: nat, k: nat)
    requires Valid(g) && 0 < i < |g.pat| && g.f[i] <= k < |g.t|
    ensures 0 < k && g.f[i - 1] <= k - 1 && (CellAt(g, i, k).run == 0 ==> g.f[i] < k)
  {
    hide CellAt, HitBonus, Bonus;
    CellCases(g, i, k);
    assert g.f[i - 1] < g.f[i];
  }
}
