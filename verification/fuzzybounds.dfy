/** How the scores of the grid compare with the worth of every spelling: what a row carries on, and where it loses. */
module FuzzyBounds {
  import opened Bytes
  import opened FuzzyText
  import opened FuzzyWorth
  import opened FuzzyGrid
  import opened FuzzyMeaning

  // ----- what a row carries on -----

  /** In a cell of the gap the score comes from the left; in the first row these are all cells that are no hits. */
  ghost predicate Falling(g: Grid, i: nat, k: nat)
    requires Valid(g) && i < |g.pat| && g.f[i] <= k < |g.t|
  {
    if i == 0 then g.t[k] != g.pat[0] else CellAt(g, i, k).gap
  }

  /** What the cell to the right can take over. */
  ghost function Onward(g: Grid, i: nat, k: nat): int
    requires Valid(g) && i < |g.pat| && g.f[i] <= k < |g.t|
  {
    ScoreAt(g, i, k) + if Falling(g, i, k) then -1 else -3
  }

  /** A cell behind the first place of its row, by what the cell to its left hands on. */
  lemma RowCases(g: Grid, i: nat, k: nat)
    requires Valid(g) && i < |g.pat| && g.f[i] < k < |g.t|
    ensures var s, o := ScoreAt(g, i, k), Onward(g, i, k - 1);
            && (Falling(g, i, k) ==> s == Max(0, o))
            && (!Falling(g, i, k) && o > 0 ==> g.t[k] == g.pat[i] && s >= SCORE_MATCH && (i > 0 ==> s >= o))
            && (Falling(g, i, k) && i > 0 ==> o > 0)
            && s >= 0
  {
    hide Bonus;
    if i > 0 {
      hide CellAt, HitBonus;
      CellCases(g, i, k);
    } else {
      assert g.f[0] >= g.idx;
    }
  }

  lemma FirstOfRow(g: Grid, i: nat)
    requires Valid(g) && i < |g.pat|
    ensures !Falling(g, i, g.f[i])
  {
    if i > 0 {
      hide CellAt, HitBonus, Bonus;
      CellCases(g, i, g.f[i]);
    }
  }

  /** What the score of column `j` must still be worth to the right of column `k`, when the gap between them is paid. */
  ghost function Due(g: Grid, i: nat, j: nat, k: nat): int
    requires Valid(g) && i < |g.pat| && g.f[i] <= j <= k < |g.t|
  {
    ScoreAt(g, i, j) - GapCost(Between(j, k + 2))
  }

  /** No score of the row is lost faster than by paying for the gap behind it. */
  ghost predicate Carries(g: Grid, i: nat)
    requires Valid(g) && i < |g.pat|
  {
    forall j: nat, k: nat :: g.f[i] <= j <= k < |g.t| && Due(g, i, j, k) > 0 ==> Onward(g, i, k) >= Due(g, i, j, k)
  }

  /** A hit is taken although it is worth less than the gap would be to the cell behind it: at most one more than the gap here. */
  ghost predicate Loses(g: Grid, i: nat, k: nat)
    requires Valid(g) && i < |g.pat| && g.f[i] < k < |g.t|
  {
    g.t[k] == g.pat[i] && !Falling(g, i, k) && Onward(g, i, k - 1) >= 2 && ScoreAt(g, i, k) <= Onward(g, i, k - 1) + 1
  }

  ghost predicate NeverLoses(g: Grid, i: nat)
    requires Valid(g) && i < |g.pat|
  {
    forall k: nat :: g.f[i] < k < |g.t| ==> !Loses(g, i, k)
  }

  lemma {:induction false} CarriesOn(g: Grid, i: nat, j: nat, k: nat)
    requires Valid(g) && i < |g.pat| && g.f[i] <= j <= k < |g.t| && NeverLoses(g, i) && Due(g, i, j, k) > 0
    ensures Onward(g, i, k) >= Due(g, i, j, k)
    decreases k
  {
    hide Falling, ScoreAt;
    if j < k {
      CarriesOn(g, i, j, k - 1);
      RowCases(g, i, k);
      assert !Loses(g, i, k);
    }
  }

  /** What is handed on has come from a score of the row, by paying for the gap. */
  lemma {:induction false} CameFrom(g: Grid, i: nat, k: nat) returns (j: nat)
    requires Valid(g) && i < |g.pat| && g.f[i] <= k < |g.t| && Onward(g, i, k) > 0
    ensures g.f[i] <= j <= k && Onward(g, i, k) == Due(g, i, j, k)
    decreases k
  {
    hide Falling, ScoreAt;
    j := k;
    FirstOfRow(g, i);
    if Falling(g, i, k) {
      RowCases(g, i, k);
      j := CameFrom(g, i, k - 1);
    }
  }

  /** A row carries every score on at the price of the gap if and only if no hit in it loses. */
  lemma CarriesIff(g: Grid, i: nat)
    requires Valid(g) && i < |g.pat|
    ensures Carries(g, i) <==> NeverLoses(g, i)
  {
    hide Falling, ScoreAt, Onward, Due;
    if NeverLoses(g, i) {
      forall j: nat, k: nat | g.f[i] <= j <= k < |g.t| && Due(g, i, j, k) > 0 ensures Onward(g, i, k) >= Due(g, i, j, k) { CarriesOn(g, i, j, k); }
    }
    if Carries(g, i) {
      forall k: nat | g.f[i] < k < |g.t| ensures !Loses(g, i, k) {
        if Loses(g, i, k) { LossShows(g, i, k); }
      }
    }
  }

  lemma LossShows(g: Grid, i: nat, k: nat)
    requires Valid(g) && i < |g.pat| && g.f[i] < k < |g.t| && Loses(g, i, k)
    ensures !Carries(g, i)
  {
    hide Falling, ScoreAt;
    var j := CameFrom(g, i, k - 1);
    assert Due(g, i, j, k) == Onward(g, i, k - 1) - 1 && Onward(g, i, k) < Due(g, i, j, k);
  }

  // ----- every spelling -----

  lemma HitScore(g: Grid, i: nat, k: nat)
    requires Started(g) && i < |g.pat| && g.f[i] <= k < |g.t| && g.t[k] == g.pat[i]
    ensures i == 0 ==> ScoreAt(g, i, k) == 16 + 2 * BonusAt(g.text, k)
    ensures i > 0 ==> g.f[i - 1] <= k - 1 && ScoreAt(g, i, k) >= ScoreAt(g, i - 1, k - 1) + 16 + BonusAt(g.text, k)
  {
    hide BonusAt, Bonus, Firsts;
    if i > 0 { assert g.f[0] < g.f[i]; }
    BonusIs(g, k);
    if i > 0 {
      hide CellAt, HitBonus;
      CellCases(g, i, k);
    }
  }

  /** The spelling without its last place. */
  lemma SpellsLess(g: Grid, i: nat, k: nat, ps: seq<nat>)
    requires SpellsTo(g, i, k, ps) && i > 0
    ensures ps[i] > 0 && g.f[i - 1] <= ps[i] - 1 && SpellsTo(g, i - 1, ps[i] - 1, ps[..i]) && ps[..i][i - 1] == ps[i - 1]
  {
    assert ps[i - 1] < ps[i];
  }

  /**
   * While no row loses, every cell is at least what any spelling that ends at or before it is worth without
   * the bonuses of runs, less the gap behind it.
   */
  lemma {:induction false} PlainBound(g: Grid, i: nat, k: nat, ps: seq<nat>)
    requires Started(g) && SpellsTo(g, i, k, ps) && forall h :: 0 <= h <= i ==> NeverLoses(g, h)
    ensures forall j :: 0 <= j < |ps| ==> ps[j] < |g.text|
    ensures ScoreAt(g, i, k) >= Plain(g.text, ps) - GapCost(Between(ps[i], k + 1))
    decreases i, k
  {
    hide ScoreAt, BonusAt, NeverLoses, Started, Plain;
    SpellsInside(g, i, k, ps);
    PlainEnd(g.text, ps);
    HitScore(g, i, ps[i]);
    if i > 0 {
      SpellsLess(g, i, k, ps);
      PlainBound(g, i - 1, ps[i] - 1, ps[..i]);
    }
    if ps[i] < k { Spent(g, i, ps[i], k); }
  }

  lemma SpellsInside(g: Grid, i: nat, k: nat, ps: seq<nat>)
    requires SpellsTo(g, i, k, ps)
    ensures Valid(g) && i < |g.pat| && |ps| == i + 1 && g.f[i] <= ps[i] <= k < |g.t| == |g.text| && g.t[ps[i]] == g.pat[i]
    ensures forall j :: 0 <= j < |ps| ==> ps[j] < |g.text|
  {
  }

  lemma PlainEnd(text: seq<byte>, ps: seq<nat>)
    requires ps != [] && forall i :: 0 <= i < |ps| ==> ps[i] < |text|
    ensures var n := |ps| - 1;
            Plain(text, ps) == (if n == 0 then 16 + 2 * BonusAt(text, ps[0])
                                else Max(0, Plain(text, ps[..n]) - GapCost(Between(ps[n - 1], ps[n]))) + 16 + BonusAt(text, ps[n]))
  {
  }

  /** In a row that does not lose, a score is worth to a later cell what it is less the gap. */
  lemma Spent(g: Grid, i: nat, j: nat, k: nat)
    requires Valid(g) && i < |g.pat| && g.f[i] <= j < k < |g.t| && NeverLoses(g, i)
    ensures ScoreAt(g, i, k) >= ScoreAt(g, i, j) - GapCost(Between(j, k + 1))
  {
    hide ScoreAt, Falling;
    RowCases(g, i, k);
    if Due(g, i, j, k - 1) > 0 {
      CarriesOn(g, i, j, k - 1);
      assert !Loses(g, i, k);
    }
  }

  /** The first place is the latest hit of the first character before the second place. */
  ghost predicate StartsLate(g: Grid, i: nat, k: nat, ps: seq<nat>)
    requires SpellsTo(g, i, k, ps)
  {
    forall j :: ps[0] < j <= (if i > 0 then ps[1] - 1 else k) ==> g.t[j] != g.pat[0]
  }

  /**
   * Without any condition every cell is at least what such a spelling is worth when each character of its gaps
   * costs 3.
   */
  lemma {:induction false} LeastBound(g: Grid, i: nat, k: nat, ps: seq<nat>)
    requires Started(g) && SpellsTo(g, i, k, ps) && StartsLate(g, i, k, ps)
    ensures forall j :: 0 <= j < |ps| ==> ps[j] < |g.text|
    ensures ScoreAt(g, i, k) >= Least(g.text, ps) - 3 * Max(0, Between(ps[i], k + 1))
    decreases i, k
  {
    hide ScoreAt, BonusAt, Started, Least, SpellsTo, StartsLate;
    SpellsInside(g, i, k, ps);
    if ps[i] < k {
      LateLeft(g, i, k, ps);
      LeastBound(g, i, k - 1, ps);
      DropsThree(g, i, k);
    } else {
      LeastEnd(g.text, ps);
      HitScore(g, i, k);
      if i > 0 {
        LateLess(g, i, k, ps);
        LeastBound(g, i - 1, ps[i] - 1, ps[..i]);
      }
    }
  }

  lemma LeastEnd(text: seq<byte>, ps: seq<nat>)
    requires ps != [] && forall i :: 0 <= i < |ps| ==> ps[i] < |text|
    ensures var n := |ps| - 1;
            Least(text, ps) == (if n == 0 then 16 + 2 * BonusAt(text, ps[0])
                                else Max(0, Least(text, ps[..n]) - 3 * Max(0, Between(ps[n - 1], ps[n]))) + 16 + BonusAt(text, ps[n]))
  {
  }

  lemma LateLeft(g: Grid, i: nat, k: nat, ps: seq<nat>)
    requires SpellsTo(g, i, k, ps) && StartsLate(g, i, k, ps) && ps[i] < k
    ensures g.f[i] < k && SpellsTo(g, i, k - 1, ps) && StartsLate(g, i, k - 1, ps) && (i == 0 ==> g.t[k] != g.pat[0])
  {
  }

  lemma LateLess(g: Grid, i: nat, k: nat, ps: seq<nat>)
    requires SpellsTo(g, i, k, ps) && StartsLate(g, i, k, ps) && i > 0
    ensures ps[i] > 0 && g.f[i - 1] <= ps[i] - 1 && |ps[..i]| == i && ps[..i][i - 1] == ps[i - 1]
    ensures SpellsTo(g, i - 1, ps[i] - 1, ps[..i]) && StartsLate(g, i - 1, ps[i] - 1, ps[..i])
  {
    SpellsLess(g, i, k, ps);
  }

  lemma DropsThree(g: Grid, i: nat, k: nat)
    requires Valid(g) && i < |g.pat| && g.f[i] < k < |g.t| && (i == 0 ==> g.t[k] != g.pat[0])
    ensures ScoreAt(g, i, k) >= ScoreAt(g, i, k - 1) - 3
  {
    hide ScoreAt;
    RowCases(g, i, k);
  }
}
