/** What a list of places in a text is worth: the closed form of the scores of the fuzzy matcher. */
module FuzzyWorth {
  import opened Bytes
  import opened FuzzyText

  /** Places that rise, inside the text. */
  ghost predicate Rising(text: seq<byte>, ps: seq<nat>) {
    (forall k :: 0 <= k < |ps| ==> ps[k] < |text|) && (forall j, k :: 0 <= j < k < |ps| ==> ps[j] < ps[k])
  }

  /** What a gap of `n` characters costs. */
  function GapCost(n: int): int { if n <= 0 then 0 else n + 2 }

  /** How many characters lie between two places. */
  function Between(p: int, q: int): int { q - p - 1 }

  /** Where the run of adjacent places begins that the `k`-th belongs to. */
  function RunFrom(ps: seq<nat>, k: nat): (j: nat)
    requires k < |ps|
    ensures j <= k && ps[k] == ps[j] + (k - j)
    ensures forall i :: j < i <= k ==> ps[i] == ps[i - 1] + 1
    ensures j > 0 ==> ps[j] != ps[j - 1] + 1
    decreases k
  {
    if k > 0 && ps[k] == ps[k - 1] + 1 then RunFrom(ps, k - 1) else k
  }

  /** The bonus a run hands on: 8 if there is a boundary among its places up to the `k`-th, else that of its first place. */
  function RunBonus(text: seq<byte>, ps: seq<nat>, k: nat): int
    requires k < |ps| && forall i :: 0 <= i < |ps| ==> ps[i] < |text|
  {
    if exists j :: RunFrom(ps, k) <= j <= k && BonusAt(text, ps[j]) == 8 then 8 else BonusAt(text, ps[RunFrom(ps, k)])
  }

  /** The weight of the `k`-th place: its own bonus, and behind another one at least 4 and what the run hands on. */
  function Weight(text: seq<byte>, ps: seq<nat>, k: nat): int
    requires k < |ps| && forall i :: 0 <= i < |ps| ==> ps[i] < |text|
  {
    if RunFrom(ps, k) == k then BonusAt(text, ps[k]) else Max(Max(BonusAt(text, ps[k]), RunBonus(text, ps, k)), 4)
  }

  /** 16 and the weight for each place, the first weight twice, less the costs of the gaps between them. */
  function Worth(text: seq<byte>, ps: seq<nat>): int
    requires forall i :: 0 <= i < |ps| ==> ps[i] < |text|
    decreases |ps|
  {
    if ps == [] then 0
    else
      var n := |ps| - 1;
      if n == 0 then 16 + 2 * Weight(text, ps, 0)
      else Worth(text, ps[..n]) - GapCost(Between(ps[n - 1], ps[n])) + 16 + Weight(text, ps, n)
  }

  // ----- one place more -----

  lemma {:induction false} RunFromPrefix(ps: seq<nat>, q: nat, k: nat)
    requires k < |ps|
    ensures RunFrom(ps + [q], k) == RunFrom(ps, k)
    decreases k
  {
    if k > 0 && ps[k] == ps[k - 1] + 1 { RunFromPrefix(ps, q, k - 1); }
  }

  /** Does `q` follow the last place at once? */
  predicate Adjacent(ps: seq<nat>, q: nat) { ps != [] && q == ps[|ps| - 1] + 1 }

  lemma RunFromNext(ps: seq<nat>, q: nat)
    ensures RunFrom(ps + [q], |ps|) == if Adjacent(ps, q) then RunFrom(ps, |ps| - 1) else |ps|
  {
    var l, n := ps + [q], |ps|;
    assert l[n] == q && (n > 0 ==> l[n - 1] == ps[n - 1]);
    if Adjacent(ps, q) { RunFromPrefix(ps, q, n - 1); }
  }

  lemma RunBonusNext(text: seq<byte>, ps: seq<nat>, q: nat)
    requires (forall i :: 0 <= i < |ps| ==> ps[i] < |text|) && q < |text|
    ensures var l := ps + [q];
            RunBonus(text, l, |ps|) == if BonusAt(text, q) == 8 then 8
                                       else if Adjacent(ps, q) then RunBonus(text, ps, |ps| - 1)
                                       else BonusAt(text, q)
  {
    hide BonusAt, RunFrom;
    var l, n := ps + [q], |ps|;
    RunFromNext(ps, q);
    assert l[n] == q && l[RunFrom(l, n)] == if Adjacent(ps, q) then ps[RunFrom(ps, n - 1)] else q;
    if BonusAt(text, q) == 8 {
      assert BonusAt(text, l[n]) == 8;
    } else if Adjacent(ps, q) {
      forall j | RunFrom(ps, n - 1) <= j <= n - 1 ensures BonusAt(text, l[j]) == BonusAt(text, ps[j]) {}
      if j :| RunFrom(ps, n - 1) <= j <= n - 1 && BonusAt(text, ps[j]) == 8 { assert BonusAt(text, l[j]) == 8; }
    }
  }

  /** What one more place adds. */
  function Added(text: seq<byte>, ps: seq<nat>, q: nat): int
    requires (forall i :: 0 <= i < |ps| ==> ps[i] < |text|) && q < |text|
  {
    var b := BonusAt(text, q);
    16 + if ps == [] then 2 * b
         else if Adjacent(ps, q) then Max(Max(b, if b == 8 then 8 else RunBonus(text, ps, |ps| - 1)), 4)
         else b
  }

  lemma WeightNext(text: seq<byte>, ps: seq<nat>, q: nat)
    requires (forall i :: 0 <= i < |ps| ==> ps[i] < |text|) && q < |text|
    ensures Added(text, ps, q) == 16 + (if ps == [] then 2 else 1) * Weight(text, ps + [q], |ps|)
  {
    hide BonusAt, RunFrom, RunBonus;
    RunFromNext(ps, q);
    RunBonusNext(text, ps, q);
    assert (ps + [q])[|ps|] == q;
  }

  lemma WorthNext(text: seq<byte>, ps: seq<nat>, q: nat)
    requires (forall i :: 0 <= i < |ps| ==> ps[i] < |text|) && q < |text|
    ensures ps == [] ==> Worth(text, ps) == 0
    ensures Worth(text, ps + [q]) ==
              Worth(text, ps) - (if ps == [] then 0 else GapCost(Between(ps[|ps| - 1], q))) + Added(text, ps, q)
  {
    hide Weight, Added;
    var l, n := ps + [q], |ps|;
    assert l[..n] == ps && l[n] == q && (n > 0 ==> l[n - 1] == ps[n - 1]);
    WeightNext(text, ps, q);
  }

  /** 16 to 24 for each place and 8 more for the first, and at most 3 off for each character between them. */
  lemma {:induction false} WorthBounds(text: seq<byte>, ps: seq<nat>)
    requires ps != [] && Rising(text, ps)
    ensures var m := |ps|;
            && m - 1 <= ps[m - 1] - ps[0]
            && 16 * m - 3 * (ps[m - 1] - ps[0] - (m - 1)) <= Worth(text, ps) <= 24 * m + 8
    decreases |ps|
  {
    hide BonusAt;
    var n := |ps| - 1;
    if n > 0 {
      var front := ps[..n];
      assert ps == front + [ps[n]] && Rising(text, front);
      WorthBounds(text, front);
      WorthNext(text, front, ps[n]);
      assert front[n - 1] < ps[n];
      AddedBounds(text, front, ps[n]);
    }
  }

  lemma AddedBounds(text: seq<byte>, ps: seq<nat>, q: nat)
    requires (forall i :: 0 <= i < |ps| ==> ps[i] < |text|) && q < |text|
    ensures 16 <= Added(text, ps, q) <= if ps == [] then 32 else 24
  {
    hide BonusAt, RunFrom;
  }

  // ----- scores that never fall below zero -----

  /** The worth when what has been gained so far is never spent beyond zero on a gap. */
  function Held(text: seq<byte>, ps: seq<nat>): int
    requires forall i :: 0 <= i < |ps| ==> ps[i] < |text|
    decreases |ps|
  {
    if ps == [] then 0
    else
      var n := |ps| - 1;
      if n == 0 then 16 + 2 * Weight(text, ps, 0)
      else Max(0, Held(text, ps[..n]) - GapCost(Between(ps[n - 1], ps[n]))) + 16 + Weight(text, ps, n)
  }

  lemma HeldNext(text: seq<byte>, ps: seq<nat>, q: nat)
    requires (forall i :: 0 <= i < |ps| ==> ps[i] < |text|) && q < |text|
    ensures Held(text, ps + [q]) ==
              (if ps == [] then 0 else Max(0, Held(text, ps) - GapCost(Between(ps[|ps| - 1], q)))) + Added(text, ps, q)
  {
    hide Weight, Added;
    var l, n := ps + [q], |ps|;
    assert l[..n] == ps && l[n] == q && (n > 0 ==> l[n - 1] == ps[n - 1]);
    WeightNext(text, ps, q);
  }

  /** The gap in front of the `n`-th place costs no more than has been gained before it. */
  ghost predicate Affords(text: seq<byte>, ps: seq<nat>, n: nat)
    requires (forall i :: 0 <= i < |ps| ==> ps[i] < |text|) && 0 < n < |ps|
  {
    Held(text, ps[..n]) >= GapCost(Between(ps[n - 1], ps[n]))
  }

  ghost predicate NeverSpent(text: seq<byte>, ps: seq<nat>)
    requires forall i :: 0 <= i < |ps| ==> ps[i] < |text|
  {
    forall n :: 0 < n < |ps| ==> Affords(text, ps, n)
  }

  lemma AffordsFront(text: seq<byte>, ps: seq<nat>, n: nat, k: nat)
    requires (forall i :: 0 <= i < |ps| ==> ps[i] < |text|) && 0 < k < n < |ps|
    ensures Affords(text, ps[..n], k) <==> Affords(text, ps, k)
  {
    hide Held;
    assert ps[..n][..k] == ps[..k];
  }

  lemma SpentNext(text: seq<byte>, ps: seq<nat>)
    requires (forall i :: 0 <= i < |ps| ==> ps[i] < |text|) && |ps| > 1
    ensures var n := |ps| - 1; NeverSpent(text, ps) <==> NeverSpent(text, ps[..n]) && Affords(text, ps, n)
  {
    hide Affords;
    var n := |ps| - 1;
    forall k | 0 < k < n ensures Affords(text, ps[..n], k) <==> Affords(text, ps, k) { AffordsFront(text, ps, n, k); }
  }

  /** The two are the same exactly when no gap costs more than has been gained. */
  lemma {:induction false} HeldWorth(text: seq<byte>, ps: seq<nat>)
    requires forall i :: 0 <= i < |ps| ==> ps[i] < |text|
    ensures Worth(text, ps) <= Held(text, ps)
    ensures Worth(text, ps) == Held(text, ps) <==> NeverSpent(text, ps)
    decreases |ps|
  {
    hide Weight, NeverSpent;
    if |ps| > 1 {
      HeldWorth(text, ps[..|ps| - 1]);
      SpentNext(text, ps);
    } else {
      SpentFew(text, ps);
    }
  }

  lemma SpentFew(text: seq<byte>, ps: seq<nat>)
    requires (forall i :: 0 <= i < |ps| ==> ps[i] < |text|) && |ps| <= 1
    ensures NeverSpent(text, ps)
  {
  }

  /** The same with each place's own bonus only. */
  function Plain(text: seq<byte>, ps: seq<nat>): int
    requires forall i :: 0 <= i < |ps| ==> ps[i] < |text|
    decreases |ps|
  {
    if ps == [] then 0
    else
      var n := |ps| - 1;
      if n == 0 then 16 + 2 * BonusAt(text, ps[0])
      else Max(0, Plain(text, ps[..n]) - GapCost(Between(ps[n - 1], ps[n]))) + 16 + BonusAt(text, ps[n])
  }

  /** And with each character of a gap at 3. */
  function Least(text: seq<byte>, ps: seq<nat>): int
    requires forall i :: 0 <= i < |ps| ==> ps[i] < |text|
    decreases |ps|
  {
    if ps == [] then 0
    else
      var n := |ps| - 1;
      if n == 0 then 16 + 2 * BonusAt(text, ps[0])
      else Max(0, Least(text, ps[..n]) - 3 * Max(0, Between(ps[n - 1], ps[n]))) + 16 + BonusAt(text, ps[n])
  }
}
