/** `fzf_fuzzy_match_v1`: the shortest window found by a forward and a backward scan, and its score. */
module FuzzyV1 {
  import opened Bytes
  import opened FuzzyText
  import opened FuzzyWorth

  datatype MatchResult = MatchResult(start: int, end: int, score: int)

  // ----- the scans -----

  /** At a place between two first places, the scan finds the next character exactly at its first place. */
  lemma {:induction false} NextHit(t: seq<byte>, pat: seq<byte>, from: nat, idx: nat, p: nat)
    requires from <= idx < |t| && p < |pat| && p <= |Firsts(t, pat, from)|
    requires p > 0 ==> Firsts(t, pat, from)[p - 1] < idx
    requires p < |Firsts(t, pat, from)| ==> idx <= Firsts(t, pat, from)[p]
    ensures t[idx] == pat[p] <==> p < |Firsts(t, pat, from)| && Firsts(t, pat, from)[p] == idx
    decreases p
  {
    var k := First(t, pat[0], from);
    if p > 0 && k < |t| {
      var rest := Firsts(t, pat[1..], k + 1);
      assert Firsts(t, pat, from) == [k] + rest;
      FirstsStart(t, pat, from, p);
      NextHit(t, pat[1..], k + 1, idx, p - 1);
    }
  }

  lemma FirstsStart(t: seq<byte>, pat: seq<byte>, from: nat, p: nat)
    requires from <= |t| && 0 < p <= |Firsts(t, pat, from)|
    ensures Firsts(t, pat, from)[0] <= Firsts(t, pat, from)[p - 1]
  {
    FirstsSpell(t, pat, from);
    if p > 1 { assert Firsts(t, pat, from)[0] < Firsts(t, pat, from)[p - 1]; }
  }

  /** The same for the backward scan and the last places. */
  lemma {:induction false} PrevHit(t: seq<byte>, pat: seq<byte>, end: nat, idx: nat, p: nat)
    requires idx < end <= |t| && p < |pat| && |Lasts(t, pat, end)| == |pat|
    requires p + 1 < |pat| ==> idx < Lasts(t, pat, end)[p + 1]
    requires Lasts(t, pat, end)[p] <= idx
    ensures t[idx] == pat[p] <==> Lasts(t, pat, end)[p] == idx
    decreases |pat|
  {
    var n := |pat| - 1;
    var k: nat := Last(t, pat[n], end);
    var rest := Lasts(t, pat[..n], k);
    assert Lasts(t, pat, end) == rest + [k];
    if p < n {
      LastsSpell(t, pat, end);
      PrevHit(t, pat[..n], k, idx, p);
    }
  }

  /** The window that the two scans find. */
  lemma WindowFacts(t: seq<byte>, pat: seq<byte>)
    requires pat != [] && |Firsts(t, pat, 0)| == |pat|
    ensures var m, ps := |pat|, Firsts(t, pat, 0);
            var end := ps[m - 1] + 1;
            && end <= |t| && |Lasts(t, pat, end)| == m
            && ps[0] <= Lasts(t, pat, end)[0] < end
            && Spells(t, pat, Lasts(t, pat, end), Lasts(t, pat, end)[0], end)
  {
    hide Firsts, Lasts;
    var m, ps := |pat|, Firsts(t, pat, 0);
    FirstsSpell(t, pat, 0);
    assert pat[..m] == pat;
    var end := ps[m - 1] + 1;
    FirstsBelow(t, pat, ps, m);
    LastsGreatest(t, pat, ps, 0, end);
    LastsSpell(t, pat, end);
    SpellsFromFirst(t, pat, Lasts(t, pat, end), end);
  }

  lemma FirstsBelow(t: seq<byte>, pat: seq<byte>, ps: seq<nat>, m: nat)
    requires m == |pat| > 0 && Spells(t, pat, ps, 0, |t|)
    ensures Spells(t, pat, ps, 0, ps[m - 1] + 1)
  {
    forall k | 0 <= k < m ensures ps[k] <= ps[m - 1] {
      if k < m - 1 { assert ps[k] < ps[m - 1]; }
    }
  }

  lemma SpellsFromFirst(t: seq<byte>, pat: seq<byte>, ps: seq<nat>, end: nat)
    requires pat != [] && Spells(t, pat, ps, 0, end)
    ensures Spells(t, pat, ps, ps[0], end)
  {
    forall k | 0 <= k < |ps| ensures ps[0] <= ps[k] {
      if k > 0 { assert ps[0] < ps[k]; }
    }
  }

  /** No shorter prefix of the text holds the pattern, and no later start is possible for that end. */
  lemma WindowTight(t: seq<byte>, pat: seq<byte>)
    requires pat != [] && |Firsts(t, pat, 0)| == |pat|
    ensures var end := Firsts(t, pat, 0)[|pat| - 1] + 1;
            && end <= |t| && |Lasts(t, pat, end)| == |pat|
            && !IsSubsequence(t, pat, 0, end - 1)
            && !IsSubsequence(t, pat, Lasts(t, pat, end)[0] + 1, end)
            && IsSubsequence(t, pat, Lasts(t, pat, end)[0], end)
  {
    hide Firsts, Lasts;
    WindowFacts(t, pat);
    var end := Firsts(t, pat, 0)[|pat| - 1] + 1;
    var start := Lasts(t, pat, end)[0];
    if IsSubsequence(t, pat, 0, end - 1) {
      var ps :| Spells(t, pat, ps, 0, end - 1);
      FirstsLeast(t, pat, ps, 0, end - 1);
    }
    if IsSubsequence(t, pat, start + 1, end) {
      var ps :| Spells(t, pat, ps, start + 1, end);
      LastsGreatest(t, pat, ps, start + 1, end);
    }
  }

  /** The first places from the start of the window on end where the window ends. */
  lemma WindowFirsts(t: seq<byte>, pat: seq<byte>)
    requires pat != [] && |Firsts(t, pat, 0)| == |pat|
    ensures var end := Firsts(t, pat, 0)[|pat| - 1] + 1;
            && end <= |t| && |Lasts(t, pat, end)| == |pat|
            && var start := Lasts(t, pat, end)[0];
            && start < end && |Firsts(t, pat, start)| == |pat|
            && Firsts(t, pat, start)[0] == start && Firsts(t, pat, start)[|pat| - 1] == end - 1
  {
    hide Firsts, Lasts;
    WindowFacts(t, pat);
    var m := |pat|;
    var end := Firsts(t, pat, 0)[m - 1] + 1;
    var ls := Lasts(t, pat, end);
    var start := ls[0];
    FirstsLeast(t, pat, ls, start, end);
    FirstsSpell(t, pat, start);
    assert pat[..m] == pat;
    FirstsLeast(t, pat, Firsts(t, pat, start), 0, |t|);
  }

  // ----- the score -----

  /** The running score before `idx`: the worth of the places so far, less the gap in front of them and the one behind. */
  function Running(text: seq<byte>, sidx: int, pos: seq<nat>, idx: int): int
    requires forall i :: 0 <= i < |pos| ==> pos[i] < |text|
  {
    if pos == [] then -GapCost(idx - sidx)
    else Worth(text, pos) - GapCost(pos[0] - sidx) - GapCost(Between(pos[|pos| - 1], idx))
  }

  /** The other variables of the loop, in the same terms. */
  ghost predicate Counters(text: seq<byte>, sidx: nat, pos: seq<nat>, idx: nat, consecutive: int, inGap: bool, firstBonus: int) {
    && sidx <= idx <= |text| && Rising(text, pos) && (pos != [] ==> sidx <= pos[0] && pos[|pos| - 1] < idx)
    && (inGap <==> idx > if pos == [] then sidx else pos[|pos| - 1] + 1)
    && consecutive >= 0 && (consecutive > 0 <==> pos != [] && !inGap)
    && (consecutive > 0 ==> firstBonus == RunBonus(text, pos, |pos| - 1))
  }

  lemma RunningHit(text: seq<byte>, sidx: nat, pos: seq<nat>, idx: nat, consecutive: int, inGap: bool, firstBonus: int)
    requires Counters(text, sidx, pos, idx, consecutive, inGap, firstBonus) && idx < |text|
    ensures var b := BonusAt(text, idx);
            var first := if consecutive == 0 || b == 8 then b else firstBonus;
            var bonus := if consecutive == 0 then b else Max(Max(b, first), 4);
            && Counters(text, sidx, pos + [idx], idx + 1, consecutive + 1, false, first)
            && Running(text, sidx, pos + [idx], idx + 1) == Running(text, sidx, pos, idx) + 16 + (if pos == [] then 2 * bonus else bonus)
  {
    hide BonusAt, RunBonus, Worth;
    hide RunFrom;
    WorthNext(text, pos, idx);
    RunBonusNext(text, pos, idx);
    RisingMore(text, pos, idx);
    var l, b := pos + [idx], BonusAt(text, idx);
    assert l[|l| - 1] == idx && (pos != [] ==> l[0] == pos[0]);
    assert consecutive > 0 <==> Adjacent(pos, idx);
    var first := if consecutive == 0 || b == 8 then b else firstBonus;
    assert RunBonus(text, l, |l| - 1) == first;
  }

  lemma RisingMore(text: seq<byte>, pos: seq<nat>, idx: nat)
    requires Rising(text, pos) && (pos != [] ==> pos[|pos| - 1] < idx) && idx < |text|
    ensures Rising(text, pos + [idx])
  {
    forall j, k | 0 <= j < k < |pos + [idx]| ensures (pos + [idx])[j] < (pos + [idx])[k] {
      if k == |pos| && j < |pos| - 1 { assert pos[j] < pos[|pos| - 1]; }
    }
  }

  lemma RunningMiss(text: seq<byte>, sidx: nat, pos: seq<nat>, idx: nat, consecutive: int, inGap: bool, firstBonus: int)
    requires Counters(text, sidx, pos, idx, consecutive, inGap, firstBonus) && idx < |text|
    ensures Counters(text, sidx, pos, idx + 1, 0, true, 0)
    ensures Running(text, sidx, pos, idx + 1) == Running(text, sidx, pos, idx) - (if inGap then 1 else 3)
  {
    hide BonusAt, RunBonus, Worth;
  }

  /** Between the first places: the pattern is not used up before the last one. */
  ghost predicate Before(ps: seq<nat>, pidx: nat, idx: nat) {
    pidx <= |ps| && (pidx > 0 ==> ps[pidx - 1] < idx) && (pidx < |ps| ==> idx <= ps[pidx])
  }

  lemma BeforeStep(t: seq<byte>, pat: seq<byte>, from: nat, pidx: nat, idx: nat)
    requires from <= |t| && var ps := Firsts(t, pat, from); |ps| == |pat| > 0 && Before(ps, pidx, idx) && from <= idx <= ps[|pat| - 1]
    ensures var ps := Firsts(t, pat, from);
            && pidx < |pat| && idx < |t|
            && (if t[idx] == pat[pidx] then ps[pidx] == idx && Before(ps, pidx + 1, idx + 1) else Before(ps, pidx, idx + 1))
  {
    hide Firsts;
    var ps := Firsts(t, pat, from);
    FirstsSpell(t, pat, from);
    NextHit(t, pat, from, idx, pidx);
    if pidx + 1 < |pat| { assert ps[pidx] < ps[pidx + 1]; }
  }

  lemma RunningStart(text: seq<byte>, sidx: nat)
    requires sidx <= |text|
    ensures Counters(text, sidx, [], sidx, 0, false, 0) && Running(text, sidx, [], sidx) == 0
  {
  }

  lemma RunningEnd(text: seq<byte>, sidx: nat, pos: seq<nat>, idx: nat, consecutive: int, inGap: bool, firstBonus: int)
    requires Counters(text, sidx, pos, idx, consecutive, inGap, firstBonus) && pos != [] && pos[|pos| - 1] == idx - 1
    ensures Rising(text, pos) && Running(text, sidx, pos, idx) == Worth(text, pos) - GapCost(pos[0] - sidx)
  {
    hide Worth;
  }

  lemma BonusHere(text: seq<byte>, idx: nat, prev: CharClass)
    requires idx < |text| && prev == if idx > 0 then ClassOf(text[idx - 1]) else NonWord
    ensures BonusAt(text, idx) == BonusFor(prev, ClassOf(text[idx]))
  {
  }

  /**
   * `calculate_score` on a window that the pattern spells: it uses up the pattern exactly at the last
   * character, and records the first places from the start of the window on. The score is what they are worth,
   * less the gap in front of the first.
   */
  method CalculateScore(caseSensitive: bool, text: seq<byte>, pat: seq<byte>, sidx: nat, eidx: nat) returns (score: int, pos: seq<nat>)
    requires pat != [] && sidx < eidx <= |text|
    requires var ps := Firsts(FoldAll(caseSensitive, text), pat, sidx); |ps| == |pat| && ps[|pat| - 1] == eidx - 1
    ensures pos == Firsts(FoldAll(caseSensitive, text), pat, sidx) && Rising(text, pos)
    ensures score == Worth(text, pos) - GapCost(pos[0] - sidx)
  {
    hide Firsts, BonusFor, ClassOf, Before, Counters, Running;
    ghost var t := FoldAll(caseSensitive, text);
    ghost var ps := Firsts(t, pat, sidx);
    var pidx, consecutive, inGap, firstBonus := 0, 0, false, 0;
    score, pos := 0, [];
    var prevClass := NonWord;
    if sidx > 0 {
      prevClass := ClassOf(text[sidx - 1]);
    }
    RunningStart(text, sidx);
    BeforeStart(t, pat, sidx);
    for idx := sidx to eidx
      invariant Counters(text, sidx, pos, idx, consecutive, inGap, firstBonus)
      invariant (forall i :: 0 <= i < |pos| ==> pos[i] < |text|) && score == Running(text, sidx, pos, idx)
      invariant prevClass == if idx > 0 then ClassOf(text[idx - 1]) else NonWord
      invariant pidx <= |ps| && pos == ps[..pidx] && Before(ps, pidx, idx)
    {
      BeforeStep(t, pat, sidx, pidx, idx);
      BonusHere(text, idx, prevClass);
      RunningHit(text, sidx, pos, idx, consecutive, inGap, firstBonus);
      RunningMiss(text, sidx, pos, idx, consecutive, inGap, firstBonus);
      var cls := ClassOf(text[idx]);
      var c := Fold(caseSensitive, text[idx]);
      if c == pat[pidx] {
        pos := pos + [idx];
        score := score + SCORE_MATCH;
        var bonus := BonusFor(prevClass, cls);
        if consecutive == 0 {
          firstBonus := bonus;
        } else {
          if bonus == BONUS_BOUNDARY {
            firstBonus := bonus;
          }
          bonus := Max(Max(bonus, firstBonus), BONUS_CONSECUTIVE);
        }
        if pidx == 0 {
          score := score + bonus * 2;
        } else {
          score := score + bonus;
        }
        inGap := false;
        consecutive := consecutive + 1;
        pidx := pidx + 1;
      } else {
        score := score + if inGap then GAP_EXTENSION else GAP_START;
        inGap, consecutive, firstBonus := true, 0, 0;
      }
      prevClass := cls;
    }
    BeforeEnd(t, pat, sidx, pidx, eidx);
    RunningEnd(text, sidx, pos, eidx, consecutive, inGap, firstBonus);
  }

  lemma BeforeStart(t: seq<byte>, pat: seq<byte>, from: nat)
    requires from <= |t|
    ensures Before(Firsts(t, pat, from), 0, from)
  {
  }

  lemma BeforeEnd(t: seq<byte>, pat: seq<byte>, from: nat, pidx: nat, idx: nat)
    requires from <= |t| && var ps := Firsts(t, pat, from); |ps| == |pat| > 0 && Before(ps, pidx, idx) && ps[|pat| - 1] == idx - 1
    ensures pidx == |pat| && Firsts(t, pat, from)[..pidx] == Firsts(t, pat, from)
  {
    hide Firsts;
    var ps := Firsts(t, pat, from);
    FirstsSpell(t, pat, from);
  }

  // ----- the match -----

  /** What a match of `pat` is: the least end, the greatest start for it, and the places of the characters. */
  ghost predicate ShortestWindow(t: seq<byte>, pat: seq<byte>, start: int, end: int, pos: seq<nat>) {
    && pat != [] && 0 <= start < end <= |t|
    && Spells(t, pat, pos, start, end) && pos[0] == start && pos[|pat| - 1] == end - 1
    && !IsSubsequence(t, pat, 0, end - 1) && !IsSubsequence(t, pat, start + 1, end)
  }

  /** There is only one such window. */
  lemma WindowUnique(t: seq<byte>, pat: seq<byte>, s1: int, e1: int, ps1: seq<nat>, s2: int, e2: int, ps2: seq<nat>)
    requires ShortestWindow(t, pat, s1, e1, ps1) && ShortestWindow(t, pat, s2, e2, ps2)
    ensures s1 == s2 && e1 == e2
  {
    WindowOrder(t, pat, s1, e1, ps1, s2, e2, ps2);
    WindowOrder(t, pat, s2, e2, ps2, s1, e1, ps1);
  }

  lemma WindowOrder(t: seq<byte>, pat: seq<byte>, s1: int, e1: int, ps1: seq<nat>, s2: int, e2: int, ps2: seq<nat>)
    requires ShortestWindow(t, pat, s1, e1, ps1) && ShortestWindow(t, pat, s2, e2, ps2)
    ensures e2 <= e1 && (e1 == e2 ==> s1 <= s2)
  {
    if e1 < e2 { assert Spells(t, pat, ps1, 0, e2 - 1); }
    if e1 == e2 && s2 < s1 { assert Spells(t, pat, ps1, s2 + 1, e2); }
  }

  /** The forward scan: the least end of a prefix that holds the pattern, if there is one. */
  method ScanForward(caseSensitive: bool, text: seq<byte>, pat: seq<byte>) returns (sidx: int, eidx: int)
    requires pat != []
    ensures var ps := Firsts(FoldAll(caseSensitive, text), pat, 0);
            if |ps| == |pat| then sidx == ps[0] && eidx == ps[|pat| - 1] + 1 else eidx == -1
  {
    hide Firsts;
    ghost var t := FoldAll(caseSensitive, text);
    ghost var ps := Firsts(t, pat, 0);
    FirstsSpell(t, pat, 0);
    var pidx := 0;
    sidx, eidx := -1, -1;
    for idx := 0 to |text|
      invariant pidx < |pat| && pidx <= |ps| && eidx == -1 && (if pidx == 0 then sidx == -1 else sidx == ps[0])
      invariant (pidx > 0 ==> ps[pidx - 1] < idx) && (pidx < |ps| ==> idx <= ps[pidx])
    {
      NextHit(t, pat, 0, idx, pidx);
      var c := Fold(caseSensitive, text[idx]);
      if c == pat[pidx] {
        if sidx < 0 {
          sidx := idx;
        }
        pidx := pidx + 1;
        if pidx == |pat| {
          eidx := idx + 1;
          break;
        }
        if pidx < |ps| { assert ps[pidx - 1] < ps[pidx]; }
      }
    }
  }

  /** The backward scan: it ends at the greatest possible start and never runs past the first hit. */
  method ScanBackward(caseSensitive: bool, text: seq<byte>, pat: seq<byte>, sidx: nat, end: nat) returns (start: nat)
    requires pat != [] && |Firsts(FoldAll(caseSensitive, text), pat, 0)| == |pat|
    requires sidx == Firsts(FoldAll(caseSensitive, text), pat, 0)[0] && end == Firsts(FoldAll(caseSensitive, text), pat, 0)[|pat| - 1] + 1
    ensures end <= |text| && |Lasts(FoldAll(caseSensitive, text), pat, end)| == |pat| && start == Lasts(FoldAll(caseSensitive, text), pat, end)[0]
  {
    hide Firsts, Lasts;
    ghost var t := FoldAll(caseSensitive, text);
    WindowFacts(t, pat);
    ghost var ls := Lasts(t, pat, end);
    start := sidx;
    var pidx := |pat| - 1;
    var idx: int := end - 1;
    while idx >= start
      invariant start == sidx && 0 <= pidx < |pat| && idx < end && ls[pidx] <= idx && (pidx + 1 < |pat| ==> idx < ls[pidx + 1])
      decreases idx
    {
      PrevHit(t, pat, end, idx, pidx);
      var c := Fold(caseSensitive, text[idx]);
      if c == pat[pidx] {
        pidx := pidx - 1;
        if pidx < 0 {
          start := idx;
          break;
        }
        assert ls[pidx] < ls[pidx + 1];
      }
      idx := idx - 1;
    }
  }

  /** What `fzf_fuzzy_match_v1` returns. */
  ghost predicate Answers1(caseSensitive: bool, text: seq<byte>, pat: seq<byte>, r: MatchResult, pos: seq<nat>) {
    var t := FoldAll(caseSensitive, text);
    if pat == [] then r == MatchResult(0, 0, 0) && pos == []
    else if !IsSubsequence(t, pat, 0, |t|) then r == MatchResult(-1, -1, 0) && pos == []
    else
      && 0 <= r.start <= |t| && ShortestWindow(t, pat, r.start, r.end, pos) && pos == Firsts(t, pat, r.start)
      && Rising(text, pos) && r.score == Worth(text, pos)
  }

  /** With case ignored, texts that differ only in the case of their letters match alike, at the same places. */
  lemma CaseAlike(text1: seq<byte>, text2: seq<byte>, pat: seq<byte>, r1: MatchResult, pos1: seq<nat>, r2: MatchResult, pos2: seq<nat>)
    requires Lowered(text1) == Lowered(text2)
    requires Answers1(false, text1, pat, r1, pos1) && Answers1(false, text2, pat, r2, pos2)
    ensures r1.start == r2.start && r1.end == r2.end && pos1 == pos2
  {
    hide ShortestWindow, Firsts, IsSubsequence, Worth, FoldAll, Lowered;
    FoldMeans(text1);
    FoldMeans(text2);
    var t := FoldAll(false, text1);
    if pat != [] && IsSubsequence(t, pat, 0, |t|) {
      WindowUnique(t, pat, r1.start, r1.end, pos1, r2.start, r2.end, pos2);
    }
  }

  /**
   * `fzf_fuzzy_match_v1`: it matches exactly when the folded text contains the pattern as a subsequence,
   * and returns the shortest window in the sense above, with the places of the characters and the score.
   */
  method FuzzyMatchV1(caseSensitive: bool, text: seq<byte>, pat: seq<byte>) returns (r: MatchResult, pos: seq<nat>)
    ensures Answers1(caseSensitive, text, pat, r, pos)
  {
    hide Firsts, Lasts, IsSubsequence, Worth, Rising, HitSpells;
    pos := [];
    if pat == [] {
      return MatchResult(0, 0, 0), [];
    }
    ghost var t := FoldAll(caseSensitive, text);
    FirstsDecide(t, pat, 0);
    var idx := AsciiFuzzyIndex(text, pat, caseSensitive);
    if idx < 0 {
      return MatchResult(-1, -1, 0), [];
    }
    var sidx, eidx := ScanForward(caseSensitive, text, pat);
    if sidx >= 0 && eidx >= 0 {
      var start := ScanBackward(caseSensitive, text, pat, sidx, eidx);
      WindowFirsts(t, pat);
      WindowShortest(t, pat, start);
      var score: int;
      score, pos := CalculateScore(caseSensitive, text, pat, start, eidx);
      return MatchResult(start, eidx, score), pos;
    }
    return MatchResult(-1, -1, 0), [];
  }

  lemma WindowShortest(t: seq<byte>, pat: seq<byte>, start: nat)
    requires pat != [] && |Firsts(t, pat, 0)| == |pat|
    requires var end := Firsts(t, pat, 0)[|pat| - 1] + 1;
             end <= |t| && |Lasts(t, pat, end)| == |pat| && start == Lasts(t, pat, end)[0] && start <= |t|
    ensures ShortestWindow(t, pat, start, Firsts(t, pat, 0)[|pat| - 1] + 1, Firsts(t, pat, start))
  {
    hide Firsts, Lasts, IsSubsequence, Spells;
    WindowFirsts(t, pat);
    WindowTight(t, pat);
    FirstsSpell(t, pat, start);
    assert pat[..|pat|] == pat;
    SpellsBelow(t, pat, Firsts(t, pat, start), start);
  }

  lemma SpellsBelow(t: seq<byte>, pat: seq<byte>, ps: seq<nat>, from: nat)
    requires pat != [] && Spells(t, pat, ps, from, |t|)
    ensures Spells(t, pat, ps, from, ps[|pat| - 1] + 1)
  {
    forall k | 0 <= k < |ps| ensures ps[k] <= ps[|pat| - 1] {
      if k < |pat| - 1 { assert ps[k] < ps[|pat| - 1]; }
    }
  }
}
