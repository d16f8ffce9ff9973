/** `fzf_exact_match_naive`: substring search that rewinds its own loop index. */
module FuzzyExact {
  import opened Bytes
  import opened FuzzyText
  import opened FuzzyWorth
  import opened FuzzyV1

  /** `pat` stands in `t` from `k` on. */
  predicate Occurs(t: seq<byte>, pat: seq<byte>, k: nat) { k + |pat| <= |t| && t[k..k + |pat|] == pat }

  /** The leftmost of the occurrences whose first character has the greatest bonus. */
  ghost predicate BestOccurrence(text: seq<byte>, t: seq<byte>, pat: seq<byte>, k: nat) {
    && pat != [] && |t| == |text| && Occurs(t, pat, k)
    && (forall j :: 0 <= j < k && Occurs(t, pat, j) ==> BonusAt(text, j) < BonusAt(text, k))
    && (forall j :: k < j && Occurs(t, pat, j) ==> BonusAt(text, j) <= BonusAt(text, k))
  }

  /** What is known when all starts below `start` have been tried. */
  ghost predicate Tried(text: seq<byte>, t: seq<byte>, pat: seq<byte>, start: nat, best: int, bonus: int) {
    && pat != [] && |t| == |text|
    && (if best < 0 then bonus == -1 else best < start && Occurs(t, pat, best) && bonus == BonusAt(text, best))
    && (forall j: nat :: j < start && Occurs(t, pat, j) ==> BonusAt(text, j) <= bonus && BonusAt(text, j) < BONUS_BOUNDARY)
    && (forall j: nat :: j < best && Occurs(t, pat, j) ==> BonusAt(text, j) < bonus)
  }

  lemma TriedMiss(text: seq<byte>, t: seq<byte>, pat: seq<byte>, start: nat, best: int, bonus: int)
    requires Tried(text, t, pat, start, best, bonus) && !Occurs(t, pat, start)
    ensures Tried(text, t, pat, start + 1, best, bonus)
  {
    hide Occurs, BonusAt;
  }

  lemma TriedHit(text: seq<byte>, t: seq<byte>, pat: seq<byte>, start: nat, best: int, bonus: int)
    requires Tried(text, t, pat, start, best, bonus) && Occurs(t, pat, start) && BonusAt(text, start) < BONUS_BOUNDARY
    ensures if BonusAt(text, start) > bonus then Tried(text, t, pat, start + 1, start, BonusAt(text, start)) else Tried(text, t, pat, start + 1, best, bonus)
  {
    hide Occurs, BonusAt;
  }

  /** The early exit at the greatest bonus there is loses nothing. */
  lemma TriedBoundary(text: seq<byte>, t: seq<byte>, pat: seq<byte>, start: nat, best: int, bonus: int)
    requires Tried(text, t, pat, start, best, bonus) && Occurs(t, pat, start) && BonusAt(text, start) == BONUS_BOUNDARY
    ensures BestOccurrence(text, t, pat, start) && bonus < BONUS_BOUNDARY
  {
    hide Occurs, BonusAt;
    if best >= 0 { assert Occurs(t, pat, best); }
  }

  lemma TriedAll(text: seq<byte>, t: seq<byte>, pat: seq<byte>, start: nat, best: int, bonus: int)
    requires Tried(text, t, pat, start, best, bonus) && start + |pat| > |t|
    ensures if best < 0 then forall j: nat :: !Occurs(t, pat, j) else BestOccurrence(text, t, pat, best)
  {
    hide BonusAt;
  }

  lemma OccursMismatch(t: seq<byte>, pat: seq<byte>, start: nat, p: nat)
    requires p < |pat| && start + p < |t| && t[start + p] != pat[p]
    ensures !Occurs(t, pat, start)
  {
    if start + |pat| <= |t| { assert t[start..start + |pat|][p] == t[start + p]; }
  }

  /** The folded text holds the pattern as a subsequence if it holds it as a substring. */
  lemma OccurrenceSpells(t: seq<byte>, pat: seq<byte>, k: nat)
    requires Occurs(t, pat, k)
    ensures var ps := seq(|pat|, i requires 0 <= i < |pat| => k + i); Spells(t, pat, ps, k, k + |pat|)
  {
    var ps := seq(|pat|, i requires 0 <= i < |pat| => k + i);
    forall i | 0 <= i < |ps| ensures t[ps[i]] == pat[i] {
      assert t[k..k + |pat|][i] == t[k + i];
    }
  }

  /** In an occurrence the first places follow one another without a gap. */
  lemma {:induction false} OccurrenceFirsts(t: seq<byte>, pat: seq<byte>, k: nat)
    requires Occurs(t, pat, k)
    ensures |Firsts(t, pat, k)| == |pat| && forall i :: 0 <= i < |pat| ==> Firsts(t, pat, k)[i] == k + i
    decreases |pat|
  {
    if pat != [] {
      assert t[k..k + |pat|][0] == t[k] && t[k..k + |pat|][1..] == t[k + 1..k + |pat|];
      assert First(t, pat[0], k) == k;
      OccurrenceFirsts(t, pat[1..], k + 1);
    }
  }

  /** The loop: tries one start after the other, and keeps the best. */
  method FindOccurrence(caseSensitive: bool, text: seq<byte>, pat: seq<byte>) returns (bestPos: int)
    requires pat != [] && |pat| <= |text|
    ensures var t := FoldAll(caseSensitive, text);
            if bestPos < 0 then forall j: nat :: !Occurs(t, pat, j)
            else bestPos + 1 >= |pat| && BestOccurrence(text, t, pat, bestPos + 1 - |pat|)
  {
    hide Occurs, BonusAt, Tried;
    ghost var t := FoldAll(caseSensitive, text);
    var m, n := |pat|, |text|;
    var pidx := 0;
    bestPos := -1;
    var bonus, bestBonus := 0, -1;
    var idx: nat := 0;
    TriedNone(text, t, pat);
    while idx < n
      invariant pidx < m && pidx <= idx <= n && (pidx > 0 ==> bonus == BonusAt(text, idx - pidx))
      invariant (bestPos < 0 || bestPos + 1 >= m) && Tried(text, t, pat, idx - pidx, if bestPos < 0 then -1 else bestPos + 1 - m, bestBonus)
      invariant t[idx - pidx..idx] == pat[..pidx]
      decreases n - (idx - pidx), m - pidx
    {
      ghost var start, best := idx - pidx, if bestPos < 0 then -1 else bestPos + 1 - m;
      var c := Fold(caseSensitive, text[idx]);
      if c == pat[pidx] {
        if pidx == 0 {
          bonus := BonusAt(text, idx);
        }
        PrefixLonger(t, pat, start, pidx);
        pidx := pidx + 1;
        if pidx == m {
          WholeOccurs(t, pat, start);
          if bonus == BONUS_BOUNDARY {
            TriedBoundary(text, t, pat, start, best, bestBonus);
          } else {
            TriedHit(text, t, pat, start, best, bestBonus);
          }
          if bonus > bestBonus {
            bestPos := idx;
            bestBonus := bonus;
          }
          if bonus == BONUS_BOUNDARY {
            return;
          }
          idx := idx - (pidx - 1);
          pidx := 0;
          bonus := 0;
        }
      } else {
        OccursMismatch(t, pat, start, pidx);
        TriedMiss(text, t, pat, start, best, bestBonus);
        idx := idx - pidx;
        pidx := 0;
        bonus := 0;
      }
      idx := idx + 1;
    }
    TriedAll(text, t, pat, idx - pidx, if bestPos < 0 then -1 else bestPos + 1 - m, bestBonus);
  }

  lemma TriedNone(text: seq<byte>, t: seq<byte>, pat: seq<byte>)
    requires pat != [] && |t| == |text|
    ensures Tried(text, t, pat, 0, -1, -1)
  {
  }

  lemma PrefixLonger(t: seq<byte>, pat: seq<byte>, start: nat, p: nat)
    requires p < |pat| && start + p < |t| && t[start..start + p] == pat[..p] && t[start + p] == pat[p]
    ensures t[start..start + p + 1] == pat[..p + 1]
  {
  }

  lemma WholeOccurs(t: seq<byte>, pat: seq<byte>, start: nat)
    requires start + |pat| <= |t| && t[start..start + |pat|] == pat[..|pat|]
    ensures Occurs(t, pat, start)
  {
  }

  /**
   * `fzf_exact_match_naive`: no match exactly when the pattern is not a substring of the folded text, and
   * otherwise the leftmost of the occurrences with the greatest bonus; the places are those of the window.
   */
  method ExactMatch(caseSensitive: bool, text: seq<byte>, pat: seq<byte>) returns (r: MatchResult, pos: seq<nat>)
    ensures pat == [] ==> r == MatchResult(0, 0, 0) && pos == []
    ensures var t := FoldAll(caseSensitive, text);
            pat != [] ==>
              if r.start < 0 then r == MatchResult(-1, -1, 0) && pos == [] && forall j: nat :: !Occurs(t, pat, j)
              else BestOccurrence(text, t, pat, r.start) && r.end == r.start + |pat| && r.end <= |text|
                   && |pos| == |pat| && (forall i :: 0 <= i < |pat| ==> pos[i] == r.start + i)
                   && Rising(text, pos) && r.score == Worth(text, pos)
  {
    hide Firsts, Occurs, Worth, BonusAt, Spells;
    pos := [];
    if pat == [] {
      return MatchResult(0, 0, 0), [];
    }
    ghost var t := FoldAll(caseSensitive, text);
    if |text| < |pat| {
      TooShort(t, pat);
      return MatchResult(-1, -1, 0), [];
    }
    var idx := AsciiFuzzyIndex(text, pat, caseSensitive);
    if idx < 0 {
      forall j: nat ensures !Occurs(t, pat, j) {
        if Occurs(t, pat, j) { OccurrenceSubsequence(t, pat, j); }
      }
      return MatchResult(-1, -1, 0), [];
    }
    var bestPos := FindOccurrence(caseSensitive, text, pat);
    if bestPos >= 0 {
      var sidx, eidx := bestPos - |pat| + 1, bestPos + 1;
      OccurrenceFirsts(t, pat, sidx);
      OccursInside(t, pat, sidx);
      var score, places := CalculateScore(caseSensitive, text, pat, sidx, eidx);
      pos := InsertRange(sidx, eidx);
      assert pos == places;
      return MatchResult(sidx, eidx, score), pos;
    }
    return MatchResult(-1, -1, 0), [];
  }

  lemma TooShort(t: seq<byte>, pat: seq<byte>)
    requires |t| < |pat|
    ensures forall j: nat :: !Occurs(t, pat, j)
  {
  }

  lemma OccursInside(t: seq<byte>, pat: seq<byte>, k: nat)
    requires Occurs(t, pat, k)
    ensures k + |pat| <= |t|
  {
  }

  lemma OccurrenceSubsequence(t: seq<byte>, pat: seq<byte>, k: nat)
    requires Occurs(t, pat, k)
    ensures IsSubsequence(t, pat, 0, |t|)
  {
    var ps := seq(|pat|, i requires 0 <= i < |pat| => k + i);
    OccurrenceSpells(t, pat, k);
    assert Spells(t, pat, ps, 0, |t|);
  }

  /** `insert_range`. */
  method InsertRange(start: nat, end: nat) returns (pos: seq<nat>)
    requires start <= end
    ensures |pos| == end - start && forall i :: 0 <= i < |pos| ==> pos[i] == start + i
  {
    pos := [];
    for k := start to end
      invariant |pos| == k - start && forall i :: 0 <= i < |pos| ==> pos[i] == start + i
    {
      pos := pos + [k];
    }
  }
}
