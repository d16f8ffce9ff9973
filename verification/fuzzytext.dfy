/** Characters, bonuses and subsequences for the fuzzy matcher. */
module FuzzyText {
  import opened Bytes

  // ----- characters -----

  predicate IsUpper(b: byte) { 0x41 <= b <= 0x5a }

  predicate IsLower(b: byte) { 0x61 <= b <= 0x7a }

  predicate IsDigit(b: byte) { 0x30 <= b <= 0x39 }

  /** A character as it is compared: lower-cased, unless case matters. */
  function Fold(caseSensitive: bool, b: byte): byte { if !caseSensitive && IsUpper(b) then b + 32 else b }

  function FoldAll(caseSensitive: bool, s: seq<byte>): (t: seq<byte>)
    ensures |t| == |s| && forall k :: 0 <= k < |s| ==> t[k] == Fold(caseSensitive, s[k])
  {
    seq(|s|, k requires 0 <= k < |s| => Fold(caseSensitive, s[k]))
  }

  /** The text with 32 added to each of the bytes 0x41 to 0x5a. */
  function Lowered(s: seq<byte>): (t: seq<byte>)
    ensures |t| == |s|
  {
    seq(|s|, k requires 0 <= k < |s| => if 0x41 <= s[k] <= 0x5a then s[k] + 32 else s[k])
  }

  /** With case ignored a text is compared in lower case, otherwise as it is. */
  lemma FoldMeans(s: seq<byte>)
    ensures FoldAll(false, s) == Lowered(s) && FoldAll(true, s) == s
  {
  }

  datatype CharClass = NonWord | LowerCase | UpperCase | Number

  /** `char_class_of`. */
  function ClassOf(b: byte): CharClass {
    if IsLower(b) then LowerCase else if IsUpper(b) then UpperCase else if IsDigit(b) then Number else NonWord
  }

  const SCORE_MATCH: int := 16
  const GAP_START: int := -3
  const GAP_EXTENSION: int := -1
  const BONUS_BOUNDARY: int := 8
  const BONUS_CAMEL: int := 7
  const BONUS_CONSECUTIVE: int := 4

  /** `bonus_for`. */
  function BonusFor(prev: CharClass, cur: CharClass): (b: int)
    ensures 0 <= b <= BONUS_BOUNDARY
  {
    if prev == NonWord && cur != NonWord then BONUS_BOUNDARY
    else if (prev == LowerCase && cur == UpperCase) || (prev != Number && cur == Number) then BONUS_CAMEL
    else if cur == NonWord then BONUS_BOUNDARY
    else 0
  }

  /** `bonus_at`. */
  function BonusAt(text: seq<byte>, k: nat): (b: int)
    requires k < |text|
    ensures 0 <= b <= BONUS_BOUNDARY
  {
    if k == 0 then BONUS_BOUNDARY else BonusFor(ClassOf(text[k - 1]), ClassOf(text[k]))
  }

  predicate Word(b: byte) { 0x30 <= b <= 0x39 || 0x41 <= b <= 0x5a || 0x61 <= b <= 0x7a }

  /**
   * The bonus of a place by the bytes there and before it: 8 at the start, next to a character that is neither
   * letter nor digit, or on one; 7 where a capital follows a small letter or a digit a letter; otherwise none.
   */
  lemma BonusMeans(text: seq<byte>, k: nat)
    requires k < |text|
    ensures BonusAt(text, k) ==
              if k == 0 || !Word(text[k - 1]) || !Word(text[k]) then 8
              else if 0x61 <= text[k - 1] <= 0x7a && 0x41 <= text[k] <= 0x5a then 7
              else if !(0x30 <= text[k - 1] <= 0x39) && 0x30 <= text[k] <= 0x39 then 7
              else 0
  {
  }

  function Max(x: int, y: int): int { if x > y then x else y }

  // ----- subsequences -----

  /** `ps` are increasing places of `t`, below `end`, that spell `pat`. */
  ghost predicate Spells(t: seq<byte>, pat: seq<byte>, ps: seq<nat>, from: nat, end: nat) {
    && |ps| == |pat| && end <= |t|
    && (forall k :: 0 <= k < |ps| ==> from <= ps[k] < end && t[ps[k]] == pat[k])
    && (forall j, k :: 0 <= j < k < |ps| ==> ps[j] < ps[k])
  }

  /** `pat` is a subsequence of `t[from..end]`. */
  ghost predicate IsSubsequence(t: seq<byte>, pat: seq<byte>, from: nat, end: nat) {
    exists ps :: Spells(t, pat, ps, from, end)
  }

  /** The first place of `b` from `from` on, or the length of `t`. */
  function First(t: seq<byte>, b: byte, from: nat): (k: nat)
    requires from <= |t|
    ensures from <= k <= |t| && (k < |t| ==> t[k] == b) && forall j :: from <= j < k ==> t[j] != b
    decreases |t| - from
  {
    if from == |t| || t[from] == b then from else First(t, b, from + 1)
  }

  /** The first place of each character of `pat` behind that of the one before, as far as there is one. */
  function Firsts(t: seq<byte>, pat: seq<byte>, from: nat): (ps: seq<nat>)
    requires from <= |t|
    ensures |ps| <= |pat|
    decreases |pat|
  {
    if pat == [] then []
    else
      var k := First(t, pat[0], from);
      if k == |t| then [] else [k] + Firsts(t, pat[1..], k + 1)
  }

  lemma {:induction false} FirstsSpell(t: seq<byte>, pat: seq<byte>, from: nat)
    requires from <= |t|
    ensures Spells(t, pat[..|Firsts(t, pat, from)|], Firsts(t, pat, from), from, |t|)
    decreases |pat|
  {
    if pat != [] {
      var k := First(t, pat[0], from);
      if k < |t| {
        FirstsSpell(t, pat[1..], k + 1);
        var rest := Firsts(t, pat[1..], k + 1);
        var ps := [k] + rest;
        assert pat[..|ps|][1..] == pat[1..][..|rest|];
        forall i | 0 <= i < |ps| ensures from <= ps[i] < |t| && t[ps[i]] == pat[i] && (i > 0 ==> ps[0] < ps[i]) {
          if i > 0 { assert ps[i] == rest[i - 1] && pat[1..][..|rest|][i - 1] == pat[i]; }
        }
      }
    }
  }

  /** No spelling of `pat` is anywhere ahead of the first one. */
  lemma {:induction false} FirstsLeast(t: seq<byte>, pat: seq<byte>, ps: seq<nat>, from: nat, end: nat)
    requires Spells(t, pat, ps, from, end) && from <= |t|
    ensures |Firsts(t, pat, from)| == |pat|
    ensures forall k :: 0 <= k < |pat| ==> Firsts(t, pat, from)[k] <= ps[k]
    decreases |pat|
  {
    if pat != [] {
      var k := First(t, pat[0], from);
      assert t[ps[0]] == pat[0] && k <= ps[0];
      FirstsLeast(t, pat[1..], ps[1..], k + 1, end);
      var rest := Firsts(t, pat[1..], k + 1);
      forall i | 0 <= i < |pat| ensures ([k] + rest)[i] <= ps[i] {
        if i > 0 { assert rest[i - 1] <= ps[1..][i - 1]; }
      }
    }
  }

  /** `pat` is a subsequence exactly when there is a first place for each of its characters. */
  lemma FirstsDecide(t: seq<byte>, pat: seq<byte>, from: nat)
    requires from <= |t|
    ensures IsSubsequence(t, pat, from, |t|) <==> |Firsts(t, pat, from)| == |pat|
  {
    hide Firsts, Spells;
    FirstsSpell(t, pat, from);
    if |Firsts(t, pat, from)| == |pat| {
      assert pat[..|pat|] == pat;
    }
    if IsSubsequence(t, pat, from, |t|) {
      var ps :| Spells(t, pat, ps, from, |t|);
      FirstsLeast(t, pat, ps, from, |t|);
    }
  }

  /** The last place of `b` below `end`, or -1. */
  function Last(t: seq<byte>, b: byte, end: nat): (k: int)
    requires end <= |t|
    ensures -1 <= k < end && (k >= 0 ==> t[k] == b) && forall j :: k < j < end ==> t[j] != b
    decreases end
  {
    if end == 0 then -1 else if t[end - 1] == b then end - 1 else Last(t, b, end - 1)
  }

  /** The last place of the last character of `pat` below `end`, of the one before it below that, and so on; none if one is missing. */
  function Lasts(t: seq<byte>, pat: seq<byte>, end: nat): (ps: seq<nat>)
    requires end <= |t|
    ensures |ps| == |pat| || ps == []
    decreases |pat|
  {
    if pat == [] then []
    else
      var k := Last(t, pat[|pat| - 1], end);
      if k < 0 then []
      else
        var rest := Lasts(t, pat[..|pat| - 1], k);
        if |rest| == |pat| - 1 then rest + [k as nat] else []
  }

  lemma {:induction false} LastsSpell(t: seq<byte>, pat: seq<byte>, end: nat)
    requires end <= |t| && |Lasts(t, pat, end)| == |pat|
    ensures Spells(t, pat, Lasts(t, pat, end), 0, end)
    decreases |pat|
  {
    if pat != [] {
      var k: nat := Last(t, pat[|pat| - 1], end);
      var front := pat[..|pat| - 1];
      LastsSpell(t, front, k);
    }
  }

  /** No spelling of `pat` below `end` is anywhere behind the last one. */
  lemma {:induction false} LastsGreatest(t: seq<byte>, pat: seq<byte>, ps: seq<nat>, from: nat, end: nat)
    requires Spells(t, pat, ps, from, end)
    ensures |Lasts(t, pat, end)| == |pat|
    ensures forall k :: 0 <= k < |pat| ==> ps[k] <= Lasts(t, pat, end)[k]
    decreases |pat|
  {
    if pat != [] {
      var n := |pat| - 1;
      var k := Last(t, pat[n], end);
      assert t[ps[n]] == pat[n] && ps[n] <= k;
      LastsGreatest(t, pat[..n], ps[..n], from, k);
      forall i | 0 <= i < |pat| ensures ps[i] <= Lasts(t, pat, end)[i] {
        if i < n { assert ps[..n][i] == ps[i]; }
      }
    }
  }

  // ----- the prefilter -----

  /** What the prefilter takes for a match of the pattern character `b`. */
  predicate Hits(caseSensitive: bool, c: byte, b: byte) { c == b || (!caseSensitive && IsLower(b) && c == b - 32) }

  /** No byte of the pattern is a capital letter. */
  predicate NoCapitals(pat: seq<byte>) { forall k :: 0 <= k < |pat| ==> !(0x41 <= pat[k] <= 0x5a) }

  /** Except for capital letters in the pattern, it hits exactly what matches when folded. */
  lemma HitsMeans(caseSensitive: bool, c: byte, b: byte)
    ensures !(0x41 <= b <= 0x5a) ==> (Hits(false, c, b) <==> Fold(false, c) == b)
    ensures Hits(true, c, b) <==> c == b
    ensures Hits(false, c, b) <==> c == b || (0x61 <= b <= 0x7a && c + 32 == b)
  {
  }

  /** So the places that hit such a pattern are those that spell it in the folded text. */
  lemma HitsSpell(caseSensitive: bool, text: seq<byte>, pat: seq<byte>, ps: seq<nat>)
    requires caseSensitive || NoCapitals(pat)
    ensures HitSpells(caseSensitive, text, pat, ps) <==> Spells(FoldAll(caseSensitive, text), pat, ps, 0, |text|)
  {
    hide Hits, Fold, FoldAll;
    forall k | 0 <= k < |ps| && |ps| == |pat| && ps[k] < |text|
      ensures Hits(caseSensitive, text[ps[k]], pat[k]) <==> Fold(caseSensitive, text[ps[k]]) == pat[k]
    {
      HitsMeans(caseSensitive, text[ps[k]], pat[k]);
      if caseSensitive { FoldExact(text[ps[k]]); }
    }
  }

  lemma FoldExact(c: byte)
    ensures Fold(true, c) == c
  {
  }

  /** `index_byte` on `text[from..end]`: the place in the slice, or -1. */
  method IndexByte(text: seq<byte>, from: nat, end: nat, b: byte) returns (k: int)
    requires from <= end <= |text|
    ensures -1 <= k < end - from
    ensures k >= 0 ==> text[from + k] == b && forall j :: from <= j < from + k ==> text[j] != b
    ensures k < 0 ==> forall j :: from <= j < end ==> text[j] != b
  {
    for i := 0 to end - from
      invariant forall j :: from <= j < from + i ==> text[j] != b
    {
      if text[from + i] == b {
        return i;
      }
    }
    return -1;
  }

  /** `try_skip`: the first place from `from` on that hits `b`, or -1. */
  method TrySkip(text: seq<byte>, caseSensitive: bool, b: byte, from: nat) returns (k: int)
    requires from <= |text|
    ensures k < 0 ==> k == -1 && forall j :: from <= j < |text| ==> !Hits(caseSensitive, text[j], b)
    ensures k >= 0 ==> from <= k < |text| && Hits(caseSensitive, text[k], b) && forall j :: from <= j < k ==> !Hits(caseSensitive, text[j], b)
  {
    var end := |text|;
    var idx := IndexByte(text, from, end, b);
    if idx == 0 {
      return from;
    }
    if !caseSensitive && IsLower(b) {
      if idx > 0 {
        end := from + idx;
      }
      var uidx := IndexByte(text, from, end, b - 32);
      if uidx >= 0 {
        idx := uidx;
      }
    }
    if idx < 0 {
      return -1;
    }
    return from + idx;
  }

  /** The first place that hits `b`, or the length of the text. */
  function FirstHit(caseSensitive: bool, text: seq<byte>, b: byte, from: nat): (k: nat)
    requires from <= |text|
    ensures from <= k <= |text| && (k < |text| ==> Hits(caseSensitive, text[k], b))
    ensures forall j :: from <= j < k ==> !Hits(caseSensitive, text[j], b)
    decreases |text| - from
  {
    if from == |text| || Hits(caseSensitive, text[from], b) then from else FirstHit(caseSensitive, text, b, from + 1)
  }

  /** Where the passes over the text begin: one place before the first that hits the first pattern character. */
  function ScanStart(caseSensitive: bool, text: seq<byte>, pat: seq<byte>): (k: nat)
    requires pat != []
    ensures text != [] ==> k < |text|
    ensures k <= |text| && forall j :: 0 <= j < k ==> Fold(caseSensitive, text[j]) != pat[0]
  {
    var hit := FirstHit(caseSensitive, text, pat[0], 0);
    if hit == 0 then 0 else hit - 1
  }

  /** `ps` are increasing places that hit the characters of `pat`. */
  ghost predicate HitSpells(caseSensitive: bool, text: seq<byte>, pat: seq<byte>, ps: seq<nat>) {
    && |ps| == |pat|
    && (forall k :: 0 <= k < |ps| ==> ps[k] < |text| && Hits(caseSensitive, text[ps[k]], pat[k]))
    && (forall j, k :: 0 <= j < k < |ps| ==> ps[j] < ps[k])
  }

  /** What spells the pattern in the folded text also hits it. */
  lemma SpellsHits(caseSensitive: bool, text: seq<byte>, pat: seq<byte>, ps: seq<nat>, from: nat, end: nat)
    requires Spells(FoldAll(caseSensitive, text), pat, ps, from, end)
    ensures HitSpells(caseSensitive, text, pat, ps)
  {
  }

  /**
   * `ascii_fuzzy_index`: -1 exactly when no increasing places hit the pattern, and then it is no subsequence
   * of the folded text (for a pattern without capitals, exactly then); otherwise the place before the first hit of the first pattern character.
   */
  method AsciiFuzzyIndex(text: seq<byte>, pat: seq<byte>, caseSensitive: bool) returns (firstIdx: int)
    requires pat != []
    ensures firstIdx < 0 <==> !exists ps :: HitSpells(caseSensitive, text, pat, ps)
    ensures firstIdx < 0 ==> firstIdx == -1 && !IsSubsequence(FoldAll(caseSensitive, text), pat, 0, |text|)
    ensures caseSensitive || NoCapitals(pat) ==> (firstIdx < 0 <==> !IsSubsequence(FoldAll(caseSensitive, text), pat, 0, |text|))
    ensures firstIdx >= 0 ==> firstIdx == ScanStart(caseSensitive, text, pat) && firstIdx < |text|
  {
    hide Hits, FoldAll, Fold;
    firstIdx := 0;
    var idx: int := 0;
    ghost var qs: seq<nat> := [];
    for pidx := 0 to |pat|
      invariant 0 <= idx <= |text| && (if pidx == 0 then idx == 0 && firstIdx == 0 else text != [] && firstIdx == ScanStart(caseSensitive, text, pat))
      invariant HitSpells(caseSensitive, text, pat[..pidx], qs) && idx == if pidx == 0 then 0 else qs[pidx - 1] + 1
      invariant forall ps :: HitSpells(caseSensitive, text, pat, ps) && pidx > 0 ==> idx <= ps[pidx - 1] + 1
    {
      var from := idx;
      idx := TrySkip(text, caseSensitive, pat[pidx], from);
      forall ps | HitSpells(caseSensitive, text, pat, ps) ensures 0 <= idx <= ps[pidx] {
        if pidx > 0 { assert ps[pidx - 1] < ps[pidx]; }
      }
      if idx < 0 {
        forall ps | Spells(FoldAll(caseSensitive, text), pat, ps, 0, |text|) ensures false { SpellsHits(caseSensitive, text, pat, ps, 0, |text|); }
        return -1;
      }
      if pidx == 0 && idx > 0 {
        firstIdx := idx - 1;
      }
      HitsMore(caseSensitive, text, pat, qs, pidx, idx);
      qs := qs + [idx];
      idx := idx + 1;
    }
    assert pat[..|pat|] == pat;
    if caseSensitive || NoCapitals(pat) { HitsSpell(caseSensitive, text, pat, qs); }
  }

  lemma HitsMore(caseSensitive: bool, text: seq<byte>, pat: seq<byte>, qs: seq<nat>, n: nat, k: nat)
    requires n < |pat| && HitSpells(caseSensitive, text, pat[..n], qs) && (n > 0 ==> qs[n - 1] < k) && k < |text| && Hits(caseSensitive, text[k], pat[n])
    ensures HitSpells(caseSensitive, text, pat[..n + 1], qs + [k])
  {
    hide Hits;
    forall j | 0 <= j < n ensures qs[j] < k { if j < n - 1 { assert qs[j] < qs[n - 1]; } }
  }
}
