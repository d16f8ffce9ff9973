/** What a back reference compares: the characters of two stretches of the subject, folded. */
module BackReferences {
  import opened Text
  import opened Pattern
  import opened Progress

  // ----- the characters of a stretch -----

  /** The folded characters of `[from, to)`, decoded from its start on as a text of its own. */
  function Chars(x: Subject, o: Flags, from: nat, to: nat): seq<code>
    requires to <= |x.units|
    decreases if from < to then to - from else 0
  {
    if from >= to then []
    else
      var (c, next) := GetChar(x, from, to);
      [o.Fold(c)] + Chars(x, o, next, to)
  }

  /** A place where a stretch that begins or ends at `pos` may end or begin: there, or between two characters. */
  predicate Cut(x: Subject, pos: nat, p: nat) { p == pos || Boundary(x, p) }

  /** Up to such a place the subject is read as the stretch alone is. */
  lemma ReadInside(x: Subject, pos: nat, p: nat)
    requires pos < p <= |x.units| && Boundary(x, p)
    ensures GetChar(x, pos, p) == GetChar(x, pos, |x.units|)
  {
  }

  // ----- forwards -----

  /**
   * A forward comparison succeeds exactly when the text from `pos` on begins with the characters of
   * `[from, to)`, folded, and it ends behind them.
   */
  lemma {:induction false} ForwardMeans(x: Subject, o: Flags, from: nat, to: nat, pos: nat)
    requires to <= |x.units| && pos <= |x.units|
    ensures var r := SameForward(x, o, from, to, pos);
            r >= 0 ==> pos <= r <= |x.units| && Cut(x, pos, r) && Chars(x, o, pos, r) == Chars(x, o, from, to)
    ensures forall p :: pos <= p <= |x.units| && Cut(x, pos, p) && Chars(x, o, pos, p) == Chars(x, o, from, to) ==>
              p == SameForward(x, o, from, to, pos)
    decreases if from < to then to - from else 0
  {
    hide SameForward, Chars, GetChar;
    ForwardStep(x, o, from, to, pos);
    CharsStep(x, o, from, to);
    CharsStep(x, o, pos, pos);
    var n, r := |x.units|, SameForward(x, o, from, to, pos);
    if from < to && pos < n {
      var from', pos' := GetChar(x, from, to).1, GetChar(x, pos, n).1;
      PrevUndoesGet(x, pos);
      ForwardMeans(x, o, from', to, pos');
      if r >= 0 {
        ForwardFound(x, o, from, to, pos, r);
      }
    }
    forall p | pos <= p <= n && Cut(x, pos, p) && Chars(x, o, pos, p) == Chars(x, o, from, to) ensures p == r {
      ForwardUnique(x, o, from, to, pos, p);
    }
  }

  lemma ForwardStep(x: Subject, o: Flags, from: nat, to: nat, pos: nat)
    requires to <= |x.units| && pos <= |x.units|
    ensures SameForward(x, o, from, to, pos) ==
              if from >= to then pos
              else if pos >= |x.units| then -1
              else if o.Fold(GetChar(x, from, to).0) == o.Fold(GetChar(x, pos, |x.units|).0)
                   then SameForward(x, o, GetChar(x, from, to).1, to, GetChar(x, pos, |x.units|).1)
              else -1
  {
  }

  lemma CharsStep(x: Subject, o: Flags, from: nat, to: nat)
    requires to <= |x.units|
    ensures Chars(x, o, from, to) == if from >= to then [] else [o.Fold(GetChar(x, from, to).0)] + Chars(x, o, GetChar(x, from, to).1, to)
  {
  }

  /** One character further: what is found behind it is found from here. */
  lemma ForwardFound(x: Subject, o: Flags, from: nat, to: nat, pos: nat, r: nat)
    requires from < to <= |x.units| && pos < |x.units| && r == SameForward(x, o, from, to, pos)
    requires var from', pos' := GetChar(x, from, to).1, GetChar(x, pos, |x.units|).1;
             pos' <= r <= |x.units| && Cut(x, pos', r) && Chars(x, o, pos', r) == Chars(x, o, from', to)
    ensures Cut(x, pos, r) && pos <= r && Chars(x, o, pos, r) == Chars(x, o, from, to)
  {
    hide SameForward, Chars, GetChar;
    PrevUndoesGet(x, pos);
    ForwardStep(x, o, from, to, pos);
    ReadInside(x, pos, r);
    CharsStep(x, o, pos, r);
    CharsStep(x, o, from, to);
  }

  /** Only one place fits. */
  lemma {:induction false} ForwardUnique(x: Subject, o: Flags, from: nat, to: nat, pos: nat, p: nat)
    requires to <= |x.units| && pos <= p <= |x.units| && Cut(x, pos, p) && Chars(x, o, pos, p) == Chars(x, o, from, to)
    ensures p == SameForward(x, o, from, to, pos)
    decreases if pos < p then p - pos else 0
  {
    hide SameForward, Chars, GetChar;
    ForwardStep(x, o, from, to, pos);
    CharsStep(x, o, from, to);
    CharsStep(x, o, pos, p);
    if pos < p {
      ReadInside(x, pos, p);
      var from', pos' := GetChar(x, from, to).1, GetChar(x, pos, p).1;
      assert Chars(x, o, pos, p)[1..] == Chars(x, o, pos', p) && Chars(x, o, from, to)[1..] == Chars(x, o, from', to);
      assert Chars(x, o, pos, p)[0] == Chars(x, o, from, to)[0];
      ForwardUnique(x, o, from', to, pos', p);
    }
  }

  // ----- backwards -----

  /** Decoding a stretch from its end gives the same characters: pairs do not overlap. */
  lemma {:induction false} CharsLast(x: Subject, o: Flags, from: nat, to: nat)
    requires from < to <= |x.units|
    ensures var (c, prev) := GetPrevChar(x, to, from); Chars(x, o, from, to) == Chars(x, o, from, prev) + [o.Fold(c)]
    decreases if from < to then to - from else 0
  {
    hide Chars;
    var (c, prev) := GetPrevChar(x, to, from);
    var next := GetChar(x, from, to).1;
    CharsStep(x, o, from, to);
    CharsStep(x, o, from, prev);
    CharsStep(x, o, next, to);
    if prev > from {
      assert next <= prev && GetChar(x, from, prev) == GetChar(x, from, to) && GetPrevChar(x, to, next) == (c, prev);
      CharsLast(x, o, next, to);
    }
  }

  lemma ReadBackInside(x: Subject, p: nat, pos: nat)
    requires p < pos <= |x.units| && Boundary(x, p)
    ensures GetPrevChar(x, pos, p) == GetPrevChar(x, pos, 0)
  {
  }

  lemma BackwardStep(x: Subject, o: Flags, from: nat, to: nat, pos: nat)
    requires to <= |x.units| && pos <= |x.units|
    ensures SameBackward(x, o, from, to, pos) ==
              if from >= to then pos
              else if pos == 0 then -1
              else if o.Fold(GetPrevChar(x, to, from).0) == o.Fold(GetPrevChar(x, pos, 0).0)
                   then SameBackward(x, o, from, GetPrevChar(x, to, from).1, GetPrevChar(x, pos, 0).1)
              else -1
  {
  }

  /** A backward comparison succeeds exactly when the text up to `pos` ends with those characters, and it ends before them. */
  lemma {:induction false} BackwardMeans(x: Subject, o: Flags, from: nat, to: nat, pos: nat)
    requires to <= |x.units| && pos <= |x.units|
    ensures var r := SameBackward(x, o, from, to, pos);
            r >= 0 ==> r <= pos && Cut(x, pos, r) && Chars(x, o, r, pos) == Chars(x, o, from, to)
    ensures forall p :: 0 <= p <= pos && Cut(x, pos, p) && Chars(x, o, p, pos) == Chars(x, o, from, to) ==>
              p == SameBackward(x, o, from, to, pos)
    decreases if from < to then to - from else 0
  {
    hide SameBackward, Chars, GetPrevChar;
    BackwardStep(x, o, from, to, pos);
    CharsStep(x, o, from, to);
    CharsStep(x, o, pos, pos);
    var r := SameBackward(x, o, from, to, pos);
    if from < to && pos > 0 {
      var to', pos' := GetPrevChar(x, to, from).1, GetPrevChar(x, pos, 0).1;
      GetUndoesPrev(x, pos);
      BackwardMeans(x, o, from, to', pos');
      if r >= 0 {
        BackwardFound(x, o, from, to, pos, r);
      }
    }
    forall p | 0 <= p <= pos && Cut(x, pos, p) && Chars(x, o, p, pos) == Chars(x, o, from, to) ensures p == r {
      BackwardUnique(x, o, from, to, pos, p);
    }
  }

  lemma BackwardFound(x: Subject, o: Flags, from: nat, to: nat, pos: nat, r: nat)
    requires from < to <= |x.units| && 0 < pos <= |x.units| && r == SameBackward(x, o, from, to, pos)
    requires var to', pos' := GetPrevChar(x, to, from).1, GetPrevChar(x, pos, 0).1;
             r <= pos' && Cut(x, pos', r) && Chars(x, o, r, pos') == Chars(x, o, from, to')
    ensures Cut(x, pos, r) && r <= pos && Chars(x, o, r, pos) == Chars(x, o, from, to)
  {
    hide SameBackward, Chars, GetPrevChar;
    GetUndoesPrev(x, pos);
    BackwardStep(x, o, from, to, pos);
    ReadBackInside(x, r, pos);
    CharsLast(x, o, r, pos);
    CharsLast(x, o, from, to);
  }

  lemma {:induction false} BackwardUnique(x: Subject, o: Flags, from: nat, to: nat, pos: nat, p: nat)
    requires to <= |x.units| && p <= pos <= |x.units| && Cut(x, pos, p) && Chars(x, o, p, pos) == Chars(x, o, from, to)
    ensures p == SameBackward(x, o, from, to, pos)
    decreases if p < pos then pos - p else 0
  {
    hide SameBackward, Chars, GetPrevChar;
    BackwardStep(x, o, from, to, pos);
    CharsStep(x, o, from, to);
    CharsStep(x, o, p, pos);
    if p < pos {
      ReadBackInside(x, p, pos);
      CharsLast(x, o, p, pos);
      CharsLast(x, o, from, to);
      var (c, to') := GetPrevChar(x, to, from);
      var (d, pos') := GetPrevChar(x, pos, 0);
      LastOf(Chars(x, o, p, pos'), o.Fold(d), Chars(x, o, from, to'), o.Fold(c));
      GetUndoesPrev(x, pos);
      BackwardUnique(x, o, from, to', pos', p);
    }
  }

  lemma LastOf(k: seq<code>, c: code, l: seq<code>, d: code)
    requires k + [c] == l + [d]
    ensures k == l && c == d
  {
    assert (k + [c])[..|k|] == k && (l + [d])[..|l|] == l;
    assert (k + [c])[|k|] == c && (l + [d])[|l|] == d;
  }

  // ----- the opcode -----

  /** The stretch of a capture, if both bounds are set and lie in the subject. */
  predicate IsSet(x: Subject, caps: seq<int>, n: nat) {
    2 * n + 1 < |caps| && 0 <= caps[2 * n] <= |x.units| && 0 <= caps[2 * n + 1] <= |x.units|
  }

  /**
   * A reference to a capture that is set leads to the place behind (backwards: before) the text at hand that
   * has its characters, and nowhere if there is none; one to a capture that is not set stays where it is.
   */
  lemma FollowMeans(x: Subject, o: Flags, caps: seq<int>, n: nat, back: bool, pos: nat)
    requires pos <= |x.units|
    ensures IsSet(x, caps, n) ==>
              var r := FollowBackRef(x, o, caps, n, back, pos);
              && (r >= 0 ==> r <= |x.units| && Refers(x, o, caps, n, back, pos, r))
              && forall p: nat :: p <= |x.units| && Refers(x, o, caps, n, back, pos, p) ==> p == r
    ensures 2 * n + 1 < |caps| && (caps[2 * n] < 0 || caps[2 * n + 1] < 0) ==> FollowBackRef(x, o, caps, n, back, pos) == pos
    ensures 2 * n + 1 >= |caps| ==> FollowBackRef(x, o, caps, n, back, pos) < 0
  {
    hide SameForward, SameBackward, Chars;
    if IsSet(x, caps, n) {
      if back { BackwardMeans(x, o, caps[2 * n], caps[2 * n + 1], pos); } else { ForwardMeans(x, o, caps[2 * n], caps[2 * n + 1], pos); }
    }
  }

  /** The text between `pos` and `p`, in the direction of the match, has the characters of capture `n`. */
  ghost predicate Refers(x: Subject, o: Flags, caps: seq<int>, n: nat, back: bool, pos: nat, p: nat)
    requires IsSet(x, caps, n) && pos <= |x.units| && p <= |x.units|
  {
    && Ahead(back, pos, p) && Cut(x, pos, p)
    && (if back then Chars(x, o, p, pos) else Chars(x, o, pos, p)) == Chars(x, o, caps[2 * n], caps[2 * n + 1])
  }

  /** The matches of a back reference in those terms. */
  lemma RecallMeans(x: Subject, o: Flags, n: nat, back: bool, c: nat, st: St, t: St)
    requires st.pos <= |x.units| && IsSet(x, st.caps, n)
    ensures t in Matches(x, o, BackRef(n), back, c)(st) <==>
              t.caps == st.caps && t.pos <= |x.units| && Refers(x, o, st.caps, n, back, st.pos, t.pos)
  {
    hide FollowBackRef, Refers;
    FollowMeans(x, o, st.caps, n, back, st.pos);
    MatchesIs(x, o, BackRef(n), back, c);
  }

  // ----- without folding and without pairs -----

  lemma {:induction false} CharsPlain(x: Subject, o: Flags, from: nat, to: nat)
    requires !o.ignoreCase && !x.pairs && from <= to <= |x.units|
    ensures |Chars(x, o, from, to)| == to - from && forall k :: 0 <= k < to - from ==> Chars(x, o, from, to)[k] == x.units[from + k]
    decreases if from < to then to - from else 0
  {
    if from < to { CharsPlain(x, o, from + 1, to); }
  }

  /** Then the comparison is one of units, and its end is as far away as the capture is long. */
  lemma ForwardPlain(x: Subject, o: Flags, from: nat, to: nat, pos: nat)
    requires !o.ignoreCase && !x.pairs && from <= to <= |x.units| && pos <= |x.units|
    ensures var n := to - from;
            SameForward(x, o, from, to, pos) == if pos + n <= |x.units| && x.units[from..to] == x.units[pos..pos + n] then pos + n else -1
  {
    hide SameForward, Chars;
    var n := to - from;
    ForwardMeans(x, o, from, to, pos);
    SignForward(x, o, from, to, pos);
    CharsPlain(x, o, from, to);
    forall p | pos <= p <= |x.units| ensures Chars(x, o, pos, p) == Chars(x, o, from, to) <==> p == pos + n && x.units[from..to] == x.units[pos..p] {
      CharsPlain(x, o, pos, p);
      SameUnits(x, Chars(x, o, pos, p), pos, p, Chars(x, o, from, to), from, to);
    }
  }

  lemma SignForward(x: Subject, o: Flags, from: nat, to: nat, pos: nat)
    requires to <= |x.units| && pos <= |x.units|
    ensures SameForward(x, o, from, to, pos) >= -1
    decreases if from < to then to - from else 0
  {
  }

  lemma SameUnits(x: Subject, k: seq<code>, pos: nat, p: nat, l: seq<code>, from: nat, to: nat)
    requires pos <= p <= |x.units| && from <= to <= |x.units| && |k| == p - pos && |l| == to - from
    requires forall j :: 0 <= j < |k| ==> k[j] == x.units[pos + j]
    requires forall j :: 0 <= j < |l| ==> l[j] == x.units[from + j]
    ensures k == l <==> p - pos == to - from && x.units[from..to] == x.units[pos..p]
  {
    if k == l {
      forall j | 0 <= j < to - from ensures x.units[from..to][j] == x.units[pos..p][j] { assert k[j] == l[j]; }
    }
    if p - pos == to - from && x.units[from..to] == x.units[pos..p] {
      forall j | 0 <= j < |k| ensures k[j] == l[j] { assert x.units[from..to][j] == x.units[pos..p][j]; }
    }
  }
}
