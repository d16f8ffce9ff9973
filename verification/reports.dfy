/** What a match reports: which captures a pattern may change, and which start position wins. */
module Reports {
  import opened Text
  import opened Pattern
  import opened Progress
  import opened Generator
  import opened Program

  /** `f` keeps the number of captures and every slot outside `[lo, hi)`. */
  ghost predicate Frames(f: Matcher, lo: int, hi: int) {
    forall s, t :: t in f(s) ==> SameOutside(s.caps, t.caps, lo, hi)
  }

  ghost predicate SameOutside(a: seq<int>, b: seq<int>, lo: int, hi: int) {
    |a| == |b| && forall k :: 0 <= k < |a| && !(lo <= k < hi) ==> a[k] == b[k]
  }

  lemma FramesWider(f: Matcher, lo: int, hi: int, lo': int, hi': int)
    requires Frames(f, lo, hi) && lo' <= lo && hi <= hi'
    ensures Frames(f, lo', hi')
  {
  }

  lemma ThenFrames(f: Matcher, g: Matcher, lo: int, hi: int)
    requires Frames(f, lo, hi) && Frames(g, lo, hi)
    ensures Frames(Then(f, g), lo, hi)
  {
    forall s, t | t in Then(f, g)(s) ensures SameOutside(s.caps, t.caps, lo, hi) {
      FlatMapMember(g, f(s), t);
      var m :| m in f(s) && t in g(m);
      assert SameOutside(s.caps, m.caps, lo, hi) && SameOutside(m.caps, t.caps, lo, hi);
    }
  }

  lemma EitherFrames(f: Matcher, g: Matcher, lo: int, hi: int)
    requires Frames(f, lo, hi) && Frames(g, lo, hi)
    ensures Frames(Either(f, g), lo, hi)
  {
    forall s, t | t in Either(f, g)(s) ensures SameOutside(s.caps, t.caps, lo, hi) {
      assert t in f(s) || t in g(s);
    }
  }

  lemma SkipFrames(lo: int, hi: int)
    ensures Frames(Skip(), lo, hi)
  {
  }

  lemma CapturedFrames(f: Matcher, opens: nat, closes: nat, lo: int, hi: int)
    requires Frames(f, lo, hi) && lo <= opens < hi && lo <= closes < hi
    ensures Frames(Captured(f, opens, closes), lo, hi)
  {
    forall s, t | t in Captured(f, opens, closes)(s) ensures SameOutside(s.caps, t.caps, lo, hi) {
      var s' := St(s.pos, SetCap(s.caps, opens, s.pos));
      var r := MapSave(f(s'), closes);
      var j :| 0 <= j < |r| && r[j] == t;
      assert f(s')[j] in f(s');
      assert SameOutside(s'.caps, f(s')[j].caps, lo, hi);
    }
  }

  lemma PeekFrames(f: Matcher, negative: bool, lo: int, hi: int)
    requires Frames(f, lo, hi)
    ensures Frames(Peek(f, negative), lo, hi)
  {
    forall s, t | t in Peek(f, negative)(s) ensures SameOutside(s.caps, t.caps, lo, hi) {
      if !negative { assert f(s)[0] in f(s); }
    }
  }

  lemma {:induction false} TimesFrames(f: Matcher, k: nat, rest: Matcher, lo: int, hi: int)
    requires Frames(f, lo, hi) && Frames(rest, lo, hi)
    ensures Frames(Times(f, k, rest), lo, hi)
  {
    hide Frames;
    if k > 0 {
      TimesFrames(f, k - 1, rest, lo, hi);
      ThenFrames(f, Times(f, k - 1, rest), lo, hi);
    }
  }

  lemma {:induction false} UptoFrames(f: Matcher, k: nat, greedy: bool, lo: int, hi: int)
    requires Frames(f, lo, hi)
    ensures Frames(Upto(f, k, greedy), lo, hi)
  {
    hide Frames;
    SkipFrames(lo, hi);
    if k > 0 {
      UptoFrames(f, k - 1, greedy, lo, hi);
      ThenFrames(f, Upto(f, k - 1, greedy), lo, hi);
      EitherFrames(Then(f, Upto(f, k - 1, greedy)), Skip(), lo, hi);
      EitherFrames(Skip(), Then(f, Upto(f, k - 1, greedy)), lo, hi);
    }
  }

  lemma {:induction false} StarFrames(x: Subject, f: Matcher, back: bool, greedy: bool, s: St, t: St, lo: int, hi: int)
    requires Frames(f, lo, hi) && t in Star(x, f, back, greedy, s)
    ensures SameOutside(s.caps, t.caps, lo, hi)
    decreases Left(x, back, s.pos)
  {
    var g := Again(x, f, back, greedy, s);
    if t in FlatMap(g, f(s)) {
      FlatMapMember(g, f(s), t);
      var m :| m in f(s) && t in g(m);
      assert SameOutside(s.caps, m.caps, lo, hi);
      if Left(x, back, m.pos) < Left(x, back, s.pos) { StarFrames(x, f, back, greedy, m, t, lo, hi); }
    } else {
      assert t == s;
    }
  }

  lemma OptionalFrames(x: Subject, f: Matcher, back: bool, min: nat, max: nat, greedy: bool, lo: int, hi: int)
    requires Frames(f, lo, hi)
    ensures Frames(Optional(x, f, back, min, max, greedy), lo, hi)
  {
    if max == INFINITE {
      forall s, t | t in StarFrom(x, f, back, greedy)(s) ensures SameOutside(s.caps, t.caps, lo, hi) {
        StarFrames(x, f, back, greedy, s, t, lo, hi);
      }
    } else if max > min {
      UptoFrames(f, max - min, greedy, lo, hi);
    } else {
      SkipFrames(lo, hi);
    }
  }

  lemma {:induction false} ResetFrames(caps: seq<int>, first: nat, last: int, lo: int, hi: int)
    requires lo <= 2 * first && 2 * last + 2 <= hi
    ensures SameOutside(caps, ResetCaps(caps, first, last), lo, hi)
    decreases last - first
  {
    if first <= last {
      ResetFrames(SetCap(SetCap(caps, 2 * first, -1), 2 * first + 1, -1), first + 1, last, lo, hi);
    }
  }

  lemma RepeatFrames(x: Subject, f: Matcher, back: bool, min: nat, max: nat, greedy: bool, c: nat, groups: nat)
    requires Frames(f, 2 * c, 2 * (c + groups))
    ensures Frames(Repeat(x, f, back, min, max, greedy, c, groups), 2 * c, 2 * (c + groups))
  {
    var lo, hi := 2 * c, 2 * (c + groups);
    var all := Times(f, min, Optional(x, f, back, min, max, greedy));
    OptionalFrames(x, f, back, min, max, greedy, lo, hi);
    TimesFrames(f, min, Optional(x, f, back, min, max, greedy), lo, hi);
    forall s, t | t in Repeat(x, f, back, min, max, greedy, c, groups)(s) ensures SameOutside(s.caps, t.caps, lo, hi) {
      var s' := Prepare(s, min, c, groups);
      ResetFrames(s.caps, c, c + groups - 1, lo, hi);
      assert t in all(s') && SameOutside(s'.caps, t.caps, lo, hi);
    }
  }

  lemma LeafFrames(x: Subject, o: Flags, r: Re, back: bool, c: nat)
    requires IsAtom(r) || IsTest(r) || r.BackRef? || r.Empty?
    ensures Frames(Matches(x, o, r, back, c), 2 * c, 2 * c)
  {
    hide GetChar, GetPrevChar, FollowBackRef, Accepts, Holds;
  }

  /** A pattern writes only the captures of its own groups. */
  lemma {:induction false} MatchesFrames(x: Subject, o: Flags, r: Re, back: bool, c: nat)
    ensures Frames(Matches(x, o, r, back, c), 2 * c, 2 * (c + Groups(r)))
    decreases r
  {
    hide Frames, Matches;
    MatchesIs(x, o, r, back, c);
    var lo, hi := 2 * c, 2 * (c + Groups(r));
    match r
    case Group(a) =>
      var f := Matches(x, o, a, back, c + 1);
      MatchesFrames(x, o, a, back, c + 1);
      FramesWider(f, 2 * (c + 1), hi, lo, hi);
      CapturedFrames(f, 2 * c, 2 * c + 1, lo, hi);
      CapturedFrames(f, 2 * c + 1, 2 * c, lo, hi);
    case Look(negative, behind, a) =>
      MatchesFrames(x, o, a, behind, c);
      PeekFrames(Matches(x, o, a, behind, c), negative, lo, hi);
    case Cat(a, b) =>
      var f, g := Matches(x, o, a, back, c), Matches(x, o, b, back, c + Groups(a));
      MatchesFrames(x, o, a, back, c);
      MatchesFrames(x, o, b, back, c + Groups(a));
      WidenBoth(f, g, lo, 2 * (c + Groups(a)), hi);
      ThenFrames(f, g, lo, hi);
      ThenFrames(g, f, lo, hi);
    case Alt(a, b) =>
      var f, g := Matches(x, o, a, back, c), Matches(x, o, b, back, c + Groups(a));
      MatchesFrames(x, o, a, back, c);
      MatchesFrames(x, o, b, back, c + Groups(a));
      WidenBoth(f, g, lo, 2 * (c + Groups(a)), hi);
      EitherFrames(f, g, lo, hi);
    case Rep(a, min, max, greedy) =>
      MatchesFrames(x, o, a, back, c);
      RepeatFrames(x, Matches(x, o, a, back, c), back, min, max, greedy, c, Groups(a));
    case _ => LeafFrames(x, o, r, back, c);
  }

  lemma WidenBoth(f: Matcher, g: Matcher, lo: int, mid: int, hi: int)
    requires lo <= mid <= hi && Frames(f, lo, mid) && Frames(g, mid, hi)
    ensures Frames(f, lo, hi) && Frames(g, lo, hi)
  {
    hide Frames;
    FramesWider(f, lo, mid, lo, hi);
    FramesWider(g, mid, hi, lo, hi);
  }

  // ----- the reported match -----

  /** A match of the whole expression reports its own start and end as capture 0. */
  lemma WholeReports(x: Subject, o: Flags, r: Re, pos: nat, caps: seq<int>, t: St)
    requires |caps| >= 2 && t in Whole(x, o, r)(St(pos, caps))
    ensures |t.caps| == |caps| && t.caps[0] == pos && t.caps[1] == t.pos
  {
    hide Captured, Matches, Frames, MapSave;
    MatchesFrames(x, o, r, false, 1);
    WholeIsCaptured(x, o, r);
    CapturedReports(Matches(x, o, r, false, 1), pos, caps, 2 * (1 + Groups(r)), t);
  }

  lemma WholeIsCaptured(x: Subject, o: Flags, r: Re)
    ensures Whole(x, o, r) == Captured(Matches(x, o, r, false, 1), 0, 1)
  {
  }

  lemma CapturedReports(f: Matcher, pos: nat, caps: seq<int>, hi: int, t: St)
    requires |caps| >= 2 && Frames(f, 2, hi) && t in Captured(f, 0, 1)(St(pos, caps))
    ensures |t.caps| == |caps| && t.caps[0] == pos && t.caps[1] == t.pos
  {
    var s' := St(pos, SetCap(caps, 0, pos));
    var l := MapSave(f(s'), 1);
    var j :| 0 <= j < |l| && l[j] == t;
    assert f(s')[j] in f(s');
    assert SameOutside(s'.caps, f(s')[j].caps, 2, hi);
  }

  /** The expression matches from the position `k` characters after `from`. */
  ghost predicate MatchesAt(x: Subject, o: Flags, r: Re, from: nat, k: nat, caps: seq<int>)
    requires from <= |x.units|
  {
    Forward(x, from, k) >= 0 && Whole(x, o, r)(St(Forward(x, from, k), caps)) != []
  }

  /** The search finds the match that starts least many characters on; it finds none only if there is none. */
  lemma {:induction false} LeastStart(x: Subject, o: Flags, r: Re, from: nat, caps: seq<int>) returns (k: nat)
    requires from <= |x.units|
    ensures var l := AllFrom(x, o, r, false, from, caps);
            if l == [] then forall j: nat :: !MatchesAt(x, o, r, from, j, caps)
            else MatchesAt(x, o, r, from, k, caps) && l[0] == Whole(x, o, r)(St(Forward(x, from, k), caps))[0]
                 && forall j: nat :: j < k ==> !MatchesAt(x, o, r, from, j, caps)
    decreases |x.units| - from
  {
    hide Whole;
    var n := |x.units|;
    k := 0;
    if Whole(x, o, r)(St(from, caps)) == [] && from < n {
      var next := GetChar(x, from, n).1;
      k := LeastStart(x, o, r, next, caps);
      forall j: nat | j > 0 ensures MatchesAt(x, o, r, from, j, caps) <==> MatchesAt(x, o, r, next, j - 1, caps) {
        assert Forward(x, from, j) == Forward(x, next, j - 1);
      }
      k := k + 1;
    }
  }
}
