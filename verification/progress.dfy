/** How far a match moves: never against its direction, never into the middle of a surrogate pair. */
module Progress {
  import opened Text
  import opened Pattern

  ghost predicate Good(x: Subject, st: St) { Boundary(x, st.pos) }

  /** `t` is not behind `s` in the direction of the match. */
  predicate Ahead(back: bool, s: nat, t: nat) { if back then t <= s else s <= t }

  /** Every result of `f` is a boundary position at or ahead of the state it started from. */
  ghost predicate Steady(x: Subject, back: bool, f: Matcher) {
    forall s, t :: Good(x, s) && t in f(s) ==> Good(x, t) && Ahead(back, s.pos, t.pos)
  }

  /** Every result of `f` has moved. */
  ghost predicate Moving(x: Subject, f: Matcher) {
    forall s, t :: Good(x, s) && t in f(s) ==> t.pos != s.pos
  }

  lemma {:induction false} FlatMapMember(f: Matcher, l: seq<St>, t: St)
    requires t in FlatMap(f, l)
    ensures exists s :: s in l && t in f(s)
  {
    if t in f(l[0]) {
      assert l[0] in l;
    } else {
      FlatMapMember(f, l[1..], t);
    }
  }

  /** Two matchers that agree on the states of `l` give the same results there. */
  lemma {:induction false} FlatMapCongruence(f: Matcher, g: Matcher, l: seq<St>)
    requires forall s :: s in l ==> f(s) == g(s)
    ensures FlatMap(f, l) == FlatMap(g, l)
  {
    if l != [] {
      assert l[0] in l;
      FlatMapCongruence(f, g, l[1..]);
    }
  }

  lemma {:induction false} FlatMapAppend(f: Matcher, k: seq<St>, l: seq<St>)
    ensures FlatMap(f, k + l) == FlatMap(f, k) + FlatMap(f, l)
  {
    if k == [] {
      assert k + l == l;
    } else {
      assert (k + l)[0] == k[0] && (k + l)[1..] == k[1..] + l;
      FlatMapAppend(f, k[1..], l);
    }
  }

  lemma ThenSteady(x: Subject, back: bool, f: Matcher, g: Matcher)
    requires Steady(x, back, f) && Steady(x, back, g)
    ensures Steady(x, back, Then(f, g))
    ensures Moving(x, f) || Moving(x, g) ==> Moving(x, Then(f, g))
  {
    forall s, t | Good(x, s) && t in Then(f, g)(s)
      ensures Good(x, t) && Ahead(back, s.pos, t.pos) && (Moving(x, f) || Moving(x, g) ==> t.pos != s.pos)
    {
      FlatMapMember(g, f(s), t);
      var m :| m in f(s) && t in g(m);
      assert Good(x, m);
    }
  }

  lemma EitherSteady(x: Subject, back: bool, f: Matcher, g: Matcher)
    requires Steady(x, back, f) && Steady(x, back, g)
    ensures Steady(x, back, Either(f, g))
    ensures Moving(x, f) && Moving(x, g) ==> Moving(x, Either(f, g))
  {
    forall s, t | Good(x, s) && t in Either(f, g)(s)
      ensures Good(x, t) && Ahead(back, s.pos, t.pos) && (Moving(x, f) && Moving(x, g) ==> t.pos != s.pos)
    {
      assert t in f(s) || t in g(s);
    }
  }

  lemma CapturedSteady(x: Subject, back: bool, f: Matcher, opens: nat, closes: nat)
    requires Steady(x, back, f)
    ensures Steady(x, back, Captured(f, opens, closes))
    ensures Moving(x, f) ==> Moving(x, Captured(f, opens, closes))
  {
    forall s, t | Good(x, s) && t in Captured(f, opens, closes)(s)
      ensures Good(x, t) && Ahead(back, s.pos, t.pos) && (Moving(x, f) ==> t.pos != s.pos)
    {
      var s' := St(s.pos, SetCap(s.caps, opens, s.pos));
      var r := MapSave(f(s'), closes);
      var j :| 0 <= j < |r| && r[j] == t;
      assert Good(x, s') && f(s')[j] in f(s');
    }
  }

  lemma ReadSteady(x: Subject, o: Flags, r: Re, back: bool)
    requires IsAtom(r)
    ensures Steady(x, back, Read(x, o, r, back)) && Moving(x, Read(x, o, r, back))
  {
    forall s, t | Good(x, s) && t in Read(x, o, r, back)(s)
      ensures Good(x, t) && Ahead(back, s.pos, t.pos) && t.pos != s.pos
    {
      if back { GetUndoesPrev(x, s.pos); } else { PrevUndoesGet(x, s.pos); }
    }
  }

  lemma PeekSteady(x: Subject, back: bool, f: Matcher, negative: bool)
    ensures Steady(x, back, Peek(f, negative))
  {
  }

  lemma TestSteady(x: Subject, o: Flags, r: Re, back: bool)
    requires IsTest(r)
    ensures Steady(x, back, Test(x, o, r))
  {
  }

  lemma RecallSteady(x: Subject, o: Flags, n: nat, back: bool)
    ensures Steady(x, back, Recall(x, o, n, back))
  {
  }

  lemma SkipSteady(x: Subject, back: bool)
    ensures Steady(x, back, Skip())
  {
  }

  lemma {:induction false} TimesSteady(x: Subject, back: bool, f: Matcher, k: nat, rest: Matcher)
    requires Steady(x, back, f) && Steady(x, back, rest)
    ensures Steady(x, back, Times(f, k, rest))
    ensures k > 0 && Moving(x, f) ==> Moving(x, Times(f, k, rest))
  {
    hide Steady, Moving;
    if k > 0 {
      TimesSteady(x, back, f, k - 1, rest);
      ThenSteady(x, back, f, Times(f, k - 1, rest));
    }
  }

  lemma {:induction false} UptoSteady(x: Subject, back: bool, f: Matcher, k: nat, greedy: bool)
    requires Steady(x, back, f)
    ensures Steady(x, back, Upto(f, k, greedy))
  {
    hide Steady;
    SkipSteady(x, back);
    if k > 0 {
      var g := Upto(f, k - 1, greedy);
      UptoSteady(x, back, f, k - 1, greedy);
      ThenSteady(x, back, f, g);
      EitherSteady(x, back, Then(f, g), Skip());
      EitherSteady(x, back, Skip(), Then(f, g));
    }
  }

  lemma {:induction false} StarSteady(x: Subject, f: Matcher, back: bool, greedy: bool, s: St, t: St)
    requires Steady(x, back, f) && Good(x, s)
    requires t in Star(x, f, back, greedy, s)
    ensures Good(x, t) && Ahead(back, s.pos, t.pos)
    decreases Left(x, back, s.pos)
  {
    var g := Again(x, f, back, greedy, s);
    if t in FlatMap(g, f(s)) {
      FlatMapMember(g, f(s), t);
      var m :| m in f(s) && t in g(m);
      if Left(x, back, m.pos) < Left(x, back, s.pos) {
        StarSteady(x, f, back, greedy, m, t);
      }
    } else {
      assert t == s;
    }
  }

  lemma OptionalSteady(x: Subject, f: Matcher, back: bool, min: nat, max: nat, greedy: bool)
    requires Steady(x, back, f)
    ensures Steady(x, back, Optional(x, f, back, min, max, greedy))
  {
    if max == INFINITE {
      forall s, t | Good(x, s) && t in StarFrom(x, f, back, greedy)(s)
        ensures Good(x, t) && Ahead(back, s.pos, t.pos)
      {
        StarSteady(x, f, back, greedy, s, t);
      }
    } else if max > min {
      UptoSteady(x, back, f, max - min, greedy);
    }
  }

  lemma RepeatSteady(x: Subject, f: Matcher, back: bool, min: nat, max: nat, greedy: bool, c: nat, groups: nat)
    requires Steady(x, back, f)
    ensures Steady(x, back, Repeat(x, f, back, min, max, greedy, c, groups))
    ensures min > 0 && Moving(x, f) ==> Moving(x, Repeat(x, f, back, min, max, greedy, c, groups))
  {
    var all := Times(f, min, Optional(x, f, back, min, max, greedy));
    OptionalSteady(x, f, back, min, max, greedy);
    TimesSteady(x, back, f, min, Optional(x, f, back, min, max, greedy));
    forall s, t | Good(x, s) && t in Repeat(x, f, back, min, max, greedy, c, groups)(s)
      ensures Good(x, t) && Ahead(back, s.pos, t.pos) && (min > 0 && Moving(x, f) ==> t.pos != s.pos)
    {
      var s' := Prepare(s, min, c, groups);
      assert Good(x, s') && t in all(s');
    }
  }

  /** Every pattern moves only in the direction it is matched in, from boundary to boundary. */
  lemma {:induction false} MatchesSteady(x: Subject, o: Flags, r: Re, back: bool, c: nat)
    ensures Steady(x, back, Matches(x, o, r, back, c))
    decreases r
  {
    hide Steady, Moving;
    match r
    case Group(a) =>
      MatchesSteady(x, o, a, back, c + 1);
      CapturedSteady(x, back, Matches(x, o, a, back, c + 1), 2 * c, 2 * c + 1);
      CapturedSteady(x, back, Matches(x, o, a, back, c + 1), 2 * c + 1, 2 * c);
    case Cat(a, b) =>
      MatchesSteady(x, o, a, back, c);
      MatchesSteady(x, o, b, back, c + Groups(a));
      ThenSteady(x, back, Matches(x, o, a, back, c), Matches(x, o, b, back, c + Groups(a)));
      ThenSteady(x, back, Matches(x, o, b, back, c + Groups(a)), Matches(x, o, a, back, c));
    case Alt(a, b) =>
      MatchesSteady(x, o, a, back, c);
      MatchesSteady(x, o, b, back, c + Groups(a));
      EitherSteady(x, back, Matches(x, o, a, back, c), Matches(x, o, b, back, c + Groups(a)));
    case Rep(a, min, max, greedy) =>
      MatchesSteady(x, o, a, back, c);
      RepeatSteady(x, Matches(x, o, a, back, c), back, min, max, greedy, c, Groups(a));
    case Chr(_) => ReadSteady(x, o, r, back);
    case Dot => ReadSteady(x, o, r, back);
    case Set(_) => ReadSteady(x, o, r, back);
    case Empty => SkipSteady(x, back);
    case LineStart => TestSteady(x, o, r, back);
    case LineEnd => TestSteady(x, o, r, back);
    case WordBoundary(_) => TestSteady(x, o, r, back);
    case BackRef(n) => RecallSteady(x, o, n, back);
    case Look(negative, behind, a) => PeekSteady(x, back, Matches(x, o, a, behind, c), negative);
  }

  /** A pattern that consumes at least one character on every path. */
  predicate MustAdvance(r: Re) {
    match r
    case Chr(_) => true
    case Dot => true
    case Set(_) => true
    case Group(a) => MustAdvance(a)
    case Cat(a, b) => MustAdvance(a) || MustAdvance(b)
    case Alt(a, b) => MustAdvance(a) && MustAdvance(b)
    case Rep(a, min, _, _) => min > 0 && MustAdvance(a)
    case _ => false
  }

  lemma {:induction false} MustAdvanceMoves(x: Subject, o: Flags, r: Re, back: bool, c: nat)
    requires MustAdvance(r)
    ensures Moving(x, Matches(x, o, r, back, c))
    decreases r
  {
    hide Steady, Moving;
    match r
    case Group(a) =>
      MatchesSteady(x, o, a, back, c + 1);
      MustAdvanceMoves(x, o, a, back, c + 1);
      CapturedSteady(x, back, Matches(x, o, a, back, c + 1), 2 * c, 2 * c + 1);
      CapturedSteady(x, back, Matches(x, o, a, back, c + 1), 2 * c + 1, 2 * c);
    case Cat(a, b) =>
      MatchesSteady(x, o, a, back, c);
      MatchesSteady(x, o, b, back, c + Groups(a));
      if MustAdvance(a) { MustAdvanceMoves(x, o, a, back, c); } else { MustAdvanceMoves(x, o, b, back, c + Groups(a)); }
      ThenSteady(x, back, Matches(x, o, a, back, c), Matches(x, o, b, back, c + Groups(a)));
      ThenSteady(x, back, Matches(x, o, b, back, c + Groups(a)), Matches(x, o, a, back, c));
    case Alt(a, b) =>
      MatchesSteady(x, o, a, back, c);
      MatchesSteady(x, o, b, back, c + Groups(a));
      MustAdvanceMoves(x, o, a, back, c);
      MustAdvanceMoves(x, o, b, back, c + Groups(a));
      EitherSteady(x, back, Matches(x, o, a, back, c), Matches(x, o, b, back, c + Groups(a)));
    case Rep(a, min, max, greedy) =>
      MatchesSteady(x, o, a, back, c);
      MustAdvanceMoves(x, o, a, back, c);
      RepeatSteady(x, Matches(x, o, a, back, c), back, min, max, greedy, c, Groups(a));
    case Chr(_) => ReadSteady(x, o, r, back);
    case Dot => ReadSteady(x, o, r, back);
    case Set(_) => ReadSteady(x, o, r, back);
  }
}
