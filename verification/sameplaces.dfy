/** Where a pattern without back references leads does not depend on the captures. */
module SamePlaces {
  import opened Text
  import opened Pattern
  import opened Progress

  function Positions(l: seq<St>): (p: seq<nat>)
    ensures |p| == |l| && forall k :: 0 <= k < |l| ==> p[k] == l[k].pos
  {
    seq(|l|, k requires 0 <= k < |l| => l[k].pos)
  }

  /** Where `f` leads does not depend on the captures. */
  ghost predicate SamePositions(x: Subject, f: Matcher) {
    forall s: St, t: St :: Good(x, s) && s.pos == t.pos ==> Positions(f(s)) == Positions(f(t))
  }

  predicate NoBackRefs(r: Re) {
    match r
    case BackRef(_) => false
    case Group(a) => NoBackRefs(a)
    case Look(_, _, a) => NoBackRefs(a)
    case Cat(a, b) => NoBackRefs(a) && NoBackRefs(b)
    case Alt(a, b) => NoBackRefs(a) && NoBackRefs(b)
    case Rep(a, _, _, _) => NoBackRefs(a)
    case _ => true
  }

  lemma {:induction false} FlatMapSame(f: Matcher, g: Matcher, k: seq<St>, l: seq<St>)
    requires |k| == |l| && forall j :: 0 <= j < |k| ==> Positions(f(k[j])) == Positions(g(l[j]))
    ensures Positions(FlatMap(f, k)) == Positions(FlatMap(g, l))
    decreases |k|
  {
    hide Positions;
    if k != [] {
      FlatMapSame(f, g, k[1..], l[1..]);
      PositionsAppend(f(k[0]), FlatMap(f, k[1..]));
      PositionsAppend(g(l[0]), FlatMap(g, l[1..]));
    }
  }

  lemma PositionsAppend(k: seq<St>, l: seq<St>)
    ensures Positions(k + l) == Positions(k) + Positions(l)
  {
  }

  lemma ThenSame(x: Subject, back: bool, f: Matcher, g: Matcher)
    requires Steady(x, back, f) && SamePositions(x, f) && SamePositions(x, g)
    ensures SamePositions(x, Then(f, g))
  {
    forall s: St, t: St | Good(x, s) && s.pos == t.pos ensures Positions(Then(f, g)(s)) == Positions(Then(f, g)(t)) {
      assert Positions(f(s)) == Positions(f(t));
      forall j | 0 <= j < |f(s)| ensures Positions(g(f(s)[j])) == Positions(g(f(t)[j])) {
        assert f(s)[j] in f(s) && Positions(f(s))[j] == Positions(f(t))[j];
      }
      FlatMapSame(g, g, f(s), f(t));
    }
  }

  lemma EitherSame(x: Subject, f: Matcher, g: Matcher)
    requires SamePositions(x, f) && SamePositions(x, g)
    ensures SamePositions(x, Either(f, g))
  {
    forall s: St, t: St | Good(x, s) && s.pos == t.pos ensures Positions(Either(f, g)(s)) == Positions(Either(f, g)(t)) {
      PositionsAppend(f(s), g(s));
      PositionsAppend(f(t), g(t));
    }
  }

  lemma CapturedSame(x: Subject, f: Matcher, opens: nat, closes: nat)
    requires SamePositions(x, f)
    ensures SamePositions(x, Captured(f, opens, closes))
  {
    forall s: St, t: St | Good(x, s) && s.pos == t.pos
      ensures Positions(Captured(f, opens, closes)(s)) == Positions(Captured(f, opens, closes)(t))
    {
      var s', t' := St(s.pos, SetCap(s.caps, opens, s.pos)), St(t.pos, SetCap(t.caps, opens, t.pos));
      assert Positions(f(s')) == Positions(f(t'));
      assert Positions(MapSave(f(s'), closes)) == Positions(f(s'));
      assert Positions(MapSave(f(t'), closes)) == Positions(f(t'));
    }
  }

  lemma PeekSame(x: Subject, f: Matcher, negative: bool)
    requires SamePositions(x, f)
    ensures SamePositions(x, Peek(f, negative))
  {
    forall s: St, t: St | Good(x, s) && s.pos == t.pos ensures Positions(Peek(f, negative)(s)) == Positions(Peek(f, negative)(t)) {
      assert |Positions(f(s))| == |Positions(f(t))|;
    }
  }

  lemma {:induction false} TimesSame(x: Subject, back: bool, f: Matcher, k: nat, rest: Matcher)
    requires Steady(x, back, f) && SamePositions(x, f) && SamePositions(x, rest)
    ensures SamePositions(x, Times(f, k, rest))
  {
    hide Steady, SamePositions;
    if k > 0 {
      TimesSame(x, back, f, k - 1, rest);
      ThenSame(x, back, f, Times(f, k - 1, rest));
    }
  }

  lemma SkipSame(x: Subject)
    ensures SamePositions(x, Skip())
  {
  }

  lemma {:induction false} UptoSame(x: Subject, back: bool, f: Matcher, k: nat, greedy: bool)
    requires Steady(x, back, f) && SamePositions(x, f)
    ensures SamePositions(x, Upto(f, k, greedy))
    decreases k
  {
    hide Steady, SamePositions;
    SkipSame(x);
    if k > 0 {
      UptoSame(x, back, f, k - 1, greedy);
      var more := Then(f, Upto(f, k - 1, greedy));
      ThenSame(x, back, f, Upto(f, k - 1, greedy));
      EitherSame(x, more, Skip());
      EitherSame(x, Skip(), more);
    }
  }

  lemma {:induction false} StarSame(x: Subject, back: bool, f: Matcher, greedy: bool, s: St, t: St)
    requires Steady(x, back, f) && SamePositions(x, f) && Good(x, s) && s.pos == t.pos
    ensures Positions(Star(x, f, back, greedy, s)) == Positions(Star(x, f, back, greedy, t))
    decreases Left(x, back, s.pos), 1
  {
    hide Steady, SamePositions, FlatMap, Again;
    MoreSame(x, back, f, greedy, s, t);
    var k, l := FlatMap(Again(x, f, back, greedy, s), f(s)), FlatMap(Again(x, f, back, greedy, t), f(t));
    PositionsAppend(k, [s]);
    PositionsAppend([s], k);
    PositionsAppend(l, [t]);
    PositionsAppend([t], l);
    assert Positions([s]) == Positions([t]);
  }

  lemma {:induction false} MoreSame(x: Subject, back: bool, f: Matcher, greedy: bool, s: St, t: St)
    requires Steady(x, back, f) && SamePositions(x, f) && Good(x, s) && s.pos == t.pos
    ensures Positions(FlatMap(Again(x, f, back, greedy, s), f(s))) == Positions(FlatMap(Again(x, f, back, greedy, t), f(t)))
    decreases Left(x, back, s.pos), 0
  {
    var k, l := f(s), f(t);
    assert Positions(k) == Positions(l);
    hide Star;
    var g, h := Again(x, f, back, greedy, s), Again(x, f, back, greedy, t);
    forall j | 0 <= j < |k| ensures Positions(g(k[j])) == Positions(h(l[j])) {
      assert k[j] in k && Positions(k)[j] == Positions(l)[j];
      if Left(x, back, k[j].pos) < Left(x, back, s.pos) { StarSame(x, back, f, greedy, k[j], l[j]); }
    }
    FlatMapSame(g, h, k, l);
  }

  lemma RepeatSame(x: Subject, back: bool, f: Matcher, min: nat, max: nat, greedy: bool, first: nat, groups: nat)
    requires Steady(x, back, f) && SamePositions(x, f)
    ensures SamePositions(x, Repeat(x, f, back, min, max, greedy, first, groups))
  {
    var rest := Optional(x, f, back, min, max, greedy);
    assert SamePositions(x, rest) by {
      hide Steady;
      SkipSame(x);
      if max == INFINITE {
        forall s: St, t: St | Good(x, s) && s.pos == t.pos ensures Positions(rest(s)) == Positions(rest(t)) {
          StarSame(x, back, f, greedy, s, t);
        }
      } else if max > min {
        UptoSame(x, back, f, max - min, greedy);
      }
    }
    TimesSame(x, back, f, min, rest);
    hide Steady, Optional;
    var all := Times(f, min, rest);
    forall s: St, t: St | Good(x, s) && s.pos == t.pos
      ensures Positions(all(Prepare(s, min, first, groups))) == Positions(all(Prepare(t, min, first, groups)))
    {
      assert Good(x, Prepare(s, min, first, groups));
    }
  }

  lemma LeafSame(x: Subject, o: Flags, r: Re, back: bool)
    ensures IsAtom(r) ==> SamePositions(x, Read(x, o, r, back))
    ensures IsTest(r) ==> SamePositions(x, Test(x, o, r))
  {
  }

  lemma {:induction false} MatchesSame(x: Subject, o: Flags, r: Re, back: bool, c: nat)
    requires NoBackRefs(r)
    ensures SamePositions(x, Matches(x, o, r, back, c))
    decreases r
  {
    hide SamePositions, Repeat, Matches, Then, Either, Captured, Peek, Read, Test, Skip, Steady;
    MatchesIs(x, o, r, back, c);
    LeafSame(x, o, r, back);
    SkipSame(x);
    match r
    case Group(a) =>
      MatchesSame(x, o, a, back, c + 1);
      var f := Matches(x, o, a, back, c + 1);
      CapturedSame(x, f, 2 * c + 1, 2 * c);
      CapturedSame(x, f, 2 * c, 2 * c + 1);
    case Look(negative, behind, a) =>
      MatchesSame(x, o, a, behind, c);
      PeekSame(x, Matches(x, o, a, behind, c), negative);
    case Cat(a, b) =>
      MatchesSame(x, o, a, back, c);
      MatchesSame(x, o, b, back, c + Groups(a));
      MatchesSteady(x, o, a, back, c);
      MatchesSteady(x, o, b, back, c + Groups(a));
      var f, g := Matches(x, o, a, back, c), Matches(x, o, b, back, c + Groups(a));
      ThenSame(x, back, f, g);
      ThenSame(x, back, g, f);
    case Alt(a, b) =>
      MatchesSame(x, o, a, back, c);
      MatchesSame(x, o, b, back, c + Groups(a));
      EitherSame(x, Matches(x, o, a, back, c), Matches(x, o, b, back, c + Groups(a)));
    case Rep(a, min, max, greedy) =>
      MatchesSame(x, o, a, back, c);
      MatchesSteady(x, o, a, back, c);
      RepeatSame(x, back, Matches(x, o, a, back, c), min, max, greedy, c, Groups(a));
    case _ =>
  }
}
