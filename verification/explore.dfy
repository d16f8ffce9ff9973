/**
 * What it means for the machine to explore a list of match states: it arrives with the first one at a
 * given place, and each time it fails back to what it saved on the way, it arrives with the next.
 */
module Explore {
  import opened Instructions
  import opened Text
  import opened Pattern
  import opened Machine
  import opened Progress

  ghost predicate Reaches(e: Env, s: State, t: State) {
    exists n: nat :: Steps(e, s, n) == t
  }

  lemma ReachesRefl(e: Env, s: State)
    ensures Reaches(e, s, s)
  {
    assert Steps(e, s, 0) == s;
  }

  lemma ReachesTrans(e: Env, s: State, t: State, u: State)
    requires Reaches(e, s, t) && Reaches(e, t, u)
    ensures Reaches(e, s, u)
  {
    hide Step;
    var m: nat :| Steps(e, s, m) == t;
    var n: nat :| Steps(e, t, n) == u;
    StepsAdd(e, s, m, n);
    assert Steps(e, s, m + n) == u;
  }

  lemma ReachesStep(e: Env, s: State, t: State)
    requires Step(e, s) == t
    ensures Reaches(e, s, t)
  {
    hide Step;
    assert Steps(e, s, 1) == Steps(e, t, 0) == t;
  }

  /** No lookaround is pending in these saved states. */
  ghost predicate Plain(saved: seq<Choice>) {
    forall k :: 0 <= k < |saved| ==> saved[k].kind == SplitPoint || saved[k].kind == GreedyPoint
  }

  /** A place in the code together with the counter stack there. */
  datatype Place = Place(pc: nat, stack: seq<int>) {
    function With(st: St, saved: seq<Choice>): State { Running(pc, st.pos, st.caps, stack, saved) }
  }

  /** From `s` the machine explores `l` at `exit`, above the saved states `base`. */
  ghost predicate Explores(e: Env, s: State, exit: Place, l: seq<St>, base: seq<Choice>)
    decreases |l|
  {
    if l == [] then Reaches(e, s, Failing(base))
    else exists own: seq<Choice> {:trigger Plain(own)} ::
           Plain(own) && Reaches(e, s, exit.With(l[0], base + own)) && Explores(e, Failing(base + own), exit, l[1..], base)
  }

  lemma ExploresAfter(e: Env, s: State, t: State, exit: Place, l: seq<St>, base: seq<Choice>)
    requires Reaches(e, s, t) && Explores(e, t, exit, l, base)
    ensures Explores(e, s, exit, l, base)
  {
    hide Reaches;
    if l == [] {
      ReachesTrans(e, s, t, Failing(base));
    } else {
      var own: seq<Choice> :| Plain(own) && Reaches(e, t, exit.With(l[0], base + own))
                              && Explores(e, Failing(base + own), exit, l[1..], base);
      ReachesTrans(e, s, t, exit.With(l[0], base + own));
    }
  }

  lemma ExploresOne(e: Env, exit: Place, st: St, base: seq<Choice>)
    ensures Explores(e, exit.With(st, base), exit, [st], base)
  {
    hide Reaches;
    assert base + [] == base;
    assert Plain([]);
    ReachesRefl(e, exit.With(st, base));
    ReachesRefl(e, Failing(base));
  }

  lemma ExploresNone(e: Env, exit: Place, base: seq<Choice>)
    ensures Explores(e, Failing(base), exit, [], base)
  {
    ReachesRefl(e, Failing(base));
  }

  /** First everything in `k` above `base + own`, then everything in `l` above `base`. */
  lemma {:induction false} ExploresAppend(e: Env, s: State, exit: Place, k: seq<St>, l: seq<St>, base: seq<Choice>, own: seq<Choice>)
    requires Plain(own)
    requires Explores(e, s, exit, k, base + own)
    requires Explores(e, Failing(base + own), exit, l, base)
    ensures Explores(e, s, exit, k + l, base)
    decreases |k|
  {
    hide Reaches;
    if k == [] {
      assert k + l == l;
      ExploresAfter(e, s, Failing(base + own), exit, l, base);
    } else {
      var more: seq<Choice> :| Plain(more) && Reaches(e, s, exit.With(k[0], base + own + more))
                               && Explores(e, Failing(base + own + more), exit, k[1..], base + own);
      ExploresAppend(e, Failing(base + own + more), exit, k[1..], l, base, own);
      assert Plain(own + more);
      assert base + (own + more) == base + own + more;
      assert (k + l)[0] == k[0] && (k + l)[1..] == k[1..] + l;
    }
  }

  /** Entering `a` with any good state `st`, the machine explores `g(st)` at `b`. */
  ghost predicate From(e: Env, a: Place, g: Matcher, b: Place) {
    forall st, base :: Good(e.x, st) ==> Explores(e, a.With(st, base), b, g(st), base)
  }

  lemma {:induction false} ExploresThen(e: Env, s: State, mid: Place, l: seq<St>, g: Matcher, exit: Place, base: seq<Choice>)
    requires Explores(e, s, mid, l, base)
    requires forall st, base' :: st in l ==> Explores(e, mid.With(st, base'), exit, g(st), base')
    ensures Explores(e, s, exit, FlatMap(g, l), base)
    decreases |l|
  {
    hide Reaches;
    if l != [] {
      var own: seq<Choice> :| Plain(own) && Reaches(e, s, mid.With(l[0], base + own))
                              && Explores(e, Failing(base + own), mid, l[1..], base);
      assert l[0] in l;
      assert Explores(e, mid.With(l[0], base + own), exit, g(l[0]), base + own);
      ExploresThen(e, Failing(base + own), mid, l[1..], g, exit, base);
      ExploresAppend(e, mid.With(l[0], base + own), exit, g(l[0]), FlatMap(g, l[1..]), base, own);
      ExploresAfter(e, s, mid.With(l[0], base + own), exit, FlatMap(g, l), base);
    }
  }

  lemma FromThen(e: Env, back: bool, a: Place, f: Matcher, b: Place, g: Matcher, c: Place)
    requires Steady(e.x, back, f)
    requires From(e, a, f, b) && From(e, b, g, c)
    ensures From(e, a, Then(f, g), c)
  {
    hide Explores, Place.With;
    forall st, base | Good(e.x, st) ensures Explores(e, a.With(st, base), c, Then(f, g)(st), base) {
      ExploresThen(e, a.With(st, base), b, f(st), g, c, base);
    }
  }

  lemma FromSkip(e: Env, a: Place)
    ensures From(e, a, Skip(), a)
  {
    hide Explores, Place.With;
    forall st, base | Good(e.x, st) ensures Explores(e, a.With(st, base), a, Skip()(st), base) {
      ExploresOne(e, a, st, base);
    }
  }

  lemma FromCongruence(e: Env, a: Place, f: Matcher, g: Matcher, b: Place)
    requires From(e, a, f, b)
    requires forall st :: Good(e.x, st) ==> f(st) == g(st)
    ensures From(e, a, g, b)
  {
    hide Explores, Place.With;
    forall st, base | Good(e.x, st) ensures Explores(e, a.With(st, base), b, g(st), base) {
      assert Explores(e, a.With(st, base), b, f(st), base);
    }
  }

  /** Entering `a`, the machine goes on to `b` in one step and changes nothing else. */
  ghost predicate Passes(e: Env, a: Place, b: Place) {
    forall st, base :: Good(e.x, st) ==> Step(e, a.With(st, base)) == b.With(st, base)
  }

  lemma FromPass(e: Env, a: Place, b: Place, g: Matcher, c: Place)
    requires Passes(e, a, b) && From(e, b, g, c)
    ensures From(e, a, g, c)
  {
    hide Explores, Place.With, Step;
    forall st, base | Good(e.x, st) ensures Explores(e, a.With(st, base), c, g(st), base) {
      ReachesStep(e, a.With(st, base), b.With(st, base));
      ExploresAfter(e, a.With(st, base), b.With(st, base), c, g(st), base);
    }
  }

  lemma {:induction false} FlatMapSkip(l: seq<St>)
    ensures FlatMap(Skip(), l) == l
  {
    if l != [] {
      FlatMapSkip(l[1..]);
      assert l == [l[0]] + l[1..];
    }
  }

  /** What was explored at `b` is explored at `c` when the code goes on from `b` to `c`. */
  lemma FromOnward(e: Env, back: bool, a: Place, f: Matcher, b: Place, c: Place)
    requires Steady(e.x, back, f)
    requires From(e, a, f, b) && From(e, b, Skip(), c)
    ensures From(e, a, f, c)
  {
    hide From;
    FromThen(e, back, a, f, b, Skip(), c);
    forall st | Good(e.x, st) ensures Then(f, Skip())(st) == f(st) {
      FlatMapSkip(f(st));
    }
    FromCongruence(e, a, Then(f, Skip()), f, c);
  }
}
