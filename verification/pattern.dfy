/** Patterns, and a recursive priority-ordered matcher that says what they mean. */
module Pattern {
  import opened Text

  const INFINITE: int := 0x7fff_ffff

  /**
   * A pattern as the parser sees it. Capture groups are numbered by the order of their opening
   * parenthesis, so they carry no number; `Dot`, `Set` and `Chr` are the single-character atoms.
   */
  datatype Re =
    | Empty
    | Chr(ch: code)
    | Dot
    | Set(points: seq<int>)
    | LineStart
    | LineEnd
    | WordBoundary(neg: bool)
    | BackRef(n: nat)
    | Group(body: Re)
    | Look(negative: bool, behind: bool, body: Re)
    | Cat(left: Re, right: Re)
    | Alt(left: Re, right: Re)
    | Rep(body: Re, min: nat, max: nat, greedy: bool)

  /** Flags of the expression; `canon` stands for `lre_canonicalize`. */
  datatype Flags = Flags(multiLine: bool, dotAll: bool, ignoreCase: bool, canon: code -> code) {
    function Fold(c: code): code { if ignoreCase then canon(c) else c }
  }

  /** Number of capture groups in `r`. */
  function Groups(r: Re): nat {
    match r
    case Group(a) => 1 + Groups(a)
    case Look(_, _, a) => Groups(a)
    case Cat(a, b) => Groups(a) + Groups(b)
    case Alt(a, b) => Groups(a) + Groups(b)
    case Rep(a, _, _, _) => Groups(a)
    case _ => 0
  }

  // ----- single characters and assertions -----

  predicate IsLineTerminator(c: code) { c == 0x0a || c == 0x0d || c == 0x2028 || c == 0x2029 }

  predicate IsWordChar(c: code) {
    0x30 <= c <= 0x39 || 0x61 <= c <= 0x7a || 0x41 <= c <= 0x5a || c == 0x5f
  }

  /** Membership in a character set given by the points where it is entered and left. */
  function InSet(points: seq<int>, c: int): bool {
    if points == [] || c < points[0] then false else !InSet(points[1..], c)
  }

  predicate IsAtom(r: Re) { r.Chr? || r.Dot? || r.Set? }

  /** The character `c` matches the atom `r`. */
  predicate Accepts(o: Flags, r: Re, c: code)
    requires IsAtom(r)
  {
    match r
    case Chr(ch) => o.Fold(ch) == o.Fold(c)
    case Dot => o.dotAll || !IsLineTerminator(c)
    case Set(points) => InSet(points, o.Fold(c))
  }

  predicate AtLineStart(x: Subject, o: Flags, pos: nat)
    requires pos <= |x.units|
  {
    pos == 0 || (o.multiLine && IsLineTerminator(GetPrevChar(x, pos, 0).0))
  }

  predicate AtLineEnd(x: Subject, o: Flags, pos: nat)
    requires pos <= |x.units|
  {
    pos == |x.units| || (o.multiLine && IsLineTerminator(GetChar(x, pos, |x.units|).0))
  }

  predicate AtWordBoundary(x: Subject, pos: nat)
    requires pos <= |x.units|
  {
    (pos > 0 && IsWordChar(GetPrevChar(x, pos, 0).0)) != (pos < |x.units| && IsWordChar(GetChar(x, pos, |x.units|).0))
  }

  predicate IsTest(r: Re) { r.LineStart? || r.LineEnd? || r.WordBoundary? }

  predicate Holds(x: Subject, o: Flags, r: Re, pos: nat)
    requires IsTest(r)
    requires pos <= |x.units|
  {
    match r
    case LineStart => AtLineStart(x, o, pos)
    case LineEnd => AtLineEnd(x, o, pos)
    case WordBoundary(neg) => AtWordBoundary(x, pos) != neg
  }

  // ----- match states -----

  /** A position and the capture bounds: start and end of group `k` at `2k` and `2k+1`, -1 for unset. */
  datatype St = St(pos: nat, caps: seq<int>)

  function SetCap(caps: seq<int>, k: nat, v: int): (r: seq<int>)
    ensures |r| == |caps|
  {
    if k < |caps| then caps[k := v] else caps
  }

  /** Unset the captures `first` to `last`, both included. */
  function ResetCaps(caps: seq<int>, first: nat, last: int): (r: seq<int>)
    ensures |r| == |caps|
    decreases last - first
  {
    if first > last then caps else ResetCaps(SetCap(SetCap(caps, 2 * first, -1), 2 * first + 1, -1), first + 1, last)
  }

  /** The characters of `[from, to)` and those from `pos` on agree; the position after them, or -1. */
  function SameForward(x: Subject, o: Flags, from: nat, to: nat, pos: nat): (r: int)
    requires to <= |x.units| && pos <= |x.units|
    ensures r < 0 || pos <= r <= |x.units|
    ensures r >= 0 && Boundary(x, pos) ==> Boundary(x, r)
    decreases if from < to then to - from else 0
  {
    if from >= to then pos
    else if pos >= |x.units| then -1
    else
      var (c1, from') := GetChar(x, from, to);
      var (c2, pos') := GetChar(x, pos, |x.units|);
      if o.Fold(c1) == o.Fold(c2) then SameForward(x, o, from', to, pos') else -1
  }

  /** The same reading both texts backwards. */
  function SameBackward(x: Subject, o: Flags, from: nat, to: nat, pos: nat): (r: int)
    requires to <= |x.units| && pos <= |x.units|
    ensures -1 <= r <= pos
    ensures r >= 0 && Boundary(x, pos) ==> Boundary(x, r)
    decreases if from < to then to - from else 0
  {
    if from >= to then pos
    else if pos == 0 then -1
    else
      var (c1, to') := GetPrevChar(x, to, from);
      var (c2, pos') := GetPrevChar(x, pos, 0);
      if o.Fold(c1) == o.Fold(c2) then SameBackward(x, o, from, to', pos') else -1
  }

  /** Where a back reference to capture `n` leads from `pos`; an unset capture matches the empty text. */
  function FollowBackRef(x: Subject, o: Flags, caps: seq<int>, n: nat, back: bool, pos: nat): (r: int)
    requires pos <= |x.units|
    ensures r < 0 || (if back then r <= pos else pos <= r <= |x.units|)
    ensures r >= 0 && Boundary(x, pos) ==> Boundary(x, r)
  {
    if 2 * n + 1 >= |caps| then -1
    else
      var start, end := caps[2 * n], caps[2 * n + 1];
      if start < 0 || end < 0 then pos
      else if end > |x.units| then -1
      else if back then SameBackward(x, o, start, end, pos)
      else SameForward(x, o, start, end, pos)
  }

  // ----- the matcher -----

  type Matcher = St -> seq<St>

  function FlatMap(f: Matcher, l: seq<St>): seq<St> {
    if l == [] then [] else f(l[0]) + FlatMap(f, l[1..])
  }

  function MapSave(l: seq<St>, k: nat): (r: seq<St>)
    ensures |r| == |l|
    ensures forall j :: 0 <= j < |l| ==> r[j] == St(l[j].pos, SetCap(l[j].caps, k, l[j].pos))
  {
    if l == [] then [] else [St(l[0].pos, SetCap(l[0].caps, k, l[0].pos))] + MapSave(l[1..], k)
  }

  /** One character, read in the direction of the match. */
  function OneChar(x: Subject, o: Flags, r: Re, back: bool, st: St): seq<St>
    requires IsAtom(r)
  {
    var n := |x.units|;
    if st.pos > n then []
    else if back then
      if st.pos > 0 && Accepts(o, r, GetPrevChar(x, st.pos, 0).0) then [st.(pos := GetPrevChar(x, st.pos, 0).1)] else []
    else
      if st.pos < n && Accepts(o, r, GetChar(x, st.pos, n).0) then [st.(pos := GetChar(x, st.pos, n).1)] else []
  }

  /** `f`, and from each of its results `g`. */
  function Then(f: Matcher, g: Matcher): Matcher { (st: St) => FlatMap(g, f(st)) }

  /** The results of `f`, then those of `g`. */
  function Either(f: Matcher, g: Matcher): Matcher { (st: St) => f(st) + g(st) }

  /** `f` with its first bound saved in capture slot `opens` and its last in `closes`. */
  function Captured(f: Matcher, opens: nat, closes: nat): Matcher {
    (st: St) => MapSave(f(St(st.pos, SetCap(st.caps, opens, st.pos))), closes)
  }

  /** A lookaround keeps the captures of the first result of `f` but not its position, and no other result. */
  function Peek(f: Matcher, negative: bool): Matcher {
    (st: St) =>
      if negative then if f(st) == [] then [st] else []
      else if f(st) == [] then [] else [St(st.pos, f(st)[0].caps)]
  }

  function Read(x: Subject, o: Flags, r: Re, back: bool): Matcher
    requires IsAtom(r)
  {
    (st: St) => OneChar(x, o, r, back, st)
  }

  function Test(x: Subject, o: Flags, r: Re): Matcher
    requires IsTest(r)
  {
    (st: St) => if st.pos <= |x.units| && Holds(x, o, r, st.pos) then [st] else []
  }

  function Recall(x: Subject, o: Flags, n: nat, back: bool): Matcher {
    (st: St) =>
      if st.pos <= |x.units| && FollowBackRef(x, o, st.caps, n, back, st.pos) >= 0
      then [St(FollowBackRef(x, o, st.caps, n, back, st.pos), st.caps)] else []
  }

  function Skip(): Matcher { (st: St) => [st] }

  /** What is left of the subject in the direction of the match. */
  function Left(x: Subject, back: bool, pos: nat): nat {
    if back then pos else if pos < |x.units| then |x.units| - pos else 0
  }

  /** `f` exactly `k` times, and then `rest`. */
  function Times(f: Matcher, k: nat, rest: Matcher): Matcher {
    if k == 0 then rest else Then(f, Times(f, k - 1, rest))
  }

  /** `f` at most `k` times; greedy tries one more round first, lazy tries to stop first. */
  function Upto(f: Matcher, k: nat, greedy: bool): Matcher {
    if k == 0 then Skip()
    else if greedy then Either(Then(f, Upto(f, k - 1, greedy)), Skip())
    else Either(Skip(), Then(f, Upto(f, k - 1, greedy)))
  }

  /** `f` any number of times; a round that did not move ends the repetition. */
  function Star(x: Subject, f: Matcher, back: bool, greedy: bool, st: St): seq<St>
    decreases Left(x, back, st.pos), 1
  {
    var more := FlatMap(Again(x, f, back, greedy, st), f(st));
    if greedy then more + [st] else [st] + more
  }

  function Again(x: Subject, f: Matcher, back: bool, greedy: bool, before: St): Matcher
    decreases Left(x, back, before.pos), 0
  {
    (st: St) =>
      if Left(x, back, st.pos) < Left(x, back, before.pos) then Star(x, f, back, greedy, st) else [st]
  }

  function StarFrom(x: Subject, f: Matcher, back: bool, greedy: bool): Matcher {
    (st: St) => Star(x, f, back, greedy, st)
  }

  /** What follows the `min` compulsory rounds of a repetition. */
  function Optional(x: Subject, f: Matcher, back: bool, min: nat, max: nat, greedy: bool): Matcher {
    if max == INFINITE then StarFrom(x, f, back, greedy)
    else if max > min then Upto(f, max - min, greedy)
    else Skip()
  }

  /** A repetition that may be skipped first unsets the captures made in its body. */
  function Prepare(st: St, min: nat, first: nat, groups: nat): St {
    if min == 0 && groups > 0 then St(st.pos, ResetCaps(st.caps, first, first + groups - 1)) else st
  }

  function Repeat(x: Subject, f: Matcher, back: bool, min: nat, max: nat, greedy: bool, first: nat, groups: nat): Matcher {
    (st: St) => Times(f, min, Optional(x, f, back, min, max, greedy))(Prepare(st, min, first, groups))
  }

  /**
   * All the ways `r` matches from a state, best first. `back` is the direction (set inside a
   * lookbehind) and `c` the number of the first capture group of `r`.
   */
  function Matches(x: Subject, o: Flags, r: Re, back: bool, c: nat): Matcher
    decreases r
  {
    match r
    case Empty => Skip()
    case Chr(_) => Read(x, o, r, back)
    case Dot => Read(x, o, r, back)
    case Set(_) => Read(x, o, r, back)
    case LineStart => Test(x, o, r)
    case LineEnd => Test(x, o, r)
    case WordBoundary(_) => Test(x, o, r)
    case BackRef(n) => Recall(x, o, n, back)
    case Group(a) =>
      var f := Matches(x, o, a, back, c + 1);
      if back then Captured(f, 2 * c + 1, 2 * c) else Captured(f, 2 * c, 2 * c + 1)
    case Look(negative, behind, a) => Peek(Matches(x, o, a, behind, c), negative)
    case Cat(a, b) =>
      var f, g := Matches(x, o, a, back, c), Matches(x, o, b, back, c + Groups(a));
      if back then Then(g, f) else Then(f, g)
    case Alt(a, b) => Either(Matches(x, o, a, back, c), Matches(x, o, b, back, c + Groups(a)))
    case Rep(a, min, max, greedy) =>
      Repeat(x, Matches(x, o, a, back, c), back, min, max, greedy, c, Groups(a))
  }

  /** One level of the meaning of a pattern. */
  lemma MatchesIs(x: Subject, o: Flags, r: Re, back: bool, c: nat)
    ensures r.Empty? ==> Matches(x, o, r, back, c) == Skip()
    ensures IsAtom(r) ==> Matches(x, o, r, back, c) == Read(x, o, r, back)
    ensures IsTest(r) ==> Matches(x, o, r, back, c) == Test(x, o, r)
    ensures r.BackRef? ==> Matches(x, o, r, back, c) == Recall(x, o, r.n, back)
    ensures r.Group? ==>
              var f := Matches(x, o, r.body, back, c + 1);
              Matches(x, o, r, back, c) == if back then Captured(f, 2 * c + 1, 2 * c) else Captured(f, 2 * c, 2 * c + 1)
    ensures r.Look? ==> Matches(x, o, r, back, c) == Peek(Matches(x, o, r.body, r.behind, c), r.negative)
    ensures r.Cat? ==>
              var f, g := Matches(x, o, r.left, back, c), Matches(x, o, r.right, back, c + Groups(r.left));
              Matches(x, o, r, back, c) == if back then Then(g, f) else Then(f, g)
    ensures r.Alt? ==> Matches(x, o, r, back, c) == Either(Matches(x, o, r.left, back, c), Matches(x, o, r.right, back, c + Groups(r.left)))
    ensures r.Rep? ==>
              Matches(x, o, r, back, c) == Repeat(x, Matches(x, o, r.body, back, c), back, r.min, r.max, r.greedy, c, Groups(r.body))
  {
    hide Read, Test, Recall, Captured, Peek, Then, Either, Repeat, Skip, Groups;
  }
}
