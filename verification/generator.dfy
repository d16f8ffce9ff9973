/** The code the parser leaves in its buffer for each form of pattern. */
module Generator {
  import opened Instructions
  import opened Code
  import opened Pattern
  import opened RangeCode

  function AtomCode(o: Flags, r: Re): Instr
    requires IsAtom(r)
  {
    match r
    case Chr(ch) => if o.Fold(ch) <= 0xffff then Instr.Char(o.Fold(ch)) else Char32(o.Fold(ch))
    case Dot => if o.dotAll then AnyOp else DotOp
    case Set(points) => SetCode(points)
  }

  /** A backward atom steps back, reads, and steps back again. */
  function Directed(i: Instr, back: bool): seq<Instr> {
    if back then [Prev, i, Prev] else [i]
  }

  function AltCode(a: seq<Instr>, b: seq<Instr>): seq<Instr> {
    [Split(true, CodeSize(a) + 5)] + (a + ([Goto(CodeSize(b))] + b))
  }

  function LookCode(negative: bool, b: seq<Instr>): seq<Instr> {
    [Lookahead(negative, CodeSize(b) + 1)] + (b + [Match])
  }

  function GroupCode(b: seq<Instr>, back: bool, c: nat): seq<Instr> {
    [Save(back, c)] + (b + [Save(!back, c)])
  }

  // ----- quantifiers over a body `b` -----

  /** The quantifier as one opcode, for a straight-line body. */
  function FastCode(b: seq<Instr>, min: nat, max: nat): seq<Instr> {
    [SimpleGreedyQuant(CodeSize(b) + 1, min, max, SimpleCount(b))] + (b + [Match])
  }

  function ResetCode(c: nat, groups: nat): seq<Instr> {
    if groups > 0 then [SaveReset(c, c + groups - 1)] else []
  }

  function OnceCode(b: seq<Instr>, greedy: bool): seq<Instr> {
    [Split(greedy, CodeSize(b))] + b
  }

  function StarCode(b: seq<Instr>, greedy: bool, guarded: bool): seq<Instr> {
    if guarded
    then [Split(greedy, CodeSize(b) + 6)] + ([PushCharPos] + (b + [BneCharPos(-(CodeSize(b) + 11))]))
    else [Split(greedy, CodeSize(b) + 5)] + (b + [Goto(-(CodeSize(b) + 10))])
  }

  function PlusCode(b: seq<Instr>, greedy: bool): seq<Instr> {
    b + [Split(!greedy, -(CodeSize(b) + 5))]
  }

  function TimesCode(b: seq<Instr>, k: nat): seq<Instr> {
    [PushI32(k)] + (b + ([Loop(-(CodeSize(b) + 5))] + [Drop]))
  }

  function UptoCode(b: seq<Instr>, k: nat, greedy: bool): seq<Instr> {
    [PushI32(k)] + ([Split(greedy, CodeSize(b) + 5)] + (b + ([Loop(-(CodeSize(b) + 10))] + [Drop])))
  }

  /** The code for the optional rounds after `min >= 1` compulsory ones. */
  function TailCode(b: seq<Instr>, min: nat, max: nat, greedy: bool, guarded: bool): seq<Instr> {
    if max == INFINITE then StarCode(b, greedy, guarded)
    else if max > min then UptoCode(b, max - min, greedy)
    else []
  }

  function SkippableCode(b: seq<Instr>, max: nat, greedy: bool, guarded: bool): seq<Instr> {
    if max == 0 then []
    else if max == 1 then OnceCode(b, greedy)
    else if max == INFINITE then StarCode(b, greedy, guarded)
    else UptoCode(b, max, greedy)
  }

  /** The general encoding of `{min,max}`. */
  function GeneralCode(b: seq<Instr>, min: nat, max: nat, greedy: bool, guarded: bool, c: nat, groups: nat): seq<Instr> {
    if min == 0 then ResetCode(c, groups) + SkippableCode(b, max, greedy, guarded)
    else if min == 1 && max == INFINITE && !guarded then PlusCode(b, greedy)
    else (if min == 1 then b else TimesCode(b, min)) + TailCode(b, min, max, greedy, guarded)
  }

  predicate UsesFast(b: seq<Instr>, max: nat, greedy: bool) {
    greedy && max > 0 && SimpleCount(b) > 0
  }

  ghost predicate NeedsGuard(b: seq<Instr>, greedy: bool) {
    greedy && AdvanceScore(b) == 0
  }

  ghost function RepCode(b: seq<Instr>, min: nat, max: nat, greedy: bool, c: nat, groups: nat): seq<Instr> {
    if UsesFast(b, max, greedy) then FastCode(b, min, max)
    else GeneralCode(b, min, max, greedy, NeedsGuard(b, greedy), c, groups)
  }

  /** The code of `r`; `c` is the number of its first capture group. */
  ghost function Gen(o: Flags, r: Re, back: bool, c: nat): seq<Instr>
    decreases r
  {
    match r
    case Empty => []
    case Chr(_) => Directed(AtomCode(o, r), back)
    case Dot => Directed(AtomCode(o, r), back)
    case Set(_) => Directed(AtomCode(o, r), back)
    case LineStart => [LineStartOp]
    case LineEnd => [LineEndOp]
    case WordBoundary(neg) => [WordBoundaryOp(neg)]
    case BackRef(n) => [BackRefOp(back, n)]
    case Group(a) => GroupCode(Gen(o, a, back, c + 1), back, c)
    case Look(negative, behind, a) => LookCode(negative, Gen(o, a, behind, c))
    case Cat(a, b) =>
      if back then Gen(o, b, back, c + Groups(a)) + Gen(o, a, back, c)
      else Gen(o, a, back, c) + Gen(o, b, back, c + Groups(a))
    case Alt(a, b) => AltCode(Gen(o, a, back, c), Gen(o, b, back, c + Groups(a)))
    case Rep(a, min, max, greedy) => RepCode(Gen(o, a, back, c), min, max, greedy, c, Groups(a))
  }

  /** One level of the code of a pattern. */
  lemma GenIs(o: Flags, r: Re, back: bool, c: nat)
    ensures r.Empty? ==> Gen(o, r, back, c) == []
    ensures IsAtom(r) ==> Gen(o, r, back, c) == Directed(AtomCode(o, r), back)
    ensures r.LineStart? ==> Gen(o, r, back, c) == [LineStartOp]
    ensures r.LineEnd? ==> Gen(o, r, back, c) == [LineEndOp]
    ensures r.WordBoundary? ==> Gen(o, r, back, c) == [WordBoundaryOp(r.neg)]
    ensures r.BackRef? ==> Gen(o, r, back, c) == [BackRefOp(back, r.n)]
    ensures r.Group? ==> Gen(o, r, back, c) == GroupCode(Gen(o, r.body, back, c + 1), back, c)
    ensures r.Look? ==> Gen(o, r, back, c) == LookCode(r.negative, Gen(o, r.body, r.behind, c))
    ensures r.Cat? ==>
              var x, y := Gen(o, r.left, back, c), Gen(o, r.right, back, c + Groups(r.left));
              Gen(o, r, back, c) == if back then y + x else x + y
    ensures r.Alt? ==> Gen(o, r, back, c) == AltCode(Gen(o, r.left, back, c), Gen(o, r.right, back, c + Groups(r.left)))
    ensures r.Rep? ==> Gen(o, r, back, c) == RepCode(Gen(o, r.body, back, c), r.min, r.max, r.greedy, c, Groups(r.body))
  {
    hide RepCode, AltCode, LookCode, GroupCode, Directed, AtomCode, Groups;
  }
}
