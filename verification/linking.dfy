/**
 * Closed blocks: every jump of a block lands on an instruction boundary inside or at the end of the
 * block, with the counter-stack height that a linear scan gives for that place.
 */
module Linking {
  import opened Bytes
  import opened Instructions
  import opened Code
  import opened Text
  import opened Pattern
  import opened RangeCode
  import opened Generator
  import opened Correctness

  /** An instruction of `all`, or its end, lies at byte `at`, where the linear scan gives `height`. */
  ghost predicate Label(all: seq<Instr>, at: int, height: int) {
    exists j :: 0 <= j <= |all| && CodeSize(all[..j]) == at && Height(all[..j]) == height
  }

  /** The body of a fast quantifier: straight-line code and a `match` at the front of `code`. */
  ghost predicate BodyAhead(code: seq<Instr>, size: int, count: int) {
    exists m :: 0 <= m < |code| && SimpleCount(code[..m]) == count && count > 0 && CodeSize(code[..m]) + 1 == size && code[m] == Match
  }

  /** The first instruction of `code`, at byte `at` and `height`, is sound for `captures` captures. */
  ghost predicate Sound(all: seq<Instr>, code: seq<Instr>, at: int, height: int, captures: nat)
    requires code != []
  {
    var next, after := at + Size(code[0]), height + Delta(code[0]);
    after >= 0 && Fits(code[0]) &&
    match code[0]
    case Goto(off) => Label(all, next + off, after)
    case Split(_, off) => Label(all, next + off, after)
    case Loop(off) => height >= 1 && Label(all, next + off, after)
    case BneCharPos(off) => Label(all, next + off, after)
    case Lookahead(_, off) => Label(all, next + off, after)
    case Save(_, k) => 0 <= k < captures
    case SaveReset(first, last) => 0 <= first <= last < captures
    case Range(pairs) => pairs != [] && Ordered(pairs)
    case Range32(pairs) => pairs != [] && Ordered(pairs)
    case SimpleGreedyQuant(off, min, max, count) =>
      0 <= min <= max && 0 < max && BodyAhead(code[1..], off, count) && Label(all, next + off, after)
    case _ => true
  }

  ghost predicate Linked(all: seq<Instr>, code: seq<Instr>, at: int, height: int, captures: nat)
    decreases code
  {
    code == [] ||
    (Sound(all, code, at, height, captures)
     && Linked(all, code[1..], at + Size(code[0]), height + Delta(code[0]), captures))
  }

  ghost predicate Closed(code: seq<Instr>, captures: nat) {
    Height(code) == 0 && Linked(code, code, 0, 0, captures)
  }

  // ----- labels -----

  lemma LabelStart(all: seq<Instr>)
    ensures Label(all, 0, 0)
  {
    assert all[..0] == [];
  }

  lemma LabelEnd(all: seq<Instr>)
    ensures Label(all, CodeSize(all), Height(all))
  {
    assert all[..|all|] == all;
  }

  lemma LabelRight(x: seq<Instr>, y: seq<Instr>, at: int, height: int)
    requires Label(y, at, height)
    ensures Label(x + y, CodeSize(x) + at, Height(x) + height)
  {
    var j :| 0 <= j <= |y| && CodeSize(y[..j]) == at && Height(y[..j]) == height;
    assert (x + y)[..|x| + j] == x + y[..j];
    SizeAppend(x, y[..j]);
    HeightAppend(x, y[..j]);
  }

  lemma LabelLeft(x: seq<Instr>, y: seq<Instr>, at: int, height: int)
    requires Label(x, at, height)
    ensures Label(x + y, at, height)
  {
    var j :| 0 <= j <= |x| && CodeSize(x[..j]) == at && Height(x[..j]) == height;
    assert (x + y)[..j] == x[..j];
  }

  /** Where two parts of a block meet there is a label. */
  lemma LabelBetween(x: seq<Instr>, y: seq<Instr>)
    ensures Label(x + y, CodeSize(x), Height(x))
  {
    LabelEnd(x);
    LabelLeft(x, y, CodeSize(x), Height(x));
  }

  // ----- composing linked code -----

  lemma BodyAheadExtends(x: seq<Instr>, y: seq<Instr>, size: int, count: int)
    requires BodyAhead(x, size, count)
    ensures BodyAhead(x + y, size, count)
  {
    var m :| 0 <= m < |x| && SimpleCount(x[..m]) == count && count > 0 && CodeSize(x[..m]) + 1 == size && x[m] == Match;
    assert (x + y)[..m] == x[..m];
  }

  lemma SoundExtends(all: seq<Instr>, x: seq<Instr>, y: seq<Instr>, at: int, height: int, captures: nat)
    requires x != [] && Sound(all, x, at, height, captures)
    ensures Sound(all, x + y, at, height, captures)
  {
    hide Size, Delta, Fits, Label, BodyAhead;
    assert (x + y)[0] == x[0] && (x + y)[1..] == x[1..] + y;
    if x[0].SimpleGreedyQuant? { BodyAheadExtends(x[1..], y, x[0].off, x[0].count); }
  }

  lemma {:induction false} LinkedAppend(all: seq<Instr>, x: seq<Instr>, y: seq<Instr>, at: int, height: int, captures: nat)
    requires Linked(all, x, at, height, captures)
    requires Linked(all, y, at + CodeSize(x), height + Height(x), captures)
    ensures Linked(all, x + y, at, height, captures)
    decreases x
  {
    hide Size, Delta, Sound, CodeSize, Height;
    SizesCons(x);
    if x == [] {
      assert x + y == y;
    } else {
      assert (x + y)[0] == x[0] && (x + y)[1..] == x[1..] + y;
      LinkedAppend(all, x[1..], y, at + Size(x[0]), height + Delta(x[0]), captures);
      SoundExtends(all, x, y, at, height, captures);
    }
  }

  lemma SizesCons(x: seq<Instr>)
    ensures x == [] ==> CodeSize(x) == 0 && Height(x) == 0
    ensures x != [] ==> CodeSize(x) == Size(x[0]) + CodeSize(x[1..]) && Height(x) == Delta(x[0]) + Height(x[1..])
  {
    hide Size, Delta;
  }

  /** A block that is linked in itself is linked wherever it is embedded. */
  lemma LabelEmbed(pre: seq<Instr>, b: seq<Instr>, post: seq<Instr>, at: int, height: int)
    requires Label(b, at, height)
    ensures Label(pre + (b + post), CodeSize(pre) + at, Height(pre) + height)
  {
    hide Label;
    LabelLeft(b, post, at, height);
    LabelRight(pre, b + post, at, height);
  }

  lemma SoundEmbed(pre: seq<Instr>, b: seq<Instr>, post: seq<Instr>, code: seq<Instr>, at: int, height: int, captures: nat)
    requires code != [] && Sound(b, code, at, height, captures) && Height(pre) >= 0
    ensures Sound(pre + (b + post), code, CodeSize(pre) + at, Height(pre) + height, captures)
  {
    hide Size, Delta, Fits, Label, BodyAhead, CodeSize, Height;
    if code[0].Goto? || code[0].Split? || code[0].Loop? || code[0].BneCharPos? || code[0].Lookahead? || code[0].SimpleGreedyQuant? {
      LabelEmbed(pre, b, post, at + Size(code[0]) + code[0].off, height + Delta(code[0]));
    }
  }

  lemma {:induction false} LinkedEmbed(pre: seq<Instr>, b: seq<Instr>, post: seq<Instr>, code: seq<Instr>, at: int, height: int, captures: nat)
    requires Linked(b, code, at, height, captures) && Height(pre) >= 0
    ensures Linked(pre + (b + post), code, CodeSize(pre) + at, Height(pre) + height, captures)
    decreases code
  {
    hide Size, Delta, Sound, CodeSize, Height;
    if code != [] {
      LinkedEmbed(pre, b, post, code[1..], at + Size(code[0]), height + Delta(code[0]), captures);
      SoundEmbed(pre, b, post, code, at, height, captures);
    }
  }

  /** A closed block inside a larger one is linked there. */
  lemma EmbedClosed(pre: seq<Instr>, b: seq<Instr>, post: seq<Instr>, captures: nat)
    requires Closed(b, captures) && Height(pre) >= 0
    ensures Linked(pre + (b + post), b, CodeSize(pre), Height(pre), captures)
  {
    LinkedEmbed(pre, b, post, b, 0, 0, captures);
  }

  lemma LinkedCons(all: seq<Instr>, i: Instr, rest: seq<Instr>, at: int, height: int, captures: nat)
    requires Sound(all, [i] + rest, at, height, captures)
    requires Linked(all, rest, at + Size(i), height + Delta(i), captures)
    ensures Linked(all, [i] + rest, at, height, captures)
  {
    hide Sound, Size, Delta;
    assert ([i] + rest)[0] == i && ([i] + rest)[1..] == rest;
  }

  lemma LinkedOne(all: seq<Instr>, i: Instr, at: int, height: int, captures: nat)
    requires Sound(all, [i], at, height, captures)
    ensures Linked(all, [i], at, height, captures)
  {
    hide Sound;
    assert [i][0] == i && [i][1..] == [];
  }

  lemma SizeHeightCons(i: Instr, rest: seq<Instr>)
    ensures CodeSize([i] + rest) == Size(i) + CodeSize(rest) && Height([i] + rest) == Delta(i) + Height(rest)
  {
    assert ([i] + rest)[0] == i && ([i] + rest)[1..] == rest;
  }

  lemma SizeHeightOne(i: Instr)
    ensures CodeSize([i]) == Size(i) && Height([i]) == Delta(i)
  {
    assert [i][0] == i && [i][1..] == [];
  }

  lemma ClosedNothing(captures: nat)
    ensures Closed([], captures)
  {
  }

  lemma ClosedOne(i: Instr, captures: nat)
    requires (i.Range? || i.Range32?) ==> i.pairs != [] && Ordered(i.pairs)
    requires Fits(i) && (IsSimple(i) || i.Prev? || i.BackRefOp? || (i.Save? && i.n < captures) || (i.SaveReset? && i.first <= i.last < captures))
    ensures Closed([i], captures)
  {
    SizeHeightOne(i);
    LinkedOne([i], i, 0, 0, captures);
  }

  lemma ClosedAppend(x: seq<Instr>, y: seq<Instr>, captures: nat)
    requires Closed(x, captures) && Closed(y, captures)
    ensures Closed(x + y, captures)
  {
    hide Linked;
    HeightAppend(x, y);
    assert Height([]) == 0 && CodeSize([]) == 0;
    EmbedClosed([], x, y, captures);
    EmbedClosed(x, y, [], captures);
    assert [] + (x + y) == x + y && x + (y + []) == x + y;
    LinkedAppend(x + y, x, y, 0, 0, captures);
  }

  // ----- the encodings -----

  predicate Small(code: seq<Instr>) { CodeSize(code) < 0x8000_0000 }

  /** A closed body between a front and a tail. */
  lemma Around(pre: seq<Instr>, b: seq<Instr>, tail: seq<Instr>, captures: nat)
    requires Closed(b, captures) && 0 <= Height(pre)
    requires Linked(pre + (b + tail), pre, 0, 0, captures)
    requires Linked(pre + (b + tail), tail, CodeSize(pre) + CodeSize(b), Height(pre), captures)
    ensures Linked(pre + (b + tail), pre + (b + tail), 0, 0, captures)
    ensures CodeSize(pre + (b + tail)) == CodeSize(pre) + CodeSize(b) + CodeSize(tail)
    ensures Height(pre + (b + tail)) == Height(pre) + Height(tail)
  {
    hide Linked, CodeSize, Height;
    var all := pre + (b + tail);
    SizeAppend(pre, b + tail);
    HeightAppend(pre, b + tail);
    SizeAppend(b, tail);
    HeightAppend(b, tail);
    EmbedClosed(pre, b, tail, captures);
    LinkedAppend(all, b, tail, CodeSize(pre), Height(pre), captures);
    LinkedAppend(all, pre, b + tail, 0, 0, captures);
  }

  /** Labels around a body: at the start, before and after it, after the first instruction of the tail, at the end. */
  lemma AroundLabels(pre: seq<Instr>, b: seq<Instr>, j: Instr, rest: seq<Instr>)
    requires Height(b) == 0
    ensures var all := pre + (b + ([j] + rest));
            var n, h := CodeSize(pre) + CodeSize(b), Height(pre);
            && Label(all, 0, 0)
            && Label(all, CodeSize(pre), h)
            && Label(all, n, h)
            && Label(all, n + Size(j), h + Delta(j))
            && Label(all, n + Size(j) + CodeSize(rest), h + Delta(j) + Height(rest))
  {
    hide Label, Size, Delta, CodeSize, Height;
    var tail := [j] + rest;
    LabelStart(pre + (b + tail));
    LabelBetween(pre, b + tail);
    LabelStart(tail);
    TailLabel(pre, b, tail, 0, 0);
    SizeHeightOne(j);
    LabelBetween([j], rest);
    TailLabel(pre, b, tail, Size(j), Delta(j));
    SizeHeightCons(j, rest);
    LabelEnd(tail);
    TailLabel(pre, b, tail, CodeSize(tail), Height(tail));
  }

  lemma TailLabel(pre: seq<Instr>, b: seq<Instr>, tail: seq<Instr>, at: int, height: int)
    requires Label(tail, at, height)
    ensures Label(pre + (b + tail), CodeSize(pre) + CodeSize(b) + at, Height(pre) + Height(b) + height)
  {
    hide Label;
    LabelRight(b, tail, at, height);
    LabelRight(pre, b + tail, CodeSize(b) + at, Height(b) + height);
  }

  lemma ClosedAlt(a: seq<Instr>, b: seq<Instr>, captures: nat)
    requires Closed(a, captures) && Closed(b, captures) && Small(AltCode(a, b))
    ensures Closed(AltCode(a, b), captures)
  {
    hide Linked, Label, CodeSize, Height;
    var i, j := Split(true, CodeSize(a) + 5), Goto(CodeSize(b));
    var all := [i] + (a + ([j] + b));
    SizeHeightOne(i);
    SizeHeightCons(j, b);
    AroundLabels([i], a, j, b);
    SizeAppend([i], a + ([j] + b));
    SizeAppend(a, [j] + b);
    EmbedLast([i], a, j, b, captures);
    LinkedCons(all, j, b, 5 + CodeSize(a), 0, captures);
    LinkedOne(all, i, 0, 0, captures);
    Around([i], a, [j] + b, captures);
  }

  lemma EmbedLast(pre: seq<Instr>, a: seq<Instr>, j: Instr, b: seq<Instr>, captures: nat)
    requires Closed(a, captures) && Closed(b, captures) && Height(pre) == Delta(j) == 0
    ensures Linked(pre + (a + ([j] + b)), b, CodeSize(pre) + CodeSize(a) + Size(j), 0, captures)
  {
    hide Linked, Size, Delta, CodeSize, Height;
    var front := pre + (a + [j]);
    SizeAppend(pre, a + [j]);
    HeightAppend(pre, a + [j]);
    SizeAppend(a, [j]);
    HeightAppend(a, [j]);
    SizeHeightOne(j);
    EmbedClosed(front, b, [], captures);
    assert front + (b + []) == pre + (a + ([j] + b));
  }

  lemma EmptyCode()
    ensures CodeSize([]) == 0 && Height([]) == 0
  {
  }

  /** A body between two instructions that leave the counter stack alone and do not refer to the code ahead. */
  lemma ClosedSingle(i: Instr, b: seq<Instr>, j: Instr, captures: nat)
    requires Closed(b, captures) && Delta(i) == Delta(j) == 0
    requires Sound([i] + (b + [j]), [i], 0, 0, captures) && Sound([i] + (b + [j]), [j], Size(i) + CodeSize(b), 0, captures)
    ensures Closed([i] + (b + [j]), captures)
  {
    hide Linked, Sound, CodeSize, Height, Size, Delta;
    var all := [i] + (b + [j]);
    SizeHeightOne(i);
    SizeHeightOne(j);
    LinkedOne(all, j, Size(i) + CodeSize(b), 0, captures);
    LinkedOne(all, i, 0, 0, captures);
    Around([i], b, [j], captures);
  }

  lemma SingleLabels(i: Instr, b: seq<Instr>, j: Instr)
    requires Height(b) == 0 && Delta(i) == Delta(j) == 0
    ensures var all := [i] + (b + [j]);
            && Label(all, 0, 0) && Label(all, Size(i) + CodeSize(b) + Size(j), 0)
            && CodeSize(all) == Size(i) + CodeSize(b) + Size(j)
  {
    hide Label, CodeSize, Height, Size, Delta;
    EmptyCode();
    SizeHeightOne(i);
    SizeHeightOne(j);
    assert [j] + [] == [j];
    AroundLabels([i], b, j, []);
    SizeAppend([i], b + [j]);
    SizeAppend(b, [j]);
  }

  lemma ClosedLook(negative: bool, b: seq<Instr>, captures: nat)
    requires Closed(b, captures) && Small(LookCode(negative, b))
    ensures Closed(LookCode(negative, b), captures)
  {
    hide Linked, Label, CodeSize, Height;
    var i := Lookahead(negative, CodeSize(b) + 1);
    SingleLabels(i, b, Match);
    ClosedSingle(i, b, Match, captures);
  }

  lemma ClosedGroup(b: seq<Instr>, back: bool, c: nat, captures: nat)
    requires Closed(b, captures) && c < captures <= 255
    ensures Closed(GroupCode(b, back, c), captures)
  {
    hide Linked, Label, CodeSize, Height;
    ClosedSingle(Save(back, c), b, Save(!back, c), captures);
  }

  lemma ClosedOpenStar(b: seq<Instr>, greedy: bool, captures: nat)
    requires Closed(b, captures) && Small(StarCode(b, greedy, false))
    ensures Closed(StarCode(b, greedy, false), captures)
  {
    hide Linked, Label, CodeSize, Height;
    var n: int := CodeSize(b);
    SingleLabels(Split(greedy, n + 5), b, Goto(-(n + 10)));
    ClosedSingle(Split(greedy, n + 5), b, Goto(-(n + 10)), captures);
  }

  lemma ClosedOnce(b: seq<Instr>, greedy: bool, captures: nat)
    requires Closed(b, captures) && Small(OnceCode(b, greedy))
    ensures Closed(OnceCode(b, greedy), captures)
  {
    hide Linked, Label, CodeSize, Height;
    var i := Split(greedy, CodeSize(b));
    SizeHeightOne(i);
    SizeHeightCons(i, b);
    LabelEnd([i] + b);
    EmbedClosed([i], b, [], captures);
    assert b + [] == b;
    LinkedCons([i] + b, i, b, 0, 0, captures);
  }

  lemma ClosedPlus(b: seq<Instr>, greedy: bool, captures: nat)
    requires Closed(b, captures) && Small(PlusCode(b, greedy))
    ensures Closed(PlusCode(b, greedy), captures)
  {
    hide Linked, Label, CodeSize, Height;
    var n: int := CodeSize(b);
    var i := Split(!greedy, -(n + 5));
    SizeHeightOne(i);
    SizeAppend(b, [i]);
    HeightAppend(b, [i]);
    LabelStart(b + [i]);
    EmptyCode();
    EmbedClosed([], b, [i], captures);
    assert [] + (b + [i]) == b + [i];
    LinkedOne(b + [i], i, n, 0, captures);
    LinkedAppend(b + [i], b, [i], 0, 0, captures);
  }

  /** The end of a counted loop: `loop` back to where the counter is on the stack, then `drop`. */
  lemma CounterTail(pre: seq<Instr>, b: seq<Instr>, j: Instr, captures: nat)
    requires Closed(b, captures) && Height(pre) == 1 && j.Loop? && Fits(j)
    requires Label(pre + (b + ([j] + [Drop])), CodeSize(pre) + CodeSize(b) + 5 + j.off, 1)
    ensures Linked(pre + (b + ([j] + [Drop])), [j] + [Drop], CodeSize(pre) + CodeSize(b), 1, captures)
    ensures CodeSize([j] + [Drop]) == 6 && Height([j] + [Drop]) == -1
  {
    hide Linked, Label, CodeSize, Height;
    var all := pre + (b + ([j] + [Drop]));
    SizeHeightOne(Drop);
    SizeHeightCons(j, [Drop]);
    LinkedOne(all, Drop, CodeSize(pre) + CodeSize(b) + 5, 1, captures);
    LinkedCons(all, j, [Drop], CodeSize(pre) + CodeSize(b), 1, captures);
  }

  /** A counted loop: the counter is on the stack from the front to the `drop`. */
  lemma ClosedTimes(b: seq<Instr>, k: nat, captures: nat)
    requires Closed(b, captures) && Small(TimesCode(b, k)) && IsU32(k)
    ensures Closed(TimesCode(b, k), captures)
  {
    hide Linked, Label, CodeSize, Height, Closed;
    assert Height(b) == 0 by { ClosedHeight(b, captures); }
    var n: int := CodeSize(b);
    var i, j := PushI32(k), Loop(-(n + 5));
    SizeHeightOne(i);
    AroundLabels([i], b, j, [Drop]);
    TimesSize(b, k);
    CounterTail([i], b, j, captures);
    LinkedOne([i] + (b + ([j] + [Drop])), i, 0, 0, captures);
    Around([i], b, [j] + [Drop], captures);
    ClosedFrom(TimesCode(b, k), captures);
  }

  lemma ClosedHeight(b: seq<Instr>, captures: nat)
    requires Closed(b, captures)
    ensures Height(b) == 0
  {
  }

  lemma ClosedFrom(b: seq<Instr>, captures: nat)
    requires Height(b) == 0 && Linked(b, b, 0, 0, captures)
    ensures Closed(b, captures)
  {
  }

  lemma TimesSize(b: seq<Instr>, k: nat)
    ensures CodeSize(TimesCode(b, k)) == CodeSize(b) + 11
  {
    hide CodeSize;
    var n: int := CodeSize(b);
    var j := Loop(-(n + 5));
    SizeHeightOne(Drop);
    SizeHeightCons(j, [Drop]);
    SizeAppend(b, [j] + [Drop]);
    SizeHeightCons(PushI32(k), b + ([j] + [Drop]));
  }

  lemma UptoSize(b: seq<Instr>, k: nat, greedy: bool)
    ensures CodeSize(UptoCode(b, k, greedy)) == CodeSize(b) + 16
  {
    hide CodeSize;
    var n: int := CodeSize(b);
    var s, j := Split(greedy, n + 5), Loop(-(n + 10));
    SizeHeightOne(Drop);
    SizeHeightCons(j, [Drop]);
    SizeAppend(b, [j] + [Drop]);
    SizeHeightCons(s, b + ([j] + [Drop]));
    SizeHeightCons(PushI32(k), [s] + (b + ([j] + [Drop])));
  }

  lemma ClosedUpto(b: seq<Instr>, k: nat, greedy: bool, captures: nat)
    requires Closed(b, captures) && Small(UptoCode(b, k, greedy)) && IsU32(k)
    ensures Closed(UptoCode(b, k, greedy), captures)
  {
    hide Linked, Label, CodeSize, Height, Closed;
    ClosedHeight(b, captures);
    var n: int := CodeSize(b);
    var i, s, j := PushI32(k), Split(greedy, n + 5), Loop(-(n + 10));
    var pre := [i] + [s];
    var all := pre + (b + ([j] + [Drop]));
    SizeHeightOne(i);
    SizeHeightOne(s);
    SizeHeightCons(i, [s]);
    UptoSize(b, k, greedy);
    AroundLabels(pre, b, j, [Drop]);
    assert all == [i] + ([s] + (b + ([j] + [Drop])));
    LabelBetween([i], [s] + (b + ([j] + [Drop])));
    LinkedOne(all, s, 5, 1, captures);
    LinkedCons(all, i, [s], 0, 0, captures);
    CounterTail(pre, b, j, captures);
    Around(pre, b, [j] + [Drop], captures);
    ClosedFrom(all, captures);
  }

  lemma GuardedSize(b: seq<Instr>, greedy: bool)
    ensures CodeSize(StarCode(b, greedy, true)) == CodeSize(b) + 11
  {
    hide CodeSize;
    var n: int := CodeSize(b);
    var s, j := Split(greedy, n + 6), BneCharPos(-(n + 11));
    SizeHeightOne(j);
    SizeAppend(b, [j]);
    SizeHeightCons(PushCharPos, b + [j]);
    SizeHeightCons(s, [PushCharPos] + (b + [j]));
  }

  /** The guarded loop: the position is on the stack from the guard to the jump back. */
  lemma ClosedGuardedStar(b: seq<Instr>, greedy: bool, captures: nat)
    requires Closed(b, captures) && Small(StarCode(b, greedy, true))
    ensures Closed(StarCode(b, greedy, true), captures)
  {
    hide Linked, Label, CodeSize, Height, Closed;
    ClosedHeight(b, captures);
    var n: int := CodeSize(b);
    var s, j := Split(greedy, n + 6), BneCharPos(-(n + 11));
    var pre := [s] + [PushCharPos];
    var all := pre + (b + [j]);
    SizeHeightOne(s);
    SizeHeightOne(PushCharPos);
    SizeHeightCons(s, [PushCharPos]);
    SizeHeightOne(j);
    GuardedSize(b, greedy);
    EmptyCode();
    assert [j] + [] == [j];
    AroundLabels(pre, b, j, []);
    assert all == [s] + ([PushCharPos] + (b + [j]));
    LinkedOne(all, PushCharPos, 5, 0, captures);
    LinkedCons(all, s, [PushCharPos], 0, 0, captures);
    LinkedOne(all, j, CodeSize(pre) + n, 1, captures);
    Around(pre, b, [j], captures);
    ClosedFrom(all, captures);
  }

  lemma ClosedFast(b: seq<Instr>, min: nat, max: nat, captures: nat)
    requires Closed(b, captures) && Small(FastCode(b, min, max)) && SimpleCount(b) > 0 && min <= max && 0 < max && IsU32(max)
    ensures Closed(FastCode(b, min, max), captures)
  {
    hide Linked, Label, CodeSize, Height, Closed, SimpleCount;
    ClosedHeight(b, captures);
    var i := SimpleGreedyQuant(CodeSize(b) + 1, min, max, SimpleCount(b));
    var all := [i] + (b + [Match]);
    SingleLabels(i, b, Match);
    SimpleCountBound(b);
    BodyHere(b);
    SizeHeightOne(i);
    SizeHeightOne(Match);
    EmbedClosed([i], b, [Match], captures);
    LinkedOne(all, Match, 17 + CodeSize(b), 0, captures);
    LinkedAppend(all, b, [Match], 17, 0, captures);
    assert all[1..] == b + [Match];
    LinkedCons(all, i, b + [Match], 0, 0, captures);
    HeightAppend(b, [Match]);
    HeightAppend([i], b + [Match]);
    ClosedFrom(all, captures);
  }

  lemma BodyHere(b: seq<Instr>)
    requires SimpleCount(b) > 0
    ensures BodyAhead(b + [Match], CodeSize(b) + 1, SimpleCount(b))
  {
    assert (b + [Match])[..|b|] == b && (b + [Match])[|b|] == Match;
  }

  lemma {:induction false} SimpleCountBound(b: seq<Instr>)
    ensures SimpleCount(b) <= CodeSize(b)
  {
    if b != [] { SimpleCountBound(b[1..]); }
  }
}
