/** `lre_compile`: header, search prefix, pattern, and the checks on the result. */
module Compiler {
  import opened Bytes
  import opened Instructions
  import opened Code
  import opened Text
  import opened Pattern
  import opened Generator
  import opened Machine
  import opened Correctness
  import opened Linking
  import opened Blocks
  import opened Program
  import opened Safety
  import opened Bounds
  import opened Scans
  import opened Emitter

  datatype Compilation =
    | Success(bytes: seq<byte>)
    | ParseError          // too many captures, or too many intervals in a set
    | OutOfMemory         // the buffer outgrew the 32-bit offsets of the bytecode
    | TooManyQuantifiers  // the counter stack would be too high

  const IGNORE_CASE: nat := 2
  const MULTI_LINE: nat := 4
  const DOT_ALL: nat := 8
  const UTF16: nat := 16
  const STICKY: nat := 32

  predicate HasFlag(flags: byte, flag: nat)
    requires flag > 0
  {
    var f: nat := flags;
    f / flag % 2 == 1
  }

  /** The flags of an expression, with `canon` for `lre_canonicalize`. */
  function FlagsOf(flags: byte, canon: (code, bool) -> code): Flags {
    Flags(HasFlag(flags, MULTI_LINE), HasFlag(flags, DOT_ALL), HasFlag(flags, IGNORE_CASE), c => canon(c, HasFlag(flags, UTF16)))
  }

  /** The flag byte that stands for a choice of flags: global, ignore-case, multi-line, dot-all, UTF-16 and sticky. */
  function FlagByte(g: bool, i: bool, m: bool, s: bool, u: bool, y: bool): byte {
    (if g then 1 else 0) + (if i then 2 else 0) + (if m then 4 else 0) + (if s then 8 else 0) + (if u then 16 else 0) + (if y then 32 else 0)
  }

  /** Each flag is read from its own bit. */
  lemma FlagsMean(g: bool, i: bool, m: bool, s: bool, u: bool, y: bool, canon: (code, bool) -> code)
    ensures var b := FlagByte(g, i, m, s, u, y);
            && FlagsOf(b, canon).multiLine == m && FlagsOf(b, canon).dotAll == s && FlagsOf(b, canon).ignoreCase == i
            && HasFlag(b, UTF16) == u && HasFlag(b, STICKY) == y
            && forall c :: FlagsOf(b, canon).Fold(c) == if i then canon(c, u) else c
  {
  }

  const BUFFER_LIMIT: nat := 0x8000_0000

  /** Flags, number of captures, stack size, and length of the bytecode. */
  function Header(flags: byte, captures: byte, stackSize: byte, length: int): (h: seq<byte>)
    ensures |h| == HEADER_LEN
  {
    [flags, captures, stackSize] + PutU32(length)
  }

  // ----- consequences of being closed -----

  lemma {:induction false} LinkedFits(all: seq<Instr>, code: seq<Instr>, at: int, height: int, captures: nat)
    requires Linked(all, code, at, height, captures)
    ensures AllFit(code)
    ensures height >= 0 ==> forall j :: 0 <= j <= |code| ==> height + Height(code[..j]) >= 0
    decreases code
  {
    hide Size, Delta, Fits, Label, BodyAhead;
    if code != [] {
      LinkedFits(all, code[1..], at + Size(code[0]), height + Delta(code[0]), captures);
      forall k | 0 <= k < |code| ensures Fits(code[k]) {
        if k > 0 { assert code[k] == code[1..][k - 1]; }
      }
      forall j | 0 <= j <= |code| && height >= 0 ensures height + Height(code[..j]) >= 0 {
        if j > 0 { assert code[..j][0] == code[0] && code[..j][1..] == code[1..][..j - 1]; }
      }
    }
  }

  lemma ProgramFits(o: Flags, r: Re, sticky: bool)
    requires Compilable(o, r, sticky)
    ensures var all := ProgramCode(o, r, sticky);
            AllFit(all) && forall j :: 0 <= j <= |all| ==> Height(all[..j]) >= 0
  {
    hide Compilable, Body, Linked, ProgramCode, Fits;
    BodyClosed(o, r, sticky);
    var body, all := Body(o, r, sticky), ProgramCode(o, r, sticky);
    LinkedFits(body, body, 0, 0, 1 + Groups(r));
    forall k | 0 <= k < |all| ensures Fits(all[k]) {
      if k < |body| { assert all[k] == body[k]; } else { MatchFits(); }
    }
    forall j | 0 <= j <= |all| ensures Height(all[..j]) >= 0 {
      if j <= |body| {
        assert all[..j] == body[..j];
      } else {
        assert all[..j] == body + [Match];
        HeightAppend(body, [Match]);
        SizeHeightOne(Match);
        assert body[..|body|] == body;
      }
    }
  }

  lemma MatchFits()
    ensures Fits(Match)
  {
  }

  lemma ProgramReadable(o: Flags, r: Re, sticky: bool)
    requires WellFormed(r) && Encodable(r) && 1 + Groups(r) <= 255
    ensures AllReadable(ProgramCode(o, r, sticky))
  {
    hide AllReadable, Gen;
    GenReadable(o, Group(r), false, 0);
    WholeIsGroup(o, r);
    ReadableOne(Match);
    SearchReadable();
    NothingReadable();
    ReadableAppend(WholeCode(o, r), [Match]);
    ReadableAppend(if sticky then [] else Search, WholeCode(o, r) + [Match]);
  }

  lemma SearchReadable()
    ensures AllReadable(Search)
  {
  }

  lemma SearchBytes()
    ensures Flatten(Search) == [SPLIT_GOTO_FIRST] + PutU32(6) + [ANY] + [GOTO] + PutU32(-11)
  {
    hide Flatten, Encode;
    EncodeTiny();
    EncodeJump(false, 6);
    EncodeJump(false, -11);
    FlattenCons(Split(false, 6), [AnyOp] + [Goto(-11)]);
    FlattenCons(AnyOp, [Goto(-11)]);
    FlattenOne(Goto(-11));
  }

  /** The bytes of a whole program. */
  lemma ProgramBytes(o: Flags, r: Re, sticky: bool)
    requires WellFormed(r)
    ensures Flatten(ProgramCode(o, r, sticky)) ==
            Flatten(if sticky then [] else Search) + [SAVE_START, 0] + Flatten(Gen(o, r, false, 1)) + [SAVE_END, 0] + [MATCH]
  {
    hide Flatten, Encode, Gen, PutU32;
    var w := WholeCode(o, r);
    EncodeTiny();
    FlattenAppend(if sticky then [] else Search, w + [Match]);
    FlattenAppend(w, [Match]);
    FlattenOne(Match);
    FlattenGroup(Gen(o, r, false, 1), false, 0);
  }

  /** The header with its fields still open. */
  method EmitHeader(p: Parser, flagByte: byte)
    requires p.Valid() && p.code.Contents() == []
    modifies p.code, p.code.buf
    ensures p.code.Owned() && p.code.Contents() == Header(flagByte, 0, 0, 0)
  {
    hide PutU32;
    p.code.Put([flagByte]);
    p.code.Put([0]);
    p.code.Put([0]);
    p.code.Put(PutU32(0));
  }

  /** The loop that tries every start position. */
  method EmitSearch(p: Parser)
    requires p.Valid()
    modifies p.code, p.code.buf
    ensures p.code.Owned() && p.code.Contents() == old(p.code.Contents()) + Flatten(Search)
  {
    hide Flatten, PutU32, Search;
    SearchBytes();
    var _ := p.EmitOpU32(SPLIT_GOTO_FIRST, 6);
    p.EmitOp(ANY);
    var _ := p.EmitOpU32(GOTO, -11);
    assert p.code.Contents() == old(p.code.Contents()) + ([SPLIT_GOTO_FIRST] + PutU32(6) + [ANY] + [GOTO] + PutU32(-11));
  }

  /** The pattern as capture 0, and the final `match`. */
  method EmitWhole(p: Parser, r: Re) returns (ok: bool)
    requires p.Valid() && p.captureCount == 1 && WellFormed(r)
    modifies p, p.code, p.code.buf
    ensures p.code.Owned() && (ok <==> Encodable(r) && 1 + Groups(r) <= 255)
    ensures ok ==> p.captureCount == 1 + Groups(r)
                   && p.code.Contents() == old(p.code.Contents()) + ([SAVE_START, 0] + Flatten(Gen(p.flags, r, false, 1)) + [SAVE_END, 0] + [MATCH])
  {
    hide Flatten, Encodable, WellFormed;
    p.EmitOpU8(SAVE_START, 0);
    ok := p.ParseDisjunction(r, false);
    if !ok {
      return;
    }
    p.EmitOpU8(SAVE_END, 0);
    p.EmitOp(MATCH);
  }

  /** The open header and the search prefix. */
  method EmitFront(p: Parser, flagByte: byte, sticky: bool)
    requires p.Valid() && p.code.Contents() == []
    modifies p.code, p.code.buf
    ensures p.code.Owned() && p.code.Contents() == Header(flagByte, 0, 0, 0) + Flatten(if sticky then [] else Search)
  {
    hide Flatten, Header, Search;
    EmitHeader(p, flagByte);
    FlattenNothing();
    if !sticky {
      EmitSearch(p);
    }
  }

  /** The whole program behind an open header. */
  method EmitProgram(p: Parser, flagByte: byte, sticky: bool, r: Re) returns (ok: bool)
    requires p.Valid() && p.code.Contents() == [] && p.captureCount == 1 && WellFormed(r)
    modifies p, p.code, p.code.buf
    ensures p.code.Owned() && (ok <==> Encodable(r) && 1 + Groups(r) <= 255)
    ensures ok ==> p.captureCount == 1 + Groups(r)
                   && p.code.Contents() == Header(flagByte, 0, 0, 0) + Flatten(ProgramCode(p.flags, r, sticky))
  {
    hide Flatten, Encodable, WellFormed, Header, ProgramCode, Gen, Search, Groups;
    EmitFront(p, flagByte, sticky);
    ok := EmitWhole(p, r);
    ProgramBytes(p.flags, r, sticky);
    ghost var front := Flatten(if sticky then [] else Search);
    Regroup5(Header(flagByte, 0, 0, 0), front, [SAVE_START, 0], Flatten(Gen(p.flags, r, false, 1)), [SAVE_END, 0], [MATCH]);
  }

  lemma Regroup5(h: seq<byte>, s: seq<byte>, x: seq<byte>, y: seq<byte>, z: seq<byte>, w: seq<byte>)
    ensures h + s + (x + y + z + w) == h + (s + x + y + z + w)
  {
  }

  /** Fills the open fields of the header. */
  method FillHeader(p: Parser, flagByte: byte, stackSize: byte, ghost program: seq<byte>)
    requires p.Valid() && p.code.Contents() == Header(flagByte, 0, 0, 0) + program && p.captureCount <= 255
    modifies p.code, p.code.buf
    ensures p.code.Owned()
    ensures p.code.Contents() == Header(flagByte, p.captureCount, stackSize, |program|) + program
  {
    hide PutU32;
    var code := p.code;
    code.Store(1, [p.captureCount]);
    assert code.Contents() == Header(flagByte, p.captureCount, 0, 0) + program;
    code.Store(2, [stackSize]);
    assert code.Contents() == Header(flagByte, p.captureCount, stackSize, 0) + program;
    code.Store(3, PutU32(code.size - HEADER_LEN));
    assert code.Contents() == Header(flagByte, p.captureCount, stackSize, |program|) + program;
  }

  /** Compiles `r`. The result says exactly which of the checks failed, or holds exactly the program. */
  method Compile(flagByte: byte, canon: (code, bool) -> code, r: Re) returns (res: Compilation)
    requires WellFormed(r)
    ensures res == ParseError <==> !(Encodable(r) && 1 + Groups(r) <= 255)
    ensures var all := ProgramCode(FlagsOf(flagByte, canon), r, HasFlag(flagByte, STICKY));
            res != ParseError ==>
              res == if HEADER_LEN + CodeSize(all) >= BUFFER_LIMIT then OutOfMemory
                     else if Peak(all, 0) > STACK_SIZE_MAX then TooManyQuantifiers
                     else Success(Header(flagByte, 1 + Groups(r), Peak(all, 0), CodeSize(all)) + Flatten(all))
    ensures res.Success? ==> Compilable(FlagsOf(flagByte, canon), r, HasFlag(flagByte, STICKY))
  {
    hide Flatten, CodeSize, ProgramCode, Peak, Encodable, WellFormed, AllReadable, Header, Compilable, FlagsOf, HasFlag;
    var flags, sticky := FlagsOf(flagByte, canon), HasFlag(flagByte, STICKY);
    var p := new Parser(flags);
    ghost var all := ProgramCode(flags, r, sticky);
    var ok := EmitProgram(p, flagByte, sticky, r);
    if !ok {
      return ParseError;
    }
    if p.code.size >= BUFFER_LIMIT {
      return OutOfMemory;
    }
    SizesAgree(flags, r, sticky);
    ProgramFits(flags, r, sticky);
    ProgramReadable(flags, r, sticky);
    assert p.code.Contents()[HEADER_LEN..] == Flatten(all);
    var stackSize := ComputeStackSize(p.code.Contents()[HEADER_LEN..], all);
    PeakNotNegative(all);
    if stackSize < 0 {
      return TooManyQuantifiers;
    }
    FillHeader(p, flagByte, stackSize, Flatten(all));
    return Success(p.code.Contents());
  }

  lemma SizesAgree(o: Flags, r: Re, sticky: bool)
    requires WellFormed(r) && Encodable(r) && 1 + Groups(r) <= 255 && HEADER_LEN + CodeSize(ProgramCode(o, r, sticky)) < BUFFER_LIMIT
    ensures Compilable(o, r, sticky)
  {
  }

  lemma PeakNotNegative(code: seq<Instr>)
    ensures Peak(code, 0) >= 0
  {
    PeakCovers(code, 0, 0);
    assert code[..0] == [];
  }

  /** Bytecode that begins with the result of a compilation holds the program. */
  lemma CompiledLoads(e: Env, r: Re, sticky: bool, header: seq<byte>)
    requires Compilable(e.o, r, sticky) && |header| == HEADER_LEN
    requires At(e.bc, 0, header + Flatten(ProgramCode(e.o, r, sticky)))
    ensures Compiled(e, r, sticky)
  {
    hide Compilable, ProgramCode, Placed, AllFit;
    ProgramFits(e.o, r, sticky);
    AtSplit(e.bc, 0, header, Flatten(ProgramCode(e.o, r, sticky)));
    PlacedFlatten(e.bc, HEADER_LEN, ProgramCode(e.o, r, sticky));
  }
}
