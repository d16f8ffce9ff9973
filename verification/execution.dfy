/** `lre_exec`: a run of the interpreter on compiled bytes, and compilation followed by a run. */
module Execution {
  import opened Bytes
  import opened Instructions
  import opened Code
  import opened Text
  import opened Pattern
  import opened Machine
  import opened Explore
  import opened Correctness
  import opened Program
  import opened Safety
  import opened Bounds
  import opened Compiler
  import opened Blocks
  import opened Scans
  import opened Interpreter

  /** What `lre_exec` reads in the header; surrogate pairs count as one character for 16-bit text in unicode mode. */
  function EnvOf(bc: seq<byte>, canon: (code, bool) -> code, text: seq<unit>, wide: bool): Env
    requires |bc| >= HEADER_LEN
  {
    Env(Subject(text, wide && HasFlag(bc[0], UTF16)), FlagsOf(bc[0], canon), bc)
  }

  /** `bc` is a compilation of `r`: the header counts its captures and bounds its counter stack, the program follows. */
  ghost predicate IsCompilation(bc: seq<byte>, canon: (code, bool) -> code, r: Re) {
    && |bc| >= HEADER_LEN
    && var o, sticky := FlagsOf(bc[0], canon), HasFlag(bc[0], STICKY);
    && Compilable(o, r, sticky) && Placed(bc, HEADER_LEN, ProgramCode(o, r, sticky))
    && bc[1] == 1 + Groups(r) && bc[2] == Peak(ProgramCode(o, r, sticky), 0)
  }

  lemma RoomInHeader(o: Flags, r: Re, sticky: bool)
    requires Compilable(o, r, sticky)
    ensures RoomFor(ImageOf(o, r, sticky), Peak(ProgramCode(o, r, sticky), 0))
  {
    hide Compilable, Peak, ProgramCode, ImageOf, Lies;
    var p := ImageOf(o, r, sticky);
    forall pc: int, height: int | Lies(p, pc, height) ensures height <= Peak(ProgramCode(o, r, sticky), 0) {
      CodeAddress(p, pc, height);
      HeightBound(o, r, sticky, pc, height);
    }
  }

  lemma CodeAddress(p: Image, pc: int, height: int)
    requires Lies(p, pc, height)
    ensures pc >= 0
  {
    LiesInside(p, pc, height);
  }

  /**
   * Runs compiled bytes on `text` from `cindex` on. It finds a match exactly when the pattern has one at
   * `cindex` or, unless sticky, later, and returns the captures of the best one.
   */
  method LreExec(bc: seq<byte>, canon: (code, bool) -> code, text: seq<unit>, wide: bool, cindex: nat, ghost r: Re)
    returns (found: bool, captures: seq<int>)
    requires IsCompilation(bc, canon, r)
    requires var e := EnvOf(bc, canon, text, wide); Terminating(e.o, r, false, 1) && Boundary(e.x, cindex)
    ensures var e := EnvOf(bc, canon, text, wide);
            var all := AllFrom(e.x, e.o, r, HasFlag(bc[0], STICKY), cindex, Unset(1 + Groups(r)));
            (found <==> all != []) && (found ==> captures == all[0].caps)
  {
    hide Decode, Placed, Compilable, ProgramCode, Peak, Terminating, WellFormed, Reaches, AllFrom, StateOk, Loaded, RoomFor, Boundary, Steps, FlagsOf, HasFlag, ImageOf;
    var e := EnvOf(bc, canon, text, wide);
    ghost var sticky, n: nat := HasFlag(bc[0], STICKY), 1 + Groups(r);
    ghost var p := ImageOf(e.o, r, sticky);
    ghost var final := Verdict(AllFrom(e.x, e.o, r, sticky, cindex, Unset(n)));
    InsideText(e, cindex);
    WellFormedIs(e.o, r, sticky);
    StartOk(e, r, sticky, cindex);
    RoomInHeader(e.o, r, sticky);
    ProgramCorrect(e, r, sticky, cindex, n);
    ghost var fuel := HowLong(e, Start(cindex, n), final);
    var s := new Exec(e, bc[1], bc[2], cindex);
    CapturesOfImage(e.o, r, sticky);
    assert s.Now() == Start(cindex, n);
    found := s.Run(p, fuel, final);
    captures := s.capture[..];
  }

  lemma InsideText(e: Env, pos: nat)
    requires Boundary(e.x, pos)
    ensures pos <= |e.x.units|
  {
  }

  lemma WellFormedIs(o: Flags, r: Re, sticky: bool)
    requires Compilable(o, r, sticky)
    ensures WellFormed(r)
  {
  }

  lemma CapturesOfImage(o: Flags, r: Re, sticky: bool)
    ensures ImageOf(o, r, sticky).captures == 1 + Groups(r)
  {
  }

  lemma HowLong(e: Env, s: State, t: State) returns (n: nat)
    requires Reaches(e, s, t)
    ensures Steps(e, s, n) == t
  {
    n :| Steps(e, s, n) == t;
  }

  /** The result of a compilation can be run. */
  lemma SuccessRuns(bc: seq<byte>, flagByte: byte, canon: (code, bool) -> code, r: Re)
    requires var o, sticky := FlagsOf(flagByte, canon), HasFlag(flagByte, STICKY);
             var all := ProgramCode(o, r, sticky);
             && Compilable(o, r, sticky) && 1 + Groups(r) <= 255 && 0 <= Peak(all, 0) <= 255
             && bc == Header(flagByte, 1 + Groups(r), Peak(all, 0), CodeSize(all)) + Flatten(all)
    ensures IsCompilation(bc, canon, r) && bc[0] == flagByte
  {
    hide Compilable, ProgramCode, Peak, Placed, CodeSize, Flatten, FlagsOf, HasFlag, PutU32;
    var o, sticky := FlagsOf(flagByte, canon), HasFlag(flagByte, STICKY);
    var all := ProgramCode(o, r, sticky);
    CompilationLoads(Env(Subject([], false), o, bc), r, sticky, Header(flagByte, 1 + Groups(r), Peak(all, 0), CodeSize(all)));
  }

  lemma CompilationLoads(e: Env, r: Re, sticky: bool, header: seq<byte>)
    requires Compilable(e.o, r, sticky) && |header| == HEADER_LEN && e.bc == header + Flatten(ProgramCode(e.o, r, sticky))
    ensures Placed(e.bc, HEADER_LEN, ProgramCode(e.o, r, sticky))
  {
    hide Compilable, ProgramCode, Placed, Flatten;
    CompiledLoads(e, r, sticky, header);
  }

  /** Compiles an expression and matches it once: for everything that compiles, the machine agrees with the matcher. */
  method CompileAndExec(flags: byte, canon: (code, bool) -> code, r: Re, text: seq<unit>, wide: bool, cindex: nat)
    returns (compiled: bool, found: bool, captures: seq<int>)
    requires WellFormed(r) && Terminating(FlagsOf(flags, canon), r, false, 1)
    requires Boundary(Subject(text, wide && HasFlag(flags, UTF16)), cindex)
    ensures var all := ProgramCode(FlagsOf(flags, canon), r, HasFlag(flags, STICKY));
            compiled <==> Encodable(r) && 1 + Groups(r) <= 255 && HEADER_LEN + CodeSize(all) < BUFFER_LIMIT && Peak(all, 0) <= STACK_SIZE_MAX
    ensures var all := AllFrom(Subject(text, wide && HasFlag(flags, UTF16)), FlagsOf(flags, canon), r, HasFlag(flags, STICKY), cindex, Unset(1 + Groups(r)));
            compiled ==> (found <==> all != []) && (found ==> captures == all[0].caps)
  {
    hide Compilable, ProgramCode, Peak, Placed, CodeSize, Flatten, FlagsOf, HasFlag, Header, WellFormed, Terminating, AllFrom, Boundary, Encodable, IsCompilation;
    compiled, found, captures := false, false, [];
    var res := Compile(flags, canon, r);
    if res.Success? {
      compiled := true;
      PeakNotNegative(ProgramCode(FlagsOf(flags, canon), r, HasFlag(flags, STICKY)));
      SuccessRuns(res.bytes, flags, canon, r);
      HeaderThere(res.bytes, canon, r);
      found, captures := LreExec(res.bytes, canon, text, wide, cindex, r);
    }
  }

  lemma HeaderThere(bc: seq<byte>, canon: (code, bool) -> code, r: Re)
    requires IsCompilation(bc, canon, r)
    ensures |bc| >= HEADER_LEN
  {
  }
}
