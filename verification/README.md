# Proofs about the algorithms of an editor's plugins

This project models the algorithmic core of five programs that a Neovim configuration carries: the
regular-expression library of LuaSnip, its Unicode tables, its sorting and UTF-8 routines, the fuzzy matcher
behind Telescope, and the job scheduler of vim-plug. `dafny verify dfyconfig.toml` checks it.

## The regular-expression compiler and machine

The parser appends code to a growing byte buffer: it inserts splits in front of code that is there already,
copies bodies, reverses the terms of a lookbehind, patches jumps late, and scans its own bytes to choose between
a fast opcode and a general loop. A backtracking machine with choice points, a counter stack and capture
snapshots executes the bytes.

| files | contents |
|---|---|
| `text`, `pattern`, `progress` | the subject and the moves over it; patterns and the recursive, priority-ordered matcher that says what they mean; how far a match moves |
| `reading`, `backref` | what the moves, the tests and the back references mean in terms of the units of the subject alone |
| `bytes`, `instr`, `code`, `ranges` | byte fields, instructions and their encoding, blocks of code, character sets in code |
| `generator` | the code of each form of pattern |
| `machine` | one step of the machine as a function on its state |
| `explore`, `constructs`, `loops`, `simulate`, `repetition`, `fast`, `correctness`, `program` | what it means that code explores a list of matches, and the proof that all code does |
| `linking`, `blocks`, `safety`, `bounds`, `reports` | closed blocks, the invariant of every run, the static stack bound, reported captures and start |
| `dynbuf`, `scans`, `emitter`, `compiler` | the imperative compiler over its buffer, proved to write exactly that code |
| `interpreter`, `execution` | the imperative interpreter over its arrays and stacks, proved to take exactly those steps; compilation and execution together |
| `equivalence` | fast opcode and general encoding; two concrete runs that show the assumptions are needed |
| `sameplaces`, `halting` | loops without a guard: from which states they end, for every body |

`Execution.CompileAndExec` joins the two halves: what the emitter writes, executed by the interpreter, gives the
first result of the matcher with its captures. It rests on two assumptions. The start index must not lie between
the halves of a surrogate pair: `Text.BackUndoesForward` shows that undoing a round is right if and only if the
run began on a boundary, and `Equivalence.StartInsidePair` gives a start from which it goes wrong. Unbounded loops
must end: their body must consume a character, or the quantifier must be greedy over a body that does not refer
back to a capture of its own, so that the compiler guards the loop; `Equivalence.LazyNothingDiverges` gives a
lazy loop that never ends. Exactly when a loop without a guard ends is the subject of `Halting`: if what follows
fails, it ends from the states from which no sequence of rounds reaches a round that stays in place, and from no
others (`Halting.LazyHaltsIff` for every body without back references). The stack bound, the absence of stuck
states and the compiler theorem for the bytes need neither assumption.

The code is followed where ECMA-262 (section 22.2.2) says otherwise: captures are unset once before a quantifier
whose minimum is zero, not in every round; a round that consumes nothing is accepted and ends a guarded loop; and
lazy loops have no guard.

## Character sets and tables

`charset` and `charrange` treat lists of points: the merge loop, the in-place compression and the inversion of
`CharRange`. Canonical lists are unique, so laws of sets become equalities of lists. `proptable` relates the
indexed lookup in run-length tables to the sequential decoder. `combining` is the canonical ordering of combining
marks (section 3.11 of the Unicode Standard).

## Sorting and text

`ordering` and `rqsort` are the three-way quicksort with its bounded stack, heap sort and insertion sort, for any
total preorder. `utf8` is the codec for sequences of one to six bytes (section 2 of RFC 2279), and `indexmaps` the
conversion to 16-bit units with its two index maps. The conversion masks the low half of a pair with 0xfffff
where the low ten bits are meant; `IndexMaps.PairIff` says for which characters the pair is right all the same.

## The fuzzy matcher

`fuzzytext` has bonuses, subsequences and the prefilter, `fuzzyworth` what a list of places is worth, in a closed
form, `fuzzyv1` the two scans for the shortest window, `fuzzyexact` the substring search that rewinds its index,
`fuzzygrid` the score grid as a function, `fuzzytrace` the traceback as a function, `fuzzyslab` the pieces of
memory, `fuzzyv2` the passes that fill them over arbitrary former contents, and `fuzzyanswers` what the answers depend on. The score and the end of a match depend on text and
pattern only. The places, and with them the returned start, may also depend on what earlier calls have left in the
slab: `prefer_match` looks one row ahead, at a cell that the call may not have written.
`FuzzyAnswers.SpreadAnswer` gives a text whose start is 15 or 0 by one such number, and `FuzzyAnswers.AnswerIff` the
exact condition under which the whole answer is a function of text and pattern.

`fuzzymeaning`, `fuzzybounds` and `fuzzyscores` say what the scores of the second algorithm mean. Each is attained by
a spelling (`FuzzyScores.ScoreIsWorth`). It need not be the best one, not even without the bonuses of runs:
`FuzzyScores.Overwritten` and `FuzzyScores.TieLoses` give the two ways in which a row loses a score, and
`FuzzyBounds.CarriesIff` says exactly when a row does. Nor need it be what the spelling is worth when the gaps are
counted in full: `FuzzyScores.GapForgiven` gives a text, and `FuzzyWorth.HeldWorth` the exact condition.

## The job scheduler

`scheduler` is a state machine of ticks, exits and cancellations in an environment that answers arbitrarily,
`schedule` proves what holds in every run, `outcomes` what has been done for each plugin, and
`updater` is the script's own form with its dictionaries and lists.
Cancelling has a gap, stated exactly by `ScheduleSafety.CancelledExit`: the exit code of a stopped process
overwrites the mark, so a job that exits with 0 goes on with its next command.

## Model

| member | source | states |
|---|---|---|
| `Text.PrevUndoesGet` | plugged/LuaSnip/deps/jsregexp/libregexp.c:1924-2011 | A step back undoes a step forward exactly when the step began on a character boundary, and a step forward always ends on one |
| `Text.GetUndoesPrev` | plugged/LuaSnip/deps/jsregexp/libregexp.c:1924-2011 | Stepping back leads to a boundary, and reading from there gives the character that stands before a boundary position, and returns to it |
| `Text.BackUndoesForward` | plugged/LuaSnip/deps/jsregexp/libregexp.c:2147-2151 | Going back k characters after going k >= 1 forward returns to the start if and only if the start was a boundary; this is what undoing one round of a fast quantifier relies on |
| `Text.BackDefined` | plugged/LuaSnip/deps/jsregexp/libregexp.c:2147-2151 | Going back as often as was gone forward never runs over the start of the subject, even when the run began inside a surrogate pair |
| `Reading.ReadsText` | plugged/LuaSnip/deps/jsregexp/libregexp.c:1924-1941 | Every text of characters that are no surrogates is read back, character by character, from its UTF-16 units |
| `Reading.ReadsBack` | plugged/LuaSnip/deps/jsregexp/libregexp.c:1977-1996 | Reading backwards finds the same characters |
| `Reading.LineStartMeans` | plugged/LuaSnip/deps/jsregexp/libregexp.c:2227-2235 | `^` holds at the start, and with the multi-line flag behind one of the four units that end a line |
| `Reading.LineEndMeans` | plugged/LuaSnip/deps/jsregexp/libregexp.c:2236-2244 | `$` holds at the end, and with the multi-line flag before one of them |
| `Reading.WordBoundaryMeans` | plugged/LuaSnip/deps/jsregexp/libregexp.c:2301-2322 | `\b` holds where exactly one of the two neighbouring units is a digit, a letter or an underscore |
| `Reading.WordClass` | plugged/LuaSnip/deps/jsregexp/libregexp.c:1916-1922 | The test for word characters accepts exactly the class `\w` |
| `Reading.DotMeans` | plugged/LuaSnip/deps/jsregexp/libregexp.c:2245-2250 | `.` accepts every character but those that end a line, and with the dot-all flag every one |
| `Reading.ResetMeans` | plugged/LuaSnip/deps/jsregexp/libregexp.c:2263-2275 | Unsetting the captures from one number to another clears both slots of each and leaves all other slots |
| `BackReferences.ForwardMeans` | plugged/LuaSnip/deps/jsregexp/libregexp.c:2336-2350 | A forward comparison succeeds exactly when the folded characters of the capture stand from the position on, and ends behind them, at the only place that fits |
| `BackReferences.BackwardMeans` | plugged/LuaSnip/deps/jsregexp/libregexp.c:2351-2364 | The same for a backward comparison and the text before the position |
| `BackReferences.FollowMeans` | plugged/LuaSnip/deps/jsregexp/libregexp.c:2323-2366 | A reference to a capture that is set leads to that place or fails, one to a capture that is not set stays, and one to a capture that does not exist fails |
| `BackReferences.RecallMeans` | plugged/LuaSnip/deps/jsregexp/libregexp.c:2323-2366 | The matches of a back reference are exactly the states, with the same captures, before which or behind which its capture's characters stand again |
| `BackReferences.ForwardPlain` | plugged/LuaSnip/deps/jsregexp/libregexp.c:2336-2350 | Without folding and without surrogate pairs the comparison is one of units |
| `Instructions.DecodeEncode` | plugged/LuaSnip/deps/jsregexp/libregexp-opcode.h:27-58 | Every instruction whose operands fit is decoded from its own bytes, with all operands, at any offset of any buffer |
| `Code.PlacedFlatten` | plugged/LuaSnip/deps/jsregexp/libregexp.c:394-428 | Instructions written one after the other are found again one after the other, so a block of code is independent of what surrounds it |
| `RangeCode.SearchFinds` | plugged/LuaSnip/deps/jsregexp/libregexp.c:2387-2401 | The binary search over ordered intervals answers yes exactly for the members of one of the intervals |
| `RangeCode.NoUnderflow` | plugged/LuaSnip/deps/jsregexp/libregexp.c:2391-2392 | When the search turns left, the middle index is at least 1, so the unsigned subtraction does not wrap |
| `RangeCode.InSetIffInterval` | plugged/LuaSnip/deps/jsregexp/libunicode.h:50-56 | Membership in a canonical list of points is being inside one of its intervals |
| `RangeCode.RangeSearch16` | plugged/LuaSnip/deps/jsregexp/libregexp.c:821-857 | For every canonical list and every character below UINT32_MAX the 16-bit form accepts exactly the members, including the encoding of "no bound" as 0xffff |
| `RangeCode.RangeSearch32` | plugged/LuaSnip/deps/jsregexp/libregexp.c:821-857 | The same for the 32-bit form |
| `Simulate.SetAccepts` | plugged/LuaSnip/deps/jsregexp/libregexp.c:2367-2443 | Whatever form the emitter chooses for a set, with the empty set as an impossible character, the opcode accepts exactly the folded members |
| `Progress.MatchesSteady` | plugged/LuaSnip/deps/jsregexp/libregexp.c:950-956 | No match of any pattern moves against its direction or ends between the halves of a surrogate pair |
| `Progress.MustAdvanceMoves` | plugged/LuaSnip/deps/jsregexp/libregexp.c:950-956 | Every match of a pattern that must advance ends at another position than it began |
| `Correctness.AdvanceSound` | plugged/LuaSnip/deps/jsregexp/libregexp.c:950-1030 | If the scan of the advance check meets a character opcode first, the pattern must advance: score 1 is sound |
| `Reports.MatchesFrames` | plugged/LuaSnip/deps/jsregexp/libregexp.c:2257-2276 | A pattern writes only the capture slots of its own groups; all other slots keep their value in every match |
| `Reports.WholeReports` | plugged/LuaSnip/deps/jsregexp/libregexp.c:1859-1870 | Every match of a whole expression reports its own start and its own end as capture 0 |
| `Reports.LeastStart` | plugged/LuaSnip/deps/jsregexp/libregexp.c:1851-1858 | The search over all start positions returns the first match at the least number of characters from the start index, and returns none only if no later position matches |
| `Constructs.AltDoes` | plugged/LuaSnip/deps/jsregexp/libregexp.c:1746-1767 | The code of an alternative explores everything of the first branch and then everything of the second |
| `Simulate.GroupDoes` | plugged/LuaSnip/deps/jsregexp/libregexp.c:1336-1355 | The code of a capture group explores the matches of its body with both bounds saved, in either direction |
| `Simulate.LookDoes` | plugged/LuaSnip/deps/jsregexp/libregexp.c:1288-1313 | A lookaround keeps the captures of the first success inside and discards every choice point made inside; a negative one restores them |
| `Loops.StarDoes` | plugged/LuaSnip/deps/jsregexp/libregexp.c:1621-1637 | Both loops for an unbounded quantifier, guarded and not, explore the repetitions of the body, and the loop is left in every run |
| `Loops.UptoDoes` | plugged/LuaSnip/deps/jsregexp/libregexp.c:1638-1649 | The counted loop explores at most k repetitions, greedy or lazy, and leaves the counter stack as it was |
| `Loops.TimesLoop` | plugged/LuaSnip/deps/jsregexp/libregexp.c:1657-1666 | The loop over a counter enters its body exactly as often as the counter says before the rest follows |
| `Loops.PlusDoes` | plugged/LuaSnip/deps/jsregexp/libregexp.c:1650-1653 | The backward split behind the body explores one compulsory and any number of further repetitions |
| `Repetition.GeneralDoes` | plugged/LuaSnip/deps/jsregexp/libregexp.c:1600-1690 | For every pair of bounds the general encoding explores min to max repetitions in priority order, after unsetting the captures of a body that may be skipped |
| `FastQuantifier.RunLineForward` | plugged/LuaSnip/deps/jsregexp/libregexp.c:1034-1071 | Straight-line code with k character opcodes moves exactly k characters forward when it matches |
| `FastQuantifier.ChainBack` | plugged/LuaSnip/deps/jsregexp/libregexp.c:2147-2152 | Undoing one round of a fast quantifier leads to the position before that round |
| `FastQuantifier.RepeatChain` | plugged/LuaSnip/deps/jsregexp/libregexp.c:2450-2489 | The repetitions of a straight-line body are the ends of its rounds, from the longest run of rounds down to the min-th |
| `FastQuantifier.FastDoes` | plugged/LuaSnip/deps/jsregexp/libregexp.c:1566-1590 | The fast opcode with its single saved state explores the same repetitions in the same order as the quantifier means |
| `Correctness.StraightLine` | plugged/LuaSnip/deps/jsregexp/libregexp.c:1034-1071 | A pattern that qualifies for the fast opcode has no groups, and its one match is what running its code gives |
| `Correctness.BackwardNotFast` | plugged/LuaSnip/deps/jsregexp/libregexp.c:1566-1573 | Code of a lookbehind never qualifies for the fast opcode |
| `Correctness.CodeImplements` | plugged/LuaSnip/deps/jsregexp/libregexp.c:1215-1770 | Compiler correctness: wherever the code of a pattern is placed, entering it with any state, counter stack and choice points explores exactly the matches of the pattern with their captures in priority order and then fails back |
| `Program.ProgramCorrect` | plugged/LuaSnip/deps/jsregexp/libregexp.c:2089-2494 | A whole program started on a boundary halts; it finds a match exactly when the recursive matcher has one and reports the captures of its first result |
| `Equivalence.LineImplements` | plugged/LuaSnip/deps/jsregexp/libregexp.c:2123-2489 | Straight-line code, wherever it is placed, explores the one result of running it |
| `Equivalence.FastRefinesGeneral` | plugged/LuaSnip/deps/jsregexp/libregexp.c:1566-1590 | For every straight-line body with k >= 1 character opcodes and all bounds, the fast opcode and the general encoding explore the same states in the same order |
| `Equivalence.MostRoundsFirst` | plugged/LuaSnip/deps/jsregexp/libregexp.c:2466-2487 | What both explore: the ends of a longest chain of rounds that max allows, descending to min, with the captures unchanged |
| `Equivalence.StartInsidePair` | plugged/LuaSnip/deps/jsregexp/libregexp.c:2147-2153 | A concrete start between two surrogate halves from which the fast opcode backtracks to a position before the start: the boundary condition of the theorems is needed |
| `Equivalence.LazyNothingDiverges` | plugged/LuaSnip/deps/jsregexp/libregexp.c:1596-1637 | A concrete lazy loop over nothing whose run on the empty text never halts, because no guard is emitted for lazy quantifiers: the termination condition of the theorems is needed |
| `SamePlaces.MatchesSame` | plugged/LuaSnip/deps/jsregexp/libregexp.c:2316-2365 | Where a pattern without back references leads does not depend on the captures |
| `Halting.LiftSteps` | plugged/LuaSnip/deps/jsregexp/libregexp.c:2115-2135 | Until it halts a run does not depend on the states that were saved before it |
| `Halting.OpenRoundHalts` | plugged/LuaSnip/deps/jsregexp/libregexp.c:1596-1637 | With a continuation that fails, a loop without a guard fails back from every state from which no sequence of rounds ends with one that stays in place; from every other state the run never halts, if the captures do not decide where a round leads |
| `Halting.StarHalts` | plugged/LuaSnip/deps/jsregexp/libregexp.c:1621-1637 | The same of the loop the compiler writes for an unbounded quantifier without a guard, greedy or lazy, for every body |
| `Halting.PlusHalts` | plugged/LuaSnip/deps/jsregexp/libregexp.c:1650-1653 | The same of the loop whose split stands behind the body |
| `Halting.LazyHaltsIff` | plugged/LuaSnip/deps/jsregexp/libregexp.c:1596-1637 | For every body without back references whose own loops end: its lazy loop fails back if and only if no rounds from the start end with an empty one, and otherwise never halts |
| `Linking.ClosedAppend` | plugged/LuaSnip/deps/jsregexp/libregexp.c:1704-1735 | Two closed blocks placed one after the other are a closed block |
| `Linking.ClosedAlt` | plugged/LuaSnip/deps/jsregexp/libregexp.c:1746-1767 | Inserting the split and patching the jump of an alternative keeps every jump on an instruction of the block |
| `Linking.ClosedFast` | plugged/LuaSnip/deps/jsregexp/libregexp.c:1566-1590 | The fast opcode inserted before its body and the match behind it form a closed block |
| `Blocks.GenClosed` | plugged/LuaSnip/deps/jsregexp/libregexp.c:1215-1770 | Every completed parse leaves a closed, relocatable block: operands fit, jumps land on instructions inside the block or at its end at the height of the linear scan, captures and intervals are in range, and the counter stack is as high after the block as before |
| `Blocks.TermOrder` | plugged/LuaSnip/deps/jsregexp/libregexp.c:1718-1732 | Forwards the blocks of the terms lie in the order of the text; in a lookbehind in exactly the opposite order |
| `Safety.RoundsBack` | plugged/LuaSnip/deps/jsregexp/libregexp.c:2147-2157 | A saved state of a fast quantifier can be undone once for each round it counts, without leaving the subject |
| `Safety.StepOk` | plugged/LuaSnip/deps/jsregexp/libregexp.c:2089-2494 | Every step of the machine on a loaded program, from running, failing or matched states, keeps the invariant: the program counter is on an instruction, the stack has the height of the scan, positions and captures are in range |
| `Safety.RunOk` | plugged/LuaSnip/deps/jsregexp/libregexp.c:2089-2494 | The invariant holds at every moment of every run, whatever the pattern and the subject |
| `Bounds.PeakCovers` | plugged/LuaSnip/deps/jsregexp/libregexp.c:1773-1815 | The height at every place of the code is at most the result of the linear scan |
| `Bounds.PeakReached` | plugged/LuaSnip/deps/jsregexp/libregexp.c:1773-1815 | Some place of the code has that height, so the bound is the least one |
| `Bounds.LabelUnique` | plugged/LuaSnip/deps/jsregexp/libregexp.c:1772-1815 | A place of the code has only one height |
| `Bounds.StackBound` | plugged/LuaSnip/deps/jsregexp/libregexp.c:1773-1815 | In every state of every run, also after backtracking and lookaround exit, the counter stack is exactly as high as the linear scan says for the program counter, and never above the bound in the header; the machine never gets stuck, with no assumption on termination |
| `DynamicBuffer.DynBuf.Reserve` | plugged/LuaSnip/deps/jsregexp/cutils.c:104-123 | Growing keeps the contents |
| `DynamicBuffer.DynBuf.Put` | plugged/LuaSnip/deps/jsregexp/cutils.c:137-146 | The new contents are the old ones and the data |
| `DynamicBuffer.DynBuf.PutSelf` | plugged/LuaSnip/deps/jsregexp/cutils.c:148-157 | A copy of a part of the buffer is appended, taken before the buffer grows |
| `DynamicBuffer.DynBuf.Insert` | plugged/LuaSnip/deps/jsregexp/libregexp.c:114-121 | A gap opens at the place; what was before and behind it is kept |
| `DynamicBuffer.DynBuf.Store` | plugged/LuaSnip/deps/jsregexp/libregexp.c:1305-1313 | Late patching changes only the patched bytes |
| `Scans.IsSimpleQuantifier` | plugged/LuaSnip/deps/jsregexp/libregexp.c:1034-1071 | The byte scan of a block computes the number of character opcodes of its straight-line code, or -1 if it is none |
| `Scans.CheckAdvance` | plugged/LuaSnip/deps/jsregexp/libregexp.c:950-1030 | The byte scan with its bitmap computes the advance score of the block, including -1 exactly for blocks that refer back to a capture they write, as the bitmap records it |
| `Scans.ComputeStackSize` | plugged/LuaSnip/deps/jsregexp/libregexp.c:1773-1815 | The byte scan computes the greatest height, or -1 exactly if that is above 255 |
| `Emitter.Parser.EmitRange` | plugged/LuaSnip/deps/jsregexp/libregexp.c:821-857 | Fails exactly for sets with 65535 or more intervals; otherwise appends the bytes of the set instruction |
| `Emitter.Parser.EmitAtom` | plugged/LuaSnip/deps/jsregexp/libregexp.c:1478-1499 | Appends an atom, between two steps back when the direction is backward |
| `Emitter.Parser.EmitFast` | plugged/LuaSnip/deps/jsregexp/libregexp.c:1566-1590 | Inserts the fast opcode before the body in the buffer |
| `Emitter.Parser.EmitStarAround` | plugged/LuaSnip/deps/jsregexp/libregexp.c:1621-1637 | Inserts a split, and a guard if asked, before the body and jumps back behind it |
| `Emitter.Parser.EmitUptoAround` | plugged/LuaSnip/deps/jsregexp/libregexp.c:1638-1649 | Inserts counter and split before the body and the loop behind it |
| `Emitter.Parser.EmitTimesAround` | plugged/LuaSnip/deps/jsregexp/libregexp.c:1657-1666 | Inserts the counter of compulsory rounds |
| `Emitter.Parser.EmitGuardedCopy` | plugged/LuaSnip/deps/jsregexp/libregexp.c:1667-1678 | Appends a guarded loop over a copy of the body that is already in the buffer |
| `Emitter.Parser.EmitUptoCopy` | plugged/LuaSnip/deps/jsregexp/libregexp.c:1679-1688 | Appends a counted loop over a copy of the body that is already in the buffer |
| `Emitter.Parser.EmitQuantifier` | plugged/LuaSnip/deps/jsregexp/libregexp.c:1563-1691 | Turns the code of an atom at the end of the buffer into the code of the quantified atom, whose meaning the lemmas above state |
| `Emitter.Parser.MoveToFront` | plugged/LuaSnip/deps/jsregexp/libregexp.c:1718-1732 | Moves the last term in front of the earlier ones, in place |
| `Emitter.Parser.ParseDisjunction` | plugged/LuaSnip/deps/jsregexp/libregexp.c:1738-1770 | Appends exactly the code of the pattern and counts its groups; fails exactly when a set has too many intervals or there are more than 255 captures |
| `Emitter.Parser.ParseBranches` | plugged/LuaSnip/deps/jsregexp/libregexp.c:1746-1767 | The same for an alternative, through insertion and late patching |
| `Emitter.Parser.ParseSequence` | plugged/LuaSnip/deps/jsregexp/libregexp.c:1704-1735 | The same for a sequence of terms, reversed in place in a lookbehind |
| `Emitter.Parser.ParseGroup` | plugged/LuaSnip/deps/jsregexp/libregexp.c:1336-1355 | The same for a capture group, numbered by its opening parenthesis |
| `Emitter.Parser.ParseLook` | plugged/LuaSnip/deps/jsregexp/libregexp.c:1288-1313 | The same for a lookaround, with its jump patched behind the final match |
| `Emitter.Parser.ParseQuantified` | plugged/LuaSnip/deps/jsregexp/libregexp.c:1502-1696 | The same for a quantified atom |
| `Compiler.Compile` | plugged/LuaSnip/deps/jsregexp/libregexp.c:1821-1909 | Says exactly which check fails, or returns header and program: flags, number of captures, stack bound, length and the bytes of the program |
| `Compiler.CompiledLoads` | plugged/LuaSnip/deps/jsregexp/libregexp.c:1851-1880 | Bytes that begin with a header and the written program hold the program instruction by instruction |
| `Compiler.FlagsMean` | plugged/LuaSnip/deps/jsregexp/libregexp.h:33-38 | Each flag is read from its own bit of the flag byte |
| `Interpreter.SearchRange16` | plugged/LuaSnip/deps/jsregexp/libregexp.c:2367-2406 | The loop of the 16-bit search agrees with the search on the stored intervals, and its unsigned indices do not wrap |
| `Interpreter.SearchRange32` | plugged/LuaSnip/deps/jsregexp/libregexp.c:2407-2443 | The same for the 32-bit search |
| `Interpreter.TestOp` | plugged/LuaSnip/deps/jsregexp/libregexp.c:2175-2256 | An opcode that reads a character or tests the position moves, stays or fails as the abstract machine does |
| `Interpreter.RunNested` | plugged/LuaSnip/deps/jsregexp/libregexp.c:2450-2473 | The nested call that does not backtrack ends at the position that running the straight-line body gives |
| `Interpreter.RunRounds` | plugged/LuaSnip/deps/jsregexp/libregexp.c:2464-2476 | The greedy loop counts the rounds and ends because each round advances |
| `Interpreter.FollowForward` | plugged/LuaSnip/deps/jsregexp/libregexp.c:2333-2347 | The comparison loop of a back reference agrees with the comparison of the two texts |
| `Interpreter.FollowBackward` | plugged/LuaSnip/deps/jsregexp/libregexp.c:2348-2364 | The same backwards |
| `Interpreter.GoBack` | plugged/LuaSnip/deps/jsregexp/libregexp.c:2147-2151 | The loop of steps back ends where going back that many characters leads |
| `Interpreter.HaltsOnce` | plugged/LuaSnip/deps/jsregexp/libregexp.c:2089-2494 | A run halts with one result only |
| `Interpreter.Exec.PushState` | plugged/LuaSnip/deps/jsregexp/libregexp.c:2050-2086 | Saves position, code address, captures and counters |
| `Interpreter.Exec.StepBranch` | plugged/LuaSnip/deps/jsregexp/libregexp.c:2192-2222 | Split and lookaround opcodes take the abstract step |
| `Interpreter.Exec.StepJump` | plugged/LuaSnip/deps/jsregexp/libregexp.c:2223-2300 | Goto, loop and guard opcodes take the abstract step on the counter array |
| `Interpreter.Exec.StepStack` | plugged/LuaSnip/deps/jsregexp/libregexp.c:2277-2294 | Push and drop opcodes take the abstract step within the array that the header sizes |
| `Interpreter.Exec.StepSave` | plugged/LuaSnip/deps/jsregexp/libregexp.c:2257-2262 | Saving a bound takes the abstract step on the capture array |
| `Interpreter.Exec.StepReset` | plugged/LuaSnip/deps/jsregexp/libregexp.c:2263-2276 | The loop that unsets captures takes the abstract step |
| `Interpreter.Exec.StepBackRef` | plugged/LuaSnip/deps/jsregexp/libregexp.c:2323-2366 | Back references take the abstract step, also for unset captures |
| `Interpreter.Exec.StepQuant` | plugged/LuaSnip/deps/jsregexp/libregexp.c:2450-2489 | The fast opcode takes the abstract step: all rounds at once and one saved state |
| `Interpreter.Exec.ExecuteOne` | plugged/LuaSnip/deps/jsregexp/libregexp.c:2104-2493 | One turn of the loop takes exactly one abstract step, for every opcode of every loaded program, without leaving an array |
| `Interpreter.Exec.PopRound` | plugged/LuaSnip/deps/jsregexp/libregexp.c:2137-2159 | Taking up a saved fast quantifier undoes one round and lowers its count in place |
| `Interpreter.Exec.Unwind` | plugged/LuaSnip/deps/jsregexp/libregexp.c:2117-2173 | The unwinding loop ends in the state the abstract machine reaches: at a saved state that is taken up, or at the end of the run |
| `Interpreter.Exec.Run` | plugged/LuaSnip/deps/jsregexp/libregexp.c:2089-2494 | The interpreter halts with exactly the result that the abstract run halts with |
| `Execution.LreExec` | plugged/LuaSnip/deps/jsregexp/libregexp.c:2499-2535 | For every compiled expression whose loops end and every start on a boundary: a match is found exactly when the matcher has one at the start or, unless sticky, later, and the captures are those of the best one |
| `Execution.CompileAndExec` | plugged/LuaSnip/deps/jsregexp/libregexp.c:1821-2535 | End to end: compilation succeeds exactly under the stated limits, and then the bytes that are written match as the recursive matcher says |
| `Execution.SuccessRuns` | plugged/LuaSnip/deps/jsregexp/libregexp.c:1895-1909 | Every successful compilation is an input the interpreter accepts |
| `CharSet.NormalMember` | plugged/LuaSnip/deps/jsregexp/libunicode.c:325-352 | Cancelling equal neighbours keeps the members of a sorted list |
| `CharSet.NormalCanonical` | plugged/LuaSnip/deps/jsregexp/libunicode.c:325-352 | The result is strictly increasing and of even length: canonical |
| `CharSet.CanonicalUnique` | plugged/LuaSnip/deps/jsregexp/libunicode.h:50-56 | A set has exactly one canonical list |
| `CharSet.WalkMember` | plugged/LuaSnip/deps/jsregexp/libunicode.c:354-402 | While two sorted lists are merged, a character is inside the emitted list exactly when its status under the operation differs from the status at the outset |
| `CharSet.CombinedMember` | plugged/LuaSnip/deps/jsregexp/libunicode.c:354-405 | For all sorted inputs the result of union, intersection or exclusive or is canonical and has exactly the members the operation asks for |
| `CharSet.InvertedMember` | plugged/LuaSnip/deps/jsregexp/libunicode.c:419-431 | Inversion is the complement on [0, UINT32_MAX) and canonical |
| `CharSet.InvertInvolution` | plugged/LuaSnip/deps/jsregexp/libunicode.c:419-431 | Inverting twice gives the same list back |
| `CharSet.DeMorgan` | plugged/LuaSnip/deps/jsregexp/libunicode.c:354-431 | De Morgan's laws hold as equalities of lists |
| `CharSet.XorByOthers` | plugged/LuaSnip/deps/jsregexp/libunicode.c:354-431 | The exclusive or is the list of the union without the intersection |
| `CharRanges.CharRange.AddInterval` | plugged/LuaSnip/deps/jsregexp/libunicode.h:79-88 | Appends two points |
| `CharRanges.CharRange.Copy` | plugged/LuaSnip/deps/jsregexp/libunicode.c:316-323 | The range gets the points of the other, which keeps them |
| `CharRanges.CharRange.Compress` | plugged/LuaSnip/deps/jsregexp/libunicode.c:325-352 | The in-place merge of touching and empty intervals gives the list with equal neighbours cancelled |
| `CharRanges.CharRange.Op` | plugged/LuaSnip/deps/jsregexp/libunicode.c:354-405 | The merge loop and the compression give the combination the lemmas characterise |
| `CharRanges.CharRange.Union1` | plugged/LuaSnip/deps/jsregexp/libunicode.c:407-417 | The range becomes the union of its former self and the list |
| `CharRanges.CharRange.UnionInterval` | plugged/LuaSnip/deps/jsregexp/libunicode.h:92-98 | The new members are the old ones and the characters from c1 to c2, in canonical form; for c2 = UINT32_MAX, whose end wraps to 0, the result is the union with that wrapped list |
| `CharRanges.GreatestEndLost` | plugged/LuaSnip/deps/jsregexp/libunicode.h:92-98 | An interval up to UINT32_MAX adds nothing to an empty range, because its end wraps to 0 |
| `CharRanges.CharRange.Invert` | plugged/LuaSnip/deps/jsregexp/libunicode.c:419-431 | The in-place inversion gives the inverted list |
| `PropertyTable.RunPointsMember` | plugged/LuaSnip/deps/jsregexp/libunicode.c:1129-1166 | The set with the bounds of the runs that have the property has exactly the characters with the property |
| `PropertyTable.RunPointsRising` | plugged/LuaSnip/deps/jsregexp/libunicode.c:1129-1166 | These bounds are canonical without compression |
| `PropertyTable.UnicodeProp1` | plugged/LuaSnip/deps/jsregexp/libunicode.c:1129-1166 | The sequential decoder builds the canonical range of the characters with the property |
| `PropertyTable.ArrivesSame` | plugged/LuaSnip/deps/jsregexp/libunicode.c:172-203 | From any place the decoding arrives at with the property off, the rest of the table decides as the whole table does |
| `PropertyTable.GetIndexPos` | plugged/LuaSnip/deps/jsregexp/libunicode.c:172-203 | The binary search of the index finds a true place of the table at or below the character, whether or not the index is sorted, and fails exactly beyond the last code |
| `PropertyTable.IsInTable` | plugged/LuaSnip/deps/jsregexp/libunicode.c:205-238 | For every table and every index whose entries name true places, the indexed lookup gives the answer of the sequential decoder below the last code, reads only bytes of the table, and halts |
| `PropertyTable.ExactIndex` | plugged/LuaSnip/deps/jsregexp/libunicode.c:205-238 | If the last code is the end of the table, the two agree on every character |
| `PropertyTable.ReadsPacked` | plugged/LuaSnip/deps/jsregexp/libunicode.c:1129-1166 | Every list of runs, written in entries of one to three bytes with two short runs sharing a byte, is read back |
| `PropertyTable.PackedMeans` | plugged/LuaSnip/deps/jsregexp/libunicode.c:1129-1166 | In the table written for it the first run lacks the property, the next has it, and so on in turn; nothing behind the last run has it |
| `Combining.ShiftIn` | plugged/LuaSnip/deps/jsregexp/libunicode.c:787-794 | The innermost loop inserts a character behind the last one whose class is not greater |
| `Combining.SortRunAt` | plugged/LuaSnip/deps/jsregexp/libunicode.c:779-797 | The middle loop sorts the run of marks and stops at the next starter |
| `Combining.SortCc` | plugged/LuaSnip/deps/jsregexp/libunicode.c:773-807 | The in-place loops compute the canonical order of the whole buffer |
| `Combining.ReorderKeeps` | plugged/LuaSnip/deps/jsregexp/libunicode.c:773-807 | The result is a permutation, and characters of equal class keep their order |
| `Combining.ReorderSorts` | plugged/LuaSnip/deps/jsregexp/libunicode.c:773-807 | Characters of class 0 stay in place, marks take places of marks, and no mark directly follows one of a greater class |
| `Combining.ReorderFixed` | plugged/LuaSnip/deps/jsregexp/libunicode.c:773-807 | Exactly the texts already in order are left unchanged, so ordering twice is ordering once |
| `Ordering.Swap` | plugged/LuaSnip/deps/jsregexp/cutils.c:519-529 | Two elements of a part trade places; nothing else changes |
| `RqSort.InsertionSort` | plugged/LuaSnip/deps/jsregexp/cutils.c:623-627 | The small part becomes sorted and keeps its elements |
| `RqSort.Partition` | plugged/LuaSnip/deps/jsregexp/cutils.c:546-573 | The partition loop leaves the four parts equal, smaller, greater, equal around the pivot in front |
| `RqSort.Regroup` | plugged/LuaSnip/deps/jsregexp/cutils.c:574-605 | The two swaps of the shortest possible blocks bring all equal elements into the middle |
| `RqSort.Med3` | plugged/LuaSnip/deps/jsregexp/cutils.c:504-509 | The place returned holds a median of the three elements |
| `RqSort.RootGreatest` | plugged/LuaSnip/deps/jsregexp/cutils.c:470-502 | The root of a heap is its greatest element |
| `RqSort.HeapSort` | plugged/LuaSnip/deps/jsregexp/cutils.c:470-502 | Heap sort sorts any part of the array and keeps its elements |
| `RqSort.PendingRearranged` | plugged/LuaSnip/deps/jsregexp/cutils.c:512-629 | Reordering one pending part keeps every pair from different parts in order |
| `RqSort.PendingSplit` | plugged/LuaSnip/deps/jsregexp/cutils.c:606-621 | A partitioned part may be replaced by its lower and upper part, in either order |
| `RqSort.Sorter.Push` | plugged/LuaSnip/deps/jsregexp/cutils.c:606-621 | The stack of 50 entries never overflows, because its height stays below the depth of the part |
| `RqSort.Sorter.DivideCurrent` | plugged/LuaSnip/deps/jsregexp/cutils.c:542-621 | Partitions, pushes the larger side and goes on with the smaller; less remains to be sorted |
| `RqSort.Sorter.Sort` | plugged/LuaSnip/deps/jsregexp/cutils.c:512-629 | The loops over the stack end with a sorted permutation |
| `RqSort.Rqsort` | plugged/LuaSnip/deps/jsregexp/cutils.c:512-629 | For every total preorder the array becomes a sorted permutation of itself |
| `Utf8.DecodeEncoded` | plugged/LuaSnip/deps/jsregexp/cutils.c:206-304 | Decoding the bytes of a code point below 2^31 gives it back, whatever follows |
| `Utf8.EncodeDecoded` | plugged/LuaSnip/deps/jsregexp/cutils.c:206-304 | Accepted bytes are the encoding of the code point they decode to: only shortest forms are accepted |
| `Utf8.TextRoundTrip` | plugged/LuaSnip/deps/jsregexp/cutils.c:206-304 | The same for every sequence of code points |
| `Utf8.EncodeTable` | plugged/LuaSnip/deps/jsregexp/cutils.c:206-239 | The length of the encoding by the size of the code point, the mark of the first byte by the length, and six bits in every other byte |
| `Utf8.BytesRoundTrip` | plugged/LuaSnip/deps/jsregexp/cutils.c:206-304 | Every accepted byte string is the encoding of its decoding |
| `Utf8.ToUtf8` | plugged/LuaSnip/deps/jsregexp/cutils.c:204-239 | The branches write the bytes of the code point, and 0 is returned exactly for codes out of range |
| `Utf8.FromUtf8` | plugged/LuaSnip/deps/jsregexp/cutils.c:249-304 | The decoding loop gives the code point or -1, and never reads beyond the limit or beyond a final zero byte |
| `IndexMaps.Increasing` | plugged/LuaSnip/deps/jsregexp/jsregexp.c:83-120 | Characters begin at strictly increasing places, in bytes and in units |
| `IndexMaps.UnitsFit` | plugged/LuaSnip/deps/jsregexp/jsregexp.c:83-120 | A text never has more units than bytes |
| `IndexMaps.MutuallyInverse` | plugged/LuaSnip/deps/jsregexp/jsregexp.c:83-120 | Both index maps are strictly increasing on the beginnings of characters and undo each other there |
| `IndexMaps.PairIff` | plugged/LuaSnip/deps/jsregexp/jsregexp.c:107-109 | An astral character becomes its surrogate pair if and only if bit 13 of its code is off: the mask 0xfffff lets that bit through |
| `IndexMaps.Utf8ToUtf16` | plugged/LuaSnip/deps/jsregexp/jsregexp.c:83-120 | The conversion fails exactly for malformed text, writes inside its arrays, and leaves units and index maps for every character beginning and for the end |
| `FuzzyText.FirstsLeast` | plugged/telescope-fzf-native.nvim/src/fzf.c:474-497 | No spelling of the pattern is ahead of the one the forward scan finds, at any of its characters |
| `FuzzyText.FirstsDecide` | plugged/telescope-fzf-native.nvim/src/fzf.c:474-497 | The pattern is a subsequence exactly when that scan finds all its characters |
| `FuzzyText.LastsGreatest` | plugged/telescope-fzf-native.nvim/src/fzf.c:501-515 | No spelling below an end is behind the one the backward scan finds |
| `FuzzyText.TrySkip` | plugged/telescope-fzf-native.nvim/src/fzf.c:342-367 | Returns the first place that hits the character in either case, or -1 if there is none |
| `FuzzyText.FoldMeans` | plugged/telescope-fzf-native.nvim/src/fzf.c:425-428 | With case ignored the text is compared with 32 added to the bytes 0x41 to 0x5a, otherwise as it is |
| `FuzzyText.HitsMeans` | plugged/telescope-fzf-native.nvim/src/fzf.c:342-367 | Except for capitals in the pattern, the prefilter hits exactly the characters that match when folded |
| `FuzzyText.HitsSpell` | plugged/telescope-fzf-native.nvim/src/fzf.c:379-399 | So increasing places hit such a pattern exactly when they spell it in the folded text |
| `FuzzyText.BonusMeans` | plugged/telescope-fzf-native.nvim/src/fzf.c:307-327 | The bonus of a place by the bytes there and before it: 8 beside or on a character that is no letter or digit, 7 where a capital follows a small letter or a digit a letter, else 0 |
| `FuzzyText.AsciiFuzzyIndex` | plugged/telescope-fzf-native.nvim/src/fzf.c:379-399 | -1 exactly when no increasing places hit the pattern, and then it is no subsequence of the folded text, for a pattern without capitals exactly then; otherwise exactly the place before the first hit of the first pattern character, or 0 |
| `FuzzyWorth.WorthBounds` | plugged/telescope-fzf-native.nvim/src/fzf.c:401-460 | The worth of places lies between 16 each less 3 for every character between them and 24 each and 8 more |
| `FuzzyV1.CalculateScore` | plugged/telescope-fzf-native.nvim/src/fzf.c:401-460 | On a window that the pattern spells the pattern is used up exactly at the last character, and the places recorded are the first ones from the start on; the score is their worth: 16 and a weight for each place, the first weight twice, less n + 2 for each gap of n characters |
| `FuzzyV1.WindowTight` | plugged/telescope-fzf-native.nvim/src/fzf.c:474-515 | The window ends at the least prefix that contains the pattern and starts at the greatest start for that end |
| `FuzzyV1.WindowUnique` | plugged/telescope-fzf-native.nvim/src/fzf.c:474-515 | There is only one such window |
| `FuzzyV1.ScanBackward` | plugged/telescope-fzf-native.nvim/src/fzf.c:501-515 | The backward scan ends at that start and never runs past the first hit |
| `FuzzyV1.FuzzyMatchV1` | plugged/telescope-fzf-native.nvim/src/fzf.c:462-522 | Matches exactly when the folded text contains the pattern as a subsequence, and returns that window, its places and their worth |
| `FuzzyV1.CaseAlike` | plugged/telescope-fzf-native.nvim/src/fzf.c:462-522 | With case ignored, texts that differ only by 32 in the bytes 0x41 to 0x5a match alike, with the same start, end and places |
| `FuzzyExact.TriedBoundary` | plugged/telescope-fzf-native.nvim/src/fzf.c:804-811 | Stopping at the greatest bonus there is loses nothing |
| `FuzzyExact.FindOccurrence` | plugged/telescope-fzf-native.nvim/src/fzf.c:786-821 | The loop that rewinds its own index halts and finds the leftmost of the best occurrences |
| `FuzzyExact.ExactMatch` | plugged/telescope-fzf-native.nvim/src/fzf.c:770-832 | No match exactly when the pattern is no substring of the folded text; otherwise the leftmost occurrence among those with the greatest bonus, with the worth of its places as score |
| `FuzzyGrid.CellAt` | plugged/telescope-fzf-native.nvim/src/fzf.c:686-724 | A cell is never negative and at most 24 per pattern character and 8 more; its run begins inside the part of the bonus array that was written |
| `FuzzyGrid.NoOverflow` | plugged/telescope-fzf-native.nvim/src/fzf.c:686-724 | Under the limit of the default slab every number that is assigned while a cell is computed fits in 16 bits: the sums from the left and on the diagonal with either bonus, the run and the score |
| `FuzzyGrid.Decays` | plugged/telescope-fzf-native.nvim/src/fzf.c:686-724 | Where the pattern character does not stand, a score is 0 or below its left neighbour |
| `FuzzyGrid.AcceptedHit` | plugged/telescope-fzf-native.nvim/src/fzf.c:735-752 | A place the traceback accepts holds the pattern character |
| `FuzzyGrid.FirstAccepted` | plugged/telescope-fzf-native.nvim/src/fzf.c:735-752 | At the first possible place of a character the traceback always accepts, so it never runs past it |
| `FuzzyTrace.PathSpells` | plugged/telescope-fzf-native.nvim/src/fzf.c:731-756 | Whatever the memory held, the places of the path strictly decrease and spell the pattern backwards |
| `FuzzyTrace.PlacesIff` | plugged/telescope-fzf-native.nvim/src/fzf.c:735-752 | The places are the same for every former content of the memory if and only if the traceback decides no tie by a hint that looked at a cell left of the first place of its row, which the call never writes |
| `FuzzyTrace.SpreadPaths` | plugged/telescope-fzf-native.nvim/src/fzf.c:735-752 | A text and a pattern for which one such cell decides between two lists of places |
| `FuzzySlab.LayoutApart` | plugged/telescope-fzf-native.nvim/src/fzf.c:252-265 | Pieces cut from the slab one after the other lie inside it and do not overlap |
| `FuzzyV2.Memory.FirstPass` | plugged/telescope-fzf-native.nvim/src/fzf.c:559-627 | Bonuses, first places, the last occurrence and the first row are what the functions say, in memory that held anything before |
| `FuzzyV2.ScoreGrid.FillCell` | plugged/telescope-fzf-native.nvim/src/fzf.c:686-724 | One cell is computed from the cells to its left and on the diagonal as the grid says; under the limit of the default slab every number it forms fits in 16 bits |
| `FuzzyV2.ScoreGrid.FillRow` | plugged/telescope-fzf-native.nvim/src/fzf.c:665-725 | A row is filled from cells written in the same call, the best column so far is kept, and left of the row's first place the memory of the runs stays as it was before the call |
| `FuzzyV2.ScoreGrid.Trace` | plugged/telescope-fzf-native.nvim/src/fzf.c:727-757 | The traceback ends, and records exactly the path that the grid and the former contents of the memory of the runs give; the start is the last place of it |
| `FuzzyV2.FuzzyMatchV2` | plugged/telescope-fzf-native.nvim/src/fzf.c:524-768 | Falls back to the first algorithm exactly when the grid does not fit; otherwise matches exactly the subsequences, with the score and the end of the leftmost best column, and with the places and the start of that path, or without a buffer for places the best column as start |
| `FuzzyMeaning.ScoreAttained` | plugged/telescope-fzf-native.nvim/src/fzf.c:592-725 | Every score of the grid is what a spelling is worth that ends at or before the cell, less the gap behind it, where what has been gained is never spent beyond zero on a gap; and a run that ends there is the run of that spelling |
| `FuzzyWorth.HeldWorth` | plugged/telescope-fzf-native.nvim/src/fzf.c:686-724 | Worth that is never spent beyond zero is the plain worth exactly when no gap costs more than has been gained before it |
| `FuzzyBounds.CarriesIff` | plugged/telescope-fzf-native.nvim/src/fzf.c:686-724 | A row hands every score on to later columns at the price of the gap if and only if no hit in it is taken at most one above the gap it ends |
| `FuzzyBounds.PlainBound` | plugged/telescope-fzf-native.nvim/src/fzf.c:686-724 | While no row loses in this way, every cell is at least what any spelling that ends at or before it is worth without the bonuses of runs, less the gap behind it |
| `FuzzyBounds.LeastBound` | plugged/telescope-fzf-native.nvim/src/fzf.c:592-725 | Without any condition it is at least that with 3 for each character of a gap, for spellings whose first place is the last hit of the first character before the second place |
| `FuzzyScores.ScoreIsWorth` | plugged/telescope-fzf-native.nvim/src/fzf.c:524-768 | The returned score is what a spelling of the pattern is worth that ends where the match ends |
| `FuzzyScores.ScoreAtLeast` | plugged/telescope-fzf-native.nvim/src/fzf.c:524-768 | It is no less than the lower worth, as above, of any spelling that begins late |
| `FuzzyScores.ScoreBest` | plugged/telescope-fzf-native.nvim/src/fzf.c:524-768 | If no row of the grid loses, or the pattern has one character, it is no less than the worth without the bonuses of runs of any spelling at all |
| `FuzzyScores.Overwritten` | plugged/telescope-fzf-native.nvim/src/fzf.c:592-605 | `ba` in `bba` scores 36 although a spelling is worth 45 without bonuses of runs: a later hit of the first character overwrites a better earlier one |
| `FuzzyScores.TieLoses` | plugged/telescope-fzf-native.nvim/src/fzf.c:694-720 | `aab` in `aAaxb` scores 66 although a spelling is worth 67 so: after a tie the gap is paid for from its beginning again |
| `FuzzyScores.GapForgiven` | plugged/telescope-fzf-native.nvim/src/fzf.c:686-724 | An `a`, 31 other letters and a `b` score 16 for `ab` although the only spelling is worth 15: a score never falls below zero |
| `FuzzyAnswers.ScoreAndEnd` | plugged/telescope-fzf-native.nvim/src/fzf.c:524-768 | The score and the end are functions of text and pattern, for every slab of one size and with or without places; where no grid is traced back the whole answer is |
| `FuzzyAnswers.AnswerIff` | plugged/telescope-fzf-native.nvim/src/fzf.c:524-768 | For slabs of one size the whole answer is the same whatever earlier calls have left in them, if and only if no tie of the traceback hangs on memory of the slab that the call does not write |
| `FuzzyAnswers.SpreadAnswer` | plugged/telescope-fzf-native.nvim/src/fzf.c:735-757 | A concrete text whose returned start is 15 or 0 by one number that an earlier call has left in the slab, at equal score and end |
| `Scheduler.ReapWork` | plugged/plug.vim:1474-1495 | Reaping a job always leaves less work |
| `Scheduler.TurnWork` | plugged/plug.vim:1557-1628 | Each turn of the loop leaves less work, so a tick ends |
| `ScheduleSafety.ReapOk` | plugged/plug.vim:1474-1495 | Reaping a job keeps the invariant: every plugin waits, runs or is finished, and its commands follow its plan |
| `ScheduleSafety.TurnOk` | plugged/plug.vim:1569-1623 | A turn keeps the invariant and starts at most one job |
| `ScheduleSafety.TickOk` | plugged/plug.vim:1557-1628 | A tick ends settled: at most as many jobs as allowed, and either no plugin waits or all slots are taken |
| `ScheduleSafety.Safety` | plugged/plug.vim:1402-1628 | In every run, for every order of exits and cancellations: at most `threads` jobs, each plugin in exactly one of waiting, running and finished, the bar as long as the finished plugins, commands started in the order of the plan |
| `ScheduleOutcomes.Outcomes` | plugged/plug.vim:1560-1628 | In every run the commands started for a plugin begin the list that was due when it was first looked at; a finished plugin that is not among the errors has run all of it; and one whose check failed is among the errors |
| `ScheduleOutcomes.AllDone` | plugged/plug.vim:1585-1618 | When every start succeeds and every process exits with 0, a finished update has run clone, checkout and merge for a new plugin, fetch and set-head and unless pinned checkout and merge for a valid one that is pulled, and nothing otherwise; the errors are the plugins whose check failed |
| `ScheduleOutcomes.AskedOnce` | plugged/plug.vim:1569-1580 | No two plugins are first looked at at the same moment |
| `ScheduleOutcomes.ExitVerdict` | plugged/plug.vim:1474-1495 | A job that fails, also at its last command, puts its plugin among the errors for good and an `x` into the bar; one that ends its last command well adds a `=` and no error; a cancelled one leaves a `~` |
| `ScheduleOutcomes.StartVerdict` | plugged/plug.vim:1422-1472 | A command that starts runs; one that cannot be started, or was waited for and failed, finishes its plugin with an error; one that was waited for and succeeded leaves the rest for another turn |
| `ScheduleOutcomes.BarTells` | plugged/plug.vim:1474-1495 | Without a cancellation the bar holds, at every moment, an `x` for each error and a `=` for every other finished plugin |
| `ScheduleSafety.NoStall` | plugged/plug.vim:1560-1567 | While the update is not over, some job is alive |
| `ScheduleSafety.Progress` | plugged/plug.vim:1402-1628 | At most ten jobs per plugin end in any run; the final step happens at most once, exactly when the bar is as long as there are plugins |
| `ScheduleSafety.FinishedForGood` | plugged/plug.vim:1474-1495 | Once a plugin has failed or finished, no command is started for it again and its verdict stays |
| `ScheduleSafety.SkippedExit` | plugged/plug.vim:1402-1407 | The same whenever all waiting plugins are to be skipped |
| `ScheduleSafety.CancelledExit` | plugged/plug.vim:1338-1364 | Right after a cancellation the end of a job starts another command exactly when it had commands left and its process exited with 0: the exit code overwrites the mark |
| `ScheduleSafety.NoThreadsStall` | plugged/plug.vim:1624-1626 | With no threads allowed a tick that begins without jobs leaves plugins waiting and no job exactly when the first plugin picked that is not skipped has a job that does not run, and is not the last or has commands left; so at least one thread is needed |
| `Updater.Update.ReapJob` | plugged/plug.vim:1474-1495 | The dictionaries, the list and the bar change as the abstract step says |
| `Updater.Update.Spawn` | plugged/plug.vim:1422-1472 | The job takes the first command of its queue and the log records it |
| `Updater.Update.TurnOnce` | plugged/plug.vim:1569-1623 | One turn of the loop is one abstract turn |
| `Updater.Update.RunTick` | plugged/plug.vim:1557-1628 | The loop ends in the state of the abstract tick |
| `Updater.Update.UpdateVim` | plugged/plug.vim:1540-1545 | The update begins with a tick of the abstract machine over all plugins |
| `Updater.Update.JobExited` | plugged/plug.vim:1402-1407 | A job exit is the abstract event |
| `Updater.Update.JobAbort` | plugged/plug.vim:1338-1364 | A cancellation is the abstract event |

## Left out

- Concrete syntax of regular expressions (escapes, classes, group names, Annex B forms): patterns begin as syntax trees, and the tree admits more quantified bodies than the grammar.
- Nesting: the check for overflow of the C stack in the recursive parser and the text of error messages are not part of the model.
- Compiler.Compile: memory exhaustion is modelled as a buffer of 2^31 bytes or more, because the offsets of the bytecode are 32-bit; failing allocations below that size are not modelled.
- Interpreter.Exec.PushState: the array of saved states is a sequence, so its growth by reallocation is not modelled.
- Interpreter.RunNested: the recursive call of the interpreter for a quantified body is its own method, because that call can only meet straight-line code.
- Execution.LreExec: assumes the start on a character boundary, as the loops over all matches in `jsregexp.c` choose it, and loops that end, for the reasons given above; whether a run that starts between two surrogate halves halts is not stated.
- Correctness.CodeImplements: assumes the termination condition for inner loops too; the exact condition is stated loop by loop in `Halting`, for a continuation that fails, because a continuation that succeeds can leave an endless loop.
- Halting.OpenRoundHalts: for a body whose rounds depend on captures, by references back to its own groups, only the direction towards the end is stated.
- Case folding: `lre_canonicalize` is an arbitrary function on characters, so classes that `cr_canonicalize` extends for ignored case are taken as given.
- CharRanges.CharRange.UnionInterval: for c2 = UINT32_MAX only the list is stated, and that it is wrong for an empty range; callers pass code points.
- CharRanges.CharRange.Compress: lists have an even number of points, as the declaration of the type promises.
- PropertyTable.IsInTable: the contents of the tables in `libunicode-table.h` are not part of the model; a table and an index are parameters with a condition.
- Normalisation forms, case conversion, general categories and scripts of libunicode.
- RqSort.Rqsort: element size, pointer alignment and the `exchange` variants; swapping is a swap of elements.
- Utf8.ToUtf8: shifts and masks are written as divisions and remainders.
- FuzzyScores.ScoreBest: that no row loses is exact for what a row hands on (`FuzzyBounds.CarriesIff`), and sufficient for the comparison with all spellings; a lost score may be made up for by the bonuses of runs.
- FuzzyV2.FuzzyMatchV2: slices of the slab are separate arrays with the contents of their place in the slab (the runs) or arbitrary contents (all others); that they do not overlap is `FuzzySlab.LayoutApart`. What a call leaves in the slab for the next one is not computed.
- FuzzyGrid.CellAt: 16-bit wrap-around is not modelled; under the default slab it does not occur (`FuzzyGrid.NoOverflow`), and without a slab a pattern of more than 1364 characters is outside the bound.
- Prefix, suffix and equal matching, pattern parsing and score merging of the fuzzy matcher.
- Updater.Update.RunTick: a tick is atomic, and each running job exits once; a process that ends before its start has been reported is not modelled.
- Commands, windows, buffers and messages of vim-plug, the Python and Ruby updaters, and the path taken when its window is closed.
- The bindings to Lua, and the copies of the same library in `jsregexp005`.
