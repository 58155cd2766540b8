# Verification models for radare2's analysis code

Dafny models of nine algorithms of radare2, with proofs of what they keep, preserve or
compute. `dafny verify dfyconfig.toml` checks the whole project.

Each model follows one source file. Where the source updates state in place the model is
a class or a method with loops, proved against a specification function or against the
property itself; lemmas then say what that specification is good for. Statements are for
all inputs. Where a property that one would expect is false of the code, the model keeps
the code as it is, gives a counterexample, and proves exactly when the property holds.

| Model | Files | About |
|---|---|---|
| ESIL to REIL | `reil`, `esil2reil`, `reil_simulation`, `reil_agreement`, `reil_flags`, `reil_program`, `reil_translator` | A stack language with lazily read registers, compiled to three-address code over fresh temporaries |
| ESIL machine | `words`, `esil_flags`, `esil_machine`, `esil_words`, `esil_memory`, `esil_control`, `esil_parse`, `esil` | Stack words over 64-bit values, internal flags, memory, one skip flag, jumps, a limit on words |
| Basic blocks | `basic_block`, `block_sort`, `fcn_blocks`, `fcn_traces`, `fcn_flow`, `fcn_bounds`, `fcn_sizes`, `fcn_recurse`, `fcn_lost`, `fcn_fit` | Recursive descent that appends and splits blocks; cutting functions at the next one |
| FLIRT | `flirt_format`, `flirt_roundtrip`, `flirt_match`, `flirt` | Signature trees: the parser, a writer for the documented format, and the matcher |
| Allocator | `first_fit_heap` | First fit with headers inside a byte arena |
| Jump lines | `reflines` | Greedy interval colouring with a lowest-free cursor |
| Line rasteriser | `canvas_line` | An error-term loop without a counter |
| 2048 | `board2048` | An in-place slide-and-merge loop, a scoring law, a game-over test |

## What the results say

**ESIL to REIL.** The translation emits a temporary as wide as its widest operand, where
ESIL computes in 64 bits. So the two agree after every word exactly when every result
fits: a two-operand result must be below 2^width, and an even non-zero value must not go
to a one-bit register, of which ESIL keeps whether it is zero and REIL the low bit.
Programs over 64-bit registers always fit unless they compute with results of `!` and
`==`. The translation of one-operand words and of flags uses up to three stack slots more
than ESIL does, so a spare slot is required where that is shown to be needed.
REIL is only printed by the program; the executor here extends operands with zeros,
truncates results to the destination, and compares unsigned. Flags are known from an
assignment of a register until that register is overwritten, or `==` or `!=` is run.

**ESIL.** The specification of a word is a function on the machine's value; the class
updates an array stack and fields in place and is proved equal to it. The parser reads
words into a buffer of 64 characters that it never leaves. As there is one skip flag, a
conditional inside a branch is skipped as it should be only at the end of the last branch,
or of the first if the alternative is empty; what skipping does is proved in every case. A
text with jumps runs as its list of words does, in which a jump leads to the word of its
number. Results of arithmetic are described by products, remainders and bits, apart from
how the machine computes them. The overflow check after a subtraction is wrong for exactly
one subtrahend.

**Basic blocks.** What the descent needs of the code is that instructions do not overlap,
of which aligned fixed-width code is an instance. Block lists are then disjoint, each
block is a straight run of instructions that stops where the flow of control does, and an
edge that a walk sets because it ran into another block leads to that block's start.
The covered instructions are exactly those that the flow of control comes to from an
entry, unless the limits cut the analysis short: the depth, which needs as many blocks as
levels, the largest size, or the bytes read at once. A caller can check that these do not
touch the code. The flow is the one that the options let the program follow: with the
option to end blocks at jumps, and for jumps to other sections, it goes to the address
behind a jump instead of its target; jumps back before the function end it unless that is
allowed; and with the option for returns after pushes it goes to the pushed address, and
behind the return only if that is come to in another way. Edges to the next instruction are
overwritten with two settings of the options, and with no others.
The size is fitted to the end of each block, mostly after its targets were followed; by then
the block may have been split, and the half behind the split is not measured. So no block ends
beyond the function if every block is fitted early, as it is with the option to end blocks at
jumps on and those to go on after jumps and for returns after pushes off; with all other
options there is code for which one does.

**FLIRT.** The parser is proved to invert a writer that follows the format comment at the
head of the source. Where the two differ the code is followed: the wildcard mask of a node
of length 32 is read like those of lengths 16 to 31. The checksum is proved to be the remainder
of a division of polynomials.

## Model

| member | source | states |
|---|---|---|
| `ReilProgram.AgreesIffFits` | libr/anal/esil2reil.c:178-577 | For every straight-line program of the words considered, after every prefix executing the emitted REIL gives the registers that ESIL has and every symbolic stack entry stands for its ESIL counterpart, if and only if every result fits the sizes REIL works with |
| `ReilProgram.TranslationPreservesMeaning` | libr/anal/esil2reil.c:356-577 | A program whose results fit can be run either way: executing its translation from the same registers ends in the same registers, with temporaries numbered in order |
| `ReilProgram.WideProgramsFit` | libr/anal/esil2reil.c:294-374 | With 64-bit registers only, and without the two words that leave one-bit results, every result fits |
| `ReilProgram.WordAgrees` | libr/anal/esil2reil.c:94-577 | One word: both sides succeed, they agree afterwards exactly when the word fits, and then the flags that should be known are |
| `ReilProgram.OneBitProgram` | libr/anal/esil2reil.c:318-325 | Counterexample: over two `!` results of zero registers the translated sum is 0 where ESIL pushes 2, since a result is only as wide as its operands |
| `ReilProgram.StepNeedsRoom` | libr/anal/esil2reil.c:486-518 | On a full stack the translation of `++` and `--` disagrees with ESIL, because its second push is dropped |
| `ReilProgram.StepAssignNeedsRoom` | libr/anal/esil2reil.c:497-530 | On a full stack the translation of `++=` and `--=` agrees exactly when the register is the only entry and keeps its value |
| `ReilProgram.NotAssignNeedsRoom` | libr/anal/esil2reil.c:568-577 | On a full stack the translation of `!=` disagrees |
| `ReilProgram.FlagNeedsRoom` | libr/anal/esil2reil.c:912-960 | On a full stack the translation of copying a carry or borrow flag fails or disagrees; the other flags need no spare slot |
| `ReilProgram.CarryCodeIsCarry` | libr/anal/esil2reil.c:939-960 | After a translated `+=` the code emitted for `$cN` computes the carry out of bit N, for every N below the register size |
| `ReilProgram.BorrowCodeIsBorrow` | libr/anal/esil2reil.c:905-937 | After a translated `-=` the code emitted for `$bN` computes the borrow of the low bits, as many as the masked number says: N of them, and 64 for N = 0 |
| `ReilFlags.FlagCodeAgrees` | libr/anal/esil2reil.c:905-1071 | The code emitted for `$cN`, `$bN`, `$s` and `$r` leaves a source that holds what ESIL reads from the flag, while the last destination has not been overwritten, for every number whose bit the destination has after masking |
| `ReilFlags.OverflowCodeAgrees` | libr/anal/esil2reil.c:1031-1038 | For destinations of two bits and more, the code emitted for `$o` holds what ESIL reads exactly when the destination's bits have not changed, as it takes the borrow of all bits where ESIL takes the carry |
| `ReilFlags.BeyondSizeDiffers` | libr/anal/esil2reil.c:912-960 | Carry and borrow bits that the destination does not have read differently on the two sides |
| `ReilFlags.FlagAssignAgrees` | libr/anal/esil2reil.c:191-196 | Copying a flag to a register agrees exactly when the value keeps in a register of that size, and leaves the flags known unless it overwrites their register; carry and borrow need a spare stack slot |
| `ReilAgreement.BinaryAgrees` | libr/anal/esil2reil.c:294-341 | A two-operand word agrees exactly when the ESIL result is below 2^(width of the wider operand) |
| `ReilAgreement.UpdateAgrees` | libr/anal/esil2reil.c:343-354 | A register update agrees exactly when the register is wider than one bit or the result is zero or odd; then the flag registers hold the values before and after |
| `ReilAgreement.AssignAgrees` | libr/anal/esil2reil.c:178-291 | The same for plain assignment |
| `ReilAgreement.StepAssignAgrees` | libr/anal/esil2reil.c:497-530 | With a spare stack slot, the same for `++=` and `--=` |
| `ReilAgreement.CompareAgrees` | libr/anal/esil2reil.c:376-422 | `==` always agrees |
| `ReilAgreement.NotAgrees` | libr/anal/esil2reil.c:532-566 | `!` always agrees |
| `ReilAgreement.NotAssignAgrees` | libr/anal/esil2reil.c:568-577 | With a spare stack slot, `!=` always agrees |
| `ReilSimulation.AssignStores` | libr/anal/esil2reil.c:178-291 | The emitted assignment stores the source truncated to the register, keeps the stack below and all older temporaries, and saves the old value for the flags |
| `ReilSimulation.AssignJumps` | libr/anal/esil2reil.c:178-275 | An assignment to the program counter emits a jump that is always taken, to the value of the source, and changes no register |
| `ReilSimulation.UpdateStores` | libr/anal/esil2reil.c:343-354 | The emitted update stores the operation on both operands, truncated first to the temporary and then to the register |
| `Reil.WrittenOnceBeforeRead` | libr/anal/esil2reil.c:94-98 | In code that numbers its temporaries in order, every temporary is written by one instruction only, and before any instruction reads it |
| `EsilToReil.Translate` | libr/anal/esil2reil.c:178-577 | Whatever is on the stack, a translated word keeps the numbering of temporaries, as long as assignments do not name temporaries |
| `ReilTranslator.Translator.Word` | libr/anal/esil2reil.c:178-577 | The in-place translator does to its stack buffer, code and counters what the specification says, for every word |
| `ReilTranslator.Translator.Program` | libr/anal/esil.c:2316-2382 | Translating a list of words in place is the specified translation of the list |
| `ReilTranslator.Translator.AssignWord` | libr/anal/esil2reil.c:178-291 | Assignment: the resolved or copied source, the saved destination, the cast and the store, in that order |
| `ReilTranslator.Translator.BinaryWord` | libr/anal/esil2reil.c:294-341 | Two pops, one instruction into the next temporary, one push |
| `ReilTranslator.Translator.SpewFlag` | libr/anal/esil2reil.c:1040-1071 | The instructions for an internal flag, as specified |
| `EsilFlags.CarryAfterAdd` | libr/anal/esil.c:333-336 | After an addition the carry check at bit k is the carry out of bit k |
| `EsilFlags.BorrowAfterSub` | libr/anal/esil.c:328-331 | After a subtraction the borrow check at b in 1..64 holds exactly when the old value is below the subtrahend modulo 2^b; at 0 it compares all 64 bits |
| `EsilFlags.OverflowAfterAdd` | libr/anal/esil.c:355-360 | After an addition the overflow check holds exactly when the signed n-bit sum does not fit |
| `EsilFlags.OverflowAfterSub` | libr/anal/esil.c:355-360 | After a subtraction the same check is right exactly when the subtrahend is not the least n-bit number |
| `EsilFlags.OverflowMissed` | libr/anal/esil.c:355-360 | Counterexample: zero minus the least n-bit number overflows and the check does not see it |
| `EsilFlags.SignIsNegative` | libr/anal/esil.c:349-353 | The sign check is the sign of the low bits as a two's complement number |
| `EsilFlags.GenmaskIsOnes` | libr/anal/esil.c:25-29 | The mask for a bit number has exactly the bits up to it |
| `EsilWords.ApplyMeans` | libr/anal/esil.c:917-1430 | A word is the result of an operator exactly when it is the sum, difference or product less a multiple of 2^64, the quotient or remainder of a division, has the bits that `&`, `|` and `^` call for, or is the product with, or the quotient by, a power of two |
| `EsilWords.BinaryEffect` | libr/anal/esil.c:917-1410 | An operator replaces its two operands by that result; it fails without values, and traps on a zero divisor |
| `EsilWords.ThreeTimesFour` | libr/anal/esil.c:1276-1294 | `3,4,*` leaves 12 |
| `EsilWords.UpdateEffect` | libr/anal/esil.c:660-1430 | An assigning operator leaves in the register what fits of that result, and notes operand and result for the flags unless a flag was the source |
| `EsilWords.AssignEffect` | libr/anal/esil.c:592-615 | An assignment leaves in the register what fits of the value, and notes the old and the uncut new value unless a flag was the source |
| `EsilWords.CompareEffect` | libr/anal/esil.c:818-878 | A comparison notes its left operand, the difference and a size, pushes whether the operands are the same, and changes nothing else |
| `EsilWords.StepEffect` | libr/anal/esil.c:1362-1446 | `++` and `--` replace a value by the sum or difference with one |
| `EsilWords.StepAssignEffect` | libr/anal/esil.c:1377-1464 | `++=` and `--=` leave in the register what fits of that, and note the old and the uncut new value |
| `EsilWords.NotEffect` | libr/anal/esil.c:617-654 | `!` and `!=` tell whether a value is zero |
| `EsilWords.StackEffects` | libr/anal/esil.c:1138-2129 | SWAP, DUP, POP and CLEAR on a stack of two entries and more |
| `EsilWords.NumEffect` | libr/anal/esil.c:2097-2111 | NUM replaces an operand by its value, and fails without one |
| `EsilWords.NumbersAreNotAssigned` | libr/anal/esil.c:592-615 | Assigning to a number fails and takes both operands |
| `EsilWords.FlagsAfterAdd` | libr/anal/esil.c:328-462 | After a sum the flags read as the carry out of the named bit, whether the signed sum did not fit, and the sign |
| `EsilWords.FlagsAfterSub` | libr/anal/esil.c:328-462 | After a difference or a comparison the flags read as the borrow, the sign, and, unless the subtrahend is the least number, whether the signed difference did not fit |
| `EsilMemory.MemUpdateEffect` | libr/anal/esil.c:1646-1989 | The read-modify-write words, in either byte order and at every width: the addressed word becomes the sum, difference, product, quotient or bitwise combination of the old word and the source modulo 2^n, which is noted for the flags; all other bytes and the registers stay, and the stack loses exactly its two operands |
| `EsilMemory.MemDivByZeroTraps` | libr/anal/esil.c:1917-1946 | Division of memory by zero traps, leaves memory alone and takes both operands |
| `EsilMemory.PokeEffect` | libr/anal/esil.c:1466-1498 | A poke stores the low bytes of its value and nothing else |
| `EsilMemory.PokeNotes` | libr/anal/esil.c:1466-1498 | A poke notes the value and, in little-endian order or at eight bytes, what was there before, unless the value is a flag |
| `EsilMemory.PeekEffect` | libr/anal/esil.c:1563-1586 | A peek replaces an address by a number whose k-th byte is k places on, or that many before the last in big-endian order |
| `EsilMemory.PeekAfterPoke` | libr/anal/esil.c:1563-1586 | Peeking where a value was poked pushes the value modulo 2^n |
| `EsilMemory.RoundTrip` | libr/anal/esil.c:1466-1586 | Decoding an encoded word gives its low bytes, in either byte order |
| `EsilControl.FlattenKeepsMeaning` | libr/anal/esil.c:2316-2382 | The flat word list of a program with if/else, nested wherever one skip flag allows it, ends in the same machine with the same verdict as the structured program, while the word limit lasts |
| `EsilControl.SkippedBranch` | libr/anal/esil.c:2347-2361 | Exactly when a branch is skipped as it should be: without an alternative if its only conditional is at its end and can itself be passed over, with one to run if it has no conditional; otherwise one of its words is run, or the alternative is not |
| `EsilControl.SkimIsExact` | libr/anal/esil.c:2347-2361 | What passing over the words of a branch does to the flag, in terms of where its conditionals are |
| `EsilControl.NestedSkipBreaks` | libr/anal/esil.c:2353-2361 | Counterexample: in a skipped branch the end of an inner conditional switches execution back on |
| `EsilControl.RunConcat` | libr/anal/esil.c:2316-2382 | Running a list is running its front and then, if that went on, the rest |
| `EsilParse.ParseFrom` | libr/anal/esil.c:2430-2499 | The parser ends on every text, jumps included, keeps the machine valid, and never takes the count of words below zero |
| `EsilParse.ParseIsBounded` | libr/anal/esil.c:2430-2499 | Every run of every text ends with the stack within its bounds after at most the limit of words |
| `EsilParse.TextRunsItsWords` | libr/anal/esil.c:2430-2499 | Without jumps, a text of comma-separated words leaves the state and return code of running its list of words |
| `EsilParse.TextRunsProgram` | libr/anal/esil.c:2399-2499 | Jumps included, a text of comma-separated words leaves the state and return code of its list of words, in which a jump goes on at the word with that number and ends the run with code 0 if there is none |
| `EsilParse.TargetIsExact` | libr/anal/esil.c:2384-2397 | The word found for a jump is where the rest of the list from that number on starts in the text, and there is none for every other number |
| `EsilParse.GotoTakes` | libr/anal/esil.c:1150-1158 | A jump takes its operand as a signed 32-bit number |
| `EsilParse.JumpsOver` | libr/anal/esil.c:2384-2428 | The text `2,GOTO,7,rax,=` leaves 7 in the register and returns 1 |
| `EsilParse.RunsEnd` | libr/anal/esil.c:1133-1148 | BREAK, TODO and the limit end a run with code 0, and only the limit traps |
| `EsilParse.SemicolonEnds` | libr/anal/esil.c:2457-2499 | A semicolon ends the text behind its word with code 0, unless a comma follows |
| `EsilParse.LongWordFails` | libr/anal/esil.c:2452-2455 | A text that starts with 63 characters of one word and goes on is refused with -1 |
| `EsilParse.StructuredText` | libr/anal/esil.c:2316-2499 | A text that spells a structured program whose branches can be passed over runs as that program, and its return code tells whether a word failed |
| `Esil.Machine64.Parse` | libr/anal/esil.c:2430-2499 | The parser over a 64-character word buffer stays inside the buffer and leaves exactly the specified state and code |
| `Esil.Machine64.RunWord` | libr/anal/esil.c:2316-2382 | One word on the array stack: the limit, the skip flag, then the word itself, as specified |
| `Esil.Machine64.Command` | libr/anal/esil.c:592-2129 | Every computing word changes stack buffer, registers, flags and memory as specified, so that what is proved of the specification's words holds of it |
| `Esil.Machine64.MemUpdateWord` | libr/anal/esil.c:1646-1989 | The memory forms of the assignment words, built from peek and poke, as specified, and so with the effect above |
| `Esil.Machine64.UpdateWord` | libr/anal/esil.c:660-1430 | The register forms of the assignment words, as specified, and so with the effect above |
| `Esil.Machine64.PushEntry` | libr/anal/esil.c:368-373 | A push succeeds exactly when the buffer has room |
| `Esil.Machine64.PopEntry` | libr/anal/esil.c:375-380 | A pop takes the last entry, or nothing from an empty stack |
| `Esil.Machine64.FindWord` | libr/anal/esil.c:2384-2397 | The start of the n-th word of a text, as specified, so that the exact statement about jump targets holds of it |
| `BasicBlocks.SplitPreserves` | libr/anal/fcn.c:1397-1448 | Splitting at an instruction: both halves are well formed, cover the same bytes one after the other, list the same instructions in order, the first leads to the second, which keeps the edges |
| `BasicBlocks.SplitKeepsComplexity` | libr/anal/fcn.c:1473-1495 | Replacing a block by its halves leaves the cyclomatic complexity unchanged |
| `BasicBlocks.ComplexityCounts` | libr/anal/fcn.c:1473-1495 | The complexity is the number of branches less that of ends plus two, so one more than the branches if there is one end |
| `BasicBlocks.OpAddrIsExact` | libr/anal/bb.c:240-259 | The lookup gives the start of the instruction that occupies an address, except that it gives nothing for the last instruction |
| `BasicBlocks.BasicBlock.Split` | libr/anal/fcn.c:1397-1448 | The block object is cut in place and its instruction offsets are copied to a new object, as specified |
| `BasicBlocks.BasicBlock.SetOffsetOf` | libr/anal/bb.c:221-238 | Recording an offset keeps all others and doubles the array when it runs out |
| `BasicBlocks.BasicBlock.OpAddr` | libr/anal/bb.c:240-259 | The lookup loop computes the specified address |
| `BasicBlocks.BasicBlock.OffsetOf` | libr/anal/bb.c:214-219 | Where the i-th instruction starts; in a block with instructions the largest offset tells exactly that there is no such one |
| `FcnRecurse.Function.Recurse` | libr/anal/fcn.c:460-1008 | Ends for every code and depth; afterwards no two blocks overlap, every block is a straight run of instructions that stops where the flow does, edges are right and lead to targets that were followed, blocks found before are kept or split, and the address has been reached; what was given up is accounted for by the limits, and a block that ends too far away makes it an error with size 0 |
| `FcnRecurse.Function.Analyse` | libr/anal/fcn.c:1096-1122 | From an entry nothing is given up if there are fewer targets than levels of recursion, no run of instructions uses up what is read at once, and the code lies within the largest size; from an empty list and within the largest size the function is empty or some block ends where it does, and no block ends beyond it exactly when none does to which the size was not fitted, of which there are none with the option to end blocks at jumps on and those to go on after jumps and for returns after pushes off |
| `FcnRecurse.Function.FitSize` | libr/anal/fcn.c:244-250 | The function grows to the end of a block, with the distance in 32 bits, or is given up with size 0 beyond the largest size |
| `FcnRecurse.Function.SizeIsRight` | libr/anal/fcn.c:244-250 | With any options no block ends beyond the function if the instruction that ends last has no targets |
| `FcnLost.LostSize` | libr/anal/fcn.c:244-250 | Counterexample for all other options without address limits: a branch or a return after a push into its own block leaves a size of 4 where the last block ends at 8 |
| `FcnRecurse.Function.ReachableIsCovered` | libr/anal/fcn.c:460-1008 | If nothing was given up, whatever the program surely follows from its entries is covered: along targets, to the next instruction, and past a push to the address that the return behind it goes to; but not behind such a return |
| `FcnRecurse.Function.CoveredIsReachable` | libr/anal/fcn.c:460-1008 | The flow of control comes from an entry to every covered instruction, even if something was given up |
| `FcnRecurse.Function.CoveredIffReachable` | libr/anal/fcn.c:460-1008 | With the option for returns after pushes off, and if nothing was given up, the covered instructions are exactly those that the flow comes to from an entry |
| `FcnLost.LostBehindReturn` | libr/anal/fcn.c:981-988 | Counterexample with that option on, whatever the others: behind a conditional return after a push the flow is not followed |
| `FcnRecurse.Function.EdgesAreFollowed` | libr/anal/fcn.c:770-895 | If nothing was given up, every edge leads to the start of a block or to an address that cannot be followed, is that of the last instruction, and every block ends at an instruction that ends the flow, at the start of another, or where no walk can stand |
| `FcnRecurse.Function.FallsAreRight` | libr/anal/fcn.c:546-553 | A block that lets the flow go on leads to the next instruction and nowhere else, with the options for going on after jumps or ending blocks at jumps on, and the one for returns after pushes off |
| `FcnLost.LostToBranch` | libr/anal/fcn.c:879-888 | Counterexample for all other settings of the first two: a branch back before the function splits its own block, whose first half then gets the edge of the branch |
| `FcnLost.LostToReturn` | libr/anal/fcn.c:981-988 | Counterexample for the third: a walk that met another block goes on to a return after a push, whose edge replaces the one to that block |
| `FcnRecurse.Function.BranchHasEdges` | libr/anal/fcn.c:830-895 | A covered branch ends a block with its targets as edges; the second one is missing always with the option to end blocks at jumps and not go on after them, may be for a branch back before the function with neither option, and is there otherwise; both targets were followed |
| `FcnRecurse.Function.JumpHasEdge` | libr/anal/fcn.c:770-829 | A covered jump ends a block whose only edge is its target, if it comes back, stays in its section, does not lead before the function unless that is allowed, and blocks do not end at jumps; there is no edge otherwise |
| `FcnRecurse.Function.CoveredIsInside` | libr/anal/fcn.c:521-526 | No covered instruction lies outside the address limits |
| `FcnLost.LostSecondEdge` | libr/anal/fcn.c:841-883 | Counterexample without the option to go on after jumps: a branch that ends up without its second edge |
| `FcnRecurse.Function.Walk` | libr/anal/fcn.c:520-1008 | The loop over a block stops where the code alone says; the block then ends at that instruction, or where another block starts and leads there, or where bytes do not decode, or fewer than five bytes are left of those read |
| `FcnRecurse.Function.CheckOverlap` | libr/anal/fcn.c:546-553 | A walk that runs into another block does so at its start, and the edge it sets leads there |
| `FcnRecurse.Function.TakeInstruction` | libr/anal/fcn.c:554-561 | Taking an instruction keeps all blocks disjoint and decoded |
| `FcnRecurse.Function.SplitBb` | libr/anal/fcn.c:1397-1448 | A block that contains the address is replaced by its halves; nothing changes when a block starts there or none contains it |
| `FcnRecurse.Function.BbGet` | libr/anal/fcn.c:212-225 | The first block that contains the address, or is empty and starts there |
| `FcnRecurse.Function.FollowBranch` | libr/anal/fcn.c:830-895 | Conditional jumps: a block ends there with the edges that the options call for, and both targets are followed, in every configuration of the jump options |
| `FcnRecurse.Function.SortBlocks` | libr/anal/fcn.c:59-67 | Sorting by address keeps the same blocks |
| `FcnBlocks.FixedWidthIsConsistent` | libr/anal/fcn.c:520-561 | Code of aligned fixed-width instructions meets the requirement that instructions do not overlap |
| `FcnBlocks.GrowKeeps` | libr/anal/fcn.c:548-561 | An instruction that no other block reaches can be added to a block without overlap |
| `FcnBlocks.SplitKeeps` | libr/anal/fcn.c:1397-1448 | Splitting a block of a sound list keeps it sound and covers the same bytes |
| `FcnTraces.TracedSplit` | libr/anal/fcn.c:1411-1415 | Both halves of a split block end, and lead on, as they should |
| `FcnFlow.PathIsCovered` | libr/anal/fcn.c:460-1008 | Completeness for any block list as the recursion leaves it |
| `FcnFlow.CoveredCame` | libr/anal/fcn.c:460-1008 | Soundness for any such list |
| `FcnBounds.NothingIsGivenUp` | libr/anal/fcn.c:484-508 | Blocks start at different targets, so the depth cannot run out while there are fewer targets than levels; likewise for the bytes read and the size |
| `FcnFit.FittingIsExact` | libr/anal/fcn.c:1063-1083 | After fitting all functions of a list, whose starts differ, of any two one lies before the other if and only if no function overlapped the next one with a wrapped end or a gap of 2 GB or more |
| `FcnFit.FittedEnds` | libr/anal/fcn.c:1063-1071 | After fitting, a function ends before the next one exactly when it did so before, or its end does not wrap and the gap is below 2 GB |
| `FcnFit.WrappedEndIsMissed` | libr/anal/fcn.c:1067-1068 | Counterexample: a function whose end is beyond the address space is not cut |
| `FcnFit.CutIsBelow` | libr/anal/fcn.c:69-96 | A function that was cut ends where the next one starts, and all its blocks and recorded targets are below that |
| `FcnFit.TrimmedCovers` | libr/anal/fcn.c:78-93 | Cutting loses no byte below the new end and gains none |
| `FcnFit.Analysis.FitOverlaps` | libr/anal/fcn.c:1073-1083 | Every function of the list is fitted in place, with the exact condition for disjointness; functions that were cut keep the edges and blocks below their ends, and the others are unchanged |
| `FcnFit.Analysis.Resize` | libr/anal/fcn.c:69-96 | Deletes the blocks behind the new end and cuts the rest: every old block that starts below the new end has a block with the same address, instructions and offsets, cut at the end, with exactly its old edges that lie below it, and there are no other blocks; sizes below one are refused |
| `FcnFit.Analysis.Insert` | libr/anal/fcn.c:1160-1176 | Adds a function exactly when none has the same start, so starts stay distinct |
| `FcnFit.Analysis.Next` | libr/anal/fcn.c:1554-1565 | The function with the lowest start above an address |
| `FlirtRoundTrip.TreeRoundTrip` | libr/anal/flirt.c:26-76 | Reading a tree that was written in the documented format gives that tree back and stops right behind it, for every version and every tree the format can hold |
| `FlirtRoundTrip.SampleTree` | libr/anal/flirt.c:26-76 | A signature of 28 bytes and the tree that it is |
| `FlirtRoundTrip.LeafRoundTrip` | libr/anal/flirt.c:857-912 | The same for a leaf, with modules grouped by checksum |
| `FlirtRoundTrip.FunctionsRoundTrip` | libr/anal/flirt.c:786-855 | The same for public functions with delta-coded offsets, flags and names |
| `FlirtRoundTrip.HeaderRoundTrip` | libr/anal/flirt.c:914-972 | The same for a node's length, wildcard mask and bytes |
| `FlirtRoundTrip.MultiRoundTrip` | libr/anal/flirt.c:390-402 | The same for numbers of one to five bytes |
| `FlirtRoundTrip.ReferencesRoundTrip` | libr/anal/flirt.c:726-784 | The same for referenced functions |
| `FlirtFormat.ReadTree` | libr/anal/flirt.c:974-1009 | Parsing ends on arbitrary bytes and uses up at least one byte when it succeeds |
| `Flirt.SigReader.ParseTree` | libr/anal/flirt.c:974-1009 | The cursor parser, on every buffer, fails or returns the tree that the bytes describe and stands right behind it |
| `Flirt.SigReader.ParseLeaf` | libr/anal/flirt.c:857-912 | The nested loops over modules read what the format says |
| `Flirt.SigReader.GetFunctions` | libr/anal/flirt.c:786-855 | The loop over public functions reads what the format says |
| `Flirt.SigReader.GetPattern` | libr/anal/flirt.c:946-972 | The loop over a node's bytes reads what the format says |
| `Flirt.SigReader.GetMulti` | libr/anal/flirt.c:390-402 | A number of one to five bytes, or the error flag |
| `FlirtMatch.SearchIsScan` | libr/anal/flirt.c:604-638 | On buffers as long as every path, the tree search applies the module of the first path in depth-first order whose wildcard pattern, checksum and tail bytes match, and none exactly when there is no such path |
| `FlirtMatch.TreeScans` | libr/anal/flirt.c:616-638 | The search below a position is the scan of the paths through it |
| `FlirtMatch.ChecksumIsRemainder` | libr/anal/flirt.c:322-346 | The checksum is the one remainder that the message, lowest bits first, times x^16 plus ones for the register's first value leaves by x^16 + x^12 + x^5 + 1, complemented and with its bytes exchanged |
| `FlirtMatch.ChecksumOfZero` | libr/anal/flirt.c:322-346 | The checksum of a zero byte is 0x78f0 |
| `FlirtMatch.ZeroByteMatches` | libr/anal/flirt.c:514-534 | A module with a checksum over one zero byte matches exactly when that is 0x78f0 and its tail byte is at the offset behind it |
| `Flirt.Search` | libr/anal/flirt.c:616-638 | The search loops return what a linear scan of all paths returns |
| `Flirt.MatchModule` | libr/anal/flirt.c:514-534 | A module matches exactly when its checksum and tail bytes do, where the buffer reaches |
| `Flirt.Crc` | libr/anal/flirt.c:324-346 | The checksum loop computes the specified checksum, and so the remainder above |
| `FirstFitHeap.EveryRunIsSound` | binr/preload/alloc.c:39-99 | After every sequence of calls the chunks lie end to end, payloads are disjoint and in bounds |
| `FirstFitHeap.EarlyRejectIsSafe` | binr/preload/alloc.c:59-60 | The early reject on the running totals never refuses a request that can be served |
| `FirstFitHeap.FreeThenMalloc` | binr/preload/alloc.c:50-99 | After a chunk is freed, a request no larger than it succeeds |
| `FirstFitHeap.MallocEffect` | binr/preload/alloc.c:75-85 | What an allocation changes: one chunk becomes live, or one is added at the tail |
| `FirstFitHeap.MallocIsFirstFit` | binr/preload/alloc.c:50-87 | A request is served exactly when a free chunk or the tail has room for it and its header; it gets the first such chunk whole, and a new chunk of its own size only if there is none |
| `FirstFitHeap.PayloadsDisjoint` | binr/preload/alloc.c:50-87 | Of two chunks of a sound heap the first ends where the second starts or before, and both are in bounds |
| `FirstFitHeap.Heap.Malloc` | binr/preload/alloc.c:50-87 | The walk over in-band headers in the byte arena ends and does what the specification says: it fails exactly when no free chunk fits and the tail is too small; the totals are those of the live chunks |
| `FirstFitHeap.Heap.Free` | binr/preload/alloc.c:89-99 | Releasing marks the chunk's header and changes no other byte |
| `FirstFitHeap.Heap.FindChunk` | binr/preload/alloc.c:61-73 | The walk finds a chunk exactly when the request can be served |
| `Reflines.LevelsAreOptimal` | libr/anal/reflines.c:183-203 | The largest level equals the largest number of lines open at once in sorted end order |
| `Reflines.OpenTogetherDiffer` | libr/anal/reflines.c:189-203 | Lines that are open at the same time get different levels |
| `Reflines.IntersectingLinesDiffer` | libr/anal/reflines.c:183-203 | Lines whose ranges of sort keys intersect get different levels |
| `Reflines.TrueRangesDiffer` | libr/anal/reflines.c:12-64 | Within a window of addresses, lines whose address ranges intersect always get different levels if and only if the window passes no odd multiple of 2^31 or has just two addresses |
| `Reflines.TruncatedKeysCollide` | libr/anal/reflines.c:12-34 | Counterexample in every other window: two lines with intersecting ranges, both on level one |
| `Reflines.Reflines.AssignLevels` | libr/anal/reflines.c:183-203 | The loop over ends, with its array of levels and lowest-free cursor, sets the specified levels and stays inside the array |
| `Reflines.Reflines.PassOne` | libr/anal/reflines.c:190-202 | One end: opening takes the lowest free slot and moves the cursor to the next, closing frees it |
| `Reflines.Reflines.AddRefline` | libr/anal/reflines.c:36-64 | A line is appended and its two ends are inserted in order |
| `Reflines.Reflines.InsertEnd` | libr/util/list.c:373-399 | Sorted insertion in front of the first end that is not smaller |
| `CanvasLine.LoopFollowsLine` | libr/cons/canvas_line.c:78-103 | After k passes the pen is on the k-th cell of the ideal line and the error term has its closed form |
| `CanvasLine.FirstArrival` | libr/cons/canvas_line.c:97-103 | The loop arrives after exactly max(|dx|,|dy|) passes, one if both are zero, and not before |
| `CanvasLine.WithinHalfCell` | libr/cons/canvas_line.c:71-89 | Every visited cell lies on the ideal segment along the longer axis and within half a cell of it along the other |
| `CanvasLine.Arrival` | libr/cons/canvas_line.c:97-97 | The ideal line is at its end at its last step and no earlier one |
| `CanvasLine.Connected` | libr/cons/canvas_line.c:80-89 | Consecutive cells are neighbours, and the major axis moves every time |
| `CanvasLine.LoopDrawsLine` | libr/cons/canvas_line.c:78-103 | The glyphs written are those of the line's cells, in order |
| `CanvasLine.Canvas.DrawDiagonal` | libr/cons/canvas_line.c:59-105 | The program draws the cells of the line between any two points, in order, but for the last |
| `CanvasLine.Canvas.DrawLoop` | libr/cons/canvas_line.c:78-103 | The loop without a counter ends and draws the line |
| `Board2048.StepKeepsSlide` | libr/cons/2048.c:51-67 | One turn of the inner loop, including the step back of its index, leaves the slide of the rest of the line unchanged |
| `Board2048.SlidSettled` | libr/cons/2048.c:51-67 | A line is its own slide exactly when it has no gap and no equal neighbours |
| `Board2048.ScoringLaw` | libr/cons/2048.c:9-73 | Over every run, score + 4 per spawned exponent-2 tile equals the sum of (e-1)2^e, and the sum of 2^e is the total spawned |
| `Board2048.DirectionsAre` | libr/cons/2048.c:46-58 | The four directions slide rows to the left and to the right, and columns up and down |
| `Board2048.SlidesAre` | libr/cons/2048.c:51-67 | Pairs merge from the leading edge, and a merged tile does not merge again in the same move |
| `Board2048.SlidGridConserves` | libr/cons/2048.c:46-68 | A move keeps the total value and adds its gain to the worth |
| `Board2048.ChangedGridHasRoom` | libr/cons/2048.c:69-72 | A move that changes the board leaves an empty cell for the new tile |
| `Board2048.GameOverIsExact` | libr/cons/2048.c:29-44 | On a board with a tile the test says to go on exactly when some direction changes the board |
| `Board2048.EmptyBoardCannotMove` | libr/cons/2048.c:29-44 | Counterexample for the empty board: the test says to go on, and no move does anything |
| `Board2048.Board.Move` | libr/cons/2048.c:46-73 | A move slides all four lines, scores the merges, and spawns a tile exactly when the board changed |
| `Board2048.Board.SlideLine` | libr/cons/2048.c:51-67 | The loop that steps its own index back computes the slide of a line and its gain |
| `Board2048.Board.Fin` | libr/cons/2048.c:29-44 | The loops of the test compute whether an empty cell or equal neighbours exist |
| `Board2048.Board.Add` | libr/cons/2048.c:17-27 | A new tile goes to some empty cell and changes no other |

## Left out

- ESIL: hooks, callbacks, statistics, `TRAP`, `$`, interrupts, `BITS`, `PICK`, `RPICK`, `ROL`, `ROR`, `REPEAT`-style loops, the comparison words `<` to `>=`, memory increment and decrement, the multi-register memory words, `%=[n]`, and the forms whose width is that of the architecture.
- ESIL: the internal flags `$z`, `$p`, `$d`, `$j`, `$$` and `$%`; carry bits from 64 on.
- ESIL: names and numbers are told apart by a decoder that is a parameter; registers are a map with sizes up to 64 bits, and writes that the no-null option suppresses are not modelled.
- ESIL: byte addresses in memory do not wrap at 2^64; registers do not overlap, and may have any size up to 64 bits, where the program can read and write only some.
- ESIL: shift counts of 64 and more, which C does not define, are taken modulo 64; bytes that a peek leaves uninitialised in its buffer are a parameter.
- EsilControl.RunIf: after an operand without a value the skip flag, which the program sets from an uninitialised number, is left as it was; the run stops at that word in any case.
- EsilParse.ParseFrom: stack entries are told apart by the word's text only; the `repeat` restart of a program is not modelled, as no word sets it here.
- ReilProgram.AgreesIffFits: requires destinations other than the program counter, numbers and registers as operands, shift counts below 64, non-zero divisors, and a spare stack slot for `++`, `--`, `++=`, `--=`, `!=` and copies of carry and borrow flags.
- REIL: memory words, conditionals, the comparison words that REIL takes as unsigned, the flags `$z` and `$p`, and copies of `$o`, which do not agree with ESIL but in the case that ReilFlags.OverflowCodeAgrees names.
- REIL: arguments are marshalled as text in the program; here they are values, so register names with a colon, a space or a leading `V` are not modelled, nor is the printed form of instructions.
- FcnRecurse.Function.Recurse: instruction decoding is a parameter, of which only size and effect on the flow of control are used; jump tables, delay slots, nop skipping, variables, references, sections and the jump-out-of-plt rule for indirect jumps are not modelled, and block splitting is on.
- FcnRecurse.Function.FallsAreRight: the counterexamples to the other settings are without address limits.
- FcnRecurse.Function: blocks of a function's list are values that are replaced in the list, so references to them held elsewhere are not modelled; a block as an object with an offset array is in `BasicBlocks.BasicBlock`.
- BasicBlocks: block types, the conditional flag, labels and fingerprints; addresses do not wrap; a grown offset array has zeros where the program's has stale memory.
- FcnFit: block ends do not wrap; references and the range cache are not modelled.
- `r_anal_fcn_add_bb`, `r_anal_fcn_bb_overlaps`, and the final size that `r_anal_fcn` computes from continuous blocks.
- FLIRT: headers, compression, and what a match does to function names, sizes and flags.
- FlirtFormat.ReadReference: names of referenced functions that do not fit the buffer are refused, where the program writes past it; the sign of their offset is not modelled, as the program tests a byte that is always zero.
- FlirtRoundTrip.TreeRoundTrip: requires what the format can hold: names below 1024 printable bytes, offset steps below 2^15 before version 9, one tail byte or reference before version 8, node lengths up to 64, or up to 255 without wildcards.
- FlirtMatch.SearchIsScan: requires buffers at least as long as every path, as the program does not check this.
- FirstFitHeap: sizes are not negative and sums do not overflow; frees name live or freed payloads.
- Reflines: collecting the lines from decoded code, and the drawing that uses the levels.
- CanvasLine: line styles and clipping to the canvas; coordinates do not overflow.
- Board2048: exponents do not overflow, random choices are arbitrary, printing is left out; the count of moves is not reset by a new game, as in the program.
