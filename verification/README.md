# Verified core of fastppcx86

A Dafny model of the parts of fastppcx86 (an x86 emulator on 64-bit little-endian POWER) whose
correctness is hardest to see from the code, with proofs of what each part is for:

- the POWER code emitter: constant loading, forward branches and their patching, the r0 flag;
- the two lock probes: a lock word with a non-atomic release, and locked operations that cross
  each other's bytes, plus the store-buffer litmus with its barrier;
- the in-place JSON parser and the printer beside it;
- the lexical path normaliser;
- the shared-memory statistics slots;
- the map between host and guest CPU ids.

Code that works by changing things is modelled by classes, arrays and loops, each proved against
functions on values (`Emitter`, `OverlappingAdds.AddAtInPlace`, `JsonText.ParseString`, `JsonParser`,
`JsonPrint.Writer`, `PathText.Split`, `PathNormal.Reduce`, `StatAlloc`, `CpuIdBuilder`). Threads are
state machines over their memory operations, and what is proved holds over runs of any length.
Machine words are integers with the wrap-around written out.

## How it is laid out

| files | content |
|---|---|
| `Arith`, `PowerIsa`, `LoadImmediate`, `ImmediateLength`, `ImmediateCost` | shifts and masks on integers; encoding, decoding and running seven instructions; the constant loader, its correctness and its cost |
| `Branches`, `BranchLinker`, `LinkedCode`, `R0Tracking`, `Emitter` | branch words and patching; the one-pass linker against a two-pass assembler; what the final code holds; the r0 flag under patches by hand; the emitter object |
| `LockWord`, `Swallow` | the lock-word probe: both locks, and the lost-increment accounting |
| `OverlappingAdds`, `LaneArms`, `StoreBuffer` | the split-lock probe: overlapping adds, the shipped arms, and the litmus with its barrier |
| `Decimal`, `JsonText`, `JsonNumber`, `JsonReal`, `JsonGrammar` | numerals; strings, numbers and the lenient grammar as recursive descent |
| `JsonStack`, `JsonNodes`, `JsonBuffer`, `JsonSteps`, `JsonParser` | the iteration over open blocks, the node pool, the text being overwritten, the turns of the loop, the parser object |
| `JsonDoc`, `JsonReader`, `JsonPrint`, `JsonLayout`, `JsonRoundTrip`, `JsonSound`, `JsonEndToEnd` | what a document says; reading it from pool and text; the printer; layouts; writing then parsing, on trees and on the real buffer; what every accepted text holds |
| `PathText`, `PathNormal`, `PathMeaning` | splitting and joining; the erasing pass; what a path means |
| `StatSlots`, `StatList`, `StatRuns`, `StatOwners`, `StatWitness`, `StatAlloc` | the slot table, its list, runs of it, who owns which slot, the conditions shown necessary, the allocator object |
| `CpuList`, `CpuBuffer`, `CpuIdMap`, `CpuShown`, `CpuIdBuilder` | CPU lists; the buffer they are read into; the two tables; what the guest sees; the builder object |

Places where the code does less than its surroundings suggest, each with a counterexample and the exact
condition under which it is right:

- `DeallocateSlot` looks for the predecessor of the freed slot among all slots, freed ones included,
  whose `Next` is never cleared. The list stays right if and only if the freed slot is the head or the
  first slot whose `Next` names it is live (`StatList.FreeKeepsListIff`, `StatWitness.StaleRunBreaksList`).
- For the same reason a free can clear `StatTail` under a list that still has a head, and the next
  `AllocateSlot` then follows a null pointer. A legal run gets there in every table of four slots or more
  (`StatWitness.LegalRunCrashes`); a free loses the tail if and only if the slot is head and tail at once
  and has a link (`StatSlots.LosesTailIff`), and an allocation crashes if and only if it meets that state
  and is not refused (`StatRuns.CrashesOnlyAtNullTail`).
- `AllocateSlot` hands out a live slot if the table reports growth without gaining a slot
  (`StatSlots.HandsOutFree`, `StatWitness.EmptyGrowthHandsOutLive`). The size the Linux frontend reports
  always has more slots or is the old one (`StatWitness.FrontendGrows`), but after a failed `ftruncate` or
  `mmap` it reports the new size without memory behind it (`StatWitness.FrontendBackedIff`). That both
  succeed is the assumption behind the zeroed slots of `StatSlots.Grow`.
- The JSON printer writes names unescaped, steps over one place behind each `\u00XX`, prints unsigned
  integers the parser refuses and whole doubles it reads as integers. What it prints is read back if and only
  if none of this happens (`JsonRoundTrip.LaidOutIff`, `JsonRoundTrip.SomeAreLost`).
- The loop over a range of CPU ids counts in a `long`. It ends without overflow, and the 64-bit size is
  right, if and only if `hi` and `hi - lo` are below the largest `long` (`CpuList.LongsAgreeIff`,
  `CpuList.LargestLong`).
- The online list is read into 255 bytes. All of it is read if and only if its text fits
  (`CpuBuffer.BufferHoldsIff`); one thread in eight of 65 cores does not (`CpuBuffer.OnePerCoreIsCut`).

## Model

| member | source | states |
|---|---|---|
| `PowerIsa.DecodeEncode` | CodeEmitter/PPC64LE/Emitter.h:2135-2178 | the D-form and MD-form words decode to the instruction they were built from, split fields included |
| `PowerIsa.KnownWords` | CodeEmitter/PPC64LE/Emitter.h:153-177 | the decoder reads seven words as an assembler writes them, `li 0,0` and `nop` among them |
| `LoadImmediate.LoadImm32Correct` | CodeEmitter/PPC64LE/Emitter.h:1880-1890 | running the words of LoadImm32 leaves the sign-extended 32-bit value in the target and every other register alone |
| `LoadImmediate.LoadImm64Correct` | CodeEmitter/PPC64LE/Emitter.h:1901-2001 | for every immediate, target register and switch setting, decoding and running the emitted words puts the immediate in the target and changes no other register |
| `LoadImmediate.LoadImm64FixedCorrect` | CodeEmitter/PPC64LE/Emitter.h:2015-2025 | the fixed-width form is five words for every value and loads that value |
| `ImmediateLength.Shifted32Length` | CodeEmitter/PPC64LE/Emitter.h:1942-1970 | whenever the shifted-32 rule is reached it costs exactly three words and the general path would not cost less |
| `ImmediateLength.LoadImm64Length` | CodeEmitter/PPC64LE/Emitter.h:1901-2001 | one to five words, never more than the general path for the same value |
| `ImmediateCost.TimesPowerIff` | CodeEmitter/PPC64LE/Emitter.h:1923-1931 | the shifted-16 test finds every constant that is a 16-bit number times a power of two |
| `ImmediateCost.RunIff` | CodeEmitter/PPC64LE/Emitter.h:1932-1941 | the counting test finds every run of ones |
| `ImmediateCost.CostIs` | CodeEmitter/PPC64LE/Emitter.h:1901-2001 | for every constant: one word exactly if one instruction can load it; two exactly for the cheap forms, told by the constant alone; three for shifted 31-bit numbers unless switched off; else what the general path costs |
| `Emitter.RelocateMove` | FEXCore/Source/Interface/Core/CodeCache.cpp:2212-2222 | refuses exactly the windows that would overrun; else every word in front of the window and behind it stays, and running the window loads the new value and changes no other register |
| `Branches.PatchPlaceholder` | CodeEmitter/PPC64LE/Emitter.h:2041-2058 | patching a placeholder gives the word that would have been emitted had the target been known, with the same range failures |
| `Branches.BranchDecodes` | CodeEmitter/PPC64LE/Emitter.h:1611-1656 | every branch in range decodes to its own kind, BO, BI, LK and signed offset |
| `Branches.ReachesIff` | CodeEmitter/PPC64LE/Emitter.h:1611-1656 | the range guards accept a displacement exactly if some word of that kind holds it |
| `Branches.PatchRelinks` | CodeEmitter/PPC64LE/Emitter.h:2041-2058 | patching a word that is a branch already turns it to the new target, kind kept, and is refused exactly when that is out of reach |
| `Branches.LinkDecodes` | CodeEmitter/PPC64LE/Emitter.h:2041-2058 | a linked branch decodes to its kind and to the distance to its target |
| `Branches.PatchKeepsClobber` | CodeEmitter/PPC64LE/Emitter.h:2041-2058 | patching never turns a word into, or out of, one that the r0 sniffer reacts to |
| `Branches.BranchClobbers` | CodeEmitter/PPC64LE/Emitter.h:161-169 | of the label branches only the linking one sets the r0 flag, as placeholder and as final word |
| `Branches.ClobbersIff` | CodeEmitter/PPC64LE/Emitter.h:153-169 | the words the sniffer compares with are, by decoding, `li 0,0`, every linking I-form branch, `bctrl` and `blrl`, and no others |
| `BranchLinker.StepAgrees` | CodeEmitter/PPC64LE/Emitter.h:106-110 | one emission, branch or bind keeps the code equal to the two-pass assembly of what was emitted, and each label's chain equal to its unresolved branches |
| `BranchLinker.OnePassIsTwoPass` | CodeEmitter/PPC64LE/Emitter.h:1627-1679 | for every program the one-pass emitter with backpatching succeeds exactly when a two-pass assembler does, and yields the same code |
| `LinkedCode.JumpsLand` | CodeEmitter/PPC64LE/Emitter.h:2102-2118 | in the final code every label branch decodes to its label's bound offset, kind unchanged, or is still the placeholder of an unbound label |
| `LinkedCode.OtherWordsKept` | CodeEmitter/PPC64LE/Emitter.h:2041-2058 | no patch alters an instruction or data word that is not a label branch |
| `LinkedCode.ChainsDisjoint` | CodeEmitter/PPC64LE/Emitter.h:2089-2100 | the fixup chains of two labels never share a patch site |
| `LinkedCode.FlagIsHistory` | CodeEmitter/PPC64LE/Emitter.h:157-169 | the r0 flag says whether a reacting word or a manual mark came since the last reset |
| `LinkedCode.R0FlagExact` | CodeEmitter/PPC64LE/Emitter.h:153-169 | after all patching the flag is set exactly if a final word emitted since the reset decodes to a restore of r0 or to a call, or it was set by hand |
| `R0Tracking.FlagExactUnderPatches` | CodeEmitter/PPC64LE/Emitter.h:2041-2058 | the same however emissions, binds and direct calls of PatchBranchAt on any word are mixed: the flag follows the instruction words emitted since the reset as they now stand |
| `Emitter.Emitter.Emit32` | CodeEmitter/PPC64LE/Emitter.h:161-169 | appends the word, advances the offset by four, sniffs it, and leaves the rest of the buffer |
| `Emitter.Emitter.PatchBranchAt` | CodeEmitter/PPC64LE/Emitter.h:2041-2058 | rewrites just the word at the patch offset, as the value model patches it |
| `Emitter.Emitter.AddPendingBranch` | CodeEmitter/PPC64LE/Emitter.h:2095-2100 | pushes the current offset on the front of the label's chain |
| `Emitter.Emitter.PatchPending` | CodeEmitter/PPC64LE/Emitter.h:2102-2118 | walks the chain to its end, patches each site once, empties the chain |
| `Emitter.Emitter.Bind` | CodeEmitter/PPC64LE/Emitter.h:106-110 | binds the label here and resolves its chain, keeping the emitter well linked |
| `Emitter.Emitter.Branch` | CodeEmitter/PPC64LE/Emitter.h:1627-1679 | emits the final branch to a bound label, or a placeholder with a fixup |
| `Emitter.Emitter.LoadImm64` | CodeEmitter/PPC64LE/Emitter.h:1901-2001 | the object emits exactly the words whose effect is proved above and leaves every word behind them |
| `Emitter.Emitter.LoadImm64Fixed` | CodeEmitter/PPC64LE/Emitter.h:2015-2025 | emits the fixed form, advances by twenty bytes and leaves every word behind it |
| `LockWord.XaddFlips` | build-probes/probe_lockword.c:507-511 | the locked add of 2^31 flips bit 31 and no other bit, and is its own inverse |
| `LockWord.CasExcludes` | build-probes/probe_lockword.c:645-672 | any number of threads, any interleaving, plain release split in load and store: at most one thread inside, overlap count 0, and at rest the plain counter equals all acquisitions mod 2^32 |
| `LockWord.CasStep` | build-probes/probe_lockword.c:517-532 | each memory operation of the CAS lock keeps the invariant behind exclusion |
| `LockWord.CasGetsIn` | build-probes/probe_lockword.c:521-532 | after every run: while nobody is inside the next try of any idle thread gets in, and otherwise changes nothing |
| `LockWord.CasNeverWedges` | build-probes/probe_lockword.c:645-672 | after every run some continuation has any chosen thread publish one acquisition more and ends with all threads at the top of their loops |
| `LockWord.CasServes` | build-probes/probe_lockword.c:645-672 | every division of acquisitions among the threads is reached by some run, with the plain counter at their sum mod 2^32 |
| `LockWord.OccupancyCounts` | build-probes/probe_lockword.c:653-657 | with either lock, in every run, g_occ is the number of threads in the section |
| `LockWord.OverlapCounted` | build-probes/probe_lockword.c:653-655 | in every run an overlap is counted exactly when a thread enters while another is in the section |
| `LockWord.ToggleNeverWedges` | build-probes/probe_lockword.c:598-638 | with the toggling acquire the word is always free or held, and held means its last winner has not stored its release |
| `LockWord.RetrySucceeds` | build-probes/probe_lockword.c:25-63 | a thread that meets a held word gets in at its next try |
| `LockWord.ToggleNeverExcludes` | build-probes/probe_lockword.c:25-63 | for every n there is a run with all n threads inside at once, with either release |
| `LockWord.ToggleOverlaps` | build-probes/probe_lockword.c:598-638 | for every n some run of the toggle lock has all n threads in the section and counts n - 1 overlaps |
| `LockWord.RunBegun` | build-probes/probe_lockword.c:598-638 | successful acquires equal the published counts plus the acquisitions in progress |
| `Swallow.AccountsAlways` | build-probes/probe_lockword.c:719-777 | at every point the low 31 bits plus the increments swallowed by completed load-store windows equal the increments so far, and bit 31 says whether a release completed |
| `Swallow.ShortfallIsSwallowed` | build-probes/probe_lockword.c:988-1028 | when all increments are done the shortfall is exactly the number that fell into windows, so it is never negative |
| `Swallow.LockedOrLosesNothing` | build-probes/probe_lockword.c:135-147 | with the locked release every run loses nothing |
| `Swallow.EveryLossHappens` | build-probes/probe_lockword.c:719-777 | with the plain release every loss from none to all increments happens in some finished run |
| `Swallow.Bit31Stays` | build-probes/probe_lockword.c:732-746 | bit 31 once set stays set |
| `OverlappingAdds.NoCarry` | build-probes/probe_splitlock.c:305-317 | a locked add that stays inside its operand adds to the region as a whole |
| `OverlappingAdds.AddIsLocal` | build-probes/probe_splitlock.c:305-317 | a locked add changes its operand alone, to the sum modulo its width |
| `OverlappingAdds.StepInImage` | build-probes/probe_splitlock.c:527-545 | if the lane check passes, one more add by either thread moves the region from one predicted image to the next |
| `OverlappingAdds.NothingLost` | build-probes/probe_splitlock.c:627-722 | if the lane check passes, every interleaving of the two threads' adds leaves the region add_at predicts, even where the operands overlap |
| `LaneArms.FitsIff` | build-probes/probe_splitlock.c:699-706 | the overflow half of the lane check passes exactly if all adds together stay below 2^(8 opbytes) |
| `LaneArms.ArmsPass` | build-probes/probe_splitlock.c:1289-1297 | all five shipped arms pass the check for every iteration count from 1 to 65535 |
| `LaneArms.ArmsLoseNothing` | build-probes/probe_splitlock.c:1289-1297 | so each of them ends in the predicted image under every interleaving |
| `LaneArms.HeadlineImage` | build-probes/probe_splitlock.c:534-540 | for the headline arm that image is the count in bits 32 to 47 and in bits 48 to 63 |
| `OverlappingAdds.AddAtInPlace` | build-probes/probe_splitlock.c:484-493 | the byte loop adds the value at the offset modulo the length of the region |
| `OverlappingAdds.FindHighestBit` | build-probes/probe_splitlock.c:507-513 | the loop finds the highest set bit |
| `OverlappingAdds.FindLowestBit` | build-probes/probe_splitlock.c:515-522 | the loop finds the lowest set bit |
| `OverlappingAdds.BelowNextBit` | build-probes/probe_splitlock.c:507-513 | the highest bit bounds the value from both sides |
| `OverlappingAdds.MultipleOfLowest` | build-probes/probe_splitlock.c:515-522 | the value is a multiple of its lowest set bit |
| `StoreBuffer.DrainKeepsRead` | build-probes/probe_splitlock.c:378-389 | draining a buffered store changes nothing its own thread can read |
| `StoreBuffer.BarrierSeparates` | build-probes/probe_splitlock.c:1003-1013 | over every run, fenced or not: no thread leaves a barrier its peer has not reached, and thread 0's check and resets never overlap thread 1's step |
| `StoreBuffer.BarrierRun` | build-probes/probe_splitlock.c:1003-1049 | the barrier's invariant on counts, senses and both store buffers holds after every run of either arm |
| `StoreBuffer.FencedNeverBothZero` | build-probes/probe_splitlock.c:1028-1125 | over every run of the fenced arm thread 0 never finds both results zero |
| `StoreBuffer.FencedStep` | build-probes/probe_splitlock.c:1003-1049 | each instruction or drain keeps the barrier and litmus invariants |
| `StoreBuffer.UnfencedCanHit` | build-probes/probe_splitlock.c:1052-1125 | without the fences, for every n some run of n iterations counts n hits |
| `StoreBuffer.FencedSeesOneZero` | build-probes/probe_splitlock.c:1028-1125 | the fenced arm completes iterations, with one result zero and the other not |
| `StoreBuffer.FenceOnlyWaits` | build-probes/probe_splitlock.c:1052-1090 | the arms differ only in that a fenced thread waits at its fence until its stores have drained |
| `Decimal.ValueShow` | External/tiny-json/tiny-json.c:628-647 | decimal text is canonical and reads back as its number |
| `JsonText.ParseString` | External/tiny-json/tiny-json.c:132-156 | decodes in place: result and end are the grammar's, the text is left terminated, nothing in front of the string and nothing unread changes |
| `JsonText.GoBlankIff` | External/tiny-json/tiny-json.c:431-438 | exactly space, newline, return, tab and form feed are skipped, up to the first other character before the NUL |
| `JsonText.UnitRefused` | External/tiny-json/tiny-json.c:132-156 | a string is refused exactly at a control character or at a backslash that starts no escape; `\u` with four hexadecimal digits of either case is a question mark |
| `JsonNumber.FitsIffInRange` | External/tiny-json/tiny-json.c:292-306 | the length test and strcmp accept an integer of any length exactly when it lies in [-2^63, 2^63-1] |
| `JsonNumber.CompareIsOrder` | External/tiny-json/tiny-json.c:299-305 | on digit strings of equal length text order is number order |
| `JsonNumber.ScanInteger` | External/tiny-json/tiny-json.c:272-291 | what the scanner passes on as an integer has no superfluous leading zero |
| `JsonNumber.ScanReal` | External/tiny-json/tiny-json.c:272-291 | whether a text is scanned as a real number depends on that text alone, not on what stands around it |
| `JsonReal.RealIff` | External/tiny-json/tiny-json.c:272-291 | a text is scanned as a real exactly if it is an optional minus, a whole part without superfluous zeros, and a fraction, an exponent or both |
| `JsonStack.LoopIsResume` | External/tiny-json/tiny-json.c:331-386 | from every stack of open blocks and every place, the iteration does what recursive descent would still do there |
| `JsonStack.LoopIsDescent` | External/tiny-json/tiny-json.c:331-386 | the iterative parser and recursive descent give the same tree, or both none |
| `JsonStack.BoundedIs` | External/tiny-json/tiny-json.c:401-405 | the pool refuses exactly the documents with more nodes than it has |
| `JsonNodes.AddOpens` | External/tiny-json/tiny-json.c:315-324 | after add() the new node is the last child of the innermost open block and all other links still hold the stack |
| `JsonNodes.MemberCloses` | External/tiny-json/tiny-json.c:315-324 | a complete last child continues the block's member list in document order |
| `JsonNodes.ShutOk` | External/tiny-json/tiny-json.c:343-352 | taking the parent out of the sibling link makes the block a complete member of the next block |
| `JsonBuffer.LookInside` | External/tiny-json/tiny-json.c:422-449 | every turn moves the cursor forward and never past the terminating NUL |
| `JsonSteps.TurnPut` | External/tiny-json/tiny-json.c:353-384 | reading a scalar member keeps the loop's invariant on text, pool, stack and outcome |
| `JsonSteps.TurnOpen` | External/tiny-json/tiny-json.c:364-377 | opening an inner block keeps it |
| `JsonSteps.TurnShut` | External/tiny-json/tiny-json.c:343-352 | closing an inner block keeps it |
| `JsonSteps.TurnComma` | External/tiny-json/tiny-json.c:337-342 | skipping a comma keeps it |
| `JsonSteps.PendingEnds` | External/tiny-json/tiny-json.c:457-460 | where a string's terminator is still to come only the end of a block can be accepted, and that writes it |
| `JsonParser.Parser.NumValue` | External/tiny-json/tiny-json.c:272-310 | reads a number as the grammar does, with the temporary terminator taken back, and leaves its text terminated or in front of a block end |
| `JsonParser.Parser.FitsInPlace` | External/tiny-json/tiny-json.c:292-306 | the range test answers as the text test and restores the text when it accepts |
| `JsonParser.Parser.PrimitiveValue` | External/tiny-json/tiny-json.c:191-212 | accepts a word exactly when the grammar does and leaves it terminated |
| `JsonParser.Parser.PropertyName` | External/tiny-json/tiny-json.c:163-171 | reads name, colon and blanks as the grammar does and leaves the name terminated |
| `JsonParser.Parser.Add` | External/tiny-json/tiny-json.c:315-324 | links the new node behind the last child and touches no other node |
| `JsonParser.Parser.TakeMember` | External/tiny-json/tiny-json.c:353-384 | allocating, naming, linking and reading a member either fails the run or goes on with the member taken |
| `JsonParser.Parser.ObjValue` | External/tiny-json/tiny-json.c:331-386 | the loop succeeds exactly when recursive descent does and the pool suffices; then the pool is the same tree in document order and its strings stand terminated in the text |
| `JsonSound.BlockClosesItself` | External/tiny-json/tiny-json.c:343-352 | in every accepted text a block ends in its own bracket |
| `JsonSound.MembersAreNamed` | External/tiny-json/tiny-json.c:163-171 | in every accepted object a member is a quoted name, a colon between blanks, and a value |
| `JsonSound.RootIsObject` | External/tiny-json/tiny-json.c:72-82 | every accepted document starts with a brace behind blanks only |
| `JsonRoundTrip.PrimitiveEnds` | External/tiny-json/tiny-json.c:463-465 | every accepted number or word is followed by a blank, a comma or the end of a block |
| `JsonParser.Parser.Create` | External/tiny-json/tiny-json.c:72-82 | the same for a whole document, blanks in front included; following child and sibling links and C strings from node 0 then reads what the tree says |
| `JsonReader.HeldReads` | External/tiny-json/tiny-json.h:81-91 | a finished string is the C string found at its place |
| `JsonReader.RootReads` | External/tiny-json/tiny-json.h:77-128 | reading the pool by names, values, child and sibling links gives the parsed document, whatever its depth |
| `JsonDoc.ParsedMembers` | External/tiny-json/tiny-json.c:331-386 | whatever the text: members are named in objects only, no string holds a NUL, integers are of 64 bits and reals are written as such |
| `JsonPrint.Writer.Atoesc` | External/tiny-json/tiny-json.c:562-582 | appends the escaped text for every C string; behind each `\u00XX` one place keeps what the memory held before |
| `JsonPrint.EscapePlaces` | External/tiny-json/tiny-json.c:540-582 | which characters take one place, two, or seven, with the code in upper-case hexadecimal digits |
| `JsonPrint.Writer.Close` | External/tiny-json/tiny-json.c:501-524 | takes back the comma behind the last member, if there is one, and closes the block |
| `JsonPrint.Writer.Str` | External/tiny-json/tiny-json.c:585-590 | appends name, quoted escaped text and comma |
| `JsonPrint.Writer.Value` | External/tiny-json/tiny-json.c:489-647 | printing any value with these calls appends its compact text and a comma |
| `JsonPrint.Writer.Document` | External/tiny-json/tiny-json.c:620-626 | a printed document is its compact text, without stray commas |
| `JsonRoundTrip.DecodeEscape` | External/tiny-json/tiny-json.c:547-582 | decoding escaped text gives the text back, for all characters from 0x20 on and those with a short escape |
| `JsonRoundTrip.TextOnlyIf` | External/tiny-json/tiny-json.c:562-582 | and for no other text: a character in hexadecimal comes back as a question mark |
| `JsonRoundTrip.NameOnlyIf` | External/tiny-json/tiny-json.c:596-603 | names are written as they are, so one comes back only if it holds no quote, backslash or control character |
| `JsonRoundTrip.LaidOutIff` | External/tiny-json/tiny-json.c:72-386 | for every tree and every layout (any blanks in front, around colons and brackets, any blanks and commas between members, any text behind): parsing returns the same tree if and only if names stand in objects only and need no escaping, each control character has a short escape, integers are of 64 signed bits and reals have a fraction or an exponent |
| `JsonRoundTrip.RoundTripIff` | External/tiny-json/tiny-json.c:471-647 | the same for what the printer writes, whatever the memory held before |
| `JsonRoundTrip.SomeAreLost` | External/tiny-json/tiny-json.c:562-647 | four printed documents that do not come back, one for each of these conditions on characters and numbers |
| `JsonEndToEnd.ParseLaidOut` | External/tiny-json/tiny-json.c:72-95 | on a real buffer and pool: parsing a document in any layout in place and reading by links and C strings returns it if and only if it is such a document and the pool has a node per value |
| `JsonEndToEnd.PrintThenParse` | External/tiny-json/tiny-json.c:72-95 | the same for what the printer writes over any memory |
| `PathText.Split` | FEXHeaderUtils/FEXHeaderUtils/Filesystem.h:256-278 | the splitting loop ends, yields the maximal runs between separators, and at most one part more than separators |
| `PathText.FewPieces` | FEXHeaderUtils/FEXHeaderUtils/Filesystem.h:243-254 | the reserved list storage always suffices |
| `PathText.PiecesOfJoin` | FEXHeaderUtils/FEXHeaderUtils/Filesystem.h:326-328 | joining parts and splitting again is the identity |
| `PathText.PiecesApart` | FEXHeaderUtils/FEXHeaderUtils/Filesystem.h:256-278 | a separator sets its two sides apart, wherever it stands, so every split is determined |
| `PathText.PiecesWhole` | FEXHeaderUtils/FEXHeaderUtils/Filesystem.h:256-278 | a text without separators is one part, or none if it is empty |
| `PathNormal.Reduce` | FEXHeaderUtils/FEXHeaderUtils/Filesystem.h:280-323 | the erasing pass leaves the net effect of the parts, the running distance being the iterator's index throughout |
| `PathNormal.Visit` | FEXHeaderUtils/FEXHeaderUtils/Filesystem.h:282-323 | one visit erases or keeps as the cases say and leaves the parts behind the iterator alone |
| `PathMeaning.LexicallyNormal` | FEXHeaderUtils/FEXHeaderUtils/Filesystem.h:233-329 | the whole function, empty path included, computes Normal |
| `PathMeaning.NormalKeepsMeaning` | FEXHeaderUtils/FEXHeaderUtils/Filesystem.h:233-329 | from every directory the result leads where the path leads, `..` clamped at the root |
| `PathMeaning.NormalIdempotent` | FEXHeaderUtils/FEXHeaderUtils/Filesystem.h:233-329 | normalising twice changes nothing |
| `PathMeaning.NormalInForm` | FEXHeaderUtils/FEXHeaderUtils/Filesystem.h:280-323 | absolute results hold names only; relative ones a single `.` or some `..`, then names |
| `PathMeaning.FixedIffNormal` | FEXHeaderUtils/FEXHeaderUtils/Filesystem.h:280-323 | the pass leaves a list of parts alone exactly when it is in normal form |
| `PathMeaning.AbsoluteCanonical` | FEXHeaderUtils/FEXHeaderUtils/Filesystem.h:280-323 | the parts of a normalised absolute path are the directory it leads to |
| `PathMeaning.RelativeCanonical` | FEXHeaderUtils/FEXHeaderUtils/Filesystem.h:280-323 | relative paths mean the same from everywhere exactly when their results agree up to a leading `.` |
| `PathMeaning.NormalPieces` | FEXHeaderUtils/FEXHeaderUtils/Filesystem.h:326-328 | the result is absolute as the path was and splits into the reduced parts |
| `PathMeaning.NormalText` | FEXHeaderUtils/FEXHeaderUtils/Filesystem.h:326-328 | the result holds no doubled separator, and ends in one exactly if it is the root, or the path did and the last part left is neither `.` nor `..` |
| `PathMeaning.LeadingDot` | FEXHeaderUtils/FEXHeaderUtils/Filesystem.h:282-323 | a relative result starts with `.` exactly if it does not start with `..` and the path has a `.` where it has come back to its start |
| `StatSlots.HandsOutFree` | Source/Common/SHMStats.cpp:43-60 | an allocation that gets a slot gets a free one exactly when one remained or the growth adds one |
| `StatSlots.CrashesIff` | Source/Common/SHMStats.cpp:43-78 | where growth adds slots, an allocation follows a null StatTail exactly when the list has a head and no tail and a slot is to be had |
| `StatSlots.LosesTailIff` | Source/Common/SHMStats.cpp:80-119 | a free loses the tail exactly when the slot is head and tail at once and its Next is not null |
| `StatRuns.RunCounts` | Source/Common/SHMStats.cpp:27-119 | over every run RemainingSlots is the number of free slots |
| `StatOwners.RunOwns` | Source/Common/SHMStats.cpp:27-119 | over every run the slots belong to the threads a plain list says: lowest free place, else the first new one, given back when stopped |
| `StatOwners.SlotsLieInside` | Source/Common/SHMStats.h:36-44 | slots of 80 bytes behind a header of 64 do not overlap and lie inside the table, with room for just one more |
| `StatRuns.NeverHandsOutLive` | Source/Common/SHMStats.cpp:43-78 | over every legal run an allocation refuses only when no slot is free, crashes only at a null tail, and otherwise gets a slot that was not live |
| `StatRuns.CrashesOnlyAtNullTail` | Source/Common/SHMStats.cpp:43-119 | after every run one more legal operation crashes exactly if it is an allocation that is not refused and meets a null tail |
| `StatRuns.CleanRunLinks` | Source/Common/SHMStats.cpp:27-119 | while each free finds a live predecessor, walking from Head visits the live slots once each, oldest first, and ends at StatTail; no null pointer is followed |
| `StatList.PlaceLinks` | Source/Common/SHMStats.cpp:60-78 | a new slot goes to the end of the list |
| `StatList.FreeKeepsListIff` | Source/Common/SHMStats.cpp:80-119 | freeing keeps the list right exactly when the slot is the head or the scan stops at a live slot; then just that slot leaves it |
| `StatWitness.StaleRunBreaksList` | Source/Common/SHMStats.cpp:102-115 | in every table of four slots or more a legal run ends in a table no list describes |
| `StatWitness.LegalRunCrashes` | Source/Common/SHMStats.cpp:60-78 | in every table of four slots or more a legal run frees every slot and leaves a null tail, and then every allocation crashes |
| `StatWitness.EmptyGrowthHandsOutLive` | Source/Common/SHMStats.cpp:27-41 | growth without a new slot hands out a live one and wraps the counter |
| `StatWitness.FrontendGrows` | Source/Tools/LinuxEmulation/LinuxSyscalls/ThreadManager.cpp:219-249 | the size reported is the old one exactly at four mebibytes or if the file cannot be opened, and else twice the old one, cut to that maximum, with more slots |
| `StatWitness.FrontendBackedIff` | Source/Tools/LinuxEmulation/LinuxSyscalls/ThreadManager.cpp:227-249 | the size reported is backed by memory exactly if the file could not be opened or neither ftruncate nor mmap failed |
| `StatAlloc.StatAlloc.AllocateMoreSlots` | Source/Common/SHMStats.cpp:27-41 | takes over the new size, adds zeroed slots and counts them |
| `StatAlloc.StatAlloc.AllocateSlot` | Source/Common/SHMStats.cpp:43-78 | the object's allocation is the value model's, with the scan as a loop and the null pointer as an outcome |
| `StatAlloc.StatAlloc.DeallocateSlot` | Source/Common/SHMStats.cpp:80-119 | the object's free is the value model's, the null slot included |
| `CpuList.StrToLShow` | Source/Common/CPUInfo.cpp:57-61 | a number written at some place is what strtol reads there |
| `CpuList.StrToLReads` | Source/Common/CPUInfo.cpp:57-68 | white space, an optional sign and digits are read as their number, cut to 64 bits |
| `CpuList.AcceptedIsList` | Source/Common/CPUInfo.cpp:53-86 | a list with any character but white space, digits, signs and commas is refused |
| `CpuList.ExpandNames` | Source/Common/CPUInfo.cpp:75-77 | the ids reported are those between the ends of the ranges, modulo 2^32, no more and no fewer |
| `CpuBuffer.BufferHoldsIff` | Source/Common/CPUInfo.cpp:190-199 | all of a list is read exactly if its text fits 255 bytes |
| `CpuBuffer.OnePerCoreIsCut` | Source/Common/CPUInfo.cpp:190-199 | one thread in eight of 65 cores does not fit |
| `CpuList.ReadFormat` | Source/Common/CPUInfo.cpp:53-86 | every list of ranges, written out, is accepted and read back as the same ranges; the loops over them end only under the condition of `FormatEnds` |
| `CpuList.FormatEnds` | Source/Common/CPUInfo.cpp:75-78 | on a written list the 64-bit counters do not overflow exactly if every range ends below the largest `long` |
| `CpuList.LongsAgreeIff` | Source/Common/CPUInfo.cpp:75-78 | the loop with a 64-bit counter visits the ids of a range, and its 64-bit size is right, exactly if `hi` and `hi - lo` are below the largest `long` |
| `CpuList.LargestLong` | Source/Common/CPUInfo.cpp:75-78 | the text `0-9223372036854775807` is accepted, and the counter of its loop overflows before it can pass `hi` |
| `CpuIdMap.Add` | Source/Common/CPUInfo.cpp:177-188 | adding an id keeps the tables mutually inverse, and there is always room |
| `CpuIdMap.NumberedByFirstMention` | Source/Common/CPUInfo.cpp:176-188 | guest ids number the usable hosts densely in the order of first mention |
| `CpuIdMap.FirstsCover` | Source/Common/CPUInfo.cpp:177-188 | a host gets a guest id exactly when it was offered and is in range and in the mask |
| `CpuIdMap.DenseBijection` | Source/Common/CPUInfo.cpp:165-250 | for every online text whose ranges have `hi` and `hi - lo` below the largest `long` (otherwise a counter overflows, `CpuIdBuilder.GetMap`), every mask and override: tables inverse, every host mapped below the count, every guest id mapped there and back |
| `CpuIdMap.SeesListedCpus` | Source/Common/CPUInfo.cpp:165-219 | with an accepted list and no override the guest sees just the listed usable CPUs |
| `CpuShown.ShownIff` | Source/Common/CPUInfo.cpp:165-219 | without an override the guest sees exactly the hosts the list names, or the fallback admits, that are below 4096 and in the mask; host 0 if none |
| `CpuShown.ListedAreShown` | Source/Common/CPUInfo.cpp:165-219 | from the file to the guest: for every list below 4096 that fits the buffer, with or without newline, exactly the listed and allowed hosts are seen |
| `CpuShown.FallbackIsShown` | Source/Common/CPUInfo.cpp:200-212 | without the file the hosts of the mask are seen, or as many as are reported |
| `CpuShown.CountIs` | Source/Common/CPUInfo.cpp:214-219 | the count is the number of such hosts, one if none, and at most a configured number from 1 to 4096 |
| `CpuShown.OverrideOnlyCuts` | Source/Common/CPUInfo.cpp:214-219 | an override leaves the guest ids below it standing for the same hosts |
| `CpuShown.HostIsReported` | Source/Common/CPUInfo.cpp:230-250 | a host some guest id stands for is reported as that id, any other by its remainder |
| `CpuIdBuilder.Builder.Offer` | Source/Common/CPUInfo.cpp:177-188 | writes both tables together, or nothing |
| `CpuIdBuilder.Builder.Parse` | Source/Common/CPUInfo.cpp:53-86 | comes to an end without overflow exactly if every range read has `hi` and `hi - lo` below the largest `long`; then it offered the ids of every range read, rejected lists included, and returns the 32-bit count or 0 |
| `CpuIdBuilder.GetMap` | Source/Common/CPUInfo.cpp:165-219 | the whole construction with both fallbacks and the override, which ends exactly under the same condition on the ranges |

## Left out

- The JIT lowering, self-modifying-code tracking, TSO and page-granule machinery: described in the documentation only.
- The other instruction mnemonics of Emitter.h, `bdnz` included: each is one constant, and `bdnz` to a label is the conditional branch with BO 16.
- `SetBuffer` and `ClearPendingBranches`: the model follows one compile unit with labels that are not copied.
- Range checks by assertion in the emitter are preconditions of the object's methods; the value model reports them as failure.
- `getenv` in `DisableShiftedImm32` is a boolean parameter.
- The real POWER memory model: locked operations drain a FIFO store buffer, which is the x86 promise the probe checks.
- The torn-read and compare-exchange arms, timing, hold and jitter options, watchdogs, monitors and verdicts of the probes.
- The iteration count of the litmus: runs go on for ever, which includes every count.
- `sprintf`: for integers it writes the decimal numeral; the text `%g` makes of a double is an input, and a real is compared by its text.
- Characters are unsigned, as `char` is on POWER.
- The union in `json_t` is two sets of fields, so that reading a block's value pointer is not modelled; `json_getProperty` and the accessors that convert text to numbers are not modelled beyond what `JsonReader` reads.
- JsonParser.Parser.Create: requires a pool of at least one node, which `poolInit` hands out unasked.
- Symbolic links: paths are compared by their text alone, as the function does.
- The statistics counters and the header fields of the slot table other than `Head`; memory barriers and concurrent readers.
- Emitter.RelocateMove: requires a window at a word boundary of a buffer below 2^31 bytes, because the buffer is modelled as instruction words; the literal relocations, which copy eight bytes, and the thunk lookup are not modelled.
- OverlappingAdds.NothingLost: requires what the command line and the assembler admit, 1 to 65535 iterations and a 32-bit immediate.
- Swallow.AccountsAlways: requires fewer than 2^31 increments in all, so that they do not reach bit 31.
- `CalculateNumberOfCPUs`, the content of the online file and the affinity mask are inputs.
- `Source/Common/Async.h`, `AsyncNet.h` and the AArch64 emitter: sockets, and encoders that live elsewhere.
