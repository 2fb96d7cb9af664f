# Verification of the Diana core

A Dafny model of the parts of the Diana disassembler core that carry its results, with proofs of what they promise:
the route analyzer, the AArch64 register tracking inside it, the byte window of the x86 parser, the decode trees of
the Arm decoders, the symbol and export lookups, the ELF and PE transformations that work in place, and the circular
list. `dafny verify dfyconfig.toml` checks everything.

## How it is built

Objects that the C code updates in place are classes here, its loops are loops, and each of these methods is proved
equal to a function of the old state. The results are then proved about those functions, over every input, every run or
every sequence of calls.

- **The route analyzer.** `RouteModel` specifies one iteration of the main loop over an owner (presence table, xrefs,
  external list), a stack of routes and the current route, generic in the state that a route carries: nothing on x86,
  tracked registers on AArch64, those and the A32/T32 mode on AArch32. The decoder and the observer are an `Image`: a
  function of offset, route state and strictness. `OwnerInvariant`, `OwnerProofs`, `SessionInvariant`,
  `ReferenceProofs`, `StepProofs`, `LoopProofs` and `TakenProofs` carry the invariant through every operation,
  `RunProofs` proves termination and defines a run, `FinalityProofs` and `PlainProofs` say what is never taken back,
  `VerdictProofs` exactly when code is, `ActionProofs` and `RollbackProofs` what each reference and a rollback leave
  behind, `OriginProofs` where xrefs and route states come from. `RouteTheorems` states the results for any list of
  seeds, each with the entry state that the caller picks for it (A32 or T32,
  src/diana_core/diana_core/diana_elf_analyzer.c:54-72); what of that state belongs to the session survives the end of
  a route (`Image.resume`). `RouteExamples` has the inputs on which two more results would fail, and `RouteAnalyzer`
  has the program as classes.
- **AArch64 tracking.** `ArmMachine` is the concrete machine, `ArmTracking` the specification of the tracker,
  `ArmSoundness` the soundness proof, `ArmFindings` what the tracker is sure to find, `ArmTracker` the class,
  `ArmAnalysis` the analyzer over AArch64 code with the tracker as its decoder, and `ArmCompleteness` what that
  analysis never misses. `ArmTracking` notes beside each compare bound whether its condition was unsigned and at which
  width; the program does not store this, and nothing it does depends on it.
- **The x86 window.** `X86Model` specifies a parse over decoder, window and stream; a stream is its bytes and a plan
  of what each read does, so that any chunking and any failure is an input; after the plan it is a memory stream.
  `X86Tiling` says where the next instruction begins, `X86Lag` when the window can lag, `X86Runs` what that means for
  many instructions, `X86Exact` that the condition is exact, `X86Sight` what a match sees, `X86Prefixes` what the
  bytes before the opcode mean, `X86Offset` that an instruction is a function of its offset, `X86Example` has a stream
  on which it goes wrong, and `X86Window` is the program: a cache of 7 bytes changed in place, a proxy stream and a
  stream.
- **Decoding.** `DecodeTree`, `ItState`.
- **Files.** `GnuHash`, `SysVHash`, `HashValues` (the hash functions in closed form), `ElfDynamic`, `PeExports`,
  `PeOrdinals`, `PeRelocation`, with `Words` for bytes and words.
- **The list.** `CircularList`: the ring that xrefs and route instructions hang in. The analyzer has these lists as
  sequences; that a ring is appended to, walked and read as a sequence is what `CircularList` proves.

## What is assumed

- Analyzer: allocation and observer callbacks succeed; the answer of the observer is classified into actions before
  the analyzer handles it; a decoded instruction has a positive size; the range fits the presence table.
- AArch64 tracking: memory that is read is constant, callees keep X19 to X29 (AAPCS64), an instruction writes only
  registers it names, and the list of flag-setting instructions in `ChangesArm64Flags` is complete. LD64B, CASP and
  SVC break the third, SVE `while*` and `ptest` and the `cpy*` instructions the fourth: they are outside the machine.
- x86: the tables and operand handlers are an abstract `Decoder`. A match whose operands leave scratch or virtual
  bytes in the window counts as a failed parse: Diana_FatalBreak stops the program there under _DEBUG, in other builds
  the parse succeeds and the next instruction begins in the scratch bytes.
- The analyzer takes the decoder for a function of offset, route state and strictness. For AArch64 it is one by
  definition (`ArmAnalysis.ImageOf`). Its x86 parses follow each other on a route; the cache is cleared, and the
  stream moved, only where a route starts or a parse failed: over a memory stream they give a function of the offset
  wherever no window can lag (`X86Offset.RunIsOfOffsets`).
- AArch64 analysis: the observer places an address at the offset where the process has it.
- ELF and PE: the tables are read from memory that does not change; the host is little-endian.

## Where the code does not do what one would expect

- A failed `TryMatch` restores the cache but not the stream. Bytes that its operands drew past the window are gone
  from it, so the window of a later match can lag behind the instruction (`X86Example.WindowLags`, exactly when:
  `X86Exact.ClearExactly`).
- GetArmCompareBound stores the count before it says that there is no bound, and the register of the session starts as
  X0: the first b.hi, b.hs, b.gt or b.ge of a call gives the route to its target a bound on X0
  (`ArmSoundness.FirstBranchBoundFails`, exactly when it holds: `ArmSoundness.StartBoundHoldsExactly`). AArch32 has
  the same pattern (src/diana_core/diana_core/diana_analyze.c:1840-1847).
- A signed condition gives a wrong bound for a negative register (`ArmSoundness.SignedBoundFails`).
- Symbol names are compared with 255 bytes (`GnuHash.LongNamesFail`). A name that only its chain shows to be absent
  gives DI_ERROR, not DI_NOT_FOUND (`SysVHash.AbsentNameFails`, exactly when: `SysVHash.AbsentNames`). A DT_HASH chain
  with a circle keeps the lookup from returning (`SysVHash.CircleNeverEnds`).
- A second name for a function makes the ordinal pass stop too early (`PeOrdinals.AliasLosesAnOrdinal`). Its loop
  variable has 16 bits: above 65535 functions it can report an ordinal twice (`PeOrdinals.ReportsTwice`) or never end
  (`PeOrdinals.EmptyTableNeverEnds`); exactly when: `PeOrdinals.ReportsOnceExactly`, `PeOrdinals.EndsExactly`.
- The last possible entry of a name table at the end of the image is rejected by CaptureValue32
  (`PeExports.LastEntryIsRejected`, exactly when: `PeExports.CapturedExactly`), and its 32-bit offset wraps above 2^30
  entries (`PeExports.BigIsLost`). Such a table needs more than 4 GB of captured image, which the 32-bit SizeOfImage
  of a PE file never gives.
- Not claimed, because false: that no live xref leads to an invalid entry (`RouteExamples.LiveXRefToInvalid`; a plain
  jump is the only one that does, `RouteTheorems.LiveToInvalidIsJump`), and that whatever a root reaches is valid in
  the end (`RouteExamples.RootIsSwallowed`; what a non-strict route decodes is, `RouteTheorems.PlainCodeIsKept`).

## Model

| member | source | states |
|---|---|---|
| RouteTheorems.WorklistIsClosed | src/diana_core/diana_core/diana_analyze.c:2482-2598 | after any list of seeds, every valid instruction has an entry for each in-range, aligned branch target, and for its fall-through successor when that word is code: nothing reachable is forgotten |
| RouteTheorems.KeptRoutesAreCode | src/diana_core/diana_core/diana_analyze.c:2527-2598 | an instruction of a questionable route that was kept falls through to a valid instruction or past the end; a strict one to an entry; on ARM a kept strict route never runs past the end |
| RouteTheorems.SpeculationIsExact | src/diana_core/diana_core/diana_analyze.c:2482-2598 | exactly when an instruction that was found on a questionable route is valid in the end, over any list of seeds: it stops, or it runs past the end and the code is not ARM, or it falls through to an aligned word that the decoder accepts and that is valid itself |
| RouteTheorems.RejectedForAReason | src/diana_core/diana_core/diana_analyze.c:2497-2597 | whatever code is invalid in the end was decoded on a strict route, does not stop, and falls through to a misaligned word, to one that is no code, to an entry that is invalid itself, or (ARM) to the end of the range |
| VerdictProofs.RejectsExactly | src/diana_core/diana_core/diana_analyze.c:2497-2597 | one iteration makes a valid entry of its route invalid, or the start that waits to be decoded, if and only if the route is strict and the word misaligned or no code, or the route is questionable and the entry at the offset invalid, or (ARM) the strict word joins the route, does not stop and reaches the end of the range |
| VerdictProofs.ComesToCode | src/diana_core/diana_core/diana_analyze.c:2563-2567 | a route that comes to a valid decoded instruction keeps every instruction valid to the end of the run |
| VerdictProofs.GoesOnExactly | src/diana_core/diana_core/diana_analyze.c:2497-2597 | where an iteration leaves its route: at the next word with one instruction more, decoded with the state, strictness and questionability of the route; on a plain route at the next aligned offset after a word that is no code (one byte on x86); at its end otherwise, with the owner untouched unless the route is rejected |
| VerdictProofs.LastQueuedIsNext | src/diana_core/diana_core/diana_analyze.c:2295-2309 | a route that has ended is followed by the one that was queued last, from its start, with the state it was queued with and no instructions |
| VerdictProofs.StepVerdicts | src/diana_core/diana_core/diana_analyze.c:2482-2598 | every iteration keeps: rejected strict code has a reason, kept strict code falls through to code, and the instructions of a strict route are a chain |
| RouteTheorems.SeedIsDecoded | src/diana_core/diana_core/diana_analyze.c:2608-2648 | the first word of a seed is decoded on a route that is not questionable, as strict as the call, with the entry state of the seed; a seed that has an entry changes nothing |
| FinalityProofs.StepAdvances | src/diana_core/diana_core/diana_analyze.c:2482-2598 | after every iteration the instructions of the current route are all valid or all invalid; no iteration takes an entry back (absent, loading, decoded, invalid), or changes a valid instruction of another route but for its ROOT flag |
| FinalityProofs.RunAdvances | src/diana_core/diana_core/diana_analyze.c:2463-2600 | over a whole run of the main loop no entry is taken back and no valid instruction of an earlier route changes but for its ROOT flag |
| FinalityProofs.RouteEndsForGood | src/diana_core/diana_core/diana_analyze.c:2482-2598 | when a route has ended, then in the owner after the whole run its instructions are either all valid and unchanged but for the ROOT flag, or all invalid |
| RouteTheorems.FinalAcrossSeeds | src/diana_core/diana_core/diana_analyze.c:2608-2648 | finality across any list of later seeds on the same owner, each in its own mode: a valid instruction is never invalidated, decoded again or moved; only its ROOT flag may be added |
| RouteTheorems.AnalyzeIsForward | src/diana_core/diana_core/diana_analyze.c:2608-2648 | the same for one call, and every entry only moves forward |
| RouteTheorems.AddressesTakenAreConserved | src/diana_core/diana_core/diana_analyze.c:2357-2421 | while an instruction is valid, every address it takes (in range, or known to be data) has a live address-taken xref with that offset, as code or as the data xref that a rollback leaves |
| RouteTheorems.AddressesTakenLeadToCode | src/diana_core/diana_core/diana_analyze.c:482-489 | an address-taken xref into the table is invalid exactly when its source or its target is: a live one leads to valid code; one out of the table is invalid exactly when its source is |
| RouteTheorems.OutsideReferencesAreKept | src/diana_core/diana_core/diana_analyze.c:357-441 | data that a valid instruction reads, and what it refers to outside the module, has a live xref with the right flags and target; external addresses below the limit or at 0xFFFFFFFF and more in 32-bit mode are skipped |
| RouteTheorems.XRefsAreMade | src/diana_core/diana_core/diana_analyze.c:357-512 | no xref is invented: each has a decoded source, and an action of it as it was decoded makes an xref with that target and those flags |
| RouteTheorems.DecodingsAreTraced | src/diana_core/diana_core/diana_analyze.c:2463-2600 | any property of offsets and route states that seeds have, and that decoding hands on to the next instruction and to where references lead, is one of every instruction as it was decoded |
| RouteTheorems.IndexesAgree | src/diana_core/diana_core/diana_analyze.c:231-251 | the two xref indexes agree: an xref is in the from-list of its source and in the to-list of its target, in no other, once, in creation order |
| RouteTheorems.OutsideIndexesAgree | src/diana_core/diana_core/diana_analyze.c:231-251 | the same for the entries that are data or outside the module |
| RouteTheorems.SizesCount | src/diana_core/diana_core/diana_analyze.c:193-223 | after any list of seeds m_usedSize is the number of entries and m_actualSize the number of valid ones |
| RouteTheorems.AnalyzeIsReady | src/diana_core/diana_core/diana_analyze.c:2608-2648 | one call of Diana_AnalyzeCodeEx2 keeps everything an owner promises between calls, for any image, seed and flags |
| RouteTheorems.EmptyIsReady | src/diana_core/diana_core/diana_analyze.c:134-164 | an owner that was just made promises it |
| RouteTheorems.AnalyzedIsReady | src/diana_core/diana_core/diana_analyze.c:2608-2648 | so after any list of seeds, A32 and T32 ones mixed, the owner has all of it: indexes, counters, handled references, fall-through, live addresses |
| RouteTheorems.LiveToInvalidIsJump | src/diana_core/diana_core/diana_analyze.c:481-509 | a live xref to an entry that is known not to be code is a plain jump of a valid instruction: neither data, external nor an address taken |
| RouteTheorems.PlainCodeIsKept | src/diana_core/diana_core/diana_analyze.c:2397-2421 | an instruction decoded on a route that does not have to prove that it is code is never invalidated, whatever is analyzed later |
| RouteExamples.LiveXRefToInvalid | src/diana_core/diana_core/diana_analyze.c:492-505 | an image and two seeds after which a plain jump to an invalid entry is a live xref |
| RouteExamples.RootIsSwallowed | src/diana_core/diana_core/diana_analyze.c:2397-2421 | an image and a seed whose valid root jumps to a decodable word that is invalid in the end: a questionable route ran into the queued start and was rolled back |
| RouteTheorems.SeedIsVisited | src/diana_core/diana_core/diana_analyze.c:2482-2598 | the first word of a seed that is code on the route of the seed has an entry after the call |
| RouteTheorems.ScanIsForward | src/diana_core/diana_core/diana_analyze.c:2735-2771 | a scan-through takes nothing back either |
| RouteTheorems.ScanLeavesNothing | src/diana_core/diana_core/diana_analyze.c:2735-2771 | a scan leaves no code behind: every scanned offset that is not inside an instruction when the scan comes to it, and whose word is code on a strict route, has an entry afterwards, valid or rolled back |
| RunProofs.StepIsSmaller | src/diana_core/diana_core/diana_analyze.c:2482-2598 | termination: each iteration lowers (absent slots, stack count, bytes left on the route) |
| RunProofs.QueuedOnce | src/diana_core/diana_core/diana_analyze.c:481-509 | an iteration queues only offsets that had no entry before it, so an offset is queued at most once for an owner |
| LoopProofs.StepInv | src/diana_core/diana_core/diana_analyze.c:2482-2598 | every iteration keeps the invariant of the loop: indexes, flags, conserved addresses, distinct queued starts, both counters, handled references, fall-through |
| RunProofs.RunInv | src/diana_core/diana_core/diana_analyze.c:2463-2600 | the invariant holds at the end of every run, and the stack is empty there |
| RunProofs.StepWithin | src/diana_core/diana_core/diana_analyze.c:193-223 | every entry is in the analyzed range at every loop head |
| RunProofs.PoolHasRoom | src/diana_core/diana_core/diana_analyze.c:193-223 | a pool of the size of the range has room for every offset without an entry |
| StepProofs.RollbackSized | src/diana_core/diana_core/diana_analyze.c:2397-2421 | rollback keeps the counters: m_actualSize counts the valid entries and the queued ones already marked invalid |
| StepProofs.RollbackInv | src/diana_core/diana_core/diana_analyze.c:2397-2421 | a rolled back route leaves the whole invariant |
| OwnerProofs.RollbackKeeps | src/diana_core/diana_core/diana_analyze.c:2311-2421 | rollback marks exactly the victims and exactly the xrefs that touch one, adds data xrefs only, lowers m_actualSize by the victims, and loses no address taken by a valid instruction |
| OwnerProofs.KeepAllKeeps | src/diana_core/diana_core/diana_analyze.c:2357-2394 | keeping the addresses taken adds a live data xref for each and changes nothing else |
| RollbackProofs.RollbackAddsExactly | src/diana_core/diana_core/diana_analyze.c:2357-2421 | a rollback is the marking of the victims and then, for each address-taken xref to a victim from an instruction that is still valid, exactly one new data xref with the offset of the victim; no other xref or external entry is added |
| RollbackProofs.KeepAllExactly | src/diana_core/diana_core/diana_analyze.c:2357-2394 | in the order of the victims and of their to-lists, at the next free index each |
| OwnerProofs.MarkedLinked | src/diana_core/diana_core/diana_analyze.c:2319-2349 | marking a route leaves both indexes in agreement and every invalid source with invalid xrefs only |
| OwnerInvariant.CreateXRefLinked | src/diana_core/diana_core/diana_analyze.c:231-251 | a new xref is appended to both lists and keeps them in agreement |
| ReferenceProofs.ActKeeps | src/diana_core/diana_core/diana_analyze.c:357-512 | each kind of reference keeps the invariant and leaves what the reference promises |
| ActionProofs.JumpSaves | src/diana_core/diana_core/diana_analyze.c:444-512 | a branch to an instruction address of the range leaves one plain xref, an entry, and a queued route if there was no entry; the route is as questionable as its source, and the entry becomes a root if it is not; any other branch leaves nothing |
| ActionProofs.TakeAddressSaves | src/diana_core/diana_core/diana_analyze.c:444-512 | an address taken leaves an address-taken xref and a questionable route where there can be code, a data xref where the address is misaligned or the entry known not to be code, nothing out of the range |
| ActionProofs.TakeDataAddressSaves | src/diana_core/diana_core/diana_analyze.c:392-408 | an address taken that is data leaves one address-taken data xref to a new external entry with its index in it, and no entry changes |
| ActionProofs.ReadDataSaves | src/diana_core/diana_core/diana_analyze.c:412-441 | data that is read leaves a data xref; the only entry that changes is a queued start at that offset that no root leads to, which becomes invalid on ARM |
| ActionProofs.ExternalSaves | src/diana_core/diana_core/diana_analyze.c:357-390 | an external reference leaves one xref with its flags, unless the address is below the limit of the caller or, in 32-bit mode, 0xFFFFFFFF or more |
| ActionProofs.MarkDataSaves | src/diana_core/diana_core/diana_analyze.c:1436-1461 | AArch32 data leaves a data entry with its element count at each even address of it in the range that has no entry, from the halfword its first byte is in, and no other |
| ActionProofs.DecodeSaves | src/diana_core/diana_core/diana_analyze.c:2112-2290 | a decoded entry has the flags of the word, is a root exactly if its route is not questionable, and keeps its xrefs |
| ReferenceProofs.DataSlotActs | src/diana_core/diana_core/diana_analyze.c:1436-1461 | an entry marked as AArch32 data counts in m_usedSize only and never blocks a queued route |
| TakenProofs.StepTaken | src/diana_core/diana_core/diana_analyze.c:412-441 | at every loop head a live address-taken xref to an invalid entry exists only while that entry still waits in the queue |
| TakenProofs.RunTaken | src/diana_core/diana_core/diana_analyze.c:2463-2600 | so none is left at the end of a run |
| PlainProofs.StepPlain | src/diana_core/diana_core/diana_analyze.c:2482-2598 | every iteration keeps each instruction valid that was decoded on a non-strict route |
| OriginProofs.StepOrigin | src/diana_core/diana_core/diana_analyze.c:2482-2598 | both are kept by every iteration, rollbacks and popped routes included |
| RouteAnalyzer.InstructionsOwner.AllocateInstruction | src/diana_core/diana_core/diana_analyze.c:193-202 | fails exactly when the pool is empty; otherwise both counters grow by one |
| RouteAnalyzer.InstructionsOwner.QueryOrAllocateInstruction | src/diana_core/diana_core/diana_analyze.c:204-223 | an entry is made only where there is none, from a pool that never runs out |
| RouteAnalyzer.InstructionsOwner.PushXRef | src/diana_core/diana_core/diana_analyze.c:231-251 | the xref stack and both lists become those of the specification |
| RouteAnalyzer.InstructionsOwner.DataXRef | src/diana_core/diana_core/diana_analyze.c:392-408 | a data xref and its external entry; the presence table has the same entries |
| RouteAnalyzer.InstructionsOwner.ExternalXRef | src/diana_core/diana_core/diana_analyze.c:357-390 | an external xref unless the address is skipped |
| RouteAnalyzer.InstructionsOwner.MarkArm32DataRange | src/diana_core/diana_core/diana_analyze.c:1436-1461 | the loop over halfwords marks what the specification marks |
| RouteAnalyzer.InstructionsOwner.MarkRouteEntry | src/diana_core/diana_core/diana_analyze.c:2319-2349 | the entry, its xrefs in both lists and the counter |
| RouteAnalyzer.InstructionsOwner.KeepList | src/diana_core/diana_core/diana_analyze.c:2357-2381 | the loop over a to-list keeps what the specification keeps |
| RouteAnalyzer.AnalyzeSession.SaveRoute | src/diana_core/diana_core/diana_analyze.c:444-512 | the whole new state of SaveNewRoute, in every branch |
| RouteAnalyzer.AnalyzeSession.DataAccess | src/diana_core/diana_core/diana_analyze.c:412-441 | a pending questionable start that is read becomes invalid (ARM), and the data xref is made |
| RouteAnalyzer.AnalyzeSession.RollbackRoute | src/diana_core/diana_core/diana_analyze.c:2397-2421 | marks the whole route before any address taken of it is kept; the result is that of the specification |
| RouteAnalyzer.AnalyzeSession.ConstructInstruction | src/diana_core/diana_core/diana_analyze.c:2112-2290 | the entry is decoded, joins the route, and its references are handled in order |
| RouteAnalyzer.AnalyzeSession.SwitchToLastState | src/diana_core/diana_core/diana_analyze.c:2295-2309 | the last queued route becomes the current one |
| RouteAnalyzer.AnalyzeSession.AnalyzeWord | src/diana_core/diana_core/diana_analyze.c:2497-2597 | one iteration on a route does what the specification of an iteration does, in every branch; VerdictProofs.RejectsExactly and GoesOnExactly say what that is |
| RouteAnalyzer.AnalyzeSession.AnalyzeCodeImpl | src/diana_core/diana_core/diana_analyze.c:2463-2600 | the loop ends, in the state that the run of the specification ends in |
| RouteAnalyzer.AnalyzeCode | src/diana_core/diana_core/diana_analyze.c:2608-2648 | a call on an owner leaves the owner of the specification and what it promises; no allocation fails |
| ArmSoundness.RouteTracksTheMachine | src/diana_core/diana_core/diana_analyze.c:1095-1291 | along the fall-through execution of a route, from a state below the bound of the route, every known register holds the recorded absolute or module-relative value and the register bounded by an unsigned compare is below the count at the compared width |
| ArmSoundness.RouteIsSound | src/diana_core/diana_core/diana_analyze.c:1095-1291 | everything tracked (values, compare, bound, jump table) stays true along any route |
| ArmSoundness.StepIsSound | src/diana_core/diana_core/diana_analyze.c:1095-1291 | one instruction of any kind keeps it, and every reference it makes is a real access or a computed address: dropping too much never makes a wrong reference |
| ArmSoundness.BranchesGoBothWays | src/diana_core/diana_core/diana_analyze.c:1030-1057 | every condition but always has executions of b.cond that take the branch and that fall through, so the results on routes say something of routes past any branch |
| ArmSoundness.CompareBoundIsExact | src/diana_core/diana_core/diana_analyze.c:1030-1057 | after cmp Rn, #imm an unsigned condition (ls, lo, hi, hs), taken or not, leaves Rn below the count |
| ArmSoundness.SignedBoundExactlyWhenNonNegative | src/diana_core/diana_core/diana_analyze.c:1030-1057 | a signed condition (le, lt, gt, ge) bounds the register exactly when it is not negative at the compared width |
| ArmSoundness.SignedBoundFails | src/diana_core/diana_core/diana_analyze.c:1036-1055 | a negative register for which the signed bound is wrong |
| ArmSoundness.RouteStartAgrees | src/diana_core/diana_core/diana_analyze.c:2262-2277 | the route to a branch target starts from tracked state that holds where the branch is taken, for every condition and every earlier branch of the session |
| ArmSoundness.StartBoundHoldsExactly | src/diana_core/diana_core/diana_analyze.c:2262-2277 | the bound that the route to a branch target starts with is true exactly if the condition is lo or ls, or lt or le of a non-negative register, or there is no count, or, for hi, hs, gt and ge, the branch is not the first in-module one of the session or X0 happens to be below the count |
| ArmSoundness.FirstBranchAboveIsWrong | src/diana_core/diana_core/diana_analyze.c:1030-1057 | cmp w0, #imm and b.hi as the first branch: the route to its target is told the opposite of what holds |
| ArmSoundness.FirstBranchBoundFails | src/diana_core/diana_core/diana_analyze.c:1036-1056 | cmp w1, #5 and b.hi as the first branch with 100 in X0: the target route has X0 below 6 and takes a load of entry 100 for a table of 6 |
| ArmSoundness.KnownJumpIsReal | src/diana_core/diana_core/diana_analyze.c:836-848 | br Xn with a known register: the route goes where the machine goes |
| ArmAnalysis.ReferencesAreReal | src/diana_core/diana_core/diana_analyze.c:2112-2598 | the analyzer over any AArch64 program: every address taken and data xref that the tracker gives an instruction is real; the analyzer came to it on a way through the code, and on every run of the machine along any way on which the same is tracked the instruction computes, loads or accesses that address |
| ArmAnalysis.JumpsAreReal | src/diana_core/diana_core/diana_analyze.c:2112-2277 | every route through br or blr: on every such run the register points to its target, or the target is that of an entry of the table that is tracked there |
| ArmFindings.WhatIsWrittenIsFound | src/diana_core/diana_core/diana_analyze.c:1131-1242 | complete for adr, adrp (unless the image base is unknown), add Xd, Xn, #imm and mov Xd, Xm with a known source: Xd is known afterwards, with the value that the machine writes, in every execution |
| ArmFindings.WhatIsLoadedIsFound | src/diana_core/diana_core/diana_analyze.c:899-920 | ldr Xt, [Xn, #imm] with Xn known: if the file can be read there, a loaded pointer that is not 0 is known afterwards, as the machine loads it, and its address is taken |
| ArmFindings.AdrFinds | src/diana_core/diana_core/diana_analyze.c:1131-1137 | adr: the register is known with the address of the label in the process, relative exactly if the analysis is; no other register changes |
| ArmFindings.AdrpFinds | src/diana_core/diana_core/diana_analyze.c:1211-1221 | adrp: the register is known with the page of the instruction plus the immediate, or dropped if the image base is unknown; no other register changes |
| ArmFindings.AddFinds | src/diana_core/diana_core/diana_analyze.c:1222-1229 | add of an immediate to a known register: the sum is known, its address is taken and nothing else is referred to; no other register changes |
| ArmFindings.AddToStackPointer | src/diana_core/diana_core/diana_analyze.c:1222-1229 | add to SP takes the address too and changes nothing that is tracked |
| ArmFindings.MoveFinds | src/diana_core/diana_core/diana_analyze.c:1230-1242 | mov: the destination is known exactly if the source is, with the same address |
| ArmFindings.LiteralLoadFinds | src/diana_core/diana_core/diana_analyze.c:1243-1250 | ldr of a literal: the register is known exactly if the file has a pointer other than 0 there, and then the pointer is taken |
| ArmFindings.OffsetLoadFinds | src/diana_core/diana_core/diana_analyze.c:1251-1264 | ldr through a known base: the address is a data reference, and the pointer there is known and taken as for a literal |
| ArmFindings.DataExactly | src/diana_core/diana_core/diana_analyze.c:1266-1279 | an instruction makes a data reference exactly to each known base plus unsigned offset among its operands without writeback, and to the base of a table it begins to load from |
| ArmFindings.CallsForget | src/diana_core/diana_core/diana_analyze.c:1199-1210 | a call leaves exactly X19 to X29 as known as they were, an instruction of unknown operands nothing |
| ArmFindings.UnnamedIsKept | src/diana_core/diana_core/diana_analyze.c:1280-1291 | any other instruction leaves each register that it does not name as known as it was, with its value |
| ArmFindings.CompareIsKept | src/diana_core/diana_core/diana_analyze.c:1120-1130 | cmp Rn, #imm sets the compared register, immediate and width and nothing else |
| ArmFindings.CountIsTight | src/diana_core/diana_core/diana_analyze.c:1030-1057 | the count of a bound is the right one: among non-negative values the branch goes that way for the values below it and for no other |
| ArmFindings.BranchIsBounding | src/diana_core/diana_core/diana_analyze.c:1095-1118 | behind b.hi, b.hs, b.gt and b.ge the compared register has the bound of the compare, behind other conditions the old bound stays; the compare is gone |
| ArmFindings.TargetIsBounded | src/diana_core/diana_core/diana_analyze.c:2262-2277 | the route to the target has the compared register with its count for ls, lo, le and lt; for hi, hs, gt and ge the register of the session with that count; what the session has otherwise |
| ArmFindings.MarksAreKept | src/diana_core/diana_core/diana_analyze.c:1060-1093 | an instruction that is no branch and sets no flags keeps the compare and the bound of every register it does not name |
| ArmFindings.TableIsFound | src/diana_core/diana_core/diana_analyze.c:1138-1174 | a load scaled by the size it loads, from a known base by the bounded register, begins a table at that base with as many entries as the bound says |
| ArmFindings.TableTargetIsFound | src/diana_core/diana_core/diana_analyze.c:1175-1197 | adding the entry to a known base makes the register the target of the entry, with the extension and shift of the operand |
| ArmFindings.TableCodeIsFound | src/diana_core/diana_core/diana_analyze.c:1095-1291 | cmp, b.hi, adr, ldrb, adr, add as compilers write it, with any immediates: the table is found with its entries, count, base, extension and shift, and is exact |
| ArmFindings.ConditionsCompare | src/diana_core/diana_core/diana_analyze.c:1030-1057 | after a compare with a 12-bit immediate each condition of the machine compares the register, unsigned or signed, at the width of the compare |
| ArmCompleteness.SumIsReferredTo | src/diana_core/diana_core/diana_analyze.c:1222-1229 | in the analysis of any program: the address that a valid add computes from a known register has a live address-taken xref, if it lies in the analyzed range |
| ArmCompleteness.PointerIsReferredTo | src/diana_core/diana_core/diana_analyze.c:899-920 | so has the pointer that a valid ldr finds in the file through a known base |
| ArmCompleteness.AccessIsReferredTo | src/diana_core/diana_core/diana_analyze.c:1266-1279 | what a valid instruction accesses through a known base has a live data xref, in the module or outside |
| ArmCompleteness.KnownJumpHasEntry | src/diana_core/diana_core/diana_analyze.c:836-848 | where br or blr through a known register leads has an entry |
| ArmCompleteness.TableJumpHasEntries | src/diana_core/diana_core/diana_analyze.c:976-1027 | so has the target of each entry of a tracked table before the first that cannot be read |
| ArmCompleteness.SessionGoesOn | src/diana_core/diana_core/diana_analyze.c:2262-2277 | the bound that the session keeps for the next route is gone after a branch or a jump through a register into the module, stays after any other instruction, a jump table included, and is no part of a popped route |
| ArmCompleteness.BranchHasEntry | src/diana_core/diana_core/diana_analyze.c:2262-2277 | so has the target of a branch; the route to it is entered with nothing known but the bound of the branch |
| ArmCompleteness.NextIsTracked | src/diana_core/diana_core/diana_analyze.c:2571-2585 | what is tracked after an instruction is what the word four bytes behind it is decoded with |
| ArmAnalysis.WayIsSound | src/diana_core/diana_core/diana_analyze.c:1095-1291 | what is tracked is true wherever the machine runs along a way of fall-throughs and taken conditional branches |
| ArmSoundness.TableJumpIsCovered | src/diana_core/diana_core/diana_analyze.c:976-1027 | br Xn through a table with an exact bound goes to the target of one of its entries, below the limit of 0x4000 |
| ArmTracker.TableJumpHasRoute | src/diana_core/diana_core/diana_analyze.c:989-1027 | so if the entries can be read, one of the routes that are made is where the machine goes |
| ArmTracker.RegisterTracker.BranchRoute | src/diana_core/diana_core/diana_analyze.c:2262-2277 | the bound of the route, out of the register and the count that are left in the session, and both after it |
| ArmTracker.RegisterTracker.StartRoute | src/diana_core/diana_core/diana_analyze.c:59-74 | a popped route starts with nothing known but its bound; what the session keeps for the next branch stays |
| ArmTracker.RegisterTracker.TableTargets | src/diana_core/diana_core/diana_analyze.c:989-1027 | the loop over the entries gives the targets of all entries before the first that cannot be read, and nothing else |
| ArmTracker.RegisterTracker.Track64 | src/diana_core/diana_core/diana_analyze.c:1095-1291 | the fields after an instruction and the references it makes are those of the specification, which is sound (ArmSoundness.StepIsSound) and finds what it can (ArmFindings) |
| ArmTracker.RegisterTracker.ForgetRegisters | src/diana_core/diana_core/diana_analyze.c:800-811 | values, compare, bound and table of the registers of the mask are forgotten, no others |
| ArmTracker.RegisterTracker.SetRegister | src/diana_core/diana_core/diana_analyze.c:813-826 | one register is known afterwards, what depended on its old value is forgotten |
| ArmTracker.RegisterTracker.LoadRegister | src/diana_core/diana_core/diana_analyze.c:899-920 | a loaded pointer is known and an address taken; anything else drops the register |
| X86Window.ParseCmd | src/diana_core/diana_core/diana_core.c:109-245 | status, size, bytes, window and stream of one parse are those of the specification, for any chunking and failing of the reads: the 15-byte limit, and the bytes put together from the old cache and the proxy |
| X86Tiling.ParseGoesOn | src/diana_core/diana_core/diana_core.c:214-239 | an instruction has at least one byte and at most 15, they are the next ones of the stream; its window begins a lag before their end, and the stream goes on a window's length behind them |
| X86Exact.ClearExactly | src/diana_core/diana_core/diana_core_parsers.c:429-546 | at any place of any stream: no attempt that could fail after drawing comes before one that is sure to keep bytes of the window, if and only if no stream that delivers the same up to the attempts leaves the window behind the instruction |
| X86Exact.KeepsPlaceExactly | src/diana_core/diana_core/diana_core_parsers.c:429-546 | for a decoder: that condition holds everywhere if and only if no instruction on any stream leaves the window behind it |
| X86Exact.KeepsPlaceTiles | src/diana_core/diana_core/diana_core.c:109-245 | with such a decoder every run of successful parses tiles its stream |
| X86Exact.NoneLateKeepsPlace | src/diana_core/diana_core/diana_core_parsers.c:429-546 | operands that accept whatever they ask for, a byte at a time, never make the window lag |
| X86Exact.NoPrefixIsClear | src/diana_core/diana_core/diana_core_parsers.c:897-948 | an instruction without legacy prefixes has one attempt and never lags |
| X86Offset.ParseIsOfRest | src/diana_core/diana_core/diana_core_parsers.c:703-948 | over a memory stream, two parses with the same bytes before them come to the same status, bytes and rest, wherever their windows are |
| X86Offset.RunIsOfOffsets | src/diana_core/diana_core/diana_core.c:109-245 | along a run of parses over an image on which no window can lag, each instruction is the one that a fresh parse at its offset gives: the decoder is a function of the offset |
| X86Lag.LagsExactly | src/diana_core/diana_core/diana_core_parsers.c:897-948 | the attempts for given prefixes and window: some stream makes the window lag exactly when an attempt that could fail late comes before one that keeps the window |
| X86Runs.RunTilesExactly | src/diana_core/diana_core/diana_core.c:109-245 | for a stream of distinct bytes the instructions tile it exactly when no window lagged on the way |
| X86Runs.ClearNeverLags | src/diana_core/diana_core/diana_core_parsers.c:703-948 | a VEX or EVEX instruction, nop, and an instruction whose attempts are clear leave the window where they end |
| X86Example.WindowLags | src/diana_core/diana_core/diana_core_parsers.c:429-546 | a decoder and a stream of 8 bytes in reads of 5, 2 and 1 on which a whole parse lags: the instruction is reported with 66 0F 01, its window begins again with 01, and 06 is lost |
| X86Sight.TryAllSees | src/diana_core/diana_core/diana_core_parsers.c:429-546 | what a match and its operands see: from the matched byte on the bytes that are shown, then what the stream gives behind what the failed attempts drew |
| X86Sight.SeesPlainlyExactly | src/diana_core/diana_core/diana_core_parsers.c:429-546 | that is the plain stream if no failed attempt drew from it or nothing is drawn, and for distinct bytes only then |
| X86Tiling.PrefixesAreTail | src/diana_core/diana_core/diana_core_parsers.c:722-777 | the prefixes and the byte after them are taken from the front of the stream, at least one byte |
| X86Tiling.TryAllDraws | src/diana_core/diana_core/diana_core_parsers.c:897-948 | what the failed attempts drew, what the match drew and what is unread make up the stream; a match that keeps bytes of the window drew nothing |
| X86Model.VexOf | src/diana_core/diana_core/diana_core_utils.c:389-523 | C5 and C4: the one or two bytes of the prefix go; before exactly what comes behind them stand C5 and a selector with L in bit 0, the map (0F, 0F38 or 0F3A) in bits 1 and 2 and pp in bits 3 and 4; for les and lds nothing is taken; when a read fails, the window is what it was |
| X86Model.EvexOf | src/diana_core/diana_core/diana_core_utils.c:525-631 | 62: the three bytes of the prefix go; before exactly what comes behind them stand 62 and a selector with pp in bits 0 and 1, the map in bits 2 to 4, L'L (512 bits for a rounding) in bits 5 and 6 and W in bit 7; for bound nothing is taken; when a read fails, the window is what it was |
| X86Prefixes.VexExactly | src/diana_core/diana_core/diana_core_utils.c:389-523 | over a memory stream: exactly when C4 and C5 are a VEX prefix (enough bytes, bits 7 and 6 outside 64-bit mode, map 1 to 3), and the status where they are not |
| X86Prefixes.EvexExactly | src/diana_core/diana_core/diana_core_utils.c:525-631 | exactly when 62 is an EVEX prefix, the status where it is not, and when L is replaced for a rounding |
| X86Prefixes.PrefixesRead | src/diana_core/diana_core/diana_core_parsers.c:722-777 | over a memory stream: the leading bytes that are legacy prefixes, or REX right before one, are read up to the first other byte; what is kept is each legacy prefix once, in the order of the last occurrences; 90 is nop at once exactly if only 66 and 67 came before |
| X86Prefixes.TooManyAreRead | src/diana_core/diana_core/diana_core_parsers.c:722-726 | more than 14 such bytes are an error |
| X86Prefixes.OpcodeIsTried | src/diana_core/diana_core/diana_core_parsers.c:784-900 | any other opcode is tried with the tables, behind all its prefixes |
| X86Prefixes.NopIsRead | src/diana_core/diana_core/diana_core_parsers.c:815-832 | 90 is nop behind any prefixes but F3 |
| X86Prefixes.RexNop | src/diana_core/diana_core/diana_core_parsers.c:815-832 | after REX, 90 is nop exactly if REX.B is clear and there is no F3, and tried with the tables otherwise |
| X86Prefixes.RexBeforeWide | src/diana_core/diana_core/diana_core_parsers.c:809-813 | REX right before C4, C5 or 62 is an error |
| X86Prefixes.PrefixBeforeWide | src/diana_core/diana_core/diana_core_parsers.c:868-876 | in 64-bit mode VEX and EVEX behind 66, F2, F3 or LOCK never succeed |
| X86Prefixes.LimitExactly | src/diana_core/diana_core/diana_core.c:214-245 | a match that is whole is an instruction exactly if it has no more than 15 bytes |
| X86Prefixes.TriesInOrder | src/diana_core/diana_core/diana_core_parsers.c:897-938 | the attempts: the last of F2 and F3 first, then 66, then the last prefix if it is another one, then none; nothing else |
| X86Prefixes.RepeatWins | src/diana_core/diana_core/diana_core_parsers.c:897-948 | where F2 or F3 makes an encoding, that is the one that is found, whatever the other prefixes make: its match is shown the prefix, the opcode and the window |
| X86Prefixes.OperandSizeWins | src/diana_core/diana_core/diana_core_parsers.c:897-948 | so does 66 where there is neither |
| X86Window.ParseAll | src/diana_core/diana_core/diana_core.c:109-245 | any run of parses computes the run of the specification; wherever no window can lag (a condition on decoder, prefixes and window at each place) the bytes of the instructions are the next ones of the stream and the window and what is unread are the rest |
| X86Window.ParseCmdEx | src/diana_core/diana_core/diana_core_parsers.c:703-948 | prefixes, REX, VEX and EVEX, nop and the attempts leave status, cache, prefixes and stream as the specification says |
| X86Window.ReadPrefixes | src/diana_core/diana_core/diana_core_parsers.c:722-777 | the loop over the prefixes, with repeated ones moved to the end and a REX before a legacy prefix dropped, computes the specification |
| X86Window.TryAll | src/diana_core/diana_core/diana_core_parsers.c:897-948 | the attempts in order: the result, the window and the stream of the specification, the cache restored after each that failed |
| X86Window.TryMatch | src/diana_core/diana_core/diana_core_parsers.c:429-546 | one attempt: a failure leaves the bytes behind the scratch bytes as they were and puts the window back, a match leaves what its operands did not read; the stream is where the operands left it either way |
| X86Window.LinkOperands | src/diana_core/diana_core/diana_stream_proxy.c:3-38 | the loop of operand reads through the stream proxy, first the rest of the window, then the stream, fails on the first short read |
| X86Window.ProcessVex | src/diana_core/diana_core/diana_core_utils.c:389-523 | the cache, the stream and the answer are those of VexOf, in every branch |
| X86Window.ProcessEvex | src/diana_core/diana_core/diana_core_utils.c:525-631 | the cache, the stream and the answer are those of EvexOf, in every branch |
| X86Window.Virtualize | src/diana_core/diana_core/diana_core_utils.c:500-519 | the two virtual bytes go before the rest of the window, which is topped up from the stream without losing a byte |
| X86Window.Context.ReadCache | src/diana_core/diana_core/diana_core_utils.c:646-684 | the window is arranged and filled as specified; window followed by unread stream never changes (ReadCacheKeepsRest) |
| X86Tiling.ReadCacheKeepsRest | src/diana_core/diana_core/diana_core_utils.c:646-684 | window followed by unread stream never changes, whatever the stream delivers |
| X86Window.Context.EatOne | src/diana_core/diana_core/diana_core_utils.c:633-644 | takes the first byte of the window |
| X86Window.ProxyStream.Read | src/diana_core/diana_core/diana_core.c:39-63 | counts and keeps what one instruction reads |
| DecodeTree.DecodeWord | src/diana_core/diana_core/diana_arm64.c:1123-1173 | for any well-formed tree every word is classified as by a scan of the flat tables: first encoding that passes mask, unless, distinct, feature and operand checks, else disabled, unsupported or unallocated |
| DecodeTree.Lookup | src/diana_core/diana_core/diana_arm32.c:722-747 | the instruction of a word in the tree is the first accepted one of the flat table, or none |
| DecodeTree.WalkTree | src/diana_core/diana_core/diana_arm64.c:1175-1187 | the leaves that are reached are exactly the encodings that are compatible with a path the word takes, in order |
| DecodeTree.IsWordDisabled | src/diana_core/diana_core/diana_arm64.c:1200-1217 | an instruction that only the profile leaves out |
| DecodeTree.IsWordUnsupported | src/diana_core/diana_core/diana_arm64.c:1218-1228 | the second tree agrees with its table too |
| DecodeTree.MatchesUnless | src/diana_core/diana_core/diana_arm32.c:621-631 | one of the mask and value pairs matches |
| DecodeTree.HasEqualFields | src/diana_core/diana_core/diana_arm64.c:1080-1095 | two fields that must differ are equal, SP excepted |
| DecodeTree.CompatibleKeepsFirst | src/diana_core/diana_core/diana_arm64.c:1142-1171 | leaving out what contradicts the path changes no decoding |
| DecodeTree.CompatibleKeepsDisabled | src/diana_core/diana_core/diana_arm32.c:693-720 | nor the answer why there is no instruction |
| DecodeTree.MoreFeatures | src/diana_core/diana_core/diana_arm64.c:1097-1102 | with more features a supported word stays supported and an unsupported or unallocated one keeps its class: only disabled words change |
| DecodeTree.SupportedGrows | src/diana_core/diana_core/diana_arm64.c:1150-1171 | the encoding it then has is at least as specific |
| DecodeTree.EnabledExactly | src/diana_core/diana_core/diana_arm64.c:1097-1102 | a profile enables a command exactly if it has all its features and, where the command needs one of some, at least one of those bits |
| DecodeTree.ClassExactly | src/diana_core/diana_core/diana_arm64.c:1123-1230 | the class of a word: supported exactly if the table has an accepted encoding, disabled exactly if it has none but one that only the profile leaves out, unsupported exactly if neither but the second table matches, unallocated otherwise |
| DecodeTree.SlotsAreEncoded | src/diana_core/diana_core/diana_arm64.c:1175-1198 | a slot is a node number with the top bit, or the place of up to 15 leaves in 27 bits and their number in 4 |
| DecodeTree.StackPointersDiffer | src/diana_core/diana_core/diana_arm64.c:1080-1095 | two register fields are equal if their bits are, except for 31 where 31 is SP |
| ItState.Context.DecodeT32 | src/diana_core/diana_core/diana_arm32.c:789-848 | the prefix of a T32 instruction and ITSTATE after it; the other flags of the context stay |
| ItState.BlockIsAsEncoded | src/diana_core/diana_core/diana_arm32.c:789-848 | after IT exactly the instructions of the encoded block are marked, with the conditions of section A2.5.2 of ARM DDI 0406C, all but the last as not last; an instruction with a condition of its own has that one, in a block and outside |
| ItState.ItStartsBlock | src/diana_core/diana_core/diana_arm32.c:789-848 | IT inside a block has the condition of that block and starts its own |
| CircularList.List.PushBack | src/diana_core/diana_core/diana_list.c:31-44 | appends, keeps the ring |
| CircularList.List.First | src/diana_core/diana_core/diana_list.c:46-51 | the first node, or none |
| CircularList.List.Next | src/diana_core/diana_core/diana_list.c:53-59 | the next node, none after the last although the ring goes on |
| CircularList.List.ForEach | src/diana_core/diana_core/diana_list.c:8-29 | each node once and in order up to the first that stops it, even if the observer frees or reuses the nodes it was given |
| CircularList.VisitsInOrder | src/diana_core/diana_core/diana_list.h:50-62 | what such a traversal visits is a prefix without repetition, all of the list unless a node stops it |
| GnuHash.LookupIsExact | src/diana_core/diana_core/diana_elf.c:895-1043 | the lookup agrees with a scan of .dynsym for every well-formed table exactly for the names of less than 255 bytes |
| GnuHash.LookupAgreesWithScan | src/diana_core/diana_core/diana_elf.c:895-1043 | it finds the first visible symbol of the name, and none exactly when there is none: the Bloom filter, the buckets and the chains lose nothing |
| GnuHash.LongNamesFail | src/diana_core/diana_core/diana_elf.c:1018-1039 | names of 255 bytes and more are compared with 255 bytes: for each a library exists for which the lookup is wrong |
| GnuHash.LookupGnu | src/diana_core/diana_core/diana_elf.c:895-1043 | the loop over the chain computes the lookup of the specification, with the hash that HashValues.HashIsPolynomial gives in closed form |
| GnuHash.ComputeHash | src/diana_core/diana_core/diana_elf.c:706-712 | the loop computes the GNU hash, whose closed form is HashValues.HashIsPolynomial |
| HashValues.HashIsPolynomial | src/diana_core/diana_core/diana_elf.c:706-712 | the GNU hash is 5381 * 33^n plus the bytes times 33 to the number of bytes behind them, modulo 2^32 |
| HashValues.GnuHashOfPrintf | src/diana_core/diana_core/diana_elf.c:706-712 | the hash of printf is 0x156B2BB8 |
| HashValues.BucketExactly | src/diana_core/diana_core/diana_elf.c:979-983 | so the bucket of a name is that polynomial modulo 2^32 and modulo the number of buckets |
| HashValues.QsortIsFound | src/diana_core/diana_core/diana_elf.c:968-985 | a table of two Bloom words and three buckets in which the bit and the bucket of the hash of qsort alone let it be found |
| HashValues.OneIsFound | src/diana_core/diana_core/diana_elf.c:968-1043 | the table a linker writes for a library with the one function "a": the lookup finds it, and not "b" |
| HashValues.VisibleExactly | src/diana_core/diana_core/diana_elf.c:765-792 | what a library exports: defined, with a value, global or weak, a function, object or indirect function, of the default version |
| GnuHash.Scan | src/diana_core/diana_core/diana_elf.c:765-772 | the reference: the first visible definition of the name |
| SysVHash.EitherTableAgreesWithScan | src/diana_core/diana_core/diana_elf.c:795-1170 | whichever of the two tables a library has, a name of less than 255 bytes is found exactly when .dynsym has a visible symbol of it, and what is found is one; with DT_GNU_HASH it is the first |
| SysVHash.AbsentNames | src/diana_core/diana_core/diana_elf.c:795-1170 | an absent name gives DI_NOT_FOUND exactly if the Bloom filter or the bucket of DT_GNU_HASH shows that it is absent, else DI_ERROR |
| SysVHash.AbsentNameFails | src/diana_core/diana_core/diana_elf.c:1011-1043 | a library with one function, for which every other name gives DI_ERROR |
| SysVHash.SysVAgreesWithScan | src/diana_core/diana_core/diana_elf.c:1057-1154 | the same for DT_HASH alone, for which the walk ends |
| SysVHash.EndsWithinTable | src/diana_core/diana_core/diana_elf.c:1101-1153 | the walk of a chain stops after as many steps as the table has entries, or never: a longer one goes around in a circle |
| SysVHash.CircleNeverEnds | src/diana_core/diana_core/diana_elf.c:1101-1153 | a symbol that is its own successor: the lookup of another name never returns |
| SysVHash.GetSymbolAddress | src/diana_core/diana_core/diana_elf.c:795-1170 | both parts of the lookup in order: DT_HASH is gone on with only where the chain of DT_GNU_HASH ended without the name or there is none |
| SysVHash.LookupSysV | src/diana_core/diana_core/diana_elf.c:1057-1154 | the loop over the chain computes the lookup of the specification, where the walk ends |
| SysVHash.ComputeHash | src/diana_core/diana_core/diana_elf.c:692-704 | the loop computes the SysV hash |
| HashValues.SysVFolds | src/diana_core/diana_core/diana_elf.c:692-704 | one step of the SysV hash: shift by four bits, add the byte, clear the top four bits and add them without carry to bits 4 to 7 |
| HashValues.SysVHashOfPrintf | src/diana_core/diana_core/diana_elf.c:692-704 | the SysV hash of printf is 0x077905A6 |
| HashValues.SysVHashOfSnprintf | src/diana_core/diana_core/diana_elf.c:692-704 | and of snprintf, on which two steps fold |
| HashValues.SysVIsFound | src/diana_core/diana_core/diana_elf.c:1101-1153 | a DT_HASH table of two buckets in which the hash of printf selects the bucket whose chain leads to it |
| GnuHash.CountDynSymbols | src/diana_core/diana_core/diana_elf.c:1290-1353 | the reads of header, buckets and chain give the count of the specification on any bytes, in either class and byte order |
| GnuHash.CountIsSize | src/diana_core/diana_core/diana_elf.c:1290-1353 | for the stored index of any .dynsym, in either class and byte order, the count is the number of symbols, or INVALID_INPUT exactly when a limit of 0x100000 is passed |
| HashValues.HeaderDecides | src/diana_core/diana_core/diana_elf.c:1290-1353 | no buckets, or a count above 0x100000 in the header, is INVALID_INPUT, and a table that does not fit cannot be read |
| ElfDynamic.NormalizeDyn | src/diana_core/diana_core/diana_elf.c:646-676 | for any class, byte order and count, entry i of the result is the original entry i, although source and destination overlap; the bytes behind stay |
| ElfDynamic.WidenEntries | src/diana_core/diana_core/diana_elf.c:651-667 | the backward loop over ELF32 entries: sign-extended tag, zero-extended value |
| ElfDynamic.SwapEntries | src/diana_core/diana_core/diana_elf.c:668-675 | the loop over big-endian ELF64 entries |
| ElfDynamic.EncodedEntriesAreRead | src/diana_core/diana_core/diana_elf.c:643-676 | whatever was encoded, in any class and byte order, is what is read: with NormalizeDyn a round trip |
| PeExports.SearchIsLinearExactly | src/diana_core/diana_core/diana_pe.c:1547-1613 | on a strictly sorted table with readable entries the search answers as a linear one for every name exactly when there are at most 2^30 names |
| PeExports.SearchIsRight | src/diana_core/diana_core/diana_pe.c:1578-1608 | from any bounds that the name is not outside of |
| PeExports.LastIsLost | src/diana_core/diana_core/diana_pe.c:1443-1464 | above 2^30 names the 32-bit offset of an entry wraps: the last name, or a name after it, gets a wrong answer on every sorted table |
| PeExports.BigIsSorted | src/diana_core/diana_core/diana_pe.c:1547-1613 | there is a sorted table of every length below 2^32 |
| PeExports.BigIsLost | src/diana_core/diana_core/diana_pe.c:1443-1464 | so the failure has an input: the table of 2^30 + 1 names 1, 11, 111 and so on |
| PeExports.CapturedExactly | src/diana_core/diana_core/diana_pe.c:1443-1464 | an entry of a table is captured if and only if a byte of the image follows it |
| PeExports.LastEntryIsRejected | src/diana_core/diana_core/diana_pe.c:1443-1464 | an image whose last four bytes are an entry that is not captured |
| PeExports.SearchNames | src/diana_core/diana_core/diana_pe.c:1547-1608 | the loop in 32-bit arithmetic ends and computes the search of the specification on any image |
| PeExports.CompareName | src/diana_core/diana_core/diana_pe.c:1592-1592 | the bounded comparison |
| PeExports.ComparedIsOrder | src/diana_core/diana_core/diana_pe.c:1592-1602 | is the order of the names when the name in the image ends |
| PeExports.OrderIsLexicographic | src/diana_core/diana_core/diana_pe.c:1592-1602 | and that is the order of a dictionary by unsigned bytes |
| PeExports.GetProcAddress | src/diana_core/diana_core/diana_pe.c:1507-1631 | every result of the lookup by name and by ordinal, errors and forwarders included |
| PeExports.NamesResolve | src/diana_core/diana_core/diana_pe.c:1547-1631 | on a sorted table a name has the export of the ordinal beside it, NOT_FOUND exactly when no entry has it |
| PeExports.OrdinalExactly | src/diana_core/diana_core/diana_pe.c:1614-1631 | an ordinal gives the entry of the function table, an error if no byte follows the entry; it is a forwarder exactly if it lies in the export directory, which holds none if it goes beyond 4 GB |
| PeExports.CapturedIs | src/diana_core/diana_core/diana_pe.c:1443-1464 | a captured value is the entry of the table, where its offset fits 32 bits |
| PeOrdinals.ReportOrdinals | src/diana_core/diana_core/diana_pe.c:1794-1861 | the loop with its 16-bit variable, wherever it ends: the functions without a name in order, up to NumberOfFunctions - NumberOfNames; above 65535 functions over and over until there are as many |
| PeOrdinals.EndsExactly | src/diana_core/diana_core/diana_pe.c:1809-1860 | the loop ends if and only if there are at most 65535 functions or some ordinal below 65536 is to be reported |
| PeOrdinals.ReportsOnceExactly | src/diana_core/diana_core/diana_pe.c:1809-1860 | a pass that ends reports nothing twice exactly if there are at most 65535 functions or enough ordinals in one round |
| PeOrdinals.ReportsTwice | src/diana_core/diana_core/diana_pe.c:1809-1860 | 65537 functions of which one is there: it is reported again and again |
| PeOrdinals.EmptyTableNeverEnds | src/diana_core/diana_core/diana_pe.c:1809-1860 | 65536 functions that are not there: the loop never ends |
| PeOrdinals.FinalIs | src/diana_core/diana_core/diana_pe.c:1809-1860 | whatever the loop has done, what it reports in the end is what it has reported, the rest of the round and the rounds after it |
| PeOrdinals.CompleteExactly | src/diana_core/diana_core/diana_pe.c:1819-1859 | the pass reports all there is to report exactly when the surplus names (a second name of a function, an ordinal out of range) are no more than the unnamed ordinals that are empty or forwarded, and nothing to report is above 65535 |
| PeOrdinals.DistinctNamesAreComplete | src/diana_core/diana_core/diana_pe.c:1794-1861 | with distinct in-range name ordinals and at most 65535 functions it reports exactly the eligible ordinals in order |
| PeOrdinals.EligibleAreAll | src/diana_core/diana_core/diana_pe.c:1820-1845 | what is to be reported: the nonzero, not forwarded ordinals without a name, each once, in order |
| PeOrdinals.EligibleExactly | src/diana_core/diana_core/diana_pe.c:1820-1845 | to be reported is a function that is not 0, that no name ordinal is equal to, and that does not lie in the export directory |
| PeOrdinals.AliasLosesAnOrdinal | src/diana_core/diana_core/diana_pe.c:1856-1859 | two names of one function make it lose an ordinal |
| PeRelocation.RelocationIsInvertible | src/diana_core/diana_core/diana_pe.c:274-398 | for a block of fixups that do not overlap, diff and then -diff restores every byte exactly when no fixup is HIGH or diff is a multiple of 0x10000 |
| PeRelocation.PatchRestores | src/diana_core/diana_core/diana_pe.c:302-392 | the same for one fixup of any type |
| PeRelocation.PatchMoves | src/diana_core/diana_core/diana_pe.c:302-392 | what a fixup does to its bytes: DIR64 and HIGHLOW values move by diff modulo 2^64 and 2^32, HIGH is the upper half of the sum with a lower half of 0, and the address in the imm4:i:imm3:imm8 fields of a MOVW (low half) and MOVT (high half) moves modulo 2^32 while every other bit of the pair stays |
| PeRelocation.PointersMove | src/diana_core/diana_core/diana_pe.c:274-398 | in a block of disjoint fixups that fit, each 64-bit value at page plus offset of a DIR64 entry moves by diff modulo 2^64 |
| PeRelocation.PointerMoves | src/diana_core/diana_core/diana_pe.c:381-392 | an image with 0x140001000 at offset 4, relocated by 0x10000, has 0x140011000 there |
| PeRelocation.EntryFields | src/diana_core/diana_core/diana_pe.c:288-302 | which bytes an entry rewrites: the low 12 bits are added to the page in 32 bits, the type in the high 4 bits gives the width, a target of 0 and other types give none |
| PeRelocation.RelocateFrame | src/diana_core/diana_core/diana_pe.c:274-398 | bytes outside the fixups never change, whatever overlaps and however the block ends |
| PeRelocation.RelocatePatches | src/diana_core/diana_core/diana_pe.c:274-398 | every fixup of a block without overlaps is applied once, to the original bytes |
| PeRelocation.OkWhenAllFit | src/diana_core/diana_core/diana_pe.c:302-392 | the block succeeds exactly when every fixup fits the image |
| PeRelocation.ProcessRelocationEntry | src/diana_core/diana_core/diana_pe.c:274-398 | the loop over the sub-entries patches the image in place as the specification does; what it does to a value is PatchMoves, to a block PointersMove |
| PeRelocation.SetImmediate | src/diana_core/diana_core/diana_pe.c:250-270 | setting the immediate of a T32 MOVW or MOVT: it is read back, the other bits stay |
| PeRelocation.SameInstruction | src/diana_core/diana_core/diana_pe.c:250-270 | an instruction is its opcode bits and its immediate |

## Left out

- RouteTheorems.ScanLeavesNothing: the AArch32 rule that skips the second halfword of an instruction is a parameter of
  the scan, a predicate on the owner.
- ArmSoundness.RouteTracksTheMachine: says nothing of bounds from signed conditions and of tables loaded by LDRSB or
  LDRSH into W registers, which are heuristics; their exact condition is SignedBoundExactlyWhenNonNegative.
- X86Window.ParseCmd: of a failed parse only the status is stated; the analyzer clears the cache there.
- X86Model.VexOf: the fields of the prefix that only operand handlers use (R, X, B, vvvv, and W of VEX) are not in the
  state; neither are those of EVEX (V', z, aaa, R').
- GnuHash.LookupGnu: for 64-bit little-endian files with a nonempty Bloom filter and nonempty buckets: the code reads
  64-bit Bloom words in either class and swaps neither them nor the buckets.
- SysVHash.GetSymbolAddress: for tables that can be read, and chains on which the walk ends, since nothing can be said
  of a call that does not return; a DT_HASH entry behind DT_GNU_HASH counts as absent.
- GnuHash.CountDynSymbols: for DT_GNU_HASH; the DT_HASH count is one read.
- PeOrdinals.ReportOrdinals: where the loop ends, since nothing can be said of a call that does not return; qsort and
  bsearch over the name ordinals are membership, and the reads of the table succeed.
- PeRelocation.ProcessRelocationEntry: addresses are relative to the module, so the 64-bit overflow check of the
  module address is not there; the walk over the blocks of the directory is not modelled.
- CircularList.List.ForEach: the observer may change the nodes it has been given, not those still to come.
- Out-of-memory and observer errors in the analyzer; flags that only describe an instruction.
- The references that an instruction makes without a register (AnalyzeJumps, operand forms), the AArch32 dispatch and
  TrackArm32: inputs of the analyzer here. `ArmAnalysis` has the references of AArch64 tracking and of br and blr.
- Jump-table bounds merged from several predecessors.
- x86 table search and ModRM handlers: part of the abstract decoder. The checks after the operands (LOCK, 66, gather)
  only turn a success into a failure.
- The key-line search in FindNextCmdKey, generated tables, small finite operand decoders.
- ELF relocation, header reading and mapping; PE imports and mapping; the named pass of DianaPeFile_QueryExports.
- The doubly linked list, the generic stack, patchers, text output, the emulator and the tools around the core.