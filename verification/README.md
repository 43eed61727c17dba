# Overlay shard pipeline: a verified model

This project models, in Dafny 4.11, the parts of the overlay toolchain that decide what may be trusted:
how compiled overlay shards are published and recovered, how the shard cache is kept within its limits,
how control flow of captured MIPS code is recognised, how fragments are selected and compiled in bounded
work, how function identities guard their bytes, and how the coverage vault reads and compacts captures.
`dafny verify dfyconfig.toml` checks all of it.

## How it is modelled

- **Pair publication** (`ShardStore`, `PairPublication`). A directory is a finite map from names to
  contents and every rename, unlink or atomic write is one step. `Disk` carries an arbitrary fate for
  each step (obeyed, refused, killed) and a ghost trace of all directories that ever existed. A slot is
  *sound* when its journal and halves fit together, and *settled* is the pair an undisturbed recovery
  would show; publication then refines one atomic register per slot. SHA-256 is injective, reads do not fail.
  Each method is also proved to be a function of what it finds (`Recovered`, `Committed`), for `SlotIndependence`.
- **Capacity** (`CacheInventory`, `CacheTerms`, `CachePublication`, `CacheExamples`). The four measures are sums over
  deduplicated whole-pair identities.
- **Processes** (`CacheRuns`, `PairLocks`). `CacheRuns` is a state machine in which any process may take a recovery
  step at any time, one holds the capacity lock, and any may die between two steps. `PairLocks` derives such runs
  from processes that each do, under the lock of one slot, what the verified methods do alone: the step of one slot
  does not see the others, and a process reads nothing outside its slot and its private staged files (`SlotIndependence`).
- **Code analysis** (`Mips*`, `Machine`, `ConstantTransfer`, `JumpTable*`, `OverlayWalk`, `WalkTerms`, `Seed*`). `Machine` is a processor
  with delay slots: exact for the opcodes the recognisers match, and for every other word only the frame of
  the register-write test. Code outside the image may do anything. Loads have no load-delay slot.
  Addresses are 32-bit; a table lies below 2^32. The bounded walks, the rounds and the fixed point are functions
  that the loops are proved to compute; what holds of every classification is proved of those functions.
- **Bounded selection** (`SiblingProofs`, `GuardedBytes`, `HostedSelection`, `HostedBatches`, `HostedCompile`). Fast
  forms against quadratic specifications; callbacks are arbitrary functions of the number of answers given.
- **Identities** (`Crc32`, `FuncIds`, `FuncIdLaws`, `Hex`, `Manifest`, `ManifestRoundTrip`, `ManifestGrammar`). The manifest's text is modelled down to characters;
  `HostCrc32` works on a byte array with exclusive-or on naturals (`BitWords`), and the standard is stated with
  polynomials over the field of two elements (`BinaryPolynomials`).
- **Coverage vault** (`CompactRegion`, `CompactionLaws`, `Json*`). The JSON object decoder is a pushdown machine; on
  anything but an object the decoder is an arbitrary parameter.

`Prelude`, `Sorting`, `Reachability`, `BitWords` and `Hex` are shared support.

Conditions that methods and specifications share are also stated once over raw words, characters and numbers, with every
constant spelled out (`MipsLaws`, `JumpTableWords`, `WalkTerms`, `SeedTerms`, `FuncIdLaws`, `ManifestGrammar`, `CacheTerms`,
the `...Exactly` lemmas of `CompactionLaws`, `HostedSelection` and `JsonGrammar`), and tables of opcodes are checked against
one another and against the conditions of the processor's branches.

## Where the code does less than it says

Each of these is proved with a concrete input, and with an exact condition where the text says *exactly*; the model
follows the code.

- The switch recogniser accepts a one-entry table whose guard register is the index register, and a bounds
  branch whose target is its own delay slot. In both the dispatch can leave the table.
  `GuardedExactly` says exactly when it cannot; `SharedGuardExample` and `RejectedSlotExample` are the inputs.
- The same recogniser accepts a rejected edge that lands between the `lui` and the last definition of the
  table register, so that the definition is repeated (`RedefinedTableExample`). `RepeatedExactly` says exactly when that
  is harmless, for repeated words that step the index or whose effect the model leaves open.
- Its comment calls loops from the switch's own cases into the suffix safe, but a case may change the table
  register (`CaseClobbersExample`). `CaseLoopExactly` says exactly when such a loop is safe, for a straight block of open
  words and steps of the table register that jumps back to the check; `DispatchStaysInTable` gives a condition on the whole function that any loop may be checked against.
- The constant resolver looks at inbound edges from earlier addresses only, although its comment speaks of any
  direct edge (`LaterEdgeBreaksConstant`). `SealedExactly` says exactly when the constant is right, for edges that can
  be taken whatever the register holds: when there is no such edge anywhere in the listing.
- The capacity projection looks at the staged manifest alone. A published DLL that the runtime refuses un-shadows a
  later tier's copy, and a limit that the verdict protects is then broken (`RejectedInstallExample`). `ProjectionExactly` says
  exactly when projection and new inventory agree, `AdmissionExactly` exactly when an admitted offer keeps the limits.
- A compacted run compacts to itself unless an address is negative: its formatted text does not read back (`FixedExactly`).

## Model

| member | source | states |
|---|---|---|
| ShardStore.CleanupOldPairDebris | psxrecomp.broken.bak/tools/compile_overlays.py:4824-4826 | removes only transaction backups of the slot; every intermediate directory shows the same pair; undisturbed, no backup is left |
| ShardStore.Restore | psxrecomp.broken.bak/tools/compile_overlays.py:4865-4878 | one half is put back to its old digest by steps that each keep the rollback's meaning; it reports that neither file is the old one only when that is so at its start |
| ShardStore.Retire | psxrecomp.broken.bak/tools/compile_overlays.py:4853-4863 | removing the journal and then the backups never changes what the slot shows, at any step |
| ShardStore.RecoverShardPairLocked | psxrecomp.broken.bak/tools/compile_overlays.py:4829-4885 | from a sound slot every step is sound and stands for the same pair, only the operating system can stop it, and a finished recovery shows exactly that pair; the neither-is-old error implies an unsound start, so it is unreachable; every directory it leaves is a function of the directory, the fates and the listing order |
| PairPublication.SwapHalves | psxrecomp.broken.bak/tools/compile_overlays.py:4985-4994 | the ordered renames: each step either keeps what the slot stands for or makes it stand for the offered pair |
| PairPublication.CommitStagedPair | psxrecomp.broken.bak/tools/compile_overlays.py:4972-4998 | the whole transaction from journal to final recovery: every step is silent or the one commit, success shows exactly the offer, a missing staged file changes nothing; every directory it leaves is a function of what it finds |
| CachePublication.NeverMixed | psxrecomp.broken.bak/tools/compile_overlays.py:4829-4885 | what a reader sees in a sound slot is no DLL or exactly the pair the slot stands for |
| CacheRuns.VisiblePairIsWhole | psxrecomp.broken.bak/tools/compile_overlays.py:4912-4998 | over every run of silent and committing steps each instant shows no DLL, the first pair, or an offered pair, never mixed halves |
| CacheRuns.RunAttempt | psxrecomp.broken.bak/tools/compile_overlays.py:4912-4998 | one publication or recovery, dying anywhere, leaves a sound slot; a finished recovery shows the old pair, a finished publication the offer |
| CacheRuns.CrashyRun | psxrecomp.broken.bak/tools/compile_overlays.py:4829-4998 | for every sequence of publications and recoveries under every pattern of refusals and deaths, no instant shows mixed halves and the last finished attempt shows a whole pair |
| CacheInventory.RuntimeManifestRangeLinkCount | psxrecomp.broken.bak/tools/compile_overlays.py:4437-4452 | the page links of a manifest are the total number of pages its ranges touch |
| CacheTerms.PageSetExactly | psxrecomp.broken.bak/tools/compile_overlays.py:4437-4452 | the pages of a function are those of the 512 pages of RAM that a byte of its ranges lies on, each once |
| CacheInventory.CacheCandidateInventory | psxrecomp.broken.bak/tools/compile_overlays.py:4590-4647 | the scan selects exactly the indexable pairs that no earlier tier shadows by basename, and its four totals are the deduplicated cost of that selection |
| CacheInventory.ProjectedCacheCapacityUsage | psxrecomp.broken.bak/tools/compile_overlays.py:4669-4717 | the incremental projection is the cost recomputed from scratch of the selection with the target slot replaced, or no change when the slot is shadowed |
| CacheInventory.VerdictIsExact | psxrecomp.broken.bak/tools/compile_overlays.py:4740-4768 | a projection is admitted if and only if each of the four measures stays within its limit or does not grow |
| CacheTerms.EntryExactly | psxrecomp.broken.bak/tools/compile_overlays.py:4527-4585 | what a pair counts: nothing if a file is missing, empty or not 7-bit text; its raw rows and links; and candidates with an identity only if the runtime loads it |
| CacheTerms.IdentityExactly | psxrecomp.broken.bak/tools/compile_overlays.py:4455-4484 | two pairs share their cost if and only if both have a known identity and agree in tier, pair id, provenance and functions through every mirror of RAM |
| CacheTerms.ChosenExactly | psxrecomp.broken.bak/tools/compile_overlays.py:4590-4630 | a pair counts if and only if its tier is scanned, its name is two runs of eight hexadecimal digits, its library has the ABI, and no earlier tier has such a library of that name |
| CacheInventory.SelectionAfterInstall | psxrecomp.broken.bak/tools/compile_overlays.py:4590-4647 | installing a pair changes the scanned selection exactly as the projection assumes, tier shadowing included |
| CacheInventory.ProjectionCommutes | psxrecomp.broken.bak/tools/compile_overlays.py:4669-4717 | for a runtime-valid staged pair the projection on the current inventory equals the inventory recomputed after installation, on all four measures |
| CacheInventory.ProjectionBounds | psxrecomp.broken.bak/tools/compile_overlays.py:4669-4717 | for a pair that only passes the ABI preflight the projection is still an upper bound of the recomputed inventory |
| CacheInventory.ProjectionExactly | psxrecomp.broken.bak/tools/compile_overlays.py:4669-4717 | for a pair that passes the ABI preflight the projection equals the inventory recomputed after installation if and only if the pair is runtime-valid, or its slot is shadowed, or its DLL is not empty and another basename already counts the same pair |
| CacheInventory.RejectedInstallUnshadows | psxrecomp.broken.bak/tools/compile_overlays.py:4590-4647 | the exact inventory after a pair is installed that the runtime does not index: a visible copy at the slot goes and the next indexed copy of a later tier takes its place; otherwise nothing changes |
| CacheInventory.RejectedInstallExactly | psxrecomp.broken.bak/tools/compile_overlays.py:4669-4768 | installing a pair that the runtime does not index keeps every bound if and only if the slot was not the visible one or what comes back from a later tier fits |
| CachePublication.RecoverCandidateNamespace | psxrecomp.broken.bak/tools/compile_overlays.py:4650-4666 | recovering every journaled slot keeps the cache the namespace stands for at every step and leaves no counted slot journaled |
| CachePublication.SelectionOfVisible | psxrecomp.broken.bak/tools/compile_overlays.py:4950-4958 | once no counted slot is journaled, the files on disk give the same inventory as the recovered cache |
| CachePublication.AdmissionBounds | psxrecomp.broken.bak/tools/compile_overlays.py:4740-4768 | an admitted offer keeps every measure of the resulting cache within its limit or its present value |
| CachePublication.AdmissionExactly | psxrecomp.broken.bak/tools/compile_overlays.py:4740-4768 | for every admitted offer, whatever its DLL: the resulting cache keeps every limit if and only if the pair is indexed, takes no visible copy away, or what comes back behind it fits |
| CacheExamples.RejectedInstallExample | psxrecomp.broken.bak/tools/compile_overlays.py:4669-4768 | a concrete cache of two tiers and an offer whose DLL has the wrong ABI: the verdict admits it under a limit of one candidate, and the cache then has two |
| CachePublication.RefusalIsNecessary | psxrecomp.broken.bak/tools/compile_overlays.py:4740-4768 | for a runtime-valid offer the verdict admits exactly when installation would keep every bound |
| CachePublication.PublishShardPair | psxrecomp.broken.bak/tools/compile_overlays.py:4912-4998 | at every instant the namespace stands for the old cache or the old cache with the offer, in the phases recover, scan, commit and recover; under a cap every such state is within bounds unless a larger copy comes back behind the offer; undisturbed, a runtime-valid offer is published exactly when nothing valid is to be kept and every bound survives |
| CacheRuns.StepKeepsLimits | psxrecomp.broken.bak/tools/compile_overlays.py:4930-4998 | no event of the multi-process system (recovery step, lock, admission, transaction step, release or death) breaks a bound, as long as nothing larger comes back behind an admitted offer |
| CacheRuns.CapacityHoldsOverRuns | psxrecomp.broken.bak/tools/compile_overlays.py:4650-4998 | over every interleaving and crash of capacity-checked publishers and recoveries each of the four measures stays at most its limit or its starting value, if at each admission the pair is indexed or what comes back behind it fits |
| CacheRuns.NoMixedHalvesOverRuns | psxrecomp.broken.bak/tools/compile_overlays.py:4829-4998 | in all runs of the system, publishers with a cap and without, within the limits or not, no slot ever shows mixed halves |
| CacheRuns.PublicationIsRun | psxrecomp.broken.bak/tools/compile_overlays.py:4912-4998 | the trace of a publication, as PublishShardPair leaves it, is a run of that system from its first step to its last |
| PairLocks.StepRelocates | psxrecomp.broken.bak/tools/compile_overlays.py:4829-4998 | a step proved for one directory is the same step in every directory with the same files of the slot, whatever the other slots hold |
| SlotIndependence.RecoveryIsItsOwn | psxrecomp.broken.bak/tools/compile_overlays.py:4829-4885 | whatever others do to the rest of the directory between its mutations, a recovery has the outcome and leaves the files of its slot, mutation by mutation, that it has and leaves alone |
| SlotIndependence.TransactionIsItsOwn | psxrecomp.broken.bak/tools/compile_overlays.py:4972-4998 | the same for the transaction, its staged files included |
| PairLocks.ScriptIsFollowed | psxrecomp.broken.bak/tools/compile_overlays.py:4829-4998 | so a process interleaved with others leaves in its slot, mutation by mutation, exactly what its solo trace leaves there |
| PairLocks.LocksHold | psxrecomp.broken.bak/tools/compile_overlays.py:4342-4346 | while a process holds the lock of a slot, every step of any other process leaves the slot as the holder left it |
| PairLocks.MovesAreRun | psxrecomp.broken.bak/tools/compile_overlays.py:4887-4998 | any number of processes, each doing its solo trace on its slot under the slot's lock and interleaved step by step, make a run of the capacity system |
| PairLocks.InterleavedRunsAreSafe | psxrecomp.broken.bak/tools/compile_overlays.py:4887-4998 | over every such interleaving, any process dying at any step, no slot shows mixed halves, and when all publishers are capacity-checked every limit is kept |
| PairLocks.LockIsNeeded | psxrecomp.broken.bak/tools/compile_overlays.py:4829-4996 | from every clean slot and staged pair: a publisher up to its last rename, another process running the whole recovery, and then that rename leave the new DLL beside the old manifest |
| CacheRuns.ScanIsStable | psxrecomp.broken.bak/tools/compile_overlays.py:4937-4958 | while a publisher scans a namespace without journals under the capacity lock, recoveries by others change nothing that it reads or counts |
| Crc32.ByteStepBijective | psxrecomp.broken.bak/host/psxrecomp_codegen_host.c:1166-1168 | for each fixed input byte the byte step is a bijection on 32-bit states, with an explicit two-sided inverse |
| Crc32.BitLoopIsStandard | psxrecomp.broken.bak/host/psxrecomp_codegen_host.c:1165-1169 | the bit loop computes what the table-driven form of section 8 of RFC 1952 computes, on every input |
| Crc32.CrcIsChecksum | psxrecomp.broken.bak/host/psxrecomp_codegen_host.c:1162-1171 | complemented and mirrored, the checksum is the remainder, by the generator whose exponents ITU-T V.42 lists, of the bytes as a polynomial over the field of two elements, 32 zeros behind it and the complemented previous checksum in front |
| Crc32.ChecksumIsUnique | psxrecomp.broken.bak/host/psxrecomp_codegen_host.c:1162-1171 | there is only one such checksum, so nothing else about the loop can differ from the standard |
| Crc32.WindowIsDetected | psxrecomp.broken.bak/host/psxrecomp_codegen_host.c:1162-1171 | two inputs of one length that differ only inside a four-byte window have different checksums, from every previous checksum |
| Crc32.CrcChains | psxrecomp.broken.bak/tools/compile_overlays.py:2363-2373 | chaining the checksum from range to range is the checksum of the concatenated bytes |
| Crc32.HostCrc32 | psxrecomp.broken.bak/host/psxrecomp_codegen_host.c:1162-1171 | the nested loops over a buffer return the one number below 2^32 that is the standard's remainder of its bytes |
| FuncIds.HashRanges | psxrecomp.broken.bak/tools/compile_overlays.py:2363-2373 | succeeds exactly when every range lies in the image, and then returns the checksum of the concatenated guarded bytes; a negative length slices as it does in the source |
| FuncIds.ParseOverlayFuncIds | psxrecomp.broken.bak/tools/compile_overlays.py:2315-2379 | the line-by-line reader and its final hashing produce exactly the identities of the hashable drafts in order |
| FuncIds.AuditFuncIdDelaySlots | psxrecomp.broken.bak/tools/compile_overlays.py:2398-2447 | the audit is empty exactly when every control transfer inside an identity's ranges has a plain delay slot inside them, and every reported error is genuine |
| FuncIds.CurrentVariantFuncIds | psxrecomp.broken.bak/tools/compile_overlays.py:2733-2752 | keeps, in order, exactly the identities whose bytes hash as recorded and that pass the audit |
| FuncIds.RetentionByGuardedBytes | psxrecomp.broken.bak/tools/compile_overlays.py:2733-2752 | whether an identity is kept is the same on any two images that agree on its ranges |
| FuncIds.ParsedIdentityIsKept | psxrecomp.broken.bak/tools/compile_overlays.py:2315-2379 | an identity computed on one image and audited is kept on every image that agrees on its ranges |
| FuncIds.ChangedGuardIsDropped | psxrecomp.broken.bak/tools/compile_overlays.py:2733-2752 | an image whose guarded bytes differ inside one four-byte window loses the identity |
| FuncIds.KeptGuardsDelaySlots | psxrecomp.broken.bak/tools/compile_overlays.py:2398-2447 | every control transfer of a kept identity has its delay slot inside the guarded ranges |
| FuncIdLaws.DraftsExactly | psxrecomp.broken.bak/tools/compile_overlays.py:2335-2359 | one draft for each entry line in the overlay, in order, with the ranges of the lines up to the next entry line |
| FuncIdLaws.RangeBytesExactly | psxrecomp.broken.bak/tools/compile_overlays.py:2366-2370 | a range is hashed byte for byte from the image at its physical address, and one of negative length as Python slices it |
| FuncIdLaws.AuditedExactly | psxrecomp.broken.bak/tools/compile_overlays.py:2398-2447 | an identity passes if and only if it has at most sixteen ranges of whole words in the capture, no reserved branch, and behind every transfer a word of one range that is no transfer |
| FuncIdLaws.KeptExactly | psxrecomp.broken.bak/tools/compile_overlays.py:2733-2752 | an identity is kept if and only if it passes that audit and its bytes hash to the recorded 32 bits |
| Manifest.ParseRuntimeShardManifest | psxrecomp.broken.bak/tools/compile_overlays.py:2574-2645 | the imperative parser computes the specification parser, and accepts exactly when it returns functions |
| ManifestRoundTrip.ParseOfPrint | psxrecomp.broken.bak/tools/compile_overlays.py:2450-2471 | for identities meeting the runtime contract, parsing the printed manifest returns the pair id and the identities with canonical range starts |
| ManifestRoundTrip.ProvenanceOfPrint | psxrecomp.broken.bak/tools/compile_overlays.py:454-474 | the provenance that was written is the one that is read back, and none is invented |
| ManifestRoundTrip.AcceptedIsRepresentable | psxrecomp.broken.bak/tools/compile_overlays.py:2574-2645 | every accepted text describes unique canonical entries, each within one to sixteen in-RAM ranges |
| ManifestRoundTrip.RewriteOfAccepted | psxrecomp.broken.bak/tools/compile_overlays.py:2450-2645 | rewriting an accepted manifest and reading it again changes only the spelling of range starts |
| ManifestGrammar.ParseExactly | psxrecomp.broken.bak/tools/compile_overlays.py:2574-2645 | the whole reader from the characters: the lines of a text without NUL, their words between blanks, the effect of each record, and what the runtime can use, every bound as a number |
| ManifestGrammar.WordsExactly | psxrecomp.broken.bak/tools/compile_overlays.py:2601-2603 | a line has one reading as words apart by spaces, tabs, carriage returns, vertical tabs and form feeds, and the reader finds it |
| ManifestGrammar.ProvenanceExactly | psxrecomp.broken.bak/tools/compile_overlays.py:454-476 | a manifest has one of the two known provenances if and only if a single line of it declares anything, and declares that |
| Machine.FrameRule | psxrecomp.broken.bak/tools/compile_overlays.py:972-994 | no instruction changes a register that the write test does not admit, the exactly modelled opcodes included |
| MipsLaws.ClassifiedByCondition | psxrecomp.broken.bak/tools/compile_overlays.py:685-722 | a conditional branch is classified as a jump, or a call if it links, when its condition holds whatever the registers hold, as the fall-through when it never holds, and as a branch otherwise; conditions are those of the processor on two's complement numbers |
| MipsLaws.FieldsReadBack | psxrecomp.broken.bak/tools/compile_overlays.py:685-697 | the fields put into a word are the fields read from it |
| MipsLaws.OffsetReadsBack | psxrecomp.broken.bak/tools/compile_overlays.py:678-682 | an offset in two's complement is where the branch goes, in words from its delay slot |
| MipsLaws.JumpStaysInRegion | psxrecomp.broken.bak/tools/compile_overlays.py:674-675 | a jump replaces the low 28 bits of its delay slot's address |
| MipsLaws.KindsAgree | psxrecomp.broken.bak/tools/compile_overlays.py:2382-2395 | the supported transfers are the valid words that transfer control, coprocessor branches apart, and the reserved ones are the other transfers |
| Machine.OrUpper | psxrecomp.broken.bak/tools/compile_overlays.py:1043-1048 | or-ing a 16-bit low half into an upper half adds it |
| ConstantTransfer.OnePair | psxrecomp.broken.bak/tools/compile_overlays.py:997-1048 | a register has at most one defining pair before a transfer, so the resolved constant is determined |
| ConstantTransfer.ResolveConstantTransfer | psxrecomp.broken.bak/tools/compile_overlays.py:997-1052 | returns the value of the nearest definition within sixteen words when its guards hold, and nothing exactly when there is no such guarded definition |
| ConstantTransfer.ArrivesWithConstant | psxrecomp.broken.bak/tools/compile_overlays.py:997-1052 | on every machine run that starts outside the words after the lui, the register holds the returned constant whenever the transfer is reached, if only the edges the resolver does not look at do not land there |
| ConstantTransfer.SealedArrivesWithConstant | psxrecomp.broken.bak/tools/compile_overlays.py:997-1052 | the same when no direct edge of any listed address leads behind the lui and no branch skips the lui: only register jumps and unlisted code are asked to stay out |
| ConstantTransfer.SealedExactly | psxrecomp.broken.bak/tools/compile_overlays.py:997-1052 | for a register jump and edges that can be taken whatever the register holds, behind delay slots that leave it open: the returned constant is right on every run if and only if no edge of the listing, looked at or not, leads behind the lui and no branch skips it |
| ConstantTransfer.LaterEdgeBreaksConstant | psxrecomp.broken.bak/tools/compile_overlays.py:1027-1042 | a concrete image, one of those of SealedExactly: a jump from behind the transfer that lands after the lui is not looked at, and a run reaches the transfer with another value |
| JumpTable.CaseReachable | psxrecomp.broken.bak/tools/compile_overlays.py:884-918 | ends, for the 2048 addresses left and then the worklist shrink, with exactly the case addresses of the bounded breadth-first walk |
| JumpTable.CasesAreReachable | psxrecomp.broken.bak/tools/compile_overlays.py:884-918 | everything that walk marks is reachable from the table's targets along case edges |
| JumpTable.HasNoStray | psxrecomp.broken.bak/tools/compile_overlays.py:920-928 | decides whether some direct edge enters the protected suffix from neither the suffix nor a case |
| JumpTable.FindJumpTableTargets | psxrecomp.broken.bak/tools/compile_overlays.py:726-938 | returns the addresses in the table exactly when the suffix, the constant, the straight line, the table and the inbound edges all check out, and otherwise nothing |
| JumpTableWords.RecognisedExactly | psxrecomp.broken.bak/tools/compile_overlays.py:726-881 | a switch is recognised if and only if its words, field by field, are the canonical dispatch with one to 511 entries, the table's address is written by the nearest lui and addiu within 32 words, the line is straight, and every entry is an aligned address of the function and producer with a valid word |
| JumpTableWords.AnswerIsExact | psxrecomp.broken.bak/tools/compile_overlays.py:726-938 | an address is returned if and only if there is such a switch in the words, its table holds the address, and no listed word but the line's own and the cases' transfers control behind the lui |
| JumpTableWords.NothingElseIsAnswered | psxrecomp.broken.bak/tools/compile_overlays.py:726-938 | where there is no such switch in the words there is no answer |
| JumpTableWords.CasesAreClosed | psxrecomp.broken.bak/tools/compile_overlays.py:884-918 | what counts as the cases' own words: a case walk that marks fewer than 2048 addresses has followed every edge, kind by kind, and marked nothing else but delay slots |
| JumpTable.TargetsAreChecked | psxrecomp.broken.bak/tools/compile_overlays.py:884-938 | every returned target is in the table of a recognised switch into whose suffix no direct edge leads from outside it and its cases |
| JumpTableSoundness.FallThroughStaysInTable | psxrecomp.broken.bak/tools/compile_overlays.py:726-938 | every execution from the constant's lui that falls through the bounds branch reaches the jr with a value of the returned set, unless guard and index are one register over a one-entry table |
| JumpTableLoops.DispatchStaysInTable | psxrecomp.broken.bak/tools/compile_overlays.py:726-938 | the same for every machine run, however often it loops through the rejected edge or through cases, when the guard guards, the suffix hands on the registers its loops rely on and the loops keep them; all of that is a condition on the program, and only register jumps and code outside the function are asked to respect suffix and loops |
| JumpTableCases.CaseLoopExactly | psxrecomp.broken.bak/tools/compile_overlays.py:881-938 | a case whose straight block of open words and steps of the table register jumps back to the check, where steps that do not cancel show on the second pass: the dispatch is sound if and only if the block leaves the address of the table where it was, or the check rejects every index that the dispatch of that case leaves |
| JumpTableExactness.GuardedExactly | psxrecomp.broken.bak/tools/compile_overlays.py:795-819 | the dispatch of an accepted switch is sound if and only if its bounds check guards it: a shared guard needs two entries, a separate guard must not be rejected into the branch's own delay slot |
| JumpTableExamples.SharedGuardExample | psxrecomp.broken.bak/tools/compile_overlays.py:795-808 | a concrete accepted one-entry switch with a shared guard whose dispatch leaves the table |
| JumpTableExamples.RejectedSlotExample | psxrecomp.broken.bak/tools/compile_overlays.py:809-819 | a concrete accepted switch whose rejected edge is its own delay slot and whose dispatch leaves the table |
| JumpTableExamples.RedefinedTableExample | psxrecomp.broken.bak/tools/compile_overlays.py:816-865 | a concrete accepted switch, one of those of RepeatedExactly, whose rejected edge repeats the addiu, and a run from the lui that reaches the jr with a word outside the table |
| JumpTableRepeats.HarmlessIsSound | psxrecomp.broken.bak/tools/compile_overlays.py:816-865 | a rejected edge that repeats the definition keeps the dispatch sound when the definition gives the same address again (its upper half is another register that the repeated words leave alone, or it adds zero) or the repeated words leave the index as it was, their steps cancelling |
| JumpTableRepeats.RepeatedExactly | psxrecomp.broken.bak/tools/compile_overlays.py:816-865 | for repeated words that are open or step the index, the definition apart, that is also necessary: otherwise an execution reaches the jr with a word outside the table |
| JumpTableLoopExamples.CaseClobbersExample | psxrecomp.broken.bak/tools/compile_overlays.py:881-938 | a concrete accepted switch, one of those of CaseLoopExactly, whose case adds to the table register and loops back, and a run from the lui that reaches the jr a second time with a word outside the table |
| JumpTableLoopExamples.CaseLoopExample | psxrecomp.broken.bak/tools/compile_overlays.py:881-938 | the same switch with a case that does not write the table register keeps every run in the table |
| OverlayWalk.PlausibleCallableTarget | psxrecomp.broken.bak/tools/compile_overlays.py:1055-1131 | ends, for the address bound and then the worklist shrink, and answers exactly whether the probe runs out of work below its bound with a return seen |
| OverlayWalk.PlausibleIsSealed | psxrecomp.broken.bak/tools/compile_overlays.py:1055-1131 | a plausible target has a bounded body of valid words, closed kind by kind under falling through, branching inside the probe and coming back from calls, whose delay slots are in it, with a return in it |
| WalkTerms.EnclosedIsPlausible | psxrecomp.broken.bak/tools/compile_overlays.py:1055-1131 | the converse where nothing leads into delay slots: if the first word is valid, not a nop and no pointer table, and all that control reaches within the cap is at most 2047 sane words with their slots and a return among them, the target is plausible |
| WalkTerms.BoundaryExactly | psxrecomp.broken.bak/tools/compile_overlays.py:941-952 | what may begin a function, by the words: the start of the capture, two words behind a jr ra, or an addiu sp, sp with a negative immediate in no delay slot |
| WalkTerms.CallableExactly | psxrecomp.broken.bak/tools/compile_overlays.py:1168-1204 | a call is accepted if and only if its target is no pointer table and there are no producers, or both ends are in one, or crossing is allowed between two and the target is a boundary or plausible |
| WalkTerms.FunctionExactly | psxrecomp.broken.bak/tools/compile_overlays.py:1161-1166 | what belongs to a function: aligned addresses of the capture from its entry to its cap, in the first producer that has its entry |
| OverlayWalk.VisitAddress | psxrecomp.broken.bak/tools/compile_overlays.py:1246-1290 | the calls, register targets and switch cases of one instruction, a constant before a switch and a tail call only out of the function |
| OverlayWalk.WalkOverlayFunction | psxrecomp.broken.bak/tools/compile_overlays.py:1134-1306 | ends, for the unvisited window and then the worklist shrink, with the walk that WalkIsExact, WalkIsClosed and CallsAreFound describe |
| OverlayWalk.WalkIsExact | psxrecomp.broken.bak/tools/compile_overlays.py:1134-1306 | every walk stays in its window, visits nothing unreached, and records a call, constant target, switch case, branch or branch out if and only if an expanded instruction has it |
| OverlayWalk.WalkIsClosed | psxrecomp.broken.bak/tools/compile_overlays.py:1212-1245 | for every kind of instruction: what an expanded word falls through to, branches or jumps to, or switches to is visited, wherever it is a word of the function; so is every delay slot, and nothing else is visited |
| OverlayWalk.WalkIsComplete | psxrecomp.broken.bak/tools/compile_overlays.py:1134-1306 | so if no edge leads into a delay slot, every address that the flow graph of the function reaches from its entry is visited |
| OverlayWalk.CallsAreFound | psxrecomp.broken.bak/tools/compile_overlays.py:1168-1306 | the converse of CallsAreJustified where calls are free: every such callee of an expanded jal or constant register call is found, each as what it is |
| OverlayWalk.CallsAreJustified | psxrecomp.broken.bak/tools/compile_overlays.py:1168-1306 | every call a walk finds, by jal or by a register, has a callee that is no pointer table; one in another producer than the walked function is found only where calls may cross, and is then a function boundary or has a bounded body within its own producer that returns |
| SeedAdmission.Admit | psxrecomp.broken.bak/tools/compile_overlays.py:1500-1532 | after all evidence sets and aliases each address is included exactly when the precedence of its evidence gives a reason, and for that reason |
| SeedTerms.AdmissibleExactly | psxrecomp.broken.bak/tools/compile_overlays.py:1336-1410 | the captures that are classified at all: producers inside the capture, none before its predecessor ends, exports among the dispatches, and aliases aligned with their start, entry and last byte in one producer |
| SeedTerms.InitialExactly | psxrecomp.broken.bak/tools/compile_overlays.py:1439-1532 | the reason the capture gives an address, spelled out over its evidence sets, raw words, case labels and the probe, from the strongest evidence down |
| SeedTerms.LabelExactly | psxrecomp.broken.bak/tools/compile_overlays.py:1426-1437 | a case label is in the table of a switch that a walk of the captured roots meets, each cut at the next |
| SeedAdmission.WalkIsBounded | psxrecomp.broken.bak/tools/compile_overlays.py:1161-1166 | a walk stays between its entry and its hard cap, and every call target it finds is one a root may have |
| SeedAdmission.BodiesDisjoint | psxrecomp.broken.bak/tools/compile_overlays.py:1696-1711 | walks of distinct roots, each cut at the next root, have disjoint bodies |
| SeedOwnership.DeriveReasons | psxrecomp.broken.bak/tools/compile_overlays.py:1594-1639 | the loop over the walks of one round gives exactly the merged reasons, direct calls outranking earlier ones and the rest filling gaps |
| SeedOwnership.RoundIsExact | psxrecomp.broken.bak/tools/compile_overlays.py:1594-1639 | a round derives a target if and only if it is new and unsuppressed and some walk of the partition calls it directly, has it as a constant target, or branches forwards to it from a root of strong evidence that vouches for it; the reason is that of a walk that has it so, and it is a direct call exactly when some walk calls it |
| SeedOwnership.UncoverAll | psxrecomp.broken.bak/tools/compile_overlays.py:1641-1657 | the derived roots are considered in order and each is dropped when the walk of the root just below it covers it |
| SeedOwnership.NormalisedExactly | psxrecomp.broken.bak/tools/compile_overlays.py:1641-1657 | independent of that order: a derived root is missing if and only if the next root left below it, walked to the next root that was above it, covers it; no other root is missing |
| SeedOwnership.DiscoverRoots | psxrecomp.broken.bak/tools/compile_overlays.py:1552-1662 | the non-monotone fixed point ends, for the suppression passes left and then the rounds left shrink, in the partition, suppressions and passes of its round function, the position table of seen states included |
| SeedOwnership.DiscoverEnds | psxrecomp.broken.bak/tools/compile_overlays.py:1552-1662 | its result is a partition of initial, promoted and derived owned roots that one more round leaves as it is, or the explicit roots alone; suppressions only grow and stay within 64 passes |
| SeedOwnership.SettledRoundsStand | psxrecomp.broken.bak/tools/compile_overlays.py:1552-1662 | when the rounds come to stand before they repeat an earlier state, within 64 of them, the discovery is where they stand: nothing is suppressed or given up on the way |
| SeedOwnership.CyclesAreSuppressed | psxrecomp.broken.bak/tools/compile_overlays.py:1552-1592 | when they come back to an earlier state, exactly the addresses that are known or derived in some but not all states of the cycle, the kept ones apart, are suppressed and the discovery starts again |
| SeedOwnership.LongRoundsGiveUp | psxrecomp.broken.bak/tools/compile_overlays.py:1556-1592 | when 64 rounds neither settle nor come back to a state, the explicit roots stand |
| SeedTerms.VouchesExactly | psxrecomp.broken.bak/tools/compile_overlays.py:1626-1639 | a branch out of a body makes a root of its target exactly when that has a plausible body in the same producer, or where neither end has one |
| SeedClassifier.DiscoverAndPromote | psxrecomp.broken.bak/tools/compile_overlays.py:1546-1690 | the outer loop ends, for every promotion uses up an interior, and promotes the lowest orphan of each discovery in the kernel window |
| SeedClassifier.PromoteEnds | psxrecomp.broken.bak/tools/compile_overlays.py:1546-1690 | the last discovery has settled or fallen back, only valid captured interiors were promoted, and in the kernel window no valid interior is left uncovered |
| SeedClassifier.SettleDerived | psxrecomp.broken.bak/tools/compile_overlays.py:1718-1725 | each derived address ends as a root again, as an alias of its host, or nowhere, exactly by the final partition and the final bodies |
| SeedClassifier.FinalRoots | psxrecomp.broken.bak/tools/compile_overlays.py:1718-1730 | after settling, the included addresses that are not interiors are exactly the final partition, and every interior is covered |
| SeedClassifier.EmissionIsPartition | psxrecomp.broken.bak/tools/compile_overlays.py:1692-1730 | the emitted walk roots are exactly the final known set, each body is its root's walk, bodies are disjoint, and every emitted interior has a host body |
| SeedClassifier.CapturedRootsStay | psxrecomp.broken.bak/tools/compile_overlays.py:1537-1730 | every root that the capture gives is emitted as a root for the capture's own reason, whatever is derived or suppressed |
| SeedClassifier.EveryReasonAccounted | psxrecomp.broken.bak/tools/compile_overlays.py:1331-1730 | every emitted reason is the capture's, a promotion of a valid captured interior, or found by a walk of the emitted partition itself |
| SeedClassifier.DerivedAtEnd | psxrecomp.broken.bak/tools/compile_overlays.py:1594-1662 | when the discovery has settled, a target is derived if and only if a walk of the final partition calls it, has it as a constant target, or branches forwards to it as above; it is a direct call exactly when one of them calls it |
| SeedClassifier.CalleesAreEmitted | psxrecomp.broken.bak/tools/compile_overlays.py:1594-1730 | in a settled discovery every free callee of a jal or constant call in an emitted body is an emitted root, or lies in the walk of the root left just below it; a jal callee that is a root is emitted as a direct call |
| SeedClassifier.DerivedIsSettled | psxrecomp.broken.bak/tools/compile_overlays.py:1641-1730 | a derived target ends as a root, or is owned by the roots that are left and then an alias exactly where a body holds it |
| SeedClassifier.KernelInteriorsStay | psxrecomp.broken.bak/tools/compile_overlays.py:1664-1730 | in the kernel window a captured interior with a valid word is emitted, unless it was also derived and a root that is left owns it |
| SeedTerms.RejectedExactly | psxrecomp.broken.bak/tools/compile_overlays.py:1732-1742 | what the capture saw and is not emitted is a branch target exactly when a walk of the emitted partition leads to it or it is a case label, else merely observed when it was executed or seeded, else unknown |
| SeedTerms.BodiesExactly | psxrecomp.broken.bak/tools/compile_overlays.py:1692-1711 | the emitted bodies are what the walks visit, each from its root to the next emitted root or the end of the capture |
| SeedClassifier.ClassifyOverlaySeeds | psxrecomp.broken.bak/tools/compile_overlays.py:1331-1742 | refuses exactly the inadmissible captures, and otherwise returns the classification of the capture's evidence, fixed point, promotions and settling, which is well partitioned; every rejected candidate has its exact exclusion |
| GuardedBytes.CountGuardedBytes | psxrecomp.broken.bak/tools/compile_overlays.py:3073-3089 | the merge of sorted intervals counts exactly the distinct addresses of the union of all ranges |
| SiblingProofs.RecipientSiblingProofs | psxrecomp.broken.bak/tools/compile_overlays.py:3399-3434 | returns exactly the limit smallest distinct uncovered entries of the other recipes, and the truncation flag says whether there are more |
| SiblingProofs.CutKeepsWindow | psxrecomp.broken.bak/tools/compile_overlays.py:6093-6129 | cutting every sorted stream to the authority bound plus the limit leaves that window unchanged |
| HostedSelection.SweepTo | psxrecomp.broken.bak/tools/compile_overlays.py:3331-3338 | after the moving part of the sweep the active list is exactly the set of owner intervals that strictly contain the target |
| HostedSelection.SelectUncapped | psxrecomp.broken.bak/tools/compile_overlays.py:3264-3357 | before the caps a nominated target is selected exactly when one distinct eligible owner of its producer strictly contains it |
| HostedSelection.SelectHostedInteriorDemands | psxrecomp.broken.bak/tools/compile_overlays.py:3264-3368 | at most 4096 targets over at most 512 hosts; a target is selected with a host exactly when it is one of the 4096 lowest donor addresses, proven, aligned, in the capture, has that host as its only one, and the smaller selected targets leave room; a host has one range from its entry, local evidence in the order of the eight reasons, and does not end behind its own image |
| HostedSelection.HostsExactly | psxrecomp.broken.bak/tools/compile_overlays.py:3282-3314 | which identities may host, spelled out: one positive range from the entry, the first image that has it, an end not behind that image, and the strongest recorded reason |
| HostedBatches.Split | psxrecomp.broken.bak/tools/compile_overlays.py:3547-3552 | every host's targets are cut in order into pieces of 256 and a last one, without losing any |
| HostedBatches.GroupTargets | psxrecomp.broken.bak/tools/compile_overlays.py:3537-3552 | the groups are in the order of their keys, all but the last piece of a key hold 256 targets, the smaller before the larger, each in ascending order; they contain every target under its own key, and nothing under a key it was not asked for |
| HostedBatches.Chunk | psxrecomp.broken.bak/tools/compile_overlays.py:3554-3568 | consecutive groups are packed into requests within both caps with distinct hosts, nothing is lost or reordered, and a request ends only where the next group does not fit |
| HostedBatches.RemainingIsBatch | psxrecomp.broken.bak/tools/compile_overlays.py:3572-3582 | what is still wanted of a batch is a batch again, of exactly the wanted targets, and smaller when something was dropped |
| HostedBatches.RemainingBacked | psxrecomp.broken.bak/tools/compile_overlays.py:3576-3620 | what is retried keeps the keys under which it was asked for |
| HostedCompile.Session.Run | psxrecomp.broken.bak/tools/compile_overlays.py:3573-3642 | for every behaviour of the callbacks: all that is still needed of a batch goes into one request, unless the run is stopped or capped; what a success did not serve is requested again as one remainder; a failure is followed by its two halves of hosts, else of targets, else by a report; n targets cost at most 2n-1 compiles and every one of them ends |
| HostedCompile.CompileBatchedHostedAliases | psxrecomp.broken.bak/tools/compile_overlays.py:3523-3650 | the log of requests is what the callbacks said; it begins with the planned chunks, each request is followed by what its answer calls for, and its successes are counted; at most 2N-1 compiles for N targets and no more than the cap; every target ends, and none is reported or given up without its reason; a capped selection never reaches the cap, and without stops and refused splits every target of it is served, reported, left open by an answer that says nothing, or no longer needed |
| HostedCompile.CapIsBudget | psxrecomp.broken.bak/tools/compile_overlays.py:423-429 | the attempt cap is exactly the budget of a full selection |
| CompactRegion.ReadField | psxrecomp.broken.bak/tools/coverage_vault.py:178-194 | the loop over a field's values keeps the fitting addresses in order or stops at the first error, collecting exactly their pages |
| CompactRegion.GroupPages | psxrecomp.broken.bak/tools/coverage_vault.py:198-219 | the loop with first and previous page produces the maximal runs of consecutive pages |
| CompactRegion.BlocksCover | psxrecomp.broken.bak/tools/coverage_vault.py:198-219 | the runs cover exactly the retained pages and are separated by at least one page |
| CompactRegion.CompactCapture | psxrecomp.broken.bak/tools/coverage_vault.py:140-217 | the loops return the specified runs or the first error, and kept plus dropped entries are all entries |
| CompactionLaws.CompactedExactly | psxrecomp.broken.bak/tools/coverage_vault.py:140-194 | a capture is compacted if and only if it has an address, bytes of the given size that end within RAM, and lists of acceptable values in its five fields |
| CompactionLaws.EvidenceRead | psxrecomp.broken.bak/tools/coverage_vault.py:168-194 | what is kept of a field is exactly the addresses in it that are words of the capture, through every mirror of RAM |
| CompactionLaws.ItemsKept | psxrecomp.broken.bak/tools/coverage_vault.py:178-194 | a field is accepted exactly when every value is an address that fits or may be dropped, and exactly the fitting ones are kept |
| CompactionLaws.NothingLost | psxrecomp.broken.bak/tools/coverage_vault.py:191-220 | every accepted evidence address is in its field in exactly one run, and no run has any other |
| CompactionLaws.SameBytes | psxrecomp.broken.bak/tools/coverage_vault.py:205-213 | every byte of a run is the source's byte at the same guest address |
| CompactionLaws.RunsAreExact | psxrecomp.broken.bak/tools/coverage_vault.py:196-216 | a byte of the capture is in some run if and only if its page of 4096 bytes has evidence, or the page four bytes before it has |
| CompactionLaws.RunKeeps | psxrecomp.broken.bak/tools/coverage_vault.py:207-217 | a run keeps every other key of the capture, gives the size of its bytes, and lists all five evidence fields in ascending order |
| CompactionLaws.PageAndDelaySlotKept | psxrecomp.broken.bak/tools/coverage_vault.py:205-206 | all of a retained page that the image has, and the word after it, lies in one run |
| CompactionLaws.FixedExactly | psxrecomp.broken.bak/tools/coverage_vault.py:140-217 | compacting an output run returns just that run if and only if its load address and evidence addresses are not negative |
| JsonObject.ObjectExtends | psxrecomp.broken.bak/tools/coverage_vault.py:126-133 | an object decoded from a buffer is the object decoded from every longer buffer |
| JsonObject.ObjectShrinks | psxrecomp.broken.bak/tools/coverage_vault.py:126-133 | an object is decoded as soon as all of it is in the buffer |
| JsonTree.ObjectIsScanned | psxrecomp.broken.bak/tools/coverage_vault.py:126-133 | any spacing of any JSON object is scanned as one object up to its closing brace, whatever follows |
| JsonScan.ScannerIsGrammar | psxrecomp.broken.bak/tools/coverage_vault.py:126-133 | the scanner ends behind the first n characters if and only if they print a JSON object |
| JsonArray.Reader.SkipBlanks | psxrecomp.broken.bak/tools/coverage_vault.py:106-111 | filling until the stripped buffer is non-empty strips the remaining text and loses nothing |
| JsonArray.Reader.DecodeObject | psxrecomp.broken.bak/tools/coverage_vault.py:126-133 | retrying the decoder while filling finds exactly the object the remaining text starts with |
| JsonArray.IterJsonArray | psxrecomp.broken.bak/tools/coverage_vault.py:77-138 | for every chunk size of at least one and every verdict of the decoder on other values, the objects and the acceptance are those of one whole-text read |
| JsonGrammar.GrammarIsRead | psxrecomp.broken.bak/tools/coverage_vault.py:77-138 | every array of section 5 of RFC 8259 over objects, blanks and one optional trailing comma included, is accepted with its objects in order |
| JsonGrammar.ReadIsGrammar | psxrecomp.broken.bak/tools/coverage_vault.py:77-138 | every accepted text is such an array over exactly the yielded objects |
| JsonGrammar.AcceptedExactly | psxrecomp.broken.bak/tools/coverage_vault.py:77-138 | a text is accepted with given objects if and only if it is an array in which they stand in order, each of them a JSON object of the grammar down to its characters |

## Left out

- CacheRuns.CapacityHoldsOverRuns: covers capacity-checked publishers, every offer of theirs included under the exact condition of `AdmissionExactly`; the source does not bound publishers without a cap, and a run with one is covered by `NoMixedHalvesOverRuns` only.
- CachePublication.PublishShardPair: the per-pair recovery that inventory loading also tries, transient read errors of the digest, case-insensitive file names and the rejection-witness cache, which only defers coverage, are not modelled.
- ConstantTransfer.ArrivesWithConstant: assumes of the run that unchecked edges do not land behind the `lui`; `SealedArrivesWithConstant` asks that only of register jumps and unlisted code, whose targets the resolver cannot know.
- ConstantTransfer.SealedExactly: leaves out edges into the line that branch on the register being zero, whose delay slot sets the register to a value of its own or holds a transfer, or whose target is misaligned; there the values decide.
- JumpTableLoops.DispatchStaysInTable: its converse is out of reach for whole functions: a write may store the value that is there already, a branch may never be taken, and both are undecidable from the listing. The exact conditions are those of `CaseLoopExactly` and `RepeatedExactly`. The code bytes do not change while the run lasts.
- JumpTableCases.CaseLoopExactly: leaves out blocks with other words of exact semantics, words of that kind between the landing and the check, and aligned steps over a table of several entries in a loop that keeps its index, where it depends on the table how often the case comes round again. The index register is neither the guard nor the table register, and the dispatch itself does not overwrite the table register.
- JumpTableRepeats.RepeatedExactly: the necessary half leaves out repeated words with exact semantics other than the definition and steps of the index; there the values decide, case by case. Index, guard, upper half and table register are told apart.
- OverlayWalk.WalkOverlayFunction: visits what the source visits; that is not all reachable code, since a delay slot is marked without being expanded and a later branch to it is not followed. Sets of switch targets are queued in ascending order, which the source leaves open.
- SeedOwnership.DeriveReasons: a target that is found both by a constant and by a branch keeps the reason of the first walk, which `RoundIsExact` does not single out.
- SeedAdmission.Admit: exclusions given before the final pass are not stated, for that pass decides every candidate that is not included.
- SeedClassifier.ClassifyOverlaySeeds: the printed seed lines, the audit dictionary, call continuations, accepted and rejected cross-producer calls and the warnings are not modelled; producer ranges are given sorted.
- FuncIds.ParseOverlayFuncIds: lines of the recompiler's manifest arrive as tokens, not as text; an image's size is the length of its bytes.
- HostedSelection.SelectHostedInteriorDemands: donor addresses are given in canonical form, and the rejection counters are not modelled.
- HostedBatches.GroupTargets: a group key's owner is the rank of its identity and reason in the source's sort order.
- HostedCompile.CompileBatchedHostedAliases: a target asked for in two spellings under two hosts stands under both keys in a request, where the source's request keeps the later one; the text of a failure is not modelled, and should_bisect does not see it.
- SiblingProofs.CutKeepsWindow: states the window, not the truncation flag, which the cut may change.
- CompactRegion.CompactCapture: base64 text is its bytes, an address text is its number, and the sorted texts of a field are in numeric order, which is their text order up to eight hexadecimal digits.
- JsonArray.IterJsonArray: a yielded object is its text; the kinds of rejection are one rejection.
- Process spawning, compilers, DLL loading, sockets, file locks and file I/O: a lock is an atomic resource, a DLL an opaque value with its ABI, pair id and exports.
- Rewriting, auditing and emitting of generated C: text surgery over an emitter that is not part of this model.
- The merging of vault captures: a plain union.
- The launcher and setup host apart from the checksum, the command-line front ends, co-simulation, audio, memory-card, debugger and symbol tools: user interface, clients or thin glue.
