# Verified model of the analysis server's core

This project models, in Dafny, the parts of the reverse-engineering server whose correctness does not
show from reading one function: how code is split into functions, how unwind records are decoded, how
decompiled text is lexed and scored, how edits are journaled, undone and recovered, how open jobs,
commits and paged reads behave when calls interleave, and how the on-disk caches survive a crash.

Each component has its own file and module. Code that changes state in the program is a class whose
methods are proved against a specification function or invariant; the protocols that several threads
share are state machines whose steps are the lock regions (or file operations) of the program, and the
theorems quantify over every sequence of steps.

| file | what it models |
|---|---|
| `Prelude.dfy`, `Decimals.dfy`, `Sorting.dfy` | machine words and ordered sets, decimal numerals, sorting by a preorder |
| `AddressSpace.dfy`, `CodeIndex.dfy`, `IndexBuilder.dfy` | sections, the sorted instruction index, the linear sweep that builds it |
| `Functions.dfy`, `Predecessors.dfy` | blocks and edges and exactly where a block goes, predecessor lists |
| `Worklists.dfy`, `Discovery.dfy` | what discovery computes as a function of the code, and the class that computes it: recursive descent with its two reseeding passes |
| `TailCalls.dfy`, `Origins.dfy` | that no jump takes a seed away from its own function, and where functions come from |
| `Carving.dfy`, `DiscoveryWitnesses.dfy` | exactly what a carve breaks, and code for which discovery ends up broken |
| `Indirect.dfy`, `Pointers.dfy`, `Cfg.dfy` | jump tables and calls through pointers, what they mean for the bytes of the image, and the recovery as a whole |
| `Unwind.dfy`, `UnwindFormat.dfy`, `UnwindKernel.dfy` | AMD64 unwind records, the table of their operations, and what their parsing ignores |
| `RuntimeFunctions.dfy`, `PeHeaders.dfy` | the function table that refers to them, and images written from their headers |
| `Instructions.dfy` | what index and records say of the code they were made from |
| `Lexer.dfy`, `Grammar.dfy`, `Pseudocode.dfy`, `Scorecard.dfy`, `Matching.dfy`, `Scoring.dfy`, `CallNames.dfy` | the C-like lexer, bracket matching, call extraction, call matching, the score, matching over the calls of whole texts |
| `FactHits.dfy`, `Expectations.dfy` | when each fact of a report is a hit, said of the text; alias lists, ratios and extras |
| `Ops.dfy`, `Edits.dfy`, `Undo.dfy`, `Slots.dfy` | reversible operations, what each leaves field by field, when undo restores, what it leaves alone |
| `Leaves.dfy`, `Restores.dfy`, `Repeats.dfy`, `Batches.dfy` | lists of single operations: what undoing them leaves in each field, what doing them again gives, and whole batches by these |
| `Session.dfy`, `Histories.dfy`, `Clients.dfy`, `Stacks.dfy` | one client's timeline, any number of undos and redos, undo among several clients, and their histories side by side |
| `Recovery.dfy`, `Writer.dfy` | snapshot and journal, the single writer and its checkpoints |
| `DecompileCache.dfy`, `DecompileService.dfy`, `DecompileRuns.dfy` | the artifact cache, requests, edits and workers around it, and requests taken to their end |
| `OpenJobs.dfy`, `JobReports.dfy` | target-open jobs, and what becomes of each |
| `Commits.dfy`, `CommitRaces.dfy`, `Artifacts.dfy` | revision-guarded commits and overlapping ones, paged artifacts and cursors |
| `StructuralCache.dfy`, `CompactIndex.dfy` | checksummed cache partitions and the streamed deep index |

## Where the code does less than it seems to

These are results: the model keeps what the code does. Each entry names the lemma that gives the exact
condition and, where it is another, the one that gives an input for which the code falls short.

- Replaying the journal stamps aliases and function-memory cards one lower than the live run did, so a
  reopened project equals the live one exactly when nothing was stamped after the last snapshot
  (`Recovery.LoweredIff`; `Recovery.ReplayStampsLower`).
- The checkpoint counts the turns of one session, not the records on disk. Fewer than 256 records are left
  to replay (appends and snapshots succeeding) exactly when the session reached a checkpoint or what it found and what it logged are fewer
  (`Writer.RunTailIff`); sessions that crash before a checkpoint add up (`Writer.CrashesAddUp`), and two
  crashes after 200 edits each leave 400 (`Writer.TailOutgrowsCheckpoint`).
- Undoing an operation restores the project exactly when there was an old value to go back to
  (`Undo.UndoIff`, `Session.UndoRestoresIff`); a first comment leaves an empty one behind
  (`Undo.FirstCommentStays`). A batch, nested or not, or a whole history of them, is undone exactly when each
  single operation in it had an old value in the project before all of them, those aside that write a
  signature which an earlier one replaced (`Batches.BatchUndoIff`, `Histories.AppliesUndoneIff`). So the
  pair that names and types a local is undone exactly when the variable was there with a name other than
  the empty one, or none (`Batches.NamedAndTyped`), and a first one is not.
- Undoing applications and redoing them gives the content back whatever they found; it gives the history
  back exactly when each single record has an old value or is a focus that nothing moved
  (`Histories.NewestRepeated`). After undoing and redoing a first comment its record says that an empty one
  was there (`Histories.FirstCommentIsRecaptured`). With an undo before them even the content can differ:
  undoing a parameter beyond a new signature leaves a placeholder, which undoing and redoing the signature
  drops (`Histories.RedoAfterUndoDiffers`).
- Undo writes back what its own client found, over whatever others wrote there since
  (`Clients.UndoOverwritesOthers`); other variables and parameters, also of the same function, stay
  (`Clients.VarUndoIsLocal`, `Clients.ParamUndoIsLocal`).
- Carving an exception filter out of the function that swallowed it can leave the table incomplete. One
  carve does no harm exactly when the owner keeps its entry, no removed block had an edge back, no
  surviving block flows to what was taken away and nothing recorded was taken away
  (`Carving.CarveCompleteIff`, with `Carving.CarveKeepsEntryBlock`, `Carving.TruncationAgrees`,
  `Carving.CarveFlowsIff` and `Carving.CarveAccountedIff` for each). The returned table is complete
  exactly when every function kept its entry and its predecessor lists and the filters claimed again what
  flow edges and recorded entries need (`Discovery.CompleteAgainIff`). For that it is enough, before the
  filters are discovered, that whatever else is flowed to or recorded was not taken away
  (`Discovery.HarmlessSuffices`), or that no filter was swallowed (`Discovery.DiscoverFunctions`). Six instructions for which discovery returns a dangling
  edge, a stale predecessor and a lost seed are in `DiscoveryWitnesses.CarvingLeavesDebris`, five for
  which a seeded function loses all its blocks in `DiscoveryWitnesses.CarvingEmptiesFunction`. The
  indirect passes repair the predecessor lists (`Cfg.Recover`).
- A block claims a foreign hard entry exactly when it ends in an indirect call directly before one
  (`Functions.ClaimsHardIff`), and then that entry may be no function: a call through a register and the
  entry after it are such code (`DiscoveryWitnesses.IndirectCallClaimsHardEntry`).
- A jump table whose first pointer leads to code is found exactly when 8 KiB of the file follow its start
  (`Indirect.PointerFoundIff`), so a table near the end of the image is skipped
  (`Indirect.SmallTableIsSkipped`).
- Greedy call matching is optimal for every list of calls exactly when of two expectations that share an
  alias the later accepts everything the earlier does (`Matching.GreedyOptimalIff`); otherwise some calls
  are matched worse than possible (`Matching.NotNestedMisses`, `Matching.GreedyCanMiss`). For the calls that
  texts have, the same holds of the aliases that are lower-case identifiers (`CallNames.TextOptimalIff`).
- The decompile cache keys on mode and fallback only (`DecompileCaches.LaneIff`), so a request can be
  answered with an artifact of another search budget (`DecompileService.BudgetIgnored`).
  A stored artifact has its key's version exactly when no edit was published between the request and the
  worker's read (`DecompileService.StoredVersionIff`, `DecompileService.KeyMayLag`).
- Building a deep index can delete the stream it has just installed: it stays exactly when it fits beside
  what cannot be removed, or cannot be removed itself (`CompactIndexes.LoadOrBuildCached`). An image of
  just over 16 MiB whose sections share their bytes is one that does not fit
  (`CompactIndexes.BuildCanPruneItself`).
- A data file of the deep index is a hit exactly when it has the length its manifest says
  (`CompactIndexes.HitIff`): overwritten with as many other bytes it is taken for the stream
  (`CompactIndexes.EqualLengthOverwriteHits`).
- Two callers that check for an open job before either inserts one open the same path twice
  (`OpenJobs.StartsRace`, `OpenJobs.InsertKeepsPathsIff`), and the job table outgrows its cap exactly while
  every job in it runs (`OpenJobs.GrowsPastCapIff`), as when 257 targets are opened before the first catalog
  is there (`OpenJobs.TableOutgrowsCap`).
- Committing another proposal under an idempotency key that was used before on the same target returns the
  earlier result and applies nothing (`Commits.KeyReuseSkips`).
- A proposal is applied twice exactly when two calls for it were in flight together, past their checks and
  not at the writer, and both reached it (`CommitRaces.AppliedOnceIff`, `CommitRaces.RacingCallsApplyTwice`).
- A commit whose journal append fails is refused and not remembered, and its edit stays in memory all the same
  (`Commits.LostEditRefused`).
- Reading an artifact with pages of one size completes exactly when none of its characters is wider than a
  page (`Artifacts.CompletesIff`).

The promotion's own check of the catalog bound is not what keeps bounded jobs from analysis. It suffices
when nothing comes in between (`OpenJobs.CheckSuffices`) and would not if a caller came to it without having
looked first (`OpenJobs.CheckAloneIsNotEnough`); no run has such a caller (`OpenJobs.BoundedNeverAnalysed`).

## Model

| member | source | states |
|---|---|---|
| AddressSpaces.AddressSpace.SectionAtVa | src/loader/address_space.rs:73-77 | the section found is the first in table order that holds the address, and none is found only when no section does |
| AddressSpaces.Section.ContainsIff | src/loader/address_space.rs:73-77 | a section holds exactly the addresses of its virtual size, the very last one of the address space excepted |
| AddressSpaces.AddressSpace.SliceForVa | src/loader/address_space.rs:112-116 | a slice is the image bytes the section maps there, and is missing exactly when the section does not back the address or the image ends before them |
| CodeIndexes.CodeIndex.Search | src/analysis/code_index.rs:68-83 | binary search over the sorted index: an exact hit, or the insertion point with everything below smaller and everything above larger |
| CodeIndexes.CodeIndex.AtVa | src/analysis/code_index.rs:64-72 | finds an instruction at exactly that address, or there is none |
| CodeIndexes.CodeIndex.IndexedLookup | src/analysis/code_index.rs:64-72 | looking up the address of any indexed instruction gives back that instruction and its position |
| CodeIndexes.CodeIndex.NextIsAdjacent | src/analysis/code_index.rs:26-28 | an instruction at the fallthrough address is the next element of the index |
| IndexBuilder.DecodeSection | src/analysis/code_index.rs:102-157 | appends exactly the linear sweep of the section's file-backed bytes |
| IndexBuilder.Build | src/analysis/code_index.rs:31-54 | the index is the sweep of exactly the executable sections, ascending by address, and it is searchable if and only if their decoded parts do not run into each other |
| IndexBuilder.ExecutableCounts | src/analysis/code_index.rs:30-33 | taken for the index are exactly the executable sections, each as often as the image lists it |
| IndexBuilder.SweepIff | src/analysis/code_index.rs:118-157 | a sweep is one contiguous run, well formed if and only if it ends inside the address space |
| IndexBuilder.JoinedIff | src/analysis/code_index.rs:42-50 | two runs form one index if and only if both are well formed and the first ends before the second begins |
| IndexBuilder.RunsIff | src/analysis/code_index.rs:31-54 | the sections together are well formed if and only if every decoded part ends before each later one begins |
| Instructions.IndexedBytes | src/analysis/code_index.rs:102-157 | an indexed instruction is what decodes at the file offset its address is mapped from, and reading the image at its address gives the bytes it was decoded from |
| Functions.RunIsSlice | src/analysis/functions.rs:478-511 | a block walk collects one contiguous, fallthrough-connected slice of the index |
| Functions.RunIsWindow | src/analysis/functions.rs:478-511 | reading the index back with the block's start and count gives exactly the instructions the walk decoded |
| Functions.DecodedLast | src/analysis/functions.rs:641-650 | a non-empty block's exit address is its last instruction, and its end is where that instruction ends |
| Functions.RunAvoidsHard | src/analysis/functions.rs:484-493 | no block runs past its first instruction into a hard entry of another function |
| Functions.RunStaysOff | src/analysis/functions.rs:478-505 | no instruction of a block belongs to another function, or past its start to a block decoded before |
| Functions.RunGoesOn | src/analysis/functions.rs:478-515 | and a walk ends in a control transfer, outside the index, or in front of such an instruction or another hard entry: it is as long as it can be |
| Functions.TerminatorMeaning | src/analysis/functions.rs:517-632 | the edges of a control transfer go exactly where the instruction can go, with the kinds the rules give |
| Functions.StopMeaning | src/analysis/functions.rs:483-505 | stopping short leaves at most one edge, to where the walk stopped |
| Functions.TerminatorFlowsIff | src/analysis/functions.rs:523-626 | judged by the entries recorded when it is decoded, a jump flows to its target if and only if that is code, not below the function and not a recorded entry other than its own; conditional branches and calls likewise, by hard entries |
| Functions.BlockFlowsIff | src/analysis/functions.rs:470-651 | a block flows to an address if and only if its last instruction can go there, or just runs on to it and it is neither another function's nor another hard entry |
| Functions.RunsIntoHardIff | src/analysis/functions.rs:484-493 | a block that runs on into another function's hard entry, and no other that runs on, ends in a tail call to it |
| Functions.DecodedBlockFaithful | src/analysis/functions.rs:470-651 | every decoded block is a window of the index and its edges say what its code does, none missing |
| Functions.EnteredClaims | src/analysis/functions.rs:672-684 | entering a block's edges claims exactly its unowned flow targets and queues exactly those |
| Functions.EnteredCalls | src/analysis/functions.rs:576-604 | entering a block's edges records exactly its new callees as function entries |
| Functions.FlowAvoidsHard | src/analysis/functions.rs:517-632 | with every hard entry recorded, no flow edge leads to a foreign hard entry unless an indirect call ends directly before one |
| Functions.ClaimsHardIff | src/analysis/functions.rs:517-632 | with every hard entry recorded, a block flows to a foreign one if and only if it ends in an indirect call directly before it |
| Functions.EdgesReachable | src/analysis/functions.rs:517-639 | every claimed or called target is a branch target or fallthrough of the index, which bounds both worklists |
| TailCalls.BlockClaims | src/analysis/functions.rs:517-632 | of the recorded entries a block claims only its function's own and those that an instruction other than a jump leads to |
| TailCalls.JumpsKeepSeeds | src/analysis/functions.rs:198-223 | through all three passes another function owns a seed only where a conditional branch leads to it or a call returns to it: no jump takes one |
| Origins.FunctionsGrounded | src/analysis/functions.rs:198-447 | no function without a reason: each starts in code, at a seed, at what a direct call goes to, behind padding, or where the stretch of an access-violation compare begins, pass by pass |
| Predecessors.ComputePredecessors | src/analysis/functions.rs:686-714 | each block gains exactly one predecessor entry per edge into it |
| Predecessors.RecomputePredecessors | src/analysis/functions.rs:84-112 | only predecessor lists change, and afterwards both edge lists agree |
| Predecessors.AllIntoCounts | src/analysis/functions.rs:686-714 | a block lists a predecessor edge exactly as often as the predecessor lists it as successor |
| Predecessors.RebuiltAgree | src/analysis/functions.rs:84-112 | rebuilding from empty lists makes predecessors and successors agree for every pair of blocks and every kind |
| Discovery.Discovery.constructor | src/analysis/functions.rs:204-211 | discovery starts with the seeds recorded and nothing owned |
| Discovery.Discovery.ClaimOrQueueBlock | src/analysis/functions.rs:672-684 | an unowned address is claimed and queued, an owned one changes nothing |
| Discovery.Discovery.EndBlock | src/analysis/functions.rs:517-632 | the terminator arms emit the specified edges and update ownership, queue, entries and worklist by exactly those edges |
| Discovery.Discovery.WalkBlock | src/analysis/functions.rs:478-515 | the decoding loop collects the specified straight run and stop edge |
| Discovery.Discovery.DecodeBlock | src/analysis/functions.rs:470-651 | decoding enters one block and updates all four tables by its edges |
| Discovery.Discovery.RewriteForeignEdges | src/analysis/functions.rs:450-456 | every non-zero edge below the entry becomes a tail call, call edges included, and nothing else changes |
| Discovery.Discovery.Descend | src/analysis/functions.rs:422-441 | the block worklist terminates with everything the function claimed decoded, and computes the specified descent |
| Discovery.Discovery.DiscoverFunction | src/analysis/functions.rs:407-468 | keeps the ownership partition, only adds, settles its entry, queues exactly the newly recorded entries, and adds the specified function |
| Discovery.Discovery.Drain | src/analysis/functions.rs:235-246 | the function worklist terminates with every recorded entry accounted for, in the specified state |
| Discovery.Discovery.Run | src/analysis/functions.rs:235-246 | the main pass ends partitioned, sound and complete, and keeps hard entries to themselves |
| Discovery.Discovery.GapCandidates | src/analysis/functions.rs:368-395 | collects exactly the unclaimed executable instructions behind padding |
| Discovery.Discovery.SeedInt3GapLeaves | src/analysis/functions.rs:368-405 | only adds, and afterwards every executable instruction behind padding belongs to a function |
| Discovery.Discovery.FilterCandidates | src/analysis/functions.rs:252-322 | lists in ascending order exactly the padded starts of code that compares with the access-violation code |
| Discovery.Discovery.Carve | src/analysis/functions.rs:323-347 | takes everything at or above the candidate away from the function that owned it |
| Discovery.Discovery.SeedAccessViolationFilterLeaves | src/analysis/functions.rs:252-366 | ends in the specified state with partition and readable blocks kept; the state is complete again if and only if carving harmed nothing that the filters did not make up for; always when the carved state is harmless, and when no filter was swallowed |
| Discovery.DiscoverFunctions | src/analysis/functions.rs:198-223 | all three passes, equal to the specified function of code and seeds: complete and gap-free before the carve-out; afterwards complete if and only if unharmed, complete whenever the carved state is harmless, and complete and gap-free whenever no filter was swallowed; every hard executable entry, and every executable seed only jumps lead to, its own function |
| Discovery.StartsAreDisjoint | src/analysis/functions.rs:204-223 | no two functions list the same block start |
| Discovery.EntryBlockFirst | src/analysis/functions.rs:443-449 | a function's first block starts at its entry |
| Discovery.FlowLeadsToBlock | src/analysis/functions.rs:407-468 | every flow edge of a function leads to one of its blocks or to an address another function owns |
| Discovery.EdgesBelow | src/analysis/functions.rs:450-456 | an edge of a finished function is a tail call if it leads below the entry, and otherwise means what it did when decoded |
| Discovery.HardEntriesAreFunctions | src/analysis/functions.rs:484-493 | every executable hard entry among the seeds is its own function |
| Discovery.NoBlockStartsAtHard | src/analysis/functions.rs:484-493 | no block of another function starts at a hard entry |
| Discovery.DescentStep | src/analysis/functions.rs:422-441 | decoding a queued block keeps the descent invariant and shrinks the lexicographic measure of unowned reachable addresses and queue |
| Discovery.DrainStep | src/analysis/functions.rs:235-246 | discovering one entry keeps the outer invariant and shrinks its measure |
| Discovery.FinishedSound | src/analysis/functions.rs:443-468 | the function built from a finished descent lists exactly what it owns from its entry on, with sound edges and agreeing predecessors |
| Discovery.FunctionAdded | src/analysis/functions.rs:457-468 | entering a finished function keeps the partition and everything discovered before |
| Discovery.SoundMonotone | src/analysis/functions.rs:407-468 | a finished function stays sound while discovery only adds |
| Discovery.FilterStartUnique | src/analysis/functions.rs:289-313 | the padded stretch an instruction belongs to has one start |
| Discovery.CarveKeepsPartition | src/analysis/functions.rs:323-347 | after a carve lists and ownership still agree and hard entries stay with their functions |
| Discovery.CompleteAgainIff | src/analysis/functions.rs:252-366 | after the filter pass the table is complete if and only if every function kept its entry and agreeing predecessors, its flow edges lead to owned addresses and every recorded entry is a function or owned |
| Discovery.HarmlessSuffices | src/analysis/functions.rs:252-366 | after the filter pass the table is complete if, judged before the filters are discovered, every function kept its entry and agreeing predecessors, every flow edge leads to an owned address or to a filter not recorded yet, and every recorded entry is a function or owned |
| Carving.CarveKeepsEntryBlock | src/analysis/functions.rs:323-347 | the carved function keeps its entry block if and only if the cut is above its entry |
| Carving.CarveAccountedIff | src/analysis/functions.rs:323-347 | a carve loses no recorded entry if and only if what it releases contains none that is not a function |
| Carving.CarveFlowsIff | src/analysis/functions.rs:323-347 | after a carve every flow edge leads to an owned address if and only if no surviving block flows to what is released |
| Carving.CarveCompleteIff | src/analysis/functions.rs:323-347 | one carve keeps a complete state complete if and only if the owner keeps its entry, nothing flows back or out and nothing recorded is released |
| Carving.TruncationAgrees | src/analysis/functions.rs:343-345 | after truncation predecessors still agree with successors if and only if no removed block had an edge into a kept one |
| Carving.NoneSwallowed | src/analysis/functions.rs:323-347 | once all filters are carved none belongs to another function, and carving gives nothing to anyone |
| Worklists.DescendedProgress | src/analysis/functions.rs:422-441 | a descent records only branch targets and fallthroughs of the code, each new one queued once, which is why the function worklist runs dry |
| DiscoveryWitnesses.CarvingLeavesDebris | src/analysis/functions.rs:252-366 | six instructions for which the returned table has a flow edge to an unowned address, a predecessor that is no block and an unaccounted seed |
| DiscoveryWitnesses.CarvingEmptiesFunction | src/analysis/functions.rs:323-347 | five instructions for which a seeded function ends up without blocks |
| DiscoveryWitnesses.IndirectCallClaimsHardEntry | src/analysis/functions.rs:612-626 | an indirect call directly before a hard entry claims it for its own function |
| Discovery.GapsClosed | src/analysis/functions.rs:368-405 | draining the padding candidates covers every gap and stays complete |
| Indirect.ReadPointerTable | src/analysis/indirect.rs:177-207 | the scanning loop reads the specified table |
| Indirect.PointerTableIff | src/analysis/indirect.rs:177-207 | with the scan window in the file the result is the one table there, at most 512 code pointers up to the first that is not one, and nothing else is; otherwise nothing |
| Indirect.PointerFoundIff | src/analysis/indirect.rs:177-207 | a table whose first pointer leads to code is found if and only if the whole scan window after its start is in the file |
| Indirect.SmallTableIsSkipped | src/analysis/indirect.rs:177-207 | an image whose valid pointer is skipped |
| Indirect.CollectedFor | src/analysis/indirect.rs:38-72 | the collecting phase gives every block exactly the edges its own last instruction resolves to |
| Pointers.CalleeIff | src/analysis/indirect.rs:38-72 | a call through a slot goes to the code whose address the slot's bytes hold, and where they hold none, to the slot itself |
| Pointers.EntryIff | src/analysis/indirect.rs:177-207 | entry k of a table is the value whose bytes, lowest first, are the eight at 8k |
| Pointers.BlockTargetsAre | src/analysis/indirect.rs:38-133 | of decoded blocks the passes look at exactly those that end in an indirect call, or an indirect jump, through a slot |
| Pointers.RefsIff | src/analysis/indirect.rs:74-84 | a cross-reference is added if and only if a block gives it: from where the block leaves to one of its targets, or a read of its slot |
| Indirect.FunctionTable.Collect | src/analysis/indirect.rs:104-133 | collects function by function and block by block in table order |
| Indirect.FunctionTable.Push | src/analysis/indirect.rs:74-84 | one resolution appends one edge to the one block it names and adds its two cross-references |
| Indirect.FunctionTable.Apply | src/analysis/indirect.rs:135-144 | the applying phase appends to each block the edges collected for it |
| Indirect.FunctionTable.Recompute | src/analysis/indirect.rs:146-148 | predecessor lists of every function agree with successors, and nothing else changes |
| Indirect.FunctionTable.Resolve | src/analysis/indirect.rs:27-149 | both phases together equal the direct per-block map, with agreeing predecessor lists and the specified cross-references |
| Indirect.FunctionTable.ResolveAll | src/project/mod.rs:425-443 | jumps then calls: every block has its old edges, its jump targets and its callee, and predecessors agree |
| Indirect.ExtendedStep | src/analysis/indirect.rs:151-160 | pushing one resolution changes the one block that is found by its start, or nothing |
| Indirect.FlowUnchanged | src/analysis/indirect.rs:74-84 | resolved edges never add flow inside a function |
| Cfg.Recover | src/project/mod.rs:351-443 | discovery followed by both indirect passes: agreeing edge lists in every function, carved ones included, and each block's edges fully determined |
| Cfg.StartsStayApart | src/project/mod.rs:425-443 | block starts of different functions stay disjoint through the indirect passes |
| Unwind.ParseUnwindInfo | src/analysis/unwind.rs:240-311 | the parser's loop computes the specified parse |
| Unwind.ParseIff | src/analysis/unwind.rs:240-311 | parsing yields a record if and only if it is well formed (operations tile the slots) and the bytes encode it |
| UnwindFormat.HeaderIff | src/analysis/unwind.rs:240-265 | a header is accepted if and only if version and flags are known, a chained record names no handler, and a frame offset comes with a register |
| UnwindFormat.ValidCodeIff | src/analysis/unwind.rs:347-424 | the operations a record can have are those of the platform's table of codes, info fields, versions and slots |
| UnwindFormat.ParsedRecord | src/analysis/unwind.rs:240-311 | a parsed record ends in a handler if and only if one of two flag bits is set, in another record if and only if a third is, and its operations are of the table and follow each other slot by slot |
| Unwind.CodeIff | src/analysis/unwind.rs:347-424 | one operation is parsed if and only if it is valid there and the slots hold it |
| Unwind.CodesIff | src/analysis/unwind.rs:270-276 | the operation list is parsed if and only if it tiles the slot array without gap or overlap and each is held |
| Unwind.TailIff | src/analysis/unwind.rs:278-297 | the aligned tail is parsed if and only if the flags call for it and the bytes hold it |
| Unwind.RoundTrip | src/analysis/unwind.rs:240-311 | parsing the canonical encoding of any well-formed record gives it back |
| Unwind.Reparse | src/analysis/unwind.rs:240-311 | everything the parser accepts is well formed, and encoding it canonically and parsing again changes nothing |
| Unwind.MinimumSizeBounded | src/analysis/unwind.rs:331-345 | every header names a size of at most 528 bytes |
| Unwind.ParseNeedsExactlyPrefix | src/analysis/unwind.rs:331-345 | a successful parse needs that many bytes and depends on nothing after them |
| Unwind.BoundedReadIsUnbounded | src/analysis/unwind.rs:320-345 | the two bounded reads give what parsing the whole rest of the image would give |
| UnwindKernel.Kernel | src/analysis/unwind.rs:266-311 | another record parses to the same value if and only if it is long enough and agrees byte for byte except the alignment slot and the unread epilog bits |
| UnwindKernel.SlotCoveredOnce | src/analysis/unwind.rs:270-276 | no slot is covered by two operations |
| RuntimeFunctions.ParseRuntimeFunctions | src/analysis/unwind.rs:477-533 | the table is a sorted permutation of exactly the accepted records, and accepted plus rejected is all of them; nothing where the headers are malformed, an empty table without a directory |
| PeHeaders.WrittenDirectory | src/analysis/unwind.rs:530-580 | of an image written from its headers the exception directory is the fourth one, there is none where fewer are declared or it is empty, and the image is malformed where one of its two values is zero, fewer are there than declared, or a signature is another |
| PeHeaders.AcceptIff | src/analysis/unwind.rs:501-524 | a record is accepted if and only if its range is not empty, fits in 64 bits, starts in a section that is executable and ends in what is mapped of it, and its unwind address fits; the entry then has its values |
| PeHeaders.WrittenTable | src/analysis/unwind.rs:477-533 | an image written with a directory of records gives the sorted table of exactly those that lie in code, the others counted |
| PeHeaders.TableAscends | src/analysis/unwind.rs:524-529 | the table ascends by begin address, then by end, then by unwind address |
| RuntimeFunctions.AcceptedRange | src/analysis/unwind.rs:586-609 | an accepted record covers a non-empty range inside the mapped bytes of one executable section |
| RuntimeFunctions.SortedTableUnique | src/analysis/unwind.rs:477-533 | the unstable sort still determines the table |
| Lexer.ConsumeQuoted | src/decomp_scorecard.rs:224-239 | finds the end of a literal, escapes included |
| Lexer.LexCode | src/decomp_scorecard.rs:241-353 | the lexer's loop computes the specified token sequence |
| Lexer.SegmentsTile | src/decomp_scorecard.rs:241-353 | tokens and skipped text tile the source with strict progress |
| Lexer.ScanStable | src/decomp_scorecard.rs:241-353 | a token in front of a separator scans as itself unless it is a literal left open |
| Lexer.PrintLexRoundTrip | src/decomp_scorecard.rs:241-353 | printing the tokens of any text with single spaces and lexing again gives the same tokens |
| Grammar.QuotedIff | src/decomp_scorecard.rs:224-239 | a literal ends just after the first quote that an even number of backslashes precedes |
| Grammar.OpenIff | src/decomp_scorecard.rs:224-239 | a literal runs to the end of the text if and only if no later quote closes it |
| Grammar.CommentEndIff | src/decomp_scorecard.rs:265-271 | a block comment ends after its first terminator, or with the text |
| Grammar.TokensShaped | src/decomp_scorecard.rs:241-353 | every token has the shape of its kind: identifier, number, prefixed literal, operator or punctuation |
| Grammar.RunsAreMaximal | src/decomp_scorecard.rs:298-325 | identifiers and numbers are as long as they can be |
| Grammar.WordCharacters | src/decomp_scorecard.rs:215-330 | which characters words, numbers and blanks are made of, by their codes |
| Grammar.SkippedIsBlank | src/decomp_scorecard.rs:252-272 | what yields no token is one whitespace character or one whole comment |
| Lexer.LongestOperator | src/decomp_scorecard.rs:242-347 | the operator chosen is the longest one the text starts with |
| Pseudocode.FindMatching | src/decomp_scorecard.rs:375-393 | the matching loop computes the specified position |
| Pseudocode.MatchingIffCloses | src/decomp_scorecard.rs:375-393 | the position found is exactly where the bracket closes |
| Pseudocode.LastParenthesizedRange | src/decomp_scorecard.rs:359-373 | the backward loop computes the specified range |
| Pseudocode.LastRangeIff | src/decomp_scorecard.rs:359-373 | the range found is exactly the balanced pair that ends at the last closing parenthesis |
| Pseudocode.ParseTokensIff | src/decomp_scorecard.rs:395-411 | a text parses if and only if it is a named header with parameters before a balanced body, and in one way |
| FactHits.DecodesIff | src/decomp_scorecard.rs:637-660 | a literal decodes to a value if and only if what stands between its first and last quote, escapes read, is that value |
| FactHits.SameTokenIff | src/decomp_scorecard.rs:459-479 | two tokens count as the same if and only if they are of a kind and equal: words but for case, literals by value, the rest as written |
| Scorecard.SplitCallArguments | src/decomp_scorecard.rs:727-761 | the splitting loop computes the specified arguments |
| Scorecard.SplitAtTopCommas | src/decomp_scorecard.rs:727-761 | a text that is not empty is cut exactly at its commas of nesting zero, all of them and in order, and the arguments are the stretches between them |
| Scorecard.SplitTiles | src/decomp_scorecard.rs:727-761 | arguments and separators in turn are the whole text |
| FactHits.TopCommaIff | src/decomp_scorecard.rs:727-761 | a comma separates arguments if and only if no bracket that opened before it is still open |
| Scorecard.ExtractDirectCalls | src/decomp_scorecard.rs:763-807 | the extraction loop finds the specified calls |
| Scorecard.CallsDisjoint | src/decomp_scorecard.rs:763-807 | calls found are disjoint, in order, each an identifier with a balanced argument list |
| Scorecard.CallAtIff | src/decomp_scorecard.rs:763-807 | a call is recognised at a token if and only if it is a callable name followed by a list that closes |
| Scorecard.CallsComplete | src/decomp_scorecard.rs:763-807 | every such call that no call found before it covers is found |
| FactHits.SiteMeans | src/decomp_scorecard.rs:763-807 | a call that is recognised has its name in lower case and the arguments between the commas outside all brackets; call(name) is a call of that name, and nothing if there is more in it |
| Matching.GreedyIsMatching | src/decomp_scorecard.rs:949-1003 | call matching is injective and only uses accepted targets |
| Matching.GreedyIsMaximal | src/decomp_scorecard.rs:949-1003 | an expectation is missed only when every target it accepts went to an earlier one |
| Matching.GreedyIsOptimal | src/decomp_scorecard.rs:949-1003 | with nested alias lists no other assignment matches more expectations |
| Matching.GreedyOptimalIff | src/decomp_scorecard.rs:949-1003 | greedy matching is optimal for every list of calls if and only if of two expectations that share an alias the later accepts everything the earlier does |
| Matching.NotNestedMisses | src/decomp_scorecard.rs:949-1003 | for any alias lists that are not nested there is a list of calls on which greedy matching finds too few |
| Matching.GreedyCanMiss | src/decomp_scorecard.rs:949-1003 | two overlapping alias lists and two calls of which the greedy choice matches one |
| CallNames.TextOptimalIff | src/decomp_scorecard.rs:949-1003 | greedy matching is optimal on the calls of every text if and only if of two expectations that share a lower-case identifier as alias the later accepts all of the earlier's |
| CallNames.TargetsAreNames | src/decomp_scorecard.rs:763-807 | every call extracted from lexed tokens has a lower-case identifier for its target |
| CallNames.NamesAreTargets | src/decomp_scorecard.rs:763-807 | for any list of lower-case identifiers some text has direct calls to exactly these, in order |
| Matching.MatchedOrLeft | src/decomp_scorecard.rs:1005-1011 | every target is matched exactly once or left over |
| Scoring.Ledger.RecordFact | src/decomp_scorecard.rs:851-875 | each recorded fact is counted once, as a hit or as a miss |
| Scoring.ScoreCalls | src/decomp_scorecard.rs:949-1003 | each expectation takes the first fitting unused call, and its facts are recorded |
| FactHits.FactsReported | src/decomp_scorecard.rs:920-1076 | every fact of a report is where its kind belongs and is a hit if and only if the text has what it expects: the tokens somewhere in the body, one of the keywords, a matched call, arguments that read the same, a literal of the value, enough parameters |
| FactHits.ParamHitIff | src/decomp_scorecard.rs:413-445 | enough parameters are declared if and only if between the last pair of parentheses so many stretches between top-level commas have more than dots, a lone void counting for none |
| Expectations.LegacyRead | src/decomp_scorecard.rs:809-825 | a legacy text of aliases joined by bars is one expected call with these aliases |
| Expectations.LabelNames | src/decomp_scorecard.rs:835-842 | the label of an expected call names all its aliases |
| Expectations.TrimIff | src/decomp_scorecard.rs:827-833 | a name is what is left between blanks on both sides |
| Expectations.ScoreMeans | src/decomp_scorecard.rs:1079-1089 | recall times the facts are the hits, precision times hits and extras are the hits |
| Expectations.UnexpectedCallIff | src/decomp_scorecard.rs:1005-1011 | a direct call is reported as an extra if and only if no expectation took it |
| Expectations.UnexpectedStringIff | src/decomp_scorecard.rs:1036-1043 | a literal is reported as an extra as often as it is there, unless it is expected |
| Scoring.ScoreRange | src/decomp_scorecard.rs:1079-1089 | the score lies in the unit interval and is 1 exactly for a non-empty, complete answer without extras |
| Scoring.ScoreDecompText | src/decomp_scorecard.rs:901-1105 | the facts are those of the text in their order, hits plus misses are all of them, calls are matched greedily without reuse, the score is recall times precision |
| Scoring.CallsConserved | src/decomp_scorecard.rs:1005-1011 | with complete calls every direct call is matched once or reported unexpected |
| Ops.EffectParts | src/project/op.rs:100-267 | an operation touches the alias log only by appending, and memory cards only under its own key |
| Edits.TypeEdits | src/project/op.rs:177-196 | typing a variable edits one list of its frame, above the frame pointer the arguments: the first variable at the offset, or a new one with everything else empty and the list in order |
| Edits.NameEdits | src/project/op.rs:197-221 | naming one likewise, an empty name meaning none |
| Edits.ParamEdits | src/project/op.rs:223-243 | naming a parameter keeps types and all other names, fills up with numbered placeholders, and makes a signature with the symbol's name where there is none |
| Edits.CardEdits | src/project/op.rs:245-258 | a card is stored under its own address with the next stamp, the clearing one removes |
| Edits.RenameEdits | src/project/op.rs:107-132 | renaming logs the old name as an alias if there was one |
| Edits.HandledTidy | src/project/op.rs:458-477 | no request of any client brings the variables of a frame out of order or two of them to one offset |
| Undo.UndoIff | src/project/op.rs:100-408 | undoing a single operation restores the content if and only if there was an old value to go back to |
| Slots.OnlyOwnSlot | src/project/op.rs:100-267 | an operation leaves every entry other than the one it names unchanged |
| Slots.WritesPayload | src/project/op.rs:100-267 | and there it writes what it says: name, text, type, signature, stack variable, parameter or card |
| Slots.ParamWritten | src/project/op.rs:223-243 | renaming a parameter pads the list as needed and leaves every other parameter alone |
| Slots.SlotDecidesIff | src/project/op.rs:100-267 | operating on equal entries gives equal entries, except that a parameter rename without a signature also takes the name of the symbol: then if and only if those names are equal |
| Slots.UndoIsLocal | src/project_manager.rs:1353-1369 | undo among several clients: if nobody else wrote the entry, undo puts its old value back and leaves every other entry as the others left it |
| Undo.FirstCommentStays | src/project/op.rs:269-408 | a first comment undone leaves an empty comment |
| Edits.UndoneFromNothing | src/project/op.rs:269-408 | undoing an operation that found nothing leaves an entry that says nothing: an empty name, comment or signature, an unknown type, no card |
| Undo.Replay | src/project/op.rs:100-267 | replaying an applied operation from equal content repeats it and its effect, batches included |
| Undo.ChainUndone | src/project/op.rs:269-408 | undoing last to first what was applied first to last restores the content |
| Undo.BatchUndoable | src/project/op.rs:398-405 | a batch of steps that each revert where they are applied is undone as a whole, if there is anything in it |
| Undo.GuardUndoes | src/project/op.rs:269-408 | any operation with something in it, batches within batches included, restores the content when undone if each of its steps had something to go back to where it is applied |
| Undo.GuardedSame | src/project/op.rs:269-408 | that guard depends on the content alone |
| Restores.UndoneIff | src/project/op.rs:100-408 | undoing a list of operations last to first restores the content if and only if each, unless an earlier one replaces the signature it writes, had something to go back to before the first |
| Repeats.RepeatSame | src/project/op.rs:100-408 | doing a list of operations again after it was undone gives the content it gave, whatever they found |
| Repeats.RecapturedIff | src/project/op.rs:100-408 | and they capture what they had captured if and only if each had an old value or is a focus that nothing among them moved |
| Batches.GuardNotNeeded | src/project/op.rs:398-405 | a batch that is undone exactly although one of its steps, where it is applied, had nothing to go back to |
| Batches.BatchUndoIff | src/project/op.rs:398-405 | any batch with something in it, nested or writing an entry many times, is undone exactly if and only if each single operation in it, unless an earlier one replaces the signature it writes, had something to go back to before the batch |
| Batches.BatchRedoes | src/project_manager.rs:1353-1387 | undo followed by redo of any batch with something in it gives its effect back, whether or not undo alone restored |
| Batches.NamedAndTyped | src/mcp.rs:2806-2835 | the pair that names and types a local is undone exactly if and only if the variable was there, not with the empty name |
| Undo.UndoRedo | src/project_manager.rs:1353-1387 | undo followed by redo of any single operation gives its effect back, whether or not undo alone restored |
| Undo.UndoableRedoes | src/project_manager.rs:1353-1387 | an undoable operation, batch or not, is redone exactly |
| Session.ApplyTracked | src/project_manager.rs:1336-1350 | an application of something whose old values were there is pushed, empties redo, and keeps the history folded over the start equal to the content |
| Session.UndoTracked | src/project_manager.rs:1353-1369 | an undo moves the cursor back along the same timeline |
| Session.RedoTracked | src/project_manager.rs:1372-1387 | a redo moves the cursor forward along the same timeline |
| Session.SessionTracked | src/project_manager.rs:1336-1387 | through any session of one client, batches included, in which the old values of what is applied were there, the undo stack folded over the starting content is the current content |
| Session.UndosRedos | src/project_manager.rs:1353-1387 | while the undo stack tracks the content, which it does as long as the old values of what was applied were there, any k undos followed by k redos change neither content nor history |
| Session.AppliesUndone | src/project_manager.rs:1336-1369 | while it does, n undos after n applications of the same kind restore the content and the undo stack |
| Session.SessionUndone | src/project_manager.rs:1336-1387 | after any session from an empty history in which the old values of what is applied were there, undoing all that is left restores the content it started from |
| Session.UndoRestoresIff | src/project_manager.rs:1336-1369 | an undo right after a single operation restores the content if and only if the operation had something to go back to |
| Session.BatchRestoresIff | src/project_manager.rs:1336-1369 | and right after any operation with something in it, if and only if each single operation in it, unless an earlier one replaces the signature it writes, had |
| Histories.AppliesUndoneIff | src/project_manager.rs:1336-1369 | n undos after any n applications give the undo stack back, and the content if and only if each single operation among them, unless an earlier one replaces the signature it writes, had something to go back to before the first |
| Histories.NewestRepeated | src/project_manager.rs:1353-1387 | after any applications, k undos and k redos give the content back, whatever the operations found, and the history if and only if each single record undone has an old value or is a focus that nothing among them moved |
| Histories.FirstCommentIsRecaptured | src/project_manager.rs:1372-1387 | undoing and redoing a first comment gives the content back and another history |
| Histories.RedoAfterUndoDiffers | src/project_manager.rs:1353-1387 | once a parameter beyond a new signature is undone, undoing and redoing the signature gives another content |
| Clients.VarUndoIsLocal | src/project_manager.rs:1353-1369 | undoing one's edit of a local after others went on changes that field of that variable only, and to what it was if and only if it was there |
| Clients.ParamUndoIsLocal | src/project_manager.rs:1353-1369 | undoing one's parameter rename changes the name of that parameter only, and to what it was if it was there |
| Clients.UndoOverwritesOthers | src/project_manager.rs:1353-1369 | a client that undoes its comment takes away a later one of another client |
| Stacks.HandledStacks | src/project_manager.rs:1336-1387 | a request changes its own client's stacks as its kind says, whatever the project, and nobody else's, failed appends included |
| Stacks.StacksAlone | src/project_manager.rs:1207-1295 | in any interleaving a client's stacks are what its own requests make them |
| Stacks.OthersDoNotMatter | src/project_manager.rs:1207-1295 | so they are those it would have if nobody else had made a request, but for the old values it found |
| Session.HandledWellKept | src/project/op.rs:245-258 | every request keeps memory cards stored under their own address |
| Recovery.LoweredIff | src/project/mod.rs:473-486 | replayed stamps equal live ones if and only if nothing was stamped after the cut |
| Recovery.ShadowApply | src/project/mod.rs:473-486 | replaying a recorded operation follows the live run with lowered stamps |
| Recovery.RecordedStep | src/project_manager.rs:1336-1350 | appending the record of a live operation keeps reopening one lowering away from the project |
| Recovery.SavedOpens | src/project/mod.rs:499-508 | after a snapshot reopening gives exactly the project, even if the journal was not truncated |
| Recovery.ReplaysTail | src/project/mod.rs:473-486 | a replay applies exactly the records numbered above the snapshot |
| Recovery.ReplayStampsLower | src/project/mod.rs:473-486 | a memory card written since the last snapshot comes back with a lower stamp |
| Writer.HandledLogs | src/project_manager.rs:1336-1387 | every request changes project and disk by logging one operation, or not at all, and answers with it if the append succeeded |
| Writer.HandledRecoverable | src/project_manager.rs:1207-1295 | an accepted request moves the counter by one and keeps the disk recoverable |
| Writer.TurnDurable | src/project_manager.rs:1207-1295 | a turn whose append and snapshot succeed keeps the state durable, moves the counter by what it logs, and adds that to the records above the snapshot on disk, or covers them all at a checkpoint |
| Writer.RunDurable | src/project_manager.rs:1207-1295 | for any interleaving of clients the counter counts the requests that logged something and the disk reopens to the project up to stamps after the last snapshot |
| Writer.RunTailIff | src/project_manager.rs:1207-1295 | as long as appends and snapshots succeed, fewer than 256 records are left to replay if and only if a checkpoint was reached or the records found at the start and logged since are fewer |
| Writer.ReopenDurable | src/project/mod.rs:473-486 | reopening a durable disk starts a durable session and replays exactly the records above the snapshot |
| Writer.SessionsDurable | src/project_manager.rs:1207-1295 | any number of sessions, each ending in a crash between two turns or in a saving close, leave a disk that reopens to a durable session |
| Writer.CrashesAddUp | src/project_manager.rs:1207-1295 | sessions that crash before their first checkpoint leave everything they logged to be replayed |
| Writer.TailOutgrowsCheckpoint | src/project_manager.rs:1207-1295 | two sessions of 200 edits that end in crashes leave 400 records |
| Writer.WriterLoop.ApplyOne | src/project_manager.rs:1336-1350 | the new project, disk and history are the specified ones |
| Writer.WriterLoop.UndoOne | src/project_manager.rs:1353-1369 | the new project, disk and history are the specified ones, an operation without inverse dropped |
| Writer.WriterLoop.RedoOne | src/project_manager.rs:1372-1387 | the new project, disk and history are the specified ones |
| Writer.WriterLoop.Turn | src/project_manager.rs:1207-1295 | a turn does what one step of the loop says, keeps the disk recoverable as long as its appends succeeded, and bounds the records above the snapshot by those found at the start, 256 for each failed snapshot and those since the last checkpoint |
| Writer.WriterLoop.Checkpoint | src/project_manager.rs:1240-1247 | a successful snapshot makes the disk reopen exactly, and a failed one loses nothing |
| DecompileCaches.LaneIff | src/project_manager.rs:126-133 | two requests share a lane if and only if mode and fallback agree |
| DecompileCaches.ArtifactCache.Get | src/project_manager.rs:141-148 | a hit returns the stored artifact and becomes the most recent, a miss changes nothing |
| DecompileCaches.ArtifactCache.Store | src/project_manager.rs:150-157 | the cache holds the 64 most recently touched keys in the order they were touched |
| DecompileCaches.RecentMeaning | src/project_manager.rs:141-157 | recency order is each touched key once, with its latest artifact, ordered by latest touch |
| DecompileCaches.CacheKept | src/project_manager.rs:141-157 | both operations keep at most 64 entries with distinct keys and invent none |
| DecompileService.RunKeeps | src/project_manager.rs:485-537 | every interleaving of edits, requests and workers keeps the service invariant |
| DecompileService.AnswersAreFresh | src/project_manager.rs:485-537 | every artifact handed out is from a version no older than the request's, and of that very version if nothing was published since |
| DecompileService.AtMostTwo | src/project_manager.rs:507-521 | at most two computations run at once, timed-out ones included, and the cache keeps at most 64 distinct keys |
| DecompileService.EditsAreSeen | src/project_manager.rs:497-520 | a request made after an edit never gets an artifact from before it |
| DecompileRuns.CachedAnswered | src/project_manager.rs:497-506 | a request whose key is cached gets that artifact and no worker |
| DecompileRuns.Worked | src/project_manager.rs:507-517 | any other gets a permit and a worker of its own, which reads the version published then |
| DecompileRuns.WorkDelivered | src/project_manager.rs:514-535 | its answer is the artifact the worker computed, or that there is none; the permit is free again and the artifact cached under the request's key |
| DecompileRuns.TimedOut | src/project_manager.rs:522-529 | or that it is still running, and then the work goes on and is cached all the same |
| DecompileService.StoredVersionIff | src/project_manager.rs:497-521 | the entry a worker stores is as many versions newer than its key as edits were published between the request and the read, so it has the version of its key if and only if there were none |
| DecompileService.KeyMayLag | src/project_manager.rs:514-520 | a run in which one edit in between leaves a newer artifact under the older key |
| DecompileService.BudgetIgnored | src/project_manager.rs:126-133 | a run in which a request is answered with the artifact of one that differs in its search budget |
| OpenJobs.RunKeeps | src/mcp.rs:3895-4115 | every interleaving of workers, callers, closing and pruning keeps the protocol invariant |
| OpenJobs.RunningIffWorker | src/mcp.rs:3944-3967 | a job in the table is running if and only if one worker of that stage is in flight for it, and never two |
| OpenJobs.BoundedNeverAnalysed | src/mcp.rs:4714-4793 | a job whose catalog is bounded never becomes a full project and no worker is taking it there |
| OpenJobs.BoundedIff | src/mcp.rs:5615-5618 | a job is bounded from half a gigabyte of image or 64 MiB of code on |
| OpenJobs.StepForward | src/mcp.rs:3989-4115 | a step leaves a job, moves its stage forward or removes it, and never changes its catalog |
| OpenJobs.RunForward | src/mcp.rs:3989-4115 | along any run a stage never goes back and a job that left the table never returns |
| JobReports.SettledIff | src/mcp.rs:3944-4115 | along any run a job is ready with a target if and only if its analysis came back with it, failed if and only if one of its workers reported so, and waits with a catalog only after exactly the reports that lead there |
| JobReports.FullRequestAnalyses | src/mcp.rs:3989-4060 | a full request for a settled unbounded job, not interrupted, has it analysed and the job is then what the analysis returns |
| JobReports.RequestSketches | src/mcp.rs:4068-4115 | any other request for a job with its catalog has it sketched |
| JobReports.RequestAnswered | src/mcp.rs:4714-4793 | where there is nothing more to do a request changes nothing |
| JobReports.StartCatalogs | src/mcp.rs:3895-3967 | a path nobody has open becomes a job of its own with the catalog its worker finds, whatever room the table has |
| OpenJobs.CheckSuffices | src/mcp.rs:3989-4022 | taken without interruption, the promotion's own check keeps a bounded job from analysis |
| OpenJobs.CheckAloneIsNotEnough | src/mcp.rs:3989-4022 | let a caller that did not look at the catalog into a run that is sketching a bounded job, and the check alone lets that job through to analysis |
| OpenJobs.InsertKeepsPathsIff | src/mcp.rs:3913-3944 | inserting keeps live paths distinct if and only if no live job that stays has the path |
| OpenJobs.OthersKeepPaths | src/mcp.rs:3989-4115 | every other step keeps live paths distinct |
| OpenJobs.StartsRace | src/mcp.rs:3913-3944 | two callers that check before either inserts open one path twice |
| OpenJobs.GrowsPastCapIff | src/mcp.rs:3934-3944 | at the cap the table grows if and only if every job in it is running |
| OpenJobs.OldestGivenUp | src/mcp.rs:3934-3944 | along any run a start gives up one job if the table is at its cap and any job in it has settled: one that no settled job is older than; every other job stays as it was |
| OpenJobs.TableOutgrowsCap | src/mcp.rs:3934-3944 | 257 starts before the first catalog is there leave 257 jobs in the table |
| Commits.VerdictIff | src/mcp.rs:5122-5183 | what each verdict means: accepted, answered from the cache whatever the revision, a conflict, or badly addressed, each if and only if |
| Commits.AcceptedApplies | src/mcp.rs:3696-3855 | an accepted commit whose append succeeds applies the proposal as one batch to its target only, undoable by the server's client, and replies with and remembers what was applied |
| Commits.LostEditRefused | src/mcp.rs:3696-3855 | one whose append fails is refused and not remembered, and its effect stays in memory only |
| Commits.UnusableRefused | src/mcp.rs:3696-3775 | one whose operations are not usable is refused and changes nothing |
| Commits.HandledSeq | src/project_manager.rs:1336-1387 | handling a request moves a target's revision by one if it logs an operation and never back |
| Commits.AppliedAtMostOnce | src/mcp.rs:3696-3775 | no sequence of commits, edits, closes and evictions applies a proposal twice, and at most 1024 results are kept |
| Commits.RetryIsHarmless | src/mcp.rs:5122-5183 | committing an applied proposal again changes nothing: it answers from the cache or with a revision conflict |
| Commits.RetryRepeats | src/mcp.rs:3845-3855 | until it is forgotten the same call gets the same reply |
| Commits.KeyReuseSkips | src/mcp.rs:5155-5168 | a used key answers for another proposal of the same target without applying it |
| CommitRaces.UninterruptedIsCommit | src/mcp.rs:3696-3775 | a call whose edit directly follows its checks is a whole commit call |
| CommitRaces.RacingCallsApplyTwice | src/mcp.rs:3696-3775 | a run from the empty server in which two calls pass the checks before either is executed, and the proposal runs twice |
| CommitRaces.AppliedOnceIff | src/mcp.rs:3696-3775 | in any interleaving a proposal is applied twice if and only if two calls for it were in flight together and both reached the writer |
| CommitRaces.OneEachAppliesOnce | src/mcp.rs:3696-3775 | in any interleaving in which no proposal has two calls in flight none is applied twice |
| Commits.Desk.Serve | src/mcp.rs:3696-3855 | one commit call changes the shared state as specified and keeps at-most-once |
| Artifacts.BoundaryIff | src/mcp.rs:5324-5330 | the boundaries of encoded text are exactly where its characters begin and end |
| Artifacts.ReadArtifact | src/mcp.rs:5311-5339 | a page is the specified stretch of the body, no longer than asked, and the cursor is its end unless it is the last |
| Artifacts.PageIsText | src/mcp.rs:5323-5330 | every page is itself well-formed text |
| Artifacts.CollectedIsPrefix | src/mcp.rs:5323-5338 | following cursors from the start never loses or repeats a byte, whatever the page sizes |
| Artifacts.AdvancesIff | src/mcp.rs:5323-5330 | a page makes progress if and only if the next character fits in it |
| Artifacts.Reassembles | src/mcp.rs:5311-5339 | pages of at least four bytes always advance and reassemble the artifact exactly |
| Artifacts.CompletesIff | src/mcp.rs:5311-5339 | with one page size reading completes if and only if no character is wider than a page |
| Artifacts.CursorRoundTrip | src/mcp.rs:5725-5730 | parsing a formatted cursor gives back artifact and offset, colons in the name included |
| StructuralCaches.PathsDiffer | src/analysis/structural_cache.rs:97-101 | partition paths of digest-named images coincide only for the same key |
| StructuralCaches.LoadedIff | src/analysis/structural_cache.rs:103-129 | an envelope nobody changed loads if and only if it is asked for under the format and image it was stored under |
| StructuralCaches.DamagedNeverLoads | src/analysis/structural_cache.rs:103-129 | a file that still names the digest it was stored with loads if and only if its format and image are those asked for and its payload is the stored one, and then it is the stored value, digests being free of collisions |
| StructuralCaches.ChangedPayloadNeverLoads | src/analysis/structural_cache.rs:103-129 | an envelope whose payload alone was changed loads under no key |
| StructuralCaches.LoadsStored | src/analysis/structural_cache.rs:103-129 | what loads from a file nothing outside changed was stored under exactly that key |
| StructuralCaches.CacheDir.Load | src/analysis/structural_cache.rs:103-129 | a load from a file nothing outside changed only returns values stored under that key, from any file that still names a stored value's digest only that value, and makes it the most recently used |
| StructuralCaches.CacheDir.Overwrite | src/analysis/structural_cache.rs:103-129 | whatever changes a file from outside, the others stay sound |
| StructuralCaches.CacheDir.Store | src/analysis/structural_cache.rs:131-169 | wherever a crash, a failed quarantine, install or restore cuts it short, the partition holds the old envelope, the new one or nothing, and in the last case the old one is still in quarantine; a completed one is the newest |
| StructuralCaches.CacheDir.Install | src/analysis/structural_cache.rs:144-168 | the file operations touch only the partition and their own temporary files, and a failed quarantine leaves just the temporary file behind |
| StructuralCaches.CrashLeavesOneOf | src/analysis/structural_cache.rs:131-169 | a load after the crash finds the old value, the new one or nothing |
| StructuralCaches.StoreThenLoad | src/analysis/structural_cache.rs:103-169 | a stored value loads again |
| StructuralCaches.PrunesEnough | src/analysis/structural_cache.rs:171-220 | pruning removes until the rest fits and not one partition more, unless nothing more can be removed |
| StructuralCaches.PrunesOldest | src/analysis/structural_cache.rs:171-220 | nothing is removed while something older that could be removed stays |
| StructuralCaches.NewestPrunedIff | src/analysis/structural_cache.rs:171-220 | the newest partition goes if and only if it can be removed and does not fit beside those that cannot |
| StructuralCaches.CacheDir.PruneLru | src/analysis/structural_cache.rs:171-220 | lists every partition oldest first, removes exactly that part of the list with the sidecars that can be removed, keeps every other file and reports what is left |
| CompactIndexes.FlagBits | src/analysis/compact_index.rs:101-123 | each flag can be read off a record on its own |
| Instructions.RecordsAre | src/analysis/compact_index.rs:86-141 | a section's records describe, in order, exactly the instructions decoded before decoding gives up that lie less than 4 GiB above the image base |
| Instructions.RecordLayout | src/analysis/compact_index.rs:124-133 | record k starts at 8k, lowest byte first: address, flags, length, class |
| Instructions.ClassIff | src/analysis/compact_index.rs:221-247 | which instructions have which class |
| CompactIndexes.RecordRoundTrip | src/analysis/compact_index.rs:124-134 | decoding an encoded record gives it back |
| CompactIndexes.RecordAt | src/analysis/compact_index.rs:130-134 | record k of the stream is the eight bytes at 8k |
| CompactIndexes.SectionRecordAt | src/analysis/compact_index.rs:86-150 | record k of a section decodes from eight bytes per record after the section's offset |
| CompactIndexes.ManifestHas | src/analysis/compact_index.rs:142-150 | each present section has its extent in the manifest |
| CompactIndexes.ManifestTiles | src/analysis/compact_index.rs:142-167 | the extents tile the file without gap or overlap, eight bytes per instruction |
| CompactIndexes.BuildToWriter | src/analysis/compact_index.rs:54-167 | the buffered writer emits exactly the record stream in full-buffer pieces, with the manifest and digest of that stream |
| CompactIndexes.WriteData | src/analysis/compact_index.rs:189-207 | a data file is the whole stream of its image or absent, unless changed from outside, whatever fails and wherever it is cut short |
| CompactIndexes.LoadOrBuildCached | src/analysis/compact_index.rs:169-219 | a hit is exactly a manifest that loads with a data file of the length it says; it is the image's own index with as many bytes as its stream unless the digest in the manifest was changed too, and the data is the stream unless changed from outside; a built index is the image's own, and its stream is on disk if and only if the closing prune could not list the cache or the new partition fits beside what cannot be removed or cannot be removed itself |
| CompactIndexes.HitIff | src/analysis/compact_index.rs:180-189 | with an image's own manifest in place its index is a hit if and only if the data file is there with the length of its stream |
| CompactIndexes.EqualLengthOverwriteHits | src/analysis/compact_index.rs:180-189 | a data file overwritten with other bytes of the same number is a hit |
| CompactIndexes.OverwriteKeepsDeep | src/analysis/compact_index.rs:180-189 | a change from outside leaves all other data files whole |
| CompactIndexes.BuildCanPruneItself | src/analysis/compact_index.rs:212-215 | an image of less than 17 MiB whose stream exceeds what the cache keeps, so that the build removes it |
| CompactIndexes.PruneKeepsDeep | src/analysis/compact_index.rs:212-215 | pruning, whole or cut short, leaves the data files that remain as they were |

## Left out

- x86 decoding: instructions are an arbitrary sequence with address, length, flow kind and targets, produced by a decoder that stays inside its bytes.
- Address overflow: `image_base + vaddr` is not modelled past 64 bits in section lookup, and instructions of the index must end inside the address space; a saturating fallthrough address would otherwise loop.
- Discovery.NoBlockStartsAtHard: assumes hard entries are kept, which is proved when they are among the seeds and no indirect call ends directly before one; for a whole run that condition is sufficient only; block by block it is exact (Functions.ClaimsHardIff).
- Discovery.Discovery.SeedAccessViolationFilterLeaves: the exact condition for a complete table reads the owners at the end, because what a filter claims again is the result of its descent; the conditions on the state before the pass are sufficient only.
- The lexer takes ASCII text, where bytes and characters coincide.
- Scoring.ScoreDecompText: quality gates are an arbitrary predicate on the body, the texts a fact was observed in are dropped, and the detail strings of a report are structured values; gold-file and Ghidra-map loading are not modelled.
- Ops covers the fields operations change; caches of lifted code, the type catalog and frame attachment are not modelled.
- Recovery.SavedOpens: snapshot and journal writes are whole or absent; a torn snapshot file or a torn last journal line, and so a crash inside a write, is not modelled.
- Activity events, summaries and the wall clock are not modelled; expiry is a nondeterministic step or flag.
- Session and Histories are about one client writing alone; what several clients do to the content is covered edit by edit, in `Slots.UndoIsLocal` and Clients, and what they do to their histories in Stacks.
- DecompileService abstracts an artifact to the version, function and options it was computed from.
- OpenJobs abstracts the contents of sketches, progress fractions, path normalisation and the waiting loops of callers; a background task counts as in flight from the lock region that launches it.
- Commits does not follow proposal expiry by time, and the text of results; a proposal's edit is one batch through the writer.
- Artifacts: expiry and lookup of an artifact by name are not modelled, only reading one that is there.
- StructuralCaches abstracts the serializer to one that reads back what it wrote and the digest to a function, free of collisions where damage is concerned; directory creation, timestamps' resolution and several processes installing into one partition at once are not modelled.
- CompactIndexes.LoadOrBuildCached: what a hit says of a manifest changed from outside assumes that the digest has no collisions and that the digest named in it was not changed; the image is the one its own digest names.
- HTTP and MCP transport, JSON shaping, natural-language intent parsing, sketches, the decompiler, dump and PDB loading, workspaces and search: plumbing, heuristics, or members without a property that spans functions.
