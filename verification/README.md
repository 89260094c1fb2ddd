# A verified model of woah's core

woah is a shared programmable world: objects with verbs and properties, a small
stack virtual machine for the verbs, cells of object state replicated between
hosts, and a browser client that shows it all. This project models the parts
where the repository's own promises are hardest to keep and proves them in
Dafny 4.11. `dafny verify dfyconfig.toml` checks everything.

## What is modelled

**Bytecode and its verifier** (`StackFlow`, `TinyBytecode`, `TinyVm`).
`StackFlow.AssignHeights` is the worklist pass, with its queue and height table,
over an abstract height-labelled graph; `TinyBytecode` gives it the graph of a
program (operand shapes, the stack-effect table, jump and handler edges).
`TinyVm` models the interpreter separately, row by row from its own source, with
frames, locals, literals, handler stacks, raises, calls and returns, and its own
tables of what each row reads, pops and pushes. The two meet in `EffectTableExact`,
`ShapeFaultExactly`, `RowFaultExactly` and `EdgesAreTaken`, which say that the
verifier's checks and edges are neither too few nor too many, and in
`InstalledRunsNeverFault`: no run of installed code, through any errors and calls,
ever fails a stack check or reads a local, literal or operand out of range.

**Verb purity** (`VerbPurity`, `PurityPropagation`, `PurityReceivers`). The
propagation loop computes the greatest set of verbs closed under the purity rule and
writes the flags into a `World` object; the order in which verbs are visited does not
matter. `PurityReceivers` states dispatch as the running system does it, from the
receiver's side, with aliases and features, and says for which receivers a mark holds.

**Authority cells** (`AuthorityCells`, `AuthorityMerge`, `AuthorityRepair`,
`AuthorityState`, `AuthorityReturns`, `AuthorityRuns`, `AuthorityPages`,
`AuthorityTwice`, `AuthorityCombine`, `ReadClosure`). A serialized world is a map from cells to
pages; a slice is a list of page references with provenance plus the pages it
carries. `PlanningCache` is the cache merged into in place. The results are about
when a merge returns, whole runs of merges, those that stop included, merging
twice, combining in groups, and what a read-closure filter preserves. A page hash
identifies its page, so a reference holds the page itself. The order in which ids
are written out is a parameter: any function that lists a set.

**Account repair** (`AccountRepair`, `AccountConvergence`, `AccountPlan`,
`AccountVerdicts`, `AccountPlanner`, `AccountOutcome`). The planner as a specification
(`PlanOf`), as the loops that compute it, and `Apply` for its patches.
`AccountVerdicts` ties every conflict to the stored rows that warrant it.

**Ranks and ordered edges** (`FractionalRank`, `OrderedEdges`). Base-62 keys, the
midpoint search, and child lists kept by rank as a refinement of plain lists.

**Client protocols** (`NetFeeds`, `ViewStore`, `ClientProjections`). Each is a
machine over events, with a class holding the source's fields whose methods are
proved to take exactly the machine's steps.

**Codecs** (`CapabilityAds`, `ApiKeyIds`). Bloom filters through hex text, with the
digest as a parameter; routed key ids through UTF-8 and hex.

## Where the code does less than it says

Each of these has a lemma with an input that shows it and a theorem with the
exact condition.

- A verb marked pure may run an unmarked verb through `this` all the same: on an heir
  that overrides the callee under an alias only, and on an object that has the verb from
  a feature. The comment at src/core/authoring.ts:181-183 promises it for all runtime
  receivers; `PurityReceivers.ReceiverIsCovered` says for which the call is looked at,
  `MarkedRunsOnlyPure` is the guarantee there, and `OverlookedReceivers` has the inputs.
- Recorded provenance can go down, in merges that return and in merges that stop. The
  comment at src/core/authority-slice.ts:763-765 says it never does;
  `AuthorityRuns.RankDropsExactly` says exactly when it does: when the merge reaches a
  reference by which a weaker page repairs a stub (lines 729-737) or fills a cell that
  is on record but missing. Inputs: `StubToRepair`, `GapToFill`, and for a merge that
  stops `InterruptedDropsRank`.
- A merge that stops on a missing page has already recorded provenance, so a stub, or a
  cell the world does not even have, can end up on record as authoritative without its
  owner's page: `AuthorityRuns.StoppedMergeMislabels`, with inputs in `MislabelledStub`
  and `MislabelledGap`. When a merge stops is `AuthorityReturns.MergeStopsExactly`.
- Merging a slice again is not always possible, and not always without effect:
  `AuthorityTwice.MergeIsIdempotent` says when. A slice that only names an unchanged
  live row stops the second time if the contents repair has rewritten the row:
  `ByReferenceMergesOnce`, with an input in `RoomMergesOnce`. A carried row that repeats
  a child, or a repeated session id, is changed by the second merge:
  `RepeatedChildIsTidied`, `RepeatedIdExtends`.
- A slice may carry a lineage page without referring to it. The full slice can be
  materialized, the filtered one cannot: `ReadClosure.FilteredBuildsExactly`, with an
  input in `CarriedOnlyIsLost`.
- Folding patches loses a later clear of a group that an earlier patch wrote, and any
  clear of the group with the empty name: `ClientProjections.FoldIsSequentialIff`, with
  an input in `WrittenThenCleared`.
- An object whose fields all end up empty (a name of "", say) is not shown, even if it
  was shown before: `ClientProjections.VisibleExactly`, with inputs in
  `EmptyNameIsHidden` and `EmptyNameHidesKnown`.
- A frame of an own turn that arrives once the turn has settled is dropped, whether or
  not its observations were shown: `NetFeeds.NotShownExactly`, with an input in
  `LateFrameIsLost`.
- An observation that reaches a cached view without listeners is not remembered; a
  later subscriber is shown the old value as current and no read is started:
  `ViewStore.CurrentUnlessMissed`, with such entries in `StaleShownAsCurrent`.

## Model

| member | source | states |
|---|---|---|
| `StackFlow.AssignHeights` | src/core/authoring.ts:563-596 | the worklist accepts exactly when no path from row 0, handler edges included, underflows, overflows, leaves the code or meets another path at a different height; the table is exactly the reachable rows; a rejection is exhibited by real control flow; no row is processed twice |
| `StackFlow.RunPass` | src/core/authoring.ts:578-595 | the queue loop ends with a certificate or with a rejection that some path explains |
| `StackFlow.ProcessHead` | src/core/authoring.ts:580-594 | processing one row keeps the discovered rows reachable, distinct and equal to the table |
| `StackFlow.EnqueueStep` | src/core/authoring.ts:566-576 | queueing a reachable configuration keeps the table right, or the refusal is a real conflict or escape |
| `StackFlow.CertifiedIsSafe` | src/core/authoring.ts:563-596 | any table closed under control flow proves the program stack-safe, and holds the height of everything reachable |
| `TinyBytecode.FlowGraphBounded` | src/core/authoring.ts:580-615 | edges of a row that passes its check, handler edges included, never carry a height outside 0..max_stack |
| `TinyBytecode.VerifyBytecode` | src/core/authoring.ts:473-496 | accepts exactly the installable programs: header limits, every row's shape, stack safety; what shape and stack safety come to is said by the interpreter's tables in the rows below |
| `TinyVm.EffectTableExact` | src/core/authoring.ts:617-727 | for every row and height, the interpreter's pops, peeks and pushes succeed exactly when the table's demand and the bound are met, and leave the height the table says |
| `TinyVm.ShapeFaultExactly` | src/core/authoring.ts:508-561 | the shape check refuses exactly rows with an unknown opcode, with more or fewer cells than the interpreter reads, or with a cell out of the range of the local, literal, error list, offset, count or builtin the interpreter takes it for |
| `TinyVm.RowFaultExactly` | src/core/authoring.ts:580-594 | the stack check refuses exactly the heights at which the interpreter would run out of stack, and a protected region with no room for the error |
| `TinyVm.EdgesAreTaken` | src/core/authoring.ts:598-615 | every edge of the flow graph is where the interpreter goes on for some outcome of the row, or where a handler it pushes is entered |
| `TinyVm.RowExecutes` | src/core/tiny-vm.ts:260-683 | a row that passes its static check runs without a stack fault |
| `TinyVm.RaiseSafe` | src/core/tiny-vm.ts:202-218 | unwinding over any frames lands in a handler at a height its control flow allows, or escapes |
| `TinyVm.StepSafe` | src/core/tiny-vm.ts:166-720 | every step of the multi-frame machine keeps every frame and stacked handler at a height that its own control flow gives it |
| `TinyVm.VerifiedRunsSafe` | src/core/tiny-vm.ts:162-720 | safety over every run, whatever branches, errors and calls happen |
| `TinyVm.RecordedHeights` | src/core/authoring.ts:563-596 | in every safe state the running row has the recorded height and each handler's target has saved height plus one recorded |
| `TinyVm.InstalledRunsNeverFault` | src/core/authoring.ts:473-496 | bytecode the verifier accepts never underflows, overflows or leaves its bounds at run time, and never reads a local, a literal or another cell out of range |
| `TinyVm.RunsReadInRange` | src/core/tiny-vm.ts:1571-1587 | over every run of installable code each local, literal, offset and count a row touches is there; the offset of a protected region, which the shape check leaves out, because control flow arrives |
| `TinyVm.InstalledFits` | src/core/tiny-vm.ts:1432-1439 | accepted bytecode never fails the limits the interpreter checks when it makes a frame |
| `VerbPurity.AnalyzeBytecodePurity` | src/core/authoring.ts:44-66 | one scan: impure if some row changes state, unknown if some row dispatches or names no builtin, pure otherwise |
| `VerbPurity.DescendantsOf` | src/core/authoring.ts:159-175 | each object reachable by child links, once, on cyclic hierarchies too |
| `VerbPurity.CollectThisCallTargets` | src/core/authoring.ts:122-141 | the callees of a this-call: the verb dispatch gives the definer, and every override below, and no other |
| `VerbPurity.ResolvePassTarget` | src/core/authoring.ts:143-157 | the parent-chain walk, with its seen set, finds what the specification walk finds |
| `VerbPurity.PassTargetIsNearest` | src/core/authoring.ts:143-157 | the pass target is the definition of the nearest proper ancestor that has one, also when the parent chain is a cycle |
| `PurityPropagation.RuleMonotone` | src/core/authoring.ts:256-312 | more pure verbs never make a verb impure |
| `PurityPropagation.StillPure` | src/core/authoring.ts:266-306 | one verb's check decides the purity rule: recorded calls, pass target, every this-target, declared opaque calls |
| `PurityPropagation.Stabilize` | src/core/authoring.ts:263-312 | terminates with the greatest set closed under the rule |
| `PurityPropagation.OrderDoesNotMatter` | src/core/authoring.ts:263-312 | with unique keys, the greatest set is the same for every order in which the verbs are visited |
| `PurityPropagation.CommitFlags` | src/core/authoring.ts:313-325 | after the commit each bytecode verb with an entry carries its mark, and nothing else has changed |
| `PurityPropagation.SecondPassChangesNothing` | src/core/authoring.ts:201-327 | on the committed world the greatest set is the same and committing it is the identity |
| `PurityPropagation.MarkedReachesOnlyPure` | src/core/authoring.ts:201-327 | no chain of passes and this-calls leads from a marked verb to a verb that is unmarked or plainly impure |
| `PurityPropagation.EntriesExactly` | src/core/authoring.ts:218-237 | a pass looks at exactly the bytecode verbs of the listed objects, each with its calls and declaration, and with what its rows say of it, opcode by opcode |
| `PurityReceivers.ReceiverIsCovered` | src/core/authoring.ts:122-141 | what a this-call runs on a receiver that inherits the caller is among the targets exactly if it is found at or above the definer, answers by its own name, or is what the definer itself would run |
| `PurityReceivers.TargetsAreReached` | src/core/authoring.ts:122-141 | every target is what some receiver, the definer or a present descendant, runs |
| `PurityReceivers.MarkedRunsOnlyPure` | src/core/authoring.ts:178-200 | whatever object a marked verb runs on, no run of passes and this-calls answered by name on its chain enters an unmarked or impure bytecode verb, or a native one neither marked nor vouched for by its caller |
| `PurityReceivers.MarkedExactly` | src/core/authoring.ts:256-312 | a verb stays marked exactly if nothing in it is impure and it has no calls, or each of its calls is vouched for: its pass finds a trusted verb, each this-call has a target and only trusted ones, other calls are declared |
| `PurityReceivers.OverlookedReceivers` | src/core/world.ts:3974-4000 | an input: a marked verb whose this-call runs an unmarked verb on an heir that overrides by an alias, and on an object that has the verb from a feature |
| `PurityPropagation.World.PropagateVerbPurity` | src/core/authoring.ts:201-327 | in place, the world's flags become those of the greatest pure set, and the count returned is zero exactly when every flag already agreed with it |
| `PurityPropagation.World.PropagateAgain` | src/core/authoring.ts:201-327 | an immediate second run rewrites nothing |
| `AuthorityCells.MaterializedCell` | src/core/shadow-state-pages.ts:268-362 | each cell after materializing pages: its new page, its old page, or an empty live row of a new object |
| `AuthorityCells.MaterializedWellFormed` | src/core/shadow-state-pages.ts:268-320 | materializing keeps every cell under its own key and every object with a lineage and a live row |
| `AuthorityMerge.ReferredAfter` | src/core/authority-slice.ts:697-767 | a referred cell and its recorded provenance after a merge follow from that reference's own decision, whatever else the slice holds |
| `AuthorityMerge.UnreferredAfter` | src/core/authority-slice.ts:697-812 | a present cell no reference names keeps its page and its record |
| `AuthorityMerge.ScaffoldFacts` | src/core/authority-slice.ts:776-789 | scaffolding adds at most one lineage page per object, only for objects that are absent and otherwise unidentified |
| `AuthorityState.PlanningCache.MergeCellPages` | src/core/authority-slice.ts:677-813 | the in-place merge computes the specified world and table; on a failure the world is unchanged and the records made so far remain |
| `AuthorityState.PlanningCache.RepairContents` | src/core/authority-slice.ts:840-875 | the row-by-row loop computes the specified repair |
| `AuthorityState.PlanningCache.Merge` | src/core/authority-slice.ts:256-277 | the whole merge: sessions, pages, counters, tombstones, repair and pruning, and the state left by a failure |
| `AuthorityState.LeaseIsMonotone` | src/core/authority-slice.ts:596-635 | a session that keeps its actor never loses lease time, and changes in nothing else |
| `AuthorityState.LeaseIsTheLonger` | src/core/authority-slice.ts:596-618 | a session is leased for longer only by an earlier one of the same id and actor, and then exactly as long |
| `AuthorityState.MergedSessions` | src/core/authority-slice.ts:584-618 | after a merge that returns the sessions are exactly the incoming ones whose actor the merged world has |
| `AuthorityState.MetadataOnlyGrows` | src/core/authority-slice.ts:815-838 | counters end as the larger of the two values, and tombstones as the union |
| `AuthorityState.SessionsMergeTwiceIff` | src/core/authority-slice.ts:584-635 | merging and pruning the same sessions again changes nothing exactly when the last surviving session with each id leaves the others' leases alone |
| `AuthorityState.DistinctSessionsRest` | src/core/authority-slice.ts:596-635 | with distinct ids it always does |
| `AuthorityRepair.RepairedContents` | src/core/authority-slice.ts:840-875 | a present object is in a container's contents exactly when its location is that container; absent members stay listed |
| `AuthorityRepair.RepairTouchesContentsOnly` | src/core/authority-slice.ts:840-875 | repair never changes a location or any other cell content |
| `AuthorityRepair.RearrangedRepair` | src/core/authority-slice.ts:840-875 | repairing any mix of repaired, normalized and untouched rows gives the same rows, up to repeated children of the normalized ones |
| `AuthorityRepair.RepairIsConfluent` | src/core/authority-slice.ts:840-875 | repairing any mix of repaired and unrepaired rows ends in the same world |
| `AuthorityRepair.RepairIsIdempotent` | src/core/authority-slice.ts:840-875 | repairing a repaired world changes nothing |
| `AuthorityReturns.MergeStopsExactly` | src/core/authority-slice.ts:754-812 | a merge of a key-unique slice stops exactly on a reference it must resolve and cannot, or on a page landing for an object that is absent and has no inline lineage |
| `AuthorityReturns.CompleteSliceMerges` | src/core/authority-slice.ts:677-813 | key-unique slices that carry their pages and identify their objects merge into any world |
| `AuthorityReturns.CombinedSliceMerges` | src/core/authority-slice.ts:284-378 | a combination of slices that carry their pages never stops a merge |
| `AuthorityReturns.DecidedPrefix` | src/core/authority-slice.ts:697-767 | the decisions up to the first failing reference are made and none after it |
| `AuthorityRuns.RecordsAreSticky` | src/core/authority-slice.ts:77-123 | over any run, merges that stop included, a present tracked cell on record as authoritative stays present and on record |
| `AuthorityRuns.AuthorityIsSticky` | src/core/authority-slice.ts:677-813 | over any run of key-unique slices, merges that stop included, a tracked cell shows the owner's page of the latest merge that returned with one, or its initial one, and stays recorded as authoritative |
| `AuthorityRuns.MergeKeepsAuthority` | src/core/authority-slice.ts:677-813 | the same for one merge, contents repair included |
| `AuthorityRuns.NameLostOnlyByOwner` | src/core/authority-slice.ts:738-752 | a named identity becomes an id-as-name stub in a merge exactly when its owner's page says so |
| `AuthorityRuns.NamesSurviveRuns` | src/core/authority-slice.ts:677-813 | over any run without an owner's stub page, merges that stop included, a name is never lost |
| `AuthorityPages.UnrankedFollowsOwner` | src/core/authority-slice.ts:719-752 | a present cell for which no provenance is kept shows the owner's page after a merge if the slice has one, and its old page otherwise, with or without a table |
| `AuthorityPages.PlainAfterMerge` | src/core/authority-slice.ts:719-752 | so does a property or a verb after a whole merge, repair included |
| `AuthorityPages.PlainFollowsOwner` | src/core/authority-slice.ts:677-813 | over any run, merges that stop included, a present property or verb shows the owner's page of the latest merge that returned with one, and else its first page, whatever is on record |
| `AuthorityPages.DerivedLandsExactly` | src/core/authority-slice.ts:719-752 | a derived page lands on a present tracked cell and its record exactly if it is no weaker than a derived record and does not put an id in place of a name, or if it brings a name where an id stands and the owner is not on record |
| `AuthorityPages.RepeatedPage` | src/core/authority-slice.ts:705-711 | a page that repeats the cell leaves it and puts the stronger provenance on record |
| `AuthorityPages.UncarriedIsKept` | src/core/authority-slice.ts:754-761 | in a merge that returns, a page that is not carried leaves the cell and its record alone |
| `AuthorityPages.MissingCellIsFilled` | src/core/authority-slice.ts:719-767 | a missing cell takes the page of its reference from any source, and goes on record with it |
| `AuthorityPages.NothingElseAppears` | src/core/authority-slice.ts:776-812 | no other cell appears, but for a carried lineage and an empty live row of a new object |
| `AuthorityRuns.RankDropsExactly` | src/core/authority-slice.ts:713-767 | in any merge of a key-unique slice, returned or stopped, the recorded rank of a cell drops exactly when the merge reached a reference by which a weaker named page repairs a stub or a weaker page fills a missing cell |
| `AuthorityRuns.OneLineageDropsRank` | src/core/authority-slice.ts:729-737 | one lineage page is enough for either |
| `AuthorityRuns.InterruptedDropsRank` | src/core/authority-slice.ts:729-767 | and is enough in a merge that stops right after it, while the world keeps its page |
| `AuthorityRuns.OwnedIffReached` | src/core/authority-slice.ts:697-767 | a cell not on record as authoritative, present or not, is so after a merge, returned or stopped, exactly if its owner's reference was reached |
| `AuthorityRuns.StoppedMergeMislabels` | src/core/authority-slice.ts:697-767 | a merge that stops leaves a cell, present or not, on record as authoritative without its owner's page exactly when the world lacks that page and its reference was reached, or the cell was on record already |
| `AuthorityRuns.MislabelledStub` | src/core/authority-slice.ts:697-767 | an input: a stub on record as authoritative after a merge that stopped |
| `AuthorityRuns.MislabelledGap` | src/core/authority-slice.ts:697-767 | an input: a missing cell on record as authoritative after a merge that stopped |
| `AuthorityTwice.SecondDecision` | src/core/authority-slice.ts:697-767 | in a second merge a reference fails exactly when it has to be resolved and does not carry its page, and only a live page the first merge left there is written again |
| `AuthorityTwice.MergesAgainIff` | src/core/authority-slice.ts:677-813 | a second page merge returns exactly when every reference carries its page, holds already, or may not replace |
| `AuthorityTwice.MergeIsIdempotent` | src/core/authority-slice.ts:256-277 | for any key-unique slice whose merge returned: merging again returns exactly under that condition, and then leaves the same world, sessions, counters and tombstones exactly when no row written again repeats a child and every session lease rests |
| `AuthorityTwice.CompleteMergeIsIdempotent` | src/core/authority-slice.ts:256-277 | for slices that carry their pages, rows as materialized and distinct session ids, merging twice is merging once |
| `AuthorityTwice.RepeatedChildIsTidied` | src/core/shadow-state-pages.ts:354-362 | a carried row that repeats a child and that repair rewrote: the second merge returns and leaves another world |
| `AuthorityTwice.RepeatedIdExtends` | src/core/authority-slice.ts:596-635 | two sessions with one id: a second merge gives the earlier one the later one's lease |
| `AuthorityTwice.MergedContentsAgree` | src/core/authority-slice.ts:256-277 | after any merge contents and locations agree for every present object |
| `AuthorityTwice.ByReferenceMergesOnce` | src/core/authority-slice.ts:754-761 | an owner's reference to an unchanged live row, without its page, stops the second merge whenever repair rewrote the row |
| `AuthorityTwice.RoomMergesOnce` | src/core/authority-slice.ts:840-875 | such a world: a room still listing a bag that is not there |
| `AuthorityCombine.CombineSlices` | src/core/authority-slice.ts:284-378 | the loops over two maps compute the specified combination |
| `AuthorityCombine.CombinePicksLastMaximal` | src/core/authority-slice.ts:91-113 | per cell the last reference maximal in source rank, then named over stub, for exactly the objects some slice identifies |
| `AuthorityCombine.CombinedPrevails` | src/core/authority-slice.ts:298-313 | what a combination refers to prevails over every other reference for its cell, by the order of sources, then by bringing a name, then by coming later |
| `AuthorityCombine.CombinedCovers` | src/core/authority-slice.ts:298-378 | every cell referred to, of an object whose identity some slice supplies, is referred to |
| `AuthorityCombine.CombinedIsMergeable` | src/core/authority-slice.ts:353-377 | a combined slice has unique keys, carries its pages and identifies every object it refers to |
| `AuthorityCombine.WinnersJoin` | src/core/authority-slice.ts:302-322 | the winners of a concatenation are the winners of the parts joined by score, later wins ties |
| `AuthorityCombine.CombineNests` | src/core/authority-slice.ts:284-378 | combining lineage-closed slices in groups and then the results is combining all at once, to the same slice |
| `ReadClosure.ReadObjectPropertyValue` | src/core/property-read.ts:12-36 | the cursor loop computes the specified reading and ends on cyclic parent chains |
| `ReadClosure.ReadingIsNearest` | src/core/property-read.ts:12-36 | a reading finds the owner, the own value, the name, or the default of the nearest forebear that defines one, on cyclic chains too, and nothing exactly where none does |
| `ReadClosure.ExpandClosure` | src/core/authority-slice.ts:522-536 | the loops add exactly the ancestors within 32 steps and tell ancestors from closure members |
| `ReadClosure.ExpandedExactly` | src/core/authority-slice.ts:507-536 | the expansion is exactly the closure and the first 32 recorded parents of its members |
| `ReadClosure.FilterAuthorityToReadClosure` | src/core/authority-slice.ts:488-571 | the filtered slice refers to exactly what a commit needs: every page of an object in the expansion, but of the verbs only those of closure members, and only those read where the reads are known |
| `ReadClosure.FilteredWorldExactly` | src/core/authority-slice.ts:546-564 | a cell is in the filtered world exactly if the full one has it and a commit needs it, and it holds the same page: live rows, properties, identities and read verbs |
| `ReadClosure.FilterKeepsLineage` | src/core/authority-slice.ts:411-461 | for any page predicate every kept object keeps its identity, nothing else is added, nothing admitted is lost |
| `ReadClosure.FilteredBuildsExactly` | src/core/authority-slice.ts:411-461 | a filtered slice can be materialized exactly when the full slice refers to the identity of each kept object |
| `ReadClosure.CarriedOnlyIsLost` | src/core/authority-slice.ts:229-254 | an input: a slice that can be materialized and, filtered to everything, cannot |
| `ReadClosure.CombinedIsStandalone` | src/core/authority-slice.ts:353-377 | a combination of slices that carry their pages has one page per cell, carries them and identifies every object |
| `ReadClosure.SeedCell` | src/core/authority-slice.ts:205-254 | the world of a slice holds exactly the pages it refers to, live rows aside |
| `ReadClosure.FilterPreservesReads` | src/core/authority-slice.ts:488-571 | every property of a closure object whose parent chain ends within 32 steps reads the same, or is missing the same, after filtering |
| `ReadClosure.FilterReadsExactly` | src/core/authority-slice.ts:522-571 | without that bound: it reads the same exactly when its default is found inside the expansion |
| `AccountPlanner.PlanAccountStateRepair` | src/core/account-state-repair.ts:119-400 | the planner's loops compute the specified plan, with exactly the conflicts that the stored rows warrant |
| `AccountConvergence.AgentConverges` | src/core/account-state-repair.ts:224-340 | an agent's own patches leave nothing to patch and no conflict for that agent |
| `AccountConvergence.CredentialsConverge` | src/core/account-state-repair.ts:420-480 | revoking a retired agent's keys leaves credentials that need no further patch |
| `AccountPlan.RepairConverges` | src/core/account-state-repair.ts:119-400 | planning again after applying a conflict-free plan gives the empty plan with no conflict |
| `AccountPlan.PlanIsComplete` | src/core/account-state-repair.ts:137-216 | after the plan the registry is duplicate-free and holds every same-authority agent of an account human, and both counters equal a recount |
| `AccountPlan.PlanIsConservative` | src/core/account-state-repair.ts:254-340 | a flag set by the plan is programmer or wizard, on a registered ledger agent that is neither retired nor deactivated |
| `AccountPlan.CountersAreExact` | src/core/account-state-repair.ts:353-381 | after the plan the counters are the numbers of registered agents not retired and of programmers among them |
| `AccountPlan.RegistryKeepsOrder` | src/core/account-state-repair.ts:137-147 | the repaired registry begins with the old one without repetitions, behind the primary actor if that was missing |
| `AccountOutcome.PlanAchieves` | src/core/account-state-repair.ts:254-340 | after a conflict-free plan a retired agent is deactivated, no programmer, without the surface and locked out; a provisioned one is active, programmer and wizard, with the surface; any other is unchanged |
| `AccountOutcome.RetiredIsLockedOut` | src/core/account-state-repair.ts:420-480 | a retired agent's current key is revoked and no other is active |
| `AccountOutcome.PlanTouchesOnly` | src/core/account-state-repair.ts:254-340 | a conflict-free plan does no more to an agent's row than its history calls for: other flags, features and keys and every identity field are kept |
| `AccountOutcome.OthersUntouched` | src/core/account-state-repair.ts:119-400 | humans and unregistered agents keep their rows, and everyone does if there is a conflict |
| `AccountOutcome.GrantsAreFresh` | src/core/account-state-repair.ts:266-312 | an agent is made a programmer only if it was no wizard and either was not in the registry or had the surface already |
| `AccountVerdicts.AgentFaultsExactly` | src/core/account-state-repair.ts:224-340 | each conflict about an agent is found exactly when its row and the ledger warrant it, code by code |
| `AccountVerdicts.ConflictsExactly` | src/core/account-state-repair.ts:119-400 | the plan reports a conflict exactly when the stored state warrants it: header, primary actor, registry, candidates, ledger aliases, stray agents, agents |
| `AccountVerdicts.ConflictedExactly` | src/core/account-state-repair.ts:384-389 | a plan is refused exactly when something stored warrants a conflict |
| `AccountVerdicts.AgentConflictsExactly` | src/core/account-state-repair.ts:236-340 | a readable registered agent is free of conflicts exactly if pointer and ledger name each other, nothing opposes its grant or its surface agrees with its flag, and its keys are in order |
| `FractionalRank.StringOrderIsFractionOrder` | src/core/fractional-rank.ts:13-20 | for keys without trailing zeros string order is the order of base-62 fractions |
| `FractionalRank.Midpoint` | src/core/fractional-rank.ts:62-106 | terminates with a valid key strictly between its bounds, at most one digit longer than the longer bound |
| `FractionalRank.RankBetween` | src/core/fractional-rank.ts:114-131 | a valid key strictly between any two neighbours; fails exactly on malformed or misordered ones |
| `FractionalRank.AppendGrowth` | src/core/fractional-rank.ts:133-161 | n appends from the first key give a key of exactly 1 + n div 31 digits |
| `FractionalRank.PrependGrowth` | src/core/fractional-rank.ts:133-171 | the same for n prepends |
| `OrderedEdges.RankLandsInSlot` | src/core/ordered-edge.ts:114-132 | a rank between the neighbours of a slot sorts to exactly that slot |
| `OrderedEdges.PutChild` | src/core/ordered-edge.ts:114-132 | reading the neighbours, taking a rank and writing one edge always succeeds on an ordered index and is an edit |
| `OrderedEdges.EditRefinesList` | src/net/ordered-edges.ts:117-138 | every insert or move keeps ranks valid and ascending and does to the order what remove-then-insert does to a list |
| `OrderedEdges.RunRefinesList` | src/core/ordered-edge.ts:114-132 | over any run the child order is the list model's |
| `OrderedEdges.PutLands` | src/core/ordered-edge.ts:114-132 | a child put under a parent has its only row there, last if appended, at the floor of a number in range, and else at the nearer end; no other row moves |
| `OrderedEdges.DetachRemoves` | src/net/ordered-edges.ts:117-138 | a removed child has no row left and no other row moves |
| `NetFeeds.PeerFramesAscend` | src/client/net-feed.ts:1021-1050 | over any events the peer frames shown for a scope have strictly increasing sequence numbers |
| `NetFeeds.OwnTurnShownOnce` | src/client/net-feed.ts:649-773 | an own turn is shown from its reply or from its frames, never both, and one of its frames comes as peer traffic only after 256 later turns have settled |
| `NetFeeds.SettlementShows` | src/client/net-feed.ts:499-541 | a turn's end shows its reply alone or exactly the new frames that arrived for it while it was pending, in order; buffers exist for pending turns only |
| `NetFeeds.NotShownExactly` | src/client/net-feed.ts:1021-1050 | over any run, a new frame is not shown exactly when it arrives for one of the 256 newest settled turns, was buffered for a turn still pending or superseded by its reply, or stands at a settled place |
| `NetFeeds.RunHasFate` | src/client/net-feed.ts:649-773 | every new frame is dropped, held by exactly one pending turn, or shown, as its arrival and its turn's end decide |
| `NetFeeds.LateFrameIsLost` | src/client/net-feed.ts:1028-1029 | an input: an accepted reply without observations and then a frame of the turn show nothing |
| `NetFeeds.LiveShownExactly` | src/client/net-feed.ts:1055-1069 | a live frame is shown at once exactly if it has a scope and does not name a turn submitted and not yet over, or one of the 256 newest settled |
| `NetFeeds.ForeignLiveIsShown` | src/client/net-feed.ts:1055-1069 | a live frame that names no turn of ours is always shown |
| `NetFeeds.ReplyGuardsItsFrame` | src/client/net-feed.ts:1042-1046 | without echo ids, a frame at the scope and number of an accepted reply is not shown during the next 255 events |
| `NetFeeds.RememberNewest` | src/client/net-feed.ts:730-739 | the bounded set keeps the newest 256 entries |
| `NetFeeds.RememberIsNewest` | src/client/net-feed.ts:730-739 | over a history of distinct turns the bounded set is the newest 256 of all |
| `NetFeeds.NetFeed.SettleTurn` | src/client/net-feed.ts:649-718 | settling a turn in place takes the machine's step and emits what it says |
| `NetFeeds.NetFeed.FailTurn` | src/client/net-feed.ts:529-540 | so does a failing turn |
| `NetFeeds.NetFeed.HandleObservationsFrame` | src/client/net-feed.ts:1021-1050 | so does an observations frame |
| `NetFeeds.NetFeed.HandleLiveObservationsFrame` | src/client/net-feed.ts:1055-1069 | so does a live frame, which changes no state |
| `ViewStore.AlwaysGood` | src/client/framework.ts:1111-1156 | after any events at most one read is open, a watched entry that is not settled is being read or shows an error, and a settled value answers a read started at the present requested revision |
| `ViewStore.RestingEntryIsRight` | src/client/framework.ts:1111-1156 | once nothing is in flight a watched entry shows an error or the answer to the present revision |
| `ViewStore.StepUpToDate` | src/client/framework.ts:1122-1156 | no step installs an answer to an outdated revision |
| `ViewStore.RevisionTellsChanges` | src/client/framework.ts:1158-1181 | the snapshot's revision grows with every visible change, and only then |
| `ViewStore.ShownValueExactly` | src/client/framework.ts:1122-1156 | the value shown is always the one last installed by a read, or the seed; no refresh, failure or outdated answer takes it away |
| `ViewStore.BusyIsReading` | src/client/framework.ts:1122-1156 | over any run, loading and refreshing are said of a first value and of a stale one, and of a watched entry only while a read is in flight |
| `ViewStore.ReadsAreWanted` | src/client/framework.ts:1111-1156 | no read is begun without listeners, beside another, or for a complete and current value |
| `ViewStore.CurrentUnlessMissed` | src/client/framework.ts:1069-1073 | over any run, a complete and current value answers a read that began after every observation exactly when no observation since then reached the entry unwatched |
| `ViewStore.SettledIsNotOutdated` | src/client/framework.ts:1111-1156 | since the read it answers began, no refresh and no watched observation has reached a settled entry |
| `ViewStore.StaleShownAsCurrent` | src/client/framework.ts:1047-1056 | from any settled unwatched entry: an observation and then a subscriber leave it settled, with no read started |
| `ViewStore.ReadAndLeft` | src/client/framework.ts:1047-1056 | such an entry: subscribed to, read, and left |
| `ViewStore.ViewEntry.InvalidateEntry` | src/client/framework.ts:1111-1120 | in place, the machine's invalidation |
| `ViewStore.ViewEntry.AddListener` | src/client/framework.ts:1047-1056 | in place, the machine's subscription, which reads only what is wanted |
| `ViewStore.ViewEntry.ReadOver` | src/client/framework.ts:1150-1154 | in place, the end of a read, restarted when it has been overtaken |
| `ClientProjections.FoldIsSequentialIff` | src/client/framework.ts:2010-2067 | folding any list of patches equals applying them in order exactly when, for each group, what its last clear should have removed is written over since |
| `ClientProjections.FoldIsSequential` | src/client/framework.ts:2022-2067 | so it is when no group is cleared after being written |
| `ClientProjections.WrittenThenCleared` | src/client/framework.ts:2064-2067 | an input: a group written and then cleared is gone when applied in order and still there in the fold |
| `ClientProjections.SequencedShowsThrough` | src/client/framework.ts:764-803 | after sequenced updates every field, property and catalog field shows the last update that defines it, over all live and optimistic layers; a property, a catalog field or a field that counts makes the object visible |
| `ClientProjections.VisibleExactly` | src/client/framework.ts:764-772 | for any projection and updates an object is shown exactly if its canonical value, the confirmed patch and what is left of its layers come to a property, a catalog group or a field that counts |
| `ClientProjections.UnlayeredFinal` | src/client/framework.ts:764-772 | without layers, each field or property ends as the last write, else as confirmed before, else as canonical |
| `ClientProjections.SequencedLeaves` | src/client/framework.ts:792-803 | the confirmed patch and the layered patches that updates leave, read off the inputs |
| `ClientProjections.EmptyNameIsHidden` | src/client/framework.ts:2006-2008 | confirming an empty name hides an object of which at most the name is known |
| `ClientProjections.EmptyNameHidesKnown` | src/client/framework.ts:2006-2008 | an input: an object shown by its name is hidden by an empty one |
| `ClientProjections.ClearPatchFieldsFromLayers` | src/client/framework.ts:2095-2136 | the loop over layers removes confirmed fields and drops emptied layers as specified |
| `ClientProjections.ClientProjection.ConfirmSequenced` | src/client/framework.ts:792-803 | in place, the specified sequence of merges and clears |
| `ClientProjections.ClientProjection.ObserveObject` | src/client/framework.ts:764-772 | the layers composed in order, hidden when there is nothing to show |
| `CapabilityAds.HexRoundTrip` | src/core/capability-ad.ts:182-190 | bytes survive the trip through hex text |
| `CapabilityAds.BuildBloom` | src/core/capability-ad.ts:150-156 | the byte-buffer loops build the specified filter |
| `CapabilityAds.FilterAnswers` | src/core/capability-ad.ts:158-172 | a filter answers yes exactly to lists all of whose bits its own atoms set |
| `CapabilityAds.NoFalseNegatives` | src/core/capability-ad.ts:93-104 | an ad covers every permitted turn whose atoms it was built from, for every width, round count and digest |
| `CapabilityAds.RankingIsExact` | src/core/capability-ad.ts:119-133 | ranking returns exactly the unexpired covering ads, as often as offered, sorted by score and then node |
| `CapabilityAds.CoversExactly` | src/core/capability-ad.ts:93-108 | an ad covers a turn exactly if the scope is its own, the generations agree or one is open, it accepts every effect, and all bits of the turn's atoms are among those its atoms set |
| `CapabilityAds.RankedExactly` | src/core/capability-ad.ts:119-133 | an ad built from atoms is ranked as often as offered if it covers the turn and has not expired, and else not at all |
| `CapabilityAds.RankedByCost` | src/core/capability-ad.ts:110-133 | of two ranked ads the first is cheaper over latency, factor, transfer and penalty together, or as cheap and no later by name |
| `ApiKeyIds.DecodeEncode` | src/core/api-key-id.ts:26-49 | decoding undoes UTF-8 encoding |
| `ApiKeyIds.EncodeDecode` | src/core/api-key-id.ts:32-49 | only encodings decode: no overlong forms, surrogates or stray bytes |
| `ApiKeyIds.HexToBytes` | src/core/api-key-id.ts:39-42 | the loop reads one byte per digit pair |
| `ApiKeyIds.ReencodingIsRedundant` | src/core/api-key-id.ts:43-45 | the comparison with the re-encoded text never rejects anything the fatal decoder accepts |
| `ApiKeyIds.ParsePrinted` | src/core/api-key-id.ts:59-75 | parsing a printed id returns its root, actor and entropy |
| `ApiKeyIds.PrintParsed` | src/core/api-key-id.ts:67-75 | an id that parses is exactly the print of its parse |
| `ApiKeyIds.PrintIsInjective` | src/core/api-key-id.ts:59-65 | different keys print differently |
| `ApiKeyIds.ScopeIsRoot` | src/core/api-key-id.ts:77-81 | two ids route to one scope exactly when their roots are equal or both are catalog roots |

## Left out

- Values on the operand stack and in locals: the machine keeps heights and numbers of locals, and counts and offsets in a row are whole numbers. A handler entry sets the stack length to the saved depth, which the model takes as that height.
- A handler pop on an empty handler stack is a raised error in the interpreter and in the model; it is not a stack fault.
- Non-integer header fields of bytecode; literal sizes are numbers the verifier compares.
- Ticks, memory and wall-clock limits while bytecode runs.
- In the propagation pass ordinary dispatch is a fixed function from object and name to a verb; `PurityReceivers` says what function it is. How alias patterns match is a parameter, and remote objects are not modelled.
- PurityReceivers.MarkedRunsOnlyPure: counts calls answered by a verb's own name on the receiver's chain, and asks that each object on that chain is on its parent's list of children; what aliases and features do is in ReceiverIsCovered and OverlookedReceivers.
- Verbs are identified by object and name, as the purity map is keyed; of two own verbs with one name the first is the one rewritten.
- Legacy object-row slices, whose merge ignores provenance, and their conversion to fallback pages.
- The row order of a serialized world: a world is a map of cells, and rows are compared as such.
- Keys built by joining text with separators (cell keys, map keys) are treated as tuples.
- Cloning of merged pages and sessions, and the changed-id sets handed to callers; with cloning off the source also writes the longer lease into the caller's session.
- AuthorityRuns.AuthorityIsSticky: starts from a cell that is present and recorded; a record without a cell protects nothing, since a missing cell may be filled by any source.
- ReadClosure.FilterPreservesReads: asks for one inline page per cell, pages carried and identities referred to, as combination leaves a slice.
- Sessions, counters and tombstones of combined and filtered slices.
- Conflict details and the sorting of conflicts in an account plan; the review token and summary.
- AccountPlan.RepairConverges: asks for distinct member ids and no more members than an exact integer can count.
- Logarithmic key growth under adversarial insertion: not claimed.
- Sockets, requests, timers, backoff and session re-minting of the feed; malformed frames beyond a missing scope or sequence number.
- NetFeeds.OwnTurnShownOnce: turn ids are taken to be fresh, and echo ids to be an injective image of them.
- Pruned view entries and listeners that call back into the store while it publishes; a read definition that throws before returning a promise.
- Expiry of projection layers, canonical snapshots per scope, and optimistic call records.
- A patch group that is present but empty is the same as an absent one in layers.
- Bytes are numbers below 256 and setting a bit is defined bit by bit, not through machine words.
- CapabilityAds.HexToByte: text that is never printed (signs, blanks, hex prefixes) is not read as the platform's number parser would.
- Bloom filters of width zero.
- Ill-formed text (lone surrogates) in refs, which the platform's encoder replaces.
- The user interface, custom elements, catalogs, worker plumbing, scripts and end-to-end drivers.
