# Verified model of wago's checkers, journals and profile tools

wago is a WebAssembly runtime with a native compiler, a manager and profiling tools. This project
models seven of its components in Dafny and proves that each fast or stateful implementation agrees
with a simple specification, for every input and every run. `dafny verify dfyconfig.toml` checks it.

1. **Register-allocation flow checker** (`Transfers`, `Bits`, `Facts`, `Paths`, `Machine`, `Solving`,
   `BlockQueues`, `FlowImages`, `Validation`, `FlowCosts`, `FlowVerify`, `FlowPrecision`, `StraightLine`).
   `Verify` computes, by a worklist over indexed fact images under a budget, which bytes hold which semantic
   values. A Verified verdict means that every use in every run of a byte-level machine reads its value;
   without running into a limit the verdict is the only right one with respect to all paths, and every graph
   has limits that it cannot run into. Each step is analysed exactly, against the machine. The straight-line checker commutes with it.
2. **Emission journal** (`EmissionLogs`, `Journals`). Spans, observations, nested tokens, rollback and
   offset remapping equal a naive replay of the calls that were retained. Tokens are followed over whole
   histories of calls, and finalization runs a mapper that may call the journal again.
3. **Temporal sample resolution** (`Fenwick`, `Sorting`, `CodeImages`, `LiveSets`, `LiveImages`,
   `RowKeys`, `Charges`, `Ledgers`, `Reports`, `Samples`). A binary indexed tree of live images refines a
   plain map; checking neighbours of changed loads keeps the whole set disjoint; every sample is charged
   once to what was live at its timestamp, and all totals add up.
4. **Unwind encoder** (`Bytes`, `UnwindRules`, `CallFrames`, `UnwindPrograms`, `UnwindFraming`,
   `UnwindEncoder`). An independent decoder of call frame information (section 6.4 of DWARF Version 4,
   section 10.6 of LSB Core) recovers exactly the source rules from the encoded bytes.
5. **Locks, uninstalls and releases** (`CoordinatorLocks`, `Uninstalls`, `Releases`, `ReleaseScripts`).
   Processes are interleaved one file-system step at a time, may stop at any step, and are unbounded in
   number. The layers are stacked: publication relies on the marker protocol, which relies on the
   coordinator lock. Beside safety in every run, undisturbed processes are shown to get what they want.
6. **Strict JSON and archive preflight** (`JsonTrees`, `JsonPlaces`, `JsonDescriptors`, `JsonStrict`, `ArchiveNames`,
   `ArchivePaths`, `ArchivePreflight`, `ArchiveRecords`). One-pass validators accept exactly what pairwise specifications allow.
7. **Timeline analysis** (`SpanTrees`, `Timelines`). Cycles are found exactly, and exclusive time is the
   measure of what the immediate children leave uncovered.

`Words`, `Options` and `FiniteSets` are shared vocabulary.

Modelling choices that matter when reading the contracts:

- A panic that unwinds to a resource-limit verdict is an `ok` result that is false.
- 64-bit counters are integer ranges, so every addition to one is proved not to wrap; where the code
  relies on wrap-around (neighbour ends, location indexes) it is written out. Bit masks are naturals.
- JSON name folding and the outcome of metadata limits are parameters. A boundary mapper is a function
  from a boundary to the calls it makes on the journal and the answer it then gives; its panic ends the
  finalization with the failure that the deferred cleanup records.
- Sorting is a stable insertion sort with its own proofs; a sort that is not stable in the code is used
  only where ties do not matter to any contract.
- The lock compares an inode only while the process keeps it open, so in the lock models inodes are never
  reused. The cleanup worker compares recorded file numbers with those of a file that may long be closed;
  its check is therefore allowed to succeed on recycled numbers, and what stops a delayed worker is its
  operation. A process identity stands for a process ID with its creation time, an operation for its
  random token. Only the modelled steps rename the coordinator path or a lease file.
- Row keys join their parts with slashes. `KeyCollision` shows that identities with slashes in their IDs
  can share a row, and `KeysAgree` says exactly when, for all texts; tallies are stated per key, so they
  hold regardless.
- A struct or scalar type met by a JSON array is passed on to the array's elements, as the code does.
- An empty uninstall marker carries no operation, so recovery can tell two empty markers apart only by
  their content; the guarantees about operations and owners are about written records.

## Model

| member | source | states |
|---|---|---|
| FlowVerify.Verify | internal/regalloccheck/flow_enabled.go:615-712 | limits aside there is one right verdict for every graph, and it is the one given: invalid, or inconclusive at a reachable unsupported operation, or rejected at the first use or edge parameter that some path leaves unproved, with the right reason, or else Verified; Verified means that every use and edge parameter of every concrete run reads its semantic value; exhausting a limit is inconclusive and cannot happen under generous limits, and the work is bounded by the graph alone |
| FlowVerify.CheckedIff | internal/regalloccheck/flow_enabled.go:689-711 | a graph is safe to verify exactly when nothing reachable is unsupported and no path leaves a use or edge parameter unproved |
| FlowVerify.FailedIsFirst | internal/regalloccheck/flow_enabled.go:689-709 | whatever comes before the reported place, in block and operation order, is proved along all paths |
| FlowPrecision.OriginIsPrecise | internal/regalloccheck/flow_enabled.go:331-381 | no step is analysed too coarsely: a fact with an origin is true after any machine step exactly when the origin was true before, one that always holds does, and one with none is made false by some step that found it true |
| FlowPrecision.EdgeIsPrecise | internal/regalloccheck/flow_enabled.go:382-406 | across an edge each fact is true exactly when the fact it was renamed from was |
| FlowCosts.GenerousLimits | internal/regalloccheck/flow_enabled.go:97-104 | every graph has generous limits |
| Machine.CheckedRunsAreSafe | internal/regalloccheck/flow_enabled.go:331-406 | soundness: a checked graph is safe in every run of the byte-level machine |
| Machine.CheckedGraphIsSafe | internal/regalloccheck/flow_enabled.go:575-610 | each configuration of each run of a checked graph passes its use or edge-parameter check |
| Machine.RunExplained | internal/regalloccheck/flow_enabled.go:660-688 | every run follows a path of the graph, and the facts of that path are true of its memory and environment |
| Machine.EffectSound | internal/regalloccheck/flow_enabled.go:331-364 | a fact that survives an effect is true after any machine step of that effect |
| Machine.CopySound | internal/regalloccheck/flow_enabled.go:334-343 | copies, overlapping ones included, move the bytes that the moved facts speak about |
| Machine.SwapSound | internal/regalloccheck/flow_enabled.go:344-352 | both directions of a swap carry their facts |
| Machine.DefineSound | internal/regalloccheck/flow_enabled.go:366-380 | a definition makes exactly its own bytes carry the new value, and drops stale facts of that value |
| Machine.OperationSound | internal/regalloccheck/flow_enabled.go:575-596 | the facts after an operation are true after any machine step of it |
| Machine.EdgeSound | internal/regalloccheck/flow_enabled.go:382-406 | simultaneous edge renaming keeps facts true under the renamed environment |
| Solving.Solved | internal/regalloccheck/flow_enabled.go:660-688 | the final assignment is, at every reachable block, the intersection of the facts over all paths, and unvisited blocks are the unreachable ones |
| Solving.SolvedIsGreatest | internal/regalloccheck/flow_enabled.go:290-305 | it is above every other solution of the flow equations |
| Solving.JoinKeepsBounded | internal/regalloccheck/flow_enabled.go:670-686 | a join never drops a fact that holds along all paths |
| Solving.JoinKeepsProcessing | internal/regalloccheck/flow_enabled.go:670-686 | delivering one edge keeps every settled block settled unless it is queued |
| Solving.JoinDescends | internal/regalloccheck/flow_enabled.go:677-682 | a join that changes a block adds a first image or strictly loses facts |
| FlowVerify.WorklistDescends | internal/regalloccheck/flow_enabled.go:660-688 | unvisited blocks, then total facts, then queue length decrease with every dequeued block |
| FlowVerify.Iterate | internal/regalloccheck/flow_enabled.go:647-688 | the worklist terminates within a number of rounds and an amount of work that the graph bounds and, unless the budget is exhausted, settles every block |
| FlowVerify.RoundDone | internal/regalloccheck/flow_enabled.go:660-688 | every round of the worklist leaves fewer to go: unvisited blocks outweigh facts, and facts outweigh the queue |
| FlowVerify.PoolFacts | internal/regalloccheck/flow_enabled.go:671-685 | the storage of all images stays below a cap that widens only when another block is visited |
| FlowVerify.Run | internal/regalloccheck/flow_enabled.go:575-596 | executes a block on an image as on a plain set of facts, and reports the first operation that is unsupported or whose use fails, all earlier ones having passed; stops early only with the budget exhausted, and within a bound on its work |
| FlowVerify.Check | internal/regalloccheck/flow_enabled.go:598-610 | passes exactly when every byte of the value is known at its place, and tells an unknown byte from a foreign one |
| FlowVerify.JoinInto | internal/regalloccheck/flow_enabled.go:677-682 | first arrival clones, later ones meet; the stored images then hold the joined assignment and the ledger adds up |
| FlowVerify.Propagate | internal/regalloccheck/flow_enabled.go:671-685 | carries a block's facts across one edge, releasing the renamed copy |
| FlowVerify.CheckParameters | internal/regalloccheck/flow_enabled.go:698-707 | each outgoing parameter carrier is checked before renaming |
| FlowVerify.CheckUses | internal/regalloccheck/flow_enabled.go:689-709 | visits the reached blocks in order and reports the first failing use or parameter, everything before it having passed |
| FlowVerify.PassedIsChecked | internal/regalloccheck/flow_enabled.go:689-711 | a block that passes on the exact facts has all its uses proved along all paths |
| FlowVerify.FailedIsJustified | internal/regalloccheck/flow_enabled.go:598-610 | a block that fails on the exact facts has a use that some path does not prove |
| FlowVerify.Analyse | internal/regalloccheck/flow_enabled.go:640-711 | fixed point and use check together decide exactly the checked graphs |
| Paths.MustFactAcross | internal/regalloccheck/flow_enabled.go:670-686 | facts over all paths transfer across an edge exactly through single origins |
| Paths.OriginAcrossCorrect | internal/regalloccheck/flow_enabled.go:382-406 | each fact after an edge depends on at most one fact before it |
| Paths.FactsAcrossMonotone | internal/regalloccheck/flow_enabled.go:290-305 | edge transfer is monotone |
| Facts.EffectOriginCorrect | internal/regalloccheck/flow_enabled.go:331-364 | each fact after an effect has one origin before it, none, or holds always |
| Facts.OperationsOriginCorrect | internal/regalloccheck/flow_enabled.go:575-596 | the same along a whole block |
| Facts.ParametersOriginCorrect | internal/regalloccheck/flow_enabled.go:382-406 | the same for simultaneous renaming, including chained and swapped parameters |
| Facts.AfterEffectKnown | internal/regalloccheck/flow_enabled.go:440-460 | no effect creates a fact at an unknown location |
| FlowImages.ConsistentAdd | internal/regalloccheck/flow_enabled.go:190-219 | adding to cells, reverse masks, register set and count is adding one fact to one set |
| FlowImages.ConsistentRemove | internal/regalloccheck/flow_enabled.go:221-246 | removing from them is removing one fact from that set |
| FlowImages.FlowBudget.Charge | internal/regalloccheck/flow_enabled.go:118-124 | work is charged exactly, or refused exactly when it would pass the limit |
| FlowImages.FlowBudget.AddFact | internal/regalloccheck/flow_enabled.go:125-131 | storage is charged exactly, or refused at the limit |
| FlowImages.FlowImage.Has | internal/regalloccheck/flow_enabled.go:180-189 | membership in the fact set |
| FlowImages.FlowImage.Add | internal/regalloccheck/flow_enabled.go:190-219 | one fact more; storage charged only for history not yet retained |
| FlowImages.FlowImage.Remove | internal/regalloccheck/flow_enabled.go:221-246 | one fact fewer, with all four indexes agreeing |
| FlowImages.FlowImage.Clear | internal/regalloccheck/flow_enabled.go:248-255 | the facts of a byte range are gone, the others kept |
| FlowImages.FlowImage.Forget | internal/regalloccheck/flow_enabled.go:256-271 | all facts of one value are gone, found through the reverse index |
| FlowImages.FlowImage.Release | internal/regalloccheck/flow_enabled.go:272-277 | returns exactly the storage credits of the image to the budget |
| FlowImages.FlowImage.Clone | internal/regalloccheck/flow_enabled.go:278-289 | an independent image of the same facts, charged for its own storage |
| FlowImages.FlowImage.Meet | internal/regalloccheck/flow_enabled.go:290-306 | intersection, reporting a change exactly when a fact was lost |
| FlowImages.FlowImage.Snapshot | internal/regalloccheck/flow_enabled.go:312-323 | the facts of a range, moved, with their storage charged |
| FlowImages.FlowImage.Restore | internal/regalloccheck/flow_enabled.go:324-330 | adds the saved facts and returns their snapshot charge |
| FlowImages.FlowImage.Apply | internal/regalloccheck/flow_enabled.go:331-364 | each effect is its plain-set counterpart; its work and the storage it adds are bounded by what the image retains |
| FlowImages.FlowImage.Define | internal/regalloccheck/flow_enabled.go:366-374 | forgets the value, overwrites its bytes and carries it there |
| FlowImages.FlowImage.DefineConstant | internal/regalloccheck/flow_enabled.go:375-381 | overwrites the bytes and carries the constant beside its other copies |
| FlowImages.FlowImage.Parameters | internal/regalloccheck/flow_enabled.go:382-406 | all parameters are renamed at once, as on a plain set |
| BlockQueues.BlockQueue.Enqueue | internal/regalloccheck/flow_enabled.go:647-658 | appends a block unless queued; the ring never holds a block twice |
| BlockQueues.BlockQueue.Dequeue | internal/regalloccheck/flow_enabled.go:662-665 | takes the oldest block |
| Validation.Validate | internal/regalloccheck/flow_enabled.go:482-573 | accepts exactly the well-formed graphs within limits, and names a complaint otherwise; gives up only when the work left is less than the size of the graph |
| Transfers.CarrierBytes | internal/regalloccheck/flow_enabled.go:421-438 | the bytes of a valid carrier are distinct and in its bank, without index wrap-around |
| Transfers.CarrierMeaning | internal/regalloccheck/flow_enabled.go:421-438 | a carrier is one to 64 bytes in a row, each of which the machine has |
| Transfers.OverlapMeaning | internal/regalloccheck/flow_enabled.go:462-473 | carriers overlap in part exactly when they differ and share a byte |
| Transfers.MachineEffect | internal/regalloccheck/flow_enabled.go:440-460 | admits exactly the effects whose carriers, sizes and banks go together, the return area included |
| StraightLine.State.Apply | internal/regalloccheck/enabled.go:76-115 | each effect is the specified cell update, makes up no identity, and on valid effects is the flow checker's transformer |
| StraightLine.State.Fresh | internal/regalloccheck/enabled.go:30-40 | identities are new to this state and to every state that shares its counter |
| StraightLine.State.Meet | internal/regalloccheck/enabled.go:129-138 | keeps exactly the cells on which both agree |
| StraightLine.State.Clone | internal/regalloccheck/enabled.go:142-151 | same cells, shared counter, independent updates |
| StraightLine.State.Expect | internal/regalloccheck/enabled.go:117-124 | accepts exactly the wanted cells |
| StraightLine.AppliedFacts | internal/regalloccheck/enabled.go:76-115 | reading cells as facts commutes with every valid effect, overlaps, swaps, zero extension and tails included |
| Journals.PerformAll | internal/regalloccheck/journal_enabled.go:96-417 | for any client, choosing each call from the replies so far: every call is answered as a naive account of the calls would answer it, tokens, events, summaries and refusals included; without a failure the journal holds exactly the naive replay, with its charges, closed or finalized as the calls say; stale and foreign tokens are always refused and leave a failed or closed journal |
| Journals.EmissionJournal.Perform | internal/regalloccheck/journal_enabled.go:137-417 | each call is one step of the token stack and, without failure, of the naive account, and its reply fits that account; made while a finalization runs, it changes nothing and, unless it only reads, leaves a failure |
| EmissionLogs.ReplayInvariants | internal/regalloccheck/journal_enabled.go:83-95 | replayed spans tile from zero to the cursor, gaps are counted, and events lie in recorded spans |
| EmissionLogs.TruncationIsReplay | internal/regalloccheck/journal_enabled.go:293-317 | cutting events and spans back to a closed prefix is replaying that prefix |
| EmissionLogs.TiledByIndex | internal/regalloccheck/journal_enabled.go:137-188 | tiling spans are nonempty and each starts where the one before ends |
| EmissionLogs.ObservationEmission | internal/regalloccheck/journal_enabled.go:190-206 | each event was observed during one emission of the log, whose boundaries are those of its span |
| Journals.EmissionJournal.constructor | internal/regalloccheck/journal_enabled.go:96-110 | negative limits fail from the start; zero means the default, and larger ones are cut to the maximum |
| Journals.EmissionJournal.BeginEmission | internal/regalloccheck/journal_enabled.go:137-156 | opens a span at the cursor, or fails for good |
| Journals.EmissionJournal.AbortEmission | internal/regalloccheck/journal_enabled.go:158-175 | forgets everything since the span began, exactly when one is open at this cursor and the work suffices |
| Journals.EmissionJournal.EndEmission | internal/regalloccheck/journal_enabled.go:177-188 | closes a nonempty span and moves the cursor |
| Journals.EmissionJournal.Append | internal/regalloccheck/journal_enabled.go:190-206 | records an observation in the open span; history charges never shrink |
| Journals.EmissionJournal.ObserveEffect | internal/regalloccheck/journal_enabled.go:208-214 | records a valid effect in the open span; an invalid one is a sticky failure |
| Journals.EmissionJournal.ObserveGPWrites | internal/regalloccheck/journal_enabled.go:216-222 | records a nonempty mask; an empty one is a sticky failure |
| Journals.EmissionJournal.ObserveGap | internal/regalloccheck/journal_enabled.go:228-232 | records a gap, which counts until it is rolled back |
| Journals.EmissionJournal.Checkpoint | internal/regalloccheck/journal_enabled.go:234-250 | issues the token with the next serial exactly when recording, idle, at the cursor and within limits, and remembers the current contents |
| Journals.EmissionJournal.Top | internal/regalloccheck/journal_enabled.go:252-261 | only the innermost open token of this journal is accepted |
| Journals.EmissionJournal.Commit | internal/regalloccheck/journal_enabled.go:263-270 | closes the innermost token and keeps the contents |
| Journals.EmissionJournal.Rollback | internal/regalloccheck/journal_enabled.go:293-312 | restores the contents of the checkpoint exactly, for the innermost token, its cursor and enough work only |
| Journals.EmissionJournal.Abandon | internal/regalloccheck/journal_enabled.go:276-289 | releases the innermost token even without work left, and leaves a sticky failure unless already closed |
| Journals.EmissionJournal.Close | internal/regalloccheck/journal_enabled.go:407-417 | drops everything, except during a finalization, where it is a failure |
| Journals.EmissionJournal.Finalize | internal/regalloccheck/journal_enabled.go:319-377 | seals exactly when recording, nothing is unfinished, lengths agree, the mapper is coherent and work suffices; then spans are the images of the recorded ones, contiguous up to the final length |
| Journals.EmissionJournal.MapBoundary | internal/regalloccheck/journal_enabled.go:339-355 | maps each distinct boundary once, monotonically and within the final length, running the calls that the mapper makes; any of them but a query spoils the mapping |
| Journals.EmissionJournal.Reenter | internal/regalloccheck/journal_enabled.go:327-337 | calls made by the mapper leave contents, charges and tokens alone, and fail the journal exactly if one of them is more than a query |
| Journals.MeddlingMapperIncoherent | internal/regalloccheck/journal_enabled.go:327-355 | so a mapper that calls back with more than a query, at any boundary it is asked for, never finalizes |
| Journals.EmissionJournal.Summary | internal/regalloccheck/journal_enabled.go:379-396 | status, reason, length and counts are those of the contents: Ready exactly when sealed without failure or gap |
| Journals.EmissionJournal.Event | internal/regalloccheck/journal_enabled.go:398-405 | from a sealed, failure-free journal, within its bounds only: the observation with the mapped start and end of the span it was made in |
| Journals.RemappedContiguous | internal/regalloccheck/journal_enabled.go:356-370 | the images of tiling spans under a coherent mapper tile the final length |
| Journals.StaleTokenStaysClosed | internal/regalloccheck/journal_enabled.go:246-261 | a token that was issued and is no longer open is never open again, however the stack grows afterwards |
| Journals.StaleTokenRefused | internal/regalloccheck/journal_enabled.go:252-289 | in every history of calls, a token once handed back is refused by every later call that names it, with a sticky failure or on a closed journal |
| Journals.ForeignTokenRefused | internal/regalloccheck/journal_enabled.go:252-289 | a token of another journal is refused at any time |
| Journals.IssuedOnce | internal/regalloccheck/journal_enabled.go:246-249 | no two checkpoints of a history return the same token |
| Journals.ClosedRefusesAll | internal/regalloccheck/journal_enabled.go:252-289 | after Close every token is refused |
| UnwindEncoder.EncodeAMD64Unwind | profile/unwind_encode.go:17-89 | accepts exactly the supported directories; a decoder of the produced bytes finds for every address the rule of the source and none in a gap; sizes and displacements fit; the framing check accepts |
| UnwindEncoder.TableRecovers | profile/unwind_encode.go:78-88 | search table, frame records and programs together give each source rule back |
| UnwindEncoder.TableMeaning | profile/unwind_encode.go:51-76 | looking up one address through the table yields its rule, or nothing |
| UnwindEncoder.EncodedIsWellFramed | profile/unwind.go:23-64 | the encoded section has a framing: the common record, then the record of every table entry |
| UnwindEncoder.FdeMeaning | profile/unwind_encode.go:56-73 | a frame record recovers the row in force at each address of its group |
| UnwindEncoder.CieRead | profile/unwind_encode.go:36-48 | the common record is read back with its alignments, return column and initial program |
| UnwindEncoder.EntryRead | profile/unwind_encode.go:84-87 | each table entry is read back with its address and record |
| UnwindEncoder.AppendFrameRecord | profile/unwind_encode.go:91-100 | pads and patches the length so that the record is read back |
| UnwindPrograms.ExecuteRows | profile/unwind_encode.go:65-72 | running the row program up to an address leaves the row in force there |
| UnwindPrograms.ExecuteCie | profile/unwind_encode.go:38-47 | running the initial program leaves all but two registers undefined |
| UnwindPrograms.FetchAdvance | profile/unwind_encode.go:102-115 | every advance encoding, one to four bytes wide, is decoded as its distance |
| Bytes.ULEBRoundTrip | profile/unwind_encode.go:117-123 | unsigned LEB128 decodes to what was encoded |
| Bytes.AppendULEB | profile/unwind_encode.go:117-123 | the encoding loop appends the reference encoding |
| UnwindFraming.Validate | profile/unwind.go:23-64 | accepts exactly the sections whose records tile them up to the end or a zero terminator, with at least one FDE, each pointing back to an earlier CIE, and a proper header and size |
| UnwindFraming.TilingDetermined | profile/unwind.go:33-59 | the section determines its records: any partial tiling starts every complete one |
| UnwindRules.ValidateUnwind | internal/jitprofile/unwind.go:25-34 | accepts exactly ordered, disjoint, nonempty ranges with recoverable rules |
| UnwindRules.LookupUnwind | internal/jitprofile/unwind.go:37-44 | finds the range containing an offset exactly when there is one |
| UnwindRules.RuleUnique | internal/jitprofile/unwind.go:25-44 | an offset has at most one rule |
| Fenwick.Add | profile/live_images.go:70-74 | updates exactly the entries that cover a position, so the tree describes the changed marks |
| Fenwick.Count | profile/live_images.go:76-82 | the sum of the marks before a position |
| Fenwick.SelectRank | profile/live_images.go:85-94 | descends to the position of the mark with the given rank |
| Fenwick.ChainGap | profile/live_images.go:71-73 | entries skipped by the update chain do not cover the position |
| Fenwick.TopBit | profile/live_images.go:63-66 | the largest power of two within the number of loads |
| LiveImages.Index.constructor | profile/live_images.go:22-68 | an empty index over the load addresses in order, in the general, single-load and no-load forms |
| LiveImages.SortedLoads | profile/live_images.go:44-54 | every load event once, by address and then event order |
| LiveImages.Index.Load | profile/live_images.go:96-117 | the live map after loading: the ID replaced, or removed if the image is empty |
| LiveImages.Index.Retire | profile/live_images.go:119-132 | the live map without the ID |
| LiveImages.Index.CheckLoad | profile/live_images.go:136-160 | passes exactly when the position's image fits the address space and its closest live neighbours |
| LiveImages.Index.Lookup | profile/live_images.go:162-180 | on a disjoint set, the result contains the address exactly when some live image does, through cache, single slot or tree |
| LiveSets.BatchDisjoint | profile/live_images.go:134-160 | neighbour checks of the surviving changed loads pass exactly when the whole new set is free of overlap and overflow |
| LiveSets.NeighboursSuffice | profile/live_images.go:147-158 | disjoint neighbours make all pairs disjoint |
| Samples.ResolveWithLimits | profile/samples.go:133-303 | succeeds exactly when events are valid, live sets at sample times are disjoint, weights fit and limits hold; then each sample is charged to what was live at its timestamp, and each row bears the names of the first sample charged to it |
| Samples.Join | profile/samples.go:155-289 | the same for events and samples already in time order |
| Samples.Catch | profile/samples.go:164-212 | a batch fails exactly on an invalid event or an overlap at the sample's time |
| Samples.Attribute | profile/samples.go:218-231 | charges an address to its live image and region, or to unknown |
| Samples.Record | profile/samples.go:213-288 | adds a charged sample to totals, row and hot program counter, refusing exactly at the limits |
| Samples.AttributionUnique | profile/samples.go:218-231 | the charge of a sample is determined |
| Samples.LimitsForced | profile/samples.go:241-276 | limits reached while filling the tables would be exceeded by every attribution of the samples |
| Samples.Finish | profile/samples.go:290-302 | the finished report lists each key and offset once, with exact tallies, in order |
| Charges.ChargedUnique | profile/samples.go:218-231 | on valid disjoint images a program counter has one charge |
| Charges.PartitionAdds | profile/samples.go:213-288 | groups that partition the samples add up to the whole |
| Ledgers.ChargeRow | profile/samples.go:239-257 | each row equals the tally of its key; a new key is refused exactly at the limit |
| Ledgers.ChargePc | profile/samples.go:258-288 | each hot program counter equals the tally of its key and offset |
| Ledgers.Describe | profile/samples.go:264-284 | attaches the site and source containing the offset, and the whole inline ancestry |
| Reports.RowConserved | profile/samples.go:255-295 | hot program counters add up to their row |
| Reports.ReportConserved | profile/samples.go:213-231 | unknown samples and rows add up to the report, which counts every sample |
| Reports.RowsOfCharges | profile/samples.go:232-257 | in a finished report every charged sample is counted in exactly one row, together with exactly the samples of the same function, or of the same region without one |
| Charges.TogetherIsKey | profile/samples.go:232-239 | where artifacts and kinds of regions without function hold no slash, two samples share a row exactly when module, artifact and function agree and, without a function, kind and region too |
| Ledgers.Identify | profile/samples.go:232-246 | one row identity per function, or per region without a function, and the names that go with it |
| Ledgers.RowFor | profile/samples.go:239-254 | the row of a key is found, or made with the names of the charge, and refused exactly at the limit |
| Reports.CheckPprof | profile/pprof.go:16-55 | accepts exactly reports that add up, fit signed values and are explained consistently |
| Reports.ResolvedIsExportable | profile/pprof.go:22-55 | a resolved nanosecond report is accepted exactly when its totals fit signed values |
| RowKeys.KeysAgree | profile/samples.go:239-239 | for all texts, two row identities share a key exactly when offsets agree and either all fields agree but for where module and artifact are joined, or one kind reads like the end of the other IDs, function and kind |
| RowKeys.KeyInjective | profile/samples.go:239-239 | separator-free artifacts and kinds make keys distinct |
| RowKeys.KeyCollision | profile/samples.go:239-239 | moving a separator between the IDs keeps the key, so such rows merge |
| CodeImages.ValidateRegions | internal/jitprofile/session.go:128-140 | accepts exactly regions that tile the image |
| CodeImages.FindRegion | profile/samples.go:224-225 | finds the one region containing an offset |
| CodeImages.ValidateCodeSiteRegions | internal/jitprofile/code_site.go:39-54 | one pass decides whether every site lies within one executable region |
| CodeImages.ValidateCodeSites | internal/jitprofile/code_site.go:17-26 | accepts exactly named, nonempty, ordered, disjoint sites |
| CodeImages.LookupCodeSite | internal/jitprofile/code_site.go:28-35 | the site containing an offset, if any |
| CodeImages.ValidateSpans | internal/jitprofile/source.go:29-38 | accepts exactly nonempty, ordered, disjoint spans |
| CodeImages.LookupSource | internal/jitprofile/source.go:41-48 | the source range containing an offset, if any |
| CodeImages.ValidateInlineSources | internal/jitprofile/source.go:51-63 | accepts exactly tables whose parents precede their children |
| CodeImages.InlineCallers | internal/jitprofile/source.go:66-80 | on such tables, the whole line of callers; on any table a whole line or nothing |
| CodeImages.OneAncestry | internal/jitprofile/source.go:66-80 | a line of callers starts at the given frame, each frame is the parent of the one before, it ends at a frame without parent, and there is only one |
| Samples.JournalInTime | profile/samples.go:146-154 | events are in order of time and then sequence, samples in order of time |
| Sorting.SortStable | profile/samples.go:146-152 | elements that compare equal keep their order |
| Sorting.SortSorted | profile/samples.go:146-152 | the result is in order |
| CoordinatorLocks.LockStepKeeps | internal/filelock/filelock.go:48-170 | every step of every process keeps the lock invariant |
| CoordinatorLocks.MutualExclusion | internal/filelock/filelock.go:48-87 | at most one validated holder, and it owns the inode the path names |
| CoordinatorLocks.RetiresOwnFile | internal/filelock/filelock.go:120-143 | renaming moves exactly the holder's inode, and a holder's revalidation cannot fail |
| CoordinatorLocks.HolderStable | internal/filelock/filelock.go:92-143 | nobody else moves the path away from a validated holder |
| CoordinatorLocks.RetiredForever | internal/filelock/filelock.go:100-118 | a retired inode is never named again |
| CoordinatorLocks.RunsExclude | internal/filelock/filelock.go:48-158 | mutual exclusion in every state of every run |
| CoordinatorLocks.RunsRetire | internal/filelock/filelock.go:89-118 | over whole runs, a retired inode is never named or held again, and a waiter that gets its lock is turned away |
| CoordinatorLocks.WaiterRejected | internal/filelock/filelock.go:60-75 | validation closes a file that the path does not name, before or after locking |
| CoordinatorLocks.Acquires | internal/filelock/filelock.go:22-87 | an uncontended lock is always acquired: on the file the path names, or on a new one, with nobody else disturbed |
| CoordinatorLocks.Joins | cli/manager/internal/self/replace/replace_windows.go:225-237 | so it is by a process that opens only an existing file |
| CoordinatorLocks.Rotates | internal/filelock/filelock.go:104-143 | a holder that rotates ends as the holder of a new file, its former one free and unnamed |
| CoordinatorLocks.ClosingFrees | internal/filelock/filelock.go:161-170 | closing, or exiting, always releases: nobody is recorded as owner of a lock it gave up |
| Uninstalls.StepKeeps | internal/managedrelease/uninstall.go:41-196 | every step of publishers, schedulers and workers, failed writes and handoffs included, keeps the marker invariant |
| Uninstalls.RemovalSafe | internal/managedrelease/uninstall.go:160-171 | recovery removes the marker it read before rotating, with a dead owner, under a later coordinator |
| Uninstalls.RunsRemoveSafely | internal/managedrelease/uninstall.go:142-196 | in every run, a removed marker is the record the same process read earlier when its owner was dead |
| Uninstalls.RunsReadFirst | internal/managedrelease/uninstall.go:151-192 | what a recovering process remembers, it read itself under the coordinator |
| Uninstalls.PublisherExclusive | internal/managedrelease/uninstall.go:151-155 | a publisher holds the lock alone with no uninstall pending |
| Uninstalls.DestroyerExclusive | internal/managedrelease/uninstall.go:95-116 | a worker destroys only under its own scheduled record |
| Uninstalls.DelayedWorkerStops | cli/manager/internal/self/replace/replace_windows.go:216-246 | in every run, once the record of an operation is gone, no worker is ever removing the installation for it, and a delayed one gives up at its checks, even on recycled file numbers |
| Uninstalls.RemovalEnds | internal/managedrelease/uninstall.go:66-81 | whichever step removes the record of an operation, no task that could act on it is left |
| Uninstalls.RotationStopsWorker | internal/managedrelease/uninstall.go:183-192 | where file numbers are not recycled, a worker also stops for good once its coordinator has been rotated away |
| Uninstalls.DeathIsPermanent | internal/managedrelease/uninstall.go:172-182 | an owner found dead stays dead |
| Uninstalls.UninstallCompletes | internal/managedrelease/uninstall.go:41-116 | an undisturbed uninstall is carried out: scheduled, handed to its worker, which passes every check, and its record gone at the end |
| Uninstalls.FirstReading | internal/managedrelease/uninstall.go:155-182 | under the coordinator, no marker means publication, a live owner refusal, and anything else rotation, the marker untouched |
| Uninstalls.RecoveryCompletes | internal/managedrelease/uninstall.go:142-196 | an undisturbed recovery from an abandoned marker ends in publication under a new coordinator |
| Uninstalls.RemovedBy | internal/managedrelease/uninstall.go:66-81 | a record is removed only by its own scheduler or worker, by a recovery after its owner died, or by an immediate uninstall, and always under the coordinator |
| Releases.StepKeeps | internal/managedrelease/leases.go:27-140 | every step of launchers, publishers and pruners keeps the lease invariant |
| Releases.RenameIsSafe | internal/managedrelease/leases.go:130-137 | a directory is renamed only when nobody is pinned to it and the record does not name it |
| Releases.WithdrawIsSafe | internal/managedrelease/leases.go:117-122 | the same when its lease name is withdrawn |
| Releases.AdoptionSucceeds | internal/filelock/filelock.go:216-238 | an inherited validated lease is always found valid |
| Releases.RunsKeepReleases | internal/managedrelease/leases.go:78-140 | in every run, pinned releases and the recorded current and previous ones stay in place |
| Releases.RunsRenameSafely | internal/managedrelease/release.go:140-203 | in every run, renames concern only published, unpinned, unrecorded releases |
| Releases.RunsKeepLeases | internal/managedrelease/release.go:67-74 | in every run, no two releases share a lease file |
| Releases.PublishStepOwn | internal/managedrelease/release.go:154-203 | every step of a publication leaves its process, tasks and pins consistent with the record and the directories |
| Releases.SelectRecords | internal/managedrelease/release.go:154-166 | selection makes the pinned release current and what was current previous; selecting the current one again keeps the previous one |
| Releases.OnlySelectionWrites | internal/managedrelease/release.go:154-203 | nothing but a selection or a rollback writes the record |
| Releases.RunsRollBack | internal/managedrelease/release.go:168-174 | in every run, a rollback puts back the record from before the selection it undoes |
| Releases.RunsSelectFirst | internal/managedrelease/release.go:154-194 | and there is such a selection, by the same publisher, with none in between |
| Releases.RunsKeepReplaced | internal/managedrelease/release.go:154-203 | in every run, a replaced release stays recorded and selectable until the next selection, rolled back or not |
| Releases.PublishedIsSelected | internal/managedrelease/release.go:192-194 | only the release that is recorded as current, and still pinned by its publisher, is marked published |
| Releases.FreeLeaseLocks | internal/managedrelease/leases.go:101-115 | a lease that nobody holds can be locked for pruning |
| ReleaseScripts.Launches | internal/managedrelease/leases.go:27-76 | a release that nobody is pruning can be pinned, whoever else has it pinned, and the pin is found valid when adopted |
| ReleaseScripts.PublicationCompletes | internal/managedrelease/release.go:140-203 | an undisturbed publication ends with the new release recorded, published and pinned, the replaced one recorded as previous |
| ReleaseScripts.RollbackUndoes | internal/managedrelease/release.go:167-189 | a selection that is rolled back leaves record and directories as they were |
| ReleaseScripts.PruneCompletes | internal/managedrelease/leases.go:78-140 | a published release that is neither recorded nor in use is pruned, and nothing else touched |
| ReleaseScripts.PruneSkips | internal/managedrelease/leases.go:113-115 | a release in use is passed over |
| JsonStrict.Validate | internal/jsonstrict/json.go:49-193 | accepts exactly token streams of trees in which no struct repeats a folded name and no other object an exact one, within the limits |
| JsonTrees.AcceptsIffUnique | internal/jsonstrict/json.go:49-229 | the one-set machine accepts exactly those streams |
| JsonPlaces.AcceptedEverywhere | internal/jsonstrict/json.go:49-193 | a document within the limits is accepted exactly when no way into it, at any depth, ends at a struct with two members of one fold or another object with two of one name |
| JsonPlaces.UniqueEverywhere | internal/jsonstrict/json.go:91-186 | the same for any value and expected type, with the type of every inner value following from its place |
| JsonPlaces.StructElementsRefused | internal/jsonstrict/json.go:95-117 | two members of one fold in an element of an array of structs are refused |
| JsonTrees.ReadValue | internal/jsonstrict/json.go:91-141 | reading a tree where a value may start succeeds exactly when the tree fits |
| JsonTrees.ReadMembers | internal/jsonstrict/json.go:143-186 | reading members succeeds exactly when names are new, values fit and limits leave room |
| JsonTrees.ParseValue | internal/jsonstrict/json.go:66-193 | every accepted stream begins with a tree |
| JsonStrict.ReadKey | internal/jsonstrict/json.go:143-186 | refuses a key exactly when its canonical name was seen, with mask and set acting as one set |
| JsonStrict.MaskAdds | internal/jsonstrict/json.go:155-160 | setting a field number adds exactly one name |
| JsonDescriptors.BuildDescriptor | internal/jsonstrict/fields.go:133-148 | all names of one fold share a number of their own, exact names keep their types, and the storage charged is that of the names |
| JsonDescriptors.LookupMeaning | internal/jsonstrict/fields.go:60-71 | a key is known exactly when its fold is, under that fold's number |
| JsonDescriptors.LookupType | internal/jsonstrict/fields.go:60-71 | exact names decide the type before folded ones |
| JsonDescriptors.DescriptorCache.For | internal/jsonstrict/fields.go:30-58 | the cached or built descriptor of the type; a built one is stored as the youngest, in place of as few of the oldest as make room, or not at all if too large; entries and bytes stay within their bounds |
| JsonDescriptors.DescriptorCache.MakeRoom | internal/jsonstrict/fields.go:48-53 | drops the fewest oldest descriptors that leave room for the new one |
| JsonDescriptors.DescriptorCache.Evict | internal/jsonstrict/fields.go:48-53 | drops the oldest descriptor and its bytes |
| ArchivePreflight.Preflight | internal/sourcearchive/archive.go:245-388 | accepts exactly the archives with valid names under one root, compatible paths, files and directories within the limits, and a regular go.mod below the root |
| ArchivePreflight.AddFile | internal/sourcearchive/archive.go:265-370 | a file is accepted exactly when it and the files before it are fine together |
| ArchivePreflight.FineStep | internal/sourcearchive/archive.go:288-370 | what one file more adds to the rules for the whole archive |
| ArchiveNames.ValidateArchivePath | internal/sourcearchive/archive.go:390-439 | accepts exactly the names whose components are all valid and portable, within the limits, and splits off the root |
| ArchiveNames.PortablePathComponent | internal/sourcearchive/archive.go:441-473 | accepts exactly printable components that end in neither dot nor space and are not device names |
| ArchiveNames.CanonicalPortablePath | internal/sourcearchive/archive.go:491-513 | the lower-case spelling |
| ArchiveNames.LowerComponents | internal/sourcearchive/archive.go:302-318 | it has its component boundaries where the name has them |
| ArchiveNames.ComponentsJoin | internal/sourcearchive/archive.go:402-433 | joining the components gives the name back |
| ArchiveNames.ComponentsOfJoined | internal/sourcearchive/archive.go:402-433 | and only one list of slash-free components joins to it |
| ArchivePaths.CountedDirectories | internal/sourcearchive/archive.go:339-341 | the counted directories are the distinct prefixes that the entries need |
| ArchivePaths.Insert | internal/sourcearchive/archive.go:302-347 | walking the text of a path and of its canonical spelling, an entry is refused exactly when some earlier one is incompatible with it |
| ArchivePaths.Descend | internal/sourcearchive/archive.go:305-346 | an inner component is refused only for an incompatible entry |
| ArchivePaths.Place | internal/sourcearchive/archive.go:320-342 | the last component decides exactly |
| ArchiveRecords.ValidateLocalRecordCoverage | internal/sourcearchive/archive.go:659-674 | accepts exactly records that tile everything before the central directory |
| Timelines.AnalyzeTimeline | profile/timeline.go:31-128 | succeeds exactly for identified spans that nest and in which no span is its own ancestor; one row per span; complete exactly when nothing is missing |
| Timelines.MakeRow | profile/timeline.go:91-120 | exclusive time is the part of the span outside the union of its immediate children |
| Timelines.ChildrenFit | profile/timeline.go:95-117 | children lie inside, so the subtraction cannot underflow |
| Timelines.Covered | profile/timeline.go:98-116 | merging spans by start measures their union |
| Timelines.CheckNesting | profile/timeline.go:70-87 | accepts exactly nested spans, and decides completeness |
| Timelines.Register | profile/timeline.go:35-47 | accepts exactly spans with distinct nonzero identities and ordered clocks |
| Timelines.CycleOfSpans | profile/timeline.go:48-69 | spans that are their own ancestors by identity are a cycle of the indexed links |
| Timelines.CycleOfLinks | profile/timeline.go:48-69 | and the other way around |
| SpanTrees.Acyclic | profile/timeline.go:48-69 | finds a cycle exactly when parent links contain one |
| SpanTrees.PathCloses | profile/timeline.go:63-65 | a path that meets itself is a cycle |
| SpanTrees.OrderedIsAcyclic | profile/timeline.go:66-68 | finished spans admit no cycle |

## Left out

- Error messages and diagnostics: results say that and where something failed, not the text.
- State.Seed and State.ExpectKnown of the straight-line checker, which combine modelled operations.
- Graphs with operation kinds outside the enumeration: the datatype cannot express them.
- The jitdump writer, gzip and protobuf bytes of exports: only the consistency checks and tables.
- Symbol tables: function names and static counters attached to rows and program counters.
- Journal retention, cursors and byte budgets of the profiling session, and JSON reading of captures.
- Parsing of perf output and decimal timestamps.
- The folded, untyped JSON mode with exact subtrees; resolution of embedded struct fields, which is taken as a list of distinct field names.
- ZIP header field comparison: whether an entry is a directory, and its size, are taken as given by the preflight.
- What an uninstall deletes: it is modelled as taking the marker, not the release directories.
- Removal of a staging directory whose preparation failed.
- A marker whose writing was interrupted half-way, which the code rejects as invalid until removed by hand.
- Retry limits and waiting: the models allow any number of attempts and any delay, so they speak of progress only for processes that are not disturbed.
- Windows and Darwin file semantics: locks and renames behave as on Unix.
- Code generation, the runtime, command line, network and installer code: no hard invariant of this kind is visible there.
