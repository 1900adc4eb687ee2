# Verified model of corpus ingestion, selection and multi-host training

This project models the parts of OpenWALDO whose correctness depends on order,
interleaving, recursion or bookkeeping, and proves what they promise.

- **Publication** (`Journal`, `Publication`, `PublicationSafety`, `PublicationRecovery`,
  `PublicationCalls`): a journal, staged files, a grow-only remote store, up to 32 uploaders, a
  collector, and crashes anywhere, as a transition system.  The journal is written
  in one atomic step; a digest is an abstract value that carries the object size.
- **Stage handshake** (`StageProtocol`, `StageCompletion`, `StageWorker`): rank 0 and N
  workers over FIFO streams, as a message-passing protocol, and the worker's loop as
  an imperative program whose runs are runs of the protocol.
- **Assembly** (`Rows`, `Hex`, `Dedup`, `RowGroups`, `ShardCounters`, `Packing`, `Manifest`,
  `VerificationPipeline`, `PipelineBounds`, `Assembly`, `AssemblyTotals`): exact deduplication, packing into row groups and
  shards with arbitrary encoder sizes, the reorder buffer of the parallel verifier, and
  a manifest that the index verifier counts again; `SortedStrings` orders names.
- **Streaming filters** (`Utf8`, `SafeTokenWriter`, `TerminalControls`, `StoppingTokenWriter`,
  `ChatOutput`): stateful writers whose output depends on the bytes, not on how they were cut up.
- **Bills of materials** (`Measures`, `IndexTypes`, `Pins`, `Rollups`, `RollupTotals`,
  `ExpandedTrees`, `SubManifestTrees`, `Selections`, `BomTotals`, `BomBuilder`,
  `BomContents`, `BomPartition`, `PolicyFindings`, `RecordChecks`): expansion of content-addressed trees, the parent-graph validator,
  running totals against a recount, and exactly when a selection becomes a valid bill.
- **Contamination** (`Jaccard`, `Contamination`): inverted index against all pairs.
- **Refinements and round trips** (`Measurement`, `Quantiles`, `XPath`, `XPathNames`, `Base64`,
  `Opaque`, `OpaqueReader`, `CanonString`).

Objects that the program updates in place are classes; loops are methods with
invariants, proved against functions whose meaning the lemmas establish.  A map
iteration picks keys in arbitrary order.  An outcome that the program cannot control
(an encoder size, a failing call, a scheduling choice) is an arbitrary value or an
event of a transition system.  Integers are unbounded: counters are `int64` in the
program, and overflow is outside the model.

These promises hold only under a condition, which is proved exactly:

- `stoppingTokenWriter` prints the text up to the earliest stop for every chunking if
  and only if the set of stops is chunk-safe (`StoppingTokenWriters.ExactIffChunkSafe`);
  stops that do not contain one another are.
- The pins of a successful expansion are valid if and only if, for every reference that
  can be reached from a selected rollup, given modalities add up to the declared tokens
  (`Selections.BuiltPinsValidIff`, with a failing store in
  `Selections.UncheckedModalityTokens`), because `validateRollup` does not make that
  comparison and `validateSubManifestPins` does.
- A license policy can be applied to a manifest of assessed text that the index verifier
  accepts if and only if it excludes no shard with a detector finding
  (`PolicyFindings.PolicyAfterIndexing`, with a refused selection in
  `PolicyFindings.ExcludedFindingRefused`), because the bill repeats the findings of
  the whole manifest and `BOM.Validate` compares them with the selected shards.
- The bytes of a bill split over its licenses without loss if and only if no shard is under
  several licenses (`LicensePartition.BytesPartitionIff`); documents and tokens always do.
- The inverted index agrees with the comparison of all pairs if and only if the fuzzy
  ratio is positive (`Contamination.AgreeIffPositive`), which the policy check demands.
- `safeTokenWriter` is described as letting no control character but newline and tab
  through.  It looks at single bytes and whole characters, so what it shows is free of
  them if and only if the input has none of U+0080 to U+009F
  (`TerminalControls.ControlFreeIff`, with `TerminalControls.HighControlShown`).
- The body of an opaque row is found behind its header if and only if the media type
  brings no blank line of its own (`Opaque.BodyFoundIff`).

## Model

| member | source | states |
|---|---|---|
| `Journal.PublicationObjectsForAssembly` | internal/ingest/journal.go:297-309 | compacting the slice in place leaves exactly the entries of the assembly, in their order |
| `Journal.RestrictKeepsWanted` | internal/ingest/journal.go:297-309 | an entry is kept if and only if its digest belongs to the assembly |
| `Journal.UpsertPublicationObject` | internal/ingest/journal.go:311-319 | the in-place search computes the upsert that the next row describes |
| `Journal.UpsertEffect` | internal/ingest/journal.go:311-319 | after an upsert the digest is bound to the new entry alone, all other entries stay, and no digest is listed twice |
| `Journal.CompleteRecordIsCanonical` | internal/ingest/journal.go:285-289 | a complete truthful record, in whatever order uploads finished, sorts into the assembly order position by position |
| `Journal.VerifyPublished` | internal/ingest/journal.go:321-339 | accepts exactly the records of the same base URL and length in which every assembled object is recorded with its size and present remotely |
| `Journal.CanonicalVerifies` | internal/ingest/journal.go:321-339 | the canonical record of a duplicate-free, fully uploaded assembly is accepted |
| `PublicationSafety.StepKeepsInv` | internal/ingest/journal.go:114-295 | every step of any process, crashes, failed writes and foreign uploads included, keeps the publication invariant |
| `PublicationSafety.RunKeepsInv` | internal/ingest/journal.go:114-295 | so does every run with a fixed base URL |
| `PublicationSafety.EnterKeeps` | internal/ingest/journal.go:177-191 | entering the publishing state rewrites the journal without losing an object, and the collector starts from what the journal records |
| `PublicationSafety.RecordKeeps` | internal/ingest/journal.go:230-232 | recording one verified upload keeps the record truthful and adds exactly its digest |
| `PublicationSafety.NothingIsEverLost` | internal/ingest/journal.go:164-256 | in every run, whenever the journal is publishing or published, each assembled digest is still staged, or recorded in the journal and present remotely |
| `PublicationSafety.RemovedOnlyWhenDurable` | internal/ingest/journal.go:230-246 | a staged file disappears only when its entry is already in the durable journal and its object is remote |
| `PublicationSafety.CanonicalMeansDistinct` | internal/ingest/journal.go:282-289 | a record as long as the assembly exists only when the assembly repeats no digest |
| `PublicationSafety.PublishedIsExact` | internal/ingest/journal.go:282-294 | a published journal lists the assembly position by position, for distinct digests only, and a replayed audit accepts it |
| `PublicationSafety.ChangedBaseForgets` | internal/ingest/journal.go:177-180 | resuming under another base URL forgets the recorded objects: nothing is lost then if and only if everything is still staged |
| `PublicationRecovery.CleanStep` | internal/ingest/journal.go:164-295 | every fault-free step keeps each unpublished object in exactly one place: not yet queued, queued, being uploaded, uploaded, or recorded |
| `PublicationRecovery.CleanStepProgress` | internal/ingest/journal.go:164-295 | every fault-free step lowers a bound on the work left |
| `PublicationRecovery.SomethingEnabled` | internal/ingest/journal.go:164-295 | until the call returns some fault-free step can be taken, so no schedule of workers and collector deadlocks |
| `PublicationRecovery.AllRecordedMeansComplete` | internal/ingest/journal.go:282-287 | with distinct digests all recorded, the count check before publishing passes |
| `PublicationRecovery.RecoveryCompletes` | internal/ingest/journal.go:114-295 | from every crash state one uninterrupted call with the same plan and publisher ends in boundedly many steps, published under that plan, in assembly order, accepted on replay, and uploads nothing that was recorded before |
| `PublicationCalls.SuccessIsOfThePlan` | internal/ingest/journal.go:114-295 | in every run, crashes and earlier calls included, a call that succeeds does so with the journal of the plan it was given |
| `PublicationCalls.JournalKeepsPlan` | internal/ingest/journal.go:114-295 | a journal, once written, belongs to one plan for good |
| `PublicationCalls.OtherPlanRefused` | internal/ingest/journal.go:137-139 | a staging directory of another plan is refused, whatever the status of its journal, and nothing durable changes |
| `PublicationCalls.AuditDecides` | internal/ingest/journal.go:140-148 | a published journal is answered by the audit alone: success exactly when base URL and length agree and each assembled object is remote, has its size and is recorded with it |
| `PublicationCalls.AssembledIsReused` | internal/ingest/journal.go:75-83 | an assembled journal is resumed as it is exactly when all of its objects are still staged; otherwise the call fails and changes nothing |
| `PublicationCalls.UnfinishedIsRestarted` | internal/ingest/journal.go:85-94 | an unfinished assembly is started over, with nothing taken from it |
| `PublicationCalls.FormerIsRestarted` | internal/ingest/journal.go:155-163 | a publishing journal without an assembly is started over too, and its record is dropped |
| `PublicationCalls.MissingRecordRefused` | internal/ingest/journal.go:182-186 | an interrupted publication goes on only if everything it recorded is still remote with its size |
| `PublicationCalls.PublishedStays` | internal/ingest/journal.go:140-148 | a published journal never changes again |
| `PublicationCalls.NoSuccessAfterFault` | internal/ingest/journal.go:278-284 | no call succeeds after a failed upload, journal write or removal, or after its caller has cancelled, whatever still finishes |
| `PublicationCalls.FaultsCancel` | internal/ingest/journal.go:201-274 | uploads are cancelled exactly by a noted fault or by the caller, and exactly then can a waiting producer give up |
| `PublicationCalls.NeverMoreThanWorkers` | internal/ingest/journal.go:203-225 | at no moment are more objects queued, or more being uploaded, than the call has workers |
| `PublicationCalls.OnlyStagedIsUploaded` | internal/ingest/journal.go:212-214 | what a step adds to the remote store was staged at that moment and has the size of its digest |
| `StageProtocol.StepKeepsInv` | internal/cli/model_hostfile.go:771-822 | every step of any host or of rank 0 keeps the handshake invariant |
| `StageProtocol.DecodeKeeps` | internal/cli/model.go:1040-1070 | a worker never refuses a plan of an honest primary and sees the plans in order |
| `StageProtocol.ReceiveMatches` | internal/cli/model_hostfile.go:790-800 | the acknowledgement that rank 0 takes from a worker agrees with the outstanding plan in every field that it compares |
| `StageProtocol.PublishMeansLockstep` | internal/cli/model_hostfile.go:771-822 | publish(k) succeeds only when all N workers have prepared exactly plan k after finishing all stages before it |
| `StageProtocol.NoMismatchEver` | internal/cli/model_hostfile.go:790-800 | no comparison of an acknowledgement ever fails, and no worker is more than one stage ahead of what it ran |
| `StageProtocol.AcknowledgesOnlyItsPlan` | internal/cli/model_hostfile.go:797-800 | what a worker sends for plan i of a session passes the comparison against plan j if and only if i is j |
| `StageProtocol.ReceiveDecides` | internal/cli/model_hostfile.go:797-800 | rank 0 goes on exactly when schema, run ID, stage, ordinal and count are those of the outstanding plan; otherwise it fails and every stream is closed |
| `StageProtocol.StaleIsMismatch` | internal/cli/model_hostfile.go:797-800 | an acknowledgement of any other stage of the session is a mismatch |
| `StageProtocol.StreamsCloseAtEnd` | internal/cli/model_hostfile.go:927-951 | in every run the workers' streams are open as long as rank 0 goes on and all closed once it has ended, successfully or not |
| `StageProtocol.RunLabelStaysInside` | internal/cli/model.go:1115-1117 | an accepted run ID names a directory of its own: no separator, not hidden, not an option |
| `StageProtocol.TrainingTogether` | internal/cli/model_hostfile.go:771-822 | while rank 0 trains stage k every live worker runs stage k or has finished it |
| `StageProtocol.AllStagesOrNone` | internal/cli/model.go:1040-1103 | a worker that exits successfully ran every stage, or none because none was sent |
| `StageProtocol.FinishAgrees` | internal/cli/model_hostfile.go:927-951 | after a successful finish all workers agree: all ran all stages, or all ran none |
| `StageCompletion.SomethingEnabled` | internal/cli/model_hostfile.go:771-822 | without faults the protocol never deadlocks |
| `StageCompletion.CleanRunsComplete` | internal/cli/model_hostfile.go:771-822 | fault-free runs are bounded in length for any N and any number of stages, and can only stop with everything done |
| `StageWorker.RunStreamPlans` | internal/cli/model.go:1040-1103 | the worker loop as written performs only transitions of the protocol; it completes exactly at a final stage, every other exit names its cause (no plan at all, an early end, a plan that does not validate, or the call that failed), and the i-th acknowledgement carries the run ID, stage, ordinal and count of the i-th plan |
| `StageWorker.RunStage` | internal/cli/model.go:1079-1096 | one plan: it is acknowledged, with its own run ID, stage, ordinal and count, only once prepared, and the stage and its run ID are remembered only after the run |
| `StageWorker.OnlyValidPlansRun` | internal/cli/model.go:1060-1096 | whatever it is sent, a worker runs only plans that are valid for its cluster and do not repeat the run before them |
| `VerificationPipeline.Collect` | internal/ingest/assemble.go:525-562 | the collector loop computes the reorder buffer of the following rows, for outcomes in any order |
| `VerificationPipeline.AnyOrder` | internal/ingest/assemble.go:525-562 | whatever order outcomes arrive in, the collector has handled exactly the longest gap-free prefix of sequences as in-order processing would |
| `VerificationPipeline.InOrderMeaning` | internal/ingest/assemble.go:525-562 | in-order processing delivers the sequences before the first failure, once each, and reports the lowest failing sequence |
| `VerificationPipeline.StepKeepsInv` | internal/ingest/assemble.go:487-571 | enqueueing, worker and collector steps in any interleaving never lose or duplicate a sequence |
| `VerificationPipeline.CloseAndWaitIsSequential` | internal/ingest/assemble.go:512-571 | when everything has drained the result equals verifying and delivering the accepted objects one after the other |
| `VerificationPipeline.SomethingEnabled` | internal/ingest/assemble.go:487-523 | while an accepted object has not reached the collector, a worker or the collector can move, cancelled or not: neither a producer waiting for room nor the final wait is ever stuck |
| `VerificationPipeline.ClosedRunsDrain` | internal/ingest/assemble.go:564-571 | once the queue is closed every schedule is bounded, and it can only end with everything drained |
| `VerificationPipeline.SinkCallsAtAnyTime` | internal/ingest/assemble.go:525-562 | at every moment the sink has been called in enqueue order, at most once per object and never past the lowest failing sequence |
| `VerificationPipeline.GapSilencesCollector` | internal/ingest/assemble.go:512-562 | a sequence that never arrives, such as a refused enqueue followed by more, hides every later object and failure; this is why the producer must stop there |
| `PipelineBounds.NeverMoreThanWorkers` | internal/ingest/assemble.go:484-523 | in every interleaving at most one job per worker waits, is being verified, or is on its way to the collector; an enqueue is refused only after a cancellation, and a failed audit always cancels |
| `PipelineBounds.NoneRefused` | internal/ingest/assemble.go:487-523 | nothing else cancels: without a failed audit, a failing sink or a cancelled caller no enqueue is ever refused |
| `Dedup.KeyBytesInjective` | internal/ingest/dedup.go:85-86 | two identities never share a bucket key |
| `Dedup.Deduplicator.SeedIDs` | internal/ingest/dedup.go:31-48 | one transaction: all identities are added, or a single invalid one leaves the bucket as it was |
| `Dedup.Deduplicator.Filter` | internal/ingest/dedup.go:65-100 | a batch keeps exactly the rows whose identity was not met before, and counts input, kept and rejected |
| `Dedup.FirstMeansNew` | internal/ingest/dedup.go:82-97 | the membership test finds exactly the first occurrences of unseeded identities |
| `Dedup.RetainedConcat` | internal/ingest/dedup.go:65-100 | cutting the row stream anywhere changes nothing |
| `Dedup.BatchingIrrelevant` | internal/ingest/dedup.go:65-100 | for any split into batches the retained rows are those of the whole stream |
| `Dedup.RetainedIdentities` | internal/ingest/dedup.go:65-100 | every unseeded identity is retained exactly once and nothing else is |
| `Dedup.SeedMeaning` | internal/ingest/dedup.go:102-112 | a seed is valid exactly when it names a license and its digest is the hexadecimal writing, in either case, of 32 bytes; it then bars the rows with that license and those bytes as digest |
| `Hex.ValidShaIsWritten` | internal/corpus/bom.go:336-342 | a valid digest text is the lower-case hexadecimal writing of 32 bytes, and every such writing is valid |
| `RowGroups.GroupsKeepRows` | internal/ingest/assemble.go:218-327 | the row groups together are the rows, in order, each exactly once |
| `RowGroups.GroupsAreTight` | internal/ingest/assemble.go:239-319 | none of the row groups could have taken the next row, and rows that have text, as the row check demands, form groups within the logical limit or of a single row |
| `RowGroups.OversizedIsSingleRow` | internal/ingest/assemble.go:239-319 | a row group above the limit is a single row |
| `RowGroups.BytesMeaning` | internal/ingest/assemble.go:239-252 | the size that is compared with the limit is the length of all texts of the group together |
| `ShardCounters.CountTokens` | internal/ingest/assemble.go:329-363 | for every number of workers and every order in which they run, position p holds the token count of row p |
| `ShardCounters.EveryPositionCounted` | internal/ingest/assemble.go:347-350 | every position lies in the range of some worker |
| `ShardCounters.OneWorkerEach` | internal/ingest/assemble.go:347-350 | no position lies in the ranges of two workers, so no two write the same element |
| `ShardCounters.UsageMeaning` | internal/ingest/assemble.go:291-294 | the license usage of a shard holds, for each license met and no other, the number of rows and tokens under it |
| `ShardCounters.CountersMeaning` | internal/ingest/assemble.go:277-319 | each counter of a shard: per detector the rows it flags, per kind of private data what was removed, the tokens and the text of the rows, and exactly the sources and licenses that rows name |
| `ShardCounters.FindingsBounded` | internal/ingest/assemble.go:277-290 | detector counts never exceed the documents and redaction counts are never negative |
| `Packing.Assembler.WriterFor` | internal/ingest/assemble.go:365-388 | the active shard, created when there is none, without moving a row |
| `Packing.Assembler.FlushRowGroup` | internal/ingest/assemble.go:390-404 | a flush closes the open row group and ends the shard only when the encoder reports the target size; a group without text is not flushed |
| `Packing.Assembler.FinishActive` | internal/ingest/assemble.go:406-458 | a finished shard holds all its rows, counters of exactly those rows, its licenses and sources sorted, and respects the maximum size |
| `Packing.Assembler.MakeRoomFor` | internal/ingest/assemble.go:235-249 | before a row that does not fit, the open group is closed, whatever shard that leaves active |
| `Packing.Assembler.WriteRow` | internal/ingest/assemble.go:250-319 | the row joins the open group, is counted once in the counters that `ShardCounters.CountersMeaning` describes, and a full group is closed; a row that the check refuses, one without text included, ends the run |
| `Packing.Assembler.AddBatch` | internal/ingest/assemble.go:218-327 | after any batches and any encoder sizes, the row groups over all shards are the cut of all rows so far; a batch fails only for an unacceptable row or a refused shard |
| `Packing.Assembler.FinishAll` | internal/ingest/assemble.go:603-615 | at the end the shards hold the cut of all rows, each complete, only the last may be below the target size, and every row group of every shard is within the limit or a single row |
| `Manifests.BuildManifest` | internal/ingest/contribution.go:67-114 | one entry per shard with its usage and counts, totals that are their sums, and all licenses sorted; an empty assembly or a shard without license is refused |
| `Manifests.VerifyManifest` | internal/index/verify.go:205-286 | accepts exactly the manifests whose usage, assessments and redactions reconcile; a shard is held to the redaction of its own recipe or of its manifest, and one such shard makes the manifest account for the total |
| `Manifests.UsageOfCounted` | internal/index/verify.go:233-250 | the usage counted while packing covers each license of the shard and adds up to its documents and tokens |
| `Manifests.CountedShardReconciles` | internal/index/verify.go:205-286 | every shard entry built from packing counters passes the per-shard checks |
| `Manifests.BuiltManifestReconciles` | internal/ingest/contribution.go:67-114 | the manifest of every assembly reconciles, whatever the recipe, whatever rows were packed and wherever shards were cut |
| `Manifests.BuildAndVerify` | internal/ingest/contribution.go:67-120 | building and verifying in sequence always succeeds on counted shards |
| `Assembly.Assemble` | internal/ingest/assemble.go:86-163 | the shards hold exactly the unseeded first occurrences in order; every row group of every shard is within the limit or a single row; input is retained plus duplicates plus rejected; unless the encoder limit or the sink refuses, a run fails only for an invalid seed, an unacceptable retained row, or an empty result that is not a seeded update |
| `Assembly.FinishedDocs` | internal/ingest/journal.go:400-421 | the document counts of the shards add up to the retained rows, as the journal re-checks |
| `Assembly.FinishedIsCounted` | internal/ingest/assemble.go:218-327 | every finished shard was counted from acceptable rows |
| `Assembly.AssembleAndIndex` | internal/ingest/contribution.go:28-120 | from batches to an accepted manifest: whatever an assembly returns passes the journal totals, its manifest passes the index verifier, every entry of the manifest describes the rows of its shard, and the totals, each detector's count included, are those of the retained rows |
| `AssemblyTotals.ShardDescribes` | internal/ingest/assemble.go:430-452 | the entry of a shard: its address and size, and the documents, tokens, sources, licenses, usage, detector counts and redactions of its own rows |
| `AssemblyTotals.TotalsOfRows` | internal/ingest/contribution.go:67-114 | the totals of the manifest are those of the rows in all shards, detector by detector and kind by kind |
| `AssemblyTotals.LicensesOfRows` | internal/ingest/contribution.go:105-114 | the manifest names exactly the licenses that rows are under |
| `SortedStrings.LessMeaning` | internal/ingest/assemble.go:209-216 | the order of names: the first difference decides, and a prefix comes first |
| `SortedStrings.SortedMeaning` | internal/ingest/assemble.go:209-216 | a list is in order, without repetition, exactly when every name is below every later one |
| `Utf8.DecodedSizeIsGrammar` | internal/cli/chat_output.go:157-170 | the decoder accepts exactly the byte sequences of the UTF-8 grammar (section 4 of RFC 3629) |
| `Utf8.DecodingIsPrefixDetermined` | internal/cli/chat_output.go:157-170 | once a prefix is decodable more bytes do not change the decision |
| `Utf8.UndecodableIsTails` | internal/cli/chat_output.go:157-170 | held-back bytes are a lead byte and continuation bytes, at most three |
| `SafeTokenWriters.SafeTokenWriter.Write` | internal/cli/chat_output.go:127-175 | after any write a held carriage return means nothing is pending, and what was printed is safe |
| `SafeTokenWriters.SafeTokenWriter.Flush` | internal/cli/chat_output.go:177-191 | after a flush the output is the rendering of the bytes received, however they were cut up, and the following rows say what that shows of each byte |
| `SafeTokenWriters.DrainThenFeed` | internal/cli/chat_output.go:127-175 | draining before more bytes arrive and draining after are the same |
| `SafeTokenWriters.DrainRenders` | internal/cli/chat_output.go:127-191 | the loop prints what the reference rendering of the whole stream prescribes |
| `SafeTokenWriters.RenderSafe` | internal/cli/chat_output.go:118-191 | every rendering is valid UTF-8 without ASCII control bytes other than newline and tab |
| `SafeTokenWriters.WriteAll` | internal/cli/chat_output.go:127-191 | any sequence of writes followed by a flush prints the rendering of the joined bytes: safe text unchanged, and a single byte that is not printable as backslash, x and the two lower-case digits that read back as it |
| `SafeTokenWriters.SafeIsUnchanged` | internal/cli/chat_output.go:118-175 | text that is safe already is shown as it is |
| `SafeTokenWriters.ControlIsNamed` | internal/cli/chat_output.go:137-156 | behind any safe text an ASCII control byte, newline, tab and the return before a newline excepted, is shown by an escape whose digits read back as that byte, and does not affect what follows |
| `SafeTokenWriters.InvalidIsNamed` | internal/cli/chat_output.go:157-170 | so is a byte at which no UTF-8 character starts |
| `SafeTokenWriters.LineEndIsNewline` | internal/cli/chat_output.go:130-137 | a carriage return and a newline are shown as a newline |
| `TerminalControls.ControlFreeIff` | internal/cli/chat_output.go:118-175 | what is shown has no control character but newline and tab if and only if the input has none of U+0080 to U+009F |
| `TerminalControls.HighControlShown` | internal/cli/chat_output.go:157-175 | the two bytes of U+009B are shown as they are |
| `StoppingTokenWriters.Search` | internal/cli/model.go:2097-2103 | the search over all stops finds the earliest occurrence and the longest stop |
| `StoppingTokenWriters.WindowFindsFirst` | internal/cli/model.go:2096-2125 | with the bytes kept back, searching only the pending window finds the first stop of the whole stream |
| `StoppingTokenWriters.StoppingTokenWriter.Write` | internal/cli/model.go:2092-2128 | after any write, printed and pending bytes are the bytes accepted so far, and nothing printed is ever taken back |
| `StoppingTokenWriters.HeldBack` | internal/cli/model.go:2117-2125 | what is held back is shorter than some stop, and once anything has been printed it is one byte less than the longest |
| `StoppingTokenWriters.StoppingTokenWriter.Flush` | internal/cli/model.go:2130-2138 | after a flush the output is the accepted stream up to its first stop |
| `StoppingTokenWriters.WriteAll` | internal/cli/model.go:2092-2138 | the same for any list of chunks |
| `StoppingTokenWriters.OutputIsStopFreePrefix` | internal/cli/model.go:2092-2138 | for every chunking the output is a prefix of the input, contains no stop, and is all of it when no stop occurs |
| `StoppingTokenWriters.ExactIffChunkSafe` | internal/cli/model.go:2092-2138 | the output is the input up to the earliest stop for every chunking if and only if no stop is completed strictly inside a proper prefix of another |
| `StoppingTokenWriters.NoNestingIsChunkSafe` | internal/cli/model.go:2092-2138 | that holds when no stop is a substring of another |
| `StoppingTokenWriters.NestedStopsExample` | internal/cli/model.go:2092-2138 | with nested stops two chunkings of the same bytes can print different text |
| `ChatOutput.Print` | internal/cli/model.go:2060-2076 | what reaches the terminal is the safe rendering of the text before the first stop, and for chunk-safe stops it does not depend on how tokens cut the text |
| `Pins.KeyTextInjective` | internal/corpus/bom_validate.go:336-383 | the textual key of a pin determines its manifest and its digest |
| `Pins.WalkParents` | internal/corpus/bom_validate.go:369-375 | following parents with a visited set ends successfully exactly when the chain ends |
| `Pins.CycleNeverEnds` | internal/corpus/bom_validate.go:369-375 | a chain that revisits a key never ends |
| `Pins.ChainEndsAtRoot` | internal/corpus/bom_validate.go:336-383 | with all parents pinned, a chain that ends does so at a root of its manifest |
| `Pins.RootlessIsRejected` | internal/corpus/bom_validate.go:336-383 | a manifest with pins but no root is rejected, although the root count never looks at it |
| `Pins.CollectPins` | internal/corpus/bom_validate.go:337-363 | the first pass accepts exactly distinct, well-formed pins and records their parents and roots |
| `Pins.ValidateSubManifestPins` | internal/corpus/bom_validate.go:336-383 | accepts exactly when fields are valid, keys distinct, parents pinned, and every pin reaches the one root of its manifest |
| `Rollups.Expander.ExpandRollup` | internal/corpus/bom.go:236-295 | the recursive method has the effect and the failures of the state-passing recursion, and stops on every finite store because each object leaves one fewer stored digest unseen |
| `Rollups.Expander.CheckShard` | internal/corpus/bom.go:310-334 | accepts exactly the shards with valid totals, known and distinct sources |
| `Rollups.Expander.AddShards` | internal/corpus/bom.go:269-279 | all shards of an object are checked, counted and handed on, or the first bad one fails |
| `Rollups.Shrinks` | internal/corpus/bom.go:240-243 | entering an object leaves strictly fewer stored digests unseen |
| `RollupTotals.ExpandGrows` | internal/corpus/bom.go:236-295 | every new pin declares the sum of all shards beneath it; new pins hang below the given parent and below nothing else that is older; the returned totals are the shards added |
| `RollupTotals.EarlierNodeKept` | internal/corpus/bom.go:280-289 | shards of a later sibling count for no earlier subtree |
| `SubManifestTrees.GrownIsRootedTrees` | internal/corpus/bom.go:259-264 | what expansion pins always passes uniqueness, pinned parents, acyclicity and the single root |
| `SubManifestTrees.UnderIsReaches` | internal/corpus/bom_validate.go:369-375 | beneath a pin means what following the recorded parents says |
| `SubManifestTrees.GrownPinsValid` | internal/corpus/bom_validate.go:336-383 | of the checks on sub-manifest pins only the comparison of modality tokens can fail after expansion |
| `SubManifestTrees.CycleFails` | internal/corpus/bom.go:240-243 | an object that refers to itself, to an ancestor, to anything already expanded or twice to one child is never accepted |
| `Selections.ExpandBehind` | internal/corpus/bom.go:236-295 | expansion only appends: what it finds, and whether and how it fails, do not depend on what was expanded before |
| `Selections.BuildAllIsBuilt` | internal/corpus/bom.go:105-146 | after any selection that succeeds, every pin of every tree declares exactly the shards beneath it, and every shard belongs to a pin |
| `Selections.ExpandAddsUp` | internal/corpus/bom.go:259-264 | expansion pins exactly the references that can be reached from the root in the store, so their modality tokens add up exactly when those of the reachable references do |
| `Selections.BuiltPinsValidIff` | internal/corpus/bom_validate.go:336-383 | the pins of a successful build are accepted if and only if every reference reachable from a selected rollup that gives modalities gives as many tokens as it declares |
| `Selections.UncheckedModalityTokens` | internal/corpus/bom.go:297-308 | a store of two objects whose expansion succeeds and whose pins are refused, because the reference check does not make that comparison |
| `BomTotals.CheckUsage` | internal/corpus/bom_validate.go:181-204 | accepts exactly usage that splits documents and tokens over the licenses |
| `BomTotals.Validate` | internal/corpus/bom_validate.go:55-243 | accepts exactly when manifests are unique with valid modalities and possible findings, the sub-manifest pins form rooted trees, every shard passes its own checks and belongs to a pinned sub-manifest or to none, totals, licenses and modalities equal an independent recount, overall and per manifest, and the findings of assessed text are those of its shards |
| `BomBuilders.Builder.AddShard` | internal/corpus/bom.go:173-215 | a shard under a license that the policy excludes changes nothing; any other is charged to the bill and to its manifest |
| `BomBuilders.Builder.ListShards` | internal/corpus/bom.go:216-229 | the shards of a manifest are its inline ones or those its expansion hands on, whose pins are appended; a failed expansion is reported as it is |
| `BomBuilders.Builder.AddManifest` | internal/corpus/bom.go:148-234 | a manifest adds exactly its admitted shards, in order, and the pins of its own tree, and stays listed even when the policy admits no shard |
| `BomBuilders.Builder.Build` | internal/corpus/bom.go:105-146 | for any mix of inline and rollup-backed manifests, each path once, the bill lists exactly the admitted shards and the pins of every tree, and all running totals agree with them; it fails exactly with the first failed expansion |
| `BomBuilders.SameCharges` | internal/corpus/bom.go:351-374 | on a shard that passes its own checks the builder and the validator charge the same licenses alike |
| `BomBuilders.SameChargesIff` | internal/corpus/bom.go:351-374 | in general they do exactly for a pin without a license list, with the same license first in both, with one license named in the list alone, or with usage |
| `BomBuilders.KeptRecounts` | internal/corpus/bom_validate.go:120-243 | running totals equal the recount whenever the per-shard checks pass |
| `BomBuilders.OwnersPinned` | internal/corpus/bom_validate.go:140-142 | no shard of a built bill refers to an unpinned sub-manifest, whatever was selected |
| `BomBuilders.RunningModalities` | internal/corpus/bom_validate.go:107-109 | sums of the valid modalities of shards are valid, so a manifest of sound shards passes that check |
| `BomBuilders.AdmittedOfManifest` | internal/corpus/bom_validate.go:213-237 | the shards that the validator counts for a manifest are exactly those that the manifest added |
| `BomBuilders.BuildAndValidate` | internal/corpus/bom.go:105-146 | expanding, building and validating: after successful expansions the bill is accepted exactly when every admitted shard passes its own checks, every reachable reference that gives modalities covers its tokens, and the findings of each manifest are those of its admitted shards; the comparison of totals, the parent graph and the search for a shard's sub-manifest are never what fails |
| `PolicyFindings.AdmittedShare` | internal/corpus/bom_validate.go:234-241 | the admitted shards have at most the findings of all shards, and all of them exactly when the policy excludes no shard with a finding |
| `PolicyFindings.PolicyAfterIndexing` | internal/corpus/bom_validate.go:239-241 | assessed text that the index verifier accepts passes the final comparison of findings exactly when the policy excludes no shard with a finding |
| `PolicyFindings.ExcludedFindingRefused` | internal/corpus/bom_validate.go:239-241 | two sound shards and a policy that excludes the one with a finding: every admitted shard passes, and the bill is refused |
| `LicensePartition.DocsAndTokensPartition` | internal/corpus/bom.go:351-374 | documents and tokens are split over licenses without loss or double counting |
| `LicensePartition.BytesPartitionIff` | internal/corpus/bom.go:351-374 | bytes are never charged twice, and they are split without loss if and only if no shard is under several licenses |
| `ExpandedTrees.ExpandsIffTree` | internal/corpus/bom.go:236-295 | a rollup expands exactly when its references unfold into a finite tree in which no digest repeats, every reference and object is sound, and every node declares the totals of all shards beneath it |
| `ExpandedTrees.ExpansionListsTree` | internal/corpus/bom.go:236-295 | the expansion then gives one pin per node, naming the node above it, and all shards with the sub-manifest that lists them, each node before its children |
| `BomContents.OnceIsFirst` | internal/corpus/bom.go:131-138 | each manifest path is taken once, at its first occurrence |
| `BomContents.PinKeepsShard` | internal/corpus/bom.go:173-222 | the pin of a shard repeats its address, totals, usage and modalities, and is read back as being under the licenses of the shard |
| `BomContents.ListedOwner` | internal/corpus/bom.go:224-238 | an inline shard is handed on without a sub-manifest, a shard found by expansion with the one of its manifest that lists it |
| `BomContents.PolicyHolds` | internal/corpus/bom.go:173-179 | every license of every shard in a built bill is one that the policy allows, so the policy check of the validation never refuses it |
| `BomContents.MissingIffNotAllowed` | internal/corpus/bom.go:173-179 | a listed shard is missing from the bill if and only if one of its licenses is not allowed |
| `BomContents.TotalMeaning` | internal/corpus/bom.go:344-349 | a running total is the number of shards and the sums of their documents, tokens and bytes |
| `BomContents.ModalityMeaning` | internal/corpus/bom.go:425-435 | the modalities are those of the shards, each of the five numbers added up |
| `BomContents.LicenseMeaning` | internal/corpus/bom.go:351-374 | under each license the table holds all of the shards under it alone and its usage in the shards under several |
| `BomContents.RolledTotalIsDeclared` | internal/corpus/bom.go:236-295 | a rollup-backed manifest from which the policy excludes nothing has in the bill exactly the totals that its rollup declares |
| `RecordChecks.UsageAccounts` | internal/index/verify.go:235-250 | the usage of a shard under several licenses is accepted exactly when it has those licenses and no other, and adds up to the documents and tokens of the shard |
| `RecordChecks.PinUsageAccounts` | internal/corpus/bom_validate.go:181-197 | the validator of a bill accepts it exactly then, too |
| `RecordChecks.FindingsReported` | internal/corpus/bom_validate.go:152-159 | the findings of a manifest are the counts of its conversations and of its shards of a schema with detectors, detector by detector |
| `RecordChecks.ModalitiesMeasure` | internal/index/provenance.go:175-188 | modalities are valid exactly when each has a valid name, no negative number and one that is positive |
| `RecordChecks.OverrideNeverUndoes` | internal/index/verify.go:263-268 | a shard of a manifest that removes private data, or with such a recipe of its own, is held to it whatever the other recipe says |
| `RecordChecks.AcceptedTotals` | internal/index/verify.go:254-286 | the totals of an accepted manifest are those of its shards, detector by detector and kind by kind |
| `Measures.AddModalities` | internal/corpus/bom.go:425-435 | the loop over a map in any order adds entry by entry |
| `Measures.ModalityTokens` | internal/corpus/bom.go:437-443 | the loop over a map in any order sums its tokens |
| `Jaccard.FingerprintRecord` | internal/evaluation/evaluation.go:363-378 | the shingles of a record are the set that the next row characterizes |
| `Jaccard.ShinglesMeaning` | internal/evaluation/evaluation.go:363-378 | a shingle is a run of consecutive words of the given width, or the whole text when it is shorter and not empty |
| `Jaccard.JoinInjective` | internal/evaluation/evaluation.go:363-378 | distinct word lists join to distinct texts |
| `Jaccard.SameDigestIffSameWords` | internal/evaluation/evaluation.go:363-378 | two records have equal digests exactly when they have the same words, unless the digest collides |
| `Jaccard.ShingleOverlap` | internal/evaluation/evaluation.go:380-394 | counting over the right-hand set computes the Jaccard index |
| `Jaccard.OverlapSymmetric` | internal/evaluation/evaluation.go:380-394 | the overlap is symmetric |
| `Jaccard.OverlapRange` | internal/evaluation/evaluation.go:380-394 | it lies in [0, 1], is positive exactly for a common shingle, and is 1 exactly for equal sets |
| `Contamination.BuildIndexes` | internal/evaluation/evaluation.go:231-238 | the exact and the inverted index list, for every key, exactly the matching positions in order |
| `Contamination.Candidates` | internal/evaluation/evaluation.go:245-250 | the candidates are exactly the records that share a shingle |
| `Contamination.CandidatesSuffice` | internal/evaluation/evaluation.go:245-261 | summing over the candidates is summing over all evaluation records that share a shingle |
| `Contamination.CheckContamination` | internal/evaluation/evaluation.go:222-277 | from the records on, for a positive ratio the report holds exactly the exact and fuzzy pairs of the comparison of all pairs of fingerprints |
| `Contamination.ExactIffSameWords` | internal/evaluation/evaluation.go:239-244 | the exact overlaps name exactly the pairs of a training and an evaluation record with the same words, training record first |
| `Contamination.AllFuzzyMeaning` | internal/evaluation/evaluation.go:251-261 | the fuzzy overlaps are exactly the pairs with different digests whose Jaccard index reaches the ratio, with that index |
| `Contamination.ExactCount` | internal/evaluation/evaluation.go:268-268 | the limit on exact overlaps counts pairs, each once |
| `Contamination.FuzzyCount` | internal/evaluation/evaluation.go:268-268 | so does the limit on fuzzy ones |
| `Contamination.AgreeIffPositive` | internal/evaluation/evaluation.go:245-261 | the index and the comparison of all pairs agree on every pair of records if and only if the ratio is positive; otherwise two one-word records without a common word tell them apart |
| `Measurement.MeasureRecord` | internal/cli/model_preflight.go:294-320 | updating the counters in place adds what the single record contributes |
| `Measurement.MergeInto` | internal/cli/model_preflight.go:331-357 | merging two workers adds counts, histograms and corpus tables key by key |
| `Measurement.MergeAssociates` | internal/cli/model_preflight.go:331-357 | merging is associative |
| `Measurement.MergeCommutes` | internal/cli/model_preflight.go:331-357 | merging is commutative |
| `Measurement.StridesCover` | internal/cli/model_preflight.go:247-252 | the strided positions of the active workers cover the batch, each position once |
| `Measurement.Flush` | internal/cli/model_preflight.go:234-258 | in every interleaving of the workers a flush adds the batch, each record once |
| `Measurement.SequentialConcat` | internal/cli/model_preflight.go:216-288 | measuring two streams and merging is measuring their concatenation |
| `Measurement.Measure` | internal/cli/model_preflight.go:216-288 | for every worker count and stream the merged measurement equals the one-worker sequential one |
| `Measurement.SequentialMeaning` | internal/cli/model_preflight.go:294-320 | that is: the records, bytes, characters and tokens of the stream, the records that fit into a sequence with their end token, and the same four numbers for each corpus that has records |
| `Quantiles.MeasuredHistograms` | internal/cli/model_preflight.go:294-320 | the histograms of a measurement are those of its records |
| `Quantiles.HistogramQuantile` | internal/cli/model_preflight.go:389-407 | returns the least occurring length that at least ceil(total * quantile) records do not exceed, or the greatest length when that rank is beyond the records |
| `Quantiles.TargetWithin` | internal/cli/model_preflight.go:389-407 | for quantiles up to 1 the rank is always reached |
| `Quantiles.TargetIsLeast` | internal/cli/model_preflight.go:389-407 | the rank is the least integer that is not below the total times the quantile |
| `Quantiles.CountIsPositions` | internal/cli/model_preflight.go:389-407 | the cumulative count at a length is the number of records up to it |
| `Quantiles.MeasureTokenQuantile` | internal/cli/model_preflight.go:216-407 | so the reported token quantile does not depend on the worker count |
| `XPath.XPathMatches` | internal/ingest/file_profiles.go:313-331 | matches exactly when an embedding of the steps exists: in order, child steps adjacent, descendant steps anywhere later, ending at the last node |
| `XPath.PlacedIsEmbedding` | internal/ingest/file_profiles.go:313-331 | placing step after step is the same as such an embedding |
| `XPathNames.PlainName` | internal/ingest/file_profiles.go:333-345 | "*" selects every element, and a plain name those of that local name in any namespace |
| `XPathNames.PrefixedName` | internal/ingest/file_profiles.go:341-344 | a prefix up to the first colon is dropped |
| `XPathNames.BracedName` | internal/ingest/file_profiles.go:337-340 | a braced namespace selects exactly the elements of that non-empty namespace and local name |
| `XPathNames.ChildSteps` | internal/ingest/file_profiles.go:313-331 | a path of child steps selects exactly the elements at its depth whose names match from the root down |
| `XPathNames.DescendantStep` | internal/ingest/file_profiles.go:320-327 | "//name" selects the elements of that name at any depth |
| `XPath.IsExcluded` | internal/ingest/file_profiles.go:283-291 | a path is excluded exactly when an element selector among the exclusions matches it |
| `XPath.NodeText` | internal/ingest/file_profiles.go:268-281 | the text is, in document order, every piece of character data with no excluded element between it and the matched node, that node included |
| `XPathNames.VisibleMeaning` | internal/ingest/file_profiles.go:268-291 | with "//name" excluded, a piece of text is taken exactly when no element from the match down to it has that name |
| `XPath.Walk` | internal/ingest/file_profiles.go:232-246 | the walk finds exactly the matching elements, parents before children |
| `XPath.SelectorValues` | internal/ingest/file_profiles.go:232-266 | the values are the non-empty normalized texts of all matches in document order |
| `XPathNames.EarlierFirst` | internal/ingest/file_profiles.go:232-246 | the elements below earlier content come before those below later content |
| `XPathNames.ValuesInOrder` | internal/ingest/file_profiles.go:247-265 | the values come in the order of the matches |
| `Base64.RoundTrip` | internal/ingest/opaque.go:87-87 | decoding the base64 of any bytes (section 4 of RFC 4648) gives them back |
| `Opaque.DecimalBack` | internal/ingest/opaque.go:86-86 | a chunk label is read back as its number |
| `Opaque.BodyFoundIff` | internal/ingest/opaque.go:86-87 | the body of a row is found behind the first blank line if and only if the media type brings no blank line of its own |
| `Opaque.PlainMediaType` | internal/ingest/opaque.go:86-87 | a media type without newline never does |
| `Opaque.Lossless` | internal/ingest/opaque.go:46-126 | decoding the row bodies in order gives back the file |
| `Opaque.Labels` | internal/ingest/opaque.go:75-101 | there is one row for each chunk, in order |
| `OpaqueReader.RowReads` | internal/ingest/opaque.go:86-101 | a reader of row i finds six lines: among them the media type, the label i + 1 of the number of chunks, and the base64 of the i-th chunk; the row carries the license and source of the input and the digest of its text |
| `OpaqueReader.FullChunks` | internal/ingest/opaque.go:60-84 | every chunk but the last is full and the last holds the rest |
| `Opaque.ChunkNonEmpty` | internal/ingest/opaque.go:60-84 | each of the ceil(size / chunk) chunks is non-empty and at most one chunk long |
| `Opaque.Batcher.Add` | internal/ingest/opaque.go:102-112 | batching cuts at the same places as the row-group cut, on any limit |
| `Opaque.StreamOpaqueInput` | internal/ingest/opaque.go:46-126 | unless the consumer refuses a batch, it succeeds if and only if the file has the planned size and digest; the batches then hold all its rows |
| `Opaque.BatchesLossless` | internal/ingest/opaque.go:46-126 | every batch is within the limit or a single row, and the batches decode to the file |
| `CanonString.AppendString` | internal/canon/canon.go:12-38 | the loop appends the encoding of the string to the destination and changes nothing before it |
| `CanonString.RoundTrip` | internal/canon/canon.go:12-38 | a JSON string reader (section 7 of RFC 8259) applied to the output followed by any text returns the string and leaves exactly that text |
| `CanonString.EncodingSelfDelimiting` | internal/canon/canon.go:12-38 | the encoding is injective and self-delimiting |
| `CanonString.NoControlBytes` | internal/canon/canon.go:12-38 | no raw control byte is emitted |
| `CanonString.PlainBytesLiteral` | internal/canon/canon.go:9-23 | bytes that need no escape stay literal (section 3.2.2.2 of RFC 8785) |
| `CanonString.ShortestText` | internal/canon/canon.go:12-38 | no text that reads as the string is shorter than the printed one |
| `CanonString.OnlyEscape` | internal/canon/canon.go:12-38 | among the shortest escapes of a byte the printer takes the one with lower-case digits, and there is only one |

## Left out

- `int64` overflow of counters and totals; floating-point rounding of ratios and quantile ranks, which are exact reals here.
- Files, network, Parquet encoding, SHA-256, JSON and XML decoding, tokenizers, content detectors and privacy redaction: they are parameters, arbitrary outcomes or atomic steps.
- Publication under a base URL that changes between runs: the record is then dropped (`PublicationSafety.ChangedBaseForgets` says what is lost), so the other publication results fix the base URL.
- Assemblies that repeat a digest never reach the published state; recovery is stated for distinct digests, and `PublicationSafety.PublishedIsExact` proves that publication implies them.
- Timers and remote process management of the handshake: a timeout, a dead worker and a cancelled context are one failing step of rank 0. The loop of rank 0 exists only as steps of the transition system.
- Write errors of the terminal behind the token writers; a failed write ends the generation.
- The order in which `CheckContamination` sorts its report, and the report digest: results are stated on multisets for fuzzy pairs and in evaluation order for exact ones.
- BomTotals.Validate: leaves out the checks on one record alone that bear on no total: shard attestation, source names and provenance, conversion, format, redaction fields, sorted license sets of manifests, index identity and record filters.
- Manifests.VerifyManifest: leaves out the same kind of checks: identity, sources, conversion, provenance, and a shard URL that names a different digest than its entry.
- The bill is filled while a rollup is expanded; here its shards are added when the expansion has succeeded. A failed expansion discards the bill either way.
- The walk from targets to manifests: a selection is any list of manifests, repetitions included.
- The glob and license-expression syntax of `LicensePolicy`: a policy is an arbitrary predicate on licenses.
- `parseXPath`, `parseXMLTree` and attribute selectors: selectors are given as parsed steps and documents as trees. With several attributes of one local name the program's answer depends on map order.
- The active object of the assembler is a value held by the `Assembler` class, not an object of its own; the program keeps it in a map with a single key.
- Failing storage in the deduplicator (a transaction either happens or the run ends) and its table of rejection reasons.
- A file that changes while opaque ingestion reads it: the model reads one fixed content and compares size and digest with the plan; modification times are not modelled.
- Batch progress events, token progress counters and logging.
- CanonString.RoundTrip: the reader covers the escapes of ASCII characters; escapes of characters beyond ASCII, which the printer never produces, are outside it.
- Assembly.Assemble: the verification pipeline between packing and the result is modelled on its own (`VerificationPipeline`), where it is proved to return the enqueued objects in order; here it is a sink that may refuse.
