# proxctl: a verified model of its core

proxctl turns one env manifest into running virtual machines on Proxmox. This project models the parts of it that carry
state, branching or string arithmetic, and proves what they are for. `dafny verify dfyconfig.toml` checks everything.

**Workflow engine.** `Proxmox` is the server: a table of VMs per (host, VMID), the files on each storage, and calls that
succeed, are lost, or take effect while their answer is lost (`Fate`). `SingleVM` gives one node's plan and its `Apply` as
smallest steps, one remote call or lock operation at a time; `Workflow` is the object the code runs, each method proved
equal to those steps. `Scheduler` runs one such machine per node under the counting semaphore, the shared upload mutex,
cancellation and the two error regimes; a run is any sequence of enabled steps, so every theorem over runs is one over all
interleavings and all failures. `Safety`, `Liveness` and `Outcomes` say what every run keeps, that it ends, and what it
returns. `Confluence` and `Interleaving` show that a concurrent apply is a sequential one, call for call, whatever fails;
`PlanApply` that a plan can be applied; `Teardown` and `MultiNode` cover rollback, finalize and the multi-node object; `EndToEnd` joins them.

**Trace.** `TraceSchema` is the record, its hash and the chain; `TraceFile`, `TraceReader` and `TraceWriter` are the
backward scan, the forward reader and the buffered writer on one sequence of bytes; `TraceResume` says when scan and reader
agree; `TraceReplay` is the three-mode replayer. JSON and SHA-256 stay abstract (`Codec`). The laws (`Lawful`): a record cannot be marshaled only for raw JSON
that is not JSON; its line is free of newlines and decodes to the same record with its raw JSON reformatted at most; a CR at
either end of a line does not matter, and two records on one line are none; SHA-256 has no collisions. `TraceAssumptions` constructs a codec that obeys them, so
nothing is proved from a contradiction.

**Manifest.** `Placeholders` scans and expands `${kind:spec|filter}` tokens; `Walker` is the in-place string walk over a
graph of Go values with shared parts; `Redaction` is the marker-replacing loop and `RedactManifest` runs it over the graph;
`Uniqueness` is the validator over index maps.

**Transforms.** `BootConfig` patches kernel command lines; `DiskSize` normalises disk sizes, with `Decimal` for 64-bit
`Atoi` and `Itoa`. `Text`, `Manifest`, `Locality` and `Common` hold what the others share.

Strings are sequences of Unicode scalar values, trace files sequences of bytes.

## Where the code and its documentation differ

The model follows the code.

- The ISO that a build uploads is named `proxctl-<node>.iso` (`pkg/workflow/single_vm.go:206`); the one attached is
  `<node>_kickstart.iso` (`:243`). `PlanApply.UploadIsNotWhatIsAttached` proves that they never coincide.
- `docs/architecture.md:96-98` and `docs/user-guide.md:326-328` promise a rollback stack that is unwound on failure and
  leaves nothing behind. The code has no such stack. An explicit rollback restores the VM table exactly when no node's VM was
  there before, and the whole server exactly when nothing was uploaded either (`Teardown.RollbackRestores`,
  `EndToEnd.RollbackLeavesTheUpload`).
- `patchKernelCmdline` is documented as idempotent and as handling `kernel` lines. It does not match `kernel` lines, and it is
  idempotent exactly when the arguments contain `autoinstall` (the builder's default does) or there is nothing to patch but bodiless
  lines with blank arguments (`BootConfig.PatchIsIdempotentIff`, with `BootConfig.PatchAddsAgainExample`).
- `normalizeSizeGiB` strips a G unit from anything that ends in a digit before it, also from text that is not a number
  (`DiskSize.NonSizeStaysIff`, `DiskSize.NonSizeExample`), and its T case multiplies without an overflow check
  (`DiskSize.NormalizeKeepsSizeIff`, `DiskSize.OverflowExample`).
- `ModeObserve` is documented to return an error when the executor fails; the code returns nil (`TraceReplay.Replay`), so the two
  agree exactly when no call fails (`TraceReplay.ObserveAsDocumentedIff`).
- `readLastRecord` is documented to return the final non-empty line; it looks only at the last line, and finds nothing when
  that is empty (`TraceResume.ScanAgreesIff`, `TraceResume.ScanMissesBehindBlankLine`). A session opened on such a file, or on
  one without a final newline, breaks it (`TraceResume.SessionLoadsIff`, with `TraceResume.BlankLineBreaksChain`).
- A record's raw JSON is compacted when it is hashed and written, but kept as it stands when it is read. So the last hash pins
  down a trace only up to the formatting of raw JSON (`TraceSchema.LastHashDeterminesTrace`,
  `TraceAssumptions.SpacingIsInvisible`), and `LoadAll` returns what was written up to that formatting.
- `redactDeferredSecrets` is documented for every string field; strings held as interfaces in slices keep their markers. No
  marker is left exactly when no string at such an unsettable position had one (`RedactManifest.RedactDeferredSecrets`,
  `RedactManifest.RedactedEverywhereIff`, with `RedactManifest.MarkerInInterfaceStays`).
- The options built for a node can fail the client's own check, and only after the kickstart ISO has been built and uploaded
  (`PlanApply.ApplyOfPlanFailsInternallyIff`, `PlanApply.RefusedAfterTheUpload`). The struct tags of the manifest leave one way
  to that: an empty node name, which is a map key without a tag (`PlanApply.NamelessNodeIsRefused`).

## Model

| member | source | states |
|---|---|---|
| SingleVM.CreateOptsValidIff | pkg/workflow/single_vm.go:363-442 | the options built for a node pass the client's own check exactly when host, VMID and name are given and every disk has a size and ends up on a storage; interface, bridge and EFI disk are always supplied |
| SingleVM.PlanLists | pkg/workflow/single_vm.go:109-158 | the four change lists that a plan can be, with their targets |
| SingleVM.React | pkg/workflow/single_vm.go:171-260 | a step of Apply stays inside the change at hand or goes on to the next one, and always makes progress |
| Workflow.SingleVMWorkflow.BuildCreateOpts | pkg/workflow/single_vm.go:363-442 | the loops give, from the manifest alone: per disk the interface, size, and storage and sharing by literal storage, class or fallback; per NIC index, bridge and MAC; tags and resources; an EFI disk beside the first disk for OVMF in any case; the install ISO |
| Workflow.SingleVMWorkflow.Plan | pkg/workflow/single_vm.go:87-159 | reads the server once and changes nothing; refuses when the VM is there or the check fails, otherwise appends exactly the plan |
| Workflow.SingleVMWorkflow.Render | pkg/workflow/single_vm.go:177-184 | one call to the renderer, ending as the steps of one render change end |
| Workflow.SingleVMWorkflow.Build | pkg/workflow/single_vm.go:185-192 | one call to the builder with the kickstart rendered before, ending as the steps of one build change end |
| Workflow.SingleVMWorkflow.Upload | pkg/workflow/single_vm.go:193-212 | lock, upload, unlock, as the steps of one upload change; the call is made only with the lock in hand, which is free again whatever the call does |
| Workflow.SingleVMWorkflow.Attach | pkg/workflow/single_vm.go:236-249 | attaching, then the boot order; the second call is not made when the first fails |
| Workflow.SingleVMWorkflow.VerifyIso | pkg/workflow/single_vm.go:213-227 | fails unless the storage lists the volume id that is attached later |
| Workflow.SingleVMWorkflow.Create | pkg/workflow/single_vm.go:228-235 | one create call with the options built from the manifest |
| Workflow.SingleVMWorkflow.PowerOn | pkg/workflow/single_vm.go:250-256 | one start call |
| Workflow.SingleVMWorkflow.ApplyChange | pkg/workflow/single_vm.go:176-259 | each case of the switch ends as the steps of that change end, including every precondition error |
| Workflow.SingleVMWorkflow.Apply | pkg/workflow/single_vm.go:162-267 | the whole loop leaves the server, error and number of calls that the step machine running alone leaves |
| Workflow.SoloByChange | pkg/workflow/single_vm.go:171-260 | running alone, a node finishes one change before the next |
| Workflow.SingleVMWorkflow.Rollback | pkg/workflow/single_vm.go:289-307 | looks, stops with the error ignored, deletes; nothing but the node's VM can change, and nil means it is gone |
| Workflow.SingleVMWorkflow.Detach | pkg/workflow/finalize.go:218-235 | ide3, ide2, boot order; the first failing call ends it; nothing but the VM can change, and nil means that its ISO slots are empty, it boots from the disk, and is otherwise as it was |
| Workflow.SingleVMWorkflow.Finalize | pkg/workflow/finalize.go:239-259 | refuses without client or address, waits, then detaches; nil means the node's VM is finalized and all else as before |
| PlanApply.ApplyOfPlanFailsInternallyIff | pkg/workflow/single_vm.go:162-267 | on Plan's own list, whichever remote calls fail, Apply ends in an error of the code's own exactly when the options built for the node do not pass the client's check and everything up to create-vm went well; the error is then that check's, and nothing more was changed |
| PlanApply.RefusedAfterTheUpload | pkg/workflow/single_vm.go:176-235 | with every call succeeding, the kickstart ISO has been built and uploaded, and no VM changed, when the check fails |
| PlanApply.NamelessNodeIsRefused | pkg/proxmox/vm.go:88-90 | a manifest, with an empty node name, on which that happens |
| PlanApply.DryRunDoesNothing | pkg/workflow/single_vm.go:171-175 | a dry run makes no call, changes nothing and returns nil, for every change list |
| PlanApply.NilMeansSupplied | pkg/workflow/single_vm.go:176-259 | for every change list, an Apply that returned nil had the client, renderer, builder and storage that each change needs, and knew every kind |
| PlanApply.MissingEndsApply | pkg/workflow/single_vm.go:176-259 | and a change that lacks one of these, or an upload without a build, ends Apply with an error before any call is made |
| PlanApply.ErrorNamesAChange | pkg/workflow/single_vm.go:176-259 | for every change list and all failures, an error is that of a precondition or begins with the words of a change on the list |
| PlanApply.ApplyOfPlan | pkg/workflow/single_vm.go:87-267 | with every call succeeding Apply returns nil exactly when the VM is absent, its options valid and a skipped build's ISO present; the server then has, in the manifest's own terms, the VM running with install ISO, kickstart ISO and boot order, the build under its name on the kickstart storage, and nothing else new |
| PlanApply.UploadIsNotWhatIsAttached | pkg/workflow/single_vm.go:206-243 | the uploaded name is never the attached one, so the attached ISO is on the storage only if it was before |
| Scheduler.ConfigIsValid | pkg/workflow/multi_node.go:104-110 | whatever concurrency is configured there is at least one slot, and the goroutines belong to distinct nodes of the manifest |
| Scheduler.TotalIsCardinality | pkg/workflow/multi_node.go:163-189 | summing slots over the tasks counts the nodes that hold one |
| Safety.InvPreserved | pkg/workflow/multi_node.go:158-208 | every step of every node keeps the scheduler invariant |
| Safety.Safe | pkg/workflow/multi_node.go:150-208 | in every reachable state free and held slots add up to the limit, at most one node is inside UploadISO, and the mutex is held exactly by that node, which owns a slot |
| Safety.AtMostConfigured | pkg/workflow/multi_node.go:104-110 | whatever concurrency is configured, at most that many nodes, or four when it is not positive, are ever inside Apply |
| Safety.AsManyAsConfigured | pkg/workflow/multi_node.go:158-208 | and some run has exactly that many inside, or all nodes if there are fewer |
| Liveness.MeasureDrops | pkg/workflow/multi_node.go:158-208 | every step lowers a measure of the work left |
| Liveness.NoDeadlock | pkg/workflow/multi_node.go:163-207 | until every goroutine has finished, some step other than an outside cancellation is enabled, despite slot-then-mutex locking |
| Liveness.Terminates | pkg/workflow/multi_node.go:158-208 | every run is bounded in advance, and a run that cannot go on has finished every goroutine with all slots and the mutex free |
| Outcomes.ContinueOnErrorOutcome | pkg/workflow/multi_node.go:165-188 | every node is applied exactly once, and the joined error has exactly one entry per failing node, that node's error under its name |
| Outcomes.FailFastOutcome | pkg/workflow/multi_node.go:190-207 | no node is applied twice, the result is nil exactly when every node's Apply returned nil, otherwise the first error received; without outside cancellation that error is a node's own failure |
| Outcomes.FailureFreesWaiters | pkg/workflow/multi_node.go:190-203 | in fail-fast mode, once a failure has been reported every goroutine still waiting for a slot can give up without entering Apply |
| Outcomes.FirstError | pkg/workflow/multi_node.go:190-207 | the group's error is the first one reported |
| Confluence.CleanRunIsSolo | pkg/workflow/single_vm.go:171-260 | a node that returned nil went through the run in which all its calls succeed |
| Confluence.LoneIsLocal | pkg/workflow/single_vm.go:171-260 | whatever its calls meet, what a node does and answers depends only on its own VM, upload and expected ISO, and nothing else changes |
| Confluence.LoneIsSolo | pkg/workflow/single_vm.go:162-267 | the single steps put together are the Apply of the workflow object, its calls meeting the same fates |
| Confluence.LoneOnCourse | pkg/workflow/single_vm.go:171-260 | an Apply that returned nil is the one in which every call succeeds, and so is one that met no failure |
| Confluence.UploadKeysDiffer | pkg/workflow/single_vm.go:206 | uploads of different nodes never overwrite each other |
| Interleaving.RunFollows | pkg/workflow/multi_node.go:158-208 | in every interleaving, whatever fails, each node and its part of the server stand where the node alone would stand, its steps meeting the same fates |
| Interleaving.SerialFollows | pkg/workflow/multi_node.go:158-208 | applied one by one, each node does and answers what it does and answers alone |
| Interleaving.RunIsSerial | pkg/workflow/multi_node.go:158-208 | every finished run of either mode, with any failures and cancellations, leaves exactly the server that applying the nodes one by one in sorted order leaves, the steps of each meeting the same fates, and each node that was applied answers the same |
| Interleaving.FinishedHasLanded | pkg/workflow/multi_node.go:158-208 | a node that returned nil, in whatever company, is where it gets with every call succeeding |
| Interleaving.ConcurrentIsSequential | pkg/workflow/multi_node.go:158-208 | every interleaving in which all nodes succeed ends in the server that applying them one by one in sorted order leaves |
| EndToEnd.AcceptedManifestsAreConfluent | pkg/config/validators.go:112-115 | the same for every manifest that validateUniqueness accepts, with any limit and either mode |
| EndToEnd.NilMeansAllApplied | pkg/workflow/multi_node.go:150-208 | in either mode nil means that every node was applied and returned nil |
| EndToEnd.UpReachesRunningVMs | pkg/workflow/multi_node.go:263-290 | when apply and finalize return nil, every node's VM has the options its manifest entry asks for and runs with empty ISO slots and the disk boot order, and no other VM has changed |
| EndToEnd.CleanRunsSucceed | pkg/workflow/multi_node.go:158-208 | with every call succeeding and no cancellation, a finished run returned nil exactly when every node could have been applied alone |
| EndToEnd.RollbackLeavesTheUpload | pkg/workflow/single_vm.go:289-307 | rolling back a full apply restores the VM table but keeps the uploaded ISO |
| MultiNode.PlanMeans | pkg/workflow/multi_node.go:123-138 | a plan that was returned holds every node's change list, and no node's VM was there |
| MultiNode.PlanAcceptsIff | pkg/workflow/multi_node.go:123-138 | a plan is returned exactly when every node is in the manifest and, given a client, every look succeeds and finds no VM |
| MultiNode.MultiNodeWorkflow.IsoMu | pkg/workflow/multi_node.go:113-119 | the lock in place is returned, and allocated only when there is none |
| MultiNode.MultiNodeWorkflow.PerNode | pkg/workflow/multi_node.go:89-102 | every node's workflow gets the one shared lock |
| MultiNode.MultiNodeWorkflow.Plan | pkg/workflow/multi_node.go:123-138 | one read per node up to the first refusal, nothing changed on the server, and the lock exists before any goroutine starts |
| MultiNode.MultiNodeWorkflow.ReverseInPlace | pkg/workflow/multi_node.go:249-251 | the pairwise swaps reverse the names |
| MultiNode.MultiNodeWorkflow.Rollback | pkg/workflow/multi_node.go:242-259 | every node is rolled back, backwards, whatever fails, and all errors are returned |
| MultiNode.MultiNodeWorkflow.Finalize | pkg/workflow/finalize.go:282-296 | every node is finalized in order, whatever fails, and all errors are returned |
| MultiNode.PlannedRunIsUndone | pkg/workflow/multi_node.go:242-259 | plan, then any apply stopped anywhere, then a rollback that returns nil: the VM table is the one Plan saw |
| Teardown.RollbackNodeRemoves | pkg/workflow/single_vm.go:289-307 | a node's rollback can only remove its own VM, and nil means that VM is gone |
| Teardown.RollbackNodeNilIff | pkg/workflow/single_vm.go:289-307 | it returns nil exactly when it finds no VM or deletes it; a stop that fails does not matter as long as the VM is off |
| Teardown.RollbackSnoc | pkg/workflow/multi_node.go:253-259 | every node's error is returned under its name, in order, whatever failed before |
| Teardown.RollbackRestores | pkg/workflow/multi_node.go:242-259 | after any run, a rollback that returns nil restores the VM table exactly when no node's VM existed before, and the whole server exactly when the run also left the files as they were; repeating it changes nothing |
| Teardown.RollbackSucceeds | pkg/workflow/single_vm.go:304-306 | stopping before deleting makes rollback return nil when every call succeeds |
| Teardown.AttemptKeepsGoal | pkg/workflow/finalize.go:218-235 | an attempt that fails anywhere moves the VM no further from being finalized, and nil means it is |
| Teardown.AttemptStopsAt | pkg/workflow/finalize.go:225-233 | an attempt ends at the first lost call, with that call's error and what was done before it |
| Teardown.FinalizeNodeNilIff | pkg/workflow/finalize.go:239-259 | a node is finalized without error exactly when it has an address and a VM and the wait and the three calls succeed |
| Teardown.FinalizeConverges | pkg/workflow/finalize.go:218-235 | after any number of failed attempts one that returns nil leaves the state of a single clean run, further ones change nothing, and a clean one succeeds |
| Teardown.FinalizeAllReaches | pkg/workflow/finalize.go:282-296 | finalizing all nodes, if it returns nil, finalizes exactly their VMs |
| Teardown.FinalizeSnoc | pkg/workflow/finalize.go:282-296 | every node's error is returned under its name, in order |
| TraceSchema.VerifyChain | pkg/trace/schema.go:140-156 | the answer is the first broken record and its error, and -1 exactly for intact chains |
| TraceSchema.FirstBreakMeans | pkg/trace/schema.go:122-156 | what each error says of the first broken record: its version first, then its hash over everything else, then its link |
| TraceSchema.HashDeterminesRecord | pkg/trace/schema.go:109-134 | valid records with the same hash are the same up to the formatting of raw JSON, and equal exactly when their raw JSON is |
| TraceSchema.OnlyGenesisHasNoPrev | pkg/trace/schema.go:145-153 | in an intact chain exactly the first record has an empty link |
| TraceSchema.LastHashDeterminesTrace | pkg/trace/schema.go:140-156 | two verified traces that end in the same hash have the same length and are the same record by record up to the formatting of raw JSON, and equal exactly when that agrees |
| TraceAssumptions.LawfulCodecExists | pkg/trace/schema.go:109-117 | the assumptions on encoding and hash can be met together |
| TraceAssumptions.SpacingIsInvisible | pkg/trace/schema.go:109-117 | two verified traces with the same last hash that differ in one blank of raw JSON |
| TraceFile.ReadLastRecord | pkg/trace/writer.go:119-144 | for every file content the backward byte scan decodes the last line, and finds nothing when that is empty |
| TraceResume.ScanAgreesIff | pkg/trace/writer.go:119-144 | on a file that reads without error the scan finds the reader's last record exactly when the last line is not blank, or there is no record |
| TraceResume.ScanMissesBehindBlankLine | pkg/trace/writer.go:116-117 | a file on which they differ: a record and a blank line |
| TraceResume.BlankLineBreaksChain | pkg/trace/writer.go:34-41 | a session opened on that file starts the chain anew, and the file no longer verifies |
| TraceResume.SessionLoadsIff | pkg/trace/writer.go:29-109 | after a session on any file that loads with a record, the file loads exactly when it ended in a newline and its last line was not blank, and then gives the old records and, linked to the last of them, the new writes |
| TraceResume.ReadAllInParts | pkg/trace/reader.go:50-62 | reading two parts is reading one and then the other, unless the first ends in an error |
| TraceFile.SplitAppend | pkg/trace/reader.go:31-47 | the lines the writer wrote are the lines the reader sees, with whatever follows them |
| TraceReader.Reader.Next | pkg/trace/reader.go:31-47 | the next record, the end, or an error, skipping empty lines; what is left is the rest of the file |
| TraceReader.OneLineReads | pkg/trace/reader.go:31-47 | one line, with or without a CR: too long at 4 MiB, blank, not a record, or a record |
| TraceReader.Reader.All | pkg/trace/reader.go:50-62 | the records up to the end or the first error |
| TraceReader.LoadAll | pkg/trace/reader.go:71-85 | the records read, with the reading error or else the chain's |
| TraceWriter.Writer.constructor | pkg/trace/writer.go:29-53 | whatever the file holds, opening resumes from the hash of its last line's record, or from nothing |
| TraceWriter.Writer.Append | pkg/trace/writer.go:76-81 | bytes reach buffer and file in order, however much of the buffer is flushed early |
| TraceWriter.Writer.Write | pkg/trace/writer.go:57-87 | one record is added, the caller's in every field but version and time where they are zero, the link and the hash; or none, and nothing changes, when it cannot be marshaled |
| TraceWriter.Writer.Flush | pkg/trace/writer.go:91-109 | after Sync or Close the file holds exactly the lines written |
| TraceWriter.LastOfLines | pkg/trace/writer.go:36-41 | the backward scan returns the end of the chain of what was written |
| TraceWriter.WritesAreChained | pkg/trace/writer.go:57-87 | every written record is hashed and linked to the one before |
| TraceWriter.LogKeepsWrites | pkg/trace/writer.go:57-87 | the records added are, in order, the stamped records of exactly the writes that can be marshaled |
| TraceWriter.StampedIff | pkg/trace/writer.go:69-79 | whether a write is refused depends on its raw JSON alone |
| TraceWriter.KeptAre | pkg/trace/writer.go:69-79 | a write is kept exactly when its raw JSON is missing or JSON, whatever stands around it |
| TraceWriter.LoadsIff | pkg/trace/reader.go:71-85 | a file of stamped records loads exactly when all have the current version and a line under the scanner's limit; they then come back in order, the same in every field but the formatting of raw JSON, and equal when that is compact |
| TraceWriter.LoadsWrittenIff | pkg/trace/writer.go:57-87 | in terms of the caller: LoadAll succeeds exactly when every write not refused has version 0 or 1 and a short line, and gives back each field by field, with version, time, link and hash filled in and raw JSON reformatted at most |
| TraceWriter.ReadGivesBack | pkg/trace/writer.go:57-87 | what is read of the lines of the stamped writes is those writes, field by field, each linked to the one before |
| TraceWriter.AllEntriesAre | pkg/trace/writer.go:57-109 | the writes of several sessions are those of each, one after another |
| TraceWriter.RunSession | pkg/trace/writer.go:29-109 | open any file, any writes and syncs, close: the file holds its old bytes and the lines of the stamped writes |
| TraceWriter.SessionExtends | pkg/trace/writer.go:36-41 | on a file of written records a session continues their chain |
| TraceWriter.RunSessions | pkg/trace/writer.go:29-144 | any number of sessions on a file that did not exist: without a session there is none to load; otherwise LoadAll gives back all their writes, field by field and in order, or an error, as if they had been made in one go |
| TraceReplay.Replay | pkg/trace/replay.go:54-111 | every executed record is called once, in order, and its entry matched exactly when the output is the recorded bytes or JSON of the same meaning; otherwise it carries both outputs or the executor's error. Strict stops at the first such entry and returns nil exactly when there is none; a dry run or a broken chain calls nothing |
| TraceReplay.ExecutedIs | pkg/trace/replay.go:72-79 | the calls are the records whose decision is "executed", in order |
| TraceReplay.ObserveAsDocumentedIff | pkg/trace/replay.go:20-22 | observe mode does as documented exactly when no executed record's call fails |
| TraceReplay.Cut | pkg/trace/replay.go:79-108 | the entries up to and including the first diverged one |
| Placeholders.TokenAtIff | pkg/config/resolver.go:17 | at each place the pattern matches exactly the well-formed tokens |
| Placeholders.Rematch | pkg/config/resolver.go:57-58 | matching a token's own text again gives the same groups |
| Placeholders.Lossless | pkg/config/resolver.go:56 | gaps and raw tokens concatenate back to the input |
| Placeholders.SegmentsAreExact | pkg/config/resolver.go:345-352 | a token is found at exactly those places outside earlier tokens where the pattern matches |
| Placeholders.ExpandToken | pkg/config/resolver.go:56-139 | a token becomes its value, encoded as often as base64 is asked for; one without a value comes back as it was and is logged once under its spec; vault tokens and ssh keys are deferred |
| Placeholders.ValueOfIff | pkg/config/resolver.go:76-124 | per kind, exactly which value stands for a token: what the lookup finds (for env, unless it is empty; for files, without final newlines), or else the first default; and exactly when there is none |
| Placeholders.FiltersAre | pkg/config/resolver.go:63-68 | the filters are the stretches between bars, trimmed |
| Placeholders.RawIs | pkg/config/resolver.go:17 | what a token looks like |
| Placeholders.ApplyFilters | pkg/config/resolver.go:126-135 | base64 filters apply in order, default filters are skipped |
| Placeholders.EncodedIs | pkg/config/resolver.go:126-135 | the value is encoded as many times as base64 is among the filters, and nothing else happens to it |
| Placeholders.ExpandPlaceholders | pkg/config/resolver.go:55-140 | every token is replaced, and errors and deferred tokens are appended in text order |
| Placeholders.ParsePlaceholders | pkg/config/resolver.go:345-352 | returns exactly the tokens that expansion replaces |
| Placeholders.TextSurvives | pkg/config/resolver.go:55-140 | text outside tokens and failed tokens stand unchanged and in order in the result |
| Placeholders.OnlySuccessesChange | pkg/config/resolver.go:55-140 | a string without tokens, or whose tokens all fail, is returned as it is, with one error per token |
| Walker.Store.Walk | pkg/config/resolver.go:242-284 | for an idempotent f every reachable object ends rewritten exactly once, however often it is shared: at every place in it, through fields and interfaces, a settable string s is f(s) and every other string stays |
| Walker.Store.WalkFields | pkg/config/resolver.go:251-254 | the fields of a struct, one after another |
| Walker.Store.WalkElems | pkg/config/resolver.go:255-258 | the elements of a slice are set in place |
| Walker.Store.WalkEntries | pkg/config/resolver.go:259-274 | map values are collected first and stored afterwards, for every iteration order |
| Walker.Store.WalkEntry | pkg/config/resolver.go:287-328 | a map value is rewritten on a settable copy, also when it is an interface |
| Walker.MappedObjReplaces | pkg/config/resolver.go:242-328 | place by place, for pointers, slices and maps, which strings are replaced; an interface that is a map entry counts as settable |
| Walker.ReachIsLeast | pkg/config/resolver.go:247-274 | what is reachable is the least set that holds the roots and whatever stands as a reference in one of its objects |
| Walker.Compose | pkg/config/resolver.go:242-284 | walking one part and then another is walking both together, even where they share objects |
| RedactManifest.WalkKeepsShape | pkg/config/resolver.go:242-328 | no object appears or vanishes, and kinds, lengths, keys, references and non-strings stay |
| RedactManifest.InterfacesUntouched | pkg/config/resolver.go:247-250 | a string held as an interface outside a map is left alone |
| RedactManifest.MarkerInInterfaceStays | internal/root/config.go:75-77 | a marker in a slice of interfaces survives the redaction of the manifest |
| RedactManifest.RedactDeferredSecrets | internal/root/config.go:77-95 | every settable string reachable from the manifest is redacted if it holds a closed marker, and every other string stays; no string at all holds one afterwards exactly when no unsettable one did before; redacting again changes nothing |
| RedactManifest.RedactedEverywhereIff | internal/root/config.go:75-77 | exactly when redaction reaches every marker in a region: when every string at an unsettable position was clean |
| Redaction.RedactKind | internal/root/config.go:81-91 | the inner loop ends and computes the left-to-right replacement of every closed marker |
| Redaction.RedactString | internal/root/config.go:78-94 | both loops together |
| Redaction.CountDrops | internal/root/config.go:81-91 | each replacement lowers the number of prefixes, even where it lengthens the string |
| Redaction.RedactedIsClean | internal/root/config.go:77-95 | the result has no closed marker of either kind, and only strings that had one change |
| Redaction.RedactIsIdempotent | internal/root/config.go:77-95 | redacting again changes nothing |
| Redaction.PassKeepsTheRest | internal/root/config.go:81-91 | a string cuts into kept text and closed markers, and exactly the markers are replaced |
| Redaction.VaultMarkerRedactedIff | internal/root/config.go:81-91 | the marker a vault placeholder leaves is redacted as a whole exactly when its spec has no closing bracket |
| Uniqueness.ClaimNic | pkg/config/validators.go:117-135 | a NIC's MAC and address are added to the index maps, or a real clash is reported |
| Uniqueness.ClaimNode | pkg/config/validators.go:106-136 | a node's VMID and NICs likewise |
| Uniqueness.ValidateUniqueness | pkg/config/validators.go:96-139 | nil exactly for unique manifests, so the verdict is the same for every map order; an error names two places that really clash, the node met first in front |
| Uniqueness.UniqueMeans | pkg/config/validators.go:96-139 | unique is: VMIDs distinct, MACs other than empty and auto distinct over all NICs, and hosts distinct per network over all NICs |
| Uniqueness.HostPartIs | pkg/config/validators.go:130 | the host of an address is what stands before its first slash, or all of it |
| Uniqueness.UniqueGivesDistinctVMs | pkg/config/validators.go:112-115 | an accepted manifest gives every node a VM of its own |
| BootConfig.PatchKernelCmdline | pkg/kickstart/ubuntu_iso_builder.go:199-222 | overwriting the lines in place is patching line by line |
| BootConfig.MatchOf | pkg/kickstart/ubuntu_iso_builder.go:207-211 | a line of indent, verb, blanks and body matches with exactly those groups |
| BootConfig.MatchParts | pkg/kickstart/ubuntu_iso_builder.go:207-211 | and a line that matches is made up like that |
| BootConfig.PatchKeepsLines | pkg/kickstart/ubuntu_iso_builder.go:199-222 | the line count is kept, and each line is patched as in PatchLineMeans |
| BootConfig.PatchLineMeans | pkg/kickstart/ubuntu_iso_builder.go:207-236 | in words of characters alone: exactly the lines of indent, one of the three verbs, blanks and a body without autoinstall change, and get the arguments in front of the first --- between blanks, or at the end |
| BootConfig.InsertionPoint | pkg/kickstart/ubuntu_iso_builder.go:229-235 | the first separator preceded by a blank, or the end |
| BootConfig.InjectBeforeFirstSeparator | pkg/kickstart/ubuntu_iso_builder.go:226-236 | the arguments stand before the first separator, and taking them out gives the body back |
| BootConfig.PatchedHasAutoinstall | pkg/kickstart/ubuntu_iso_builder.go:214-218 | the patched body contains autoinstall exactly through the arguments or the old body |
| BootConfig.LineSettlesIff | pkg/kickstart/ubuntu_iso_builder.go:199-222 | for one line, exactly when patching twice is patching once |
| BootConfig.PatchIsIdempotentIff | pkg/kickstart/ubuntu_iso_builder.go:183-186 | for a whole config, exactly when patching twice is patching once |
| BootConfig.PatchAddsAgainExample | pkg/kickstart/ubuntu_iso_builder.go:183-186 | a config on which it is not |
| DiskSize.NormalizeSizeGiB | pkg/proxmox/vm.go:125-156 | the loop that looks for the last digit, and the three unit cases with 64-bit arithmetic |
| DiskSize.NormalizeKeepsSizeIff | pkg/proxmox/vm.go:125-156 | the denoted size is kept exactly unless the T product overflows, and a bare number results exactly for G, T in range, and divisible M in range |
| DiskSize.NormalizesTo | pkg/proxmox/vm.go:137-155 | the very text that comes out for each unit; what is not listed comes out as it went in |
| DiskSize.NormalizeIsIdempotent | pkg/proxmox/vm.go:125-156 | on every input, normalising twice is normalising once |
| DiskSize.NonSizeStaysIff | pkg/proxmox/vm.go:137-144 | text that is no size is left alone exactly unless a G unit follows a digit in it |
| DiskSize.NonSizeExample | pkg/proxmox/vm.go:143-144 | a text that is no size and is changed |
| DiskSize.OverflowExample | pkg/proxmox/vm.go:145-149 | a size in T that comes out as another size |
| DiskSize.UnitOfIff | pkg/proxmox/vm.go:141-150 | a tail counts as a unit exactly when, between blanks, it is the letter, the letter and b, or the letter and ib, in any case |
| Decimal.IntegerOfItoa | pkg/proxmox/vm.go:147-152 | parsing a printed integer gives it back |
| Decimal.SignsAndZeros | pkg/proxmox/vm.go:147-152 | leading zeros and a plus sign make no difference to a parsed number, a minus sign negates it, anything else is no number |
| Manifest.BeforeIff | pkg/workflow/multi_node.go:83 | the order of the sorted names: a proper prefix, or smaller at the first difference |

## Left out

- HTTP, JSON envelopes, TLS, task polling, SSH tunnels and multipart bodies: the server's calls succeed, are lost, or lose
  their answer; an error's text is not modelled beyond its cause and context.
- Rendering, ISO mastering, temp files and the removal of the local ISO: a renderer or builder call fails, or gives a result
  that is a function of its inputs; a build that succeeds is taken to return a non-empty path where that matters.
- The Proxmox server itself is not part of the repository; the model refuses to create an existing VM, to start a running
  one, to configure a missing one and to delete a running one; it accepts deleting an empty slot, and attaching a volume that
  is not on the storage, without which an apply that builds its ISO could not succeed.
- Cancellation in the middle of a remote call is a call that fails; a deadline is treated as a cancellation.
- The unsynchronised lazy allocation in `isoMu` by several goroutines: `Plan` has allocated the lock before any of them starts.
- `nodeNames` and its library sort: the sorted names are a parameter constrained by `SortedNames`.
- `waitForSSHUp` and `pickFinalizeIP`: the wait is one step that succeeds or fails, and only whether there is an address matters.
- `Verify`, whose result `Up` only prints, and `Down`, which makes the calls of `Rollback`.
- DiskSpec and NICSpec strings, form encoding and the shutdown flavour of `StopVM`.
- TraceWriter.Writer.Write: disk and buffer write errors are not modelled, nor sessions that overlap.
- Two edges of encoding/json: a missing input or output is the empty sequence, so an input that is empty without being nil,
  which Marshal refuses, has no counterpart; and raw JSON nested so deep (10,000 levels) that the record around it can be
  written but not decoded is not modelled.
- TraceWriter.RunSessions: JSON and SHA-256 enter only through the laws in `Lawful`, which include that SHA-256 has no collisions.
- TraceReplay.Replay: the executor is a function of the call number and the record, and the log text is left out.
- Placeholders.ExpandToken: environment, files, home directory, generated values, `ref` lookups and base64 are functions given
  by the caller; `expandGen` and `resolveRefPath` themselves are not modelled.
- Walker.Store.Walk: cyclic values, on which the walk does not return, are excluded by an acyclic numbering of the objects;
  arrays, unexported fields and slices that overlap in part are not modelled. Placeholder expansion, which reads the manifest
  it is rewriting, is not idempotent, so the theorem is about redaction-like functions.
- BootConfig.PatchIsIdempotentIff: arguments with a newline are excluded, since they would change the lines; they come from the
  builder's settable field `AutoinstallKernelArgs`, whose default has none.
- YAML decoding, schema generation, struct-tag checks, the other cross-field validators, the kind splitters, tags, profiles,
  licensing and the command line: little state, or library behaviour.
