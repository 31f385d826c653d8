# CakeSplitter: a verified model

CakeSplitter splits a file into hashed Slices described by a Manifest (together a Cake Package), and
rebuilds the file from them. The work runs under durable state that has to survive a crash at any
instant. This Dafny project models the parts where that is hard and proves what they are for.
`dafny verify dfyconfig.toml` checks all of it.

| file | part |
|---|---|
| `SliceArithmetic.dfy`, `SliceNames.dfy`, `Manifest.dfy` | the closed-form plan, the padded names, the two Manifest validators (Rust and browser), the writer of the Manifest and a reader of its fields |
| `Json.dfy`, `Encoding.dfy` | the text of a JSON document, pretty-printed and read back, and its UTF-8 bytes |
| `Disk.dfy`, `Package.dfy` | one folder and one durable checkpoint, changed in separate atomic steps; what a task's package consists of |
| `ResumableSplit.dfy`, `ResumableMerge.dfy` | the resumable Split and Merge as crash-step protocols, with their checkpoint reducers |
| `OneShot.dfy` | the Split and Merge without checkpoints, and Split followed by Merge as the identity |
| `Sha256.dfy`, `Sha256Example.dfy` | the browser's streaming SHA-256 against the one-shot function of FIPS 180-4, and that function against a known digest |
| `BatchGraph.dfy`, `BatchRun.dfy`, `StateFile.dfy` | the Batch Job graph, the run loop over runs and resumes, and the compare-and-swap on the run-state file |
| `TaskModel.dfy`, `Scheduler.dfy`, `Fairness.dfy`, `TaskTable.dfy`, `TaskRecovery.dfy` | the desktop task table, the ageing scheduler, the overtaking bound, and restart recovery |
| `PathTree.dfy`, `Admission.dfy` | the path comparison and the admission check that keeps live tasks apart |
| `WebTaskStore.dfy` | the browser task store and its generation fence |
| `FiniteSets.dfy`, `Wrappers.dfy` | shared facts and result types |

How things are modelled:

- Code that changes state is imperative here too: classes with the source's fields, methods with its
  branches and loops. A crash is a return at any point between two steps (`Machine.Stops`), a
  short read is any nonempty prefix, and other threads or processes act wherever no lock excludes them.
  A checkpoint write may fail (`Machine.Persist`), which only sets the cancellation token; the token is
  tested where the original tests it.
- A hash is any function from byte strings to 64 lower-case hexadecimal digits. Only
  `AcceptedCheckpointMeansSourceBytes` needs that it does not collide on the strings compared.
- The writer of the Manifest is modelled byte by byte. `ReadManifest` reads such a file back: UTF-8, then
  JSON texts by a reader that knows nothing of the writer, then each field by its name. The original's own
  JSON library is a parameter, and all that is asked of it is that it answers as `ReadManifest` on the file
  in question (`Faithful`). The UUID and time-stamp parsers are parameters that accept only texts without
  escapes.
- How the execution of a Batch operation ends, whether its preflight passes, whether the store can write
  and whether other threads act are parameters, so that every answer is tied to them; `disturbed` and
  `alone` say whether failures, cancellations and other threads may interfere at all.
- Task identifiers and time stamps of the desktop store are numbers; the original compares them as
  texts of one fixed shape, in the same order.

## What the proofs found

These are properties one might expect that the code does not have; each has its exact condition.

- A Split can publish a Manifest over 16 MiB, which `load_manifest` then refuses
  (`UnreadablePublication`). The round trip, and the resume of a published Split, hold exactly when
  the Manifest is readable (`RoundTrip`, `Split`, `PublishedManifestRecovers`).
- The resumable Split learns only after the last Slice that its Slice names are too long; the
  one-shot Split checks them first (`BuiltManifestAccepted`, `CheckAdmissible`).
- A crash after a staging file is created or removed and before that is recorded leaves a state that
  no later call gets out of; these are the only such windows of Split, and Merge has only the first
  (`Resumes` in `Split`, `Merge`, `WindowsAreReachable`).
- A failed checkpoint write is not reported to the Split or Merge; it sets the token, and the call goes
  on to the next test of it. So it acts like a crash at that point, with two exceptions. When the
  record of the Manifest's staging file fails, the whole Manifest is still written there, and no later
  call gets out of that state (`FailedRecordLeavesTheManifest`). After the last event the call
  succeeds: it leaves `Published` exactly when every checkpoint write succeeded, and otherwise the
  finished output unrecorded, which the next resume finds (`Split`, `Merge`, `FailureIsFinal`).
- A resume keeps the stored Completed operations of a Batch Job when every other operation passes its
  preflight. When one does not, it turns all Completed ones into Failed, because every plan entry has
  an `error` field, if only a null one (`Execute`, `AnyResumes`, `RejectPlan`).
- `--retry-failed` runs failures again that are recorded as not retryable: the flag decides only whether a
  resume resets their status first, and the loop asks for the option alone (`PrepareResume`, `VisitOperation`).
- Ageing bounds how often a task is overtaken exactly as long as some row stays at or above every
  queue order that has overtaken it: orders above the whole table are given out again
  (`OvertakingIsBounded`, `UnkeptOrderOvertakesAgain`, `RemovalDefeatsTheBound`). Removals that do not
  lower the highest order into the task's window are harmless (`WindowKeepsSpent`).
- The revision of the run-state file saturates, and it is raised in memory before the file is
  replaced; the compare-and-swap relies on callers that drop their copy after an error, as all do
  (`SaturatedRevisionLosesAnUpdate`, `KeptCopyPassesTheComparison`). Only a file made by hand comes
  near the limit: a run starts at revision 0 and stops at 10,000 events.
- Admission compares the files a task reads only up to its source or Manifest: a Merge may write into
  the package folder that another task is inspecting, under the name of a Slice
  (`MergeClashesWithReader`). Where a lack of space meets a merely informational overlap it is reported
  as a conflict (`Preflight`).
- A browser save that fails between opening a new file and closing it leaves an empty file
  (`CloseWrite`). From then on the task list cannot be read and nothing is saved, in every
  interleaving, until that task is discarded or all are cleared (`EmptyFileBlocks`, `RemoveEntry`,
  `FinishClear`).

## Model

| member | source | states |
|---|---|---|
| SliceArithmetic.CountIsExactCover | crates/cakesplitter-format/src/lib.rs:221-227 | the Slice count is the only number of target-sized ranges that covers the source with none of them empty |
| SliceArithmetic.PlanWithinSource | crates/cakesplitter-core/src/resumable.rs:286-317 | every planned range is nonempty and inside the source, only the last may be short, and each ends where the next begins |
| SliceArithmetic.PlannedRangeIsClosedForm | crates/cakesplitter-core/src/resumable.rs:286-317 | the range function answers the closed form exactly for the indexes of a legal plan; its overflow and underflow branches are never taken |
| SliceArithmetic.RangesPartitionSource | crates/cakesplitter-core/src/resumable.rs:286-317 | every source position lies in exactly one planned range |
| SliceArithmetic.SliceSizeForCountIsExact | crates/cakesplitter-cli/src/planning.rs:399-425 | an answer exists exactly when some uniform Slice size yields the wanted count, and it is the smallest such size |
| SliceNames.SliceFilenamesInjective | crates/cakesplitter-format/src/lib.rs:229-235 | equal Slice names of one original have equal indexes, whatever the widths |
| SliceNames.SliceNameExactly | crates/cakesplitter-format/src/lib.rs:225-235 | the middle of a Slice name is the one digit string that denotes the index and has the least length, at least three, with which every index of the package can be written |
| SliceNames.ReservedExactly | crates/cakesplitter-format/src/lib.rs:264-290 | a name is reserved exactly when, in any mix of cases and with any extension, it names one of five devices or a port numbered one to nine |
| SliceNames.PortableExactly | crates/cakesplitter-format/src/lib.rs:237-262 | the portable names, position by position: at most 200 bytes, none of the nine forbidden and no control characters, none of the twenty-five white-space characters at either end, no full stop at the end, and no device |
| SliceNames.SliceFilenamesSortInIndexOrder | crates/cakesplitter-format/src/lib.rs:229-235 | within one package the padded names sort in Slice order |
| SliceNames.SliceIsNotManifest | crates/cakesplitter-format/src/lib.rs:205-207 | a Slice name is never the Manifest name |
| SliceNames.DerivedNamesPortable | crates/cakesplitter-format/src/lib.rs:237-262 | for a portable original the derived names are portable exactly when they fit in 200 bytes |
| Manifest.Validate | crates/cakesplitter-format/src/lib.rs:109-203 | accepts exactly the Manifests with an accepted header, the limits written out as numbers, whose Slice table is the plan; every error is the report of the first header check that fails, or the header passes and the row it names is the first off the plan, wrong in the named field |
| Manifest.ValidateHeader | crates/cakesplitter-format/src/lib.rs:109-142 | an error is the report of the first of the eleven checks before the table that fails |
| Manifest.ValidateTable | crates/cakesplitter-format/src/lib.rs:137-202 | the running loop over offsets and seen names accepts exactly the planned table |
| Manifest.CheckRow | crates/cakesplitter-format/src/lib.rs:143-190 | one row is accepted exactly when it equals the planned row and repeats neither index nor name; an error names a field that is wrong |
| Manifest.HashShapeExactly | crates/cakesplitter-format/src/lib.rs:318-327 | a hash is well formed exactly when it is 64 characters out of the sixteen lower-case hexadecimal digits |
| Manifest.ValidateTableInBrowser | packages/shared-types/src/index.ts:567-634 | the browser check accepts exactly the same tables |
| Manifest.CeilingCountAgrees | packages/shared-types/src/index.ts:442-446 | the ceiling used in the browser is the Rust count |
| Manifest.BrowserPlanIsThePlan | packages/shared-types/src/index.ts:464-489 | the browser plan exists exactly when its names are portable and then is the closed-form plan |
| Manifest.LoadManifest | crates/cakesplitter-core/src/lib.rs:483-498 | returns exactly an accepted Manifest of at most 16,777,216 bytes that the reader understands |
| Json.DocumentReadsBack | crates/cakesplitter-core/src/lib.rs:438-446 | a reader of JSON texts, written apart from the writer, finds every document in its pretty-printed text, whatever its nesting |
| Encoding.Utf8RoundTrip | crates/cakesplitter-core/src/lib.rs:438-446 | the bytes of every text decode to it |
| Manifest.EntryReadsBack | crates/cakesplitter-format/src/lib.rs:40-46 | a Slice entry is found by the names of its fields in what is written for it |
| Manifest.WrittenIsRead | crates/cakesplitter-format/src/lib.rs:209-219 | reading each field by its name, from the bytes of the published file, gives every field of the Manifest and of every row that was written |
| Manifest.AcceptedIsPlain | crates/cakesplitter-format/src/lib.rs:109-203 | an accepted Manifest has no text that needs an escape, so it is read back from its file |
| Manifest.EncodedEntrySize | crates/cakesplitter-core/src/lib.rs:438-446 | the exact encoded size of one Slice entry, as the length of what is written |
| Manifest.ModerateManifestsAreReadable | crates/cakesplitter-core/src/lib.rs:483-498 | every accepted Manifest of at most the stated number of Slices fits the limit |
| Manifest.LargeManifestsAreNot | crates/cakesplitter-core/src/lib.rs:483-498 | a Manifest with many long-named Slices exceeds the limit |
| Package.BuiltManifestAccepted | crates/cakesplitter-core/src/lib.rs:422-436 | the Manifest a Split builds passes validation exactly when its Slice names fit and its creation time is well formed |
| Package.WrittenSaysThePlan | crates/cakesplitter-core/src/lib.rs:422-446 | the reader finds in the bytes a Split publishes the identity of package and source and, for each row, the name, place, length and hash of its part of the source, stated without the planning functions |
| Package.WrittenIsReadable | crates/cakesplitter-core/src/lib.rs:483-498 | those bytes load exactly when there are at most 16 MiB of them |
| Package.UnreadablePublication | crates/cakesplitter-core/src/lib.rs:483-498 | a concrete legal Split, 50,000 Slices of a file with a 188-byte name, whose published Manifest cannot be loaded |
| Package.NamesAreDistinct | crates/cakesplitter-core/src/resumable.rs:1392-1396 | all final and staging names of one task are distinct |
| Package.SlicesJoinToPrefix | crates/cakesplitter-core/src/resumable.rs:574-660 | the first Slices joined are exactly the covered prefix of the source; all of them are the source, also when it is empty |
| Package.InspectPackage | crates/cakesplitter-core/src/lib.rs:500-550 | fails exactly beyond 65,536 entries, 51,024 candidate Slices, 1,024 unexpected Slices or a name of 200 bytes; otherwise it reports no missing, corrupted or unexpected Slice exactly when every planned Slice verifies and no other Slice file is present |
| Package.IsSliceNameExactly | crates/cakesplitter-core/src/package_binding.rs:435-450 | a file is a Slice candidate exactly when its name ends in .slice |
| Package.CandidatesAreNamedOrUnexpected | crates/cakesplitter-core/src/package_binding.rs:497-539 | for a Manifest of legal size the limit on candidate Slices never decides: a folder beyond it has too many unexpected ones already |
| Package.VerifyingFolderIsWithinLimits | crates/cakesplitter-core/src/package_binding.rs:462-539 | a folder that holds its package meets none of the limits |
| Disk.Machine.CreateNew | crates/cakesplitter-core/src/lib.rs:692-705 | a new empty file appears under a free name; a taken name is a collision and nothing changes |
| Disk.Machine.RemoveOwned | crates/cakesplitter-core/src/resumable.rs:1367-1377 | only a file with the recorded identity is removed |
| Disk.Machine.FinalizeStaged | crates/cakesplitter-core/src/lib.rs:761-810 | renames without replacing exactly when identity, length and hash match and the final name is free |
| Disk.Machine.Persist | crates/cakesplitter-desktop-runtime/src/engine.rs:1779-1783 | the checkpoint callback: it stores the checkpoint, or changes nothing durable and sets the token |
| Disk.Machine.CheckCancelled | crates/cakesplitter-core/src/lib.rs:989-991 | stops exactly when the token is set; only the user or a failed checkpoint write sets it |
| ResumableSplit.PhaseIsObservable | crates/cakesplitter-desktop-runtime/src/engine.rs:1873-1933 | the protocol phase is a function of the folder and the stored checkpoint |
| ResumableSplit.BaselineStep | crates/cakesplitter-desktop-runtime/src/engine.rs:1873-1933 | recording the baseline enters the first idle phase |
| ResumableSplit.CreateStep | crates/cakesplitter-core/src/resumable.rs:580-597 | creating a staging file before it is recorded enters the first fail-closed window |
| ResumableSplit.RecordPartialStep | crates/cakesplitter-desktop-runtime/src/engine.rs:1873-1933 | recording it leaves the window |
| ResumableSplit.WriteStep | crates/cakesplitter-core/src/resumable.rs:600-624 | a write keeps the staging file a prefix of its content |
| ResumableSplit.UnrecordedWriteStep | crates/cakesplitter-core/src/resumable.rs:695-723 | the Manifest's staging file may be filled without having been recorded |
| ResumableSplit.RenameStep | crates/cakesplitter-core/src/resumable.rs:633-646 | the rename of a complete staging file is a step of the protocol |
| ResumableSplit.RecordSliceStep | crates/cakesplitter-desktop-runtime/src/engine.rs:1873-1933 | recording a renamed Slice extends the completed prefix by one |
| ResumableSplit.RecordManifestStep | crates/cakesplitter-desktop-runtime/src/engine.rs:1873-1933 | recording the renamed Manifest ends the protocol |
| ResumableSplit.RemoveStep | crates/cakesplitter-core/src/resumable.rs:383-390 | removing a recorded staging file enters the second fail-closed window |
| ResumableSplit.RecordClearedStep | crates/cakesplitter-desktop-runtime/src/engine.rs:1873-1933 | recording the removal leaves it |
| ResumableSplit.CheckLegal | crates/cakesplitter-core/src/resumable.rs:329-360 | refuses exactly the tasks that are not legal, and the refusal names something that is wrong |
| ResumableSplit.StartFresh | crates/cakesplitter-core/src/resumable.rs:550-568 | a fresh start fails exactly when a name it checks is taken, and then changes nothing |
| ResumableSplit.ClearPartial | crates/cakesplitter-core/src/resumable.rs:383-390 | removes the recorded staging file and records that; a failed record leaves the second window |
| ResumableSplit.ValidateCompleted | crates/cakesplitter-core/src/resumable.rs:1214-1300 | accepts exactly the checkpoints whose files have the recorded identity, size and hash at the planned offsets, and returns the hash of those files joined |
| ResumableSplit.ValidateRecoveredManifest | crates/cakesplitter-core/src/resumable.rs:1167-1212 | whatever is in the folder, accepts exactly the one Manifest that the task and its checkpoint determine, every field of it, in a folder that holds its package |
| ResumableSplit.PublishedManifestRecovers | crates/cakesplitter-core/src/resumable.rs:495-529 | the Manifest of a published task is accepted on resume exactly when it is readable and the folder is clean |
| ResumableSplit.WriteStaging | crates/cakesplitter-core/src/resumable.rs:600-624 | fills the staging file whatever the sizes of the reads; after a failed record a Slice is left empty, and the Manifest is written all the same |
| ResumableSplit.StageOutput | crates/cakesplitter-core/src/resumable.rs:574-660 | one output from creation to rename: wherever it stops, cancelled or with its record failed, the state is a phase, and run through it places exactly the given content |
| ResumableSplit.Reconcile | crates/cakesplitter-core/src/resumable.rs:383-529 | brings every phase to a resting one or fails closed, and answers exactly as the classification of phases says; with the token set it ends where a crash would |
| ResumableSplit.WriteSlice | crates/cakesplitter-core/src/resumable.rs:574-660 | one turn of the Slice loop stages, renames and records the next planned Slice |
| ResumableSplit.WriteSlices | crates/cakesplitter-core/src/resumable.rs:572-669 | writes the remaining Slices in order; undisturbed it fails only on a staging file that was never recorded, and then changes nothing |
| ResumableSplit.PublishManifest | crates/cakesplitter-core/src/resumable.rs:671-757 | publishes exactly when the built Manifest validates, also when the last record fails, and what it publishes is the content that Package.WrittenSaysThePlan reads |
| ResumableSplit.Split | crates/cakesplitter-core/src/resumable.rs:319-757 | from every reachable state, and however it is stopped, cancelled or cut off from its checkpoint, the state stays reachable and no foreign file is touched; a call that is neither stopped nor cancelled succeeds exactly from the crash points outside the two windows, under the stated conditions; after success the reader finds in the published file the plan of the source, row by row; success leaves Published exactly when every checkpoint write succeeded and otherwise the Manifest in place unrecorded; after a failed write nothing is recorded and at most the Manifest's staging file still changes |
| ResumableSplit.ReachableStatesAreSafe | crates/cakesplitter-core/src/resumable.rs:367-757 | in every reachable state the completed Slices are the planned prefix with exactly the source bytes, and a Manifest in place means a complete, accepted package that joins to the source |
| ResumableSplit.AnyRun | crates/cakesplitter-core/src/resumable.rs:319-757 | any number of calls from nothing, disturbed anywhere or run to their end, stays safe; after a success the Manifest stays in place and says the plan of the source |
| ResumableSplit.PublishedContentIsUnique | crates/cakesplitter-core/src/resumable.rs:709-757 | the published bytes do not depend on where earlier calls stopped |
| ResumableSplit.WindowsAreReachable | crates/cakesplitter-core/src/resumable.rs:383-390 | both windows are one crash away from a healthy state and no later call gets out of them |
| ResumableSplit.FailedRecordLeavesTheManifest | crates/cakesplitter-core/src/resumable.rs:693-737 | a call whose record of the Manifest's staging file fails leaves the whole Manifest there, a reachable state that no later call gets out of |
| ResumableSplit.AcceptedCheckpointMeansSourceBytes | crates/cakesplitter-core/src/resumable.rs:1214-1300 | without hash collisions among the compared ranges, an accepted checkpoint means that the files join to exactly the source prefix, whoever wrote them |
| ResumableMerge.PhaseIsObservable | crates/cakesplitter-desktop-runtime/src/engine.rs:1935-1979 | the protocol phase is a function of the folder and the stored checkpoint |
| ResumableMerge.JoinedLength | crates/cakesplitter-core/src/resumable.rs:990-1063 | the first Slices joined are as long as the planned offset says; all of them as long as the original |
| ResumableMerge.VerifyPartialPrefix | crates/cakesplitter-core/src/resumable.rs:1302-1338 | accepts exactly when each completed range of the staging file has the hash of its Slice |
| ResumableMerge.JoinedRowsVerify | crates/cakesplitter-core/src/resumable.rs:1302-1338 | a staging file that starts with the joined Slices passes that check |
| ResumableMerge.OpenPackage | crates/cakesplitter-core/src/resumable.rs:803-850 | succeeds exactly on a readable, accepted Manifest whose package verifies |
| ResumableMerge.RecoverPublished | crates/cakesplitter-core/src/resumable.rs:852-912 | an existing output is accepted exactly when the checkpoint and the bytes say that it is this task's finished work; without a checkpoint it is a collision |
| ResumableMerge.RenamedIsOwnOutput | crates/cakesplitter-core/src/resumable.rs:852-912 | an output whose rename was not recorded is accepted in this way |
| ResumableMerge.OpenPartial | crates/cakesplitter-core/src/resumable.rs:916-986 | starts a staging file or cuts a recorded one back to its checkpoint; a staging name taken without a checkpoint is a collision and nothing changes |
| ResumableMerge.CopySlice | crates/cakesplitter-core/src/resumable.rs:990-1063 | appends one Slice in reads of any size; a set token cuts the file back to where the Slice began |
| ResumableMerge.CopySlices | crates/cakesplitter-core/src/resumable.rs:990-1063 | copies and records every remaining Slice; wherever it stops the recorded bytes are the recorded Slices |
| ResumableMerge.PublishOutput | crates/cakesplitter-core/src/resumable.rs:1065-1103 | publishes exactly when the joined bytes have the hash and size of the original, also when the last record fails |
| ResumableMerge.Merge | crates/cakesplitter-core/src/resumable.rs:803-1103 | from every reachable state, and however it is stopped, cancelled or cut off from its checkpoint, the state stays reachable; a call that is neither stopped nor cancelled succeeds exactly on a usable, consistent package outside the one window; the publication is recorded exactly when every checkpoint write succeeded; a fresh call that finds a name taken changes nothing |
| ResumableMerge.ReachableStatesAreSafe | crates/cakesplitter-core/src/resumable.rs:852-1103 | in every reachable state the recorded bytes are exactly the recorded Slices and the output is absent or the whole |
| ResumableMerge.AnyRun | crates/cakesplitter-core/src/resumable.rs:803-1103 | any number of calls from nothing, disturbed anywhere, stays safe; after a success the output stays in place |
| OneShot.CheckAdmissible | crates/cakesplitter-core/src/lib.rs:287-334 | refuses exactly what cannot be split or would collide, and the refusal names something that is wrong |
| OneShot.StageSlices | crates/cakesplitter-core/src/lib.rs:343-416 | reads the source once and stages exactly the planned Slices |
| OneShot.PlaceAll | crates/cakesplitter-core/src/lib.rs:468-474 | renames every staged output into place |
| OneShot.Split | crates/cakesplitter-core/src/lib.rs:279-481 | succeeds exactly on an admissible task with nothing in the way, and then the folder holds all outputs with their exact bytes and the reader finds the plan of the source in the Manifest; otherwise it is unchanged |
| OneShot.Merge | crates/cakesplitter-core/src/lib.rs:567-665 | succeeds exactly on a package that verifies, is consistent and has free output names, and then the output is the Slices joined |
| OneShot.SplitThenMergeIsIdentity | crates/cakesplitter-core/src/lib.rs:279-481 | merging what a Split published gives the source back, for every package in any clean folder |
| OneShot.OwnFolderIsClean | crates/cakesplitter-core/src/lib.rs:500-550 | a folder that holds nothing but the outputs of a Split has no unexpected Slice |
| OneShot.ModerateTasksAreReadable | crates/cakesplitter-core/src/lib.rs:483-498 | every admissible task of at most 41,000 Slices has a readable Manifest, so it round-trips |
| OneShot.RoundTrip | crates/cakesplitter-core/src/lib.rs:567-665 | Split into an empty folder, then Merge, returns every byte of the source exactly for admissible tasks with a readable Manifest |
| Sha256.RotationsAreRotations | packages/shared-types/src/index.ts:887-889 | the shift-and-or rotation is the rotation of FIPS 180-4 for every amount the hash uses |
| Sha256.PaddingIsMinimal | packages/shared-types/src/index.ts:815-835 | the padding fills whole blocks with the fewest zeros that do (FIPS 180-4, section 5.1.1) |
| Sha256.PaddingIsThePad | packages/shared-types/src/index.ts:815-835 | the padding built from two 32-bit halves of the length is the padding of section 5.1.1 for every length below 2^53 bytes |
| Sha256.AbsorbPartial | packages/shared-types/src/index.ts:792-809 | bytes that do not fill a block only lengthen the pending part |
| Sha256.AbsorbFull | packages/shared-types/src/index.ts:792-809 | bytes that fill the block advance the hash by one block |
| Sha256.IncrementalSha256.constructor | packages/shared-types/src/index.ts:775-790 | a new hasher stands for the empty message |
| Sha256.IncrementalSha256.ExpandSchedule | packages/shared-types/src/index.ts:838-849 | the in-place word buffer becomes the message schedule of section 6.2.2 |
| Sha256.IncrementalSha256.RunRounds | packages/shared-types/src/index.ts:851-875 | the 64 rounds over the word buffer are those of section 6.2.2 |
| Sha256.IncrementalSha256.ProcessBlock | packages/shared-types/src/index.ts:837-884 | the state array becomes the compression of its old value with the block |
| Sha256.IncrementalSha256.Update | packages/shared-types/src/index.ts:792-809 | the message grows by exactly the given bytes, cut into blocks in any way; it is refused once the digest was taken |
| Sha256.IncrementalSha256.DigestBytes | packages/shared-types/src/index.ts:815-835 | returns the one-shot hash of everything absorbed, on the first call and on every later one |
| Sha256.HashChunks | packages/shared-types/src/index.ts:775-885 | for every way of cutting a message into chunks the digest is the hash of the whole, twice |
| Sha256Example.HashOfAbc | packages/shared-types/test/manifest.test.ts:99-112 | the digest of abc is the one the original's test promises, computed through every constant, rotation and byte order of the hash (also the one-block example of FIPS 180-2, appendix B.1) |
| BatchGraph.CheckIds | crates/cakesplitter-cli/src/batch.rs:725-741 | finds exactly the repeated identifiers and the excess edges |
| BatchGraph.CheckReferences | crates/cakesplitter-cli/src/batch.rs:742-764 | accepts exactly operations that name known, distinct, other operations |
| BatchGraph.ValidateGraph | crates/cakesplitter-cli/src/batch.rs:724-766 | accepts exactly the valid graphs |
| BatchGraph.BuildGraph | crates/cakesplitter-cli/src/batch.rs:769-788 | the counts are the numbers of dependencies and the lists hold exactly the dependents, in increasing order |
| BatchGraph.ReleaseDependents | crates/cakesplitter-cli/src/batch.rs:792-801 | placing one operation leaves exact counts and a ready list that is exactly the available operations, sorted |
| BatchGraph.GraphOrder | crates/cakesplitter-cli/src/batch.rs:768-810 | returns a permutation with each dependency before its dependents, the lexicographically least one, and errs exactly when the graph has a cycle |
| BatchGraph.GreedyIsLeast | crates/cakesplitter-cli/src/batch.rs:768-810 | no topological order is lexicographically smaller than the greedy one |
| BatchGraph.TopologicalHasNoCycle | crates/cakesplitter-cli/src/batch.rs:768-810 | a topological order excludes every cycle |
| BatchGraph.StuckMeansCycle | crates/cakesplitter-cli/src/batch.rs:803-808 | when nothing is ready and something is left, there is a cycle, and it is returned |
| BatchRun.CompletingKeepsSound | crates/cakesplitter-cli/src/batch.rs:1280-1296 | completing an operation below Completed dependencies keeps Completed closed under dependencies |
| BatchRun.BlockedIffAncestorFailed | crates/cakesplitter-cli/src/batch.rs:1206-1249 | once every operation is settled, one is Blocked exactly when a proper ancestor is Failed |
| BatchRun.BatchRunner.Attempt | crates/cakesplitter-cli/src/batch.rs:1260-1329 | an attempt is spent on one operation whose dependencies are all Completed; its execution starts only after the stored state says Running, and it is stored Completed exactly when it succeeded with evidence, Cancelled exactly when it was cancelled and Failed exactly when it failed; nothing else changes |
| BatchRun.BatchRunner.RunOperation | crates/cakesplitter-cli/src/batch.rs:1266-1278 | an execution begins only under a stored Running mark, and is added to the account of started executions |
| BatchRun.BatchRunner.VisitOperation | crates/cakesplitter-cli/src/batch.rs:1206-1329 | one turn keeps Completed and changes only its operation: Blocked below an unfinished dependency, left alone when a failure is not retried, and otherwise attempted once and recorded as its execution ended; it ends the pass with an error only when disturbed, on missing evidence or at eight attempts |
| BatchRun.BatchRunner.RunLoop | crates/cakesplitter-cli/src/batch.rs:1200-1329 | every operation the pass has dealt with is Completed as before, Blocked below an unfinished dependency, a failure not retried, or recorded as its execution ended; an uncut pass deals with all, it starts exactly the operations whose attempts it raises, once each and in the execution order, and Completed is absorbing, in memory and, wherever the pass is cut off, in the stored state |
| BatchRun.BatchRunner.Conclude | crates/cakesplitter-cli/src/batch.rs:1331-1366 | unstarted operations become Blocked after a failure under the stop policy and Cancelled after a cancellation; the terminal state is Completed exactly when every operation is, and Cancelled exactly when the pass was |
| BatchRun.BatchRunner.RunAndConclude | crates/cakesplitter-cli/src/batch.rs:1200-1408 | the pass and its end: each operation is as it was or attempted once more and recorded as its execution ended, and when every execution succeeds the run is stored as Completed |
| BatchRun.AttemptedNext | crates/cakesplitter-cli/src/batch.rs:1200-1329 | visiting one more operation of the order adds to the started ones exactly that operation, if its attempts were raised |
| BatchRun.CompletedRunSucceeded | crates/cakesplitter-cli/src/batch.rs:1331-1366 | a run whose operations all end Completed started none that did not succeed |
| BatchRun.BatchRunner.PlanJob | crates/cakesplitter-cli/src/batch.rs:892-991 | the plan is ready exactly when every operation that is not Completed passes its own preflight; an operation is planned as blocked exactly when some dependency is blocked or not ready |
| BatchRun.ReadyIffAllPass | crates/cakesplitter-cli/src/batch.rs:892-991 | no operation is blocked or unready exactly when every one that is not Completed passes, whatever the graph |
| BatchRun.BatchRunner.RejectPlan | crates/cakesplitter-cli/src/batch.rs:1151-1178 | a failed preflight leaves blocked operations Blocked and every other one Failed, Completed ones included |
| BatchRun.BatchRunner.PrepareResume | crates/cakesplitter-cli/src/batch.rs:1690-1752 | a resume keeps the attempt counts and resets exactly the operations that were Running or Interrupted, the retryable failures when failures are to be retried, and the cancelled ones when those are |
| BatchRun.BatchRunner.Execute | crates/cakesplitter-cli/src/batch.rs:1079-1408 | one run or resume: an operation is made Completed only by a successful execution, a stored Completed run means that every operation it executed succeeded, and an undisturbed run whose executions all succeed ends Completed; it starts exactly the operations whose attempts it raises, in the execution order; the stored Completed operations stay Completed when every other stored operation passes its preflight; when one does not, an undisturbed call leaves none Completed, and a disturbed one either none or all of them; after an uncancelled continue-independent pass an operation is Blocked exactly when a proper ancestor is Failed |
| BatchRun.BatchRunner.AnyRuns | crates/cakesplitter-cli/src/batch.rs:1079-1408 | over a run and any number of resumes, disturbed anywhere, no operation is executed more than eight times, every execution comes after one of each dependency, Completed operations are closed under dependencies, and a stored Completed means all are |
| BatchRun.BatchRunner.AnyResumes | crates/cakesplitter-cli/src/batch.rs:1079-1408 | over any number of resumes in which every operation not yet Completed passes its preflight, no stored Completed is ever lost; and whatever the preflights, what ends Completed was so before or succeeded in one of them |
| StateFile.RevisionsGrow | crates/cakesplitter-cli/src/batch.rs:1591-1639 | revisions never fall along the history and grow strictly below the limit |
| StateFile.RevisionsCount | crates/cakesplitter-cli/src/batch.rs:1619-1619 | the revision after k commits is the first one plus k, up to the largest 64-bit number, where it stays |
| StateFile.FreshHistoryLosesNothing | crates/cakesplitter-cli/src/batch.rs:1591-1639 | in a history that begins at revision 0, with fewer commits than that number, the k-th commit was made by a writer that had read the one before it; no guard on revisions is needed |
| StateFile.OneCommitPerRevision | crates/cakesplitter-cli/src/batch.rs:1591-1639 | every commit was made by a writer that had read the commit before it, so at most one writer of a revision commits |
| StateFile.SameRevisionIsLatest | crates/cakesplitter-cli/src/batch.rs:1611-1618 | a copy with the stored revision is a copy of the stored state |
| StateFile.RunStateFile.PersistStep | crates/cakesplitter-cli/src/batch.rs:1591-1639 | each step of the call, failing or not: only the replacement extends the history, by the writer's copy |
| StateFile.RunStateFile.Replace | crates/cakesplitter-cli/src/batch.rs:1619-1638 | the replacement keeps the history linear |
| StateFile.RunStateFile.PersistState | crates/cakesplitter-cli/src/batch.rs:1591-1639 | undisturbed, the call stores the copy exactly when its revision is the stored one, with the revision raised by exactly one below the limit |
| StateFile.RunStateFile.AnyInterleaving | crates/cakesplitter-cli/src/batch.rs:1591-1639 | in every interleaving of processes, failures and crashes the history stays linear and only grows, and one that began at revision 0 loses no update |
| StateFile.SaturatedRevisionLosesAnUpdate | crates/cakesplitter-cli/src/batch.rs:1619-1619 | at the largest revision, which only a file made by hand can hold, two writers that read the same state both commit |
| StateFile.KeptCopyPassesTheComparison | crates/cakesplitter-cli/src/batch.rs:1619-1638 | a copy kept after a failed replacement would pass the comparison against a state it never read |
| TaskModel.CompletedOnlyFromRunning | crates/cakesplitter-desktop-runtime/src/model.rs:267-303 | whatever its history, a Completed task was Running just before and stays Completed |
| TaskModel.TransitionsByTarget | crates/cakesplitter-desktop-runtime/src/model.rs:267-303 | the allowed transitions, listed by the status they lead to |
| TaskModel.ReachableStatuses | crates/cakesplitter-desktop-runtime/src/model.rs:267-303 | over any number of transitions one status can follow another exactly when they are equal, or the first is not Completed and the second not Planned |
| TaskModel.FirstIsExact | crates/cakesplitter-desktop-runtime/src/store.rs:1227-1238 | a selection with a limit has exactly that many rows, or all, and every selected row comes before every one left out |
| Scheduler.SortByKey | crates/cakesplitter-desktop-runtime/src/store.rs:220-226 | the ids in key order, each once |
| Scheduler.SortedIsUnique | crates/cakesplitter-desktop-runtime/src/store.rs:220-226 | there is only one such sequence |
| Scheduler.KeyLessIsRunsBefore | crates/cakesplitter-desktop-runtime/src/store.rs:220-226 | which of two queued tasks runs first, without the ageing function: one reaches rank High, Normal or Low no later than the other, a task reaching rank r once eight orders have passed for each step down to it, and equals go by order |
| Scheduler.NewestRunsFirst | crates/cakesplitter-desktop-runtime/src/store.rs:209-227 | the newest queued task runs before an older one exactly when its order is within eight for each rank between them |
| Scheduler.NextRunsBeforeAll | crates/cakesplitter-desktop-runtime/src/store.rs:209-227 | the task chosen runs before all others, and before an older one only within eight orders for each rank between them |
| Scheduler.QueuedInSchedulerOrder | crates/cakesplitter-desktop-runtime/src/store.rs:229-250 | returns exactly the queued tasks, each before the next by the rule of Scheduler.KeyLessIsRunsBefore |
| Scheduler.NextScheduledTask | crates/cakesplitter-desktop-runtime/src/store.rs:209-227 | answers some task exactly when one is queued, and then one that runs before every other queued task by that rule |
| Scheduler.AgeingKeepsPeers | crates/cakesplitter-desktop-runtime/src/store.rs:220-226 | ageing never reorders two tasks of one priority |
| Scheduler.PeersRunInQueueOrder | crates/cakesplitter-desktop-runtime/src/store.rs:229-250 | in every schedule the tasks of one priority stand in queue order |
| Scheduler.SwapMovesNeighbours | crates/cakesplitter-desktop-runtime/src/store.rs:267-325 | exchanging the orders of two neighbours swaps them in their peer sequence, moves no other peer of any priority and keeps orders unique |
| Fairness.ChosenWithinWindow | crates/cakesplitter-desktop-runtime/src/store.rs:209-227 | the scheduler picks a later task only within eight orders for each rank between the waiting task and it |
| Fairness.StepKeepsFair | crates/cakesplitter-desktop-runtime/src/store.rs:209-227 | every step that leaves some row at or above each spent order keeps the orders that have overtaken a task apart from all that still can |
| Fairness.RunStaysFair | crates/cakesplitter-desktop-runtime/src/store.rs:209-227 | along such a run no order overtakes the task twice, so the spent orders count the overtakings |
| Fairness.OvertakingIsBounded | crates/cakesplitter-desktop-runtime/src/store.rs:209-227 | a waiting task is overtaken at most 0, 7 or 15 times by its priority, in every run whose steps leave some row at or above each order that has already overtaken it |
| Fairness.OvertakingByPriorityIsBounded | crates/cakesplitter-desktop-runtime/src/store.rs:209-227 | in such a run at most 7 Normal and 15 High tasks overtake a Low one, at most 7 High tasks a Normal one, and none of lower or equal priority |
| Fairness.WindowKeepsSpent | crates/cakesplitter-desktop-runtime/src/store.rs:209-227 | it is enough that no removal lowers the highest order below the end of the window |
| Fairness.OrderCanOvertake | crates/cakesplitter-desktop-runtime/src/store.rs:209-227 | an order of the window above the whole table can still overtake the task, by admissions, cancellations and one choice |
| Fairness.UnkeptOrderOvertakesAgain | crates/cakesplitter-desktop-runtime/src/store.rs:854-864 | the first step that leaves the table below a spent order can be continued so that this order overtakes the task a second time |
| Fairness.BoundIsReached | crates/cakesplitter-desktop-runtime/src/store.rs:209-227 | for each priority with a nonzero bound, a run that reaches it without lowering the highest order |
| Fairness.RemovalDefeatsTheBound | crates/cakesplitter-desktop-runtime/src/store.rs:854-864 | when removals may take the row with the highest order, a run that overtakes a task any number of times |
| Fairness.InsertIsAdmission | crates/cakesplitter-desktop-runtime/src/store.rs:133-186 | an insert of a queued task is an admission step and removals |
| Fairness.MutateIsUpdate | crates/cakesplitter-desktop-runtime/src/store.rs:463-544 | a mutate that neither requeues nor changes the priority is an update step and removals |
| Fairness.MutateIsStart | crates/cakesplitter-desktop-runtime/src/engine.rs:1548-1589 | the mutate by which the worker starts its choice is a start step, an update and removals |
| TaskTable.PruneKeeps | crates/cakesplitter-desktop-runtime/src/store.rs:1215-1239 | pruning changes no row it keeps and deletes neither nonterminal nor checkpointed rows |
| TaskTable.PruneBounds | crates/cakesplitter-desktop-runtime/src/store.rs:1215-1239 | it leaves exactly the allowed number of plain terminal rows, or all that are at most the preferred number of days old |
| TaskTable.PruneDeletesOldest | crates/cakesplitter-desktop-runtime/src/store.rs:1215-1239 | every row it deletes is older than every plain row it keeps |
| TaskTable.WriteKeepsBounded | crates/cakesplitter-desktop-runtime/src/store.rs:133-186 | a write that respects the two capacities keeps every bound, once pruned |
| TaskTable.TaskStore.constructor | crates/cakesplitter-desktop-runtime/src/store.rs:755-780 | an empty store is within every bound |
| TaskTable.TaskStore.Insert | crates/cakesplitter-desktop-runtime/src/store.rs:133-186 | succeeds exactly within the epoch and the two capacities, and otherwise answers with the first of these that fails; a queued task gets the order after the highest in the table |
| TaskTable.TaskStore.Mutate | crates/cakesplitter-desktop-runtime/src/store.rs:463-544 | commits exactly under the current epoch, an agreeing closure and the capacities, and then the row is the old one with the closure's fields, one revision more and the current time; a stale epoch changes nothing and an unreadable row is quarantined |
| TaskTable.TaskStore.SetPriority | crates/cakesplitter-desktop-runtime/src/store.rs:252-265 | succeeds exactly for a queued task under the current epoch whose revision is not exhausted, and changes its priority and nothing else about it |
| TaskTable.TaskStore.RemoveTerminal | crates/cakesplitter-desktop-runtime/src/store.rs:546-560 | removes exactly a terminal task |
| TaskTable.TaskStore.RemoveFailedAdmission | crates/cakesplitter-desktop-runtime/src/store.rs:562-576 | removes exactly a queued task |
| TaskTable.TaskStore.ClearTerminalStatus | crates/cakesplitter-desktop-runtime/src/store.rs:397-407 | removes exactly the terminal tasks of one status and counts them |
| TaskTable.TaskStore.ClearAll | crates/cakesplitter-desktop-runtime/src/store.rs:578-599 | leaves no row and raises the epoch by one, unless it is at its limit |
| TaskTable.TaskStore.SavePreferences | crates/cakesplitter-desktop-runtime/src/store.rs:719-743 | stores exactly preferences of 1 to 500 rows and 1 to 3,650 days and prunes by them at once |
| TaskTable.TaskStore.MoveQueued | crates/cakesplitter-desktop-runtime/src/store.rs:267-325 | the task changes places with its neighbour among the queued tasks of its priority, the two rows exchange orders and gain a revision, and no other row changes; it is refused exactly at the end or when not queued |
| TaskTable.TaskStore.MoveEarlierThenLater | crates/cakesplitter-desktop-runtime/src/store.rs:267-325 | one step earlier and then, at any later time, one later restores the queue of every priority; the second fails only on an exhausted revision |
| TaskTable.TaskStore.AnyOperations | crates/cakesplitter-desktop-runtime/src/store.rs:133-186 | from an empty store every run of operations keeps at most 64 nonterminal rows, 500 checkpointed terminal rows, the allowed number of plain ones, one epoch and unique orders |
| TaskTable.TaskStore.StaleUpdateAfterClear | crates/cakesplitter-desktop-runtime/src/store.rs:463-544 | an update with an epoch read before a successful clear changes nothing, however many operations have run since |
| TaskRecovery.LimitIgnoresLater | crates/cakesplitter-desktop-runtime/src/store.rs:609-649 | deleting sampled rows first does not change which rows the limit keeps |
| TaskRecovery.LimitRows | crates/cakesplitter-desktop-runtime/src/store.rs:605-652 | keeps exactly the 64 oldest nonterminal rows, each older than every one it drops, and samples at most 20 of the others |
| TaskRecovery.InterruptibleIsInFlight | crates/cakesplitter-desktop-runtime/src/model.rs:267-303 | a task can become Interrupted from the in-flight statuses and from no other |
| TaskRecovery.RecoverAfterRestart | crates/cakesplitter-desktop-runtime/src/store.rs:601-702 | from any table: the survivors are the readable ones among the 64 oldest, none is in flight, those that were are Interrupted with one revision more and the current time and the others are untouched, and the three counts of the report are exact; it fails exactly when a task to be interrupted has another epoch or an exhausted revision |
| TaskRecovery.RecoverTwice | crates/cakesplitter-desktop-runtime/src/store.rs:601-702 | a second recovery, at whatever time, finds no excess, recovers no task and changes no nonterminal row |
| PathTree.ContainsIsSubtree | crates/cakesplitter-desktop-runtime/src/engine.rs:1461-1468 | the prefix test on texts decides exactly whether one path lies in the subtree of the other, component by component |
| PathTree.TreeLaw | crates/cakesplitter-desktop-runtime/src/engine.rs:1461-1475 | two directories that contain one path are nested |
| PathTree.ContainsIsTransitive | crates/cakesplitter-desktop-runtime/src/engine.rs:1461-1475 | containment is transitive |
| PathTree.NormalizedAgreesExactly | crates/cakesplitter-desktop-runtime/src/engine.rs:1470-1475 | two paths have one normal form exactly when, with separators unified and trailing ones cut off, they are letter for letter the same up to ASCII case |
| PathTree.LastComponentExactly | crates/cakesplitter-desktop-runtime/src/engine.rs:1461-1475 | the last component is the text without separators that ends the path |
| PathTree.TrailingSeparatorAgrees | crates/cakesplitter-desktop-runtime/src/engine.rs:1470-1475 | a trailing separator of either kind makes no difference |
| PathTree.SeparatorKindAgrees | crates/cakesplitter-desktop-runtime/src/engine.rs:1470-1475 | the kind of separator makes no difference |
| PathTree.CaseAgrees | crates/cakesplitter-desktop-runtime/src/engine.rs:1470-1475 | ASCII case makes no difference |
| Admission.OverlapIsSharedPath | crates/cakesplitter-desktop-runtime/src/engine.rs:1422-1436 | two outputs overlap exactly when some path may be written by both |
| Admission.ClashIsSymmetric | crates/cakesplitter-desktop-runtime/src/engine.rs:1219-1258 | whether two tasks clash does not depend on which came first |
| Admission.DisjointMeansNoSharedPath | crates/cakesplitter-desktop-runtime/src/engine.rs:1172-1258 | in an admitted table no path is written by two live tasks, and none writes the source or the Manifest of another |
| Admission.MergeClashesWithReader | crates/cakesplitter-desktop-runtime/src/engine.rs:1219-1258 | a Merge clashes with an Inspect or a Verify exactly when its output is that task's Manifest; every other file of the package folder passes |
| Admission.SplitBesideSplit | crates/cakesplitter-desktop-runtime/src/engine.rs:1219-1276 | what is reported between two Splits: a duplicate exactly for the same source, folder and Slice size, a hard conflict exactly for nested folders or a source in the other's folder, and otherwise whether source or package are shared |
| Admission.MergeBesideMerge | crates/cakesplitter-desktop-runtime/src/engine.rs:1219-1276 | what is reported between two Merges: a duplicate exactly for the same Manifest and output, a hard conflict exactly for one output or an output on the other's Manifest |
| Admission.ReaderBesideReader | crates/cakesplitter-desktop-runtime/src/engine.rs:1381-1388 | what is reported between two tasks that only read: a duplicate exactly for the same kind, options and Manifest, and never a hard conflict |
| Admission.SplitBesideMerge | crates/cakesplitter-desktop-runtime/src/engine.rs:1219-1276 | what is reported between a Split and a Merge, in either order |
| Admission.WriterBesideReader | crates/cakesplitter-desktop-runtime/src/engine.rs:1219-1276 | what is reported between a task that writes and one that reads, in either order |
| Admission.ReadersClash | crates/cakesplitter-desktop-runtime/src/engine.rs:1381-1388 | two readers clash exactly when they are the same kind with the same options and their Manifests share an identity or a normal path |
| Admission.ConflictsWithItselfExactly | crates/cakesplitter-desktop-runtime/src/engine.rs:1172-1218 | a Split conflicts with itself exactly when its folder contains its source, a Merge exactly when its output lies in the package folder or ends in the name of a Slice, a reader never |
| Admission.OtherReadersAreCompatible | crates/cakesplitter-desktop-runtime/src/engine.rs:1172-1258 | a reader beside live readers of other Manifests is compatible with all of them |
| Admission.OnlyQueuedRevives | crates/cakesplitter-desktop-runtime/src/model.rs:267-303 | only requeueing makes a terminal task live again |
| Admission.ConflictWith | crates/cakesplitter-desktop-runtime/src/engine.rs:1219-1276 | at most one conflict with each live task, blocking exactly when the two clash |
| Admission.Engine.DetectConflicts | crates/cakesplitter-desktop-runtime/src/engine.rs:1172-1284 | a blocking conflict is found exactly when the candidate is incompatible with itself or a live task, and the list is empty exactly when nothing at all is to report |
| Admission.Engine.Preflight | crates/cakesplitter-desktop-runtime/src/engine.rs:886-947 | refused exactly for unreadable files, a blocking conflict or a lack of space; where any task is reported the lack of space shows as a conflict |
| Admission.Engine.OtherThreads | crates/cakesplitter-desktop-runtime/src/engine.rs:607-640 | what threads without the admission lock do makes no task live |
| Admission.Engine.Enqueue | crates/cakesplitter-desktop-runtime/src/engine.rs:209-249 | the answer is the first refusal in the order capacity of 64, clear in progress, preflight, store; an admitted candidate is compatible with all live tasks, whatever other threads did meanwhile; a reader beside live readers of other files is admitted whenever there is room and the store can write |
| Admission.Engine.Requeue | crates/cakesplitter-desktop-runtime/src/engine.rs:1016-1059 | the answer is the first refusal in the order status, clear in progress, capacity for a terminal task, preflight without the task itself, retryability; the store refuses only when it cannot write or another thread changed the task |
| Admission.RequeueRefusals | crates/cakesplitter-desktop-runtime/src/engine.rs:1016-1059 | which statuses can be resumed and retried, when a retry needs a retryable failure, and when room |
| Admission.Engine.ResumePaused | crates/cakesplitter-desktop-runtime/src/engine.rs:565-590 | a Paused task runs again unless it is not active, the store cannot write or another thread changed it, and no task is revived |
| Admission.Engine.ClearAll | crates/cakesplitter-desktop-runtime/src/engine.rs:648-683 | leaves no task when the workers stop, and otherwise is refused; its flag is down when it returns |
| Admission.Engine.AnyRun | crates/cakesplitter-desktop-runtime/src/engine.rs:209-249 | in every run all live tasks stay apart and at most 64, and because a clear holds the admission lock no admission is ever refused for its flag |
| WebTaskStore.TaskStore.CallSave | apps/web/src/task-store.ts:92-96 | a save is queued exactly under the current generation outside a clear |
| WebTaskStore.TaskStore.CallClear | apps/web/src/task-store.ts:111-126 | a clear in progress is returned again; otherwise the generation is raised at once and the removal queued behind everything called before |
| WebTaskStore.TaskStore.Start | apps/web/src/task-store.ts:217-224 | an operation whose generation is no longer current ends without a write |
| WebTaskStore.TaskStore.CreateHandle | apps/web/src/task-store.ts:179-192 | opening needs a readable list with room and leaves a new file empty |
| WebTaskStore.TaskStore.CloseWrite | apps/web/src/task-store.ts:192-200 | the content and its generation appear when the write is closed, or not at all; where all other files hold tasks the list is readable after it exactly unless a new file failed to be written |
| WebTaskStore.TaskStore.RemoveEntry | apps/web/src/task-store.ts:206-212 | a removed file is gone, and the list is readable again exactly when all others hold tasks |
| WebTaskStore.TaskStore.MarkNext | apps/web/src/task-store.ts:133-146 | when the loop runs to its end no task is running or paused |
| WebTaskStore.TaskStore.FinishClear | apps/web/src/task-store.ts:116-119 | a successful removal empties the directory and makes the list readable |
| WebTaskStore.TaskStore.Resolve | apps/web/src/task-store.ts:120-126 | when a clear reports success the directory is empty and the fence is its generation |
| WebTaskStore.TaskStore.AnyInterleaving | apps/web/src/task-store.ts:68-151 | between any calls under any generation no file from before the last successful clear comes back, and there are at most 200 files |
| WebTaskStore.TaskStore.FenceAfterClear | apps/web/src/task-store.ts:111-126 | after a clear resolves no file written under an older generation exists later |
| WebTaskStore.FailedWriteBlocksListing | apps/web/src/task-store.ts:161-200 | a first save that fails after opening its file leaves one that blocks reading the list |
| WebTaskStore.EmptyFileBlocks | apps/web/src/task-store.ts:68-215 | from any resting store with an empty file, every interleaving of calls and steps without a discard of it or a successful clear keeps it empty and the list unreadable and writes nothing |

## Left out

- ResumableSplit.Split: the source does not change during a call, so the identity and time checks on it and the removal of a just published Manifest when they fail are not modelled.
- ResumableSplit.StartFresh: a foreign file under the name of the Manifest's staging file, which a fresh start does not look for, is excluded; the original meets it only after the last Slice.
- ResumableSplit.ValidateCompleted: tests the token once before it starts instead of before each read; stopping anywhere in it changes nothing.
- ResumableMerge.Merge: the bound variant, which holds package files open under a recorded binding, is not modelled; the package does not change during a call.
- OneShot.Split: the rollback of renamed outputs when the source has changed is not modelled, nor is cancellation of the one-shot calls.
- SliceArithmetic.SliceSizeForCountIsExact: a zero count divides by zero in the original; all callers exclude it and so does the model.
- Sha256.IncrementalSha256.DigestBytes: messages of 2^53 bytes or more, whose length a JavaScript number cannot hold, are excluded.
- Package.InspectPackage: inspection without hashes is not modelled.
- Fairness.OvertakingIsBounded: runs with requeues, manual moves or priority changes are not part of the bound.
- TaskTable.TaskStore.Insert: no caller supplies a queue order, so the branch that keeps a given one is not modelled; orders, epochs and revisions above 2^63 are not either.
- TaskTable.TaskStore.Mutate: closures that change the identifier, the epoch or the queue order are not modelled; no caller passes one.
- TaskRecovery.RecoverAfterRestart: unreadable preferences, which make it fail, and the state word of the report are not modelled.
- Admission.DisjointMeansNoSharedPath: says nothing of the Slices a package task reads, because the original does not compare them; see Admission.MergeClashesWithReader.
- Admission.Engine.DetectConflicts: the order of the reported conflicts and the cut of the list to twenty entries are not modelled; file identities of a live task are taken as stable.
- BatchRun.BatchRunner.PrepareResume: the evidence checks on Completed operations are one nondeterministic error.
- BatchRun.BatchRunner.Execute: the graph has been validated and ordered before; events, receipts and the event limit appear only as possible failures.
- StateFile.RunStateFile.Replace: the replacement is atomic, as the operating system promises.
- WebTaskStore.TaskStore.AnyInterleaving: one store object over one directory; a reloaded page starts again at generation zero, and a second tab has its own.
- Directory identity guards, reparse-point and link checks, flushes and other system calls: atomic steps on a map from names to identity and bytes.
- Upgrade of task rows from schema 2, which gives every such row the queue order 1.
- Liveness of the cancellation token and of the scheduler's wake-up, and progress throttling by the clock.
- Json.DocumentReadsBack: texts with characters that need an escape are excluded; no accepted Manifest holds one, and the writer of escapes is not modelled.
- Unicode classes of file names beyond those the two validators test, and the nesting limit of the JSON reader, which at sixteen is above the three levels of a Manifest.
- User interface, command line, service worker, diagnostics, receipts, redaction and package metadata.
