/** The resumable Split as a crash-step protocol. The folder and the durable checkpoint change in
    separate steps; a call may stop between any two of them and the next call reconciles the two. */
module ResumableSplit {
  import opened Wrappers
  import opened SliceArithmetic
  import opened SliceNames
  import opened Manifest
  import opened Disk
  import opened Package

  const BUFFER_SIZE: nat := 1024 * 1024

  datatype PartialCheckpoint = PartialCheckpoint(filename: string, identity: nat)

  datatype SliceCheckpoint = SliceCheckpoint(entry: SliceEntry, identity: nat)

  datatype SplitResumeData = SplitResumeData(
    baseline: string, completed: seq<SliceCheckpoint>,
    activePartial: Option<PartialCheckpoint>, publishedManifest: Option<string>)

  datatype SplitEvent =
    | Baseline(baseline: string)
    | PartialCreated(partial: PartialCheckpoint)
    | SliceCompleted(slice: SliceCheckpoint)
    | PartialCleared
    | ManifestPublished(sha256: string)

  /** `update_split_checkpoint`: what each event makes of the stored checkpoint. Only the baseline may
      arrive without one. */
  function Reduce(stored: Option<SplitResumeData>, event: SplitEvent): Option<SplitResumeData> {
    match event
    case Baseline(baseline) => Some(SplitResumeData(baseline, [], None, None))
    case _ =>
      if stored.None? then None
      else
        var c := stored.value;
        match event
        case PartialCreated(partial) => Some(c.(activePartial := Some(partial)))
        case SliceCompleted(slice) => Some(c.(activePartial := None, completed := c.completed + [slice]))
        case PartialCleared => Some(c.(activePartial := None))
        case ManifestPublished(sha256) => Some(c.(activePartial := None, publishedManifest := Some(sha256)))
  }

  // ----- The reachable combinations of folder and checkpoint -----

  /** `k` counts the outputs the checkpoint records. */
  datatype Phase =
    | Fresh
    | Idle(k: nat)
    | CreatedUnrecorded(k: nat)
    | Writing(k: nat)
    | RenamedUnrecorded(k: nat)
    | ClearedUnrecorded(k: nat)
    | Published

  /** Exactly the first `finals` outputs are in place, byte for byte, and at most the one staging
      file `partial` (0 for none) exists. */
  ghost predicate Layout(t: SplitTask, lib: Library, files: Files, finals: nat, partial: nat) {
    && finals <= t.Count() + 1
    && (forall i :: 1 <= i <= t.Count() + 1 ==> (t.FinalName(i) in files <==> i <= finals))
    && (forall i :: 1 <= i <= finals ==> files[t.FinalName(i)].bytes == t.FinalBytes(lib, i))
    && (forall i :: 1 <= i <= t.Count() + 1 ==> (t.PartialName(i) in files <==> i == partial))
    && (finals == t.Count() + 1 ==> Accepted(t.Manifest(lib), lib))
  }

  /** The checkpoint lists exactly the first `k` Slices with their planned rows and present identities. */
  ghost predicate Records(t: SplitTask, lib: Library, files: Files, c: SplitResumeData, k: nat) {
    && k == |c.completed| <= t.Count()
    && c.baseline == lib.hash(t.source)
    && forall i :: 1 <= i <= k ==>
         && c.completed[i - 1].entry == t.Entry(lib, i)
         && t.FinalName(i) in files
         && c.completed[i - 1].identity == files[t.FinalName(i)].identity
  }

  ghost predicate IsPrefix(a: seq<byte>, b: seq<byte>) {
    |a| <= |b| && a == b[..|a|]
  }

  /** What an unrecorded staging file may hold. A Slice is not written before its staging file is
      recorded; the Manifest is written whether or not that succeeded. */
  ghost predicate Unrecorded(t: SplitTask, lib: Library, bytes: seq<byte>, k: nat)
    requires k <= t.Count()
  {
    if k < t.Count() then bytes == [] else IsPrefix(bytes, t.FinalBytes(lib, k + 1))
  }

  ghost predicate InPhase(t: SplitTask, lib: Library, files: Files, stored: Option<SplitResumeData>, phase: Phase) {
    match phase
    case Fresh => stored.None? && Layout(t, lib, files, 0, 0)
    case Idle(k) =>
      && stored.Some? && Records(t, lib, files, stored.value, k) && Layout(t, lib, files, k, 0)
      && stored.value.activePartial.None? && stored.value.publishedManifest.None?
    case CreatedUnrecorded(k) =>
      && stored.Some? && Records(t, lib, files, stored.value, k) && Layout(t, lib, files, k, k + 1)
      && stored.value.activePartial.None? && stored.value.publishedManifest.None?
      && Unrecorded(t, lib, files[t.PartialName(k + 1)].bytes, k)
    case Writing(k) =>
      && stored.Some? && Records(t, lib, files, stored.value, k) && Layout(t, lib, files, k, k + 1)
      && stored.value.activePartial == Some(PartialCheckpoint(t.PartialName(k + 1), files[t.PartialName(k + 1)].identity))
      && stored.value.publishedManifest.None?
      && IsPrefix(files[t.PartialName(k + 1)].bytes, t.FinalBytes(lib, k + 1))
    case RenamedUnrecorded(k) =>
      && stored.Some? && Records(t, lib, files, stored.value, k) && Layout(t, lib, files, k + 1, 0)
      && stored.value.activePartial == Some(PartialCheckpoint(t.PartialName(k + 1), files[t.FinalName(k + 1)].identity))
      && stored.value.publishedManifest.None?
    case ClearedUnrecorded(k) =>
      && stored.Some? && Records(t, lib, files, stored.value, k) && Layout(t, lib, files, k, 0)
      && stored.value.activePartial.Some? && stored.value.activePartial.value.filename == t.PartialName(k + 1)
      && stored.value.publishedManifest.None?
    case Published =>
      && stored.Some? && Records(t, lib, files, stored.value, t.Count()) && Layout(t, lib, files, t.Count() + 1, 0)
      && stored.value.activePartial.None?
      && stored.value.publishedManifest == Some(lib.hash(t.FinalBytes(lib, t.Count() + 1)))
  }

  /** The phase read off the folder and the checkpoint, as an operator could before a resume. */
  ghost function PhaseOf(t: SplitTask, files: Files, stored: Option<SplitResumeData>): Phase {
    if stored.None? then Fresh
    else
      var c := stored.value;
      var k := |c.completed|;
      if c.publishedManifest.Some? then Published
      else if c.activePartial.Some? then
        if c.activePartial.value.filename in files then Writing(k)
        else if t.FinalName(k + 1) in files then RenamedUnrecorded(k)
        else ClearedUnrecorded(k)
      else if t.PartialName(k + 1) in files then CreatedUnrecorded(k)
      else Idle(k)
  }

  lemma PhaseIsObservable(t: SplitTask, lib: Library, files: Files, stored: Option<SplitResumeData>, phase: Phase)
    requires InPhase(t, lib, files, stored, phase)
    ensures PhaseOf(t, files, stored) == phase
  {
    hide SplitTask.FinalName, SplitTask.PartialName, SplitTask.FinalBytes, SplitTask.Count, SplitTask.Entry;
  }

  // ----- The steps, each keeping the protocol -----

  lemma BaselineStep(t: SplitTask, lib: Library, files: Files, stored: Option<SplitResumeData>)
    requires InPhase(t, lib, files, stored, Fresh)
    ensures InPhase(t, lib, files, Reduce(stored, Baseline(lib.hash(t.source))), Idle(0))
  {
  }

  lemma CreateStep(t: SplitTask, lib: Library, files: Files, stored: Option<SplitResumeData>, k: nat, identity: nat)
    requires InPhase(t, lib, files, stored, Idle(k)) && NamesDistinct(t)
    ensures InPhase(t, lib, files[t.PartialName(k + 1) := File(identity, [])], stored, CreatedUnrecorded(k))
  {
    hide SplitTask.FinalName, SplitTask.PartialName, SplitTask.FinalBytes, SplitTask.Count, SplitTask.Entry;
  }

  lemma RecordPartialStep(t: SplitTask, lib: Library, files: Files, stored: Option<SplitResumeData>, k: nat)
    requires InPhase(t, lib, files, stored, CreatedUnrecorded(k))
    ensures InPhase(t, lib, files,
                    Reduce(stored, PartialCreated(PartialCheckpoint(t.PartialName(k + 1), files[t.PartialName(k + 1)].identity))),
                    Writing(k))
  {
    hide SplitTask.FinalName, SplitTask.PartialName, SplitTask.FinalBytes, SplitTask.Count, SplitTask.Entry;
  }

  lemma WriteStep(t: SplitTask, lib: Library, files: Files, stored: Option<SplitResumeData>, k: nat, chunk: seq<byte>)
    requires InPhase(t, lib, files, stored, Writing(k)) && NamesDistinct(t)
    requires IsPrefix(files[t.PartialName(k + 1)].bytes + chunk, t.FinalBytes(lib, k + 1))
    ensures var name := t.PartialName(k + 1);
            InPhase(t, lib, files[name := File(files[name].identity, files[name].bytes + chunk)], stored, Writing(k))
  {
    hide SplitTask.FinalName, SplitTask.PartialName, SplitTask.FinalBytes, SplitTask.Count, SplitTask.Entry;
  }

  /** The Manifest's staging file grows even though it was not recorded. */
  lemma UnrecordedWriteStep(t: SplitTask, lib: Library, files: Files, stored: Option<SplitResumeData>, chunk: seq<byte>)
    requires InPhase(t, lib, files, stored, CreatedUnrecorded(t.Count())) && NamesDistinct(t)
    requires IsPrefix(files[t.PartialName(t.Count() + 1)].bytes + chunk, t.FinalBytes(lib, t.Count() + 1))
    ensures var name := t.PartialName(t.Count() + 1);
            InPhase(t, lib, files[name := File(files[name].identity, files[name].bytes + chunk)], stored, CreatedUnrecorded(t.Count()))
  {
    hide SplitTask.FinalName, SplitTask.PartialName, SplitTask.FinalBytes, SplitTask.Count, SplitTask.Entry;
  }

  lemma RenameStep(t: SplitTask, lib: Library, files: Files, stored: Option<SplitResumeData>, k: nat)
    requires InPhase(t, lib, files, stored, Writing(k)) && NamesDistinct(t)
    requires files[t.PartialName(k + 1)].bytes == t.FinalBytes(lib, k + 1)
    requires k == t.Count() ==> Accepted(t.Manifest(lib), lib)
    ensures var name := t.PartialName(k + 1);
            InPhase(t, lib, (files - {name})[t.FinalName(k + 1) := files[name]], stored, RenamedUnrecorded(k))
  {
    hide SplitTask.FinalName, SplitTask.PartialName, SplitTask.FinalBytes, SplitTask.Count, SplitTask.Entry;
    hide Accepted, SplitTask.Manifest;
  }

  lemma RecordSliceStep(t: SplitTask, lib: Library, files: Files, stored: Option<SplitResumeData>, k: nat)
    requires InPhase(t, lib, files, stored, RenamedUnrecorded(k)) && k < t.Count()
    ensures InPhase(t, lib, files,
                    Reduce(stored, SliceCompleted(SliceCheckpoint(t.Entry(lib, k + 1), files[t.FinalName(k + 1)].identity))),
                    Idle(k + 1))
  {
    hide SplitTask.FinalName, SplitTask.PartialName, SplitTask.FinalBytes, SplitTask.Count, SplitTask.Entry;
  }

  lemma RecordManifestStep(t: SplitTask, lib: Library, files: Files, stored: Option<SplitResumeData>)
    requires InPhase(t, lib, files, stored, RenamedUnrecorded(t.Count()))
    ensures InPhase(t, lib, files,
                    Reduce(stored, ManifestPublished(lib.hash(t.FinalBytes(lib, t.Count() + 1)))), Published)
  {
    hide SplitTask.FinalName, SplitTask.PartialName, SplitTask.FinalBytes, SplitTask.Count, SplitTask.Entry;
  }

  lemma RemoveStep(t: SplitTask, lib: Library, files: Files, stored: Option<SplitResumeData>, k: nat)
    requires InPhase(t, lib, files, stored, Writing(k)) && NamesDistinct(t)
    ensures InPhase(t, lib, files - {t.PartialName(k + 1)}, stored, ClearedUnrecorded(k))
  {
    hide SplitTask.FinalName, SplitTask.PartialName, SplitTask.FinalBytes, SplitTask.Count, SplitTask.Entry;
  }

  lemma RecordClearedStep(t: SplitTask, lib: Library, files: Files, stored: Option<SplitResumeData>, k: nat)
    requires InPhase(t, lib, files, stored, ClearedUnrecorded(k))
    ensures InPhase(t, lib, files, Reduce(stored, PartialCleared), Idle(k))
  {
    hide SplitTask.FinalName, SplitTask.PartialName, SplitTask.FinalBytes, SplitTask.Count, SplitTask.Entry;
  }

  // ----- Frame: a Split changes nothing but its own outputs -----

  ghost predicate OnlyOwnChanged(t: SplitTask, before: Files, after: Files) {
    forall name :: !t.Owns(name) ==>
      (name in before <==> name in after) && (name in before ==> before[name] == after[name])
  }

  lemma OwnOutputs(t: SplitTask, index: nat)
    requires 1 <= index <= t.Count() + 1
    ensures t.Owns(t.FinalName(index)) && t.Owns(t.PartialName(index))
  {
  }

  lemma OwnUpdate(t: SplitTask, before: Files, after: Files, name: string, file: File)
    requires OnlyOwnChanged(t, before, after) && t.Owns(name)
    ensures OnlyOwnChanged(t, before, after[name := file]) && OnlyOwnChanged(t, before, after - {name})
  {
    hide SplitTask.Owns;
  }

  lemma NothingChanged(t: SplitTask, files: Files)
    ensures OnlyOwnChanged(t, files, files)
  {
  }

  lemma OnlyOwnChangedTransitive(t: SplitTask, a: Files, b: Files, c: Files)
    requires OnlyOwnChanged(t, a, b) && OnlyOwnChanged(t, b, c)
    ensures OnlyOwnChanged(t, a, c)
  {
    hide SplitTask.Owns;
  }

  /** From one state of a folder to a later one, nothing changes but the content of the Manifest's
      staging file. */
  ghost predicate OnlyStagingGrew(t: SplitTask, before: Files, after: Files) {
    && before.Keys == after.Keys
    && forall name :: name in before ==>
         && before[name].identity == after[name].identity
         && (name != t.PartialName(t.Count() + 1) ==> before[name] == after[name])
  }

  /** A checkpoint write that failed sets the token, and from then on nothing is recorded and no file
      changes but the Manifest's staging file: the call is over, as after a crash at that point. */
  ghost predicate FailureIsFinal(m: Machine<SplitResumeData>, t: SplitTask)
    reads m
  {
    m.failedAt.Some? ==>
      && m.cancelled && m.checkpoint == m.failedAt.value.checkpoint
      && OnlyStagingGrew(t, m.failedAt.value.files, m.files)
  }

  // ----- What a phase says about the next output -----

  lemma IdleFacts(t: SplitTask, lib: Library, files: Files, stored: Option<SplitResumeData>, k: nat)
    requires InPhase(t, lib, files, stored, Idle(k))
    ensures k <= t.Count() && stored.Some? && t.FinalName(k + 1) !in files && t.PartialName(k + 1) !in files
  {
    hide SplitTask.FinalName, SplitTask.PartialName, SplitTask.FinalBytes, SplitTask.Count, SplitTask.Entry;
  }

  lemma WritingFacts(t: SplitTask, lib: Library, files: Files, stored: Option<SplitResumeData>, k: nat)
    requires InPhase(t, lib, files, stored, Writing(k))
    ensures k <= t.Count() && stored.Some? && t.PartialName(k + 1) in files && t.FinalName(k + 1) !in files
    ensures stored.value.activePartial
         == Some(PartialCheckpoint(t.PartialName(k + 1), files[t.PartialName(k + 1)].identity))
  {
    hide SplitTask.FinalName, SplitTask.PartialName, SplitTask.FinalBytes, SplitTask.Count, SplitTask.Entry;
  }

  // ----- Verification of what a checkpoint claims -----

  /** Slice `index` of the checkpoint is the planned row and both the published file and the source
      range still have its hash. */
  predicate CheckpointHolds(t: SplitTask, lib: Library, files: Files, slice: SliceCheckpoint, index: nat)
    requires 1 <= index <= t.Count()
  {
    var e := slice.entry;
    var name := t.FinalName(index);
    && e.index == index && e.filename == name
    && e.offset == PlanOffset(t.sliceSize, index) && e.size == PlanSize(|t.source|, t.sliceSize, index)
    && name in files && files[name].identity == slice.identity && |files[name].bytes| == e.size
    && lib.hash(files[name].bytes) == e.sha256 && lib.hash(t.SliceBytes(index)) == e.sha256
  }

  ghost predicate AllHold(t: SplitTask, lib: Library, files: Files, completed: seq<SliceCheckpoint>, count: nat) {
    count <= |completed| && count <= t.Count()
    && forall i :: 0 <= i < count ==> CheckpointHolds(t, lib, files, completed[i], i + 1)
  }

  ghost function FilesJoined(t: SplitTask, files: Files, count: nat): seq<byte>
    requires forall i :: 1 <= i <= count ==> t.FinalName(i) in files
  {
    if count == 0 then [] else FilesJoined(t, files, count - 1) + files[t.FinalName(count)].bytes
  }

  /** `validate_completed_slices`: accepts exactly the checkpoints that all hold and returns the hash
      of the published bytes read in order. */
  method ValidateCompleted(t: SplitTask, lib: Library, files: Files, completed: seq<SliceCheckpoint>)
    returns (r: Result<string, CoreError>)
    requires t.Legal(lib)
    ensures r.Ok? <==> AllHold(t, lib, files, completed, |completed|)
    ensures r.Ok? ==> forall i :: 1 <= i <= |completed| ==> t.FinalName(i) in files
    ensures r.Ok? ==> r.value == lib.hash(FilesJoined(t, files, |completed|))
  {
    hide SplitTask.FinalName, SplitTask.SliceBytes, PortableFilename;
    if |completed| > t.Count() { return Err(ResumeRejected); }
    var stream: seq<byte> := [];
    for i := 0 to |completed|
      invariant AllHold(t, lib, files, completed, i)
      invariant forall j :: 1 <= j <= i ==> t.FinalName(j) in files
      invariant stream == FilesJoined(t, files, i)
    {
      var index := i + 1;
      var range := PlannedSliceRange(|t.source|, t.sliceSize, index);
      PlannedRangeIsClosedForm(|t.source|, t.sliceSize, index);
      var (offset, size) := range.value;
      var slice := completed[i];
      var name := t.FinalName(index);
      if slice.entry.index != index || slice.entry.offset != offset || slice.entry.size != size || slice.entry.filename != name {
        assert !CheckpointHolds(t, lib, files, completed[i], i + 1);
        return Err(ResumeRejected);
      }
      if name !in files {
        assert !CheckpointHolds(t, lib, files, completed[i], i + 1);
        return Err(Missing(name));
      }
      if files[name].identity != slice.identity || |files[name].bytes| != size
        || lib.hash(files[name].bytes) != slice.entry.sha256 || lib.hash(t.SliceBytes(index)) != slice.entry.sha256 {
        assert !CheckpointHolds(t, lib, files, completed[i], i + 1);
        return Err(ResumeRejected);
      }
      stream := stream + files[name].bytes;
    }
    return Ok(lib.hash(stream));
  }

  lemma {:induction false} FilesJoinedAreSlices(t: SplitTask, lib: Library, files: Files, finals: nat, count: nat)
    requires Layout(t, lib, files, finals, 0) && count <= finals && count <= t.Count()
    ensures forall i :: 1 <= i <= count ==> t.FinalName(i) in files
    ensures FilesJoined(t, files, count) == SlicesJoined(t, count)
  {
    hide SplitTask.FinalName, SplitTask.PartialName, SplitTask.SliceBytes;
    if count > 0 {
      FilesJoinedAreSlices(t, lib, files, finals, count - 1);
    }
  }

  lemma RecordedSlicesHold(t: SplitTask, lib: Library, files: Files, c: SplitResumeData, finals: nat)
    requires Records(t, lib, files, c, |c.completed|) && Layout(t, lib, files, finals, 0)
    requires |c.completed| <= finals
    ensures AllHold(t, lib, files, c.completed, |c.completed|)
    ensures FilesJoined(t, files, |c.completed|) == SlicesJoined(t, |c.completed|)
    ensures |c.completed| == t.Count() && t.sliceSize >= 1 ==> FilesJoined(t, files, |c.completed|) == t.source
  {
    hide SplitTask.FinalName, PortableFilename;
    if |c.completed| == t.Count() && t.sliceSize >= 1 {
      SlicesJoinToPrefix(t, t.Count());
    }
    FilesJoinedAreSlices(t, lib, files, finals, |c.completed|);
    forall i | 0 <= i < |c.completed|
      ensures CheckpointHolds(t, lib, files, c.completed[i], i + 1)
    {
      assert c.completed[i].entry == t.Entry(lib, i + 1);
      assert files[t.FinalName(i + 1)].bytes == t.FinalBytes(lib, i + 1);
      PlanWithinSource(|t.source|, t.sliceSize, i + 1);
    }
  }

  function RowsOf(completed: seq<SliceCheckpoint>): seq<SliceEntry> {
    seq(|completed|, i requires 0 <= i < |completed| => completed[i].entry)
  }

  /** The Manifest on disk belongs to this task and its checkpoint. */
  predicate ManifestMatches(t: SplitTask, m: CakeManifest, baseline: string, completed: seq<SliceCheckpoint>) {
    && |completed| == m.sliceCount
    && m.packageId == t.packageId && m.createdAt == t.createdAt
    && m.original == OriginalFile(t.original, |t.source|, baseline)
    && m.targetSliceSize == t.sliceSize
    && m.slices == RowsOf(completed)
  }

  ghost predicate ManifestRecovers(t: SplitTask, lib: Library, files: Files, baseline: string, completed: seq<SliceCheckpoint>) {
    && t.ManifestName() in files
    && var m := ReadableManifest(files[t.ManifestName()].bytes, lib);
       m.Some? && ManifestMatches(t, m.value, baseline, completed) && PackageVerifies(files, lib, m.value)
  }

  /** The one Manifest that the task and its checkpoint allow. */
  function ExpectedManifest(t: SplitTask, baseline: string, completed: seq<SliceCheckpoint>): CakeManifest {
    CakeManifest("cakesplitter", "1.0", t.packageId, t.createdAt, OriginalFile(t.original, |t.source|, baseline), t.sliceSize,
                 |completed|, seq(|completed|, i requires 0 <= i < |completed| => completed[i].entry))
  }

  lemma OnlyTheExpectedRecovers(t: SplitTask, lib: Library, files: Files, baseline: string, completed: seq<SliceCheckpoint>)
    ensures ManifestRecovers(t, lib, files, baseline, completed) <==>
            && t.ManifestName() in files
            && ReadableManifest(files[t.ManifestName()].bytes, lib) == Some(ExpectedManifest(t, baseline, completed))
            && PackageVerifies(files, lib, ExpectedManifest(t, baseline, completed))
  {
    hide PackageVerifies, PortableFilename, HashShape, TablePlanned, SplitTask.ManifestName;
  }

  /** `validate_recovered_manifest`: whatever is in the folder, it accepts exactly the Manifest that the task and
      its checkpoint determine, in a folder that holds its package. */
  method ValidateRecoveredManifest(t: SplitTask, lib: Library, files: Files, baseline: string, completed: seq<SliceCheckpoint>)
    returns (r: Result<string, CoreError>)
    ensures r.Ok? <==> ManifestRecovers(t, lib, files, baseline, completed)
    ensures r.Ok? <==> && t.ManifestName() in files
                       && ReadableManifest(files[t.ManifestName()].bytes, lib) == Some(ExpectedManifest(t, baseline, completed))
                       && PackageVerifies(files, lib, ExpectedManifest(t, baseline, completed))
    ensures r.Ok? ==> r.value == lib.hash(files[t.ManifestName()].bytes)
  {
    OnlyTheExpectedRecovers(t, lib, files, baseline, completed);
    hide Accepted, SplitTask.ManifestName, SplitTask.FinalName, ExpectedManifest;
    var name := t.ManifestName();
    if name !in files { return Err(Missing(name)); }
    var loaded := LoadManifest(files[name].bytes, lib);
    if loaded.Err? { return Err(InvalidManifest); }
    AcceptedRowCount(loaded.value, lib);
    if !ManifestMatches(t, loaded.value, baseline, completed) { return Err(ResumeRejected); }
    var inspection := InspectPackage(files, lib, loaded.value);
    if inspection.Err? { return Err(inspection.error); }
    if inspection.value != Inspection([], [], {}) { return Err(ResumeRejected); }
    return Ok(lib.hash(files[name].bytes));
  }

  /** No entry of the folder stands in the way of reading the package back: none has an over-long
      name, there are not too many, and no foreign file ends in `.slice`. */
  ghost predicate FolderClean(t: SplitTask, files: Files) {
    && Enumerable(files)
    && forall name :: name in files && IsSliceName(name) ==> exists i :: 1 <= i <= t.Count() && t.FinalName(i) == name
  }

  /** A Manifest this task published is recognised exactly when it is small enough to be read and the
      folder is clean. */
  lemma PublishedManifestRecovers(t: SplitTask, lib: Library, files: Files, c: SplitResumeData)
    requires Layout(t, lib, files, t.Count() + 1, 0) && Records(t, lib, files, c, t.Count())
    requires Faithful(lib, t.Manifest(lib))
    ensures ManifestRecovers(t, lib, files, c.baseline, c.completed) <==> t.Readable(lib) && FolderClean(t, files)
    ensures files[t.FinalName(t.Count() + 1)].bytes == t.FinalBytes(lib, t.Count() + 1)
  {
    hide Accepted, SplitTask.SliceBytes, SliceFilename, ManifestFilename, ManifestBytes, HashShape, ReadManifest, Faithful;
    hide Enumerable, IsSliceName, ReadableManifest;
    var m := t.Manifest(lib);
    assert t.FinalName(t.Count() + 1) == t.ManifestName();
    assert files[t.ManifestName()].bytes == ManifestBytes(m);
    RecordedIsReadable(t, lib, files);
    assert RowsOf(c.completed) == m.slices by {
      forall i | 0 <= i < t.Count()
        ensures RowsOf(c.completed)[i] == m.slices[i]
      {
        assert c.completed[i].entry == t.Entry(lib, i + 1);
      }
    }
    forall p | 0 <= p < |m.slices|
      ensures SlicePresent(files, lib, m.slices[p])
    {
      assert files[t.FinalName(p + 1)].bytes == t.FinalBytes(lib, p + 1);
      SliceBytesLength(t, p + 1);
    }
    SliceNamesOfManifest(t, lib);
  }

  lemma RecordedIsReadable(t: SplitTask, lib: Library, files: Files)
    requires Layout(t, lib, files, t.Count() + 1, 0) && Faithful(lib, t.Manifest(lib))
    ensures var m := t.Manifest(lib);
            ReadableManifest(ManifestBytes(m), lib) == if |ManifestBytes(m)| <= MAX_MANIFEST_BYTES then Some(m) else None
  {
    hide Accepted, ManifestBytes, ReadManifest, SplitTask.FinalName, SplitTask.FinalBytes, SplitTask.Manifest;
    WrittenIsReadable(t, lib);
  }

  lemma SliceBytesLength(t: SplitTask, index: nat)
    requires 1 <= index <= t.Count()
    ensures |t.SliceBytes(index)| == PlanSize(|t.source|, t.sliceSize, index)
  {
    PlanWithinSource(|t.source|, t.sliceSize, index);
  }

  lemma SliceNamesOfManifest(t: SplitTask, lib: Library)
    ensures forall name :: SliceNamed(t.Manifest(lib), name) <==> exists i :: 1 <= i <= t.Count() && t.FinalName(i) == name
  {
    hide SliceFilename, SplitTask.SliceBytes, ManifestFilename;
    var m := t.Manifest(lib);
    forall name
      ensures SliceNamed(m, name) <==> exists i :: 1 <= i <= t.Count() && t.FinalName(i) == name
    {
      if SliceNamed(m, name) {
        var p :| 0 <= p < |m.slices| && m.slices[p].filename == name;
        assert m.slices[p] == t.Entry(lib, p + 1);
        assert t.FinalName(p + 1) == name;
      }
      if i :| 1 <= i <= t.Count() && t.FinalName(i) == name {
        assert m.slices[i - 1] == t.Entry(lib, i);
      }
    }
  }

  // ----- One output: create, record, write, rename -----

  predicate SameRows(a: Option<SplitResumeData>, b: Option<SplitResumeData>) {
    a.Some? && b.Some? && a.value.completed == b.value.completed
  }

  /** Fills the staging file in reads of any size. For a Slice each read starts with a test of the
      token, so after a failed record nothing is written; the Manifest is written in any case. */
  method WriteStaging(m: Machine<SplitResumeData>, t: SplitTask, lib: Library, content: seq<byte>, k: nat, identity: nat,
                      disturbed: bool, ghost phase: Phase)
    returns (stopped: Option<Outcome<()>>)
    requires InPhase(t, lib, m.files, m.checkpoint, phase)
    requires phase == if m.failedAt.None? then Writing(k) else CreatedUnrecorded(k)
    requires m.cancelled == m.failedAt.Some? && (m.cancelled ==> disturbed) && FailureIsFinal(m, t)
    requires k <= t.Count() && content == t.FinalBytes(lib, k + 1) && (k < t.Count() ==> content != [])
    requires t.PartialName(k + 1) in m.files && m.files[t.PartialName(k + 1)] == File(identity, [])
    modifies m`files, m`cancelled
    ensures InPhase(t, lib, m.files, m.checkpoint, phase)
    ensures OnlyOwnChanged(t, old(m.files), m.files)
    ensures (m.cancelled ==> disturbed) && FailureIsFinal(m, t)
    ensures stopped.Some? ==> !stopped.value.Done? && disturbed
    ensures stopped.Some? && stopped.value.Failed? ==> stopped.value.error == CoreError.Cancelled && m.cancelled
    ensures stopped.None? ==> m.cancelled == m.failedAt.Some?
    ensures stopped.None? ==> t.PartialName(k + 1) in m.files && m.files[t.PartialName(k + 1)] == File(identity, content)
  {
    hide SplitTask.FinalName, SplitTask.PartialName, SplitTask.FinalBytes, SplitTask.Count, SplitTask.Owns;
    hide InPhase, OnlyOwnChanged, NamesDistinct, OnlyStagingGrew;
    NamesAreDistinct(t);
    OwnOutputs(t, k + 1);
    NothingChanged(t, m.files);
    var partial := t.PartialName(k + 1);
    var written: nat := 0;
    while written < |content|
      invariant written <= |content|
      invariant InPhase(t, lib, m.files, m.checkpoint, phase)
      invariant m.cancelled == m.failedAt.Some? && (m.cancelled ==> disturbed) && FailureIsFinal(m, t)
      invariant m.cancelled ==> k == t.Count() || written == 0
      invariant partial in m.files && m.files[partial] == File(identity, content[..written])
      invariant OnlyOwnChanged(t, old(m.files), m.files)
    {
      var crashed := m.Stops(disturbed);
      if crashed { return Some(Crashed); }
      if k < t.Count() {
        var stop := m.CheckCancelled(disturbed);
        if stop { return Some(Failed(CoreError.Cancelled)); }
      }
      var limit := if k < t.Count() then Min(|content| - written, BUFFER_SIZE) else |content| - written;
      var read: nat :| 1 <= read <= limit;
      var chunk := content[written..written + read];
      assert content[..written] + chunk == content[..written + read];
      if m.failedAt.None? {
        WriteStep(t, lib, m.files, m.checkpoint, k, chunk);
      } else {
        UnrecordedWriteStep(t, lib, m.files, m.checkpoint, chunk);
        StagingGrows(t, m.failedAt.value.files, m.files, File(identity, content[..written] + chunk));
      }
      OwnUpdate(t, old(m.files), m.files, partial, File(identity, content[..written] + chunk));
      m.Append(partial, chunk);
      written := written + read;
    }
    assert content[..written] == content;
    return None;
  }

  /** Stages output `k + 1` and renames it into place; the caller records the result. The writes of a
      Slice test the token before each read; the Manifest is written without such a test. From
      `Idle(k)` this can only stop. */
  method StageOutput(m: Machine<SplitResumeData>, t: SplitTask, lib: Library, content: seq<byte>, k: nat, disturbed: bool)
    returns (r: Outcome<(nat, string)>, ghost after: Phase)
    requires InPhase(t, lib, m.files, m.checkpoint, Idle(k)) && !m.cancelled && m.failedAt.None?
    requires content == t.FinalBytes(lib, k + 1) && (k < t.Count() ==> content != [])
    requires k == t.Count() ==> Accepted(t.Manifest(lib), lib)
    modifies m
    ensures InPhase(t, lib, m.files, m.checkpoint, after)
    ensures OnlyOwnChanged(t, old(m.files), m.files)
    ensures FailureIsFinal(m, t) && (m.cancelled ==> disturbed)
    ensures r.Crashed? ==> disturbed
    ensures r.Failed? ==> r.error == CoreError.Cancelled && m.cancelled
    ensures r.Done? ==> after == RenamedUnrecorded(k) && !m.cancelled && m.failedAt.None?
    ensures r.Done? ==> SameRows(old(m.checkpoint), m.checkpoint)
    ensures r.Done? ==> t.FinalName(k + 1) in m.files
    ensures r.Done? ==> r.value == (m.files[t.FinalName(k + 1)].identity, lib.hash(content))
  {
    hide SplitTask.FinalName, SplitTask.PartialName, SplitTask.FinalBytes, SplitTask.Count, SplitTask.Owns;
    hide Accepted, SplitTask.Manifest, InPhase, OnlyOwnChanged, NamesDistinct, OnlyStagingGrew;
    NamesAreDistinct(t);
    IdleFacts(t, lib, m.files, m.checkpoint, k);
    OwnOutputs(t, k + 1);
    NothingChanged(t, m.files);
    after := Idle(k);
    var final, partial := t.FinalName(k + 1), t.PartialName(k + 1);
    var crashed := m.Stops(disturbed);
    if crashed { return Crashed, after; }
    var proposed := SomeIdentity(m.files);
    var created := m.CreateNew(partial, proposed);
    var identity: nat;
    match created {
      case Err(e) => return Failed(e), after;
      case Ok(value) => identity := value;
    }
    CreateStep(t, lib, old(m.files), m.checkpoint, k, identity);
    OwnUpdate(t, old(m.files), old(m.files), partial, File(identity, []));
    after := CreatedUnrecorded(k);

    crashed := m.Stops(disturbed);
    if crashed { return Crashed, after; }
    RecordPartialStep(t, lib, m.files, m.checkpoint, k);
    NothingGrew(t, m.files);
    ghost var recorded := m.Persist(Reduce(m.checkpoint, PartialCreated(PartialCheckpoint(partial, identity))).value, disturbed);
    if recorded { after := Writing(k); }
    ghost var staged := m.files;

    var stopped: Option<Outcome<()>> := WriteStaging(m, t, lib, content, k, identity, disturbed, after);
    OnlyOwnChangedTransitive(t, old(m.files), staged, m.files);
    match stopped {
      case Some(Failed(e)) => return Failed(e), after;
      case Some(_) => return Crashed, after;
      case None =>
    }
    var sha256 := lib.hash(content);

    crashed := m.Stops(disturbed);
    if crashed { return Crashed, after; }
    var stop := m.CheckCancelled(disturbed);
    if stop { return Failed(CoreError.Cancelled), after; }
    RenameStep(t, lib, m.files, m.checkpoint, k);
    WritingFacts(t, lib, m.files, m.checkpoint, k);
    OwnUpdate(t, old(m.files), m.files, partial, m.files[partial]);
    OwnUpdate(t, old(m.files), m.files - {partial}, final, m.files[partial]);
    var finalized := m.FinalizeStaged(lib, partial, final, identity, |content|, sha256);
    match finalized {
      case Err(e) => return Failed(e), after;
      case Ok(_) =>
    }
    after := RenamedUnrecorded(k);
    stop := m.CheckCancelled(disturbed);
    if stop { return Failed(CoreError.Cancelled), after; }
    return Done((identity, sha256)), after;
  }

  lemma NothingGrew(t: SplitTask, files: Files)
    ensures OnlyStagingGrew(t, files, files)
  {
  }

  lemma StagingGrows(t: SplitTask, before: Files, after: Files, file: File)
    requires OnlyStagingGrew(t, before, after)
    requires t.PartialName(t.Count() + 1) in after && after[t.PartialName(t.Count() + 1)].identity == file.identity
    ensures OnlyStagingGrew(t, before, after[t.PartialName(t.Count() + 1) := file])
  {
    hide SplitTask.PartialName, SplitTask.Count;
  }

  // ----- The whole call -----

  ghost predicate SplitState(t: SplitTask, lib: Library, files: Files, stored: Option<SplitResumeData>) {
    InPhase(t, lib, files, stored, PhaseOf(t, files, stored))
  }

  /** Which crash points an uninterrupted resume gets out of. Two windows fail closed: a staging file
      created but not recorded, and one removed with the removal not recorded. Once the Manifest is in
      place it must also be readable again in a clean folder. */
  ghost predicate Resumes(t: SplitTask, lib: Library, files: Files, phase: Phase) {
    match phase
    case CreatedUnrecorded(_) => false
    case ClearedUnrecorded(_) => false
    case Published => t.Readable(lib) && FolderClean(t, files)
    case RenamedUnrecorded(k) =>
      if k == t.Count() then t.Readable(lib) && FolderClean(t, files) else t.Publishable(lib)
    case _ => t.Publishable(lib)
  }

  method CheckLegal(t: SplitTask, lib: Library) returns (refused: Option<CoreError>)
    ensures refused.None? <==> t.Legal(lib)
    ensures refused.Some? ==>
      match refused.value
      case InvalidIdentifier => !lib.isUuid(t.taskId) || !lib.isUuid(t.packageId)
      case InvalidSliceSize => t.sliceSize == 0 || t.sliceSize > 9_007_199_254_740_991
      case UnsafeInteger => |t.source| > 9_007_199_254_740_991
      case SliceLimit => t.Count() > 50_000
      case UnportableName(name) => !PortableFilename(name)
      case _ => false
  {
    hide PortableFilename;
    if !lib.isUuid(t.taskId) || !lib.isUuid(t.packageId) { return Some(InvalidIdentifier); }
    if t.sliceSize == 0 || t.sliceSize > MAX_SAFE_INTEGER { return Some(CoreError.InvalidSliceSize); }
    if !PortableFilename(t.original) { return Some(UnportableName(t.original)); }
    if |t.source| > MAX_SAFE_INTEGER { return Some(CoreError.UnsafeInteger); }
    if t.Count() > MAX_SLICE_COUNT { return Some(CoreError.SliceLimit); }
    if !PortableFilename(t.ManifestName()) { return Some(UnportableName(t.ManifestName())); }
    return None;
  }

  /** A fresh start finds one of the names it checks taken: any output, or a Slice's staging file. */
  ghost predicate NameTaken(t: SplitTask, files: Files) {
    exists i :: 1 <= i <= t.Count() + 1 && (t.FinalName(i) in files || (i <= t.Count() && t.PartialName(i) in files))
  }

  /** The fresh start: a taken name is a collision and nothing changes; otherwise the baseline is
      recorded. */
  method StartFresh(m: Machine<SplitResumeData>, t: SplitTask, lib: Library, disturbed: bool)
    returns (r: Outcome<seq<SliceCheckpoint>>, ghost after: Phase)
    requires m.checkpoint.None? && !m.cancelled && m.failedAt.None?
    requires !NameTaken(t, m.files) ==> InPhase(t, lib, m.files, m.checkpoint, Fresh)
    modifies m
    ensures m.files == old(m.files)
    ensures r.Failed? <==> NameTaken(t, m.files)
    ensures r.Failed? ==> r.error.Collision?
    ensures !r.Done? ==> m.checkpoint == old(m.checkpoint) && !m.cancelled && after == Fresh
    ensures r.Done? ==> r.value == [] && InPhase(t, lib, m.files, m.checkpoint, after)
    ensures r.Done? ==> after == if m.failedAt.None? then Idle(0) else Fresh
    ensures r.Done? && m.failedAt.None? ==> m.checkpoint.Some? && m.checkpoint.value.completed == []
    ensures r.Crashed? ==> disturbed
    ensures m.cancelled == m.failedAt.Some? && (m.cancelled ==> disturbed) && FailureIsFinal(m, t)
  {
    hide SplitTask.FinalName, SplitTask.PartialName, SplitTask.Count, InPhase, OnlyStagingGrew;
    after := Fresh;
    ManifestIsLastOutput(t);
    if t.ManifestName() in m.files { return Failed(Collision(t.ManifestName())), after; }
    for index := 1 to t.Count() + 1
      invariant forall i :: 1 <= i < index ==> t.FinalName(i) !in m.files && t.PartialName(i) !in m.files
    {
      var final, partial := t.FinalName(index), t.PartialName(index);
      if final in m.files { return Failed(Collision(final)), after; }
      if partial in m.files { return Failed(Collision(partial)), after; }
    }
    var crashed := m.Stops(disturbed);
    if crashed { return Crashed, after; }
    BaselineStep(t, lib, m.files, m.checkpoint);
    NothingGrew(t, m.files);
    ghost var recorded := m.Persist(Reduce(m.checkpoint, Baseline(lib.hash(t.source))).value, disturbed);
    if recorded { after := Idle(0); }
    return Done([]), after;
  }

  lemma ManifestIsLastOutput(t: SplitTask)
    ensures t.FinalName(t.Count() + 1) == t.ManifestName()
  {
  }

  datatype Reconciled =
    | Continue(completed: seq<SliceCheckpoint>)
    | Finished
    | Rejected(error: CoreError)
    | Interrupted

  /** What a resume makes of the checkpoint before it writes anything new. */
  ghost predicate ReconcileExpected(t: SplitTask, lib: Library, files: Files, before: Phase, r: Reconciled, after: Phase) {
    match before
    case Fresh => false
    case Idle(k) => r.Continue? && |r.completed| == k && after == Idle(k)
    case CreatedUnrecorded(k) => r.Continue? && |r.completed| == k && after == before
    case Writing(k) => r.Continue? && |r.completed| == k && after == Idle(k)
    case ClearedUnrecorded(k) => r.Rejected? && after == before
    case RenamedUnrecorded(k) =>
      if k < t.Count() then r.Continue? && |r.completed| == k + 1 && after == Idle(k + 1)
      else if t.Readable(lib) && FolderClean(t, files) then r.Finished? && after == Published
      else r.Rejected? && after == before
    case Published =>
      if t.Readable(lib) && FolderClean(t, files) then r.Finished? && after == Published
      else r.Rejected? && after == before
  }

  lemma RenamedFacts(t: SplitTask, lib: Library, files: Files, stored: Option<SplitResumeData>, k: nat)
    requires InPhase(t, lib, files, stored, RenamedUnrecorded(k))
    ensures k <= t.Count() && t.FinalName(k + 1) in files && t.PartialName(k + 1) !in files
    ensures stored.Some? && |stored.value.completed| == k
    ensures stored.value.activePartial
         == Some(PartialCheckpoint(t.PartialName(k + 1), files[t.FinalName(k + 1)].identity))
    ensures files[t.FinalName(k + 1)].bytes == t.FinalBytes(lib, k + 1)
    ensures stored.value.baseline == lib.hash(t.source)
  {
    hide SplitTask.FinalName, SplitTask.PartialName, SplitTask.FinalBytes, SplitTask.Count, SplitTask.Entry;
  }

  /** A Slice that was renamed but not recorded: checked against the source, then recorded. */
  method RecoverSlice(m: Machine<SplitResumeData>, t: SplitTask, lib: Library, resume: SplitResumeData,
                      partial: PartialCheckpoint, disturbed: bool, ghost k: nat)
    returns (r: Reconciled)
    requires t.Legal(lib) && k < t.Count() && !m.cancelled && m.failedAt.None?
    requires InPhase(t, lib, m.files, m.checkpoint, RenamedUnrecorded(k)) && m.checkpoint == Some(resume)
    requires resume.activePartial == Some(partial)
    modifies m`checkpoint, m`cancelled, m`failedAt
    ensures m.files == old(m.files) && FailureIsFinal(m, t) && (m.cancelled ==> disturbed)
    ensures r.Interrupted? || r.Continue? || (r.Rejected? && r.error == CoreError.Cancelled && m.cancelled)
    ensures r.Interrupted? ==> disturbed
    ensures !r.Continue? ==> m.checkpoint == old(m.checkpoint) && m.failedAt.None?
    ensures r.Continue? ==> |r.completed| == k + 1 && m.cancelled == m.failedAt.Some?
    ensures r.Continue? ==>
      InPhase(t, lib, m.files, m.checkpoint, if m.failedAt.None? then Idle(k + 1) else RenamedUnrecorded(k))
    ensures r.Continue? && m.failedAt.None? ==> m.checkpoint.Some? && r.completed == m.checkpoint.value.completed
  {
    hide SplitTask.FinalName, SplitTask.PartialName, SplitTask.Count, SplitTask.SliceBytes, SplitTask.Legal, InPhase;
    hide OnlyStagingGrew;
    RenamedFacts(t, lib, m.files, m.checkpoint, k);
    LegalNumbers(t, lib);
    var next := |resume.completed| + 1;
    var final := t.FinalName(next);
    SliceBytesLength(t, next);
    PlannedRangeIsClosedForm(|t.source|, t.sliceSize, next);
    if m.files[final].identity != partial.identity { return Rejected(ResumeRejected); }
    var range := PlannedSliceRange(|t.source|, t.sliceSize, next);
    var (offset, size) := range.value;
    if |m.files[final].bytes| != size { return Rejected(ResumeRejected); }
    var stop := m.CheckCancelled(disturbed);
    if stop { return Rejected(CoreError.Cancelled); }
    var sha256 := lib.hash(m.files[final].bytes);
    if lib.hash(t.SliceBytes(next)) != sha256 { return Rejected(ResumeRejected); }
    var slice := SliceCheckpoint(SliceEntry(next, final, offset, size, sha256), partial.identity);
    assert slice.entry == t.Entry(lib, next);
    var crashed := m.Stops(disturbed);
    if crashed { return Interrupted; }
    RecordSliceStep(t, lib, m.files, m.checkpoint, k);
    NothingGrew(t, m.files);
    ghost var recorded := m.Persist(Reduce(m.checkpoint, SliceCompleted(slice)).value, disturbed);
    return Continue(resume.completed + [slice]);
  }

  /** A Manifest that was renamed but not recorded ends the run once the whole package verifies,
      whether or not that can be recorded. */
  method RecoverManifest(m: Machine<SplitResumeData>, t: SplitTask, lib: Library, resume: SplitResumeData, disturbed: bool)
    returns (r: Reconciled)
    requires t.Legal(lib) && Faithful(lib, t.Manifest(lib)) && !m.cancelled && m.failedAt.None?
    requires InPhase(t, lib, m.files, m.checkpoint, RenamedUnrecorded(t.Count())) && m.checkpoint == Some(resume)
    modifies m`checkpoint, m`cancelled, m`failedAt
    ensures m.files == old(m.files) && FailureIsFinal(m, t) && (m.cancelled ==> disturbed)
    ensures r.Interrupted? ==> disturbed
    ensures !r.Continue? && (!r.Finished? ==> m.checkpoint == old(m.checkpoint) && m.failedAt.None?)
    ensures r.Rejected? && m.cancelled ==> r.error == CoreError.Cancelled
    ensures r.Finished? ==>
      InPhase(t, lib, m.files, m.checkpoint, if m.failedAt.None? then Published else RenamedUnrecorded(t.Count()))
    ensures r.Finished? ==> t.Readable(lib) && FolderClean(t, m.files) && m.cancelled == m.failedAt.Some?
    ensures !r.Interrupted? && !m.cancelled ==> (r.Finished? <==> t.Readable(lib) && FolderClean(t, m.files))
  {
    hide SplitTask.FinalName, SplitTask.PartialName, SplitTask.Count, SplitTask.SliceBytes, SplitTask.FinalBytes;
    hide InPhase, Faithful, SplitTask.Manifest, AllHold, ManifestRecovers, FolderClean, SplitTask.Readable, OnlyStagingGrew;
    RenamedManifestVerdict(t, lib, m.files, resume, RenamedUnrecorded(t.Count()));
    RenamedFacts(t, lib, m.files, m.checkpoint, t.Count());
    var stream := ValidateCompleted(t, lib, m.files, resume.completed);
    match stream {
      case Err(e) => return Rejected(e);
      case Ok(hash) => if hash != resume.baseline { return Rejected(SourceChanged); }
    }
    var recovered := ValidateRecoveredManifest(t, lib, m.files, resume.baseline, resume.completed);
    match recovered {
      case Err(e) => return Rejected(e);
      case Ok(sha256) =>
        var stop := m.CheckCancelled(disturbed);
        if stop { return Rejected(CoreError.Cancelled); }
        var crashed := m.Stops(disturbed);
        if crashed { return Interrupted; }
        RecordManifestStep(t, lib, m.files, m.checkpoint);
        NothingGrew(t, m.files);
        ghost var recorded := m.Persist(Reduce(m.checkpoint, ManifestPublished(sha256)).value, disturbed);
        return Finished;
    }
  }

  /** The recorded staging file is gone: it must have become the next output. */
  method RecoverRenamed(m: Machine<SplitResumeData>, t: SplitTask, lib: Library, resume: SplitResumeData,
                        partial: PartialCheckpoint, disturbed: bool, ghost before: Phase)
    returns (r: Reconciled, ghost after: Phase)
    requires t.Legal(lib) && Faithful(lib, t.Manifest(lib)) && !m.cancelled && m.failedAt.None?
    requires InPhase(t, lib, m.files, m.checkpoint, before) && m.checkpoint == Some(resume)
    requires resume.activePartial == Some(partial) && partial.filename !in m.files
    modifies m`checkpoint, m`cancelled, m`failedAt
    ensures m.files == old(m.files) && FailureIsFinal(m, t) && (m.cancelled ==> disturbed)
    ensures InPhase(t, lib, m.files, m.checkpoint, after)
    ensures r.Interrupted? ==> disturbed
    ensures !r.Interrupted? && !m.cancelled ==> ReconcileExpected(t, lib, m.files, before, r, after)
    ensures r.Rejected? && m.cancelled ==> r.error == CoreError.Cancelled
    ensures r.Continue? ==> before.RenamedUnrecorded? && |r.completed| == before.k + 1 <= t.Count()
    ensures r.Continue? && !m.cancelled ==> m.checkpoint.Some? && r.completed == m.checkpoint.value.completed
    ensures r.Continue? || r.Finished? ==> m.cancelled == m.failedAt.Some?
    ensures r.Continue? && m.cancelled ==> after == before
    ensures r.Finished? ==> before == RenamedUnrecorded(t.Count()) && t.Readable(lib) && FolderClean(t, m.files)
    ensures r.Finished? ==> after == if m.failedAt.None? then Published else before
    ensures r.Rejected? || before.ClearedUnrecorded? ==> m.checkpoint == old(m.checkpoint)
  {
    hide SplitTask.FinalName, SplitTask.PartialName, SplitTask.Count, SplitTask.SliceBytes, SplitTask.Legal;
    hide InPhase, Faithful, SplitTask.Manifest, FolderClean, SplitTask.Readable, SplitTask.ManifestName, OnlyStagingGrew;
    after := before;
    GoneMeansRenamedOrCleared(t, lib, m.files, m.checkpoint, before);
    ghost var k := before.k;
    var next := |resume.completed| + 1;
    var final := if next <= t.Count() then t.FinalName(next) else t.ManifestName();
    ManifestIsLastOutput(t);
    PartialNameOf(t, next, final);
    if final + "." + t.taskId + ".partial" != partial.filename { return Rejected(ResumeRejected), after; }
    if final !in m.files { return Rejected(Missing(final)), after; }
    CompletedCount(t, lib, m.files, m.checkpoint, before);
    if next <= t.Count() {
      r := RecoverSlice(m, t, lib, resume, partial, disturbed, k);
      after := if r.Continue? && m.failedAt.None? then Idle(k + 1) else before;
    } else {
      RenamedFacts(t, lib, m.files, m.checkpoint, k);
      if m.files[final].identity != partial.identity { return Rejected(ResumeRejected), after; }
      r := RecoverManifest(m, t, lib, resume, disturbed);
      after := if r.Finished? && m.failedAt.None? then Published else before;
    }
  }

  lemma CompletedCount(t: SplitTask, lib: Library, files: Files, stored: Option<SplitResumeData>, phase: Phase)
    requires InPhase(t, lib, files, stored, phase) && !phase.Fresh?
    ensures stored.Some? && |stored.value.completed| == (if phase.Published? then t.Count() else phase.k) <= t.Count()
  {
    hide SplitTask.FinalName, SplitTask.PartialName, SplitTask.FinalBytes, SplitTask.Count, SplitTask.Entry;
  }

  lemma LegalNumbers(t: SplitTask, lib: Library)
    requires t.Legal(lib)
    ensures 1 <= t.sliceSize <= MAX_SAFE_INTEGER && |t.source| <= MAX_SAFE_INTEGER
    ensures t.Count() == ExpectedSliceCount(|t.source|, t.sliceSize) <= MAX_SLICE_COUNT
  {
    hide PortableFilename;
  }

  lemma PartialNameOf(t: SplitTask, index: nat, final: string)
    ensures final == t.FinalName(index) ==> t.PartialName(index) == final + "." + t.taskId + ".partial"
  {
  }

  /** A recorded staging file that no longer exists leaves two phases, told apart by the final file. */
  lemma GoneMeansRenamedOrCleared(t: SplitTask, lib: Library, files: Files, stored: Option<SplitResumeData>, phase: Phase)
    requires InPhase(t, lib, files, stored, phase) && stored.Some?
    requires stored.value.activePartial.Some? && stored.value.activePartial.value.filename !in files
    ensures phase.RenamedUnrecorded? || phase.ClearedUnrecorded?
    ensures phase.k == |stored.value.completed| <= t.Count()
    ensures phase.RenamedUnrecorded? <==> t.FinalName(phase.k + 1) in files
    ensures stored.value.activePartial.value.filename == t.PartialName(phase.k + 1)
  {
    hide SplitTask.FinalName, SplitTask.PartialName, SplitTask.FinalBytes, SplitTask.Count, SplitTask.Entry;
  }

  /** The two verdicts on a Manifest in place, with everything recorded before it. */
  lemma RenamedManifestVerdict(t: SplitTask, lib: Library, files: Files, c: SplitResumeData, phase: Phase)
    requires t.Legal(lib) && Faithful(lib, t.Manifest(lib))
    requires InPhase(t, lib, files, Some(c), phase)
    requires phase == RenamedUnrecorded(t.Count()) || phase == Published
    ensures AllHold(t, lib, files, c.completed, |c.completed|)
    ensures forall i :: 1 <= i <= |c.completed| ==> t.FinalName(i) in files
    ensures lib.hash(FilesJoined(t, files, |c.completed|)) == c.baseline
    ensures ManifestRecovers(t, lib, files, c.baseline, c.completed) <==> t.Readable(lib) && FolderClean(t, files)
    ensures t.ManifestName() in files
    ensures files[t.ManifestName()].bytes == t.FinalBytes(lib, t.Count() + 1)
    ensures phase == Published ==> c.publishedManifest == Some(lib.hash(files[t.ManifestName()].bytes))
  {
    hide SplitTask.FinalName, SplitTask.PartialName, SplitTask.FinalBytes, SplitTask.Entry, SplitTask.Manifest;
    hide AllHold, ManifestRecovers, FolderClean, Faithful, Accepted, SplitTask.Readable;
    LegalNumbers(t, lib);
    ManifestIsLastOutput(t);
    RecordedSlicesHold(t, lib, files, c, t.Count() + 1);
    PublishedManifestRecovers(t, lib, files, c);
  }

  /** A Manifest already recorded as published is accepted again only if everything still verifies. */
  method AcceptPublished(m: Machine<SplitResumeData>, t: SplitTask, lib: Library, resume: SplitResumeData, completed: seq<SliceCheckpoint>)
    returns (r: Reconciled)
    requires t.Legal(lib) && Faithful(lib, t.Manifest(lib))
    requires InPhase(t, lib, m.files, m.checkpoint, Published) && m.checkpoint == Some(resume)
    requires completed == resume.completed
    ensures r.Finished? || r.Rejected?
    ensures r.Finished? <==> t.Readable(lib) && FolderClean(t, m.files)
  {
    hide SplitTask.FinalName, SplitTask.PartialName, SplitTask.Count, SplitTask.SliceBytes, SplitTask.FinalBytes;
    hide InPhase, Faithful, SplitTask.Manifest, AllHold, ManifestRecovers, FolderClean, SplitTask.Readable;
    RenamedManifestVerdict(t, lib, m.files, resume, Published);
    if resume.publishedManifest.None? { return Rejected(Collision(t.ManifestName())); }
    var stream := ValidateCompleted(t, lib, m.files, completed);
    match stream {
      case Err(e) => return Rejected(e);
      case Ok(hash) => if hash != resume.baseline { return Rejected(SourceChanged); }
    }
    var recovered := ValidateRecoveredManifest(t, lib, m.files, resume.baseline, completed);
    match recovered {
      case Err(e) => return Rejected(e);
      case Ok(sha256) =>
        if Some(sha256) != resume.publishedManifest { return Rejected(ResumeRejected); }
        return Finished;
    }
  }

  /** Facts of a phase in which the Manifest is not yet in place and no Slice is unrecorded. */
  lemma RestingFacts(t: SplitTask, lib: Library, files: Files, c: SplitResumeData, phase: Phase)
    requires t.Legal(lib) && InPhase(t, lib, files, Some(c), phase)
    requires phase.Idle? || phase.CreatedUnrecorded?
    ensures c.activePartial.None? && c.baseline == lib.hash(t.source)
    ensures |c.completed| == phase.k <= t.Count()
    ensures t.ManifestName() !in files
    ensures AllHold(t, lib, files, c.completed, |c.completed|)
    ensures forall i :: 1 <= i <= |c.completed| ==> t.FinalName(i) in files
    ensures |c.completed| == t.Count() ==> FilesJoined(t, files, |c.completed|) == t.source
    ensures forall i :: phase.k < i <= t.Count() + 1 ==> t.FinalName(i) !in files
    ensures t.PartialName(phase.k + 1) in files <==> phase.CreatedUnrecorded?
    ensures phase.Idle? ==> forall i :: 1 <= i <= t.Count() + 1 ==> t.PartialName(i) !in files
  {
    hide SplitTask.FinalName, SplitTask.PartialName, SplitTask.FinalBytes, SplitTask.Entry, SplitTask.SliceBytes;
    hide PortableFilename, Accepted, CheckpointHolds;
    ManifestIsLastOutput(t);
    LegalNumbers(t, lib);
    if phase.CreatedUnrecorded? {
      NamesAreDistinct(t);
      var without := files - {t.PartialName(phase.k + 1)};
      RecordedSlicesHold(t, lib, without, c, phase.k);
      SameFilesSameVerdict(t, lib, without, files, c.completed, |c.completed|);
    } else {
      RecordedSlicesHold(t, lib, files, c, phase.k);
    }
  }

  lemma {:induction false} SameFilesSameVerdict(t: SplitTask, lib: Library, a: Files, b: Files, completed: seq<SliceCheckpoint>, count: nat)
    requires AllHold(t, lib, a, completed, count)
    requires forall i :: 1 <= i <= count ==> t.FinalName(i) in a && t.FinalName(i) in b && a[t.FinalName(i)] == b[t.FinalName(i)]
    ensures AllHold(t, lib, b, completed, count)
    ensures FilesJoined(t, a, count) == FilesJoined(t, b, count)
  {
    hide SplitTask.FinalName, SplitTask.SliceBytes;
    if count > 0 {
      SameFilesSameVerdict(t, lib, a, b, completed, count - 1);
    }
    forall i | 0 <= i < count
      ensures CheckpointHolds(t, lib, b, completed[i], i + 1)
    {
      assert CheckpointHolds(t, lib, a, completed[i], i + 1);
      assert t.FinalName(i + 1) in b;
    }
  }

  /** Removes the recorded staging file, which a resume writes again from the start, and records that. */
  method ClearPartial(m: Machine<SplitResumeData>, t: SplitTask, lib: Library, partial: PartialCheckpoint, disturbed: bool, ghost k: nat)
    returns (r: Option<Reconciled>, ghost after: Phase)
    requires InPhase(t, lib, m.files, m.checkpoint, Writing(k)) && !m.cancelled && m.failedAt.None?
    requires m.checkpoint.Some? && m.checkpoint.value.activePartial == Some(partial)
    modifies m
    ensures InPhase(t, lib, m.files, m.checkpoint, after)
    ensures OnlyOwnChanged(t, old(m.files), m.files)
    ensures FailureIsFinal(m, t) && m.cancelled == m.failedAt.Some? && (m.cancelled ==> disturbed)
    ensures r.Some? ==> r.value.Interrupted? && disturbed
    ensures m.checkpoint.Some? && m.checkpoint.value.completed == old(m.checkpoint).value.completed
    ensures r.None? ==> after == if m.failedAt.None? then Idle(k) else ClearedUnrecorded(k)
  {
    hide SplitTask.FinalName, SplitTask.PartialName, SplitTask.Count, SplitTask.SliceBytes, SplitTask.Owns;
    hide InPhase, OnlyOwnChanged, OnlyStagingGrew;
    after := Writing(k);
    NothingChanged(t, m.files);
    var crashed := m.Stops(disturbed);
    if crashed { return Some(Interrupted), after; }
    NamesAreDistinct(t);
    WritingFacts(t, lib, m.files, m.checkpoint, k);
    RemoveStep(t, lib, m.files, m.checkpoint, k);
    OwnOutputs(t, k + 1);
    OwnUpdate(t, m.files, m.files, partial.filename, m.files[partial.filename]);
    var removed := m.RemoveOwned(partial.filename, partial.identity);
    after := ClearedUnrecorded(k);
    crashed := m.Stops(disturbed);
    if crashed { return Some(Interrupted), after; }
    RecordClearedStep(t, lib, m.files, m.checkpoint, k);
    NothingGrew(t, m.files);
    ghost var recorded := m.Persist(Reduce(m.checkpoint, PartialCleared).value, disturbed);
    if recorded { after := Idle(k); }
    return None, after;
  }

  /** What a resume ends with when the token was set on the way. */
  ghost predicate StoppedReconcile(t: SplitTask, r: Reconciled, failed: bool, after: Phase) {
    match r
    case Interrupted => true
    case Rejected(e) => e == CoreError.Cancelled
    case Continue(completed) => failed && completed == [] && after == ClearedUnrecorded(0)
    case Finished => failed && after == RenamedUnrecorded(t.Count())
  }

  /** The resume branch up to the first new output: settle the recorded staging file, accept a
      published Manifest, verify what is recorded. The verification tests the token when there is
      anything to verify. */
  method Reconcile(m: Machine<SplitResumeData>, t: SplitTask, lib: Library, disturbed: bool, ghost before: Phase)
    returns (r: Reconciled, ghost after: Phase)
    requires t.Legal(lib) && Faithful(lib, t.Manifest(lib)) && !m.cancelled && m.failedAt.None?
    requires InPhase(t, lib, m.files, m.checkpoint, before) && m.checkpoint.Some?
    modifies m
    ensures InPhase(t, lib, m.files, m.checkpoint, after)
    ensures OnlyOwnChanged(t, old(m.files), m.files)
    ensures FailureIsFinal(m, t) && (m.cancelled ==> disturbed)
    ensures r.Interrupted? ==> disturbed
    ensures !r.Interrupted? && !m.cancelled ==> ReconcileExpected(t, lib, old(m.files), before, r, after) && m.failedAt.None?
    ensures r.Continue? && !m.cancelled ==> m.checkpoint.Some? && r.completed == m.checkpoint.value.completed
    ensures m.cancelled ==> StoppedReconcile(t, r, m.failedAt.Some?, after)
    ensures r.Finished? ==> t.Readable(lib) && FolderClean(t, old(m.files))
                            && (before.Published? || before == RenamedUnrecorded(t.Count()))
    ensures before.Published? || before == RenamedUnrecorded(t.Count()) ==> m.files == old(m.files) && !r.Continue?
    ensures (r.Rejected? && !m.cancelled) || before.CreatedUnrecorded? || before.ClearedUnrecorded? || before.Published?
      ==> m.files == old(m.files) && m.checkpoint == old(m.checkpoint)
  {
    hide SplitTask.FinalName, SplitTask.PartialName, SplitTask.Count, SplitTask.SliceBytes, SplitTask.Legal, SplitTask.Owns;
    hide InPhase, Faithful, SplitTask.Manifest, FolderClean, SplitTask.Readable, AllHold, OnlyOwnChanged, OnlyStagingGrew;
    after := before;
    var resume := m.checkpoint.value;
    var completed := resume.completed;
    NothingChanged(t, m.files);
    BeforeFacts(t, lib, m.files, resume, before);
    CompletedCount(t, lib, m.files, m.checkpoint, before);
    if resume.baseline != lib.hash(t.source) { return Rejected(ResumeRejected), after; }
    match resume.activePartial {
      case None =>
      case Some(partial) =>
        if partial.filename in m.files {
          var interrupted;
          interrupted, after := ClearPartial(m, t, lib, partial, disturbed, before.k);
          if interrupted.Some? { return Interrupted, after; }
        } else {
          r, after := RecoverRenamed(m, t, lib, resume, partial, disturbed, before);
          if !r.Continue? { return r, after; }
          completed := r.completed;
        }
    }
    CompletedCount(t, lib, m.files, m.checkpoint, after);
    BeforeFacts(t, lib, m.files, m.checkpoint.value, after);
    if m.cancelled { UnrecordedFacts(t, lib, m.files, m.checkpoint.value, after); }
    if t.ManifestName() in m.files {
      r := AcceptPublished(m, t, lib, m.checkpoint.value, completed);
      if r.Finished? {
        var stop := m.CheckCancelled(disturbed);
        if stop { return Rejected(CoreError.Cancelled), after; }
      }
      return r, after;
    }
    if completed != [] {
      var stop := m.CheckCancelled(disturbed);
      if stop { return Rejected(CoreError.Cancelled), after; }
    }
    if m.cancelled {
      NothingToVerify(t, lib, m.files);
    } else {
      RestingFacts(t, lib, m.files, m.checkpoint.value, after);
    }
    var stream := ValidateCompleted(t, lib, m.files, completed);
    match stream {
      case Err(e) => return Rejected(e), after;
      case Ok(hash) =>
        if |completed| == t.Count() && hash != resume.baseline { return Rejected(SourceChanged), after; }
    }
    return Continue(completed), after;
  }

  /** With the last record missing, the Manifest is not in place unless it is what was to be recorded. */
  lemma UnrecordedFacts(t: SplitTask, lib: Library, files: Files, c: SplitResumeData, phase: Phase)
    requires InPhase(t, lib, files, Some(c), phase)
    requires phase.ClearedUnrecorded? || (phase.RenamedUnrecorded? && phase.k < t.Count())
    ensures t.ManifestName() !in files
  {
    hide SplitTask.FinalName, SplitTask.PartialName, SplitTask.FinalBytes, SplitTask.Entry;
    ManifestIsLastOutput(t);
  }

  lemma NothingToVerify(t: SplitTask, lib: Library, files: Files)
    requires t.Legal(lib)
    ensures AllHold(t, lib, files, [], 0) && FilesJoined(t, files, 0) == []
    ensures t.Count() == 0 ==> t.source == []
  {
    hide PortableFilename;
    if t.Count() == 0 { CountIsExactCover(if |t.source| > 0 then |t.source| else 1, t.sliceSize, 0); }
  }

  /** What the reconciling code can see of the phase it starts from. */
  lemma BeforeFacts(t: SplitTask, lib: Library, files: Files, c: SplitResumeData, phase: Phase)
    requires InPhase(t, lib, files, Some(c), phase)
    ensures !phase.Fresh? && c.baseline == lib.hash(t.source)
    ensures c.activePartial.None? <==> phase.Idle? || phase.CreatedUnrecorded? || phase.Published?
    ensures c.activePartial.Some? && c.activePartial.value.filename in files ==> phase.Writing?
    ensures c.activePartial.None? ==> (t.ManifestName() in files <==> phase.Published?)
  {
    hide SplitTask.FinalName, SplitTask.PartialName, SplitTask.FinalBytes, SplitTask.Entry;
    ManifestIsLastOutput(t);
  }

  /** One turn of the Slice loop after its checks: the Slice is staged, renamed and recorded. */
  method WriteSlice(m: Machine<SplitResumeData>, t: SplitTask, lib: Library, index: nat, offset: nat, size: nat, disturbed: bool)
    returns (r: Outcome<SliceCheckpoint>, ghost after: Phase)
    requires t.Legal(lib) && 1 <= index <= t.Count() && !m.cancelled && m.failedAt.None?
    requires InPhase(t, lib, m.files, m.checkpoint, Idle(index - 1)) && m.checkpoint.Some?
    requires offset == PlanOffset(t.sliceSize, index) && size == PlanSize(|t.source|, t.sliceSize, index) && size > 0
    modifies m
    ensures InPhase(t, lib, m.files, m.checkpoint, after)
    ensures OnlyOwnChanged(t, old(m.files), m.files)
    ensures FailureIsFinal(m, t) && (m.cancelled ==> disturbed)
    ensures r.Crashed? ==> disturbed
    ensures r.Failed? ==> r.error == CoreError.Cancelled && m.cancelled
    ensures r.Done? ==> m.cancelled == m.failedAt.Some?
    ensures r.Done? && !m.cancelled ==> after == Idle(index)
    ensures r.Done? && !m.cancelled ==>
      m.checkpoint.Some? && m.checkpoint.value.completed == old(m.checkpoint).value.completed + [r.value]
  {
    hide SplitTask.FinalName, SplitTask.PartialName, SplitTask.Count, SplitTask.SliceBytes, SplitTask.Legal, SplitTask.Owns;
    hide InPhase, SplitTask.Manifest, OnlyOwnChanged, Accepted, OnlyStagingGrew;
    SliceBytesLength(t, index);
    SliceContent(t, lib, index);
    ghost var stored := m.checkpoint.value;
    var staged: Outcome<(nat, string)>;
    staged, after := StageOutput(m, t, lib, t.SliceBytes(index), index - 1, disturbed);
    match staged {
      case Crashed => return Crashed, after;
      case Failed(e) => return Failed(e), after;
      case Done(value) =>
        var (identity, sha256) := value;
        RenamedFacts(t, lib, m.files, m.checkpoint, index - 1);
        var slice := SliceCheckpoint(SliceEntry(index, t.FinalName(index), offset, size, sha256), identity);
        assert slice.entry == t.Entry(lib, index);
        var crashed := m.Stops(disturbed);
        if crashed { return Crashed, after; }
        RecordSliceStep(t, lib, m.files, m.checkpoint, index - 1);
        NothingGrew(t, m.files);
        ghost var recorded := m.Persist(Reduce(m.checkpoint, SliceCompleted(slice)).value, disturbed);
        if recorded { after := Idle(index); }
        return Done(slice), after;
    }
  }

  lemma SliceContent(t: SplitTask, lib: Library, index: nat)
    requires 1 <= index <= t.Count()
    ensures t.FinalBytes(lib, index) == t.SliceBytes(index)
  {
  }

  /** The Slice loop: one output after another until all Slices are recorded. Each turn starts with a
      test of the token. Undisturbed it fails only on a staging file that was created but never
      recorded, and then changes nothing. */
  method WriteSlices(m: Machine<SplitResumeData>, t: SplitTask, lib: Library, completed: seq<SliceCheckpoint>,
                     disturbed: bool, ghost before: Phase)
    returns (r: Outcome<()>, rows: seq<SliceCheckpoint>, ghost after: Phase)
    requires t.Legal(lib) && InPhase(t, lib, m.files, m.checkpoint, before)
    requires m.cancelled == m.failedAt.Some? && FailureIsFinal(m, t) && (m.cancelled ==> disturbed)
    requires m.cancelled ==> completed == []
    requires !m.cancelled ==> (before.Idle? || before.CreatedUnrecorded?) && m.checkpoint.Some? && completed == m.checkpoint.value.completed
    modifies m
    ensures InPhase(t, lib, m.files, m.checkpoint, after)
    ensures OnlyOwnChanged(t, old(m.files), m.files)
    ensures FailureIsFinal(m, t) && (m.cancelled ==> disturbed) && (old(m.cancelled) ==> m.cancelled)
    ensures r.Crashed? ==> disturbed
    ensures r.Failed? && m.cancelled ==> r.error == CoreError.Cancelled
    ensures !r.Crashed? && !m.cancelled ==> (r.Done? <==> before.Idle? || before.k == t.Count())
    ensures r.Done? ==> m.cancelled == m.failedAt.Some?
    ensures r.Done? && !m.cancelled ==> after == if before.Idle? then Idle(t.Count()) else before
    ensures r.Done? && !m.cancelled ==> m.checkpoint.Some? && rows == m.checkpoint.value.completed
    ensures old(m.cancelled) || before.CreatedUnrecorded?
      ==> m.files == old(m.files) && m.checkpoint == old(m.checkpoint) && after == before
  {
    hide SplitTask.FinalName, SplitTask.PartialName, SplitTask.Count, SplitTask.SliceBytes, SplitTask.Legal, SplitTask.Owns;
    hide InPhase, SplitTask.Manifest, OnlyOwnChanged, AllHold, Accepted, OnlyStagingGrew;
    after := before;
    rows := completed;
    NothingChanged(t, m.files);
    LegalNumbers(t, lib);
    if !m.cancelled { CompletedCount(t, lib, m.files, m.checkpoint, before); }
    var index := |completed| + 1;
    while index <= t.Count()
      invariant index <= t.Count() + 1
      invariant InPhase(t, lib, m.files, m.checkpoint, after)
      invariant m.cancelled == m.failedAt.Some? && FailureIsFinal(m, t) && (m.cancelled ==> disturbed)
      invariant old(m.cancelled) ==> m.cancelled
      invariant old(m.cancelled) || before.CreatedUnrecorded? ==>
        m.files == old(m.files) && m.checkpoint == old(m.checkpoint) && after == before
      invariant !m.cancelled ==> m.checkpoint.Some? && rows == m.checkpoint.value.completed && |rows| == index - 1
      invariant !m.cancelled && before.Idle? ==> after == Idle(index - 1)
      invariant !m.cancelled && before.CreatedUnrecorded? ==> index == before.k + 1
      invariant OnlyOwnChanged(t, old(m.files), m.files)
      decreases t.Count() + 1 - index
    {
      var stop := m.CheckCancelled(disturbed);
      if stop { return Failed(CoreError.Cancelled), rows, after; }
      RestingFacts(t, lib, m.files, m.checkpoint.value, after);
      PlannedRangeIsClosedForm(|t.source|, t.sliceSize, index);
      PlanWithinSource(|t.source|, t.sliceSize, index);
      var range := PlannedSliceRange(|t.source|, t.sliceSize, index);
      var (offset, size) := range.value;
      var final, partial := t.FinalName(index), t.PartialName(index);
      if final in m.files { return Failed(Collision(final)), rows, after; }
      if partial in m.files { return Failed(Collision(partial)), rows, after; }
      ghost var reached := m.files;
      var slice: Outcome<SliceCheckpoint>;
      slice, after := WriteSlice(m, t, lib, index, offset, size, disturbed);
      OnlyOwnChangedTransitive(t, old(m.files), reached, m.files);
      match slice {
        case Crashed => return Crashed, rows, after;
        case Failed(e) => return Failed(e), rows, after;
        case Done(value) => rows := rows + [value];
      }
      index := index + 1;
    }
    return Done(()), rows, after;
  }

  /** The end of the run: the published Slices are verified once more, the Manifest is built,
      validated, staged, renamed and recorded. The call succeeds even when that last record fails. */
  method PublishManifest(m: Machine<SplitResumeData>, t: SplitTask, lib: Library, completed: seq<SliceCheckpoint>,
                         disturbed: bool, ghost before: Phase)
    returns (r: Outcome<string>, ghost after: Phase)
    requires t.Legal(lib) && Faithful(lib, t.Manifest(lib)) && InPhase(t, lib, m.files, m.checkpoint, before)
    requires m.cancelled == m.failedAt.Some? && FailureIsFinal(m, t) && (m.cancelled ==> disturbed)
    requires !m.cancelled ==> before == Idle(t.Count()) || before == CreatedUnrecorded(t.Count())
    requires !m.cancelled ==> m.checkpoint.Some? && completed == m.checkpoint.value.completed
    modifies m
    ensures InPhase(t, lib, m.files, m.checkpoint, after)
    ensures OnlyOwnChanged(t, old(m.files), m.files)
    ensures FailureIsFinal(m, t) && (m.cancelled ==> disturbed)
    ensures r.Crashed? ==> disturbed
    ensures r.Failed? && m.cancelled ==> r.error == CoreError.Cancelled
    ensures !r.Crashed? && !m.cancelled ==> (r.Done? <==> before.Idle? && t.Publishable(lib))
    ensures r.Done? ==> !old(m.cancelled) && before.Idle? && t.Publishable(lib) && r.value == t.ManifestName()
    ensures r.Done? ==> m.cancelled == m.failedAt.Some?
    ensures r.Done? ==> after == if m.failedAt.None? then Published else RenamedUnrecorded(t.Count())
    ensures old(m.cancelled) ==> m.cancelled && r.Failed? && after == before
    ensures (r.Failed? && !m.cancelled) || old(m.cancelled) || before.CreatedUnrecorded?
      ==> m.files == old(m.files) && m.checkpoint == old(m.checkpoint)
  {
    hide SplitTask.FinalName, SplitTask.PartialName, SplitTask.Count, SplitTask.SliceBytes, SplitTask.Legal, SplitTask.Owns;
    hide InPhase, OnlyOwnChanged, AllHold, Accepted, SplitTask.Publishable, HashShape, ManifestBytes, OnlyStagingGrew;
    after := before;
    NothingChanged(t, m.files);
    var stop := m.CheckCancelled(disturbed);
    if stop { return Failed(CoreError.Cancelled), after; }
    CompletedCount(t, lib, m.files, m.checkpoint, before);
    RestingFacts(t, lib, m.files, m.checkpoint.value, before);
    CompletedRows(t, lib, m.files, m.checkpoint.value, before);
    BuiltManifestAccepted(t, lib);
    var stream := ValidateCompleted(t, lib, m.files, completed);
    match stream {
      case Err(e) => return Failed(SourceChanged), after;
      case Ok(hash) => if hash != lib.hash(t.source) { return Failed(SourceChanged), after; }
    }
    var manifest := CakeManifest(FORMAT_IDENTIFIER, FORMAT_VERSION, t.packageId, t.createdAt,
                                 OriginalFile(t.original, |t.source|, lib.hash(t.source)), t.sliceSize, t.Count(),
                                 RowsOf(completed));
    assert manifest == t.Manifest(lib);
    var verdict := Validate(manifest, lib);
    if verdict.Err? { return Failed(InvalidManifest), after; }
    ManifestIsLastOutput(t);
    if t.PartialName(t.Count() + 1) in m.files { return Failed(Collision(t.PartialName(t.Count() + 1))), after; }
    ManifestContent(t, lib);
    var staged: Outcome<(nat, string)>;
    staged, after := StageOutput(m, t, lib, ManifestBytes(manifest), t.Count(), disturbed);
    match staged {
      case Crashed => return Crashed, after;
      case Failed(e) => return Failed(e), after;
      case Done(value) =>
        RenamedFacts(t, lib, m.files, m.checkpoint, t.Count());
        var crashed := m.Stops(disturbed);
        if crashed { return Crashed, after; }
        RecordManifestStep(t, lib, m.files, m.checkpoint);
        NothingGrew(t, m.files);
        ghost var recorded := m.Persist(Reduce(m.checkpoint, ManifestPublished(value.1)).value, disturbed);
        if recorded { after := Published; }
        return Done(t.ManifestName()), after;
    }
  }

  lemma ManifestContent(t: SplitTask, lib: Library)
    ensures t.FinalBytes(lib, t.Count() + 1) == ManifestBytes(t.Manifest(lib))
  {
  }

  lemma CompletedRows(t: SplitTask, lib: Library, files: Files, c: SplitResumeData, phase: Phase)
    requires InPhase(t, lib, files, Some(c), phase)
    requires phase == Idle(t.Count()) || phase == CreatedUnrecorded(t.Count())
    ensures RowsOf(c.completed) == t.Entries(lib, t.Count())
  {
    hide SplitTask.FinalName, SplitTask.PartialName, SplitTask.FinalBytes, SplitTask.Entry;
    forall i | 0 <= i < t.Count()
      ensures RowsOf(c.completed)[i] == t.Entries(lib, t.Count())[i]
    {
      assert c.completed[i].entry == t.Entry(lib, i + 1);
    }
  }

  /** A call can make progress only when it resumes, or starts with all its names free. */
  ghost predicate Startable(t: SplitTask, files: Files, stored: Option<SplitResumeData>) {
    stored.None? ==> !NameTaken(t, files)
  }

  /** `split_file_resumable_with_progress`. From every state the protocol can reach, and however the
      call is disturbed (the process stops, the user cancels, checkpoint writes fail), the protocol
      state is kept and no foreign file is touched. A call that is not stopped and whose token stays
      clear publishes the Manifest exactly from the phases `Resumes` names; in the two windows it
      fails closed, and there as after publication it changes nothing. A checkpoint write that fails
      ends the call as a crash at that point would, except that the Manifest's staging file may still
      be filled, and that after the last event the call succeeds with the Manifest in place and
      unrecorded. */
  method Split(m: Machine<SplitResumeData>, t: SplitTask, lib: Library, disturbed: bool) returns (r: Outcome<string>)
    requires Faithful(lib, t.Manifest(lib))
    requires Startable(t, m.files, m.checkpoint) ==> SplitState(t, lib, m.files, m.checkpoint)
    modifies m
    ensures Startable(t, old(m.files), old(m.checkpoint)) ==> SplitState(t, lib, m.files, m.checkpoint)
    ensures OnlyOwnChanged(t, old(m.files), m.files)
    ensures r.Crashed? || m.cancelled ==> disturbed
    ensures r.Done? ==> r.value == t.ManifestName()
    ensures r.Done? ==> PhaseOf(t, m.files, m.checkpoint) == if m.failedAt.None? then Published else RenamedUnrecorded(t.Count())
    ensures r.Done? ==> t.ManifestName() in m.files && SaysThePlan(t, lib, m.files[t.ManifestName()].bytes)
    ensures r.Done? ==> Startable(t, old(m.files), old(m.checkpoint)) && t.Legal(lib)
                        && Resumes(t, lib, old(m.files), PhaseOf(t, old(m.files), old(m.checkpoint)))
    ensures !r.Crashed? && !m.cancelled ==>
      (r.Done? <==> Startable(t, old(m.files), old(m.checkpoint)) && t.Legal(lib)
                    && Resumes(t, lib, old(m.files), PhaseOf(t, old(m.files), old(m.checkpoint))))
    ensures FailureIsFinal(m, t)
    ensures m.failedAt.Some? ==> r.Crashed? || r.Done? || r == Failed(CoreError.Cancelled)
    ensures !t.Legal(lib) || !Startable(t, old(m.files), old(m.checkpoint))
      || PhaseOf(t, old(m.files), old(m.checkpoint)).CreatedUnrecorded?
      || PhaseOf(t, old(m.files), old(m.checkpoint)).ClearedUnrecorded?
      || PhaseOf(t, old(m.files), old(m.checkpoint)).Published?
      ==> m.files == old(m.files) && m.checkpoint == old(m.checkpoint)
    ensures PhaseOf(t, old(m.files), old(m.checkpoint)) == RenamedUnrecorded(t.Count()) ==> m.files == old(m.files)
  {
    hide SplitTask.FinalName, SplitTask.PartialName, SplitTask.Count, SplitTask.SliceBytes, SplitTask.Legal, SplitTask.Owns;
    hide InPhase, OnlyOwnChanged, SplitTask.Publishable, SplitTask.Readable, FolderClean, Faithful, SplitTask.Manifest, PhaseOf;
    hide NameTaken, OnlyStagingGrew, SaysThePlan;
    ghost var before := PhaseOf(t, m.files, m.checkpoint);
    ghost var after := before;
    m.Begin();
    NothingChanged(t, m.files);
    var refused := CheckLegal(t, lib);
    match refused {
      case Some(e) => return Failed(e);
      case None =>
    }
    var stop := m.CheckCancelled(disturbed);
    if stop { return Failed(CoreError.Cancelled); }
    var completed: seq<SliceCheckpoint>;
    if m.checkpoint.None? {
      NoCheckpointIsFresh(t, m.files, m.checkpoint);
      var started;
      started, after := StartFresh(m, t, lib, disturbed);
      match started {
        case Crashed => return Crashed;
        case Failed(e) => return Failed(e);
        case Done(nothing) => completed := nothing;
      }
    } else {
      var reconciled;
      OnlyFreshHasNoCheckpoint(t, lib, m.files, m.checkpoint, before);
      CompletedCount(t, lib, m.files, m.checkpoint, before);
      reconciled, after := Reconcile(m, t, lib, disturbed, before);
      PhaseIsObservable(t, lib, m.files, m.checkpoint, after);
      match reconciled {
        case Interrupted => return Crashed;
        case Rejected(e) => return Failed(e);
        case Finished =>
          InPlaceSaysThePlan(t, lib, m.files, m.checkpoint, after);
          return Done(t.ManifestName());
        case Continue(rows) => completed := rows;
      }
    }
    PhaseIsObservable(t, lib, m.files, m.checkpoint, after);
    ManifestStillAbsent(t, lib, m.files, m.checkpoint, after);
    if t.ManifestName() in m.files { return Failed(Collision(t.ManifestName())); }
    ghost var reached := m.files;
    var written;
    written, completed, after := WriteSlices(m, t, lib, completed, disturbed, after);
    PhaseIsObservable(t, lib, m.files, m.checkpoint, after);
    OnlyOwnChangedTransitive(t, old(m.files), reached, m.files);
    match written {
      case Crashed => return Crashed;
      case Failed(e) => return Failed(e);
      case Done(_) =>
    }
    reached := m.files;
    r, after := PublishManifest(m, t, lib, completed, disturbed, after);
    PhaseIsObservable(t, lib, m.files, m.checkpoint, after);
    if r.Done? { InPlaceSaysThePlan(t, lib, m.files, m.checkpoint, after); }
    OnlyOwnChangedTransitive(t, old(m.files), reached, m.files);
  }

  lemma InPlaceSaysThePlan(t: SplitTask, lib: Library, files: Files, stored: Option<SplitResumeData>, phase: Phase)
    requires t.Legal(lib) && Faithful(lib, t.Manifest(lib)) && InPhase(t, lib, files, stored, phase)
    requires phase == Published || phase == RenamedUnrecorded(t.Count())
    ensures t.ManifestName() in files && SaysThePlan(t, lib, files[t.ManifestName()].bytes)
  {
    InPlaceMeansPublished(t, lib, files, stored, phase);
    ReachableStatesAreSafe(t, lib, files, stored, phase);
    hide InPhase, SaysThePlan, Faithful, Accepted, SplitTask.Manifest;
    WrittenSaysThePlan(t, lib);
  }

  lemma NoCheckpointIsFresh(t: SplitTask, files: Files, stored: Option<SplitResumeData>)
    requires stored.None?
    ensures PhaseOf(t, files, stored) == Fresh
  {
  }

  lemma ManifestStillAbsent(t: SplitTask, lib: Library, files: Files, stored: Option<SplitResumeData>, phase: Phase)
    requires InPhase(t, lib, files, stored, phase)
    requires phase.Fresh? || phase.Idle? || phase.CreatedUnrecorded? || phase.ClearedUnrecorded?
    ensures t.ManifestName() !in files
  {
    hide SplitTask.FinalName, SplitTask.PartialName, SplitTask.FinalBytes, SplitTask.Entry;
    ManifestIsLastOutput(t);
  }

  lemma OnlyFreshHasNoCheckpoint(t: SplitTask, lib: Library, files: Files, stored: Option<SplitResumeData>, phase: Phase)
    requires InPhase(t, lib, files, stored, phase)
    ensures stored.None? <==> phase.Fresh?
  {
    hide SplitTask.FinalName, SplitTask.PartialName, SplitTask.FinalBytes, SplitTask.Entry;
  }

  // ----- Whole runs -----

  /** What holds at every instant of every run: the recorded Slices are the planned prefix and their
      files hold exactly their source ranges; a Manifest in place means that every Slice is in place,
      that the Manifest is the accepted one of this task, and that the Slices join to the source. */
  ghost predicate Safe(t: SplitTask, lib: Library, files: Files, stored: Option<SplitResumeData>) {
    && (stored.Some? ==>
          && |stored.value.completed| <= t.Count()
          && forall i :: 1 <= i <= |stored.value.completed| ==>
               && stored.value.completed[i - 1].entry == t.Entry(lib, i)
               && t.FinalName(i) in files
               && files[t.FinalName(i)].identity == stored.value.completed[i - 1].identity
               && files[t.FinalName(i)].bytes == t.SliceBytes(i))
    && (t.ManifestName() in files ==>
          && (forall i :: 1 <= i <= t.Count() ==> t.FinalName(i) in files)
          && FilesJoined(t, files, t.Count()) == t.source
          && files[t.ManifestName()].bytes == ManifestBytes(t.Manifest(lib))
          && Accepted(t.Manifest(lib), lib))
  }

  lemma ReachableStatesAreSafe(t: SplitTask, lib: Library, files: Files, stored: Option<SplitResumeData>, phase: Phase)
    requires t.Legal(lib) && InPhase(t, lib, files, stored, phase)
    ensures Safe(t, lib, files, stored)
  {
    hide SplitTask.FinalName, SplitTask.PartialName, SplitTask.Entry, SplitTask.SliceBytes, Accepted, SplitTask.Manifest, ManifestBytes;
    hide SplitTask.ManifestName;
    ManifestIsLastOutput(t);
    LegalNumbers(t, lib);
    if t.ManifestName() in files {
      FilesJoinedAreSlices(t, lib, files, t.Count() + 1, t.Count());
      SlicesJoinToPrefix(t, t.Count());
    }
  }

  /** Any number of calls, each disturbed in any way or run to its end, starting from nothing: every
      resting point is safe, foreign files are untouched, and once a call has succeeded the Manifest
      stays in place with every Slice. */
  method AnyRun(m: Machine<SplitResumeData>, t: SplitTask, lib: Library, calls: nat) returns (published: bool)
    requires t.Legal(lib) && Faithful(lib, t.Manifest(lib))
    requires m.checkpoint.None? && forall name :: name in m.files ==> !t.Owns(name)
    modifies m
    ensures SplitState(t, lib, m.files, m.checkpoint) && Safe(t, lib, m.files, m.checkpoint)
    ensures OnlyOwnChanged(t, old(m.files), m.files)
    ensures published ==> t.ManifestName() in m.files && SaysThePlan(t, lib, m.files[t.ManifestName()].bytes)
    ensures published ==> PhaseOf(t, m.files, m.checkpoint) in {Published, RenamedUnrecorded(t.Count())}
  {
    hide SplitTask.Owns, SplitTask.Legal, Faithful, SplitTask.Manifest, Safe, OnlyOwnChanged, Resumes, SplitTask.Count;
    hide InPhase, PhaseOf, FailureIsFinal, NameTaken, SaysThePlan;
    EmptyFolderIsFresh(t, lib, m.files);
    PhaseIsObservable(t, lib, m.files, m.checkpoint, Fresh);
    NothingChanged(t, m.files);
    published := false;
    for call := 0 to calls
      invariant SplitState(t, lib, m.files, m.checkpoint)
      invariant OnlyOwnChanged(t, old(m.files), m.files)
      invariant published ==> PhaseOf(t, m.files, m.checkpoint) in {Published, RenamedUnrecorded(t.Count())}
    {
      ghost var reached, phase := m.files, PhaseOf(t, m.files, m.checkpoint);
      var disturbed := *;
      StateIsStartable(t, lib, m.files, m.checkpoint);
      InPlaceMeansPublished(t, lib, m.files, m.checkpoint, phase);
      var outcome := Split(m, t, lib, disturbed);
      if published {
        InPlaceMeansPublished(t, lib, m.files, m.checkpoint, PhaseOf(t, m.files, m.checkpoint));
      }
      published := published || outcome.Done?;
      OnlyOwnChangedTransitive(t, old(m.files), reached, m.files);
    }
    ReachableStatesAreSafe(t, lib, m.files, m.checkpoint, PhaseOf(t, m.files, m.checkpoint));
    if published { InPlaceSaysThePlan(t, lib, m.files, m.checkpoint, PhaseOf(t, m.files, m.checkpoint)); }
  }

  lemma StateIsStartable(t: SplitTask, lib: Library, files: Files, stored: Option<SplitResumeData>)
    requires SplitState(t, lib, files, stored)
    ensures Startable(t, files, stored)
  {
    hide SplitTask.FinalName, SplitTask.PartialName, SplitTask.FinalBytes, SplitTask.Count;
  }

  /** The Manifest is in place in exactly two phases. */
  lemma InPlaceMeansPublished(t: SplitTask, lib: Library, files: Files, stored: Option<SplitResumeData>, phase: Phase)
    requires InPhase(t, lib, files, stored, phase)
    ensures t.ManifestName() in files <==> phase == Published || phase == RenamedUnrecorded(t.Count())
  {
    hide SplitTask.FinalName, SplitTask.PartialName, SplitTask.FinalBytes, SplitTask.Entry, SplitTask.Count;
    ManifestIsLastOutput(t);
  }

  lemma EmptyFolderIsFresh(t: SplitTask, lib: Library, files: Files)
    requires forall name :: name in files ==> !t.Owns(name)
    ensures InPhase(t, lib, files, None, Fresh)
  {
    hide SplitTask.FinalName, SplitTask.PartialName, SplitTask.FinalBytes, SplitTask.Owns;
    forall i | 1 <= i <= t.Count() + 1
      ensures t.FinalName(i) !in files && t.PartialName(i) !in files
    {
      OwnOutputs(t, i);
    }
  }

  /** What is published does not depend on where earlier calls stopped: any two published states of
      one task hold the same bytes, Manifest included. */
  lemma PublishedContentIsUnique(t: SplitTask, lib: Library, a: Files, sa: Option<SplitResumeData>, b: Files, sb: Option<SplitResumeData>)
    requires InPhase(t, lib, a, sa, Published) && InPhase(t, lib, b, sb, Published)
    ensures forall i :: 1 <= i <= t.Count() + 1 ==>
      t.FinalName(i) in a && t.FinalName(i) in b && a[t.FinalName(i)].bytes == b[t.FinalName(i)].bytes
  {
    hide SplitTask.FinalName, SplitTask.PartialName, SplitTask.FinalBytes;
  }

  /** Both fail-closed windows are one crash away from a healthy state: a call that stops right after
      creating, or right after removing, a staging file leaves a state no later call gets out of. */
  lemma WindowsAreReachable(t: SplitTask, lib: Library, files: Files, stored: Option<SplitResumeData>, k: nat, identity: nat)
    requires NamesDistinct(t)
    ensures InPhase(t, lib, files, stored, Idle(k))
      ==> var next := files[t.PartialName(k + 1) := File(identity, [])];
          SplitState(t, lib, next, stored) && !Resumes(t, lib, next, PhaseOf(t, next, stored))
    ensures InPhase(t, lib, files, stored, Writing(k))
      ==> var next := files - {t.PartialName(k + 1)};
          SplitState(t, lib, next, stored) && !Resumes(t, lib, next, PhaseOf(t, next, stored))
  {
    hide SplitTask.FinalName, SplitTask.PartialName, SplitTask.FinalBytes, InPhase, NamesDistinct, PhaseOf;
    if InPhase(t, lib, files, stored, Idle(k)) {
      var next := files[t.PartialName(k + 1) := File(identity, [])];
      CreateStep(t, lib, files, stored, k, identity);
      PhaseIsObservable(t, lib, next, stored, CreatedUnrecorded(k));
    }
    if InPhase(t, lib, files, stored, Writing(k)) {
      var next := files - {t.PartialName(k + 1)};
      RemoveStep(t, lib, files, stored, k);
      PhaseIsObservable(t, lib, next, stored, ClearedUnrecorded(k));
    }
  }

  /** When the record of the Manifest's staging file fails, the call still writes all of it: a whole
      Manifest in an unrecorded staging file is a reachable state, and no later call gets out of it. */
  lemma FailedRecordLeavesTheManifest(t: SplitTask, lib: Library, files: Files, stored: Option<SplitResumeData>, identity: nat)
    requires InPhase(t, lib, files, stored, Idle(t.Count())) && NamesDistinct(t)
    ensures var next := files[t.PartialName(t.Count() + 1) := File(identity, ManifestBytes(t.Manifest(lib)))];
            && SplitState(t, lib, next, stored) && PhaseOf(t, next, stored) == CreatedUnrecorded(t.Count())
            && !Resumes(t, lib, next, PhaseOf(t, next, stored))
  {
    hide SplitTask.FinalName, SplitTask.PartialName, SplitTask.FinalBytes, InPhase, NamesDistinct, PhaseOf, SplitTask.Count;
    hide SplitTask.Manifest, ManifestBytes, Accepted, ReadableManifest, SplitTask.Readable;
    var name, content := t.PartialName(t.Count() + 1), ManifestBytes(t.Manifest(lib));
    ManifestContentWhole(t, lib);
    var empty := files[name := File(identity, [])];
    CreateStep(t, lib, files, stored, t.Count(), identity);
    UnrecordedWriteStep(t, lib, empty, stored, content);
    var next := files[name := File(identity, content)];
    assert empty[name := File(identity, content)] == next;
    PhaseIsObservable(t, lib, next, stored, CreatedUnrecorded(t.Count()));
  }

  lemma ManifestContentWhole(t: SplitTask, lib: Library)
    ensures var content := ManifestBytes(t.Manifest(lib));
            [] + content == content && IsPrefix(content, t.FinalBytes(lib, t.Count() + 1))
  {
    hide SplitTask.Manifest, ManifestBytes;
    ManifestContent(t, lib);
  }

  /** With any writer at work on the folder: if the hash does not collide on the files and source
      ranges compared, an accepted checkpoint means that the files join to exactly the source prefix. */
  lemma AcceptedCheckpointMeansSourceBytes(t: SplitTask, lib: Library, files: Files, completed: seq<SliceCheckpoint>)
    requires t.Legal(lib) && AllHold(t, lib, files, completed, |completed|)
    requires forall i :: 1 <= i <= |completed| && t.FinalName(i) in files
               && lib.hash(files[t.FinalName(i)].bytes) == lib.hash(t.SliceBytes(i))
               ==> files[t.FinalName(i)].bytes == t.SliceBytes(i)
    ensures forall i :: 1 <= i <= |completed| ==> t.FinalName(i) in files
    ensures FilesJoined(t, files, |completed|) == SlicesJoined(t, |completed|)
    ensures |completed| == t.Count() ==> FilesJoined(t, files, |completed|) == t.source
  {
    hide SplitTask.FinalName, SplitTask.SliceBytes;
    LegalNumbers(t, lib);
    if |completed| == t.Count() {
      SlicesJoinToPrefix(t, t.Count());
    }
    EqualFilesJoin(t, lib, files, completed, |completed|);
  }

  lemma {:induction false} EqualFilesJoin(t: SplitTask, lib: Library, files: Files, completed: seq<SliceCheckpoint>, count: nat)
    requires AllHold(t, lib, files, completed, count)
    requires forall i :: 1 <= i <= count && t.FinalName(i) in files
               && lib.hash(files[t.FinalName(i)].bytes) == lib.hash(t.SliceBytes(i))
               ==> files[t.FinalName(i)].bytes == t.SliceBytes(i)
    ensures forall i :: 1 <= i <= count ==> t.FinalName(i) in files
    ensures FilesJoined(t, files, count) == SlicesJoined(t, count)
  {
    hide SplitTask.FinalName, SplitTask.SliceBytes;
    if count > 0 {
      EqualFilesJoin(t, lib, files, completed, count - 1);
      assert CheckpointHolds(t, lib, files, completed[count - 1], count);
    }
  }
}
