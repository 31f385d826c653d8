/** The resumable Merge as a crash-step protocol: one staging file grows Slice by Slice, a durable
    checkpoint follows it, and a rename publishes it. */
module ResumableMerge {
  import opened Wrappers
  import opened SliceArithmetic
  import opened SliceNames
  import opened Manifest
  import opened Disk
  import opened Package

  const BUFFER_SIZE: nat := 1024 * 1024

  datatype MergeResumeData = MergeResumeData(
    filename: string, identity: nat, completedSlices: nat, completedBytes: nat, published: Option<string>)

  datatype MergeEvent =
    | PartialCreated(filename: string, identity: nat)
    | SliceBoundary(slices: nat, bytes: nat)
    | Published(sha256: string)

  /** `update_merge_checkpoint`: only the creation of the staging file may arrive without a checkpoint. */
  function Reduce(stored: Option<MergeResumeData>, event: MergeEvent): Option<MergeResumeData> {
    match event
    case PartialCreated(filename, identity) => Some(MergeResumeData(filename, identity, 0, 0, None))
    case SliceBoundary(slices, bytes) =>
      if stored.None? then None else Some(stored.value.(completedSlices := slices, completedBytes := bytes))
    case Published(sha256) =>
      if stored.None? then None else Some(stored.value.(published := Some(sha256)))
  }

  /** One Merge task: the folder that holds the package, which no writer changes, and the output name. */
  datatype MergeTask = MergeTask(package: Files, manifestName: string, output: string, taskId: string) {
    function Partial(): string {
      output + "." + taskId + ".partial"
    }

    function Loaded(lib: Library): Option<CakeManifest> {
      if manifestName in package then ReadableManifest(package[manifestName].bytes, lib) else None
    }

    /** The package can be read and every Slice in it verifies. */
    ghost predicate Usable(lib: Library) {
      && lib.isUuid(taskId) && PortableFilename(output)
      && Loaded(lib).Some? && PackageVerifies(package, lib, Loaded(lib).value)
    }

    /** The Slices together have the hash the Manifest gives for the original. */
    ghost predicate Consistent(lib: Library, m: CakeManifest)
      requires PackageVerifies(package, lib, m)
    {
      lib.hash(Joined(lib, m, |m.slices|)) == m.original.sha256
    }

    /** The first `count` Slices, one after another. */
    ghost function Joined(lib: Library, m: CakeManifest, count: nat): seq<byte>
      requires PackageVerifies(package, lib, m) && count <= |m.slices|
    {
      if count == 0 then []
      else
        assert SlicePresent(package, lib, m.slices[count - 1]);
        Joined(lib, m, count - 1) + package[m.slices[count - 1].filename].bytes
    }
  }

  datatype Phase =
    | Fresh
    | CreatedUnrecorded
    | Writing(k: nat)
    | Renamed

  ghost predicate IsPrefix(a: seq<byte>, b: seq<byte>) {
    |a| <= |b| && a == b[..|a|]
  }

  /** `k` Slices are recorded and the staging file holds exactly them, possibly followed by the
      beginning of what comes next. */
  ghost predicate InPhase(t: MergeTask, lib: Library, m: CakeManifest, files: Files, stored: Option<MergeResumeData>, phase: Phase)
    requires PackageVerifies(t.package, lib, m)
  {
    match phase
    case Fresh => stored.None? && t.output !in files && t.Partial() !in files
    case CreatedUnrecorded =>
      stored.None? && t.output !in files && t.Partial() in files && files[t.Partial()].bytes == []
    case Writing(k) =>
      && k <= |m.slices| && t.output !in files && t.Partial() in files
      && stored == Some(MergeResumeData(t.Partial(), files[t.Partial()].identity, k, |t.Joined(lib, m, k)|, None))
      && IsPrefix(t.Joined(lib, m, k), files[t.Partial()].bytes)
      && IsPrefix(files[t.Partial()].bytes, t.Joined(lib, m, |m.slices|))
    case Renamed =>
      && t.output in files && t.Partial() !in files
      && stored.Some?
      && (stored.value.published.None? || stored.value.published == Some(m.original.sha256))
      && stored.value == MergeResumeData(t.Partial(), files[t.output].identity, |m.slices|,
                                         |t.Joined(lib, m, |m.slices|)|, stored.value.published)
      && files[t.output].bytes == t.Joined(lib, m, |m.slices|)
      && t.Consistent(lib, m)
  }

  ghost function PhaseOf(t: MergeTask, files: Files, stored: Option<MergeResumeData>): Phase {
    if t.output in files then Renamed
    else if stored.Some? then Writing(stored.value.completedSlices)
    else if t.Partial() in files then CreatedUnrecorded
    else Fresh
  }

  lemma PhaseIsObservable(t: MergeTask, lib: Library, m: CakeManifest, files: Files, stored: Option<MergeResumeData>, phase: Phase)
    requires PackageVerifies(t.package, lib, m) && InPhase(t, lib, m, files, stored, phase)
    ensures PhaseOf(t, files, stored) == phase
  {
  }

  lemma OutputIsNotPartial(t: MergeTask)
    ensures t.output != t.Partial()
  {
    assert |t.Partial()| > |t.output|;
  }

  // ----- Sizes -----

  lemma {:induction false} JoinedExtends(t: MergeTask, lib: Library, m: CakeManifest, i: nat, j: nat)
    requires PackageVerifies(t.package, lib, m) && i <= j <= |m.slices|
    ensures IsPrefix(t.Joined(lib, m, i), t.Joined(lib, m, j))
  {
    if i < j {
      JoinedExtends(t, lib, m, i, j - 1);
    }
  }

  /** The joined Slices end where the next row of the table starts. */
  lemma {:induction false} JoinedLength(t: MergeTask, lib: Library, m: CakeManifest, count: nat)
    requires PackageVerifies(t.package, lib, m) && Accepted(m, lib) && count <= |m.slices|
    ensures |t.Joined(lib, m, count)| == NextOffset(m, count)
    ensures count == |m.slices| ==> |t.Joined(lib, m, count)| == m.original.size
  {
    hide PortableFilename, HashShape, SliceFilename, SliceIndexWidth, ExpectedSliceCount, Enumerable, IsSliceName;
    if count == 0 {
      NextOffsetStartsAtZero(m);
      ZeroRowsMeansEmpty(m, lib);
    } else {
      JoinedLength(t, lib, m, count - 1);
      NextOffsetAdvances(m, count - 1);
      assert RowPlanned(m, count - 1);
      assert SlicePresent(t.package, lib, m.slices[count - 1]);
    }
  }

  lemma ZeroRowsMeansEmpty(m: CakeManifest, lib: Library)
    requires Accepted(m, lib)
    ensures m.sliceCount == 0 ==> m.original.size == 0
  {
    hide PortableFilename, HashShape, SliceFilename, SliceIndexWidth;
  }

  lemma CreateStep(t: MergeTask, lib: Library, m: CakeManifest, files: Files, stored: Option<MergeResumeData>, identity: nat)
    requires PackageVerifies(t.package, lib, m) && InPhase(t, lib, m, files, stored, Fresh)
    ensures InPhase(t, lib, m, files[t.Partial() := File(identity, [])], stored, CreatedUnrecorded)
  {
    OutputIsNotPartial(t);
  }

  lemma RecordPartialStep(t: MergeTask, lib: Library, m: CakeManifest, files: Files, stored: Option<MergeResumeData>)
    requires PackageVerifies(t.package, lib, m) && InPhase(t, lib, m, files, stored, CreatedUnrecorded)
    ensures InPhase(t, lib, m, files, Reduce(stored, PartialCreated(t.Partial(), files[t.Partial()].identity)), Writing(0))
  {
  }

  lemma WriteStep(t: MergeTask, lib: Library, m: CakeManifest, files: Files, stored: Option<MergeResumeData>, k: nat, chunk: seq<byte>)
    requires PackageVerifies(t.package, lib, m) && InPhase(t, lib, m, files, stored, Writing(k))
    requires IsPrefix(files[t.Partial()].bytes + chunk, t.Joined(lib, m, |m.slices|))
    ensures InPhase(t, lib, m, files[t.Partial() := File(files[t.Partial()].identity, files[t.Partial()].bytes + chunk)],
                    stored, Writing(k))
  {
    OutputIsNotPartial(t);
  }

  lemma TruncateStep(t: MergeTask, lib: Library, m: CakeManifest, files: Files, stored: Option<MergeResumeData>, k: nat)
    requires PackageVerifies(t.package, lib, m) && InPhase(t, lib, m, files, stored, Writing(k))
    ensures stored.value.completedBytes <= |files[t.Partial()].bytes|
    ensures var kept := File(files[t.Partial()].identity, files[t.Partial()].bytes[..stored.value.completedBytes]);
            kept.bytes == t.Joined(lib, m, k) && InPhase(t, lib, m, files[t.Partial() := kept], stored, Writing(k))
  {
    OutputIsNotPartial(t);
    JoinedExtends(t, lib, m, k, |m.slices|);
  }

  lemma BoundaryStep(t: MergeTask, lib: Library, m: CakeManifest, files: Files, stored: Option<MergeResumeData>, k: nat)
    requires PackageVerifies(t.package, lib, m) && InPhase(t, lib, m, files, stored, Writing(k)) && k < |m.slices|
    requires files[t.Partial()].bytes == t.Joined(lib, m, k + 1)
    ensures InPhase(t, lib, m, files, Reduce(stored, SliceBoundary(k + 1, |t.Joined(lib, m, k + 1)|)), Writing(k + 1))
  {
  }

  lemma RenameStep(t: MergeTask, lib: Library, m: CakeManifest, files: Files, stored: Option<MergeResumeData>)
    requires PackageVerifies(t.package, lib, m) && InPhase(t, lib, m, files, stored, Writing(|m.slices|))
    requires t.Consistent(lib, m)
    ensures InPhase(t, lib, m, (files - {t.Partial()})[t.output := files[t.Partial()]], stored, Renamed)
  {
    OutputIsNotPartial(t);
  }

  lemma PublishStep(t: MergeTask, lib: Library, m: CakeManifest, files: Files, stored: Option<MergeResumeData>)
    requires PackageVerifies(t.package, lib, m) && InPhase(t, lib, m, files, stored, Renamed)
    ensures InPhase(t, lib, m, files, Reduce(stored, Published(m.original.sha256)), Renamed)
  {
  }

  // ----- Prefix verification -----

  /** Where row `count` ends when rows are laid end to end. */
  ghost function RowEnd(m: CakeManifest, count: nat): nat
    requires count <= |m.slices|
  {
    if count == 0 then 0 else RowEnd(m, count - 1) + m.slices[count - 1].size
  }

  /** Row `index` (zero-based), read at its place in `bytes`, is complete and has its recorded hash. */
  ghost predicate RowVerifies(m: CakeManifest, lib: Library, bytes: seq<byte>, index: nat)
    requires index < |m.slices|
  {
    var start, size := RowEnd(m, index), m.slices[index].size;
    start + size <= |bytes| && lib.hash(bytes[start..start + size]) == m.slices[index].sha256
  }

  ghost predicate RowsVerify(m: CakeManifest, lib: Library, bytes: seq<byte>, count: nat) {
    count <= |m.slices| && forall i :: 0 <= i < count ==> RowVerifies(m, lib, bytes, i)
  }

  /** `verify_partial_prefix`: each of the first rows, read in order, has its recorded hash. */
  method VerifyPartialPrefix(m: CakeManifest, lib: Library, bytes: seq<byte>, count: nat) returns (r: Result<(), CoreError>)
    requires count <= |m.slices|
    ensures r.Ok? <==> RowsVerify(m, lib, bytes, count)
  {
    var position := 0;
    for i := 0 to count
      invariant position == RowEnd(m, i)
      invariant RowsVerify(m, lib, bytes, i)
    {
      var size := m.slices[i].size;
      if position + size > |bytes| || lib.hash(bytes[position..position + size]) != m.slices[i].sha256 {
        assert !RowVerifies(m, lib, bytes, i);
        return Err(ResumeRejected);
      }
      assert RowVerifies(m, lib, bytes, i);
      position := position + size;
    }
    return Ok(());
  }

  lemma {:induction false} JoinedRowsVerify(t: MergeTask, lib: Library, m: CakeManifest, bytes: seq<byte>, count: nat)
    requires PackageVerifies(t.package, lib, m) && count <= |m.slices|
    requires IsPrefix(t.Joined(lib, m, count), bytes)
    ensures |t.Joined(lib, m, count)| == RowEnd(m, count)
    ensures RowsVerify(m, lib, bytes, count)
  {
    if count > 0 {
      var before := t.Joined(lib, m, count - 1);
      var content := t.package[m.slices[count - 1].filename].bytes;
      hide PackageVerifies;
      assert t.Joined(lib, m, count) == before + content;
      assert before == bytes[..|before|];
      JoinedRowsVerify(t, lib, m, bytes, count - 1);
      LastRowVerifies(t, lib, m, bytes, count - 1);
    }
  }

  lemma LastRowVerifies(t: MergeTask, lib: Library, m: CakeManifest, bytes: seq<byte>, index: nat)
    requires PackageVerifies(t.package, lib, m) && index < |m.slices|
    requires |t.Joined(lib, m, index)| == RowEnd(m, index)
    requires IsPrefix(t.Joined(lib, m, index + 1), bytes)
    ensures RowVerifies(m, lib, bytes, index)
    ensures |t.Joined(lib, m, index + 1)| == RowEnd(m, index + 1)
  {
    hide Enumerable, IsSliceName, SliceNamed;
    var row := m.slices[index];
    assert SlicePresent(t.package, lib, row);
    var content := t.package[row.filename].bytes;
    var start := RowEnd(m, index);
    assert bytes[start..start + row.size] == content;
  }

  // ----- The whole call -----

  ghost predicate OnlyOwnChanged(t: MergeTask, before: Files, after: Files) {
    forall name :: name != t.output && name != t.Partial() ==>
      (name in before <==> name in after) && (name in before ==> before[name] == after[name])
  }

  /** A checkpoint write that failed sets the token, and from then on nothing is recorded and no file
      changes: the call is over, as after a crash at that point. */
  ghost predicate FailureIsFinal(mach: Machine<MergeResumeData>)
    reads mach
  {
    mach.failedAt.Some? ==>
      mach.cancelled && mach.checkpoint == mach.failedAt.value.checkpoint && mach.files == mach.failedAt.value.files
  }

  /** Reads and inspects the package; accepts exactly the usable ones. */
  method OpenPackage(t: MergeTask, lib: Library) returns (r: Result<CakeManifest, CoreError>)
    ensures r.Ok? <==> t.Usable(lib)
    ensures r.Ok? ==> t.Loaded(lib) == Some(r.value)
  {
    hide Accepted, PortableFilename;
    if !lib.isUuid(t.taskId) { return Err(InvalidIdentifier); }
    if t.manifestName !in t.package { return Err(Missing(t.manifestName)); }
    var loaded := LoadManifest(t.package[t.manifestName].bytes, lib);
    if loaded.Err? { return Err(InvalidManifest); }
    AcceptedRowCount(loaded.value, lib);
    var inspection := InspectPackage(t.package, lib, loaded.value);
    if inspection.Err? { return Err(inspection.error); }
    if inspection.value.missing != [] { return Err(MissingSlices); }
    if inspection.value.corrupted != [] { return Err(CorruptedSlices); }
    if inspection.value.unexpected != {} { return Err(UnexpectedSlices); }
    if !PortableFilename(t.output) { return Err(UnportableName(t.output)); }
    return Ok(loaded.value);
  }

  lemma LoadedIsAccepted(t: MergeTask, lib: Library)
    requires t.Loaded(lib).Some?
    ensures Accepted(t.Loaded(lib).value, lib)
  {
  }

  /** The existing output is this task's own finished work, as far as the checkpoint and the bytes say. */
  ghost predicate OwnOutput(t: MergeTask, lib: Library, m: CakeManifest, files: Files, stored: Option<MergeResumeData>) {
    && stored.Some? && t.output in files
    && stored.value.filename == t.Partial() && stored.value.completedSlices == m.sliceCount
    && stored.value.completedBytes == m.original.size && stored.value.identity == files[t.output].identity
    && |files[t.output].bytes| == m.original.size && RowsVerify(m, lib, files[t.output].bytes, |m.slices|)
    && lib.hash(files[t.output].bytes) == m.original.sha256
    && (stored.value.published.None? || stored.value.published == Some(m.original.sha256))
  }

  /** The output already exists: it is accepted exactly as this task's own finished work, and a foreign
      one is refused. */
  method RecoverPublished(mach: Machine<MergeResumeData>, t: MergeTask, lib: Library, m: CakeManifest)
    returns (r: Outcome<()>)
    requires |m.slices| == m.sliceCount && t.output in mach.files
    ensures r.Done? <==> OwnOutput(t, lib, m, mach.files, mach.checkpoint)
    ensures r.Done? || r.Failed?
    ensures mach.checkpoint.None? ==> r == Failed(Collision(t.output))
  {
    if mach.checkpoint.None? { return Failed(Collision(t.output)); }
    var resume := mach.checkpoint.value;
    if resume.filename != t.Partial() || resume.completedSlices != m.sliceCount || resume.completedBytes != m.original.size {
      return Failed(ResumeRejected);
    }
    var output := mach.files[t.output];
    if output.identity != resume.identity || |output.bytes| != m.original.size { return Failed(ResumeRejected); }
    var prefix := VerifyPartialPrefix(m, lib, output.bytes, resume.completedSlices);
    match prefix {
      case Err(e) => return Failed(e);
      case Ok(_) =>
    }
    var actual := lib.hash(output.bytes);
    if actual != m.original.sha256 || (resume.published.Some? && resume.published.value != actual) {
      return Failed(ResumeRejected);
    }
    return Done(());
  }

  lemma RenamedIsOwnOutput(t: MergeTask, lib: Library, m: CakeManifest, files: Files, stored: Option<MergeResumeData>)
    requires t.Loaded(lib) == Some(m) && PackageVerifies(t.package, lib, m)
    requires InPhase(t, lib, m, files, stored, Renamed)
    ensures OwnOutput(t, lib, m, files, stored)
  {
    hide PackageVerifies, Accepted;
    LoadedIsAccepted(t, lib);
    AcceptedRowCount(m, lib);
    JoinedLength(t, lib, m, |m.slices|);
    JoinedRowsVerify(t, lib, m, files[t.output].bytes, |m.slices|);
  }

  /** Opens the staging file: an existing one is cut back to its verified boundary, a new one is
      created and recorded. Only a taken name without a checkpoint is refused, without any change. */
  method OpenPartial(mach: Machine<MergeResumeData>, t: MergeTask, lib: Library, m: CakeManifest, disturbed: bool, ghost before: Phase)
    returns (r: Outcome<nat>, ghost after: Phase)
    requires PackageVerifies(t.package, lib, m) && !mach.cancelled && mach.failedAt.None? && t.output !in mach.files
    requires !(mach.checkpoint.None? && t.Partial() in mach.files) ==>
      InPhase(t, lib, m, mach.files, mach.checkpoint, before) && (before.Fresh? || before.Writing?)
    modifies mach
    ensures OnlyOwnChanged(t, old(mach.files), mach.files)
    ensures FailureIsFinal(mach) && (mach.cancelled ==> disturbed)
    ensures r.Crashed? ==> disturbed
    ensures r.Failed? && mach.cancelled ==> r.error == CoreError.Cancelled
    ensures old(mach.checkpoint).None? && t.Partial() in old(mach.files) ==>
      r == Failed(Collision(t.Partial())) && mach.files == old(mach.files) && mach.checkpoint == old(mach.checkpoint) && !mach.cancelled
    ensures !(old(mach.checkpoint).None? && t.Partial() in old(mach.files)) ==>
      && InPhase(t, lib, m, mach.files, mach.checkpoint, after)
      && (!r.Crashed? && !mach.cancelled ==> r.Done?)
    ensures r.Done? ==> mach.cancelled == mach.failedAt.Some? && r.value == if before.Writing? then before.k else 0
    ensures r.Done? ==> after == if mach.failedAt.None? then Writing(r.value) else CreatedUnrecorded
    ensures r.Done? && mach.cancelled ==> r.value == 0
    ensures r.Done? ==> r.value <= |m.slices| && t.Partial() in mach.files && mach.files[t.Partial()].bytes == t.Joined(lib, m, r.value)
  {
    hide PackageVerifies, MergeTask.Joined;
    after := before;
    OutputIsNotPartial(t);
    var partial := t.Partial();
    if mach.checkpoint.Some? {
      var resume := mach.checkpoint.value;
      if resume.filename != partial { return Failed(ResumeRejected), after; }
      if partial !in mach.files { return Failed(Missing(partial)), after; }
      if mach.files[partial].identity != resume.identity { return Failed(ResumeRejected), after; }
      JoinedRowsVerify(t, lib, m, mach.files[partial].bytes, before.k);
      var expected := SumOfSizes(m, resume.completedSlices);
      if expected != resume.completedBytes || |mach.files[partial].bytes| < expected { return Failed(ResumeRejected), after; }
      var crashed := mach.Stops(disturbed);
      if crashed { return Crashed, after; }
      TruncateStep(t, lib, m, mach.files, mach.checkpoint, before.k);
      mach.Truncate(partial, expected);
      JoinedRowsVerify(t, lib, m, mach.files[partial].bytes, before.k);
      var stop := mach.CheckCancelled(disturbed);
      if stop { return Failed(CoreError.Cancelled), after; }
      var prefix := VerifyPartialPrefix(m, lib, mach.files[partial].bytes, resume.completedSlices);
      match prefix {
        case Err(e) => return Failed(e), after;
        case Ok(_) => return Done(resume.completedSlices), after;
      }
    }
    if partial in mach.files { return Failed(Collision(partial)), after; }
    var crashed := mach.Stops(disturbed);
    if crashed { return Crashed, after; }
    var proposed := SomeIdentity(mach.files);
    CreateStep(t, lib, m, mach.files, mach.checkpoint, proposed);
    var created := mach.CreateNew(partial, proposed);
    after := CreatedUnrecorded;
    crashed := mach.Stops(disturbed);
    if crashed { return Crashed, after; }
    RecordPartialStep(t, lib, m, mach.files, mach.checkpoint);
    ghost var recorded := mach.Persist(Reduce(mach.checkpoint, PartialCreated(partial, proposed)).value, disturbed);
    NothingJoined(t, lib, m);
    if recorded { after := Writing(0); }
    return Done(0), after;
  }

  lemma NothingJoined(t: MergeTask, lib: Library, m: CakeManifest)
    requires PackageVerifies(t.package, lib, m)
    ensures t.Joined(lib, m, 0) == []
  {
  }

  method SumOfSizes(m: CakeManifest, count: nat) returns (total: nat)
    requires count <= |m.slices|
    ensures total == RowEnd(m, count)
  {
    total := 0;
    for i := 0 to count
      invariant total == RowEnd(m, i)
    {
      total := total + m.slices[i].size;
    }
  }

  /** Copies Slice `k + 1` to the end of the staging file in reads of any size, each after a test of
      the token. When the token is set the staging file is cut back to where the Slice began. */
  method CopySlice(mach: Machine<MergeResumeData>, t: MergeTask, lib: Library, m: CakeManifest, k: nat, disturbed: bool, ghost phase: Phase)
    returns (r: Outcome<()>)
    requires PackageVerifies(t.package, lib, m) && k < |m.slices|
    requires InPhase(t, lib, m, mach.files, mach.checkpoint, phase) && (!mach.cancelled ==> phase == Writing(k))
    requires t.Partial() in mach.files && mach.files[t.Partial()].bytes == t.Joined(lib, m, k)
    requires mach.cancelled == mach.failedAt.Some? && FailureIsFinal(mach) && (mach.cancelled ==> disturbed)
    modifies mach`files, mach`cancelled
    ensures InPhase(t, lib, m, mach.files, mach.checkpoint, phase)
    ensures OnlyOwnChanged(t, old(mach.files), mach.files)
    ensures FailureIsFinal(mach) && (mach.cancelled ==> disturbed)
    ensures old(mach.cancelled) ==> r.Failed? && mach.files == old(mach.files)
    ensures r.Crashed? ==> disturbed
    ensures r.Failed? ==> r.error == CoreError.Cancelled && mach.cancelled && mach.files == old(mach.files)
    ensures r.Done? ==> !mach.cancelled && t.Partial() in mach.files && mach.files[t.Partial()].bytes == t.Joined(lib, m, k + 1)
  {
    hide InPhase, MergeTask.Joined, PackageVerifies, OnlyOwnChanged;
    NothingChanged(t, mach.files);
    NextSlice(t, lib, m, k);
    var row := m.slices[k];
    var partial := t.Partial();
    var content := t.package[row.filename].bytes;
    var identity := mach.files[partial].identity;
    ghost var start := t.Joined(lib, m, k);
    var boundary := |mach.files[partial].bytes|;
    assert start + content[..0] == start;
    var stop := mach.CheckCancelled(disturbed);
    if stop {
      CutBack(old(mach.files), partial, identity, start, []);
      mach.Truncate(partial, boundary);
      return Failed(CoreError.Cancelled);
    }
    WritingFacts(t, lib, m, mach.files, mach.checkpoint, k);
    var copied: nat := 0;
    while copied < row.size
      invariant copied <= row.size == |content|
      invariant InPhase(t, lib, m, mach.files, mach.checkpoint, Writing(k)) && !mach.cancelled
      invariant partial in mach.files && mach.files[partial] == File(identity, start + content[..copied])
      invariant mach.files == old(mach.files)[partial := mach.files[partial]]
      invariant OnlyOwnChanged(t, old(mach.files), mach.files)
    {
      var crashed := mach.Stops(disturbed);
      if crashed { return Crashed; }
      stop := mach.CheckCancelled(disturbed);
      if stop {
        CutBack(old(mach.files), partial, identity, start, content[..copied]);
        mach.Truncate(partial, boundary);
        return Failed(CoreError.Cancelled);
      }
      var limit := Min(row.size - copied, BUFFER_SIZE);
      var read: nat :| 1 <= read <= limit;
      var chunk := content[copied..copied + read];
      JoinRead(start, content, copied, read);
      PrefixOfWhole(t, lib, m, k, copied + read);
      WriteStep(t, lib, m, mach.files, mach.checkpoint, k, chunk);
      OwnUpdate(t, old(mach.files), mach.files, partial, File(identity, start + content[..copied] + chunk));
      mach.Append(partial, chunk);
      copied := copied + read;
    }
    assert content[..copied] == content;
    if lib.hash(content) != row.sha256 { return Failed(CorruptedSlices); }
    return Done(());
  }

  lemma CutBack(files: Files, name: string, identity: nat, start: seq<byte>, more: seq<byte>)
    requires name in files && files[name] == File(identity, start)
    ensures files[name := File(identity, start + more)][name := File(identity, (start + more)[..|start|])] == files
    ensures files[name := File(identity, start[..|start|])] == files
  {
    assert (start + more)[..|start|] == start && start[..|start|] == start;
  }

  lemma JoinRead(start: seq<byte>, content: seq<byte>, copied: nat, read: nat)
    requires copied + read <= |content|
    ensures start + content[..copied] + content[copied..copied + read] == start + content[..copied + read]
  {
    assert content[..copied] + content[copied..copied + read] == content[..copied + read];
  }

  lemma NothingChanged(t: MergeTask, files: Files)
    ensures OnlyOwnChanged(t, files, files)
  {
  }

  lemma OwnUpdate(t: MergeTask, before: Files, after: Files, name: string, file: File)
    requires OnlyOwnChanged(t, before, after) && (name == t.output || name == t.Partial())
    ensures OnlyOwnChanged(t, before, after[name := file]) && OnlyOwnChanged(t, before, after - {name})
  {
  }

  lemma OnlyOwnChangedTransitive(t: MergeTask, a: Files, b: Files, c: Files)
    requires OnlyOwnChanged(t, a, b) && OnlyOwnChanged(t, b, c)
    ensures OnlyOwnChanged(t, a, c)
  {
  }

  lemma WritingFacts(t: MergeTask, lib: Library, m: CakeManifest, files: Files, stored: Option<MergeResumeData>, k: nat)
    requires PackageVerifies(t.package, lib, m) && InPhase(t, lib, m, files, stored, Writing(k))
    ensures k <= |m.slices| && stored.Some? && t.Partial() in files && t.output !in files
    ensures stored.value.identity == files[t.Partial()].identity && stored.value.published.None?
    ensures IsPrefix(files[t.Partial()].bytes, t.Joined(lib, m, |m.slices|))
  {
  }

  lemma NextSlice(t: MergeTask, lib: Library, m: CakeManifest, k: nat)
    requires PackageVerifies(t.package, lib, m) && k < |m.slices|
    ensures m.slices[k].filename in t.package
    ensures |t.package[m.slices[k].filename].bytes| == m.slices[k].size
    ensures lib.hash(t.package[m.slices[k].filename].bytes) == m.slices[k].sha256
    ensures t.Joined(lib, m, k + 1) == t.Joined(lib, m, k) + t.package[m.slices[k].filename].bytes
  {
    assert SlicePresent(t.package, lib, m.slices[k]);
  }

  lemma PrefixOfWhole(t: MergeTask, lib: Library, m: CakeManifest, k: nat, length: nat)
    requires PackageVerifies(t.package, lib, m) && k < |m.slices|
    requires m.slices[k].filename in t.package && length <= |t.package[m.slices[k].filename].bytes|
    ensures IsPrefix(t.Joined(lib, m, k) + t.package[m.slices[k].filename].bytes[..length], t.Joined(lib, m, |m.slices|))
  {
    hide MergeTask.Joined;
    NextSlice(t, lib, m, k);
    JoinedExtends(t, lib, m, k + 1, |m.slices|);
    var start, content, whole := t.Joined(lib, m, k), t.package[m.slices[k].filename].bytes, t.Joined(lib, m, |m.slices|);
    assert whole[..|start| + length] == (start + content)[..|start| + length];
  }

  /** Copies every Slice not yet recorded, recording each boundary. It can only stop. */
  method CopySlices(mach: Machine<MergeResumeData>, t: MergeTask, lib: Library, m: CakeManifest, from: nat, disturbed: bool, ghost before: Phase)
    returns (r: Outcome<()>, ghost after: Phase)
    requires PackageVerifies(t.package, lib, m) && from <= |m.slices|
    requires InPhase(t, lib, m, mach.files, mach.checkpoint, before) && (!mach.cancelled ==> before == Writing(from))
    requires t.Partial() in mach.files && mach.files[t.Partial()].bytes == t.Joined(lib, m, from)
    requires mach.cancelled == mach.failedAt.Some? && FailureIsFinal(mach) && (mach.cancelled ==> disturbed)
    modifies mach
    ensures InPhase(t, lib, m, mach.files, mach.checkpoint, after)
    ensures OnlyOwnChanged(t, old(mach.files), mach.files)
    ensures FailureIsFinal(mach) && (mach.cancelled ==> disturbed) && (old(mach.cancelled) ==> mach.cancelled)
    ensures r.Crashed? ==> disturbed
    ensures r.Failed? ==> r.error == CoreError.Cancelled && mach.cancelled
    ensures r.Done? ==> mach.cancelled == mach.failedAt.Some?
    ensures r.Done? && !mach.cancelled ==> after == Writing(|m.slices|)
    ensures r.Done? && !mach.cancelled ==> t.Partial() in mach.files && mach.files[t.Partial()].bytes == t.Joined(lib, m, |m.slices|)
  {
    hide InPhase, MergeTask.Joined, PackageVerifies, OnlyOwnChanged;
    NothingChanged(t, mach.files);
    var completed := from;
    PrefixOfItself(t.Joined(lib, m, from));
    JoinedRowsVerify(t, lib, m, t.Joined(lib, m, from), from);
    var completedBytes := SumOfSizes(m, from);
    after := before;
    while completed < |m.slices|
      invariant from <= completed <= |m.slices|
      invariant InPhase(t, lib, m, mach.files, mach.checkpoint, after) && (!mach.cancelled ==> after == Writing(completed))
      invariant mach.cancelled == mach.failedAt.Some? && FailureIsFinal(mach) && (mach.cancelled ==> disturbed)
      invariant old(mach.cancelled) ==> mach.cancelled
      invariant t.Partial() in mach.files && mach.files[t.Partial()].bytes == t.Joined(lib, m, completed)
      invariant completedBytes == |t.Joined(lib, m, completed)|
      invariant OnlyOwnChanged(t, old(mach.files), mach.files)
    {
      ghost var reached := mach.files;
      var copied := CopySlice(mach, t, lib, m, completed, disturbed, after);
      OnlyOwnChangedTransitive(t, old(mach.files), reached, mach.files);
      match copied {
        case Crashed => return Crashed, after;
        case Failed(e) => return Failed(e), after;
        case Done(_) =>
      }
      NextSlice(t, lib, m, completed);
      completedBytes := completedBytes + m.slices[completed].size;
      var crashed := mach.Stops(disturbed);
      if crashed { return Crashed, after; }
      BoundaryStep(t, lib, m, mach.files, mach.checkpoint, completed);
      WritingFacts(t, lib, m, mach.files, mach.checkpoint, completed);
      ghost var recorded := mach.Persist(Reduce(mach.checkpoint, SliceBoundary(completed + 1, completedBytes)).value, disturbed);
      completed := completed + 1;
      if recorded { after := Writing(completed); }
    }
    return Done(()), after;
  }

  lemma PrefixOfItself(bytes: seq<byte>)
    ensures IsPrefix(bytes, bytes)
  {
  }

  /** The end of the run: the whole staging file must have the hash of the original, then it is
      renamed and the publication recorded. The call succeeds even when that last record fails. */
  method PublishOutput(mach: Machine<MergeResumeData>, t: MergeTask, lib: Library, m: CakeManifest, disturbed: bool, ghost before: Phase)
    returns (r: Outcome<()>, ghost after: Phase)
    requires t.Loaded(lib) == Some(m) && PackageVerifies(t.package, lib, m)
    requires InPhase(t, lib, m, mach.files, mach.checkpoint, before)
    requires !mach.cancelled ==> before == Writing(|m.slices|)
    requires !mach.cancelled ==> t.Partial() in mach.files && mach.files[t.Partial()].bytes == t.Joined(lib, m, |m.slices|)
    requires mach.cancelled == mach.failedAt.Some? && FailureIsFinal(mach) && (mach.cancelled ==> disturbed)
    modifies mach
    ensures InPhase(t, lib, m, mach.files, mach.checkpoint, after)
    ensures OnlyOwnChanged(t, old(mach.files), mach.files)
    ensures FailureIsFinal(mach) && (mach.cancelled ==> disturbed) && (old(mach.cancelled) ==> r.Failed? && mach.cancelled)
    ensures r.Crashed? ==> disturbed
    ensures r.Failed? && mach.cancelled ==> r.error == CoreError.Cancelled
    ensures !r.Crashed? && !mach.cancelled ==> (r.Done? <==> t.Consistent(lib, m))
    ensures r.Done? ==> t.Consistent(lib, m) && after == Renamed && mach.checkpoint.Some? && mach.cancelled == mach.failedAt.Some?
    ensures r.Done? ==> mach.checkpoint.value.published == if mach.failedAt.None? then Some(m.original.sha256) else None
  {
    hide InPhase, MergeTask.Joined, PackageVerifies, OnlyOwnChanged;
    NothingChanged(t, mach.files);
    after := before;
    var stop := mach.CheckCancelled(disturbed);
    if stop { return Failed(CoreError.Cancelled), after; }
    WritingFacts(t, lib, m, mach.files, mach.checkpoint, |m.slices|);
    LoadedIsAccepted(t, lib);
    AcceptedRowCount(m, lib);
    JoinedLength(t, lib, m, |m.slices|);
    var partial := t.Partial();
    var actual := lib.hash(mach.files[partial].bytes);
    if actual != m.original.sha256 { return Failed(FinalHashMismatch), after; }
    var crashed := mach.Stops(disturbed);
    if crashed { return Crashed, after; }
    RenameStep(t, lib, m, mach.files, mach.checkpoint);
    OwnUpdate(t, mach.files, mach.files, partial, mach.files[partial]);
    OwnUpdate(t, mach.files, mach.files - {partial}, t.output, mach.files[partial]);
    var identity := mach.checkpoint.value.identity;
    var finalized := mach.FinalizeStaged(lib, partial, t.output, identity, m.original.size, m.original.sha256);
    match finalized {
      case Err(e) => return Failed(e), after;
      case Ok(_) =>
    }
    after := Renamed;
    stop := mach.CheckCancelled(disturbed);
    if stop { return Failed(CoreError.Cancelled), after; }
    crashed := mach.Stops(disturbed);
    if crashed { return Crashed, after; }
    PublishStep(t, lib, m, mach.files, mach.checkpoint);
    ghost var recorded := mach.Persist(Reduce(mach.checkpoint, Published(m.original.sha256)).value, disturbed);
    return Done(()), after;
  }

  ghost predicate MergeState(t: MergeTask, lib: Library, files: Files, stored: Option<MergeResumeData>) {
    t.Usable(lib) ==> InPhase(t, lib, t.Loaded(lib).value, files, stored, PhaseOf(t, files, stored))
  }

  /** What an undisturbed call can bring to an end: an output of its own that is already in place, or
      a consistent package whose names are free or recorded. */
  ghost predicate Finishes(t: MergeTask, lib: Library, files: Files, stored: Option<MergeResumeData>)
    requires t.Usable(lib)
  {
    if t.output in files then OwnOutput(t, lib, t.Loaded(lib).value, files, stored)
    else t.Consistent(lib, t.Loaded(lib).value) && !(stored.None? && t.Partial() in files)
  }

  /** A foreign output, or a file under the staging name without a checkpoint, may also be found. */
  ghost predicate NameTaken(t: MergeTask, files: Files, stored: Option<MergeResumeData>) {
    t.output in files || (stored.None? && t.Partial() in files)
  }

  /** `merge_package_resumable_inner`. From every reachable state, however the call is disturbed (the
      process stops, the user cancels, checkpoint writes fail), the protocol state is kept; a call that
      finds one of its names taken changes nothing. A call that is not stopped and whose token stays
      clear ends well exactly on a usable package from the states `Finishes` names, a crash between
      the rename and its record among them. A checkpoint write that fails ends the call as a crash at
      that point would, except that after the last event the call succeeds with the output unrecorded. */
  method Merge(mach: Machine<MergeResumeData>, t: MergeTask, lib: Library, disturbed: bool) returns (r: Outcome<()>)
    requires NameTaken(t, mach.files, mach.checkpoint) || MergeState(t, lib, mach.files, mach.checkpoint)
    modifies mach
    ensures old(MergeState(t, lib, mach.files, mach.checkpoint)) ==> MergeState(t, lib, mach.files, mach.checkpoint)
    ensures OnlyOwnChanged(t, old(mach.files), mach.files)
    ensures r.Crashed? || mach.cancelled ==> disturbed
    ensures !r.Crashed? && !mach.cancelled ==>
      (r.Done? <==> t.Usable(lib) && Finishes(t, lib, old(mach.files), old(mach.checkpoint)))
    ensures r.Done? ==> t.Usable(lib) && Finishes(t, lib, old(mach.files), old(mach.checkpoint)) && t.output in mach.files
    ensures r.Done? && t.output !in old(mach.files) ==>
      mach.checkpoint.Some? && mach.checkpoint.value.published
                               == if mach.failedAt.None? then Some(t.Loaded(lib).value.original.sha256) else None
    ensures FailureIsFinal(mach)
    ensures mach.failedAt.Some? ==> r.Crashed? || r.Done? || r == Failed(CoreError.Cancelled)
    ensures !t.Usable(lib) || NameTaken(t, old(mach.files), old(mach.checkpoint))
      ==> mach.files == old(mach.files) && mach.checkpoint == old(mach.checkpoint)
  {
    hide InPhase, MergeTask.Joined, PackageVerifies, OnlyOwnChanged, PhaseOf, RowsVerify;
    NothingChanged(t, mach.files);
    ghost var before := PhaseOf(t, mach.files, mach.checkpoint);
    mach.Begin();
    var loaded := OpenPackage(t, lib);
    if loaded.Err? { return Failed(loaded.error); }
    var m := loaded.value;
    var stop := mach.CheckCancelled(disturbed);
    if stop { return Failed(CoreError.Cancelled); }
    LoadedIsAccepted(t, lib);
    AcceptedRowCount(m, lib);
    if t.output in mach.files {
      r := RecoverPublished(mach, t, lib, m);
      return;
    }
    PhaseWithoutOutput(t, mach.files, mach.checkpoint);
    var started, copied;
    ghost var after;
    started, after := OpenPartial(mach, t, lib, m, disturbed, before);
    if !NameTaken(t, old(mach.files), old(mach.checkpoint)) {
      PhaseIsObservable(t, lib, m, mach.files, mach.checkpoint, after);
    }
    match started {
      case Crashed => return Crashed;
      case Failed(e) => return Failed(e);
      case Done(from) =>
        ghost var reached := mach.files;
        copied, after := CopySlices(mach, t, lib, m, from, disturbed, after);
        PhaseIsObservable(t, lib, m, mach.files, mach.checkpoint, after);
        OnlyOwnChangedTransitive(t, old(mach.files), reached, mach.files);
        match copied {
          case Crashed => return Crashed;
          case Failed(e) => return Failed(e);
          case Done(_) =>
        }
        reached := mach.files;
        r, after := PublishOutput(mach, t, lib, m, disturbed, after);
        PhaseIsObservable(t, lib, m, mach.files, mach.checkpoint, after);
        OnlyOwnChangedTransitive(t, old(mach.files), reached, mach.files);
        if r.Done? { RenamedIsInPlace(t, lib, m, mach.files, mach.checkpoint); }
    }
  }

  lemma PhaseWithoutOutput(t: MergeTask, files: Files, stored: Option<MergeResumeData>)
    requires t.output !in files
    ensures var phase := PhaseOf(t, files, stored);
            !phase.Renamed? && (phase.CreatedUnrecorded? <==> stored.None? && t.Partial() in files)
  {
  }

  lemma RenamedIsInPlace(t: MergeTask, lib: Library, m: CakeManifest, files: Files, stored: Option<MergeResumeData>)
    requires PackageVerifies(t.package, lib, m) && InPhase(t, lib, m, files, stored, Renamed)
    ensures t.output in files
  {
  }

  /** What holds at every instant of every run: the recorded bytes of the staging file are exactly the
      recorded Slices, and the output is absent or is all Slices joined, with the hash of the original. */
  ghost predicate Safe(t: MergeTask, lib: Library, m: CakeManifest, files: Files, stored: Option<MergeResumeData>)
    requires PackageVerifies(t.package, lib, m)
  {
    && (stored.Some? && t.output !in files ==>
          && stored.value.completedSlices <= |m.slices| && t.Partial() in files
          && stored.value.completedBytes == |t.Joined(lib, m, stored.value.completedSlices)| <= |files[t.Partial()].bytes|
          && files[t.Partial()].bytes[..stored.value.completedBytes] == t.Joined(lib, m, stored.value.completedSlices))
    && (t.output in files ==>
          && files[t.output].bytes == t.Joined(lib, m, |m.slices|)
          && |files[t.output].bytes| == m.original.size
          && lib.hash(files[t.output].bytes) == m.original.sha256)
  }

  lemma ReachableStatesAreSafe(t: MergeTask, lib: Library, files: Files, stored: Option<MergeResumeData>)
    requires t.Usable(lib) && MergeState(t, lib, files, stored)
    ensures Safe(t, lib, t.Loaded(lib).value, files, stored)
  {
    hide PackageVerifies, MergeTask.Joined, Accepted;
    var m := t.Loaded(lib).value;
    LoadedIsAccepted(t, lib);
    AcceptedRowCount(m, lib);
    JoinedLength(t, lib, m, |m.slices|);
  }

  /** Any number of calls from nothing, each disturbed in any way or run to its end. */
  method AnyRun(mach: Machine<MergeResumeData>, t: MergeTask, lib: Library, calls: nat) returns (finished: bool)
    requires t.Usable(lib)
    requires mach.checkpoint.None? && t.output !in mach.files && t.Partial() !in mach.files
    modifies mach
    ensures MergeState(t, lib, mach.files, mach.checkpoint)
    ensures Safe(t, lib, t.Loaded(lib).value, mach.files, mach.checkpoint)
    ensures OnlyOwnChanged(t, old(mach.files), mach.files)
    ensures finished ==> t.output in mach.files
  {
    hide Safe, OnlyOwnChanged, PackageVerifies, MergeTask.Joined, ReadableManifest, FailureIsFinal, OwnOutput, Finishes;
    NothingChanged(t, mach.files);
    finished := false;
    for call := 0 to calls
      invariant MergeState(t, lib, mach.files, mach.checkpoint)
      invariant OnlyOwnChanged(t, old(mach.files), mach.files)
      invariant finished ==> t.output in mach.files
    {
      ghost var reached := mach.files;
      var disturbed := *;
      var outcome := Merge(mach, t, lib, disturbed);
      OnlyOwnChangedTransitive(t, old(mach.files), reached, mach.files);
      finished := finished || outcome.Done?;
    }
    ReachableStatesAreSafe(t, lib, mach.files, mach.checkpoint);
  }
}
