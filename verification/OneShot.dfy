/** The Split and Merge of the command line, which keep no checkpoint, and the law that one undoes
    the other. */
module OneShot {
  import opened FiniteSets
  import opened Wrappers
  import opened SliceArithmetic
  import opened SliceNames
  import opened Manifest
  import opened Disk
  import opened Package
  import Resumable = ResumableSplit
  import opened ResumableMerge

  datatype StagedOutput = StagedOutput(partial: string, final: string, identity: nat, size: nat, sha256: string)

  function PartialPath(t: SplitTask, index: nat): string {
    t.FinalName(index) + ".partial"
  }

  ghost predicate PathsDistinct(t: SplitTask) {
    && (forall i, j :: 1 <= i <= t.Count() + 1 && 1 <= j <= t.Count() + 1 && t.FinalName(i) == t.FinalName(j) ==> i == j)
    && (forall i, j :: 1 <= i <= t.Count() + 1 && 1 <= j <= t.Count() + 1 && PartialPath(t, i) == PartialPath(t, j) ==> i == j)
    && (forall i: nat, j: nat :: PartialPath(t, i) != t.FinalName(j))
  }

  lemma PathsAreDistinct(t: SplitTask)
    ensures PathsDistinct(t)
  {
    NamesAreDistinct(t);
    forall i, j | 1 <= i <= t.Count() + 1 && 1 <= j <= t.Count() + 1 && PartialPath(t, i) == PartialPath(t, j)
      ensures i == j
    {
      assert t.FinalName(i) == PartialPath(t, i)[..|t.FinalName(i)|];
      assert t.FinalName(j) == PartialPath(t, j)[..|t.FinalName(j)|];
    }
    forall i: nat, j: nat
      ensures PartialPath(t, i) != t.FinalName(j)
    {
      var p, f := PartialPath(t, i), t.FinalName(j);
      assert p[|p| - 1] == 'l';
      assert f[|f| - 1] == (if j <= t.Count() then 'e' else 'n');
    }
  }

  /** What the one-shot Split demands; unlike the resumable one it checks every Slice name first. */
  predicate Admissible(t: SplitTask) {
    && 1 <= t.sliceSize <= MAX_SAFE_INTEGER && PortableFilename(t.original)
    && |t.source| <= MAX_SAFE_INTEGER && t.Count() <= MAX_SLICE_COUNT && PortableFilename(t.ManifestName())
    && forall i :: 1 <= i <= t.Count() ==> PortableFilename(t.FinalName(i))
  }

  ghost predicate NothingInTheWay(t: SplitTask, files: Files) {
    forall i :: 1 <= i <= t.Count() + 1 ==> t.FinalName(i) !in files && PartialPath(t, i) !in files
  }

  /** The folder after a Split: the old content and every output with its bytes. */
  ghost predicate Holds(t: SplitTask, lib: Library, before: Files, after: Files) {
    && (forall i :: 1 <= i <= t.Count() + 1 ==> t.FinalName(i) in after && after[t.FinalName(i)].bytes == t.FinalBytes(lib, i))
    && (forall name :: name in after ==> name in before || exists i :: 1 <= i <= t.Count() + 1 && name == t.FinalName(i))
    && (forall name :: name in before ==> name in after && after[name] == before[name])
  }

  ghost predicate IsOutput(t: SplitTask, name: string) {
    exists i :: 1 <= i <= t.Count() + 1 && (name == t.FinalName(i) || name == PartialPath(t, i))
  }

  /** Outputs `placed + 1 .. |outputs|` wait in their staging files and the first `placed` are in place;
      everything that was there before still is. */
  ghost predicate Progress(t: SplitTask, lib: Library, before: Files, files: Files, outputs: seq<StagedOutput>, placed: nat) {
    && placed <= |outputs| <= t.Count() + 1
    && (forall i :: 1 <= i <= |outputs| ==>
          && outputs[i - 1].partial == PartialPath(t, i) && outputs[i - 1].final == t.FinalName(i)
          && outputs[i - 1].size == |t.FinalBytes(lib, i)| && outputs[i - 1].sha256 == lib.hash(t.FinalBytes(lib, i)))
    && OutputsHeld(t, lib, files, outputs, placed)
    && OnlyOutputsAdded(t, before, files)
  }

  ghost predicate OutputsHeld(t: SplitTask, lib: Library, files: Files, outputs: seq<StagedOutput>, placed: nat)
    requires placed <= |outputs| <= t.Count() + 1
  {
    && (forall i :: 1 <= i <= placed ==>
          t.FinalName(i) in files && files[t.FinalName(i)] == File(outputs[i - 1].identity, t.FinalBytes(lib, i)))
    && (forall i :: placed < i <= |outputs| ==>
          PartialPath(t, i) in files && files[PartialPath(t, i)] == File(outputs[i - 1].identity, t.FinalBytes(lib, i)))
    && (forall i :: placed < i <= t.Count() + 1 ==> t.FinalName(i) !in files)
    && (forall i :: 1 <= i <= placed || |outputs| < i <= t.Count() + 1 ==> PartialPath(t, i) !in files)
  }

  ghost predicate OnlyOutputsAdded(t: SplitTask, before: Files, files: Files) {
    && (forall name :: name in before ==> name in files && files[name] == before[name])
    && (forall name :: name in files ==> name in before || IsOutput(t, name))
  }

  lemma StartProgress(t: SplitTask, lib: Library, files: Files)
    requires NothingInTheWay(t, files)
    ensures Progress(t, lib, files, files, [], 0)
  {
    hide SplitTask.FinalName, PartialPath;
  }

  lemma StagedStep(t: SplitTask, lib: Library, before: Files, files: Files, outputs: seq<StagedOutput>, file: File)
    requires Progress(t, lib, before, files, outputs, 0) && |outputs| <= t.Count() && PathsDistinct(t)
    requires NothingInTheWay(t, before) && file.bytes == t.FinalBytes(lib, |outputs| + 1)
    ensures var index := |outputs| + 1;
            Progress(t, lib, before, files[PartialPath(t, index) := file],
                     outputs + [StagedOutput(PartialPath(t, index), t.FinalName(index), file.identity, |file.bytes|, lib.hash(file.bytes))], 0)
  {
    hide SplitTask.FinalName, PartialPath, SplitTask.FinalBytes, SplitTask.Count, IsOutput;
    var index := |outputs| + 1;
    OutputNames(t, index);
    var next := files[PartialPath(t, index) := file];
    assert OnlyOutputsAdded(t, before, next) by {
      assert forall name :: name in before ==> name != PartialPath(t, index);
    }
    StagedOutputHeld(t, lib, files, outputs, file);
  }

  lemma StagedOutputHeld(t: SplitTask, lib: Library, files: Files, outputs: seq<StagedOutput>, file: File)
    requires |outputs| <= t.Count() && PathsDistinct(t) && OutputsHeld(t, lib, files, outputs, 0)
    requires file.bytes == t.FinalBytes(lib, |outputs| + 1)
    ensures var index := |outputs| + 1;
            OutputsHeld(t, lib, files[PartialPath(t, index) := file],
                        outputs + [StagedOutput(PartialPath(t, index), t.FinalName(index), file.identity, |file.bytes|, lib.hash(file.bytes))], 0)
  {
    hide SplitTask.FinalName, PartialPath, SplitTask.FinalBytes, SplitTask.Count;
  }

  lemma PlacedStep(t: SplitTask, lib: Library, before: Files, files: Files, outputs: seq<StagedOutput>, placed: nat)
    requires Progress(t, lib, before, files, outputs, placed) && placed < |outputs| && PathsDistinct(t)
    requires NothingInTheWay(t, before)
    ensures var index := placed + 1;
            Progress(t, lib, before, (files - {PartialPath(t, index)})[t.FinalName(index) := files[PartialPath(t, index)]], outputs, index)
  {
    hide SplitTask.FinalName, PartialPath, SplitTask.FinalBytes, SplitTask.Count, IsOutput;
    OutputNames(t, placed + 1);
    var index := placed + 1;
    var next := (files - {PartialPath(t, index)})[t.FinalName(index) := files[PartialPath(t, index)]];
    assert OnlyOutputsAdded(t, before, next) by {
      assert forall name :: name in before ==> name != PartialPath(t, index) && name != t.FinalName(index);
    }
    PlacedOutputHeld(t, lib, files, outputs, placed);
  }

  lemma PlacedOutputHeld(t: SplitTask, lib: Library, files: Files, outputs: seq<StagedOutput>, placed: nat)
    requires placed < |outputs| <= t.Count() + 1 && PathsDistinct(t) && OutputsHeld(t, lib, files, outputs, placed)
    ensures var index := placed + 1;
            && PartialPath(t, index) in files
            && OutputsHeld(t, lib, (files - {PartialPath(t, index)})[t.FinalName(index) := files[PartialPath(t, index)]], outputs, index)
  {
    hide SplitTask.FinalName, PartialPath, SplitTask.FinalBytes, SplitTask.Count;
  }

  lemma OutputNames(t: SplitTask, index: nat)
    requires 1 <= index <= t.Count() + 1
    ensures IsOutput(t, t.FinalName(index)) && IsOutput(t, PartialPath(t, index))
  {
  }

  lemma FinishedProgress(t: SplitTask, lib: Library, before: Files, files: Files, outputs: seq<StagedOutput>)
    requires Progress(t, lib, before, files, outputs, t.Count() + 1)
    ensures Holds(t, lib, before, files)
  {
    hide SplitTask.FinalName, PartialPath, SplitTask.FinalBytes, SplitTask.Count;
  }

  // ----- Split -----

  /** Refuses a task or a folder the Split cannot start in. */
  method CheckAdmissible(t: SplitTask, files: Files) returns (refused: Option<CoreError>)
    ensures refused.None? <==> Admissible(t) && NothingInTheWay(t, files)
    ensures refused == Some(CoreError.InvalidSliceSize) <==> t.sliceSize == 0 || t.sliceSize > 9_007_199_254_740_991
    ensures refused.Some? && refused.value != CoreError.InvalidSliceSize ==>
      match refused.value
      case UnsafeInteger => |t.source| > 9_007_199_254_740_991
      case SliceLimit => t.Count() > 50_000
      case UnportableName(name) => !PortableFilename(name)
      case Collision(name) => name in files
      case _ => false
  {
    hide PortableFilename, SplitTask.FinalName, PartialPath, SplitTask.Count;
    if t.sliceSize == 0 || t.sliceSize > MAX_SAFE_INTEGER { return Some(CoreError.InvalidSliceSize); }
    if !PortableFilename(t.original) { return Some(UnportableName(t.original)); }
    if |t.source| > MAX_SAFE_INTEGER { return Some(CoreError.UnsafeInteger); }
    if t.Count() > MAX_SLICE_COUNT { return Some(CoreError.SliceLimit); }
    if !PortableFilename(t.ManifestName()) { return Some(UnportableName(t.ManifestName())); }
    Resumable.ManifestIsLastOutput(t);
    var last := t.Count() + 1;
    if t.ManifestName() in files { return Some(Collision(t.ManifestName())); }
    if PartialPath(t, last) in files { return Some(Collision(PartialPath(t, last))); }
    for index := 1 to t.Count() + 1
      invariant forall i :: 1 <= i < index ==>
        PortableFilename(t.FinalName(i)) && t.FinalName(i) !in files && PartialPath(t, i) !in files
    {
      var final, partial := t.FinalName(index), PartialPath(t, index);
      if !PortableFilename(final) { return Some(UnportableName(final)); }
      if final in files { return Some(Collision(final)); }
      if partial in files { return Some(Collision(partial)); }
    }
    return None;
  }

  /** Appends some content to an open file in reads of any size. */
  method AppendAll(mach: Machine<()>, name: string, content: seq<byte>)
    requires name in mach.files
    modifies mach`files
    ensures mach.files == old(mach.files)[name := File(old(mach.files)[name].identity, old(mach.files)[name].bytes + content)]
  {
    ghost var before := mach.files[name];
    var remaining := |content|;
    assert before.bytes + content[..0] == before.bytes;
    while remaining > 0
      invariant 0 <= remaining <= |content|
      invariant mach.files == old(mach.files)[name := File(before.identity, before.bytes + content[..|content| - remaining])]
    {
      var limit := Min(remaining, Resumable.BUFFER_SIZE);
      var read: nat :| 1 <= read <= limit;
      var at := |content| - remaining;
      assert before.bytes + content[..at] + content[at..at + read] == before.bytes + content[..at + read];
      mach.Append(name, content[at..at + read]);
      remaining := remaining - read;
    }
    assert content[..|content|] == content;
  }

  /** Writes one staging file. */
  method Stage(mach: Machine<()>, name: string, content: seq<byte>) returns (identity: nat)
    requires name !in mach.files
    modifies mach`files
    ensures mach.files == old(mach.files)[name := File(identity, content)]
  {
    identity := SomeIdentity(mach.files);
    var created := mach.CreateNew(name, identity);
    AppendAll(mach, name, content);
    assert [] + content == content;
  }

  /** Renames every staged output into place. */
  method PlaceAll(mach: Machine<()>, t: SplitTask, lib: Library, outputs: seq<StagedOutput>, ghost before: Files)
    returns (r: Result<(), CoreError>)
    requires Progress(t, lib, before, mach.files, outputs, 0) && PathsDistinct(t) && NothingInTheWay(t, before)
    modifies mach`files
    ensures r.Ok? && Progress(t, lib, before, mach.files, outputs, |outputs|)
  {
    hide SplitTask.FinalName, PartialPath, SplitTask.Count, SplitTask.FinalBytes, Progress, PathsDistinct, NothingInTheWay;
    for placed := 0 to |outputs|
      invariant Progress(t, lib, before, mach.files, outputs, placed)
    {
      PlacedStep(t, lib, before, mach.files, outputs, placed);
      NextPlacement(t, lib, before, mach.files, outputs, placed);
      var staged := outputs[placed];
      var finalized := mach.FinalizeStaged(lib, staged.partial, staged.final, staged.identity, staged.size, staged.sha256);
      match finalized {
        case Err(e) => return Err(e);
        case Ok(_) =>
      }
    }
    return Ok(());
  }

  /** One turn of the loop below: the next part of the source goes into a new staging file. */
  method StageSlice(mach: Machine<()>, t: SplitTask, lib: Library, outputs: seq<StagedOutput>, offset: nat, ghost before: Files)
    returns (staged: StagedOutput, row: SliceEntry, content: seq<byte>)
    requires NothingInTheWay(t, before) && PathsDistinct(t) && t.sliceSize >= 1 && |outputs| < t.Count()
    requires Progress(t, lib, before, mach.files, outputs, 0) && offset == PlanOffset(t.sliceSize, |outputs| + 1)
    modifies mach`files
    ensures Progress(t, lib, before, mach.files, outputs + [staged], 0)
    ensures row == t.Entry(lib, |outputs| + 1)
    ensures offset + |content| <= |t.source| && content == t.source[offset..offset + |content|]
    ensures offset + |content|
         == if |outputs| + 1 == t.Count() then |t.source| else PlanOffset(t.sliceSize, |outputs| + 2)
  {
    hide SplitTask.FinalName, PartialPath, SplitTask.Count, SplitTask.FinalBytes, NothingInTheWay, Progress, PathsDistinct;
    hide SplitTask.Entry, PlanOffset;
    var index := |outputs| + 1;
    NextSliceContent(t, lib, index);
    var size := Min(|t.source| - offset, t.sliceSize);
    content := t.source[offset..offset + size];
    FreePath(t, lib, before, mach.files, outputs, index);
    ghost var reached := mach.files;
    var identity := Stage(mach, PartialPath(t, index), content);
    StagedStep(t, lib, before, reached, outputs, File(identity, content));
    staged := StagedOutput(PartialPath(t, index), t.FinalName(index), identity, size, lib.hash(content));
    row := SliceEntry(index, t.FinalName(index), offset, size, lib.hash(content));
  }

  /** Reads the source once, in order, into one staging file for each Slice. */
  method StageSlices(mach: Machine<()>, t: SplitTask, lib: Library, ghost before: Files)
    returns (outputs: seq<StagedOutput>, rows: seq<SliceEntry>, stream: seq<byte>)
    requires Admissible(t) && NothingInTheWay(t, before) && PathsDistinct(t)
    requires Progress(t, lib, before, mach.files, [], 0)
    modifies mach`files
    ensures |outputs| == t.Count() && Progress(t, lib, before, mach.files, outputs, 0)
    ensures rows == t.Entries(lib, t.Count()) && stream == t.source
  {
    hide SplitTask.FinalName, PartialPath, SplitTask.Count, SplitTask.FinalBytes, Admissible, NothingInTheWay, Progress, PathsDistinct;
    EmptyTable(t, lib);
    hide SplitTask.Entries, SplitTask.Entry, PlanOffset;
    AdmissibleNumbers(t);
    assert t.source[..0] == [];
    var bytesProcessed: nat := 0;
    outputs, rows, stream := [], [], [];
    while |outputs| < t.Count()
      invariant |outputs| <= t.Count()
      invariant Progress(t, lib, before, mach.files, outputs, 0)
      invariant rows == t.Entries(lib, |outputs|)
      invariant bytesProcessed <= |t.source| && stream == t.source[..bytesProcessed]
      invariant bytesProcessed == if |outputs| == t.Count() then |t.source| else PlanOffset(t.sliceSize, |outputs| + 1)
      decreases t.Count() - |outputs|
    {
      var staged, row, content := StageSlice(mach, t, lib, outputs, bytesProcessed, before);
      PrefixGrows(t.source, bytesProcessed, |content|);
      TableGrows(t, lib, |outputs| + 1);
      stream := stream + content;
      outputs := outputs + [staged];
      rows := rows + [row];
      bytesProcessed := bytesProcessed + |content|;
    }
  }

  /** `split_file_with_progress`: stages every Slice and the Manifest, then renames them into place.
      It succeeds exactly on an admissible task with nothing in the way, and otherwise leaves the
      folder as it was. The package ID and creation time are generated and well formed. */
  method Split(mach: Machine<()>, t: SplitTask, lib: Library) returns (r: Result<string, CoreError>)
    requires lib.isUuid(t.packageId) && lib.isTimestamp(t.createdAt) && Faithful(lib, t.Manifest(lib))
    modifies mach`files
    ensures r.Ok? <==> Admissible(t) && NothingInTheWay(t, old(mach.files))
    ensures r.Ok? ==> r.value == t.ManifestName() && Holds(t, lib, old(mach.files), mach.files)
    ensures r.Ok? ==> t.ManifestName() in mach.files && SaysThePlan(t, lib, mach.files[t.ManifestName()].bytes)
    ensures r.Err? ==> mach.files == old(mach.files)
  {
    hide SplitTask.FinalName, PartialPath, SplitTask.Count, SplitTask.FinalBytes, SplitTask.Manifest, Admissible;
    hide NothingInTheWay, Progress, Holds, Accepted, PathsDistinct, Faithful, ManifestBytes, SplitTask.Entries, IsOutput, SplitTask.ManifestName;
    hide SaysThePlan;
    var refused := CheckAdmissible(t, mach.files);
    match refused {
      case Some(e) => return Err(e);
      case None =>
    }
    PathsAreDistinct(t);
    AdmissibleNumbers(t);
    StartProgress(t, lib, mach.files);
    ghost var before := mach.files;
    var outputs, rows, stream := StageSlices(mach, t, lib, before);
    if lib.hash(stream) != lib.hash(t.source) { return Err(SourceChanged); }
    var manifest := CakeManifest(FORMAT_IDENTIFIER, FORMAT_VERSION, t.packageId, t.createdAt,
                                 OriginalFile(t.original, |t.source|, lib.hash(t.source)), t.sliceSize, t.Count(), rows);
    ManifestIsBuilt(t, lib, manifest);
    var verdict := Validate(manifest, lib);
    if verdict.Err? { return Err(InvalidManifest); }
    var last := t.Count() + 1;
    var encoded := ManifestBytes(manifest);
    FreePath(t, lib, before, mach.files, outputs, last);
    Resumable.ManifestIsLastOutput(t);
    ghost var staging := mach.files;
    var manifestIdentity := Stage(mach, PartialPath(t, last), encoded);
    StagedStep(t, lib, before, staging, outputs, File(manifestIdentity, encoded));
    outputs := outputs + [StagedOutput(PartialPath(t, last), t.FinalName(last), manifestIdentity, |encoded|, lib.hash(encoded))];
    var finalized := PlaceAll(mach, t, lib, outputs, before);
    match finalized {
      case Err(e) => return Err(e);
      case Ok(_) =>
    }
    FinishedProgress(t, lib, before, mach.files, outputs);
    HeldSaysThePlan(t, lib, before, mach.files);
    return Ok(t.ManifestName());
  }

  lemma HeldSaysThePlan(t: SplitTask, lib: Library, before: Files, after: Files)
    requires Holds(t, lib, before, after)
    requires Admissible(t) && lib.isUuid(t.packageId) && lib.isTimestamp(t.createdAt) && Faithful(lib, t.Manifest(lib))
    ensures t.ManifestName() in after && SaysThePlan(t, lib, after[t.ManifestName()].bytes)
  {
    AdmissibleIsAccepted(t, lib);
    hide Faithful, Accepted, Admissible, SaysThePlan, SplitTask.Manifest, ManifestBytes;
    WrittenSaysThePlan(t, lib);
    Resumable.ManifestIsLastOutput(t);
    Resumable.ManifestContent(t, lib);
    hide SplitTask.FinalName, SplitTask.FinalBytes;
    assert t.FinalName(t.Count() + 1) in after;
  }

  lemma AdmissibleNumbers(t: SplitTask)
    requires Admissible(t)
    ensures t.sliceSize >= 1 && |t.source| <= MAX_SAFE_INTEGER
    ensures t.Count() == 0 ==> |t.source| == 0
    ensures t.Count() > 0 ==> PlanOffset(t.sliceSize, 1) == 0
  {
    hide PortableFilename;
  }

  lemma NextSliceContent(t: SplitTask, lib: Library, index: nat)
    requires 1 <= index <= t.Count() && t.sliceSize >= 1
    ensures var offset := PlanOffset(t.sliceSize, index);
            && offset <= |t.source|
            && var size := Min(|t.source| - offset, t.sliceSize);
               && offset + size <= |t.source|
               && t.FinalBytes(lib, index) == t.source[offset..offset + size]
               && t.Entry(lib, index) == SliceEntry(index, t.FinalName(index), offset, size, lib.hash(t.source[offset..offset + size]))
               && offset + size == if index == t.Count() then |t.source| else PlanOffset(t.sliceSize, index + 1)
  {
    PlanWithinSource(|t.source|, t.sliceSize, index);
  }

  lemma EmptyTable(t: SplitTask, lib: Library)
    ensures t.Entries(lib, 0) == []
  {
  }

  lemma PrefixGrows(s: seq<byte>, offset: nat, size: nat)
    requires offset + size <= |s|
    ensures s[..offset] + s[offset..offset + size] == s[..offset + size]
  {
  }

  lemma TableGrows(t: SplitTask, lib: Library, index: nat)
    requires 1 <= index <= t.Count()
    ensures t.Entries(lib, index) == t.Entries(lib, index - 1) + [t.Entry(lib, index)]
  {
  }

  lemma FreePath(t: SplitTask, lib: Library, before: Files, files: Files, outputs: seq<StagedOutput>, index: nat)
    requires Progress(t, lib, before, files, outputs, 0) && index == |outputs| + 1 <= t.Count() + 1
    ensures PartialPath(t, index) !in files
  {
    hide SplitTask.FinalName, PartialPath, SplitTask.FinalBytes;
  }

  lemma NextPlacement(t: SplitTask, lib: Library, before: Files, files: Files, outputs: seq<StagedOutput>, placed: nat)
    requires Progress(t, lib, before, files, outputs, placed) && placed < |outputs|
    ensures var s := outputs[placed];
            && s.partial in files && s.final !in files && files[s.partial].identity == s.identity
            && s.partial == PartialPath(t, placed + 1) && s.final == t.FinalName(placed + 1)
            && |files[s.partial].bytes| == s.size && lib.hash(files[s.partial].bytes) == s.sha256
  {
    hide SplitTask.FinalName, PartialPath, SplitTask.FinalBytes;
    var i := placed + 1;
    assert outputs[i - 1].partial == PartialPath(t, i) && PartialPath(t, i) in files;
    assert t.FinalName(i) !in files;
  }

  lemma ManifestIsBuilt(t: SplitTask, lib: Library, manifest: CakeManifest)
    requires Admissible(t) && lib.isUuid(t.packageId) && lib.isTimestamp(t.createdAt) && Faithful(lib, t.Manifest(lib))
    requires manifest == CakeManifest(FORMAT_IDENTIFIER, FORMAT_VERSION, t.packageId, t.createdAt,
                                      OriginalFile(t.original, |t.source|, lib.hash(t.source)), t.sliceSize, t.Count(),
                                      t.Entries(lib, t.Count()))
    ensures manifest == t.Manifest(lib) && Accepted(manifest, lib)
    ensures ManifestBytes(manifest) == t.FinalBytes(lib, t.Count() + 1)
  {
    hide PortableFilename, HashShape, SliceFilename, SliceIndexWidth, ExpectedSliceCount, ManifestBytes;
    forall p | 0 <= p < |manifest.slices|
      ensures RowPlanned(manifest, p)
    {
      assert manifest.slices[p] == t.Entry(lib, p + 1);
      assert PortableFilename(t.FinalName(p + 1));
    }
  }

  // ----- Merge -----

  ghost predicate Mergeable(t: MergeTask, lib: Library) {
    t.Loaded(lib).Some? && PackageVerifies(t.package, lib, t.Loaded(lib).value)
  }

  /** `merge_package_with_progress`: inspects the package, joins the Slices in a staging file, compares
      the hash of the whole and renames. Only a hash mismatch leaves the staging file behind. */
  method Merge(mach: Machine<()>, t: MergeTask, lib: Library) returns (r: Result<(), CoreError>)
    modifies mach`files
    ensures r.Ok? <==> && Mergeable(t, lib) && t.Consistent(lib, t.Loaded(lib).value)
                       && t.output !in old(mach.files) && t.output + ".partial" !in old(mach.files)
    ensures r.Ok? ==>
      var m := t.Loaded(lib).value;
      && t.output in mach.files
      && mach.files == old(mach.files)[t.output := File(mach.files[t.output].identity, t.Joined(lib, m, |m.slices|))]
    ensures r.Err? && r.error != FinalHashMismatch ==> mach.files == old(mach.files)
    ensures r.Err? ==> forall name :: name in old(mach.files) ==> name in mach.files && mach.files[name] == old(mach.files)[name]
  {
    hide Accepted, MergeTask.Joined, PackageVerifies, WithinLimits, StraySlices, ReadableManifest, SlicePresent;
    var partial := t.output + ".partial";
    assert |partial| != |t.output|;
    if t.manifestName !in t.package { return Err(Missing(t.manifestName)); }
    var loaded := LoadManifest(t.package[t.manifestName].bytes, lib);
    if loaded.Err? { return Err(InvalidManifest); }
    var m := loaded.value;
    LoadedIsAccepted(t, lib);
    AcceptedRowCount(m, lib);
    var inspection := InspectPackage(t.package, lib, m);
    if inspection.Err? { return Err(inspection.error); }
    if inspection.value.missing != [] { return Err(MissingSlices); }
    if inspection.value.corrupted != [] { return Err(CorruptedSlices); }
    if inspection.value.unexpected != {} { return Err(UnexpectedSlices); }
    if t.output in mach.files { return Err(Collision(t.output)); }
    if partial in mach.files { return Err(Collision(partial)); }
    NothingJoined(t, lib, m);
    var identity := SomeIdentity(mach.files);
    var created := mach.CreateNew(partial, identity);
    for i := 0 to |m.slices|
      invariant mach.files == old(mach.files)[partial := File(identity, t.Joined(lib, m, i))]
    {
      NextSlice(t, lib, m, i);
      var content := t.package[m.slices[i].filename].bytes;
      assert content[..m.slices[i].size] == content;
      AppendAll(mach, partial, content[..m.slices[i].size]);
    }
    if lib.hash(mach.files[partial].bytes) != m.original.sha256 { return Err(FinalHashMismatch); }
    JoinedLength(t, lib, m, |m.slices|);
    var finalized := mach.FinalizeStaged(lib, partial, t.output, identity, m.original.size, m.original.sha256);
    match finalized {
      case Err(e) => return Err(e);
      case Ok(_) => return Ok(());
    }
  }

  // ----- Split, then Merge -----

  /** The outputs of a Split are all in the folder, among whatever else is there. */
  ghost predicate Published(t: SplitTask, lib: Library, folder: Files) {
    forall i :: 1 <= i <= t.Count() + 1 ==> t.FinalName(i) in folder && folder[t.FinalName(i)].bytes == t.FinalBytes(lib, i)
  }

  /** Merging a published Split gives back the source, whatever it was and however it was cut. The
      merge is possible exactly when the Manifest file is within the size limit and nothing else in
      the folder gets in the way. */
  lemma SplitThenMergeIsIdentity(t: SplitTask, lib: Library, folder: Files, g: MergeTask)
    requires Faithful(lib, t.Manifest(lib)) && Accepted(t.Manifest(lib), lib)
    requires Published(t, lib, folder)
    requires g.package == folder && g.manifestName == t.ManifestName()
    ensures Mergeable(g, lib) <==> t.Readable(lib) && Resumable.FolderClean(t, folder)
    ensures Mergeable(g, lib) ==>
      var m := t.Manifest(lib);
      g.Loaded(lib) == Some(m) && g.Joined(lib, m, |m.slices|) == t.source && g.Consistent(lib, m)
  {
    hide Accepted, SplitTask.SliceBytes, SliceFilename, ManifestFilename, ManifestBytes, HashShape, Enumerable, IsSliceName;
    hide Faithful, ReadManifest;
    var m := t.Manifest(lib);
    assert t.FinalName(t.Count() + 1) == t.ManifestName();
    WrittenIsReadable(t, lib);
    hide ReadableManifest;
    forall p | 0 <= p < |m.slices|
      ensures SlicePresent(folder, lib, m.slices[p])
    {
      assert folder[t.FinalName(p + 1)].bytes == t.FinalBytes(lib, p + 1);
      Resumable.SliceBytesLength(t, p + 1);
    }
    Resumable.SliceNamesOfManifest(t, lib);
    if Mergeable(g, lib) {
      JoinedIsSlicesJoined(t, lib, g, t.Count());
      AcceptedSliceSize(m, lib);
      SlicesJoinToPrefix(t, t.Count());
    }
  }

  lemma AcceptedSliceSize(m: CakeManifest, lib: Library)
    requires Accepted(m, lib)
    ensures m.targetSliceSize >= 1
  {
    hide PortableFilename, HashShape;
  }

  lemma {:induction false} JoinedIsSlicesJoined(t: SplitTask, lib: Library, g: MergeTask, count: nat)
    requires Published(t, lib, g.package) && PackageVerifies(g.package, lib, t.Manifest(lib)) && count <= t.Count()
    ensures g.Joined(lib, t.Manifest(lib), count) == SlicesJoined(t, count)
  {
    hide PackageVerifies, SliceFilename, SplitTask.SliceBytes, ManifestBytes;
    if count > 0 {
      var m := t.Manifest(lib);
      JoinedIsSlicesJoined(t, lib, g, count - 1);
      NextSlice(g, lib, m, count - 1);
      assert m.slices[count - 1] == t.Entry(lib, count);
      assert g.package[t.FinalName(count)].bytes == t.FinalBytes(lib, count);
    }
  }

  /** A folder that holds nothing but the outputs is clean. */
  lemma OwnFolderIsClean(t: SplitTask, lib: Library, folder: Files)
    requires Admissible(t) && Holds(t, lib, map[], folder)
    ensures Resumable.FolderClean(t, folder)
  {
    hide PortableFilename, SliceFilename, Utf8Length, SplitTask.FinalBytes;
    Resumable.ManifestIsLastOutput(t);
    var names := OutputNameSet(t, t.Count() + 1);
    assert folder.Keys <= names;
    SubsetSize(folder.Keys, names);
    forall name | name in folder
      ensures Utf8Length(name) <= MAX_FILENAME_BYTES
    {
      var i :| 1 <= i <= t.Count() + 1 && name == t.FinalName(i);
      PortableIsShort(name);
    }
    forall name | name in folder && IsSliceName(name)
      ensures exists i :: 1 <= i <= t.Count() && t.FinalName(i) == name
    {
      var i :| 1 <= i <= t.Count() + 1 && name == t.FinalName(i);
      ManifestIsNoSlice(t);
    }
  }

  lemma ManifestIsNoSlice(t: SplitTask)
    ensures !IsSliceName(t.ManifestName())
  {
    var name := t.ManifestName();
    assert name[|name| - |SLICE_SUFFIX|..][5] == name[|name| - 1] == 'n';
  }

  lemma PortableIsShort(name: string)
    requires PortableFilename(name)
    ensures Utf8Length(name) <= MAX_FILENAME_BYTES
  {
  }

  lemma OutputNameSet(t: SplitTask, count: nat) returns (names: set<string>)
    ensures |names| <= count
    ensures forall i :: 1 <= i <= count ==> t.FinalName(i) in names
  {
    if count == 0 {
      return {};
    }
    names := OutputNameSet(t, count - 1);
    names := names + {t.FinalName(count)};
  }

  /** The law on the methods themselves: a Split into an empty folder followed by a Merge into another
      returns every byte of the source, for every admissible task whose Manifest can be read back, and
      fails without a result for every other. */
  method RoundTrip(t: SplitTask, lib: Library, output: string, taskId: string) returns (result: Option<seq<byte>>)
    requires lib.isUuid(t.packageId) && lib.isTimestamp(t.createdAt) && Faithful(lib, t.Manifest(lib))
    ensures result == if Admissible(t) && t.Readable(lib) then Some(t.source) else None
  {
    hide Admissible, Holds, Faithful, PackageVerifies, Accepted, SplitTask.Manifest, MergeTask.Joined, SplitTask.FinalName, Resumable.FolderClean;
    hide ReadableManifest, PartialPath, SplitTask.FinalBytes, SplitTask.ManifestName;
    var folder: Machine<()> := new Machine<()>(map[], None);
    var split := Split(folder, t, lib);
    if split.Err? { return None; }
    OwnFolderIsClean(t, lib, folder.files);
    AdmissibleIsAccepted(t, lib);
    var g := MergeTask(folder.files, split.value, output, taskId);
    HeldIsPublished(t, lib, folder.files);
    SplitThenMergeIsIdentity(t, lib, folder.files, g);
    var target: Machine<()> := new Machine<()>(map[], None);
    var merged := Merge(target, g, lib);
    if merged.Err? { return None; }
    return Some(target.files[output].bytes);
  }

  lemma HeldIsPublished(t: SplitTask, lib: Library, folder: Files)
    requires Holds(t, lib, map[], folder)
    ensures Published(t, lib, folder)
  {
    hide SplitTask.FinalName, SplitTask.FinalBytes;
  }

  lemma AdmissibleIsAccepted(t: SplitTask, lib: Library)
    requires Admissible(t) && lib.isUuid(t.packageId) && lib.isTimestamp(t.createdAt) && Faithful(lib, t.Manifest(lib))
    ensures Accepted(t.Manifest(lib), lib)
  {
    hide PortableFilename, HashShape, SliceFilename, SliceIndexWidth, ExpectedSliceCount, ManifestBytes;
    ManifestIsBuilt(t, lib, t.Manifest(lib));
  }

  /** Every admissible task of at most 41,000 Slices has a readable Manifest, so it round-trips. */
  lemma ModerateTasksAreReadable(t: SplitTask, lib: Library)
    requires Admissible(t) && lib.isUuid(t.packageId) && lib.isTimestamp(t.createdAt) && Faithful(lib, t.Manifest(lib))
    requires t.Count() <= 41_000 && Utf8Length(t.packageId) + Utf8Length(t.createdAt) <= 1_000
    ensures t.Readable(lib)
  {
    hide Admissible, Faithful, Utf8Length, ManifestBytes, Accepted, SplitTask.Entries;
    AdmissibleIsAccepted(t, lib);
    ModerateManifestsAreReadable(t.Manifest(lib), lib);
  }

  lemma ZerosAreAHash(value: string)
    requires |value| == 64 && forall k :: 0 <= k < 64 ==> value[k] == '0'
    ensures HashShape(value)
  {
  }

  /** The premises of the round trip can be met. */
  lemma SomeTaskRoundTrips() returns (t: SplitTask, lib: Library)
    ensures lib.isUuid(t.packageId) && lib.isTimestamp(t.createdAt) && Faithful(lib, t.Manifest(lib))
    ensures Admissible(t) && t.Readable(lib)
  {
    hide CleanName, Utf8Length, ManifestBytes, SliceFilename, Decimal, HashShape, ReadManifest;
    var name: string := seq(5, _ => 'a');
    t := SplitTask([], name, 1, "task", "package", "now");
    var zeros: string := seq(64, _ => '0');
    ZerosAreAHash(zeros);
    lib := Library(_ => zeros, _ => true, _ => true, ReadManifest);
    Utf8Ascii(name);
    LongNameIsClean(name);
    DerivedNamesPortable(name, 1, 1);
    Utf8Ascii(t.packageId);
    Utf8Ascii(t.createdAt);
    ModerateTasksAreReadable(t, lib);
  }
}
