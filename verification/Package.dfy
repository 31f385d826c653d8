/** The Cake Package a Split is meant to publish, as a function of its source and options, and the
    inspection that decides whether a folder holds a given package. */
module Package {
  import opened FiniteSets
  import opened Wrappers
  import opened SliceArithmetic
  import opened SliceNames
  import opened Json
  import opened Manifest
  import opened Disk

  const MAX_DIRECTORY_ENTRIES: nat := 65_536
  const MAX_DIAGNOSTIC_ENTRIES: nat := 1_024
  const MAX_SLICE_CANDIDATES: nat := MAX_SLICE_COUNT + 1_024

  /** One Split task. `source` is the byte content of the input file. */
  datatype SplitTask = SplitTask(
    source: seq<byte>, original: string, sliceSize: nat, taskId: string, packageId: string, createdAt: string)
  {
    function Count(): nat {
      ExpectedSliceCount(|source|, sliceSize)
    }

    function ManifestName(): string {
      ManifestFilename(original)
    }

    /** Output `index`: a Slice for 1..Count(), the Manifest for Count() + 1. */
    function FinalName(index: nat): string {
      if index <= Count() then SliceFilename(original, index, SliceIndexWidth(Count())) else ManifestName()
    }

    function PartialName(index: nat): string {
      FinalName(index) + "." + taskId + ".partial"
    }

    predicate Owns(name: string) {
      exists index :: 1 <= index <= Count() + 1 && (name == FinalName(index) || name == PartialName(index))
    }

    function SliceBytes(index: nat): seq<byte>
      requires 1 <= index <= Count()
    {
      PlanWithinSource(|source|, sliceSize, index);
      source[PlanOffset(sliceSize, index)..PlanOffset(sliceSize, index) + PlanSize(|source|, sliceSize, index)]
    }

    function Entry(lib: Library, index: nat): SliceEntry
      requires 1 <= index <= Count()
    {
      SliceEntry(index, FinalName(index), PlanOffset(sliceSize, index), PlanSize(|source|, sliceSize, index),
                 lib.hash(SliceBytes(index)))
    }

    function Entries(lib: Library, count: nat): seq<SliceEntry>
      requires count <= Count()
    {
      seq(count, i requires 0 <= i < count => Entry(lib, i + 1))
    }

    function Manifest(lib: Library): CakeManifest {
      CakeManifest(FORMAT_IDENTIFIER, FORMAT_VERSION, packageId, createdAt,
                   OriginalFile(original, |source|, lib.hash(source)), sliceSize, Count(), Entries(lib, Count()))
    }

    function FinalBytes(lib: Library, index: nat): seq<byte>
      requires 1 <= index <= Count() + 1
    {
      if index <= Count() then SliceBytes(index) else ManifestBytes(Manifest(lib))
    }

    /** The checks a Split makes before it touches the folder. */
    predicate Legal(lib: Library) {
      && lib.isUuid(taskId) && lib.isUuid(packageId)
      && 1 <= sliceSize <= MAX_SAFE_INTEGER && PortableFilename(original)
      && |source| <= MAX_SAFE_INTEGER && Count() <= MAX_SLICE_COUNT && PortableFilename(ManifestName())
    }

    /** The condition under which the finished Manifest passes `validate`; a resumable Split only
        finds out after the last Slice. */
    predicate Publishable(lib: Library) {
      lib.isTimestamp(createdAt) && (Count() > 0 ==> Utf8Length(original) + 7 + SliceIndexWidth(Count()) <= MAX_FILENAME_BYTES)
    }

    ghost predicate Readable(lib: Library) {
      |ManifestBytes(Manifest(lib))| <= MAX_MANIFEST_BYTES
    }
  }

  /** The hash is total and well formed, identifiers and time stamps need no escape, and on this file the
      library's JSON reader answers as `ReadManifest`. */
  ghost predicate Faithful(lib: Library, m: CakeManifest) {
    && (forall bytes :: HashShape(lib.hash(bytes)))
    && (lib.isUuid(m.packageId) ==> PlainText(m.packageId))
    && (lib.isTimestamp(m.createdAt) ==> PlainText(m.createdAt))
    && lib.parse(ManifestBytes(m)) == ReadManifest(ManifestBytes(m))
  }

  /** So an accepted Manifest is read back from the bytes written for it. */
  lemma FaithfulReads(lib: Library, m: CakeManifest)
    requires Faithful(lib, m) && Accepted(m, lib)
    ensures lib.parse(ManifestBytes(m)) == Some(m) && ReadManifest(ManifestBytes(m)) == Some(m)
  {
    AcceptedIsPlain(m, lib);
  }

  lemma WrittenIsReadable(t: SplitTask, lib: Library)
    requires Faithful(lib, t.Manifest(lib)) && Accepted(t.Manifest(lib), lib)
    ensures var m := t.Manifest(lib);
            ReadableManifest(ManifestBytes(m), lib) == if |ManifestBytes(m)| <= MAX_MANIFEST_BYTES then Some(m) else None
  {
    hide Accepted, ManifestBytes, ReadManifest, SplitTask.Manifest;
    FaithfulReads(lib, t.Manifest(lib));
    hide Faithful;
    ReadableIffWithinLimit(t.Manifest(lib), lib);
  }

  /** What a published Manifest says, as the reader finds it in the bytes: the identity of the package and of
      the source, and one row for each `sliceSize` bytes of the source, the last one shorter, each with the
      name, place, length and hash of its part. */
  ghost predicate SaysThePlan(t: SplitTask, lib: Library, content: seq<byte>) {
    && ReadManifest(content).Some?
    && var m := ReadManifest(content).value;
       && m.format == "cakesplitter" && m.version == "1.0" && m.packageId == t.packageId && m.createdAt == t.createdAt
       && m.original == OriginalFile(t.original, |t.source|, lib.hash(t.source))
       && m.targetSliceSize == t.sliceSize && m.sliceCount == |m.slices| == t.Count()
       && forall p :: 0 <= p < |m.slices| ==> RowSays(t, lib, m.slices[p], p, |m.slices|)
  }

  ghost predicate RowSays(t: SplitTask, lib: Library, row: SliceEntry, p: nat, count: nat) {
    && p * t.sliceSize < |t.source|
    && var end := if (p + 1) * t.sliceSize <= |t.source| then (p + 1) * t.sliceSize else |t.source|;
       && p * t.sliceSize <= end
       && row == SliceEntry(p + 1, SliceFilename(t.original, p + 1, SliceIndexWidth(count)), p * t.sliceSize,
                            end - p * t.sliceSize, lib.hash(t.source[p * t.sliceSize..end]))
  }

  lemma WrittenSaysThePlan(t: SplitTask, lib: Library)
    requires Faithful(lib, t.Manifest(lib)) && Accepted(t.Manifest(lib), lib)
    ensures SaysThePlan(t, lib, ManifestBytes(t.Manifest(lib)))
  {
    var m := t.Manifest(lib);
    FaithfulReads(lib, m);
    hide Faithful, Accepted, ReadManifest, ManifestBytes, SliceFilename, SliceIndexWidth, RowSays, SplitTask.Entry;
    AcceptedRowCount(m, lib);
    AcceptedTarget(m, lib);
    forall p | 0 <= p < |m.slices|
      ensures RowSays(t, lib, m.slices[p], p, |m.slices|)
    {
      PlannedRow(t, lib, p);
    }
  }

  lemma PlannedRow(t: SplitTask, lib: Library, p: nat)
    requires t.sliceSize >= 1 && p < t.Count()
    ensures RowSays(t, lib, t.Entry(lib, p + 1), p, t.Count())
  {
    PlanWithinSource(|t.source|, t.sliceSize, p + 1);
    hide ExpectedSliceCount, SliceFilename, SliceIndexWidth;
    assert (p + 1) * t.sliceSize == p * t.sliceSize + t.sliceSize;
  }

  lemma AcceptedTarget(m: CakeManifest, lib: Library)
    requires Accepted(m, lib)
    ensures m.targetSliceSize >= 1
  {
    hide PortableFilename, HashShape, TablePlanned;
  }

  /** The Manifest a Split builds is the one `validate` accepts, exactly under `Publishable`. */
  lemma BuiltManifestAccepted(t: SplitTask, lib: Library)
    requires t.Legal(lib) && forall bytes :: HashShape(lib.hash(bytes))
    ensures Accepted(t.Manifest(lib), lib) <==> t.Publishable(lib)
  {
    var m := t.Manifest(lib);
    hide PortableFilename, HashShape, SliceFilename, SliceIndexWidth, ExpectedSliceCount;
    forall p | 0 <= p < |m.slices|
      ensures RowPlanned(m, p) <==> Utf8Length(t.original) + 7 + SliceIndexWidth(t.Count()) <= MAX_FILENAME_BYTES
    {
      assert m.slices[p] == t.Entry(lib, p + 1);
      DerivedNamesPortable(t.original, t.Count(), p + 1);
    }
    if t.Count() > 0 && Accepted(m, lib) {
      assert RowPlanned(m, 0);
    }
  }

  /** A legal, publishable Split whose Manifest cannot be read back: 50,000 one-byte Slices of a file
      with a 188-byte name. */
  lemma UnreadablePublication(lib: Library, taskId: string, packageId: string, createdAt: string)
    returns (t: SplitTask)
    requires lib.isUuid(taskId) && lib.isUuid(packageId) && lib.isTimestamp(createdAt)
    requires forall bytes :: HashShape(lib.hash(bytes))
    ensures t.Legal(lib) && t.Publishable(lib) && !t.Readable(lib)
  {
    hide HashShape, Utf8Length, CleanName, SliceFilename, SliceIndexWidth, ManifestBytes, SplitTask.Manifest;
    var name: string := seq(188, _ => 'a');
    Utf8Ascii(name);
    LongNameIsClean(name);
    t := SplitTask(seq(50_000, _ => 0), name, 1, taskId, packageId, createdAt);
    LongNamedTaskIsUnreadable(t, lib);
  }

  lemma LongNamedTaskIsUnreadable(t: SplitTask, lib: Library)
    requires lib.isUuid(t.taskId) && lib.isUuid(t.packageId) && lib.isTimestamp(t.createdAt)
    requires |t.source| == 50_000 && t.sliceSize == 1 && Utf8Length(t.original) == 188 && CleanName(t.original)
    requires forall bytes :: HashShape(lib.hash(bytes))
    ensures t.Legal(lib) && t.Publishable(lib) && !t.Readable(lib)
  {
    hide HashShape, Utf8Length, CleanName, SliceFilename, SliceIndexWidth, ManifestBytes;
    assert t.Count() == 50_000;
    FiftyThousandNeedFiveDigits();
    CleanWithSuffix(t.original, MANIFEST_SUFFIX);
    var m := t.Manifest(lib);
    forall p | 0 <= p < |m.slices|
      ensures HashShape(m.slices[p].sha256) && Utf8Length(m.slices[p].filename) == 200
    {
      assert m.slices[p] == t.Entry(lib, p + 1);
      SliceNameLength(t.original, p + 1, 50_000);
    }
    LargeManifestsAreNot(m);
  }

  lemma FiftyThousandNeedFiveDigits()
    ensures SliceIndexWidth(50_000) == 5
  {
    assert Power10(2) == 100;
    assert Power10(4) == 10_000;
    DecimalLength(50_000, 4);
    DecimalLength(50_000, 5);
  }

  lemma LongNameIsClean(name: string)
    requires |name| > 4 && forall k :: 0 <= k < |name| ==> name[k] == 'a'
    ensures CleanName(name)
  {
    var base := Basename(name);
    BasenameOfUndotted(name);
    assert UpperCase(base)[0] == 'A' && |UpperCase(base)| > 4;
  }

  lemma {:induction false} BasenameOfUndotted(name: string)
    requires forall k :: 0 <= k < |name| ==> name[k] != '.'
    ensures Basename(name) == name
  {
    if name != "" {
      BasenameOfUndotted(name[1..]);
    }
  }

  lemma SliceNameLength(original: string, index: nat, count: nat)
    requires 1 <= index <= count && CleanName(original)
    ensures Utf8Length(SliceFilename(original, index, SliceIndexWidth(count)))
         == Utf8Length(original) + 7 + SliceIndexWidth(count)
  {
    hide CleanName, Utf8Length, SliceIndexWidth;
    var width := SliceIndexWidth(count);
    IndexFitsWidth(index, count);
    PaddedValue(index, width);
    var digits := PadStart(Decimal(index), width);
    hide PadStart, Decimal;
    DigitsSuffix(digits);
    NameParts(original, digits);
    CleanWithSuffix(original, "." + digits + SLICE_SUFFIX);
  }

  lemma NameParts(original: string, digits: string)
    ensures original + "." + digits + SLICE_SUFFIX == original + ("." + digits + SLICE_SUFFIX)
  {
  }

  lemma DigitsSuffix(digits: string)
    requires forall c :: c in digits ==> '0' <= c <= '9'
    ensures var suffix := "." + digits + SLICE_SUFFIX;
            && |suffix| == |digits| + 7 && suffix[0] == '.' && suffix[|suffix| - 1] != '.'
            && forall c :: c in suffix ==> c == '.' || '0' <= c <= '9' || 'a' <= c <= 'z'
  {
  }

  // ----- Names -----

  lemma FinalNamesInjective(t: SplitTask, i: nat, j: nat)
    requires 1 <= i <= t.Count() + 1 && 1 <= j <= t.Count() + 1 && t.FinalName(i) == t.FinalName(j)
    ensures i == j
  {
    var w := SliceIndexWidth(t.Count());
    if i <= t.Count() && j <= t.Count() {
      SliceFilenamesInjective(t.original, i, w, j, w);
    } else if i <= t.Count() {
      SliceIsNotManifest(t.original, i, w);
    } else if j <= t.Count() {
      SliceIsNotManifest(t.original, j, w);
    }
  }

  lemma PartialNamesInjective(t: SplitTask, i: nat, j: nat)
    requires 1 <= i <= t.Count() + 1 && 1 <= j <= t.Count() + 1 && t.PartialName(i) == t.PartialName(j)
    ensures i == j
  {
    hide SplitTask.FinalName, SplitTask.Count;
    var suffix := "." + t.taskId + ".partial";
    NameAndSuffix(t.FinalName(i), t.taskId);
    NameAndSuffix(t.FinalName(j), t.taskId);
    CancelSuffix(t.FinalName(i), t.FinalName(j), suffix);
    FinalNamesInjective(t, i, j);
  }

  lemma NameAndSuffix(name: string, taskId: string)
    ensures name + "." + taskId + ".partial" == name + ("." + taskId + ".partial")
  {
  }

  lemma CancelSuffix(a: string, b: string, suffix: string)
    requires a + suffix == b + suffix
    ensures a == b
  {
    assert a == (a + suffix)[..|a + suffix| - |suffix|];
    assert b == (b + suffix)[..|b + suffix| - |suffix|];
  }

  lemma PartialIsNotFinal(t: SplitTask, i: nat, j: nat)
    ensures t.PartialName(i) != t.FinalName(j)
  {
    var p, f := t.PartialName(i), t.FinalName(j);
    assert p[|p| - 1] == 'l';
    assert f[|f| - 1] == (if j <= t.Count() then 'e' else 'n');
  }

  /** All output and staging names of one task are distinct. */
  ghost predicate NamesDistinct(t: SplitTask) {
    && (forall i, j :: 1 <= i <= t.Count() + 1 && 1 <= j <= t.Count() + 1 && t.FinalName(i) == t.FinalName(j) ==> i == j)
    && (forall i, j :: 1 <= i <= t.Count() + 1 && 1 <= j <= t.Count() + 1 && t.PartialName(i) == t.PartialName(j) ==> i == j)
    && (forall i: nat, j: nat :: t.PartialName(i) != t.FinalName(j))
  }

  lemma NamesAreDistinct(t: SplitTask)
    ensures NamesDistinct(t)
  {
    forall i, j | 1 <= i <= t.Count() + 1 && 1 <= j <= t.Count() + 1 && t.FinalName(i) == t.FinalName(j)
      ensures i == j
    {
      FinalNamesInjective(t, i, j);
    }
    forall i, j | 1 <= i <= t.Count() + 1 && 1 <= j <= t.Count() + 1 && t.PartialName(i) == t.PartialName(j)
      ensures i == j
    {
      PartialNamesInjective(t, i, j);
    }
    forall i: nat, j: nat
      ensures t.PartialName(i) != t.FinalName(j)
    {
      PartialIsNotFinal(t, i, j);
    }
  }

  // ----- Concatenation -----

  function SlicesJoined(t: SplitTask, count: nat): seq<byte>
    requires count <= t.Count()
  {
    if count == 0 then [] else SlicesJoined(t, count - 1) + t.SliceBytes(count)
  }

  /** Joining the first Slices gives back exactly the covered prefix of the source; joining all of
      them gives the source, also when it is empty. */
  lemma {:induction false} SlicesJoinToPrefix(t: SplitTask, count: nat)
    requires count <= t.Count() && t.sliceSize >= 1
    ensures count == t.Count() ==> SlicesJoined(t, count) == t.source
    ensures count < t.Count() ==> PlanOffset(t.sliceSize, count + 1) <= |t.source|
    ensures count < t.Count() ==> SlicesJoined(t, count) == t.source[..PlanOffset(t.sliceSize, count + 1)]
  {
    hide SplitTask.Count, SplitTask.SliceBytes, PlanOffset;
    PlanEnds(t, count);
    if count > 0 {
      SlicesJoinToPrefix(t, count - 1);
      PlanEnds(t, count - 1);
      NextSliceBytes(t, count);
      assert t.source[..|t.source|] == t.source;
    }
  }

  lemma PlanEnds(t: SplitTask, count: nat)
    requires count <= t.Count() && t.sliceSize >= 1
    ensures count < t.Count() ==> PlanOffset(t.sliceSize, count + 1) < |t.source|
    ensures count == 0 ==> PlanOffset(t.sliceSize, count + 1) == 0 && (count == t.Count() ==> t.source == [])
  {
    if count < t.Count() {
      PlanWithinSource(|t.source|, t.sliceSize, count + 1);
    } else if count == 0 && |t.source| > 0 {
      CountIsExactCover(|t.source|, t.sliceSize, t.Count());
    }
  }

  lemma NextSliceBytes(t: SplitTask, count: nat)
    requires 1 <= count <= t.Count() && t.sliceSize >= 1
    ensures var cut, end := PlanOffset(t.sliceSize, count), if count == t.Count() then |t.source| else PlanOffset(t.sliceSize, count + 1);
            cut <= end <= |t.source| && t.source[..cut] + t.SliceBytes(count) == t.source[..end]
  {
    PlanWithinSource(|t.source|, t.sliceSize, count);
    hide ExpectedSliceCount;
    var cut := PlanOffset(t.sliceSize, count);
    var end := cut + PlanSize(|t.source|, t.sliceSize, count);
    assert t.source[..cut] + t.source[cut..end] == t.source[..end];
  }

  // ----- Inspection -----

  predicate IsSliceName(name: string) {
    |name| >= |SLICE_SUFFIX| && name[|name| - |SLICE_SUFFIX|..] == SLICE_SUFFIX
  }

  lemma IsSliceNameExactly(name: string)
    ensures IsSliceName(name) <==> exists front :: name == front + ".slice"
  {
    if IsSliceName(name) {
      assert name == name[..|name| - 6] + ".slice";
    }
    if front :| name == front + ".slice" {
      assert name[|name| - 6..] == ".slice";
    }
  }

  predicate SliceNamed(m: CakeManifest, name: string) {
    exists p :: 0 <= p < |m.slices| && m.slices[p].filename == name
  }

  predicate Enumerable(files: Files) {
    |files| <= MAX_DIRECTORY_ENTRIES && forall name :: name in files ==> Utf8Length(name) <= MAX_FILENAME_BYTES
  }

  predicate SlicePresent(files: Files, lib: Library, entry: SliceEntry) {
    && entry.filename in files
    && |files[entry.filename].bytes| == entry.size
    && lib.hash(files[entry.filename].bytes) == entry.sha256
  }

  ghost predicate PackageVerifies(files: Files, lib: Library, m: CakeManifest) {
    && Enumerable(files)
    && (forall p :: 0 <= p < |m.slices| ==> SlicePresent(files, lib, m.slices[p]))
    && (forall name :: name in files && IsSliceName(name) ==> SliceNamed(m, name))
  }

  datatype Inspection = Inspection(missing: seq<string>, corrupted: seq<string>, unexpected: set<string>)

  function SliceCandidates(files: Files): set<string> {
    set name | name in files && IsSliceName(name)
  }

  function StraySlices(files: Files, m: CakeManifest): set<string> {
    set name | name in files && IsSliceName(name) && !SliceNamed(m, name)
  }

  /** A folder whose listing stays within every limit. */
  ghost predicate WithinLimits(files: Files, m: CakeManifest) {
    && Enumerable(files)
    && |SliceCandidates(files)| <= MAX_SLICE_CANDIDATES
    && |StraySlices(files, m)| <= MAX_DIAGNOSTIC_ENTRIES
  }

  function SliceNamesUpTo(m: CakeManifest, count: nat): (names: set<string>)
    requires count <= |m.slices|
    ensures |names| <= count
    ensures forall p :: 0 <= p < count ==> m.slices[p].filename in names
  {
    if count == 0 then {} else SliceNamesUpTo(m, count - 1) + {m.slices[count - 1].filename}
  }

  /** For a Manifest of legal size the limit on candidate Slices never decides: a folder beyond it has too
      many unexpected ones already. */
  lemma CandidatesAreNamedOrUnexpected(files: Files, m: CakeManifest)
    requires |m.slices| <= MAX_SLICE_COUNT
    ensures WithinLimits(files, m) <==> Enumerable(files) && |StraySlices(files, m)| <= MAX_DIAGNOSTIC_ENTRIES
  {
    hide Enumerable, IsSliceName;
    var names := SliceNamesUpTo(m, |m.slices|);
    assert SliceCandidates(files) <= names + StraySlices(files, m);
    SubsetSize(SliceCandidates(files), names + StraySlices(files, m));
  }

  lemma LimitsInNumbers(files: Files, m: CakeManifest)
    ensures WithinLimits(files, m) <==>
            && |files| <= 65_536 && (forall name :: name in files ==> Utf8Length(name) <= 200)
            && |SliceCandidates(files)| <= 51_024 && |StraySlices(files, m)| <= 1_024
  {
    hide Utf8Length;
  }

  /** So a limit is only ever met by a folder that does not hold the package. */
  lemma VerifyingFolderIsWithinLimits(files: Files, lib: Library, m: CakeManifest)
    requires |m.slices| <= MAX_SLICE_COUNT && PackageVerifies(files, lib, m)
    ensures WithinLimits(files, m)
  {
    hide Enumerable, IsSliceName, SlicePresent;
    CandidatesAreNamedOrUnexpected(files, m);
    assert StraySlices(files, m) == {};
  }

  /** `inspect_package` with hashes: lists what is missing, damaged or not in the table. The three
      lists are empty together exactly when the folder holds the package. */
  method InspectPackage(files: Files, lib: Library, m: CakeManifest) returns (r: Result<Inspection, CoreError>)
    ensures r.Ok? <==> && |files| <= 65_536 && (forall name :: name in files ==> Utf8Length(name) <= 200)
                       && |SliceCandidates(files)| <= 51_024 && |StraySlices(files, m)| <= 1_024
    ensures r.Ok? ==> (r.value == Inspection([], [], {}) <==> PackageVerifies(files, lib, m))
    ensures r.Err? && |m.slices| <= MAX_SLICE_COUNT ==> !PackageVerifies(files, lib, m)
    ensures r.Ok? ==> forall name :: name in r.value.missing <==>
              exists p :: 0 <= p < |m.slices| && m.slices[p].filename == name && name !in files
    ensures r.Ok? ==> forall name :: name in r.value.corrupted <==>
              exists p :: 0 <= p < |m.slices| && m.slices[p].filename == name && name in files
                        && !SlicePresent(files, lib, m.slices[p])
    ensures r.Ok? ==> r.value.unexpected == StraySlices(files, m)
  {
    LimitsInNumbers(files, m);
    hide Enumerable, IsSliceName;
    var missing: seq<string>, corrupted: seq<string> := [], [];
    for p := 0 to |m.slices|
      invariant forall name :: name in missing <==>
                  exists q :: 0 <= q < p && m.slices[q].filename == name && name !in files
      invariant forall name :: name in corrupted <==>
                  exists q :: 0 <= q < p && m.slices[q].filename == name && name in files
                            && !SlicePresent(files, lib, m.slices[q])
      invariant missing == [] && corrupted == [] <==> forall q :: 0 <= q < p ==> SlicePresent(files, lib, m.slices[q])
    {
      var entry := m.slices[p];
      if entry.filename !in files {
        missing := missing + [entry.filename];
      } else if |files[entry.filename].bytes| != entry.size
             || lib.hash(files[entry.filename].bytes) != entry.sha256 {
        corrupted := corrupted + [entry.filename];
      }
    }
    if |m.slices| <= MAX_SLICE_COUNT && PackageVerifies(files, lib, m) {
      VerifyingFolderIsWithinLimits(files, lib, m);
    }
    if !Enumerable(files) || |SliceCandidates(files)| > MAX_SLICE_CANDIDATES { return Err(EnumerationLimit); }
    var unexpected := StraySlices(files, m);
    if |unexpected| > MAX_DIAGNOSTIC_ENTRIES { return Err(EnumerationLimit); }
    assert forall name :: name in files && IsSliceName(name) ==> SliceNamed(m, name) || name in unexpected;
    return Ok(Inspection(missing, corrupted, unexpected));
  }
}
