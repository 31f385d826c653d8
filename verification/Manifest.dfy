/** The Cake Package Manifest: strict validation (native and browser), the browser's own Slice
    planner, and the encoded size that decides whether a Manifest can be read back. */
module Manifest {
  import opened Wrappers
  import opened SliceArithmetic
  import opened SliceNames
  import opened Json
  import opened Encoding

  const FORMAT_IDENTIFIER: string := "cakesplitter"
  const FORMAT_VERSION: string := "1.0"
  const MAX_MANIFEST_BYTES: nat := 16 * 1024 * 1024

  type byte = Encoding.byte

  datatype SliceEntry = SliceEntry(index: nat, filename: string, offset: nat, size: nat, sha256: string)

  datatype OriginalFile = OriginalFile(filename: string, size: nat, sha256: string)

  datatype CakeManifest = CakeManifest(
    format: string, version: string, packageId: string, createdAt: string,
    original: OriginalFile, targetSliceSize: nat, sliceCount: nat, slices: seq<SliceEntry>)

  /** Library behaviour the model takes as given: the hash, the UUID and timestamp parsers and the
      JSON reader (nesting limit included). */
  datatype Library = Library(
    hash: seq<byte> -> string, isUuid: string -> bool, isTimestamp: string -> bool,
    parse: seq<byte> -> Option<CakeManifest>)

  datatype ManifestError =
    | ManifestTooLarge
    | InvalidJson
    | UnsupportedFormat
    | UnsupportedVersion
    | InvalidPackageId
    | InvalidTimestamp
    | UnsafeFilename(name: string)
    | InvalidHash(index: nat)
    | UnsafeInteger
    | InvalidTargetSliceSize
    | InvalidSliceCount
    | TooManySlices
    | SliceTableLength
    | DuplicateIndex(index: nat)
    | DuplicateFilename(name: string)
    | InvalidIndex(expected: nat, actual: nat)
    | InvalidOffset(index: nat, expectedOffset: nat, actualOffset: nat)
    | InvalidSliceSize(index: nat, expectedSize: nat, actualSize: nat)
    | InvalidSliceFilename(index: nat, expectedName: string, actualName: string)
    | IncompleteCoverage

  predicate HashShape(value: string) {
    |value| == 64 && forall c :: c in value ==> '0' <= c <= '9' || 'a' <= c <= 'f'
  }

  lemma HashShapeExactly(value: string)
    ensures HashShape(value) <==> |value| == 64 && forall k :: 0 <= k < 64 ==> value[k] in "0123456789abcdef"
  {
    forall k | 0 <= k < |value|
      ensures value[k] in "0123456789abcdef" <==> '0' <= value[k] <= '9' || 'a' <= value[k] <= 'f'
    {
      HexDigit(value[k]);
    }
    assert forall k :: 0 <= k < |value| ==> value[k] in value;
  }

  lemma HexDigit(c: char)
    ensures c in "0123456789abcdef" <==> '0' <= c <= '9' || 'a' <= c <= 'f'
  {
    var digits := "0123456789abcdef";
    if '0' <= c <= '9' {
      assert digits[(c - '0') as int] == c;
    } else if 'a' <= c <= 'f' {
      assert digits[10 + (c - 'a') as int] == c;
    }
  }

  /** Everything `validate` demands outside the Slice table. */
  predicate HeaderAccepted(m: CakeManifest, lib: Library) {
    && m.format == FORMAT_IDENTIFIER && m.version == FORMAT_VERSION
    && lib.isUuid(m.packageId) && lib.isTimestamp(m.createdAt)
    && PortableFilename(m.original.filename) && HashShape(m.original.sha256)
    && m.original.size <= MAX_SAFE_INTEGER && 1 <= m.targetSliceSize <= MAX_SAFE_INTEGER
    && m.sliceCount <= MAX_SLICE_COUNT
  }

  datatype PlanEntry = PlanEntry(index: nat, filename: string, offset: nat, size: nat)

  /** Row `index` of the closed-form plan. */
  function PlanRow(original: string, size: nat, target: nat, width: nat, index: nat): PlanEntry
    requires index >= 1
  {
    PlanEntry(index, SliceFilename(original, index, width), PlanOffset(target, index), PlanSize(size, target, index))
  }

  function ManifestRow(m: CakeManifest, index: nat): PlanEntry
    requires index >= 1
  {
    PlanRow(m.original.filename, m.original.size, m.targetSliceSize, SliceIndexWidth(m.sliceCount), index)
  }

  predicate RowIs(row: SliceEntry, planned: PlanEntry) {
    && PlanEntry(row.index, row.filename, row.offset, row.size) == planned
    && PortableFilename(row.filename)
    && HashShape(row.sha256)
  }

  /** Row `position` is the planned row, under a portable name and with a well-formed hash. */
  predicate RowPlanned(m: CakeManifest, position: nat)
    requires position < |m.slices|
  {
    RowIs(m.slices[position], ManifestRow(m, position + 1))
  }

  predicate TablePlanned(m: CakeManifest) {
    && m.sliceCount == ExpectedSliceCount(m.original.size, m.targetSliceSize)
    && |m.slices| == m.sliceCount
    && forall p :: 0 <= p < |m.slices| ==> RowPlanned(m, p)
  }

  predicate Accepted(m: CakeManifest, lib: Library) {
    HeaderAccepted(m, lib) && TablePlanned(m)
  }

  /** The checks before the Slice table, in their order, ... */
  predicate HeaderCheck(m: CakeManifest, lib: Library, k: nat) {
    if k == 0 then m.format == FORMAT_IDENTIFIER
    else if k == 1 then m.version == FORMAT_VERSION
    else if k == 2 then lib.isUuid(m.packageId)
    else if k == 3 then lib.isTimestamp(m.createdAt)
    else if k == 4 then PortableFilename(m.original.filename)
    else if k == 5 then HashShape(m.original.sha256)
    else if k == 6 then
      m.original.size <= MAX_SAFE_INTEGER && m.targetSliceSize <= MAX_SAFE_INTEGER && m.sliceCount <= MAX_SAFE_INTEGER
    else if k == 7 then m.targetSliceSize > 0
    else if k == 8 then m.sliceCount <= MAX_SLICE_COUNT && |m.slices| <= MAX_SLICE_COUNT
    else if k == 9 then m.sliceCount == ExpectedSliceCount(m.original.size, m.targetSliceSize)
    else |m.slices| == m.sliceCount
  }

  const HEADER_CHECKS: nat := 11

  /** ... and what each of them reports. */
  function HeaderError(m: CakeManifest, k: nat): ManifestError
    requires k < HEADER_CHECKS
  {
    [UnsupportedFormat, UnsupportedVersion, InvalidPackageId, InvalidTimestamp, UnsafeFilename(m.original.filename),
     InvalidHash(0), ManifestError.UnsafeInteger, InvalidTargetSliceSize, TooManySlices, InvalidSliceCount,
     SliceTableLength][k]
  }

  ghost predicate HeaderPasses(m: CakeManifest, lib: Library, count: nat) {
    forall k :: 0 <= k < count ==> HeaderCheck(m, lib, k)
  }

  lemma AcceptedRowCount(m: CakeManifest, lib: Library)
    requires Accepted(m, lib)
    ensures |m.slices| == m.sliceCount <= MAX_SLICE_COUNT
  {
    hide PortableFilename, HashShape, SliceFilename, SliceIndexWidth;
  }

  /** What an error must say to be true: it is the report of the first header check that fails, or the
      header passes and the row it names is the first that departs from the plan. */
  ghost predicate Explains(m: CakeManifest, lib: Library, e: ManifestError) {
    || (exists k :: 0 <= k < HEADER_CHECKS && HeaderPasses(m, lib, k) && !HeaderCheck(m, lib, k) && e == HeaderError(m, k))
    || (HeaderPasses(m, lib, HEADER_CHECKS) && TableExplains(m, e))
  }

  /** The rows before the named one are the plan, and the named field of that row is wrong. */
  ghost predicate TableExplains(m: CakeManifest, e: ManifestError) {
    match e
    case UnsafeInteger => exists p :: 0 <= p < |m.slices| && RowsPlanned(m, p) && UnsafeRow(m.slices[p])
    case DuplicateIndex(index) =>
      exists p :: 0 <= p < |m.slices| && RowsPlanned(m, p) && m.slices[p].index == index && 1 <= index <= p
    case DuplicateFilename(name) =>
      exists p, q :: 0 <= q < p < |m.slices| && RowsPlanned(m, p) && m.slices[p].filename == name == m.slices[q].filename
    case InvalidIndex(expected, actual) =>
      && 1 <= expected <= |m.slices| && RowsPlanned(m, expected - 1)
      && m.slices[expected - 1].index == actual && actual != expected
    case UnsafeFilename(name) =>
      exists p :: 0 <= p < |m.slices| && RowsPlanned(m, p) && m.slices[p].filename == name && !PortableFilename(name)
    case InvalidHash(index) =>
      1 <= index <= |m.slices| && RowsPlanned(m, index - 1) && !HashShape(m.slices[index - 1].sha256)
    case InvalidOffset(index, expected, actual) =>
      && 1 <= index <= |m.slices| && RowsPlanned(m, index - 1)
      && m.slices[index - 1].offset == actual != expected == PlanOffset(m.targetSliceSize, index)
    case InvalidSliceSize(index, expected, actual) =>
      && 1 <= index <= |m.slices| && RowsPlanned(m, index - 1)
      && m.slices[index - 1].size == actual != expected == PlanSize(m.original.size, m.targetSliceSize, index)
    case InvalidSliceFilename(index, expected, actual) =>
      && 1 <= index <= |m.slices| && RowsPlanned(m, index - 1)
      && m.slices[index - 1].filename == actual != expected
      && expected == SliceFilename(m.original.filename, index, SliceIndexWidth(m.sliceCount))
    case _ => false
  }

  predicate UnsafeRow(row: SliceEntry) {
    row.index > MAX_SAFE_INTEGER || row.offset > MAX_SAFE_INTEGER || row.size > MAX_SAFE_INTEGER
  }

  ghost predicate RowsPlanned(m: CakeManifest, count: nat) {
    count <= |m.slices| && forall p :: 0 <= p < count ==> RowPlanned(m, p)
  }

  /** The native `CakeManifest::validate`. It accepts exactly the plan, every error is that of the
      first failing header check or of the first row off the plan, and the final coverage check never fires. */
  method Validate(m: CakeManifest, lib: Library) returns (r: Result<(), ManifestError>)
    ensures r.Ok? <==> Accepted(m, lib)
    ensures r.Ok? ==>
      && m.format == "cakesplitter" && m.version == "1.0" && lib.isUuid(m.packageId) && lib.isTimestamp(m.createdAt)
      && m.original.size <= 9_007_199_254_740_991 && 1 <= m.targetSliceSize <= 9_007_199_254_740_991
      && |m.slices| == m.sliceCount <= 50_000
    ensures r.Err? ==> Explains(m, lib, r.error)
  {
    hide TableExplains, ExpectedSliceCount, PortableFilename, HashShape;
    var header := ValidateHeader(m, lib);
    if header.Err? { return header; }
    HeaderPassesMeans(m, lib);
    r := ValidateTable(m);
  }

  /** The checks before the table, in the order of the original. */
  method ValidateHeader(m: CakeManifest, lib: Library) returns (r: Result<(), ManifestError>)
    ensures r.Ok? <==> HeaderPasses(m, lib, HEADER_CHECKS)
    ensures r.Err? ==> exists k :: 0 <= k < HEADER_CHECKS && HeaderPasses(m, lib, k) && !HeaderCheck(m, lib, k)
                                   && r.error == HeaderError(m, k)
  {
    hide ExpectedSliceCount, PortableFilename, HashShape;
    var failed: nat;
    if m.format != FORMAT_IDENTIFIER { r, failed := Err(UnsupportedFormat), 0; }
    else if m.version != FORMAT_VERSION { r, failed := Err(UnsupportedVersion), 1; }
    else if !lib.isUuid(m.packageId) { r, failed := Err(InvalidPackageId), 2; }
    else if !lib.isTimestamp(m.createdAt) { r, failed := Err(InvalidTimestamp), 3; }
    else if !PortableFilename(m.original.filename) { r, failed := Err(UnsafeFilename(m.original.filename)), 4; }
    else if !HashShape(m.original.sha256) { r, failed := Err(InvalidHash(0)), 5; }
    else if m.original.size > MAX_SAFE_INTEGER || m.targetSliceSize > MAX_SAFE_INTEGER || m.sliceCount > MAX_SAFE_INTEGER {
      r, failed := Err(ManifestError.UnsafeInteger), 6;
    }
    else if m.targetSliceSize == 0 { r, failed := Err(InvalidTargetSliceSize), 7; }
    else if m.sliceCount > MAX_SLICE_COUNT || |m.slices| > MAX_SLICE_COUNT { r, failed := Err(TooManySlices), 8; }
    else if m.sliceCount != ExpectedSliceCount(m.original.size, m.targetSliceSize) { r, failed := Err(InvalidSliceCount), 9; }
    else if |m.slices| != m.sliceCount { r, failed := Err(SliceTableLength), 10; }
    else { r, failed := Ok(()), HEADER_CHECKS; }
    assert HeaderPasses(m, lib, failed);
    if r.Err? {
      assert !HeaderCheck(m, lib, failed) && r.error == HeaderError(m, failed);
    }
  }

  lemma HeaderPassesMeans(m: CakeManifest, lib: Library)
    ensures HeaderPasses(m, lib, HEADER_CHECKS)
      <==> HeaderAccepted(m, lib) && |m.slices| == m.sliceCount == ExpectedSliceCount(m.original.size, m.targetSliceSize)
  {
    hide ExpectedSliceCount, PortableFilename, HashShape;
    if HeaderPasses(m, lib, HEADER_CHECKS) {
      assert HeaderCheck(m, lib, 0) && HeaderCheck(m, lib, 1) && HeaderCheck(m, lib, 2) && HeaderCheck(m, lib, 3);
      assert HeaderCheck(m, lib, 4) && HeaderCheck(m, lib, 5) && HeaderCheck(m, lib, 6) && HeaderCheck(m, lib, 7);
      assert HeaderCheck(m, lib, 8) && HeaderCheck(m, lib, 9) && HeaderCheck(m, lib, 10);
    }
  }

  /** Where the row after the first `position` ones must start: the end of the source after the last. */
  ghost function NextOffset(m: CakeManifest, position: nat): nat {
    if position >= m.sliceCount then m.original.size else PlanOffset(m.targetSliceSize, position + 1)
  }

  lemma NextOffsetAdvances(m: CakeManifest, position: nat)
    requires m.targetSliceSize >= 1
    requires m.sliceCount == ExpectedSliceCount(m.original.size, m.targetSliceSize)
    requires position < m.sliceCount
    ensures NextOffset(m, position) == ManifestRow(m, position + 1).offset < m.original.size
    ensures ManifestRow(m, position + 1).size == Min(m.original.size - NextOffset(m, position), m.targetSliceSize)
    ensures NextOffset(m, position) + ManifestRow(m, position + 1).size == NextOffset(m, position + 1)
  {
    PlanWithinSource(m.original.size, m.targetSliceSize, position + 1);
  }

  lemma NextOffsetStartsAtZero(m: CakeManifest)
    requires m.sliceCount == ExpectedSliceCount(m.original.size, m.targetSliceSize) && m.targetSliceSize >= 1
    ensures NextOffset(m, 0) == 0
  {
  }

  /** The checks of one row against the values the loop computed for it. */
  method CheckRow(row: SliceEntry, planned: PlanEntry, seenIndex: bool, seenName: bool)
    returns (r: Result<(), ManifestError>)
    requires planned.index <= MAX_SAFE_INTEGER && planned.offset <= MAX_SAFE_INTEGER && planned.size <= MAX_SAFE_INTEGER
    requires seenIndex ==> row.index != planned.index
    requires seenName ==> row.filename != planned.filename
    ensures r.Ok? <==> RowIs(row, planned)
    ensures r.Err? ==>
      match r.error
      case DuplicateIndex(index) => seenIndex && index == row.index
      case DuplicateFilename(name) => seenName && name == row.filename
      case InvalidIndex(expected, actual) => expected == planned.index != actual == row.index
      case InvalidOffset(index, expected, actual) =>
        index == planned.index && expected == planned.offset != actual == row.offset
      case InvalidSliceSize(index, expected, actual) =>
        index == planned.index && expected == planned.size != actual == row.size
      case InvalidSliceFilename(index, expected, actual) =>
        index == planned.index && expected == planned.filename != actual == row.filename
      case UnsafeInteger => UnsafeRow(row) && (|| row.index > 9_007_199_254_740_991 || row.offset > 9_007_199_254_740_991
                                             || row.size > 9_007_199_254_740_991)
      case UnsafeFilename(name) => name == row.filename && !PortableFilename(name)
      case InvalidHash(index) => index == row.index == planned.index && !HashShape(row.sha256)
      case _ => false
  {
    if row.index > MAX_SAFE_INTEGER || row.offset > MAX_SAFE_INTEGER || row.size > MAX_SAFE_INTEGER {
      return Err(ManifestError.UnsafeInteger);
    }
    if seenIndex { return Err(DuplicateIndex(row.index)); }
    if seenName { return Err(DuplicateFilename(row.filename)); }
    if row.index != planned.index { return Err(InvalidIndex(planned.index, row.index)); }
    if !PortableFilename(row.filename) { return Err(UnsafeFilename(row.filename)); }
    if !HashShape(row.sha256) { return Err(InvalidHash(row.index)); }
    if row.offset != planned.offset { return Err(InvalidOffset(row.index, planned.offset, row.offset)); }
    if row.size != planned.size { return Err(ManifestError.InvalidSliceSize(row.index, planned.size, row.size)); }
    if row.filename != planned.filename {
      return Err(InvalidSliceFilename(row.index, planned.filename, row.filename));
    }
    return Ok(());
  }

  method ValidateTable(m: CakeManifest) returns (r: Result<(), ManifestError>)
    requires m.original.size <= MAX_SAFE_INTEGER && 1 <= m.targetSliceSize <= MAX_SAFE_INTEGER
    requires m.sliceCount == ExpectedSliceCount(m.original.size, m.targetSliceSize) <= MAX_SLICE_COUNT
    requires |m.slices| == m.sliceCount
    ensures r.Ok? <==> TablePlanned(m)
    ensures r.Err? ==> TableExplains(m, r.error)
  {
    hide PortableFilename, HashShape, UnsafeRow, SliceFilename, SliceIndexWidth, ExpectedSliceCount;
    var width := SliceIndexWidth(m.sliceCount);
    var expectedOffset: nat := 0;
    var indexes: set<nat> := {};
    var filenames: set<string> := {};
    NextOffsetStartsAtZero(m);
    for position := 0 to |m.slices|
      invariant RowsPlanned(m, position)
      invariant expectedOffset == NextOffset(m, position)
      invariant forall i :: i in indexes <==> 1 <= i <= position
      invariant forall name :: name in filenames ==> exists p :: 0 <= p < position && m.slices[p].filename == name
    {
      var row := m.slices[position];
      NextOffsetAdvances(m, position);
      var remaining := if m.original.size >= expectedOffset then m.original.size - expectedOffset else 0;
      var planned := PlanEntry(position + 1, SliceFilename(m.original.filename, position + 1, width),
                               expectedOffset, Min(remaining, m.targetSliceSize));
      assert planned == ManifestRow(m, position + 1);
      if row.filename in filenames {
        EarlierNameDiffers(m, position, row.filename);
      }
      var checked := CheckRow(row, planned, row.index in indexes, row.filename in filenames);
      if checked.Err? {
        assert !RowPlanned(m, position);
        return Err(checked.error);
      }
      assert RowPlanned(m, position);
      indexes := indexes + {row.index};
      filenames := filenames + {row.filename};
      if expectedOffset + row.size >= U64_LIMIT { return Err(ManifestError.UnsafeInteger); }
      expectedOffset := expectedOffset + row.size;
    }
    if expectedOffset != m.original.size { return Err(IncompleteCoverage); }
    return Ok(());
  }

  lemma EarlierNameDiffers(m: CakeManifest, position: nat, name: string)
    requires RowsPlanned(m, position)
    requires exists p :: 0 <= p < position && m.slices[p].filename == name
    ensures name != ManifestRow(m, position + 1).filename
  {
    hide PortableFilename, HashShape, SliceFilename, SliceIndexWidth, ExpectedSliceCount;
    var p :| 0 <= p < position && m.slices[p].filename == name;
    assert RowPlanned(m, p);
    if name == ManifestRow(m, position + 1).filename {
      SliceFilenamesInjective(m.original.filename, p + 1, SliceIndexWidth(m.sliceCount),
                              position + 1, SliceIndexWidth(m.sliceCount));
    }
  }

  /** The browser's table check in `validateManifest`. Its order of checks differs from the native
      one and it subtracts without saturating, yet it accepts the same tables. */
  method ValidateTableInBrowser(m: CakeManifest) returns (accepted: bool)
    requires m.original.size <= MAX_SAFE_INTEGER && 1 <= m.targetSliceSize <= MAX_SAFE_INTEGER
    requires m.sliceCount <= MAX_SLICE_COUNT
    ensures accepted <==> TablePlanned(m)
  {
    hide PortableFilename, HashShape, SliceFilename, SliceIndexWidth, ExpectedSliceCount, CeilingCount;
    CeilingCountAgrees(m.original.size, m.targetSliceSize);
    if m.sliceCount != CeilingCount(m.original.size, m.targetSliceSize) { return false; }
    if |m.slices| != m.sliceCount { return false; }
    var width := SliceIndexWidth(m.sliceCount);
    var indexes: set<nat> := {};
    var filenames: set<string> := {};
    var expectedOffset: int := 0;
    NextOffsetStartsAtZero(m);
    for position := 0 to |m.slices|
      invariant RowsPlanned(m, position)
      invariant expectedOffset == NextOffset(m, position)
      invariant forall i :: i in indexes <==> 1 <= i <= position
      invariant forall name :: name in filenames ==> exists p :: 0 <= p < position && m.slices[p].filename == name
    {
      var row := m.slices[position];
      NextOffsetAdvances(m, position);
      if row.filename in filenames {
        EarlierNameDiffers(m, position, row.filename);
      }
      var expectedName := SliceFilename(m.original.filename, position + 1, width);
      var remaining := m.original.size - expectedOffset;
      var expectedSize := if m.targetSliceSize <= remaining then m.targetSliceSize else remaining;
      if || row.index < 1 || row.index > MAX_SAFE_INTEGER || row.index in indexes || row.index != position + 1
         || !PortableFilename(row.filename) || row.filename in filenames || row.filename != expectedName
         || row.offset > MAX_SAFE_INTEGER || row.offset != expectedOffset
         || row.size > MAX_SAFE_INTEGER || row.size != expectedSize || !HashShape(row.sha256)
      {
        assert !RowPlanned(m, position);
        return false;
      }
      assert RowPlanned(m, position);
      indexes := indexes + {row.index};
      filenames := filenames + {row.filename};
      expectedOffset := expectedOffset + row.size;
    }
    return expectedOffset == m.original.size;
  }

  /** `Math.ceil(size / target)`; the division of two safe integers rounds to the exact ceiling. */
  function CeilingCount(size: nat, target: nat): nat
    requires target >= 1
  {
    if size == 0 then 0 else DivCeil(size, target)
  }

  lemma CeilingCountAgrees(size: nat, target: nat)
    requires target >= 1
    ensures CeilingCount(size, target) == ExpectedSliceCount(size, target)
  {
    if size > 0 {
      DivCeilBounds(size, target);
      CountIsExactCover(size, target, DivCeil(size, target));
    }
  }

  predicate PlannedNamePortable(original: string, index: nat, width: nat) {
    PortableFilename(SliceFilename(original, index, width))
  }

  /** The row the browser builds for one position. */
  function BrowserRow(original: string, size: nat, target: nat, width: nat, position: nat): PlanEntry {
    var remaining := size - position * target;
    var shorter := if target <= remaining then target else remaining;
    PlanEntry(position + 1, SliceFilename(original, position + 1, width), position * target,
              if shorter >= 0 then shorter else 0)
  }

  /** `planSlices`: nothing when a name or the count is refused. */
  function PlanSlices(original: string, size: nat, target: nat): Option<seq<PlanEntry>>
    requires size <= MAX_SAFE_INTEGER && 1 <= target <= MAX_SAFE_INTEGER
  {
    var count := CeilingCount(size, target);
    var width := SliceIndexWidth(count);
    if !PortableFilename(original) || count > MAX_SLICE_COUNT then None
    else if exists index: nat :: 1 <= index <= count && !PlannedNamePortable(original, index, width) then None
    else Some(seq(count, p requires 0 <= p < count => BrowserRow(original, size, target, width, p)))
  }

  /** The browser's planner and the native plan agree: it succeeds exactly when every name is
      portable and the count is within the limit, and its rows are the closed-form rows. */
  lemma BrowserPlanIsThePlan(original: string, size: nat, target: nat)
    requires size <= MAX_SAFE_INTEGER && 1 <= target <= MAX_SAFE_INTEGER
    ensures var count := ExpectedSliceCount(size, target);
            && (PlanSlices(original, size, target).Some?
                <==> && PortableFilename(original) && count <= MAX_SLICE_COUNT
                     && forall index: nat :: 1 <= index <= count ==> PlannedNamePortable(original, index, SliceIndexWidth(count)))
            && (PlanSlices(original, size, target).Some? ==>
                  && |PlanSlices(original, size, target).value| == count
                  && forall p :: 0 <= p < count ==>
                       PlanSlices(original, size, target).value[p]
                         == PlanRow(original, size, target, SliceIndexWidth(count), p + 1))
  {
    CeilingCountAgrees(size, target);
    var count := ExpectedSliceCount(size, target);
    forall p: nat | p < count
      ensures BrowserRow(original, size, target, SliceIndexWidth(count), p)
           == PlanRow(original, size, target, SliceIndexWidth(count), p + 1)
    {
      PlanWithinSource(size, target, p + 1);
    }
  }

  // ----- Writing and reading -----

  /** The object that stands for a row, with the names and the order of its fields. */
  function EntryJson(e: SliceEntry): Json {
    Object([Member("index", Number(e.index)), Member("filename", Text(e.filename)), Member("offset", Number(e.offset)),
            Member("size", Number(e.size)), Member("sha256", Text(e.sha256))])
  }

  function OriginalJson(o: OriginalFile): Json {
    Object([Member("filename", Text(o.filename)), Member("size", Number(o.size)), Member("sha256", Text(o.sha256))])
  }

  function TableJson(rows: seq<SliceEntry>): seq<Json> {
    seq(|rows|, i requires 0 <= i < |rows| => EntryJson(rows[i]))
  }

  function HeadMembers(m: CakeManifest): seq<Member> {
    [Member("format", Text(m.format)), Member("version", Text(m.version)), Member("packageId", Text(m.packageId)),
     Member("createdAt", Text(m.createdAt)), Member("original", OriginalJson(m.original)),
     Member("targetSliceSize", Number(m.targetSliceSize)), Member("sliceCount", Number(m.sliceCount)),
     Member("slices", List(TableJson(m.slices)))]
  }

  function ManifestJson(m: CakeManifest): Json {
    Object(HeadMembers(m))
  }

  /** The bytes of the Manifest file: the pretty-printed object and a final line feed. The texts of an
      accepted Manifest hold no character that JSON escapes. */
  function ManifestBytes(m: CakeManifest): seq<byte> {
    Utf8(Pretty(ManifestJson(m), 0) + "\n")
  }

  /** The value under a key. */
  function Field(members: seq<Member>, key: string): Option<Json> {
    if members == [] then None else if members[0].key == key then Some(members[0].value) else Field(members[1..], key)
  }

  function NumberField(members: seq<Member>, key: string): Option<nat> {
    match Field(members, key)
    case Some(Number(n)) => Some(n)
    case _ => None
  }

  function TextField(members: seq<Member>, key: string): Option<string> {
    match Field(members, key)
    case Some(Text(s)) => Some(s)
    case _ => None
  }

  /** A row is read by the names of its fields, whatever their order; no field may be missing or unknown. */
  function ReadEntry(j: Json): Option<SliceEntry> {
    if !j.Object? || |j.members| != 5 then None
    else match (NumberField(j.members, "index"), TextField(j.members, "filename"), NumberField(j.members, "offset"),
                NumberField(j.members, "size"), TextField(j.members, "sha256"))
      case (Some(index), Some(filename), Some(offset), Some(size), Some(sha256)) =>
        Some(SliceEntry(index, filename, offset, size, sha256))
      case _ => None
  }

  function ReadTable(items: seq<Json>): Option<seq<SliceEntry>> {
    if items == [] then Some([])
    else match (ReadEntry(items[0]), ReadTable(items[1..]))
      case (Some(row), Some(rows)) => Some([row] + rows)
      case _ => None
  }

  function ReadOriginal(j: Json): Option<OriginalFile> {
    if !j.Object? || |j.members| != 3 then None
    else match (TextField(j.members, "filename"), NumberField(j.members, "size"), TextField(j.members, "sha256"))
      case (Some(filename), Some(size), Some(sha256)) => Some(OriginalFile(filename, size, sha256))
      case _ => None
  }

  function ReadObject(j: Json): Option<CakeManifest> {
    if !j.Object? || |j.members| != 8 then None
    else match (Field(j.members, "original"), Field(j.members, "slices"))
      case (Some(original), Some(List(table))) =>
        (match (TextField(j.members, "format"), TextField(j.members, "version"), TextField(j.members, "packageId"),
                TextField(j.members, "createdAt"), ReadOriginal(original), NumberField(j.members, "targetSliceSize"),
                NumberField(j.members, "sliceCount"), ReadTable(table))
         case (Some(format), Some(version), Some(packageId), Some(createdAt), Some(file), Some(target), Some(count), Some(rows)) =>
           Some(CakeManifest(format, version, packageId, createdAt, file, target, count, rows))
         case _ => None)
      case _ => None
  }

  /** What a file of bytes says: UTF-8, then JSON, then the fields by name. */
  function ReadManifest(content: seq<byte>): Option<CakeManifest> {
    match FromUtf8(content)
    case None => None
    case Some(text) =>
      match ReadDocument(text)
      case None => None
      case Some(j) => ReadObject(j)
  }

  lemma {:induction false} FieldAt(members: seq<Member>, k: nat)
    requires k < |members| && forall i :: 0 <= i < k ==> members[i].key != members[k].key
    ensures Field(members, members[k].key) == Some(members[k].value)
  {
    if k > 0 {
      FieldAt(members[1..], k - 1);
    }
  }

  lemma EntryReadsBack(e: SliceEntry)
    ensures ReadEntry(EntryJson(e)) == Some(e)
  {
    var members := EntryJson(e).members;
    FieldAt(members, 0);
    FieldAt(members, 1);
    FieldAt(members, 2);
    FieldAt(members, 3);
    FieldAt(members, 4);
    hide Field;
  }

  lemma OriginalReadsBack(o: OriginalFile)
    ensures ReadOriginal(OriginalJson(o)) == Some(o)
  {
    var members := OriginalJson(o).members;
    FieldAt(members, 0);
    FieldAt(members, 1);
    FieldAt(members, 2);
    hide Field;
  }

  lemma {:induction false} TableReadsBack(rows: seq<SliceEntry>)
    ensures ReadTable(TableJson(rows)) == Some(rows)
  {
    hide ReadEntry, EntryJson;
    var items := TableJson(rows);
    if rows != [] {
      var later := rows[1..];
      assert items[1..] == TableJson(later);
      EntryReadsBack(rows[0]);
      TableReadsBack(later);
      assert rows == [rows[0]] + later;
    }
  }

  lemma HeadTextFields(m: CakeManifest)
    ensures TextField(HeadMembers(m), "format") == Some(m.format) && TextField(HeadMembers(m), "version") == Some(m.version)
    ensures TextField(HeadMembers(m), "packageId") == Some(m.packageId) && TextField(HeadMembers(m), "createdAt") == Some(m.createdAt)
  {
    hide OriginalJson, TableJson;
    var members := HeadMembers(m);
    FieldAt(members, 0);
    FieldAt(members, 1);
    FieldAt(members, 2);
    FieldAt(members, 3);
    hide Field;
  }

  lemma HeadOtherFields(m: CakeManifest)
    ensures Field(HeadMembers(m), "original") == Some(OriginalJson(m.original))
    ensures NumberField(HeadMembers(m), "targetSliceSize") == Some(m.targetSliceSize)
    ensures NumberField(HeadMembers(m), "sliceCount") == Some(m.sliceCount)
    ensures Field(HeadMembers(m), "slices") == Some(List(TableJson(m.slices)))
  {
    hide OriginalJson, TableJson;
    var members := HeadMembers(m);
    FieldAt(members, 4);
    FieldAt(members, 5);
    FieldAt(members, 6);
    FieldAt(members, 7);
    hide Field;
  }

  lemma ObjectReadsBack(m: CakeManifest)
    ensures ReadObject(ManifestJson(m)) == Some(m)
  {
    assert |HeadMembers(m)| == 8;
    hide ReadTable, ReadOriginal, OriginalJson, TableJson, HeadMembers, Field, TextField, NumberField;
    HeadTextFields(m);
    HeadOtherFields(m);
    OriginalReadsBack(m.original);
    TableReadsBack(m.slices);
  }

  /** A Manifest whose texts need no escape is read back from its file, field by field. */
  lemma WrittenIsRead(m: CakeManifest)
    requires PlainText(m.format) && PlainText(m.version) && PlainText(m.packageId) && PlainText(m.createdAt)
    requires PlainText(m.original.filename) && PlainText(m.original.sha256)
    requires forall p :: 0 <= p < |m.slices| ==> PlainText(m.slices[p].filename) && PlainText(m.slices[p].sha256)
    ensures ReadManifest(ManifestBytes(m)) == Some(m)
  {
    PlainManifest(m);
    hide Plain, PlainText, Pretty, ManifestJson, ReadObject, ReadDocument, Utf8, FromUtf8;
    DocumentReadsBack(ManifestJson(m));
    Utf8RoundTrip(Pretty(ManifestJson(m), 0) + "\n");
    ObjectReadsBack(m);
  }

  lemma PlainManifest(m: CakeManifest)
    requires PlainText(m.format) && PlainText(m.version) && PlainText(m.packageId) && PlainText(m.createdAt)
    requires PlainText(m.original.filename) && PlainText(m.original.sha256)
    requires forall p :: 0 <= p < |m.slices| ==> PlainText(m.slices[p].filename) && PlainText(m.slices[p].sha256)
    ensures Plain(ManifestJson(m))
  {
    forall p | 0 <= p < |m.slices|
      ensures Plain(TableJson(m.slices)[p])
    {
      PlainEntry(m.slices[p]);
    }
    PlainOriginal(m.original);
    HeadKeysArePlain();
    hide PlainText, EntryJson, OriginalJson;
    assert Plain(List(TableJson(m.slices)));
    forall k | 0 <= k < |HeadMembers(m)|
      ensures PlainText(HeadMembers(m)[k].key) && Plain(HeadMembers(m)[k].value)
    {
    }
  }

  lemma PlainEntry(e: SliceEntry)
    requires PlainText(e.filename) && PlainText(e.sha256)
    ensures Plain(EntryJson(e))
  {
    assert PlainText("index") && PlainText("filename") && PlainText("offset") && PlainText("size") && PlainText("sha256");
    hide PlainText;
  }

  lemma PlainOriginal(o: OriginalFile)
    requires PlainText(o.filename) && PlainText(o.sha256)
    ensures Plain(OriginalJson(o))
  {
    assert PlainText("filename") && PlainText("size") && PlainText("sha256");
    hide PlainText;
  }

  lemma HeadKeysArePlain()
    ensures PlainText("format") && PlainText("version") && PlainText("packageId") && PlainText("createdAt")
    ensures PlainText("original") && PlainText("targetSliceSize") && PlainText("sliceCount") && PlainText("slices")
  {
  }

  /** The texts of an accepted Manifest need no escape, as far as its own rules fix them. */
  lemma AcceptedIsPlain(m: CakeManifest, lib: Library)
    requires Accepted(m, lib) && PlainText(m.packageId) && PlainText(m.createdAt)
    ensures ReadManifest(ManifestBytes(m)) == Some(m)
  {
    hide ReadManifest, ManifestBytes, SliceFilename, SliceIndexWidth, ExpectedSliceCount, PlainText, HashShape, PortableFilename;
    PlainIdentifiers();
    PortableIsPlain(m.original.filename);
    HashIsPlain(m.original.sha256);
    forall p | 0 <= p < |m.slices|
      ensures PlainText(m.slices[p].filename) && PlainText(m.slices[p].sha256)
    {
      assert RowPlanned(m, p);
      PortableIsPlain(m.slices[p].filename);
      HashIsPlain(m.slices[p].sha256);
    }
    WrittenIsRead(m);
  }

  lemma PlainIdentifiers()
    ensures PlainText(FORMAT_IDENTIFIER) && PlainText(FORMAT_VERSION)
  {
  }

  lemma PortableIsPlain(name: string)
    requires PortableFilename(name)
    ensures PlainText(name)
  {
    hide Utf8Length, IsWindowsReservedName, IsWhitespace;
    forall k | 0 <= k < |name|
      ensures IsPlain(name[k])
    {
      assert name[k] in name;
      assert '"' in FORBIDDEN && '\\' in FORBIDDEN;
    }
  }

  lemma HashIsPlain(value: string)
    requires HashShape(value)
    ensures PlainText(value)
  {
    forall k | 0 <= k < |value|
      ensures IsPlain(value[k])
    {
      assert value[k] in value;
    }
  }

  /** The Manifest a file holds, if it can be read back at all. */
  function ReadableManifest(content: seq<byte>, lib: Library): Option<CakeManifest> {
    var parsed := lib.parse(content);
    if |content| <= MAX_MANIFEST_BYTES && parsed.Some? && Accepted(parsed.value, lib) then parsed else None
  }

  /** `load_manifest`: the size limit, then the reader, then validation. */
  method LoadManifest(content: seq<byte>, lib: Library) returns (r: Result<CakeManifest, ManifestError>)
    ensures r.Ok? ==> ReadableManifest(content, lib) == Some(r.value)
    ensures r.Err? ==> ReadableManifest(content, lib) == None
    ensures r == Err(ManifestTooLarge) <==> |content| > 16_777_216
  {
    if |content| > MAX_MANIFEST_BYTES { return Err(ManifestTooLarge); }
    var parsed := lib.parse(content);
    if parsed.None? { return Err(InvalidJson); }
    var verdict := Validate(parsed.value, lib);
    if verdict.Err? { return Err(verdict.error); }
    return Ok(parsed.value);
  }

  /** A published Manifest can be read back exactly when its file is within the size limit. */
  lemma ReadableIffWithinLimit(m: CakeManifest, lib: Library)
    requires Accepted(m, lib)
    requires lib.parse(ManifestBytes(m)) == Some(m)
    ensures ReadableManifest(ManifestBytes(m), lib)
         == if |ManifestBytes(m)| <= 16_777_216 then Some(m) else None
  {
  }

  // ----- How large a Manifest gets -----

  lemma RowKeySizes()
    ensures Utf8Length("index") == 5 && Utf8Length("filename") == 8 && Utf8Length("offset") == 6
    ensures Utf8Length("size") == 4 && Utf8Length("sha256") == 6
  {
    hide Utf8Length;
    Utf8Ascii("index");
    Utf8Ascii("filename");
    Utf8Ascii("offset");
    Utf8Ascii("size");
    Utf8Ascii("sha256");
  }

  lemma HeadKeySizes()
    ensures Utf8Length("format") + Utf8Length("version") + Utf8Length("packageId") + Utf8Length("createdAt") == 31
  {
    hide Utf8Length;
    Utf8Ascii("format");
    Utf8Ascii("version");
    Utf8Ascii("packageId");
    Utf8Ascii("createdAt");
  }

  lemma CountKeySizes()
    ensures Utf8Length("original") + Utf8Length("targetSliceSize") + Utf8Length("sliceCount") + Utf8Length("slices") == 39
  {
    hide Utf8Length;
    Utf8Ascii("original");
    Utf8Ascii("targetSliceSize");
    Utf8Ascii("sliceCount");
    Utf8Ascii("slices");
  }

  /** The exact encoded size of a row, its indentation included. */
  lemma EncodedEntrySize(e: SliceEntry)
    ensures Utf8Length(Indent(2) + Pretty(EntryJson(e), 2)) == 4 + Size(EntryJson(e), 2)
    ensures 4 + Size(EntryJson(e), 2)
         == 103 + |Decimal(e.index)| + Utf8Length(e.filename) + |Decimal(e.offset)| + |Decimal(e.size)| + Utf8Length(e.sha256)
  {
    hide Utf8Length, Decimal, Pretty, Indent;
    IndentSize(2);
    PrettySize(EntryJson(e), 2);
    Utf8Append(Indent(2), Pretty(EntryJson(e), 2));
    RowKeySizes();
    var members := EntryJson(e).members;
    assert members[0..] == members;
    MembersSizeFrom(members, 0, 3);
    MembersSizeFrom(members, 1, 3);
    MembersSizeFrom(members, 2, 3);
    MembersSizeFrom(members, 3, 3);
    MembersSizeFrom(members, 4, 3);
    hide MembersSize;
  }

  lemma OriginalSize(o: OriginalFile)
    ensures Size(OriginalJson(o), 1) == 56 + Utf8Length(o.filename) + |Decimal(o.size)| + Utf8Length(o.sha256)
  {
    hide Utf8Length, Decimal;
    RowKeySizes();
    var members := OriginalJson(o).members;
    assert members[0..] == members;
    MembersSizeFrom(members, 0, 2);
    MembersSizeFrom(members, 1, 2);
    MembersSizeFrom(members, 2, 2);
    hide MembersSize;
  }

  /** The size of the whole text is that of its texts and numbers, the keys, and the table. */
  lemma EncodedSize(m: CakeManifest)
    ensures Size(ManifestJson(m), 0)
         == 136 + (Utf8Length(m.format) + 2) + (Utf8Length(m.version) + 2) + (Utf8Length(m.packageId) + 2) + (Utf8Length(m.createdAt) + 2)
            + Size(OriginalJson(m.original), 1) + |Decimal(m.targetSliceSize)| + |Decimal(m.sliceCount)| + Size(List(TableJson(m.slices)), 1)
  {
    hide Utf8Length, Decimal, Size, MembersSize, TableJson, OriginalJson, ManifestJson;
    HeadKeySizes();
    CountKeySizes();
    HeadValueSizes(m);
    FirstMembersSize(m);
    LastMembersSize(m);
    assert HeadMembers(m)[0..] == HeadMembers(m);
  }

  lemma FirstMembersSize(m: CakeManifest)
    ensures HeadMembers(m)[0..] != [] && HeadMembers(m)[4..] != []
    ensures MembersSize(HeadMembers(m)[0..], 1)
         == 32 + Utf8Length("format") + Utf8Length("version") + Utf8Length("packageId") + Utf8Length("createdAt")
            + Size(Text(m.format), 1) + Size(Text(m.version), 1) + Size(Text(m.packageId), 1) + Size(Text(m.createdAt), 1)
            + MembersSize(HeadMembers(m)[4..], 1)
  {
    hide Utf8Length, Size, MembersSize, TableJson, OriginalJson;
    var members := HeadMembers(m);
    MembersSizeFrom(members, 0, 1);
    MembersSizeFrom(members, 1, 1);
    MembersSizeFrom(members, 2, 1);
    MembersSizeFrom(members, 3, 1);
  }

  lemma LastMembersSize(m: CakeManifest)
    ensures HeadMembers(m)[4..] != []
    ensures MembersSize(HeadMembers(m)[4..], 1)
         == 30 + Utf8Length("original") + Utf8Length("targetSliceSize") + Utf8Length("sliceCount") + Utf8Length("slices")
            + Size(OriginalJson(m.original), 1) + Size(Number(m.targetSliceSize), 1) + Size(Number(m.sliceCount), 1)
            + Size(List(TableJson(m.slices)), 1)
  {
    hide Utf8Length, Size, MembersSize, TableJson, OriginalJson;
    var members := HeadMembers(m);
    MembersSizeFrom(members, 4, 1);
    MembersSizeFrom(members, 5, 1);
    MembersSizeFrom(members, 6, 1);
    MembersSizeFrom(members, 7, 1);
  }

  lemma HeadValueSizes(m: CakeManifest)
    ensures Size(Text(m.format), 1) == Utf8Length(m.format) + 2 && Size(Text(m.version), 1) == Utf8Length(m.version) + 2
    ensures Size(Text(m.packageId), 1) == Utf8Length(m.packageId) + 2 && Size(Text(m.createdAt), 1) == Utf8Length(m.createdAt) + 2
    ensures Size(Number(m.targetSliceSize), 1) == |Decimal(m.targetSliceSize)|
    ensures Size(Number(m.sliceCount), 1) == |Decimal(m.sliceCount)|
    ensures Size(ManifestJson(m), 0) == MembersSize(HeadMembers(m), 1) + 4
  {
    assert HeadMembers(m) != [];
    hide Utf8Length, Decimal, MembersSize, HeadMembers;
  }

  lemma BytesAreSize(m: CakeManifest)
    ensures |ManifestBytes(m)| == Size(ManifestJson(m), 0) + 1
  {
    hide Utf8Length, ManifestJson, Size, Pretty;
    PrettySize(ManifestJson(m), 0);
    Utf8Append(Pretty(ManifestJson(m), 0), "\n");
    Utf8Ascii("\n");
  }

  /** Row sizes bound the table. */
  lemma TableSizeBetween(m: CakeManifest, low: nat, high: nat)
    requires forall p :: 0 <= p < |m.slices| ==> low <= 4 + Size(EntryJson(m.slices[p]), 2) <= high
    ensures |m.slices| * low <= Size(List(TableJson(m.slices)), 1) <= |m.slices| * (high + 2) + 6
  {
    hide EntryJson;
    var items := TableJson(m.slices);
    if items != [] {
      forall k | 0 <= k < |items|
        ensures low <= 2 * 2 + Size(items[k], 2) <= high
      {
        assert items[k] == EntryJson(m.slices[k]);
      }
      ItemsSizeBetween(items, 2, low, high);
    }
  }

  /** Every accepted Manifest of at most 41,000 Slices can be read back. */
  lemma ModerateManifestsAreReadable(m: CakeManifest, lib: Library)
    requires Accepted(m, lib) && m.sliceCount <= 41_000
    requires Utf8Length(m.packageId) + Utf8Length(m.createdAt) <= 1_000
    ensures |ManifestBytes(m)| <= MAX_MANIFEST_BYTES
  {
    hide Utf8Length, Decimal, EntryJson, OriginalJson, TableJson, ManifestJson, Size, ManifestBytes, SliceFilename, CleanName,
      ExpectedSliceCount, SliceIndexWidth;
    forall p | 0 <= p < |m.slices|
      ensures 0 <= 4 + Size(EntryJson(m.slices[p]), 2) <= 404
    {
      var row := m.slices[p];
      assert RowPlanned(m, p);
      EncodedEntrySize(row);
      NumberSizes(m, lib, p);
      HashSize(row.sha256);
    }
    TableSizeBetween(m, 0, 404);
    EncodedSize(m);
    OriginalSize(m.original);
    BytesAreSize(m);
    HashSize(m.original.sha256);
    SafeIntegerDigits(m.original.size);
    SafeIntegerDigits(m.targetSliceSize);
    SafeIntegerDigits(m.sliceCount);
    Utf8Ascii(m.format);
    Utf8Ascii(m.version);
  }

  lemma HashSize(value: string)
    requires HashShape(value)
    ensures Utf8Length(value) == 64
  {
    Utf8Ascii(value);
  }

  lemma SafeIntegerDigits(n: nat)
    requires n <= MAX_SAFE_INTEGER
    ensures |Decimal(n)| <= 16
  {
    assert Power10(2) == 100;
    assert Power10(4) == 10_000;
    assert Power10(6) == 1_000_000;
    assert Power10(8) == 100_000_000;
    assert Power10(10) == 10_000_000_000;
    assert Power10(12) == 1_000_000_000_000;
    assert Power10(14) == 100_000_000_000_000;
    DecimalLength(n, 16);
  }

  lemma NumberSizes(m: CakeManifest, lib: Library, p: nat)
    requires Accepted(m, lib) && p < |m.slices|
    ensures |Decimal(m.slices[p].index)| <= 5
    ensures |Decimal(m.slices[p].offset)| <= 16 && |Decimal(m.slices[p].size)| <= 16
    ensures Utf8Length(m.slices[p].filename) <= MAX_FILENAME_BYTES
  {
    hide Utf8Length, SliceFilename, CleanName, SliceIndexWidth;
    assert RowPlanned(m, p);
    PlanWithinSource(m.original.size, m.targetSliceSize, p + 1);
    SafeIntegerDigits(m.slices[p].offset);
    SafeIntegerDigits(m.slices[p].size);
    assert Power10(5) == 100_000;
    DecimalLength(m.slices[p].index, 5);
  }

  /** Fifty thousand rows under 200-byte names exceed the limit: such a Manifest passes `validate`
      and still cannot be read back. */
  lemma LargeManifestsAreNot(m: CakeManifest)
    requires |m.slices| == MAX_SLICE_COUNT
    requires forall p :: 0 <= p < |m.slices| ==> HashShape(m.slices[p].sha256) && Utf8Length(m.slices[p].filename) == 200
    ensures |ManifestBytes(m)| > MAX_MANIFEST_BYTES
  {
    hide Utf8Length, Decimal, EntryJson, OriginalJson, TableJson, ManifestJson, Size, ManifestBytes, HashShape;
    forall p | 0 <= p < |m.slices|
      ensures 367 <= 4 + Size(EntryJson(m.slices[p]), 2)
    {
      EncodedEntrySize(m.slices[p]);
      HashSize(m.slices[p].sha256);
    }
    TableAtLeast(m, 367);
    EncodedSize(m);
    BytesAreSize(m);
  }

  lemma TableAtLeast(m: CakeManifest, low: nat)
    requires forall p :: 0 <= p < |m.slices| ==> low <= 4 + Size(EntryJson(m.slices[p]), 2)
    ensures |m.slices| * low <= Size(List(TableJson(m.slices)), 1)
  {
    hide EntryJson, Size;
    var high := LargestRow(m, |m.slices|);
    TableSizeBetween(m, low, high);
  }

  lemma {:induction false} LargestRow(m: CakeManifest, count: nat) returns (high: nat)
    requires count <= |m.slices|
    ensures forall p :: 0 <= p < count ==> 4 + Size(EntryJson(m.slices[p]), 2) <= high
  {
    hide EntryJson, Size;
    if count == 0 {
      return 0;
    }
    high := LargestRow(m, count - 1);
    var last := 4 + Size(EntryJson(m.slices[count - 1]), 2);
    if high < last {
      high := last;
    }
  }
}
