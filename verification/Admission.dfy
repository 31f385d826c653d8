/** Conflict detection between desktop tasks, and what it keeps over whole runs: no two live tasks write
    to one path, and none writes another's source or Manifest. */
module Admission {
  import opened Wrappers
  import opened FiniteSets
  import opened PathTree
  import opened TaskModel

  datatype Output = NoOutput | FileOutput(path: string) | DirectoryOutput(path: string)

  /** A file and its volume-and-file identity, when it could be read. */
  datatype Input = Input(path: string, identity: Option<nat>)

  /** The Cake Package that a task reads. */
  datatype PackageRef = PackageRef(
    manifest: Input, directory: string, directoryIdentity: nat, packageId: string, sliceNames: seq<string>)

  datatype Spec =
    | Split(source: Input, outputDirectory: string, sliceSize: nat, packageId: string)
    | Merge(package: PackageRef, outputPath: string)
    | Inspect(package: PackageRef, verifyHashes: bool)
    | Verify(package: PackageRef)
  {
    function InputFiles(): seq<Input> {
      [if Split? then source else package.manifest]
    }

    function OutputResource(): Output {
      match this
      case Split(_, directory, _, _) => DirectoryOutput(directory)
      case Merge(_, path) => FileOutput(path)
      case _ => NoOutput
    }

    function VerifyOption(): Option<bool> {
      match this
      case Inspect(_, verify) => Some(verify)
      case Verify(_) => Some(true)
      case _ => None
    }

    predicate SameOperation(other: Spec) {
      (Split? && other.Split?) || (Merge? && other.Merge?) || (Inspect? && other.Inspect?) || (Verify? && other.Verify?)
    }
  }

  datatype ConflictClass = InformationalOverlap | DuplicateTask | HardConflict

  datatype ConflictType =
    | SharedInput | SamePackageDirectory | OverlappingOutput | SourceUsedAsDestination
    | DestinationInsidePackage | DuplicateOperation

  /** `task` is absent when the candidate conflicts with itself. */
  datatype Conflict = Conflict(task: Option<nat>, severity: ConflictClass, kind: ConflictType)

  // ----- What the source compares -----

  predicate InputsOverlap(a: seq<Input>, b: seq<Input>) {
    exists i, j :: 0 <= i < |a| && 0 <= j < |b|
      && ((a[i].identity.Some? && a[i].identity == b[j].identity) || Normalized(a[i].path) == Normalized(b[j].path))
  }

  predicate PackageOverlap(a: Spec, b: Spec) {
    || (!a.Split? && !b.Split?
        && (a.package.directoryIdentity == b.package.directoryIdentity
            || Normalized(a.package.directory) == Normalized(b.package.directory)))
    || PackageIdOf(a) == PackageIdOf(b)
  }

  function PackageIdOf(a: Spec): string {
    if a.Split? then a.packageId else a.package.packageId
  }

  predicate OutputsOverlap(a: Output, b: Output) {
    match (a, b)
    case (FileOutput(x), FileOutput(y)) => Normalized(x) == Normalized(y)
    case (DirectoryOutput(x), DirectoryOutput(y)) => PathContains(x, y) || PathContains(y, x)
    case (DirectoryOutput(d), FileOutput(f)) => PathContains(d, f)
    case (FileOutput(f), DirectoryOutput(d)) => PathContains(d, f)
    case _ => false
  }

  predicate OutputEqual(a: Output, b: Output) {
    match (a, b)
    case (NoOutput, NoOutput) => true
    case (FileOutput(x), FileOutput(y)) => Normalized(x) == Normalized(y)
    case (DirectoryOutput(x), DirectoryOutput(y)) => Normalized(x) == Normalized(y)
    case _ => false
  }

  predicate OutputOverlapsInputs(output: Output, inputs: seq<Input>) {
    exists i :: 0 <= i < |inputs| &&
      match output
      case NoOutput => false
      case FileOutput(f) => Normalized(f) == Normalized(inputs[i].path)
      case DirectoryOutput(d) => PathContains(d, inputs[i].path)
  }

  predicate EquivalentTask(a: Spec, b: Spec) {
    && a.SameOperation(b)
    && (a.Split? ==> a.sliceSize == b.sliceSize)
    && a.VerifyOption() == b.VerifyOption()
    && InputsOverlap(a.InputFiles(), b.InputFiles())
    && OutputEqual(a.OutputResource(), b.OutputResource())
  }

  predicate ConflictsWithItself(candidate: Spec) {
    match candidate
    case Split(source, directory, _, _) => PathContains(directory, source.path)
    case Merge(package, output) => PathContains(package.directory, output) || LastComponent(output) in package.sliceNames
    case _ => false
  }

  /** What keeps two tasks from being live together. */
  predicate Clash(a: Spec, b: Spec) {
    || EquivalentTask(a, b)
    || OutputsOverlap(a.OutputResource(), b.OutputResource())
    || OutputOverlapsInputs(a.OutputResource(), b.InputFiles())
    || OutputOverlapsInputs(b.OutputResource(), a.InputFiles())
  }

  // ----- What the comparisons mean -----

  /** The paths a task may write: its output file, or everything in its output directory. */
  predicate Covers(output: Output, path: string) {
    match output
    case NoOutput => false
    case FileOutput(f) => Normalized(f) == Normalized(path)
    case DirectoryOutput(d) => PathContains(d, path)
  }

  /** Two outputs overlap exactly when some path may be written by both. */
  lemma OverlapIsSharedPath(a: Output, b: Output)
    ensures OutputsOverlap(a, b) <==> exists path :: Covers(a, path) && Covers(b, path)
  {
    hide Normalized;
    if OutputsOverlap(a, b) {
      var path :=
        if a.FileOutput? then a.path
        else if b.FileOutput? || PathContains(a.path, b.path) then b.path
        else a.path;
      assert Covers(a, path) && Covers(b, path);
    }
    if path :| Covers(a, path) && Covers(b, path) {
      if a.DirectoryOutput? && b.DirectoryOutput? {
        TreeLaw(a.path, b.path, path);
      }
    }
  }

  /** An output overlaps inputs exactly when it may write one of them. */
  lemma OverlapIsCoveredInput(output: Output, inputs: seq<Input>)
    ensures OutputOverlapsInputs(output, inputs) <==> exists i :: 0 <= i < |inputs| && Covers(output, inputs[i].path)
  {
    hide Normalized, PathContains;
    if i :| 0 <= i < |inputs| && Covers(output, inputs[i].path) {
      assert OutputOverlapsInputs(output, inputs);
    }
  }

  lemma ClashIsSymmetric(a: Spec, b: Spec)
    ensures Clash(a, b) <==> Clash(b, a)
  {
    hide Normalized, PathContains, OutputOverlapsInputs;
    InputsOverlapBothWays(a.InputFiles(), b.InputFiles());
    hide InputsOverlap;
  }

  lemma InputsOverlapBothWays(a: seq<Input>, b: seq<Input>)
    ensures InputsOverlap(a, b) <==> InputsOverlap(b, a)
  {
    hide Normalized;
  }

  /** A Merge clashes with an Inspect or a Verify only over the Manifest file: any other file in the folder
      that this task reads, the name of a Slice included, passes as the output. */
  lemma MergeClashesWithReader(merge: Spec, reader: Spec)
    requires merge.Merge? && (reader.Inspect? || reader.Verify?)
    ensures Clash(merge, reader) <==> Normalized(merge.outputPath) == Normalized(reader.package.manifest.path)
  {
    hide Normalized, PathContains;
    assert reader.InputFiles() == [reader.package.manifest];
    OverlapIsCoveredInput(merge.OutputResource(), reader.InputFiles());
    OverlapIsCoveredInput(reader.OutputResource(), merge.InputFiles());
    if Normalized(merge.outputPath) == Normalized(reader.package.manifest.path) {
      assert Covers(merge.OutputResource(), reader.InputFiles()[0].path);
    }
  }

  // ----- What is reported for each pair of operations -----

  /** One file, by its identity or by its path. */
  predicate SameFile(a: Input, b: Input) {
    || (a.identity.Some? && b.identity.Some? && a.identity.value == b.identity.value)
    || Normalized(a.path) == Normalized(b.path)
  }

  predicate SamePackage(a: PackageRef, b: PackageRef) {
    || a.directoryIdentity == b.directoryIdentity || Normalized(a.directory) == Normalized(b.directory)
    || a.packageId == b.packageId
  }

  /** The first of the five reasons that applies. */
  function FirstReason(id: nat, duplicate: bool, output: bool, source: bool, input: bool, package: bool): seq<Conflict> {
    if duplicate then [Conflict(Some(id), DuplicateTask, DuplicateOperation)]
    else if output then [Conflict(Some(id), HardConflict, OverlappingOutput)]
    else if source then [Conflict(Some(id), HardConflict, SourceUsedAsDestination)]
    else if input then [Conflict(Some(id), InformationalOverlap, SharedInput)]
    else if package then [Conflict(Some(id), InformationalOverlap, SamePackageDirectory)]
    else []
  }

  lemma OneInput(a: Spec, b: Spec)
    ensures InputsOverlap(a.InputFiles(), b.InputFiles()) <==> SameFile(a.InputFiles()[0], b.InputFiles()[0])
    ensures OutputOverlapsInputs(a.OutputResource(), b.InputFiles()) <==> Covers(a.OutputResource(), b.InputFiles()[0].path)
  {
    hide Normalized, PathContains;
    var i, j := a.InputFiles(), b.InputFiles();
    if SameFile(i[0], j[0]) {
      assert InputsOverlap(i, j);
    }
    OverlapIsCoveredInput(a.OutputResource(), j);
    assert j[0] in j;
  }

  /** Two Splits are duplicates with one source, one folder and one Slice size; otherwise nested folders
      conflict, and a folder that holds the other's source. */
  lemma SplitBesideSplit(a: Spec, id: nat, b: Spec)
    requires a.Split? && b.Split?
    ensures ConflictWith(a, id, b) == FirstReason(id,
      a.sliceSize == b.sliceSize && SameFile(a.source, b.source) && Normalized(a.outputDirectory) == Normalized(b.outputDirectory),
      PathContains(a.outputDirectory, b.outputDirectory) || PathContains(b.outputDirectory, a.outputDirectory),
      PathContains(a.outputDirectory, b.source.path) || PathContains(b.outputDirectory, a.source.path),
      SameFile(a.source, b.source), a.packageId == b.packageId)
  {
    OneInput(a, b);
    OneInput(b, a);
    hide Normalized, PathContains, InputsOverlap, OutputOverlapsInputs;
  }

  /** Two Merges are duplicates with one Manifest and one output; otherwise one output conflicts, and an
      output that is the other's Manifest. */
  lemma MergeBesideMerge(a: Spec, id: nat, b: Spec)
    requires a.Merge? && b.Merge?
    ensures ConflictWith(a, id, b) == FirstReason(id,
      SameFile(a.package.manifest, b.package.manifest) && Normalized(a.outputPath) == Normalized(b.outputPath),
      Normalized(a.outputPath) == Normalized(b.outputPath),
      Normalized(a.outputPath) == Normalized(b.package.manifest.path) || Normalized(b.outputPath) == Normalized(a.package.manifest.path),
      SameFile(a.package.manifest, b.package.manifest), SamePackage(a.package, b.package))
  {
    OneInput(a, b);
    OneInput(b, a);
    hide Normalized, PathContains, InputsOverlap, OutputOverlapsInputs;
  }

  predicate IsReader(a: Spec) {
    a.Inspect? || a.Verify?
  }

  /** Tasks that only read conflict exactly as duplicates: the same operation, with hashes or without, on
      one Manifest. */
  lemma ReaderBesideReader(a: Spec, id: nat, b: Spec)
    requires IsReader(a) && IsReader(b)
    ensures ConflictWith(a, id, b) == FirstReason(id,
      && ((a.Inspect? && b.Inspect? && a.verifyHashes == b.verifyHashes) || (a.Verify? && b.Verify?))
      && SameFile(a.package.manifest, b.package.manifest),
      false, false, SameFile(a.package.manifest, b.package.manifest), SamePackage(a.package, b.package))
  {
    OneInput(a, b);
    OneInput(b, a);
    hide Normalized, PathContains, InputsOverlap, OutputOverlapsInputs;
  }

  /** A Split and a Merge conflict when the folder holds the output or the Manifest, or the output is the
      source. */
  lemma SplitBesideMerge(split: Spec, id: nat, merge: Spec)
    requires split.Split? && merge.Merge?
    ensures ConflictWith(split, id, merge) == ConflictWith(merge, id, split) == FirstReason(id,
      false, PathContains(split.outputDirectory, merge.outputPath),
      || PathContains(split.outputDirectory, merge.package.manifest.path)
      || Normalized(merge.outputPath) == Normalized(split.source.path),
      SameFile(split.source, merge.package.manifest), split.packageId == merge.package.packageId)
  {
    OneInput(split, merge);
    OneInput(merge, split);
    hide Normalized, PathContains, InputsOverlap, OutputOverlapsInputs;
  }

  /** A Split conflicts with a reader when its folder holds the Manifest, a Merge when its output is it. */
  lemma WriterBesideReader(writer: Spec, id: nat, reader: Spec)
    requires !IsReader(writer) && IsReader(reader)
    ensures ConflictWith(writer, id, reader) == ConflictWith(reader, id, writer) == FirstReason(id, false, false,
      if writer.Split? then PathContains(writer.outputDirectory, reader.package.manifest.path)
      else Normalized(writer.outputPath) == Normalized(reader.package.manifest.path),
      SameFile(if writer.Split? then writer.source else writer.package.manifest, reader.package.manifest),
      if writer.Split? then writer.packageId == reader.package.packageId else SamePackage(writer.package, reader.package))
  {
    OneInput(writer, reader);
    OneInput(reader, writer);
    hide Normalized, PathContains, InputsOverlap, OutputOverlapsInputs;
  }

  /** A task conflicts with itself: a Split whose folder holds its own source, and a Merge whose output lies
      in its package or has the name of one of its Slices. */
  lemma ConflictsWithItselfExactly(a: Spec)
    ensures a.Split? ==> (ConflictsWithItself(a) <==> PathContains(a.outputDirectory, a.source.path))
    ensures a.Merge? ==> (ConflictsWithItself(a)
      <==> || PathContains(a.package.directory, a.outputPath)
           || exists k :: 0 <= k < |a.package.sliceNames| && EndsWithName(a.outputPath, a.package.sliceNames[k]))
    ensures IsReader(a) ==> !ConflictsWithItself(a)
  {
    hide PathContains, EndsWithName, LastComponent;
    if a.Merge? {
      forall k | 0 <= k < |a.package.sliceNames|
        ensures EndsWithName(a.outputPath, a.package.sliceNames[k]) <==> LastComponent(a.outputPath) == a.package.sliceNames[k]
      {
        EndsWithNameIsLast(a.outputPath, a.package.sliceNames[k]);
      }
    }
  }

  /** The path is a name, or ends in a separator and that name; trailing separators do not count. */
  ghost predicate EndsWithName(path: string, name: string) {
    '\\' !in name && (Trimmed(Unified(path)) == name || exists front :: Trimmed(Unified(path)) == front + "\\" + name)
  }

  lemma EndsWithNameIsLast(path: string, name: string)
    ensures EndsWithName(path, name) <==> LastComponent(path) == name
  {
    LastComponentExactly(path, name);
  }

  /** A reader clashes with another exactly as a duplicate. */
  lemma ReadersClash(a: Spec, b: Spec)
    requires IsReader(a) && IsReader(b)
    ensures Clash(a, b)
      <==> && ((a.Inspect? && b.Inspect? && a.verifyHashes == b.verifyHashes) || (a.Verify? && b.Verify?))
           && SameFile(a.package.manifest, b.package.manifest)
  {
    ReaderBesideReader(a, 0, b);
    hide SameFile, SamePackage, Clash;
    var found := ConflictWith(a, 0, b);
    if Blocking(found) {
      var k :| 0 <= k < |found| && found[k].severity != InformationalOverlap;
    } else if found != [] {
      assert found[0].severity == InformationalOverlap;
    }
  }

  // ----- The engine -----

  /** `retryable` is whether the recorded failure allows a retry: it is marked so, or asks the user to
      select the source, the destination or the package again. */
  datatype Task = Task(spec: Spec, status: TaskStatus, retryable: bool)

  type Tasks = map<nat, Task>

  predicate Live(tasks: Tasks, id: nat) {
    id in tasks && !tasks[id].status.IsTerminal()
  }

  function LiveIds(tasks: Tasks): set<nat> {
    set id | id in tasks && Live(tasks, id)
  }

  /** `ensure_admission_available` refuses. */
  predicate Full(tasks: Tasks) {
    |LiveIds(tasks)| >= MAX_NONTERMINAL_TASKS
  }

  /** No live task conflicts with itself and no two live tasks clash. */
  ghost predicate Disjoint(tasks: Tasks) {
    && (forall a :: Live(tasks, a) ==> !ConflictsWithItself(tasks[a].spec))
    && (forall a, b :: Live(tasks, a) && Live(tasks, b) && a != b ==> !Clash(tasks[a].spec, tasks[b].spec))
  }

  /** What an admitted table means: no path is written by two live tasks, no live task writes the source or
      the Manifest of another, a Split does not write over its own source and a Merge not into its own
      package. The Slices that a package task reads are not compared; see `MergeClashesWithReader`. */
  lemma DisjointMeansNoSharedPath(tasks: Tasks, a: nat, b: nat)
    requires Disjoint(tasks) && Live(tasks, a) && Live(tasks, b)
    ensures a != b ==> forall path :: !(Covers(tasks[a].spec.OutputResource(), path) && Covers(tasks[b].spec.OutputResource(), path))
    ensures a != b || tasks[a].spec.Split?
      ==> forall i :: 0 <= i < |tasks[b].spec.InputFiles()|
                      ==> !Covers(tasks[a].spec.OutputResource(), tasks[b].spec.InputFiles()[i].path)
    ensures tasks[a].spec.Merge? ==> !PathContains(tasks[a].spec.package.directory, tasks[a].spec.outputPath)
  {
    hide Normalized, PathContains, LastComponent;
    if a != b {
      OverlapIsSharedPath(tasks[a].spec.OutputResource(), tasks[b].spec.OutputResource());
      OverlapIsCoveredInput(tasks[a].spec.OutputResource(), tasks[b].spec.InputFiles());
    }
  }

  /** Only requeueing makes a terminal task live again. */
  lemma OnlyQueuedRevives(status: TaskStatus, next: TaskStatus)
    requires status.IsTerminal() && status.CanTransitionTo(next) && next != Queued
    ensures next.IsTerminal()
  {
  }

  /** `b` is `a` after steps that make no task live: status changes other than into Queued, and removals. */
  ghost predicate Dwindled(a: Tasks, b: Tasks) {
    && b.Keys <= a.Keys
    && forall id :: id in b ==> b[id].spec == a[id].spec && (Live(b, id) ==> Live(a, id))
  }

  lemma DwindledFromItself(tasks: Tasks)
    ensures Dwindled(tasks, tasks)
  {
  }

  lemma RemovalDwindles(tasks: Tasks, id: nat)
    ensures Dwindled(tasks, tasks - {id})
  {
  }

  lemma DwindlingIsTransitive(a: Tasks, b: Tasks, c: Tasks)
    requires Dwindled(a, b) && Dwindled(b, c)
    ensures Dwindled(a, c)
  {
  }

  lemma StatusChangeDwindles(tasks: Tasks, id: nat, next: TaskStatus, retryable: bool)
    requires id in tasks && next != Queued && tasks[id].status.CanTransitionTo(next)
    ensures Dwindled(tasks, tasks[id := Task(tasks[id].spec, next, retryable)])
  {
    if tasks[id].status.IsTerminal() { OnlyQueuedRevives(tasks[id].status, next); }
  }

  lemma DwindlingKeepsDisjoint(a: Tasks, b: Tasks)
    requires Disjoint(a) && Dwindled(a, b)
    ensures Disjoint(b)
  {
    hide Clash, ConflictsWithItself;
  }

  lemma DwindlingFreesRoom(a: Tasks, b: Tasks)
    requires Dwindled(a, b)
    ensures |LiveIds(b)| <= |LiveIds(a)|
  {
    SubsetSize(LiveIds(b), LiveIds(a));
  }

  lemma QueueingTakesOnePlace(tasks: Tasks, id: nat, task: Task)
    requires Live(tasks, id) || !Full(tasks)
    requires |LiveIds(tasks)| <= MAX_NONTERMINAL_TASKS
    ensures |LiveIds(tasks[id := task])| <= MAX_NONTERMINAL_TASKS
  {
    SubsetSize(LiveIds(tasks[id := task]), LiveIds(tasks) + {id});
    if Live(tasks, id) {
      assert LiveIds(tasks) + {id} == LiveIds(tasks);
    }
  }

  /** The check against the live tasks, as `detect_conflicts` leaves it for one candidate. */
  ghost predicate Compatible(tasks: Tasks, candidate: Spec, exclude: Option<nat>) {
    && !ConflictsWithItself(candidate)
    && forall id :: Live(tasks, id) && exclude != Some(id) ==> !Clash(candidate, tasks[id].spec)
  }

  lemma CompatibleAfterDwindling(a: Tasks, b: Tasks, candidate: Spec, exclude: Option<nat>)
    requires Compatible(a, candidate, exclude) && Dwindled(a, b)
    ensures Compatible(b, candidate, exclude)
  {
    hide Clash, ConflictsWithItself;
  }

  lemma AdmittingKeepsDisjoint(tasks: Tasks, id: nat, task: Task)
    requires Disjoint(tasks) && Compatible(tasks, task.spec, Some(id))
    ensures Disjoint(tasks[id := task])
  {
    hide Clash, ConflictsWithItself;
    forall other | Live(tasks, other) && other != id
      ensures !Clash(tasks[other].spec, task.spec)
    {
      ClashIsSymmetric(tasks[other].spec, task.spec);
    }
  }

  datatype EngineError =
    | QueueCapacityReached | TasksStopping | NotFound | InvalidState | PreflightFailed | TaskConflict | InsufficientSpace
    | RetryNotAllowed | NotActive | StoreRefused

  predicate Blocking(conflicts: seq<Conflict>) {
    exists k :: 0 <= k < |conflicts| && conflicts[k].severity != InformationalOverlap
  }

  /** The conflict of a candidate with one live task: at most one, the most severe that applies. */
  function ConflictWith(candidate: Spec, id: nat, existing: Spec): (conflicts: seq<Conflict>)
    ensures Blocking(conflicts) <==> Clash(candidate, existing)
    ensures |conflicts| <= 1
    ensures conflicts == [] <==> !Clash(candidate, existing) && !InputsOverlap(candidate.InputFiles(), existing.InputFiles())
                                 && !PackageOverlap(candidate, existing)
    ensures conflicts != [] ==>
      conflicts[0].task == Some(id) && (conflicts[0].severity.DuplicateTask? <==> EquivalentTask(candidate, existing))
  {
    if EquivalentTask(candidate, existing) then
      var c := [Conflict(Some(id), DuplicateTask, DuplicateOperation)];
      assert c[0].severity != InformationalOverlap;
      c
    else if OutputsOverlap(candidate.OutputResource(), existing.OutputResource()) then
      var c := [Conflict(Some(id), HardConflict, OverlappingOutput)];
      assert c[0].severity != InformationalOverlap;
      c
    else if OutputOverlapsInputs(candidate.OutputResource(), existing.InputFiles())
            || OutputOverlapsInputs(existing.OutputResource(), candidate.InputFiles()) then
      var c := [Conflict(Some(id), HardConflict, SourceUsedAsDestination)];
      assert c[0].severity != InformationalOverlap;
      c
    else if InputsOverlap(candidate.InputFiles(), existing.InputFiles()) then
      [Conflict(Some(id), InformationalOverlap, SharedInput)]
    else if PackageOverlap(candidate, existing) then
      [Conflict(Some(id), InformationalOverlap, SamePackageDirectory)]
    else []
  }

  lemma BlockingOfConcatenation(a: seq<Conflict>, b: seq<Conflict>)
    ensures Blocking(a + b) <==> Blocking(a) || Blocking(b)
  {
    if Blocking(a) {
      var k :| 0 <= k < |a| && a[k].severity != InformationalOverlap;
      assert (a + b)[k].severity != InformationalOverlap;
    }
    if Blocking(b) {
      var k :| 0 <= k < |b| && b[k].severity != InformationalOverlap;
      assert (a + b)[|a| + k].severity != InformationalOverlap;
    }
  }

  /** A live task that is reported for this candidate, whether or not it blocks. */
  ghost predicate Reported(tasks: Tasks, candidate: Spec, exclude: Option<nat>, id: nat) {
    Live(tasks, id) && exclude != Some(id) && ConflictWith(candidate, id, tasks[id].spec) != []
  }

  /** The refusal of `ensure_admittable_preflight`. A reported task hides a lack of space, even where it
      would not block on its own. */
  ghost function PreflightRefusal(tasks: Tasks, candidate: Spec, exclude: Option<nat>, enoughSpace: bool): Option<EngineError> {
    if !Compatible(tasks, candidate, exclude) then Some(TaskConflict)
    else if enoughSpace then None
    else if exists id :: Reported(tasks, candidate, exclude, id) then Some(TaskConflict)
    else Some(InsufficientSpace)
  }

  /** The statuses from which `resume_task` and `retry_task` requeue. */
  predicate Requeueable(status: TaskStatus, retry: bool) {
    status.Interrupted? || status.PermissionRequired? || status.Cancelled? || (retry && status.Failed?)
  }

  /** A retry of these asks for a failure that allows it. */
  predicate NeedsRetryable(status: TaskStatus, retry: bool) {
    retry && (status.Failed? || status.PermissionRequired?)
  }

  /** `clearing` is the flag that `clear_all` raises while it holds the admission lock. */
  class Engine {
    var tasks: Tasks
    var clearing: bool

    ghost predicate Valid()
      reads this
    {
      Disjoint(tasks) && |LiveIds(tasks)| <= MAX_NONTERMINAL_TASKS
    }

    constructor ()
      ensures Valid() && tasks == map[] && !clearing
    {
      tasks, clearing := map[], false;
    }

    /** `detect_conflicts`: a conflict that blocks is found exactly when the candidate is incompatible. */
    method DetectConflicts(candidate: Spec, exclude: Option<nat>) returns (conflicts: seq<Conflict>)
      ensures Blocking(conflicts) <==> !Compatible(tasks, candidate, exclude)
      ensures conflicts == [] <==>
        !ConflictsWithItself(candidate) && forall id :: !Reported(tasks, candidate, exclude, id)
    {
      hide Clash, ConflictsWithItself, Blocking, ConflictWith, InputsOverlap, PackageOverlap, EquivalentTask;
      conflicts := OwnConflicts(candidate);
      var left := tasks.Keys;
      while left != {}
        invariant left <= tasks.Keys
        invariant conflicts == [] <==>
          !ConflictsWithItself(candidate) && forall id :: id in tasks.Keys - left ==> !Reported(tasks, candidate, exclude, id)
        invariant Blocking(conflicts) <==>
          ConflictsWithItself(candidate)
          || exists id :: id in tasks.Keys - left && Live(tasks, id) && exclude != Some(id) && Clash(candidate, tasks[id].spec)
        decreases |left|
      {
        var id :| id in left;
        ghost var seen := tasks.Keys - left;
        left := left - {id};
        assert tasks.Keys - left == seen + {id};
        if Live(tasks, id) && exclude != Some(id) {
          var found := ConflictWith(candidate, id, tasks[id].spec);
          BlockingOfConcatenation(conflicts, found);
          assert Reported(tasks, candidate, exclude, id) <==> found != [];
          conflicts := conflicts + found;
        } else {
          assert !Reported(tasks, candidate, exclude, id);
        }
      }
    }

    method OwnConflicts(candidate: Spec) returns (conflicts: seq<Conflict>)
      ensures Blocking(conflicts) <==> ConflictsWithItself(candidate)
      ensures conflicts == [] <==> !ConflictsWithItself(candidate)
    {
      hide PathContains, LastComponent;
      conflicts := [];
      if candidate.Split? && PathContains(candidate.outputDirectory, candidate.source.path) {
        conflicts := [Conflict(None, HardConflict, SourceUsedAsDestination)];
        assert conflicts[0].severity != InformationalOverlap;
      }
      if candidate.Merge?
         && (PathContains(candidate.package.directory, candidate.outputPath)
             || LastComponent(candidate.outputPath) in candidate.package.sliceNames) {
        conflicts := [Conflict(None, HardConflict, DestinationInsidePackage)];
        assert conflicts[0].severity != InformationalOverlap;
      }
    }

    /** What other threads may do while one thread holds the admission lock: the worker and the callers
        that do not take the lock change statuses, but never into Queued, and remove terminal tasks.
        `alone` says that no other thread acts. */
    method OtherThreads(alone: bool)
      requires Valid()
      modifies `tasks
      ensures Valid() && Dwindled(old(tasks), tasks)
      ensures alone ==> tasks == old(tasks)
    {
      hide Disjoint, Dwindled, LiveIds;
      ghost var start := tasks;
      DwindledFromItself(start);
      if alone { return; }
      var steps: nat :| steps >= 0;
      for n := 0 to steps
        invariant Dwindled(start, tasks)
      {
        var id: nat, next: TaskStatus, retryable: bool := *, *, *;
        ghost var before := tasks;
        if id in tasks && next != Queued && tasks[id].status.CanTransitionTo(next) {
          StatusChangeDwindles(tasks, id, next, retryable);
          tasks := tasks[id := Task(tasks[id].spec, next, retryable)];
          DwindlingIsTransitive(start, before, tasks);
        } else if id in tasks && tasks[id].status.IsTerminal() {
          RemovalDwindles(tasks, id);
          tasks := tasks - {id};
          DwindlingIsTransitive(start, before, tasks);
        }
      }
      DwindlingKeepsDisjoint(start, tasks);
      DwindlingFreesRoom(start, tasks);
    }

    /** The preflight of one candidate; `filesRead` is whether its files and folders could be examined. */
    method Preflight(candidate: Spec, exclude: Option<nat>, filesRead: bool, enoughSpace: bool)
      returns (refusal: Option<EngineError>)
      ensures !filesRead ==> refusal == Some(PreflightFailed)
      ensures filesRead ==> refusal == PreflightRefusal(tasks, candidate, exclude, enoughSpace)
    {
      hide Compatible, ConflictsWithItself, Clash, ConflictWith;
      if !filesRead { return Some(PreflightFailed); }
      var conflicts := DetectConflicts(candidate, exclude);
      CompatibleIsNoOwnConflict(tasks, candidate, exclude);
      var blocked := Blocking(conflicts);
      if !blocked && enoughSpace { return None; }
      if conflicts != [] { return Some(TaskConflict); }
      BlockingNeedsConflict();
      return Some(InsufficientSpace);
    }

    /** `enqueue_split`, `enqueue_merge` and the others, under the admission lock: room, no clear in
        progress, preflight, insertion. The first of these that fails is the answer, and a candidate that
        clashes with a live task is never admitted, whatever other threads do meanwhile. `stored` is whether
        the store can write the new table. */
    method Enqueue(id: nat, spec: Spec, filesRead: bool, enoughSpace: bool, stored: bool, alone: bool)
      returns (r: Result<(), EngineError>)
      requires Valid()
      modifies `tasks
      ensures Valid()
      ensures |LiveIds(old(tasks))| >= 64 ==> r == Err(QueueCapacityReached)
      ensures |LiveIds(old(tasks))| < 64 && clearing ==> r == Err(TasksStopping)
      ensures |LiveIds(old(tasks))| < 64 && !clearing && !filesRead ==> r == Err(PreflightFailed)
      ensures |LiveIds(old(tasks))| < 64 && !clearing && filesRead ==>
        match PreflightRefusal(old(tasks), spec, None, enoughSpace)
        case Some(refusal) => r == Err(refusal)
        case None => r.Ok? || (r == Err(StoreRefused) && (!stored || id in old(tasks)))
      ensures |LiveIds(old(tasks))| < 64 && !clearing && filesRead && enoughSpace && stored && id !in old(tasks) ==>
        (ReadersOfOtherFiles(old(tasks), spec) ==> r.Ok?)
      ensures r.Ok? ==> id in tasks && tasks[id] == Task(spec, Queued, false) && Dwindled(old(tasks), tasks - {id})
      ensures r.Err? ==> Dwindled(old(tasks), tasks)
    {
      hide Disjoint, Compatible, Clash, ConflictsWithItself, Reported, ReadersOfOtherFiles;
      ghost var start := tasks;
      if ReadersOfOtherFiles(tasks, spec) {
        OtherReadersAreCompatible(tasks, spec);
      }
      if Full(tasks) { return Err(QueueCapacityReached); }
      if clearing { return Err(TasksStopping); }
      var refusal := Preflight(spec, None, filesRead, enoughSpace);
      if refusal.Some? { return Err(refusal.value); }
      OtherThreads(alone);
      CompatibleAfterDwindling(start, tasks, spec, None);
      DwindlingFreesRoom(start, tasks);
      if !stored || id in tasks || Full(tasks) { return Err(StoreRefused); }
      CompatibleWhenExcluding(tasks, spec, id);
      AdmittingKeepsDisjoint(tasks, id, Task(spec, Queued, false));
      QueueingTakesOnePlace(tasks, id, Task(spec, Queued, false));
      assert tasks[id := Task(spec, Queued, false)] - {id} == tasks;
      tasks := tasks[id := Task(spec, Queued, false)];
      return Ok(());
    }

    /** `requeue_existing` behind `resume_task` and `retry_task`: the same preflight without the task itself,
        room only for a task that was terminal, and a failure that allows the retry. A Paused task is
        resumed in place instead, by `ResumePaused`. The store refuses only when it cannot write or another
        thread has changed the task meanwhile. */
    method Requeue(id: nat, retry: bool, filesRead: bool, enoughSpace: bool, stored: bool, alone: bool)
      returns (r: Result<(), EngineError>)
      requires Valid()
      requires retry || id !in tasks || tasks[id].status != Paused
      modifies `tasks
      ensures Valid()
      ensures id !in old(tasks) ==> r == Err(NotFound)
      ensures id in old(tasks) ==>
        r == RequeueAnswer(old(tasks), id, retry, clearing, filesRead, enoughSpace)
        || (r == Err(StoreRefused) && RequeueAnswer(old(tasks), id, retry, clearing, filesRead, enoughSpace).Ok?
            && (!stored || !alone))
      ensures r.Ok? ==> id in tasks && tasks[id] == Task(old(tasks)[id].spec, Queued, false)
      ensures r.Ok? ==> Dwindled(old(tasks) - {id}, tasks - {id})
      ensures r.Err? ==> Dwindled(old(tasks), tasks)
    {
      hide Disjoint, Compatible, Clash, ConflictsWithItself, Reported;
      ghost var start := tasks;
      if id !in tasks { return Err(NotFound); }
      var record := tasks[id];
      if !Requeueable(record.status, retry) { return Err(InvalidState); }
      if clearing { return Err(TasksStopping); }
      if record.status.IsTerminal() && Full(tasks) { return Err(QueueCapacityReached); }
      var refusal := Preflight(record.spec, Some(id), filesRead, enoughSpace);
      if refusal.Some? { return Err(refusal.value); }
      if NeedsRetryable(record.status, retry) && !record.retryable { return Err(RetryNotAllowed); }
      OtherThreads(alone);
      CompatibleAfterDwindling(start, tasks, record.spec, Some(id));
      if !stored || id !in tasks || !tasks[id].status.CanTransitionTo(Queued) { return Err(StoreRefused); }
      if tasks[id].status.IsTerminal() && Full(tasks) { return Err(StoreRefused); }
      var queued := Task(record.spec, Queued, false);
      AdmittingKeepsDisjoint(tasks, id, queued);
      QueueingTakesOnePlace(tasks, id, queued);
      tasks := tasks[id := queued];
      return Ok(());
    }

    /** `resume_task` of a Paused task: two transitions, with other threads in between. */
    method ResumePaused(id: nat, active: bool, stored: bool, alone: bool) returns (r: Result<(), EngineError>)
      requires Valid() && id in tasks && tasks[id].status == Paused
      modifies `tasks
      ensures Valid() && Dwindled(old(tasks), tasks)
      ensures !active ==> r == Err(NotActive) && tasks == old(tasks)
      ensures active ==> r.Ok? || (r == Err(StoreRefused) && (!stored || !alone))
      ensures r.Ok? ==> id in tasks && tasks[id].status == Running
    {
      hide Disjoint;
      if !active { return Err(NotActive); }
      var resuming := Transition(id, Resuming, stored, alone);
      if !resuming { return Err(StoreRefused); }
      var running := Transition(id, Running, stored, alone);
      return if running then Ok(()) else Err(StoreRefused);
    }

    /** One `update` that moves a task to an in-flight status. */
    method Transition(id: nat, next: TaskStatus, stored: bool, alone: bool) returns (done: bool)
      requires Valid() && next.InFlight()
      modifies `tasks
      ensures Valid() && Dwindled(old(tasks), tasks)
      ensures done ==> id in tasks && tasks[id].status == next
      ensures stored && alone && id in old(tasks) && old(tasks)[id].status.CanTransitionTo(next) ==> done
    {
      hide Disjoint, Dwindled, LiveIds;
      ghost var start := tasks;
      OtherThreads(alone);
      if !stored || id !in tasks || !tasks[id].status.CanTransitionTo(next) { return false; }
      ghost var before := tasks;
      StatusChangeDwindles(tasks, id, next, tasks[id].retryable);
      tasks := tasks[id := Task(tasks[id].spec, next, tasks[id].retryable)];
      DwindlingIsTransitive(start, before, tasks);
      DwindlingKeepsDisjoint(start, tasks);
      DwindlingFreesRoom(start, tasks);
      return true;
    }

    /** `clear_all`: refused unless `stopped`, when a worker does not stop in time or partial files cannot be removed;
        otherwise nothing is left. The flag is down again before the lock is released. */
    method ClearAll(stopped: bool, alone: bool) returns (r: Result<(), EngineError>)
      requires Valid()
      modifies this
      ensures Valid() && !clearing
      ensures r == if stopped then Ok(()) else Err(TasksStopping)
      ensures if stopped then tasks == map[] else Dwindled(old(tasks), tasks)
    {
      clearing := true;
      OtherThreads(alone);
      if stopped { tasks := map[]; }
      clearing := false;
      return if stopped then Ok(()) else Err(TasksStopping);
    }

    /** From any admitted table, every run of admissions, requeues, status changes, removals and clears
        keeps the live tasks apart and at most 64; and because `clear_all` holds the admission lock for as
        long as its flag is up, no admission or requeue in such a run is ever refused for the flag. */
    method AnyRun(steps: nat) returns (answers: seq<Result<(), EngineError>>)
      requires Valid() && !clearing
      modifies this
      ensures Valid() && !clearing
      ensures Disjoint(tasks) && |LiveIds(tasks)| <= 64
      ensures |answers| <= steps && Err(TasksStopping) !in answers
    {
      hide Disjoint, Full, Compatible, Reported, LiveIds, Live, Requeueable, NeedsRetryable;
      answers := [];
      for n := 0 to steps
        invariant Valid() && !clearing
        invariant |answers| <= n && Err(TasksStopping) !in answers
      {
        var which: nat, id: nat, filesRead: bool, enoughSpace: bool := *, *, *, *;
        var stored: bool, alone: bool := *, *;
        if which == 0 {
          var spec: Spec := *;
          var answer := Enqueue(id, spec, filesRead, enoughSpace, stored, alone);
          answers := answers + [answer];
        } else if which == 1 {
          var retry: bool, active: bool := *, *;
          var answer: Result<(), EngineError>;
          if !retry && id in tasks && tasks[id].status == Paused {
            answer := ResumePaused(id, active, stored, alone);
          } else {
            answer := Requeue(id, retry, filesRead, enoughSpace, stored, alone);
          }
          answers := answers + [answer];
        } else if which == 2 {
          var stopped: bool := *;
          var _ := ClearAll(stopped, alone);
        } else {
          OtherThreads(alone);
        }
      }
    }
  }

  /** What a requeue answers when the store then accepts the change: the first refusal in the original's order. */
  ghost function RequeueAnswer(tasks: Tasks, id: nat, retry: bool, clearing: bool, filesRead: bool, enoughSpace: bool)
    : Result<(), EngineError>
    requires id in tasks
  {
    var task := tasks[id];
    if !Requeueable(task.status, retry) then Err(InvalidState)
    else if clearing then Err(TasksStopping)
    else if task.status.IsTerminal() && Full(tasks) then Err(QueueCapacityReached)
    else if !filesRead then Err(PreflightFailed)
    else match PreflightRefusal(tasks, task.spec, Some(id), enoughSpace)
      case Some(refusal) => Err(refusal)
      case None => if NeedsRetryable(task.status, retry) && !task.retryable then Err(RetryNotAllowed) else Ok(())
  }

  /** The candidate and every live task only read, and the candidate reads a Manifest of its own. */
  ghost predicate ReadersOfOtherFiles(tasks: Tasks, candidate: Spec) {
    && IsReader(candidate)
    && forall id :: Live(tasks, id) ==>
         IsReader(tasks[id].spec) && !SameFile(candidate.package.manifest, tasks[id].spec.package.manifest)
  }

  lemma OtherReadersAreCompatible(tasks: Tasks, candidate: Spec)
    requires ReadersOfOtherFiles(tasks, candidate)
    ensures Compatible(tasks, candidate, None)
  {
    hide SameFile, Clash, ConflictsWithItself;
    ConflictsWithItselfExactly(candidate);
    forall id | Live(tasks, id)
      ensures !Clash(candidate, tasks[id].spec)
    {
      ReadersClash(candidate, tasks[id].spec);
    }
  }

  /** From which statuses a requeue is refused outright, and which retries need a retryable failure. */
  lemma RequeueRefusals(tasks: Tasks, id: nat, retry: bool, clearing: bool, filesRead: bool, enoughSpace: bool)
    requires id in tasks
    ensures var answer := RequeueAnswer(tasks, id, retry, clearing, filesRead, enoughSpace);
            && (answer == Err(InvalidState)
                <==> || tasks[id].status in {Planned, Queued, Running, Pausing, Paused, Resuming, Cancelling, Completed}
                     || (!retry && tasks[id].status == Failed))
            && (answer == Err(RetryNotAllowed) ==>
                  retry && tasks[id].status in {Failed, PermissionRequired} && !tasks[id].retryable)
            && (answer.Ok? && retry && tasks[id].status in {Failed, PermissionRequired} ==> tasks[id].retryable)
            && (answer == Err(QueueCapacityReached) ==> tasks[id].status in {Failed, Cancelled} && |LiveIds(tasks)| >= 64)
            && (answer.Ok? && tasks[id].status in {Failed, Cancelled} ==> |LiveIds(tasks)| < 64)
  {
    hide Compatible, Reported, LiveIds;
  }

  lemma CompatibleIsNoOwnConflict(tasks: Tasks, candidate: Spec, exclude: Option<nat>)
    ensures Compatible(tasks, candidate, exclude) ==> !ConflictsWithItself(candidate)
  {
    hide Clash, ConflictsWithItself;
  }

  lemma BlockingNeedsConflict()
    ensures !Blocking([])
  {
  }

  lemma CompatibleWhenExcluding(tasks: Tasks, candidate: Spec, id: nat)
    requires Compatible(tasks, candidate, None)
    ensures Compatible(tasks, candidate, Some(id))
  {
  }
}
