/** The browser task store: a queue that runs one asynchronous operation at a time, and the generation
    fence between a clear and the operations around it. Calls may come at every point where the running
    operation awaits something. */
module WebTaskStore {
  const MAX_PERSISTED_TASKS: nat := 200

  datatype Status = Running | Paused | Interrupted | OtherStatus

  datatype Record = Record(status: Status, details: int)

  datatype Content = Empty | Stored(record: Record)

  /** One file of the task directory, with the generation under which it was last written. A new file
      is empty until its first write is closed. */
  datatype Entry = Entry(content: Content, generation: nat)

  type Directory = map<string, Entry>

  datatype Operation =
    | Save(id: string, record: Record, generation: nat)
    | MarkInterrupted(generation: nat)
    | Discard(id: string)
    | Clear(generation: nat)

  /** Where the running operation awaits. `rest` are the tasks that `markInterrupted` has yet to look at. */
  datatype Stage =
    | Idle
    | Saving(id: string, record: Record, generation: nat)
    | Writing(id: string, record: Record, generation: nat)
    | Written(id: string, generation: nat)
    | Marking(generation: nat, rest: seq<string>)
    | MarkSaving(id: string, record: Record, generation: nat, rest: seq<string>)
    | MarkWriting(id: string, record: Record, generation: nat, rest: seq<string>)
    | Discarding(id: string)
    | Clearing(generation: nat)
  {
    /** Whether the next step may create or write a file. */
    predicate Writes() {
      Saving? || Writing? || MarkSaving? || MarkWriting?
    }
  }

  /** The clear that `clearOperation` holds: still queued or running, or finished but not yet reported. */
  datatype ClearOperation = NoClear | Pending(generation: nat) | Settled(generation: nat, succeeded: bool)

  predicate Active(e: Entry) {
    e.content.Stored? && (e.content.record.status == Running || e.content.record.status == Paused)
  }

  /** Every file was written under the generation `fence` or a later one. */
  ghost predicate Fenced(directory: Directory, fence: nat) {
    forall id :: id in directory ==> directory[id].generation >= fence
  }

  predicate Listable(directory: Directory) {
    |directory| <= MAX_PERSISTED_TASKS && forall id :: id in directory ==> directory[id].content.Stored?
  }

  /** A file may be opened for writing when the tasks can be listed and there is room for one more. */
  predicate MayOpen(directory: Directory, id: string) {
    Listable(directory) && (id in directory || |directory| < MAX_PERSISTED_TASKS)
  }

  /** Every file but `id` holds a task. */
  ghost predicate OthersStored(directory: Directory, id: string) {
    forall other :: other in directory && other != id ==> directory[other].content.Stored?
  }

  /** No file holds a task that is recorded as running or paused. */
  ghost predicate NoneActive(directory: Directory) {
    forall id :: id in directory && directory[id].content.Stored? ==> directory[id].content.record.status !in {Running, Paused}
  }

  /** Every file holds a task, and with `id` there are at most two hundred. */
  ghost predicate HasRoom(directory: Directory, id: string) {
    OthersStored(directory, id) && (id in directory ==> directory[id].content.Stored?) && |directory.Keys + {id}| <= 200
  }

  method SomeOrder(ids: set<string>) returns (s: seq<string>)
    ensures forall id :: id in s <==> id in ids
  {
    s := [];
    var left := ids;
    while left != {}
      invariant left <= ids && forall id :: id in s <==> id in ids - left
      decreases |left|
    {
      var id :| id in left;
      s, left := s + [id], left - {id};
    }
  }

  class TaskStore {
    var generation: nat
    var clearing: bool
    var clearOperation: ClearOperation
    var queue: seq<Operation>
    var stage: Stage
    var directory: Directory
    // The generation of the last clear that emptied the directory.
    ghost var fence: nat

    ghost predicate Valid()
      reads this
    {
      && (clearing <==> clearOperation != NoClear)
      && fence <= generation && Fenced(directory, fence) && |directory| <= MAX_PERSISTED_TASKS
      && (stage.Writes() || stage.Written? ==> fence <= stage.generation)
      && ClearTracked() && MarkingTracked()
    }

    /** The one clear in progress is in the queue or running, and from its success until it is reported
        the directory stays empty. */
    ghost predicate ClearTracked()
      reads this
    {
      && (forall k :: 0 <= k < |queue| && queue[k].Clear? ==> clearOperation == Pending(queue[k].generation))
      && (stage.Clearing? ==> clearOperation == Pending(stage.generation))
      && (stage.Clearing? ==> forall k :: 0 <= k < |queue| ==> !queue[k].Clear?)
      && (forall j, k :: 0 <= j < k < |queue| ==> !(queue[j].Clear? && queue[k].Clear?))
      && (clearOperation.Pending? ==> clearOperation.generation == generation)
      && (clearOperation.Settled? ==> !stage.Writes() && !stage.Written? && !stage.Marking?)
      && (clearOperation.Settled? && clearOperation.succeeded ==> directory == map[] && fence == clearOperation.generation == generation)
    }

    /** `markInterrupted` has yet to look at every task that is still active. */
    ghost predicate MarkingTracked()
      reads this
    {
      && (stage.Marking? ==> forall id :: id in directory && Active(directory[id]) ==> id in stage.rest)
      && (stage.Writing? ==> stage.id in directory)
      && (stage.MarkSaving? || stage.MarkWriting? ==>
            && !Active(Entry(Stored(stage.record), 0)) && stage.id in directory
            && forall id :: id in directory && Active(directory[id]) ==> id in stage.rest || id == stage.id)
    }

    constructor ()
      ensures Valid() && directory == map[] && generation == 0 && !clearing && queue == [] && stage == Idle
    {
      generation, clearing, clearOperation := 0, false, NoClear;
      queue, stage, directory, fence := [], Idle, map[], 0;
    }

    predicate IsCurrentGeneration(g: nat)
      reads this
    {
      g == generation && !clearing
    }

    // ----- Calls -----

    /** A call under any generation but the current one, or during a clear, is refused at once. */
    method CallSave(id: string, record: Record, g: nat) returns (queued: bool)
      requires Valid()
      modifies this`queue
      ensures Valid() && (queued <==> g == generation && !clearing)
      ensures queue == if queued then old(queue) + [Save(id, record, g)] else old(queue)
    {
      if !IsCurrentGeneration(g) { return false; }
      queue := queue + [Save(id, record, g)];
      return true;
    }

    method CallMarkInterrupted(g: nat)
      requires Valid()
      modifies this`queue
      ensures Valid() && queue == old(queue) + [MarkInterrupted(g)]
    {
      queue := queue + [MarkInterrupted(g)];
    }

    method CallDiscard(id: string)
      requires Valid()
      modifies this`queue
      ensures Valid() && queue == old(queue) + [Discard(id)]
    {
      queue := queue + [Discard(id)];
    }

    /** A clear in progress is returned again; otherwise the generation is raised at once and the
        removal is queued behind everything called before. */
    method CallClear() returns (g: nat)
      requires Valid()
      modifies this`queue, this`generation, this`clearing, this`clearOperation
      ensures Valid() && clearing && clearOperation != NoClear && g == clearOperation.generation
      ensures old(clearing) ==> queue == old(queue) && generation == old(generation) && clearOperation == old(clearOperation)
      ensures !old(clearing) ==> queue == old(queue) + [Clear(g)] && g == generation == old(generation) + 1
    {
      if clearOperation != NoClear { return clearOperation.generation; }
      generation := generation + 1;
      clearing := true;
      clearOperation := Pending(generation);
      queue := queue + [Clear(generation)];
      return generation;
    }

    // ----- The queue -----

    /** Starts the next queued operation: a save or a mark whose generation is no longer current ends at once. */
    method Start()
      requires Valid() && stage == Idle && queue != []
      modifies this`queue, this`stage
      ensures Valid() && queue == old(queue)[1..]
      ensures match old(queue)[0]
              case Save(id, record, g) => stage == if g == generation && !clearing then Saving(id, record, g) else Idle
              case MarkInterrupted(g) =>
                if g == generation && !clearing && (forall id :: id in directory ==> directory[id].content.Stored?)
                then stage.Marking? && stage.generation == g && forall id :: id in stage.rest <==> id in directory
                else stage == Idle
              case Discard(id) => stage == Discarding(id)
              case Clear(g) => stage == Clearing(g)
    {
      var operation := queue[0];
      queue := queue[1..];
      match operation {
        case Save(id, record, g) =>
          if IsCurrentGeneration(g) { stage := Saving(id, record, g); }
        case MarkInterrupted(g) =>
          if IsCurrentGeneration(g) && Listable(directory) {
            var ids := SomeOrder(directory.Keys);
            stage := Marking(g, ids);
          }
        case Discard(id) => stage := Discarding(id);
        case Clear(g) => stage := Clearing(g);
      }
    }

    /** The next step of the running operation; each may fail, which ends the operation. */
    method Advance(fails: bool)
      requires Valid() && stage != Idle
      modifies this`stage, this`directory, this`clearOperation, this`fence
      ensures Valid() && fence >= old(fence)
      ensures old(stage).Marking? && old(stage).rest == [] ==> NoneActive(directory)
      ensures old(stage).Written? ==>
        directory == old(directory) && stage == if old(stage).generation == generation && !clearing then Idle else Discarding(old(stage).id)
      ensures old(stage).Discarding? ==> stage == Idle && directory == if fails then old(directory) else old(directory) - {old(stage).id}
      ensures old(stage).Saving? && !HasRoom(old(directory), old(stage).id) ==> directory == old(directory) && stage == Idle
      ensures old(stage).Clearing? ==> stage == Idle && directory == if fails then old(directory) else map[]
      ensures old(stage).Writing? || old(stage).MarkWriting? ==>
        directory == if fails then old(directory) else old(directory)[old(stage).id := Entry(Stored(old(stage).record), old(stage).generation)]
    {
      hide Listable, Fenced, MayOpen, ClearTracked, MarkingTracked;
      match stage {
        case Saving(id, record, g) => CreateHandle(id, g, fails);
        case MarkSaving(id, record, g, rest) => CreateHandle(id, g, fails);
        case Writing(id, record, g) => CloseWrite(id, record, g, fails);
        case MarkWriting(id, record, g, rest) => CloseWrite(id, record, g, fails);
        case Written(id, g) => CheckWritten(id, g);
        case Marking(g, rest) => MarkNext(g, rest);
        case Discarding(id) => RemoveEntry(id, fails);
        case Clearing(g) => FinishClear(g, fails);
      }
    }

    /** The first half of `saveUnlocked`: lists the tasks, enforces the limit and opens the file, which
        creates an empty one if there was none. */
    method CreateHandle(id: string, g: nat, fails: bool)
      requires Valid() && (stage.Saving? || stage.MarkSaving?) && stage.id == id && stage.generation == g
      modifies this`stage, this`directory
      ensures Valid()
      ensures if fails || !HasRoom(old(directory), id) then stage == Idle && directory == old(directory)
              else && directory == (if id in old(directory) then old(directory) else old(directory)[id := Entry(Empty, g)])
                   && stage == if old(stage).Saving? then Writing(id, old(stage).record, g)
                               else MarkWriting(id, old(stage).record, g, old(stage).rest)
    {
      if fails || !MayOpen(directory, id) {
        stage := Idle;
        return;
      }
      if id !in directory {
        directory := directory[id := Entry(Empty, g)];
      }
      stage := if stage.Saving? then Writing(id, stage.record, g) else MarkWriting(id, stage.record, g, stage.rest);
    }

    /** The second half: the content appears when the write is closed; a failed write leaves what was there. */
    method CloseWrite(id: string, record: Record, g: nat, fails: bool)
      requires Valid() && (stage.Writing? || stage.MarkWriting?) && stage.id == id && stage.generation == g && stage.record == record
      modifies this`stage, this`directory
      ensures Valid()
      ensures directory == if fails then old(directory) else old(directory)[id := Entry(Stored(record), g)]
      ensures stage == if fails then Idle else if old(stage).Writing? then Written(id, g) else Marking(g, old(stage).rest)
      ensures id in old(directory) && id in directory
      ensures OthersStored(old(directory), id) ==> (Listable(directory) <==> !(fails && old(directory)[id].content.Empty?))
    {
      if fails {
        stage := Idle;
        return;
      }
      directory := directory[id := Entry(Stored(record), g)];
      stage := if stage.Writing? then Written(id, g) else Marking(g, stage.rest);
    }

    /** After its write a save looks once more: under an old generation it takes its file away again. */
    method CheckWritten(id: string, g: nat)
      requires Valid() && stage == Written(id, g)
      modifies this`stage
      ensures Valid() && stage == if g == generation && !clearing then Idle else Discarding(id)
    {
      stage := if IsCurrentGeneration(g) then Idle else Discarding(id);
    }

    method RemoveEntry(id: string, fails: bool)
      requires Valid() && stage == Discarding(id)
      modifies this`stage, this`directory
      ensures Valid() && stage == Idle && directory == if fails then old(directory) else old(directory) - {id}
      ensures !fails ==> (Listable(directory) <==> OthersStored(old(directory), id))
    {
      if !fails {
        DiscardSize(directory, id);
        ListableWithout(directory, id);
        directory := directory - {id};
      }
      stage := Idle;
    }

    /** One turn of the loop in `markInterrupted`: it stops when the generation has changed. */
    method MarkNext(g: nat, rest: seq<string>)
      requires Valid() && stage == Marking(g, rest)
      modifies this`stage
      ensures Valid()
      ensures rest == [] ==> stage == Idle && NoneActive(directory)
      ensures rest != [] && (g != generation || clearing) ==> stage == Idle
      ensures rest != [] && g == generation && !clearing ==>
        stage == if rest[0] in directory && directory[rest[0]].content.Stored?
                    && directory[rest[0]].content.record.status in {Running, Paused}
                 then MarkSaving(rest[0], directory[rest[0]].content.record.(status := Interrupted), g, rest[1..])
                 else Marking(g, rest[1..])
    {
      if rest == [] || !IsCurrentGeneration(g) {
        stage := Idle;
        return;
      }
      var id := rest[0];
      assert rest == [id] + rest[1..];
      if id in directory && Active(directory[id]) {
        stage := MarkSaving(id, directory[id].content.record.(status := Interrupted), g, rest[1..]);
      } else {
        stage := Marking(g, rest[1..]);
      }
    }

    method FinishClear(g: nat, fails: bool)
      requires Valid() && stage == Clearing(g)
      modifies this`stage, this`directory, this`clearOperation, this`fence
      ensures Valid() && fence >= old(fence) && clearOperation == Settled(g, !fails)
      ensures fails ==> directory == old(directory)
      ensures stage == Idle && (!fails ==> directory == map[] && Listable(directory))
    {
      if !fails {
        directory := map[];
        fence := g;
      }
      clearOperation := Settled(g, !fails);
      stage := Idle;
    }

    /** The `finally` of a clear. When it reports success the directory is empty, and from then on every
        file carries its generation or a later one. */
    method Resolve() returns (g: nat, succeeded: bool)
      requires Valid() && clearOperation.Settled?
      modifies this`clearing, this`clearOperation
      ensures Valid() && !clearing && clearOperation == NoClear
      ensures g == old(clearOperation).generation && succeeded == old(clearOperation).succeeded
      ensures succeeded ==> directory == map[] && fence == g == generation
    {
      g, succeeded := clearOperation.generation, clearOperation.succeeded;
      clearing := false;
      clearOperation := NoClear;
    }

    // ----- Every interleaving -----

    /** Any calls, under any generation, between any steps: no file from before the last successful clear
        ever comes back. */
    method AnyInterleaving(steps: nat)
      requires Valid()
      modifies this
      ensures Valid() && fence >= old(fence) && |directory| <= 200
      ensures forall id :: id in directory ==> directory[id].generation >= old(fence)
    {
      for n := 0 to steps
        invariant Valid() && fence >= old(fence)
      {
        var which: nat, id: string, record: Record, g: nat, fails: bool := *, *, *, *, *;
        if which == 0 {
          var _ := CallSave(id, record, g);
        } else if which == 1 {
          CallMarkInterrupted(g);
        } else if which == 2 {
          CallDiscard(id);
        } else if which == 3 {
          var _ := CallClear();
        } else if which == 4 && clearOperation.Settled? {
          var _, _ := Resolve();
        } else if stage != Idle {
          Advance(fails);
        } else if queue != [] {
          Start();
        }
      }
    }

    /** The fence, from one clear that resolves: whatever was called before it and whatever is called
        after it, no file written under an older generation exists later. */
    method FenceAfterClear(steps: nat) returns (g: nat, succeeded: bool)
      requires Valid() && clearOperation.Settled?
      modifies this
      ensures Valid() && (succeeded ==> forall id :: id in directory ==> directory[id].generation >= g)
    {
      g, succeeded := Resolve();
      AnyInterleaving(steps);
    }
  }

  /** An empty file in the directory, left by a save that failed, and no discard of it called for. */
  ghost predicate LeftEmpty(directory: Directory, queue: seq<Operation>, id: string) {
    && id in directory && directory[id].content.Empty?
    && forall k :: 0 <= k < |queue| ==> queue[k] != Discard(id)
  }

  /** From any store that rests with an empty file, every interleaving of calls and steps without a
      discard of that file and without a successful clear keeps the file empty and the list unreadable,
      and writes nothing: every file that is left is as it was. */
  method EmptyFileBlocks(store: TaskStore, id: string, steps: nat)
    requires store.Valid() && store.stage == Idle && LeftEmpty(store.directory, store.queue, id)
    modifies store
    ensures store.Valid() && id in store.directory && store.directory[id].content.Empty? && !Listable(store.directory)
    ensures forall other :: other in store.directory ==>
      other in old(store.directory) && store.directory[other] == old(store.directory)[other]
  {
    hide TaskStore.Valid, Listable, MayOpen;
    EmptyIsUnreadable(store.directory, id);
    for n := 0 to steps
      invariant store.Valid() && LeftEmpty(store.directory, store.queue, id)
      invariant store.stage.Idle? || store.stage.Saving? || store.stage.Clearing? || (store.stage.Discarding? && store.stage.id != id)
      invariant forall other :: other in store.directory ==>
        other in old(store.directory) && store.directory[other] == old(store.directory)[other]
    {
      var which: nat, other: string, record: Record, g: nat, fails: bool := *, *, *, *, *;
      EmptyIsUnreadable(store.directory, id);
      if which == 0 {
        var _ := store.CallSave(other, record, g);
      } else if which == 1 {
        store.CallMarkInterrupted(g);
      } else if which == 2 && other != id {
        store.CallDiscard(other);
      } else if which == 3 {
        var _ := store.CallClear();
      } else if which == 4 && store.clearOperation.Settled? {
        var _, _ := store.Resolve();
      } else if store.stage != Idle {
        store.Advance(fails || store.stage.Clearing?);
      } else if store.queue != [] {
        store.Start();
      }
    }
    EmptyIsUnreadable(store.directory, id);
  }

  lemma EmptyIsUnreadable(directory: Directory, id: string)
    requires id in directory && directory[id].content.Empty?
    ensures !Listable(directory) && forall other :: !MayOpen(directory, other)
  {
  }

  /** Removing one file makes the list readable exactly when all others hold tasks. */
  lemma ListableWithout(directory: Directory, id: string)
    requires |directory| <= MAX_PERSISTED_TASKS
    ensures Listable(directory - {id}) <==> OthersStored(directory, id)
  {
    DiscardSize(directory, id);
    var rest := directory - {id};
    assert forall other :: other in rest <==> other in directory && other != id;
    assert forall other :: other in rest ==> rest[other] == directory[other];
  }

  lemma DiscardSize(directory: Directory, id: string)
    ensures |directory - {id}| <= |directory|
  {
    if id in directory {
      assert directory == (directory - {id})[id := directory[id]];
    } else {
      assert directory - {id} == directory;
    }
  }

  /** A save that fails between opening and closing a new file leaves an empty one, and the task list
      cannot be read again before that file is discarded or everything is cleared. */
  method FailedWriteBlocksListing(id: string, record: Record) returns (store: TaskStore)
    ensures fresh(store) && store.Valid() && store.stage == Idle && !Listable(store.directory)
  {
    store := new TaskStore();
    var _ := store.CallSave(id, record, 0);
    assert store.queue[0] == Save(id, record, 0);
    store.Start();
    store.CreateHandle(id, 0, false);
    store.CloseWrite(id, record, 0, true);
    assert store.directory[id] == Entry(Empty, 0);
  }
}
