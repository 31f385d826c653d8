/** The run-state file of a Batch Job: processes that hold copies of it and replace it under a lock with
    a revision comparison, in every interleaving of their steps. */
module StateFile {
  const MAX_REVISION: nat := 0xffff_ffff_ffff_ffff

  /** A state that was stored, with the position in the history of the state its author had read. */
  datatype Commit = Commit(revision: nat, content: int, basedOn: nat)

  /** Where a process stands: it holds a copy, or it is inside `persist_state` after taking the lock,
      after the comparison, or after raising its own revision. */
  datatype Place = Holding | Locked | Compared | Raised

  datatype Writer = Writer(place: Place, revision: nat, content: int, seen: nat)

  type Writers = map<nat, Writer>

  /** The revision is raised with saturation. */
  function NextRevision(revision: nat): nat {
    if revision < MAX_REVISION then revision + 1 else revision
  }

  /** Each commit raised the revision by one over the previous commit and, below the limit, was made by
      a writer that had read exactly that commit. */
  ghost predicate Linear(history: seq<Commit>) {
    && |history| > 0
    && forall k :: 0 < k < |history| ==>
         && history[k].revision == NextRevision(history[k - 1].revision)
         && (history[k - 1].revision < MAX_REVISION ==> history[k].basedOn == k - 1)
  }

  lemma {:induction false} RevisionsGrow(history: seq<Commit>, i: nat, j: nat)
    requires Linear(history) && i < j < |history|
    ensures history[i].revision <= history[j].revision
    ensures history[i].revision < MAX_REVISION ==> history[i].revision < history[j].revision
    decreases j
  {
    if i < j - 1 {
      RevisionsGrow(history, i, j - 1);
    }
  }

  /** Every commit raises the revision by exactly one until the largest 64-bit number is reached. */
  lemma {:induction false} RevisionsCount(history: seq<Commit>, k: nat)
    requires Linear(history) && k < |history| && history[0].revision <= 0xffff_ffff_ffff_ffff
    ensures history[k].revision
         == if history[0].revision + k <= 0xffff_ffff_ffff_ffff then history[0].revision + k else 0xffff_ffff_ffff_ffff
    decreases k
  {
    if k > 0 {
      RevisionsCount(history, k - 1);
    }
  }

  /** A history that begins at revision 0 and has not exhausted the revisions: commit `k` has revision
      `k`, and its author had read the commit before it. */
  ghost predicate NothingLost(history: seq<Commit>) {
    forall k :: 0 <= k < |history| ==> history[k].revision == k && (k > 0 ==> history[k].basedOn == k - 1)
  }

  lemma FreshHistoryLosesNothing(history: seq<Commit>)
    requires Linear(history) && history[0].revision == 0 && |history| <= 0xffff_ffff_ffff_ffff + 1
    ensures NothingLost(history)
  {
    forall k | 0 <= k < |history|
      ensures history[k].revision == k && (k > 0 ==> history[k].basedOn == k - 1)
    {
      RevisionsCount(history, k);
      if k > 0 { RevisionsCount(history, k - 1); }
    }
  }

  /** At most one of the writers that hold a given revision commits, and no commit overwrites a state
      its author had not read. */
  lemma OneCommitPerRevision(history: seq<Commit>, j: nat, k: nat)
    requires Linear(history) && 0 < j < k < |history| && history[k - 1].revision < MAX_REVISION
    ensures history[j].basedOn == j - 1 && history[k].basedOn == k - 1
    ensures history[j - 1].revision < history[k - 1].revision
  {
    RevisionsGrow(history, j - 1, k - 1);
  }

  ghost predicate WriterOk(history: seq<Commit>, lock: set<nat>, p: nat, w: Writer)
    requires |history| > 0
  {
    var stored := history[|history| - 1];
    && w.seen < |history|
    && (w.place != Raised ==> w.revision == history[w.seen].revision)
    && (w.place != Holding ==> lock == {p})
    && (w.place.Compared? ==> w.revision == stored.revision)
    && (w.place.Raised? ==> w.revision == NextRevision(stored.revision) && history[w.seen].revision == stored.revision)
  }

  /** A writer whose revision is the stored one has read the stored state. */
  lemma SameRevisionIsLatest(history: seq<Commit>, seen: nat)
    requires Linear(history) && seen < |history| && history[seen].revision == history[|history| - 1].revision
    requires history[|history| - 1].revision < MAX_REVISION
    ensures seen == |history| - 1
  {
    if seen < |history| - 1 {
      RevisionsGrow(history, seen, |history| - 1);
    }
  }

  lemma HolderOfTheStored(history: seq<Commit>, lock: set<nat>, p: nat, w: Writer)
    requires Linear(history) && WriterOk(history, lock, p, w) && w.place == Holding
    requires w.revision == history[|history| - 1].revision < MAX_REVISION
    ensures w.seen == |history| - 1
  {
    SameRevisionIsLatest(history, w.seen);
  }

  lemma CommitKeepsLinear(history: seq<Commit>, p: nat, lock: set<nat>, w: Writer)
    requires Linear(history) && w.place == Raised && WriterOk(history, lock, p, w)
    ensures Linear(history + [Commit(w.revision, w.content, w.seen)])
    ensures WriterOk(history + [Commit(w.revision, w.content, w.seen)], {}, p, w.(place := Holding, seen := |history|))
  {
    if history[|history| - 1].revision < MAX_REVISION {
      SameRevisionIsLatest(history, w.seen);
    }
  }

  lemma OthersKeepTheirCopies(history: seq<Commit>, lock: set<nat>, p: nat, q: nat, w: Writer, other: Writer)
    requires Linear(history) && w.place == Raised && WriterOk(history, lock, p, w)
    requires WriterOk(history, lock, q, other) && q != p
    ensures WriterOk(history + [Commit(w.revision, w.content, w.seen)], {}, q, other)
  {
    assert lock == {p} && {q} != {p} by {
      assert q in {q} && q !in {p};
    }
  }

  lemma LockIsFree(history: seq<Commit>, p: nat, q: nat, w: Writer)
    requires |history| > 0 && WriterOk(history, {}, q, w)
    ensures w.place == Holding && WriterOk(history, {p}, q, w)
  {
    assert q in {q};
  }

  lemma LockedIsOk(history: seq<Commit>, p: nat, w: Writer)
    requires |history| > 0 && WriterOk(history, {p}, p, w) && w.place == Holding
    ensures WriterOk(history, {p}, p, w.(place := Locked))
  {
  }

  lemma ComparedIsOk(history: seq<Commit>, lock: set<nat>, p: nat, w: Writer)
    requires |history| > 0 && WriterOk(history, lock, p, w) && w.place == Locked && history[|history| - 1].revision == w.revision
    ensures lock == {p} && WriterOk(history, lock, p, w.(place := Compared))
  {
  }

  lemma RaisedIsOk(history: seq<Commit>, lock: set<nat>, p: nat, w: Writer)
    requires |history| > 0 && WriterOk(history, lock, p, w) && w.place == Compared
    ensures lock == {p} && WriterOk(history, lock, p, w.(place := Raised, revision := NextRevision(w.revision)))
  {
  }

  class RunStateFile {
    var history: seq<Commit>
    // The process that holds the lock, if any.
    var lock: set<nat>
    var writers: Writers

    ghost predicate Valid()
      reads this
    {
      && Linear(history)
      && forall p :: p in writers ==> WriterOk(history, lock, p, writers[p])
    }

    /** `create_state`: the creator keeps its copy. */
    constructor (creator: nat, revision: nat, content: int)
      ensures Valid() && lock == {}
      ensures history == [Commit(revision, content, 0)] && writers == map[creator := Writer(Holding, revision, content, 0)]
    {
      history := [Commit(revision, content, 0)];
      lock := {};
      writers := map[creator := Writer(Holding, revision, content, 0)];
    }

    /** `read_state` by a process that is not inside `persist_state`. */
    method Load(p: nat)
      requires Valid() && (p in writers ==> writers[p].place == Holding)
      modifies this`writers
      ensures Valid()
      ensures writers == old(writers)[p := Writer(Holding, history[|history| - 1].revision, history[|history| - 1].content, |history| - 1)]
    {
      var stored := history[|history| - 1];
      writers := writers[p := Writer(Holding, stored.revision, stored.content, |history| - 1)];
    }

    method Edit(p: nat, content: int)
      requires Valid() && p in writers && writers[p].place == Holding
      modifies this`writers
      ensures Valid() && writers == old(writers)[p := old(writers)[p].(content := content)]
    {
      writers := writers[p := writers[p].(content := content)];
    }

    /** The process ends, or drops its copy after an error: the system releases a lock it held. */
    method Drop(p: nat)
      requires Valid() && p in writers
      modifies this`writers, this`lock
      ensures Valid()
      ensures writers == old(writers) - {p}
      ensures lock == if old(writers)[p].place == Holding then old(lock) else {}
    {
      if writers[p].place != Holding {
        lock := {};
      }
      writers := writers - {p};
    }

    /** The next step of `persist_state` for `p`. A step that fails ends the call with an error, and the
        caller drops its copy. */
    method PersistStep(p: nat, fails: bool)
      requires Valid() && p in writers
      modifies this
      ensures Valid() && old(history) <= history && |history| <= |old(history)| + 1
      ensures |history| > |old(history)| <==> old(writers)[p].place == Raised && !fails
      ensures |history| > |old(history)| ==>
        history == old(history) + [Commit(old(writers)[p].revision, old(writers)[p].content, old(writers)[p].seen)]
      ensures forall q :: q != p ==> (q in writers <==> q in old(writers)) && (q in writers ==> writers[q] == old(writers)[q])
      ensures p in writers <==> StepSucceeds(old(history), old(lock), old(writers)[p], fails)
      ensures p in writers ==> writers[p] == AfterStep(old(writers)[p], |old(history)|)
      ensures lock == if p in writers && writers[p].place != Holding then {p}
                      else if old(writers)[p].place == Holding then old(lock) else {}
    {
      hide Linear, WriterOk, NextRevision;
      if writers[p].place != Raised {
        StepBeforeReplacement(p, fails);
      } else if fails {
        Drop(p);
      } else {
        Replace(p);
      }
    }

    /** Taking the lock, comparing the revisions and raising the one in memory. */
    method StepBeforeReplacement(p: nat, fails: bool)
      requires Valid() && p in writers && writers[p].place != Raised
      modifies this`writers, this`lock
      ensures Valid()
      ensures if StepSucceeds(history, old(lock), old(writers)[p], fails)
              then lock == {p} && writers == old(writers)[p := AfterStep(old(writers)[p], |history|)]
              else lock == (if old(writers)[p].place == Holding then old(lock) else {}) && writers == old(writers) - {p}
    {
      var w := writers[p];
      hide Linear, WriterOk, NextRevision;
      match w.place {
        case Holding =>
          if fails || lock != {} {
            Drop(p);
          } else {
            forall q | q in writers
              ensures WriterOk(history, {p}, q, writers[q]) && writers[q].place == Holding
            {
              LockIsFree(history, p, q, writers[q]);
            }
            LockedIsOk(history, p, w);
            lock := {p};
            writers := writers[p := w.(place := Locked)];
          }
        case Locked =>
          if fails || history[|history| - 1].revision != w.revision {
            Drop(p);
          } else {
            ComparedIsOk(history, lock, p, w);
            writers := writers[p := w.(place := Compared)];
          }
        case Compared =>
          RaisedIsOk(history, lock, p, w);
          writers := writers[p := w.(place := Raised, revision := NextRevision(w.revision))];
      }
    }

    /** The atomic replacement, and the release of the lock. */
    method Replace(p: nat)
      requires Valid() && p in writers && writers[p].place == Raised
      modifies this
      ensures Valid() && lock == {}
      ensures history == old(history) + [Commit(old(writers)[p].revision, old(writers)[p].content, old(writers)[p].seen)]
      ensures writers == old(writers)[p := old(writers)[p].(place := Holding, seen := |old(history)|)]
    {
      hide Linear, WriterOk;
      var w := writers[p];
      CommitKeepsLinear(history, p, lock, w);
      forall q | q in writers && q != p
        ensures WriterOk(history + [Commit(w.revision, w.content, w.seen)], {}, q, writers[q])
      {
        OthersKeepTheirCopies(history, lock, p, q, w, writers[q]);
      }
      history := history + [Commit(w.revision, w.content, w.seen)];
      writers := writers[p := w.(place := Holding, seen := |history| - 1)];
      lock := {};
    }

    /** The four steps of `persist_state` without a failure or another process between them. */
    method FourSteps(p: nat) returns (stored: bool)
      requires Valid() && p in writers && writers[p].place == Holding && lock == {}
      modifies this
      ensures Valid() && lock == {}
      ensures stored <==> old(writers)[p].revision == old(history)[|old(history)| - 1].revision
      ensures !stored ==> history == old(history) && writers == old(writers) - {p}
      ensures stored ==>
        history == old(history) + [Commit(NextRevision(old(writers)[p].revision), old(writers)[p].content, old(writers)[p].seen)]
      ensures stored ==>
        writers == old(writers)[p := old(writers)[p].(revision := NextRevision(old(writers)[p].revision), seen := |old(history)|)]
    {
      hide Linear, WriterOk;
      PersistStep(p, false);
      PersistStep(p, false);
      if p !in writers { return false; }
      PersistStep(p, false);
      PersistStep(p, false);
      return true;
    }

    /** `persist_state` when nothing fails and no other process runs: it stores the copy exactly when the
        copy has the stored revision, and it then raises the stored revision by exactly one, except at the
        largest 64-bit number, where it stays. */
    method PersistState(p: nat) returns (stored: bool)
      requires Valid() && p in writers && writers[p].place == Holding && lock == {}
      modifies this
      ensures Valid() && lock == {}
      ensures stored <==> old(writers)[p].revision == old(history)[|old(history)| - 1].revision
      ensures !stored ==> history == old(history) && writers == old(writers) - {p}
      ensures stored ==> |history| == |old(history)| + 1 && old(history) <= history
      ensures stored && old(writers)[p].revision < 0xffff_ffff_ffff_ffff ==>
        history[|old(history)|] == Commit(old(writers)[p].revision + 1, old(writers)[p].content, |old(history)| - 1)
      ensures stored && old(writers)[p].revision >= 0xffff_ffff_ffff_ffff ==>
        history[|old(history)|] == Commit(old(writers)[p].revision, old(writers)[p].content, old(writers)[p].seen)
      ensures stored ==> writers == old(writers)[p := Writer(Holding, history[|old(history)|].revision,
                                                             history[|old(history)|].content, |old(history)|)]
    {
      if writers[p].revision == history[|history| - 1].revision < MAX_REVISION {
        HolderOfTheStored(history, lock, p, writers[p]);
      }
      hide Linear, WriterOk;
      stored := FourSteps(p);
    }

    /** Every interleaving of any number of processes, with failures and crashes at every step. A run that
        began at revision 0 loses no update for as long as it has fewer commits than there are revisions. */
    method AnyInterleaving(steps: nat)
      requires Valid()
      modifies this
      ensures Valid() && old(history) <= history
      ensures old(history)[0].revision == 0 && |history| <= 0xffff_ffff_ffff_ffff + 1 ==> NothingLost(history)
    {
      hide NothingLost;
      for n := 0 to steps
        invariant Valid() && old(history) <= history
      {
        var p: nat, which: nat, content: int, fails: bool := *, *, *, *;
        if p !in writers || (which == 0 && writers[p].place == Holding) {
          Load(p);
        } else if which == 1 && writers[p].place == Holding {
          Edit(p, content);
        } else if which == 2 {
          Drop(p);
        } else {
          PersistStep(p, fails);
        }
      }
      if history[0].revision == 0 && |history| <= 0xffff_ffff_ffff_ffff + 1 {
        FreshHistoryLosesNothing(history);
      }
    }
  }

  ghost predicate StepSucceeds(history: seq<Commit>, lock: set<nat>, w: Writer, fails: bool)
    requires |history| > 0
  {
    match w.place
    case Holding => !fails && lock == {}
    case Locked => !fails && history[|history| - 1].revision == w.revision
    case Compared => true
    case Raised => !fails
  }

  function AfterStep(w: Writer, commits: nat): Writer {
    match w.place
    case Holding => w.(place := Locked)
    case Locked => w.(place := Compared)
    case Compared => w.(place := Raised, revision := NextRevision(w.revision))
    case Raised => w.(place := Holding, seen := commits)
  }

  /** The limit on the revision is needed: at the largest one two writers that read the same state both
      commit. Such a file has to be made by hand: a run starts at revision 0 and counts an event with almost
      every write, and `persist_state` refuses a state with more than 10,000 events. */
  method SaturatedRevisionLosesAnUpdate() returns (file: RunStateFile)
    ensures fresh(file) && file.Valid()
    ensures |file.history| == 3 && file.history[1].content != file.history[2].content
    ensures file.history[1].basedOn == 0 && file.history[2].basedOn == 0
  {
    file := new RunStateFile(1, MAX_REVISION, 0);
    file.Load(2);
    file.Edit(1, 10);
    file.Edit(2, 20);
    var first := file.PersistState(1);
    var second := file.PersistState(2);
  }

  /** So is dropping the copy after a failed replacement: its revision has been raised already. A caller
      that kept the copy would, after one commit by another process, pass the comparison and overwrite
      a state it never read. */
  lemma KeptCopyPassesTheComparison(before: seq<Commit>, failed: Writer, other: Commit)
    requires Linear(before) && before[|before| - 1].revision < MAX_REVISION
    requires failed.place == Raised && WriterOk(before, {0}, 0, failed)
    requires Linear(before + [other])
    ensures failed.seen < |before + [other]| - 1
    ensures StepSucceeds(before + [other], {}, failed.(place := Locked), false)
  {
    assert (before + [other])[|before|] == other;
    assert (before + [other])[|before| - 1] == before[|before| - 1];
  }
}
