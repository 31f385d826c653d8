/** The Batch run loop: statuses and attempts of the operations over one pass and over any number of
    runs and resumes, each of which may stop wherever the original can return early. */
module BatchRun {
  import opened BatchGraph

  const MAX_OPERATION_ATTEMPTS: nat := 8

  datatype Status = NotStarted | Running | Completed | Failed | Cancelled | Blocked | Interrupted

  datatype RunStatus = RunRunning | RunCompleted | RunCompletedWithFailures | RunFailed | RunCancelled

  datatype Policy = Stop | ContinueIndependent

  datatype ResumeOptions = ResumeOptions(retryFailed: bool, retryCancelled: bool)

  /** The part of the persisted run state that the loop reads and writes. */
  datatype RunState = RunState(statuses: seq<Status>, attempts: seq<nat>, terminal: RunStatus)

  ghost predicate DependenciesCompleted(ops: seq<Operation>, statuses: seq<Status>, i: nat) {
    forall j: nat :: DependsOn(ops, i, j) ==> j < |statuses| && statuses[j] == Completed
  }

  /** What every stored state satisfies, in every run and after every resume. */
  ghost predicate Sound(ops: seq<Operation>, s: RunState) {
    && |s.statuses| == |ops| == |s.attempts|
    && (forall i :: 0 <= i < |ops| && s.statuses[i] == Completed ==> DependenciesCompleted(ops, s.statuses, i))
    && (forall i :: 0 <= i < |ops| ==> s.attempts[i] <= MAX_OPERATION_ATTEMPTS)
    && (s.terminal == RunCompleted ==> forall i :: 0 <= i < |ops| ==> s.statuses[i] == Completed)
  }

  function InitialState(ops: seq<Operation>): RunState {
    RunState(seq(|ops|, _ => NotStarted), seq(|ops|, _ => 0), RunRunning)
  }

  lemma InitialStateIsSound(ops: seq<Operation>)
    ensures Sound(ops, InitialState(ops))
  {
  }

  function AfterCancel(status: Status): Status {
    if status == NotStarted || status == Running then Cancelled else status
  }

  function AfterStop(status: Status): Status {
    if status == NotStarted || status == Running then Blocked else status
  }

  /** How `prepare_resume_state` resets one operation; whether a failure is retryable is part of its error. */
  function AfterResume(status: Status, options: ResumeOptions, retryable: bool): Status {
    match status
    case Running => NotStarted
    case Interrupted => NotStarted
    case Failed => if options.retryFailed && retryable then NotStarted else Failed
    case Cancelled => if options.retryCancelled then NotStarted else Cancelled
    case _ => status
  }

  /** A status update that neither creates nor removes Completed. */
  ghost predicate SameCompleted(a: seq<Status>, b: seq<Status>) {
    |a| == |b| && forall i :: 0 <= i < |a| ==> (a[i] == Completed <==> b[i] == Completed)
  }

  lemma SameCompletedKeepsSound(ops: seq<Operation>, s: RunState, statuses: seq<Status>, terminal: RunStatus)
    requires Sound(ops, s) && SameCompleted(s.statuses, statuses) && terminal != RunCompleted
    ensures Sound(ops, s.(statuses := statuses, terminal := terminal))
  {
    hide DependsOn;
  }

  lemma CompletingKeepsSound(ops: seq<Operation>, s: RunState, i: nat)
    requires Sound(ops, s) && i < |ops| && s.terminal != RunCompleted
    requires DependenciesCompleted(ops, s.statuses, i)
    ensures Sound(ops, s.(statuses := s.statuses[i := Completed]))
    ensures DependenciesCompleted(ops, s.statuses[i := Completed], i)
  {
    hide DependsOn;
  }

  lemma SoundFacts(ops: seq<Operation>, s: RunState)
    requires Sound(ops, s)
    ensures |s.statuses| == |s.attempts| == |ops|
  {
    hide DependenciesCompleted;
  }

  lemma StatusKeepsSound(ops: seq<Operation>, s: RunState, i: nat, status: Status)
    requires Sound(ops, s) && s.terminal != RunCompleted && i < |ops|
    requires s.statuses[i] != Completed && status != Completed
    ensures Sound(ops, s.(statuses := s.statuses[i := status]))
    ensures forall k :: 0 <= k < |ops| ==> (DependenciesCompleted(ops, s.statuses, k) <==> DependenciesCompleted(ops, s.statuses[i := status], k))
  {
    hide DependsOn;
  }

  lemma StartKeepsSound(ops: seq<Operation>, s: RunState, i: nat)
    requires Sound(ops, s) && s.terminal != RunCompleted && i < |ops| && s.statuses[i] != Completed
    requires s.attempts[i] < MAX_OPERATION_ATTEMPTS && DependenciesCompleted(ops, s.statuses, i)
    ensures Sound(ops, s.(statuses := s.statuses[i := Running], attempts := s.attempts[i := s.attempts[i] + 1]))
    ensures DependenciesCompleted(ops, s.statuses[i := Running], i)
  {
    hide DependsOn;
    StatusKeepsSound(ops, s, i, Running);
  }

  // ----- Ancestors -----

  /** A chain of dependencies from `i` down to `a`. */
  ghost predicate DependencyPath(ops: seq<Operation>, path: seq<nat>, i: nat, a: nat) {
    |path| >= 2 && path[0] == i && path[|path| - 1] == a
    && forall k :: 0 <= k < |path| - 1 ==> DependsOn(ops, path[k], path[k + 1])
  }

  ghost predicate ProperAncestor(ops: seq<Operation>, i: nat, a: nat) {
    exists path :: DependencyPath(ops, path, i, a)
  }

  /** Each settled operation is Completed or Failed with all dependencies Completed, or Blocked with
      some dependency not Completed. */
  ghost predicate Settled(ops: seq<Operation>, statuses: seq<Status>, i: nat)
    requires i < |statuses|
  {
    match statuses[i]
    case Completed => DependenciesCompleted(ops, statuses, i)
    case Failed => DependenciesCompleted(ops, statuses, i)
    case Blocked => !DependenciesCompleted(ops, statuses, i)
    case _ => false
  }

  /** When every operation is settled, Blocked means exactly that a proper ancestor is Failed. */
  lemma BlockedIffAncestorFailed(ops: seq<Operation>, order: seq<nat>, statuses: seq<Status>, i: nat)
    requires IsTopological(ops, order) && |statuses| == |ops| && i < |ops|
    requires forall k :: 0 <= k < |ops| ==> Settled(ops, statuses, k)
    ensures statuses[i] == Blocked <==> exists a: nat :: a < |ops| && ProperAncestor(ops, i, a) && statuses[a] == Failed
  {
    CoversAll(order, |ops|);
    if statuses[i] == Blocked {
      var p := PositionOf(order, i);
      var a := FailedAncestor(ops, order, statuses, p);
    }
    if a: nat :| a < |ops| && ProperAncestor(ops, i, a) && statuses[a] == Failed {
      var path :| DependencyPath(ops, path, i, a);
      BlockedAlongPath(ops, statuses, path, 0);
    }
  }

  lemma {:induction false} FailedAncestor(ops: seq<Operation>, order: seq<nat>, statuses: seq<Status>, p: nat) returns (a: nat)
    requires IsTopological(ops, order) && |statuses| == |ops| && p < |order| && statuses[order[p]] == Blocked
    requires forall k :: 0 <= k < |ops| ==> Settled(ops, statuses, k)
    ensures a < |ops| && statuses[a] == Failed && ProperAncestor(ops, order[p], a)
    decreases p
  {
    hide DependsOn;
    var i := order[p];
    assert Settled(ops, statuses, i);
    var j := UnfinishedDependency(ops, statuses, i);
    assert Settled(ops, statuses, j);
    assert j in order[..p];
    if statuses[j] == Failed {
      assert DependencyPath(ops, [i, j], i, j);
      return j;
    }
    var q :| 0 <= q < p && order[..p][q] == j;
    a := FailedAncestor(ops, order, statuses, q);
    var path :| DependencyPath(ops, path, j, a);
    var longer := [i] + path;
    forall k | 0 <= k < |longer| - 1
      ensures DependsOn(ops, longer[k], longer[k + 1])
    {
      if k > 0 {
        assert longer[k] == path[k - 1] && longer[k + 1] == path[k];
      }
    }
    assert DependencyPath(ops, longer, i, a);
  }

  lemma UnfinishedDependency(ops: seq<Operation>, statuses: seq<Status>, i: nat) returns (j: nat)
    requires !DependenciesCompleted(ops, statuses, i) && |statuses| == |ops|
    ensures DependsOn(ops, i, j) && j < |ops| && statuses[j] != Completed
  {
    j :| DependsOn(ops, i, j) && !(j < |statuses| && statuses[j] == Completed);
  }

  lemma {:induction false} BlockedAlongPath(ops: seq<Operation>, statuses: seq<Status>, path: seq<nat>, k: nat)
    requires |path| >= 2 && |statuses| == |ops| && k < |path| - 1
    requires forall m :: 0 <= m < |path| - 1 ==> DependsOn(ops, path[m], path[m + 1])
    requires path[|path| - 1] < |ops| && statuses[path[|path| - 1]] == Failed
    requires forall m :: 0 <= m < |ops| ==> Settled(ops, statuses, m)
    ensures path[k] < |ops| && statuses[path[k]] == Blocked
    decreases |path| - k
  {
    if k + 1 < |path| - 1 {
      BlockedAlongPath(ops, statuses, path, k + 1);
    }
    assert DependsOn(ops, path[k], path[k + 1]);
    assert Settled(ops, statuses, path[k]);
  }

  // ----- Started executions -----

  /** The account of the executions started so far: each is paid for by a stored attempt, each operation
      follows all its dependencies, and nothing is Completed that was not started. */
  ghost predicate Accounted(ops: seq<Operation>, started: seq<nat>, saved: RunState, state: RunState) {
    && |saved.statuses| == |saved.attempts| == |state.statuses| == |state.attempts| == |ops|
    && (forall i: nat :: multiset(started)[i] > 0 ==> i < |ops| && multiset(started)[i] <= saved.attempts[i])
    && (forall i: nat :: i < |ops| ==> saved.attempts[i] <= state.attempts[i])
    && (forall i: nat :: i < |ops| && (saved.statuses[i] == Completed || state.statuses[i] == Completed) ==> i in started)
    && AfterDependencies(ops, started)
  }

  ghost predicate AfterDependencies(ops: seq<Operation>, started: seq<nat>) {
    forall k: nat, j: nat :: k < |started| && DependsOn(ops, started[k], j) ==> j in started[..k]
  }

  lemma NothingIsAccounted(ops: seq<Operation>)
    ensures Accounted(ops, [], InitialState(ops), InitialState(ops))
  {
    hide DependsOn;
  }

  lemma StatusIsAccounted(ops: seq<Operation>, started: seq<nat>, saved: RunState, state: RunState, statuses: seq<Status>)
    requires Accounted(ops, started, saved, state) && |statuses| == |ops|
    requires forall k :: 0 <= k < |ops| && statuses[k] == Completed ==> state.statuses[k] == Completed
    ensures forall terminal :: Accounted(ops, started, saved, RunState(statuses, state.attempts, terminal))
  {
    hide AfterDependencies;
  }

  lemma EndOfPassIsAccounted(ops: seq<Operation>, started: seq<nat>, saved: RunState, before: RunState, state: RunState)
    requires Accounted(ops, started, saved, before)
    requires state.attempts == before.attempts && |state.statuses| == |ops|
    requires forall k :: 0 <= k < |ops| && state.statuses[k] == Completed ==> k < |before.statuses| && before.statuses[k] == Completed
    ensures Accounted(ops, started, saved, state) && Accounted(ops, started, state, state)
  {
    hide AfterDependencies;
  }

  /** The account holds as well when the current state is stored and when the stored one is taken back. */
  lemma StoredIsAccounted(ops: seq<Operation>, started: seq<nat>, saved: RunState, state: RunState)
    requires Accounted(ops, started, saved, state)
    ensures Accounted(ops, started, state, state) && Accounted(ops, started, saved, saved)
  {
    hide AfterDependencies;
  }

  /** A stored raise of the attempts of `i` pays for its next execution. */
  lemma StartIsAccounted(ops: seq<Operation>, started: seq<nat>, saved: RunState, before: RunState, after: RunState, i: nat)
    requires Accounted(ops, started, saved, before) && i < |ops| && DependenciesCompleted(ops, before.statuses, i)
    requires after == before.(statuses := before.statuses[i := Running], attempts := before.attempts[i := before.attempts[i] + 1])
    ensures Accounted(ops, started, saved, after) && Accounted(ops, started, after, after)
    ensures Accounted(ops, started + [i], after, after)
  {
    hide AfterDependencies;
    StartsAfterDependencies(ops, started, before.statuses, i);
  }

  lemma StartsAfterDependencies(ops: seq<Operation>, started: seq<nat>, statuses: seq<Status>, i: nat)
    requires AfterDependencies(ops, started) && DependenciesCompleted(ops, statuses, i)
    requires forall j: nat :: j < |statuses| && statuses[j] == Completed ==> j in started
    ensures AfterDependencies(ops, started + [i])
  {
    hide DependsOn;
    var longer := started + [i];
    forall k: nat, j: nat | k < |longer| && DependsOn(ops, longer[k], j)
      ensures j in longer[..k]
    {
      assert longer[..k] == started[..k];
    }
  }

  lemma EndIsAccounted(ops: seq<Operation>, started: seq<nat>, running: RunState, ended: RunState, i: nat)
    requires Accounted(ops, started, running, running) && i in started && i < |ops| && |ended.statuses| == |ops|
    requires ended.attempts == running.attempts && ended.statuses == running.statuses[i := ended.statuses[i]]
    ensures Accounted(ops, started, running, ended) && Accounted(ops, started, ended, ended)
  {
    hide AfterDependencies;
  }

  lemma StartsAreFew(ops: seq<Operation>, started: seq<nat>, saved: RunState, state: RunState)
    requires Accounted(ops, started, saved, state) && Sound(ops, saved)
    ensures forall i: nat :: multiset(started)[i] <= 8
    ensures forall k: nat, j: nat :: k < |started| && DependsOn(ops, started[k], j) ==> j in started[..k]
  {
    hide DependsOn, DependenciesCompleted;
  }

  /** The operations of an order whose attempts were raised. */
  ghost function Attempted(order: seq<nat>, before: seq<nat>, after: seq<nat>): seq<nat> {
    if order == [] then []
    else
      var i := order[|order| - 1];
      Attempted(order[..|order| - 1], before, after)
      + if i < |before| && i < |after| && after[i] > before[i] then [i] else []
  }

  lemma {:induction false} NothingAttempted(order: seq<nat>, attempts: seq<nat>)
    ensures Attempted(order, attempts, attempts) == []
  {
    if order != [] {
      NothingAttempted(order[..|order| - 1], attempts);
    }
  }

  lemma {:induction false} SameAttempted(order: seq<nat>, start: seq<nat>, a: seq<nat>, b: seq<nat>)
    requires |a| == |b| && forall q :: 0 <= q < |order| && order[q] < |a| ==> a[order[q]] == b[order[q]]
    ensures Attempted(order, start, a) == Attempted(order, start, b)
  {
    if order != [] {
      SameAttempted(order[..|order| - 1], start, a, b);
    }
  }

  lemma {:induction false} AttemptedNext(order: seq<nat>, start: seq<nat>, a: seq<nat>, b: seq<nat>, p: nat)
    requires Distinct(order) && p < |order| && |start| == |a| == |b| && forall q :: 0 <= q < |order| ==> order[q] < |a|
    requires forall q :: p <= q < |order| ==> a[order[q]] == start[order[q]]
    requires forall q :: 0 <= q < |order| && q != p ==> a[order[q]] == b[order[q]]
    ensures Attempted(order, start, b) == Attempted(order, start, a) + if b[order[p]] > start[order[p]] then [order[p]] else []
  {
    var shorter := order[..|order| - 1];
    if p == |order| - 1 {
      SameAttempted(shorter, start, a, b);
    } else {
      AttemptedNext(shorter, start, a, b, p);
    }
  }

  // ----- One pass -----

  /** How the execution of one operation ended; `NoEvidence` is a success whose evidence could not be taken. */
  datatype Execution = Succeeded | NoEvidence | WasCancelled | DidFail

  /** The status that an ended execution is recorded with. */
  ghost predicate Recorded(e: Execution, status: Status) {
    && (status == Completed <==> e.Succeeded?)
    && (status == Cancelled <==> e.WasCancelled?)
    && (status == Failed <==> e.DidFail?)
  }

  /** What a pass that begins at `start` makes of an operation it has dealt with: Completed is kept; below
      an unfinished dependency it is Blocked; a failure that is not to be retried stays; everything else
      is attempted once and recorded as its execution ended. */
  ghost predicate VisitRight(ops: seq<Operation>, start: RunState, now: RunState, options: ResumeOptions, outcome: nat -> Execution, i: nat)
    requires i < |start.statuses| == |start.attempts| && i < |now.statuses| == |now.attempts|
  {
    if start.statuses[i] == Completed then
      now.statuses[i] == Completed && now.attempts[i] == start.attempts[i]
    else if !DependenciesCompleted(ops, now.statuses, i) then
      now.statuses[i] == Blocked && now.attempts[i] == start.attempts[i]
    else if start.statuses[i] == Failed && !options.retryFailed then
      now.statuses[i] == Failed && now.attempts[i] == start.attempts[i]
    else
      now.attempts[i] == start.attempts[i] + 1 && !outcome(i).NoEvidence? && Recorded(outcome(i), now.statuses[i])
  }

  /** Marks change only operations that wait or run, into Blocked or Cancelled. */
  ghost predicate OnlyMarked(a: seq<Status>, b: seq<Status>) {
    |a| == |b| && forall k :: 0 <= k < |a| ==>
      b[k] == a[k] || (a[k] in {NotStarted, Running} && b[k] in {Blocked, Cancelled})
  }

  /** The first `visited` operations of the order are dealt with and the others at most marked. */
  ghost predicate PassRight(ops: seq<Operation>, order: seq<nat>, start: RunState, now: RunState, options: ResumeOptions,
                            outcome: nat -> Execution, visited: nat)
  {
    && visited <= |order| && |start.statuses| == |start.attempts| == |now.statuses| == |now.attempts| == |ops|
    && (forall q :: 0 <= q < visited ==> order[q] < |ops| && VisitRight(ops, start, now, options, outcome, order[q]))
    && forall q :: visited <= q < |order| ==>
         && order[q] < |ops| && now.attempts[order[q]] == start.attempts[order[q]]
         && (now.statuses[order[q]] == start.statuses[order[q]]
             || (start.statuses[order[q]] in {NotStarted, Running} && now.statuses[order[q]] in {Blocked, Cancelled}))
  }

  lemma MarksKeepPass(ops: seq<Operation>, order: seq<nat>, start: RunState, a: RunState, b: RunState, options: ResumeOptions,
                      outcome: nat -> Execution, visited: nat)
    requires PassRight(ops, order, start, a, options, outcome, visited)
    requires OnlyMarked(a.statuses, b.statuses) && b.attempts == a.attempts
    ensures PassRight(ops, order, start, b, options, outcome, visited)
  {
    hide DependsOn;
    forall q | 0 <= q < visited
      ensures VisitRight(ops, start, b, options, outcome, order[q])
    {
      MarksKeepDependencies(ops, a.statuses, b.statuses, order[q]);
      assert VisitRight(ops, start, a, options, outcome, order[q]);
    }
  }

  lemma MarksKeepDependencies(ops: seq<Operation>, a: seq<Status>, b: seq<Status>, i: nat)
    requires OnlyMarked(a, b)
    ensures DependenciesCompleted(ops, a, i) <==> DependenciesCompleted(ops, b, i)
  {
    hide DependsOn;
  }

  lemma MarksKeepCompleted(start: seq<Status>, a: seq<Status>, b: seq<Status>, outcome: nat -> Execution)
    requires OnlyMarked(a, b) && OnlySuccesses(start, a, outcome)
    ensures OnlySuccesses(start, b, outcome) && SameCompleted(a, b)
  {
  }

  lemma CancelMarks(a: seq<Status>, b: seq<Status>)
    requires |a| == |b| && forall k :: 0 <= k < |a| ==> b[k] == AfterCancel(a[k])
    ensures OnlyMarked(a, b)
  {
  }

  lemma StopMarks(a: seq<Status>, b: seq<Status>)
    requires |a| == |b| && forall k :: 0 <= k < |a| ==> b[k] == AfterStop(a[k])
    ensures OnlyMarked(a, b)
  {
  }

  lemma NothingMarked(a: seq<Status>)
    ensures OnlyMarked(a, a)
  {
  }

  lemma MarkedTwice(a: seq<Status>, b: seq<Status>, c: seq<Status>)
    requires OnlyMarked(a, b) && OnlyMarked(b, c)
    ensures OnlyMarked(a, c)
  {
  }

  /** The operations after the first `p` of the order are as they were. */
  ghost predicate Untouched(start: RunState, now: RunState, order: seq<nat>, p: nat)
    requires |start.statuses| == |start.attempts| && p <= |order|
  {
    && |now.statuses| == |now.attempts| == |start.statuses|
    && forall k: nat :: k < |start.statuses| && k !in order[..p] ==>
         now.statuses[k] == start.statuses[k] && now.attempts[k] == start.attempts[k]
  }

  lemma StillUntouched(start: RunState, now: RunState, order: seq<nat>, p: nat)
    requires |start.statuses| == |start.attempts| && p < |order| && Untouched(start, now, order, p)
    requires Distinct(order) && order[p] < |start.statuses|
    ensures now.statuses[order[p]] == start.statuses[order[p]] && now.attempts[order[p]] == start.attempts[order[p]]
    ensures order[..p + 1] == order[..p] + [order[p]] && order[p] !in order[..p]
  {
  }

  /** The first `p` operations of the order are settled, and a failure among them was seen. */
  ghost predicate DealtWith(ops: seq<Operation>, order: seq<nat>, statuses: seq<Status>, p: nat, failureSeen: bool) {
    && |statuses| == |ops| && p <= |order|
    && (forall q :: 0 <= q < p ==> order[q] < |ops| && Settled(ops, statuses, order[q]))
    && (failureSeen <==> exists q :: 0 <= q < p && statuses[order[q]] == Failed)
  }

  lemma NothingDealtWith(ops: seq<Operation>, order: seq<nat>, statuses: seq<Status>)
    requires |statuses| == |ops|
    ensures DealtWith(ops, order, statuses, 0, false)
  {
  }

  lemma FailureStays(ops: seq<Operation>, order: seq<nat>, a: seq<Status>, b: seq<Status>, p: nat, failureSeen: bool)
    requires DealtWith(ops, order, a, p, failureSeen) && |a| == |b| && Distinct(order)
    requires forall k :: 0 <= k < |a| && (p < |order| ==> k != order[p]) && a[k] == Failed ==> b[k] == Failed
    ensures failureSeen ==> exists q :: 0 <= q < p && order[q] < |b| && b[order[q]] == Failed
  {
    hide Settled;
    if failureSeen {
      var q :| 0 <= q < p && a[order[q]] == Failed;
      assert b[order[q]] == Failed;
    }
  }

  lemma DealsWithNext(ops: seq<Operation>, order: seq<nat>, a: seq<Status>, b: seq<Status>, p: nat, failureSeen: bool)
    requires IsTopological(ops, order) && DealtWith(ops, order, a, p, failureSeen)
    requires p < |order| && order[p] < |ops| && |b| == |ops| && Settled(ops, b, order[p])
    requires forall k :: 0 <= k < |ops| && k != order[p] ==> a[k] == b[k]
    ensures DealtWith(ops, order, b, p + 1, failureSeen || b[order[p]] == Failed)
  {
    hide Settled, DependsOn;
    forall q | 0 <= q < p
      ensures Settled(ops, b, order[q]) && b[order[q]] == a[order[q]]
    {
      SettledStable(ops, order, a, b, q, p);
    }
  }

  lemma AllDealtWith(ops: seq<Operation>, order: seq<nat>, statuses: seq<Status>, failureSeen: bool)
    requires IsTopological(ops, order) && DealtWith(ops, order, statuses, |order|, failureSeen)
    ensures forall k :: 0 <= k < |ops| ==> Settled(ops, statuses, k) && (!failureSeen ==> statuses[k] != Failed)
  {
    hide Settled, DependsOn;
    OrderCovers(ops, order);
    forall k | 0 <= k < |ops|
      ensures Settled(ops, statuses, k) && (!failureSeen ==> statuses[k] != Failed)
    {
      var q := PositionOf(order, k);
    }
  }

  lemma NextIsAttempted(ops: seq<Operation>, order: seq<nat>, start: RunState, before: RunState, after: RunState, p: nat)
    requires IsTopological(ops, order) && p < |order| && |start.statuses| == |start.attempts| == |after.attempts| == |ops|
    requires Untouched(start, before, order, p)
    requires forall k :: 0 <= k < |ops| && k != order[p] ==> after.attempts[k] == before.attempts[k]
    ensures order[p] < |ops|
    ensures Attempted(order, start.attempts, after.attempts)
         == Attempted(order, start.attempts, before.attempts) + if after.attempts[order[p]] > start.attempts[order[p]] then [order[p]] else []
  {
    hide DependsOn;
    AttemptedNext(order, start.attempts, before.attempts, after.attempts, p);
  }

  lemma PassBegins(ops: seq<Operation>, order: seq<nat>, s: RunState, options: ResumeOptions, outcome: nat -> Execution)
    requires IsTopological(ops, order) && |s.statuses| == |s.attempts| == |ops|
    ensures PassRight(ops, order, s, s, options, outcome, 0) && Untouched(s, s, order, 0)
  {
    hide VisitRight, DependsOn;
  }

  lemma PassGoesOn(ops: seq<Operation>, order: seq<nat>, start: RunState, before: RunState, after: RunState,
                   options: ResumeOptions, outcome: nat -> Execution, p: nat)
    requires IsTopological(ops, order) && p < |order| && PassRight(ops, order, start, before, options, outcome, p)
    requires |after.statuses| == |after.attempts| == |ops| && Untouched(start, before, order, p)
    requires order[p] < |ops| && before.statuses[order[p]] == start.statuses[order[p]]
    requires before.attempts[order[p]] == start.attempts[order[p]]
    requires forall k :: 0 <= k < |ops| && k != order[p] ==>
      after.statuses[k] == before.statuses[k] && after.attempts[k] == before.attempts[k]
    requires VisitRight(ops, before, after, options, outcome, order[p])
    ensures PassRight(ops, order, start, after, options, outcome, p + 1) && Untouched(start, after, order, p + 1)
  {
    hide DependsOn, Recorded;
    forall q | 0 <= q < p
      ensures VisitRight(ops, start, after, options, outcome, order[q])
    {
      DependenciesStable(ops, order, before.statuses, after.statuses, q, p);
      assert VisitRight(ops, start, before, options, outcome, order[q]);
    }
  }

  lemma DependenciesStable(ops: seq<Operation>, order: seq<nat>, a: seq<Status>, b: seq<Status>, q: nat, p: nat)
    requires IsTopological(ops, order) && |a| == |b| == |ops| && q < p < |order|
    requires forall k :: 0 <= k < |ops| && k != order[p] ==> a[k] == b[k]
    ensures order[q] < |ops| && order[q] != order[p]
    ensures DependenciesCompleted(ops, a, order[q]) <==> DependenciesCompleted(ops, b, order[q])
  {
    forall j: nat | DependsOn(ops, order[q], j)
      ensures j != order[p] && (j < |ops| ==> a[j] == b[j])
    {
      assert j in order[..q];
    }
  }

  lemma CompletedIsBelowCompleted(ops: seq<Operation>, s: RunState, i: nat)
    requires Sound(ops, s) && i < |ops|
    ensures |s.statuses| == |ops| && (s.statuses[i] == Completed ==> DependenciesCompleted(ops, s.statuses, i))
  {
    hide DependenciesCompleted;
  }

  /** Dealt with and not cancelled is settled. */
  lemma RightIsSettled(ops: seq<Operation>, start: RunState, now: RunState, options: ResumeOptions, outcome: nat -> Execution, i: nat)
    requires i < |start.statuses| == |start.attempts| && i < |now.statuses| == |now.attempts|
    requires VisitRight(ops, start, now, options, outcome, i) && now.statuses[i] != Cancelled
    requires start.statuses[i] == Completed ==> DependenciesCompleted(ops, now.statuses, i)
    ensures Settled(ops, now.statuses, i)
  {
    hide DependenciesCompleted;
  }

  /** The only things that make an undisturbed pass end with an error ... */
  ghost predicate MayAbort(ops: seq<Operation>, start: RunState, outcome: nat -> Execution)
    requires |start.statuses| == |start.attempts| == |ops|
  {
    exists i :: 0 <= i < |ops| && start.statuses[i] != Completed && (outcome(i).NoEvidence? || start.attempts[i] >= 8)
  }

  /** ... or as cancelled. */
  ghost predicate MayBeCancelled(ops: seq<Operation>, start: RunState, options: ResumeOptions, outcome: nat -> Execution)
    requires |start.statuses| == |ops|
  {
    exists i :: 0 <= i < |ops| && start.statuses[i] != Completed
      && (outcome(i).WasCancelled? || (start.statuses[i] == Cancelled && !options.retryCancelled))
  }

  datatype Visit = VisitedFine | SkippedFailure | VisitedFailure | SkippedCancelled | VisitedCancelled | VisitAborted

  datatype PassEnd = Finished(cancelled: bool, failureSeen: bool) | Aborted

  class BatchRunner {
    const ops: seq<Operation>
    const order: seq<nat>
    const policy: Policy
    var state: RunState
    var saved: RunState
    /** The operations whose execution was started, in that order, in this run and its resumes. */
    ghost var started: seq<nat>

    ghost predicate Valid()
      reads this
    {
      && ValidGraph(ops) && IsTopological(ops, order)
      && Sound(ops, state) && Sound(ops, saved)
      && Accounted(ops, started, saved, state)
    }

    constructor (ops: seq<Operation>, order: seq<nat>, policy: Policy)
      requires ValidGraph(ops) && IsTopological(ops, order)
      ensures Valid() && this.ops == ops && this.order == order && this.policy == policy
      ensures state == InitialState(ops) && saved == state && started == []
      ensures state.terminal == RunRunning && |state.statuses| == |state.attempts| == |ops|
      ensures forall k :: 0 <= k < |ops| ==> state.statuses[k] == NotStarted && state.attempts[k] == 0
    {
      this.ops, this.order, this.policy := ops, order, policy;
      state, saved, started := InitialState(ops), InitialState(ops), [];
      InitialStateIsSound(ops);
      NothingIsAccounted(ops);
    }

    /** `persist_state` and the event after it: the stored state becomes the current one or stays, and
        when either fails the run ends with an error. */
    method Persist(disturbed: bool) returns (ok: bool)
      modifies this`saved
      ensures saved == state || saved == old(saved)
      ensures ok ==> saved == state
      ensures !disturbed ==> ok
    {
      var stored: bool, emitted: bool := true, true;
      if disturbed { stored, emitted := *, *; }
      if stored { saved := state; }
      return stored && emitted;
    }

    /** Any of the points at which the original may find the cancellation token set. */
    method CancellationRequested(disturbed: bool) returns (cancelled: bool)
      ensures cancelled ==> disturbed
    {
      cancelled := false;
      if disturbed { cancelled := *; }
    }

    method AllDependenciesCompleted(i: nat) returns (all: bool)
      requires Valid() && i < |ops|
      ensures all <==> DependenciesCompleted(ops, state.statuses, i)
    {
      hide IsTopological, ValidGraph;
      all := true;
      var j := 0;
      while j < |ops|
        invariant j <= |ops|
        invariant all <==> forall k: nat :: k < j && DependsOn(ops, i, k) ==> state.statuses[k] == Completed
      {
        if DependsOn(ops, i, j) && state.statuses[j] != Completed { all := false; }
        j := j + 1;
      }
    }

    method SetStatus(i: nat, status: Status)
      requires Valid() && i < |ops| && state.terminal != RunCompleted
      requires status != Completed && state.statuses[i] != Completed
      modifies this`state
      ensures Valid() && state == old(state).(statuses := old(state).statuses[i := status])
    {
      hide IsTopological, ValidGraph, DependenciesCompleted, Accounted;
      StatusIsAccounted(ops, started, saved, state, state.statuses[i := status]);
      SameCompletedKeepsSound(ops, state, state.statuses[i := status], state.terminal);
      state := state.(statuses := state.statuses[i := status]);
    }

    /** The execution itself. It begins only when the stored state says that it is running. */
    method RunOperation(i: nat, outcome: nat -> Execution) returns (e: Execution)
      requires i < |saved.statuses| && saved == state && saved.statuses[i] == Running
      modifies this`started
      ensures started == old(started) + [i] && e == outcome(i)
    {
      started := started + [i];
      e := outcome(i);
    }

    /** Starts operation `i`, whose dependencies are all Completed, and records how it ended. */
    method Attempt(i: nat, outcome: nat -> Execution, disturbed: bool) returns (v: Visit)
      requires Valid() && i < |ops| && state.terminal == RunRunning && DependenciesCompleted(ops, state.statuses, i)
      requires state.statuses[i] != Completed && state.attempts[i] < MAX_OPERATION_ATTEMPTS
      modifies this
      ensures Valid() && state.terminal == RunRunning && |state.statuses| == |state.attempts| == |ops|
      ensures state.statuses == old(state).statuses[i := state.statuses[i]]
      ensures state.attempts == old(state).attempts[i := old(state).attempts[i] + 1]
      ensures DependenciesCompleted(ops, state.statuses, i)
      ensures !v.VisitAborted? ==> !outcome(i).NoEvidence? && Recorded(outcome(i), state.statuses[i])
      ensures v.VisitAborted? ==> disturbed || outcome(i).NoEvidence?
      ensures v.VisitedFine? ==> state.statuses[i] == Completed
      ensures v.VisitedFailure? ==> state.statuses[i] == Failed
      ensures v.VisitedCancelled? ==> state.statuses[i] == Cancelled
      ensures !v.SkippedFailure? && !v.SkippedCancelled?
      ensures OnlySuccesses(old(state).statuses, state.statuses, outcome)
      ensures SavedKeeps(old(saved), saved, old(state).statuses, outcome)
      ensures started == old(started) + [i] || (v.VisitAborted? && started == old(started))
      ensures !v.VisitAborted? ==> saved == state
    {
      hide IsTopological, ValidGraph, DependsOn, Sound, DependenciesCompleted, Accounted;
      SoundFacts(ops, state);
      StartKeepsSound(ops, state, i);
      ghost var before := state.statuses;
      state := state.(statuses := state.statuses[i := Running], attempts := state.attempts[i := state.attempts[i] + 1]);
      assert state.statuses == before[i := Running];
      ghost var running := state;
      StartIsAccounted(ops, started, saved, old(state), state, i);
      var stored := Persist(disturbed);
      if !stored { return VisitAborted; }
      var ended := RunOperation(i, outcome);
      match ended {
        case NoEvidence => return VisitAborted;
        case Succeeded =>
          CompletingKeepsSound(ops, state, i);
          state := state.(statuses := state.statuses[i := Completed]);
          assert state.statuses == before[i := Completed];
          EndIsAccounted(ops, started, running, state, i);
          stored := Persist(disturbed);
          return if stored then VisitedFine else VisitAborted;
        case WasCancelled =>
          StatusKeepsSound(ops, state, i, Cancelled);
          state := state.(statuses := state.statuses[i := Cancelled]);
          assert state.statuses == before[i := Cancelled];
          EndIsAccounted(ops, started, running, state, i);
          stored := Persist(disturbed);
          return if stored then VisitedCancelled else VisitAborted;
        case DidFail =>
          StatusKeepsSound(ops, state, i, Failed);
          state := state.(statuses := state.statuses[i := Failed]);
          assert state.statuses == before[i := Failed];
          EndIsAccounted(ops, started, running, state, i);
          stored := Persist(disturbed);
          return if stored then VisitedFailure else VisitAborted;
      }
    }

    /** One turn of the loop. Nothing but operation `i` changes; Completed is kept; an attempt is spent
        only when every dependency is Completed; and unless the turn ends the pass, `i` is dealt with. */
    method VisitOperation(i: nat, options: ResumeOptions, outcome: nat -> Execution, disturbed: bool) returns (v: Visit)
      requires Valid() && i < |ops| && state.terminal == RunRunning
      modifies this
      ensures Valid() && state.terminal == RunRunning && |state.statuses| == |state.attempts| == |ops|
      ensures forall k :: 0 <= k < |ops| && k != i ==>
        state.statuses[k] == old(state).statuses[k] && state.attempts[k] == old(state).attempts[k]
      ensures old(state).statuses[i] == Completed ==> state == old(state) && v == VisitedFine
      ensures old(state).attempts[i] <= state.attempts[i] <= old(state).attempts[i] + 1
      ensures state.attempts[i] > old(state).attempts[i] ==> DependenciesCompleted(ops, state.statuses, i)
      ensures !v.VisitAborted? && !v.SkippedCancelled? ==> VisitRight(ops, old(state), state, options, outcome, i)
      ensures v.SkippedCancelled? ==> state == old(state) && state.statuses[i] == Cancelled && !options.retryCancelled
      ensures v.VisitAborted? ==>
        disturbed || (old(state).statuses[i] != Completed && (outcome(i).NoEvidence? || old(state).attempts[i] >= 8))
      ensures v.VisitedFine? ==> state.statuses[i] == Completed || state.statuses[i] == Blocked
      ensures v.VisitedCancelled? ==> old(state).statuses[i] != Completed && outcome(i).WasCancelled?
      ensures v.VisitedFailure? || v.SkippedFailure? ==> state.statuses[i] == Failed
      ensures v.VisitedFailure? ==> outcome(i).DidFail? && state.attempts[i] > old(state).attempts[i]
      ensures OnlySuccesses(old(state).statuses, state.statuses, outcome)
      ensures SavedKeeps(old(saved), saved, old(state).statuses, outcome)
      ensures !v.VisitAborted? ==> started == old(started) + if state.attempts[i] > old(state).attempts[i] then [i] else []
      ensures !v.VisitAborted? ==> saved == state || (state == old(state) && saved == old(saved))
    {
      hide IsTopological, ValidGraph, DependsOn, Accounted;
      var status := state.statuses[i];
      if status == Completed { return VisitedFine; }
      var ready := AllDependenciesCompleted(i);
      if !ready {
        ghost var before := state;
        SetStatus(i, Blocked);
        StatusKeepsSound(ops, before, i, Blocked);
        StoredIsAccounted(ops, started, saved, state);
        var stored := Persist(disturbed);
        return if stored then VisitedFine else VisitAborted;
      }
      if status == Failed && !options.retryFailed { return SkippedFailure; }
      if status == Cancelled && !options.retryCancelled { return SkippedCancelled; }
      if state.attempts[i] >= MAX_OPERATION_ATTEMPTS { return VisitAborted; }
      v := Attempt(i, outcome, disturbed);
    }

    method ApplyToAll(f: Status -> Status)
      requires Valid() && state.terminal == RunRunning
      requires forall x :: (x == Completed <==> f(x) == Completed)
      modifies this`state
      ensures Valid() && state.terminal == RunRunning && state.attempts == old(state).attempts
      ensures |state.statuses| == |state.attempts| == |ops|
      ensures |state.statuses| == |old(state).statuses|
      ensures forall k :: 0 <= k < |ops| ==> state.statuses[k] == f(old(state).statuses[k])
    {
      hide IsTopological, ValidGraph, DependenciesCompleted, Accounted;
      var next: seq<Status> := [];
      for k := 0 to |state.statuses|
        invariant |next| == k
        invariant forall m :: 0 <= m < k ==> next[m] == f(state.statuses[m])
      {
        next := next + [f(state.statuses[k])];
      }
      SameCompletedKeepsSound(ops, state, next, state.terminal);
      StatusIsAccounted(ops, started, saved, state, next);
      state := state.(statuses := next);
    }

    /** The loop over the execution order. Completed is absorbing, an attempt is spent at most once and only
        below Completed dependencies, every operation dealt with is recorded as its execution ended, and a
        pass that is neither cancelled nor cut short by the stop policy deals with all. It ends with an
        error only when disturbed, on missing evidence or on an exhausted attempt limit. */
    method RunLoop(options: ResumeOptions, outcome: nat -> Execution, disturbed: bool) returns (end: PassEnd, ghost visited: nat)
      requires Valid() && state.terminal == RunRunning
      modifies this
      ensures Valid() && state.terminal == RunRunning
      ensures CompletedKept(old(state).statuses, state.statuses)
      ensures AttemptsSpentSoundly(ops, old(state), state)
      ensures end.Finished? ==> PassRight(ops, order, old(state), state, options, outcome, visited)
      ensures end.Finished? && !end.cancelled && (policy == ContinueIndependent || !end.failureSeen) ==> visited == |order|
      ensures end.Finished? && !end.cancelled && (policy == ContinueIndependent || !end.failureSeen)
        ==> forall k :: 0 <= k < |ops| ==> Settled(ops, state.statuses, k)
      ensures end.Finished? && !end.cancelled && !end.failureSeen ==> forall k :: 0 <= k < |ops| ==> state.statuses[k] != Failed
      ensures end.Finished? && end.failureSeen ==>
        exists q :: 0 <= q < visited <= |order| && order[q] < |state.statuses| && state.statuses[order[q]] == Failed
      ensures end.Aborted? ==> disturbed || MayAbort(ops, old(state), outcome)
      ensures end.Finished? && end.cancelled ==> disturbed || MayBeCancelled(ops, old(state), options, outcome)
      ensures OnlySuccesses(old(state).statuses, state.statuses, outcome)
      ensures SavedKeeps(old(saved), saved, old(state).statuses, outcome)
      ensures end.Finished? ==> started == old(started) + Attempted(order, old(state).attempts, state.attempts)
    {
      hide ValidGraph, DependsOn, Settled, DependenciesCompleted, Sound, CompletedKept, SavedKeeps, AttemptsSpentSoundly;
      hide Accounted, Attempted;
      hide PassRight, VisitRight, OnlySuccesses, OnlyMarked, DealtWith, Untouched;
      OrderCovers(ops, order);
      var failureSeen := false;
      ghost var start, stored := state, saved;
      StartOfPass(ops, state);
      PassBegins(ops, order, state, options, outcome);
      hide IsTopological;
      SavedUnchanged(saved, start.statuses, outcome);
      NothingDealtWith(ops, order, state.statuses);
      NothingAttempted(order, state.attempts);
      visited := 0;
      for p := 0 to |order|
        invariant Valid() && state.terminal == RunRunning && |state.statuses| == |state.attempts| == |ops|
        invariant PassRight(ops, order, start, state, options, outcome, p)
        invariant DealtWith(ops, order, state.statuses, p, failureSeen)
        invariant CompletedKept(start.statuses, state.statuses) && OnlySuccesses(start.statuses, state.statuses, outcome)
        invariant AttemptsSpentSoundly(ops, start, state)
        invariant SavedKeeps(stored, saved, start.statuses, outcome)
        invariant Untouched(start, state, order, p)
        invariant started == old(started) + Attempted(order, start.attempts, state.attempts)
      {
        ghost var before, savedBefore := state, saved;
        visited := p;
        var cancelled := CancellationRequested(disturbed);
        if cancelled {
          ApplyToAll(AfterCancel);
          CancelMarks(before.statuses, state.statuses);
          MarksKeepPass(ops, order, start, before, state, options, outcome, p);
          MarksKeepCompleted(start.statuses, before.statuses, state.statuses, outcome);
          FailureStays(ops, order, before.statuses, state.statuses, p, failureSeen);
          PassStep(ops, start, before, state, |ops|);
          return Finished(true, failureSeen), p;
        }
        var i := order[p];
        StillUntouched(start, before, order, p);
        var visit := VisitOperation(i, options, outcome, disturbed);
        SavedStep(stored, savedBefore, saved, start.statuses, before.statuses, outcome);
        SuccessesOnward(start.statuses, before.statuses, state.statuses, outcome);
        PassStep(ops, start, before, state, i);
        if visit.VisitAborted? { return Aborted, p; }
        NextIsAttempted(ops, order, start, before, state, p);
        FailureStays(ops, order, before.statuses, state.statuses, p, failureSeen);
        if visit.SkippedCancelled? { return Finished(true, failureSeen), p; }
        PassGoesOn(ops, order, start, before, state, options, outcome, p);
        visited := p + 1;
        if visit.VisitedCancelled? { return Finished(true, failureSeen), p + 1; }
        CompletedIsBelowCompleted(ops, state, i);
        RightIsSettled(ops, before, state, options, outcome, i);
        DealsWithNext(ops, order, before.statuses, state.statuses, p, failureSeen);
        failureSeen := failureSeen || visit.SkippedFailure? || visit.VisitedFailure?;
        if visit.VisitedFailure? && policy == Stop {
          FailureStays(ops, order, state.statuses, state.statuses, p + 1, true);
          return Finished(false, true), p + 1;
        }
      }
      FailureStays(ops, order, state.statuses, state.statuses, |order|, failureSeen);
      AllDealtWith(ops, order, state.statuses, failureSeen);
      return Finished(false, failureSeen), |order|;
    }

    method AnyFailedOrBlocked() returns (found: bool)
      requires |state.statuses| == |ops|
      ensures found <==> exists k :: 0 <= k < |ops| && (state.statuses[k] == Failed || state.statuses[k] == Blocked)
    {
      for k := 0 to |ops|
        invariant forall m :: 0 <= m < k ==> state.statuses[m] != Failed && state.statuses[m] != Blocked
      {
        if state.statuses[k] == Failed || state.statuses[k] == Blocked { return true; }
      }
      return false;
    }

    /** The end of a pass: the stop policy, the cancellation marks and the terminal state. Completed is
        reported exactly when every operation is. */
    method Conclude(cancelled: bool, failureSeen: bool, disturbed: bool) returns (stored: bool)
      requires Valid() && state.terminal == RunRunning
      requires !cancelled && !failureSeen
        ==> forall k :: 0 <= k < |ops| ==> Settled(ops, state.statuses, k) && state.statuses[k] != Failed
      requires failureSeen ==> exists k :: 0 <= k < |ops| && state.statuses[k] == Failed
      modifies this`state, this`saved
      ensures Valid() && (stored ==> saved == state) && (saved == state || saved == old(saved)) && (!disturbed ==> stored)
      ensures |state.statuses| == |ops| && OnlyMarked(old(state).statuses, state.statuses)
      ensures forall k :: 0 <= k < |ops| ==>
        state.statuses[k] ==
        if old(state).statuses[k] !in {NotStarted, Running} then old(state).statuses[k]
        else if failureSeen && policy == Stop then Blocked
        else if cancelled then Cancelled
        else old(state).statuses[k]
      ensures state.attempts == old(state).attempts
      ensures state.terminal ==
        if cancelled then RunCancelled
        else if forall k :: 0 <= k < |ops| ==> state.statuses[k] == Completed then RunCompleted
        else if policy == ContinueIndependent then RunCompletedWithFailures
        else RunFailed
    {
      hide IsTopological, ValidGraph, DependenciesCompleted, Accounted;
      ghost var before := state.statuses;
      NothingMarked(before);
      if failureSeen && policy == Stop {
        ApplyToAll(AfterStop);
        StopMarks(before, state.statuses);
      }
      ghost var between := state.statuses;
      if cancelled {
        ApplyToAll(AfterCancel);
        CancelMarks(between, state.statuses);
        MarkedTwice(before, between, state.statuses);
        SameCompletedKeepsSound(ops, state, state.statuses, RunCancelled);
        state := state.(terminal := RunCancelled);
      } else {
        var bad := AnyFailedOrBlocked();
        if failureSeen || bad {
          var terminal := if policy == ContinueIndependent then RunCompletedWithFailures else RunFailed;
          SameCompletedKeepsSound(ops, state, state.statuses, terminal);
          state := state.(terminal := terminal);
        } else {
          state := state.(terminal := RunCompleted);
        }
      }
      EndOfPassIsAccounted(ops, started, saved, old(state), state);
      stored := Persist(disturbed);
    }

    method BlockedBy(i: nat, plans: seq<Planned>) returns (blocked: bool)
      requires |plans| == |ops|
      ensures blocked <==> exists j :: 0 <= j < |ops| && DependsOn(ops, i, j) && (plans[j] == PlannedBlocked || plans[j] == PlannedNotReady)
    {
      blocked := false;
      for j := 0 to |ops|
        invariant blocked <==> exists k :: 0 <= k < j && DependsOn(ops, i, k) && (plans[k] == PlannedBlocked || plans[k] == PlannedNotReady)
      {
        if DependsOn(ops, i, j) && (plans[j] == PlannedBlocked || plans[j] == PlannedNotReady) { blocked := true; }
      }
    }

    /** `plan_job`: operations already Completed are ready, those below an unready one are blocked, and
        each other one is what its own preflight finds, `passes`. The plan is ready exactly when every
        operation is Completed or passes. */
    method PlanJob(passes: nat -> bool) returns (plans: seq<Planned>, ready: bool)
      requires Valid()
      ensures |plans| == |ops|
      ensures forall i :: 0 <= i < |ops| ==> (plans[i] == PlannedCompleted <==> state.statuses[i] == Completed)
      ensures ready <==> PreflightPasses(state.statuses, passes)
      ensures forall i :: 0 <= i < |ops| && plans[i] != PlannedCompleted ==>
        (plans[i] == PlannedBlocked <==> exists j :: 0 <= j < |ops| && DependsOn(ops, i, j)
                                           && (plans[j] == PlannedBlocked || plans[j] == PlannedNotReady))
      ensures forall i :: 0 <= i < |ops| && plans[i] == PlannedNotReady ==> !passes(i)
    {
      hide ValidGraph, Sound, DependsOn, IsTopological, PlanRight, Accounted;
      SoundFacts(ops, state);
      OrderCovers(ops, order);
      plans := seq(|ops|, _ => PlannedReady);
      for p := 0 to |order|
        invariant |plans| == |ops|
        invariant forall q :: 0 <= q < p ==> PlanRight(ops, state.statuses, plans, passes, order[q])
        invariant forall i: nat :: i < |ops| && i !in order[..p] ==> plans[i] == PlannedReady
      {
        var i := order[p];
        assert order[..p + 1] == order[..p] + [i];
        ghost var before := plans;
        if state.statuses[i] == Completed {
          plans := plans[i := PlannedCompleted];
        } else {
          var blocked := BlockedBy(i, plans);
          plans := plans[i := if blocked then PlannedBlocked else if passes(i) then PlannedReady else PlannedNotReady];
        }
        forall q | 0 <= q <= p
          ensures PlanRight(ops, state.statuses, plans, passes, order[q])
        {
          PlanStable(ops, order, state.statuses, before, plans, passes, q, p);
        }
      }
      forall i | 0 <= i < |ops|
        ensures PlanRight(ops, state.statuses, plans, passes, i)
      {
        var q := PositionOf(order, i);
        assert PlanRight(ops, state.statuses, plans, passes, order[q]);
      }
      ready := forall k :: 0 <= k < |ops| ==> plans[k] == PlannedCompleted || plans[k] == PlannedReady;
      PlansAreRight(ops, state.statuses, plans, passes);
      ReadyIffAllPass(ops, order, state.statuses, plans, passes);
    }

    /** A failed preflight rewrites every operation: blocked ones are Blocked and all others, Completed
        ones included, become Failed, because every plan entry carries an `error` field. */
    method RejectPlan(plans: seq<Planned>, disturbed: bool) returns (stored: bool)
      requires Valid() && |plans| == |ops|
      modifies this`state, this`saved
      ensures Valid() && (stored ==> saved == state) && (saved == state || saved == old(saved)) && (!disturbed ==> stored)
      ensures |state.statuses| == |ops|
      ensures state.terminal == RunFailed && state.attempts == old(state).attempts
      ensures forall i :: 0 <= i < |ops| ==> state.statuses[i] == if plans[i] == PlannedBlocked then Blocked else Failed
    {
      hide IsTopological, ValidGraph, Accounted;
      var statuses: seq<Status> := [];
      for i := 0 to |ops|
        invariant |statuses| == i
        invariant forall k :: 0 <= k < i ==> statuses[k] == if plans[k] == PlannedBlocked then Blocked else Failed
      {
        statuses := statuses + [if plans[i] == PlannedBlocked then Blocked else Failed];
      }
      state := RunState(statuses, state.attempts, RunFailed);
      EndOfPassIsAccounted(ops, started, saved, old(state), state);
      stored := Persist(disturbed);
    }

    /** `prepare_resume_state` on the stored state; the errors it can return leave that state alone.
        `retryable` is what the recorded failure of an operation says of itself. */
    method PrepareResume(options: ResumeOptions, retryable: nat -> bool, disturbed: bool) returns (ok: bool)
      requires Valid()
      modifies this`state
      ensures Valid() && (ok ==> state.terminal == RunRunning) && (!disturbed ==> ok)
      ensures ok ==> |state.statuses| == |saved.statuses| && state.attempts == saved.attempts
      ensures ok ==> forall i :: 0 <= i < |saved.statuses| ==>
        state.statuses[i] ==
        if || saved.statuses[i] in {Running, Interrupted}
           || (saved.statuses[i] == Failed && options.retryFailed && retryable(i))
           || (saved.statuses[i] == Cancelled && options.retryCancelled)
        then NotStarted
        else saved.statuses[i]
    {
      hide IsTopological, ValidGraph, DependenciesCompleted, Accounted;
      ok := true;
      if disturbed { ok := *; }
      StoredIsAccounted(ops, started, saved, state);
      state := saved;
      if !ok { return; }
      var next: seq<Status> := [];
      for i := 0 to |saved.statuses|
        invariant |next| == i
        invariant forall k :: 0 <= k < i ==> next[k] == AfterResume(saved.statuses[k], options, retryable(k))
      {
        next := next + [AfterResume(saved.statuses[i], options, retryable(i))];
      }
      SameCompletedKeepsSound(ops, saved, next, RunRunning);
      StatusIsAccounted(ops, started, saved, saved, next);
      state := saved.(statuses := next, terminal := RunRunning);
    }

    /** `execute_loaded_run`, first run or resume. Every state it stores is sound; a pass that reaches
        its end uncancelled under the continue-independent policy leaves an operation Blocked exactly
        when a proper ancestor is Failed. Whatever the end, only a successful execution makes a stored
        operation Completed, and the stored Completed operations stay Completed when every other stored
        operation passes its preflight. When one does not, an undisturbed call leaves no stored operation
        Completed, and a disturbed one either that or the stored ones as they were. */
    method Execute(resume: bool, options: ResumeOptions, passes: nat -> bool, outcome: nat -> Execution, disturbed: bool)
      returns (end: RunEnd)
      requires Valid() && (!resume ==> saved == InitialState(ops))
      modifies this
      ensures Valid() && |state.statuses| == |ops| == |saved.statuses| == |old(saved).statuses|
      ensures end.PassDone? ==> saved == state && (state.terminal == RunCancelled <==> end.cancelled)
      ensures end.PassDone? && !end.cancelled ==>
        state.terminal ==
        if forall k :: 0 <= k < |ops| ==> state.statuses[k] == Completed then RunCompleted
        else if policy == ContinueIndependent then RunCompletedWithFailures
        else RunFailed
      ensures end.PassDone? ==> PassResult(ops, old(saved), state, options, outcome, policy == ContinueIndependent && !end.cancelled)
      ensures end.PassDone? && state.terminal == RunCompleted ==> AttemptedSucceeded(old(saved), state, outcome)
      ensures end.PassDone? && !end.cancelled && policy == ContinueIndependent ==> forall i: nat :: i < |ops| ==>
        (state.statuses[i] == Blocked <==> exists a: nat :: a < |ops| && ProperAncestor(ops, i, a) && state.statuses[a] == Failed)
      ensures end.PreflightFailed? ==>
        !PreflightPasses(old(saved).statuses, passes) && saved == state && state.terminal == RunFailed
      ensures end.CancelledEarly? ==> saved == state && state.terminal == RunCancelled && state.attempts == old(saved).attempts
      ensures PreflightPasses(old(saved).statuses, passes) ==> CompletedKept(old(saved).statuses, saved.statuses)
      ensures CompletedKept(old(saved).statuses, saved.statuses) || NoneCompleted(saved.statuses)
      ensures !end.PreflightFailed? && !end.Errored? ==> CompletedKept(old(saved).statuses, saved.statuses)
      ensures OnlySuccesses(old(saved).statuses, saved.statuses, outcome)
      ensures !disturbed && !PreflightPasses(old(saved).statuses, passes) ==>
        end.PreflightFailed? && saved == state && NoneCompleted(saved.statuses)
      ensures !disturbed && PreflightPasses(old(saved).statuses, passes) && !MayAbort(ops, old(saved), outcome) ==> end.PassDone?
      ensures !disturbed && PreflightPasses(old(saved).statuses, passes) && AllSucceed(ops, old(saved), options, outcome) ==>
        end == PassDone(false) && saved.terminal == RunCompleted
      ensures end.PassDone? ==> started == old(started) + Attempted(order, old(saved).attempts, state.attempts)
      ensures end.PreflightFailed? || end.CancelledEarly? ==> started == old(started)
    {
      hide IsTopological, ValidGraph, Settled, ProperAncestor, Sound, CompletedKept, OnlySuccesses, SavedKeeps, Accounted, Attempted;
      hide PassRight, PassResult, OnlyMarked, AllSucceed, MayAbort, MayBeCancelled, AttemptedSucceeded;
      SoundFacts(ops, state);
      SoundFacts(ops, saved);
      ghost var first := saved;
      ghost var stored := saved.statuses;
      KeptBySame(stored, stored);
      SuccessesBySame(stored, stored, outcome);
      if resume {
        var retryable: nat -> bool := *;
        var accepted := PrepareResume(options, retryable, disturbed);
        SoundFacts(ops, state);
        if !accepted { return Errored; }
      } else {
        InitialStateIsSound(ops);
        StoredIsAccounted(ops, started, saved, state);
        state := InitialState(ops);
      }
      ghost var begun := state;
      assert Prepared(first, begun, options);
      PreparedFacts(ops, first, begun, options, outcome);
      PassesSame(stored, state.statuses, passes);
      var cancelled := CancellationRequested(disturbed);
      if cancelled {
        end := StopEarly(disturbed);
        StoppedFacts(stored, begun.statuses, state.statuses, outcome);
        return;
      }
      var plans, ready := PlanJob(passes);
      if !ready {
        var written := RejectPlan(plans, disturbed);
        SuccessesBySame(stored, state.statuses, outcome);
        return if written then PreflightFailed else Errored;
      }
      cancelled := CancellationRequested(disturbed);
      if cancelled {
        end := StopEarly(disturbed);
        StoppedFacts(stored, begun.statuses, state.statuses, outcome);
        return;
      }
      end := RunAndConclude(first, options, outcome, disturbed);
      if end.PassDone? && state.terminal == RunCompleted {
        CompletedRunSucceeded(ops, first, state, options, outcome, policy == ContinueIndependent && !end.cancelled);
      }
      if end.PassDone? && !end.cancelled && policy == ContinueIndependent {
        forall i: nat | i < |ops|
          ensures state.statuses[i] == Blocked <==> exists a: nat :: a < |ops| && ProperAncestor(ops, i, a) && state.statuses[a] == Failed
        {
          BlockedIffAncestorFailed(ops, order, state.statuses, i);
        }
      }
    }

    /** The loop and the end of the pass, on a state prepared from the one stored before the call. */
    method RunAndConclude(ghost first: RunState, options: ResumeOptions, outcome: nat -> Execution, disturbed: bool) returns (end: RunEnd)
      requires Valid() && state.terminal == RunRunning && Sound(ops, first) && saved == first
      requires |first.statuses| == |first.attempts| == |ops| && Prepared(first, state, options)
      modifies this
      ensures Valid() && |state.statuses| == |ops| == |saved.statuses| && (end.PassDone? || end.Errored?)
      ensures end.PassDone? ==> saved == state && (state.terminal == RunCancelled <==> end.cancelled)
      ensures end.PassDone? && !end.cancelled ==>
        state.terminal ==
        if forall k :: 0 <= k < |ops| ==> state.statuses[k] == Completed then RunCompleted
        else if policy == ContinueIndependent then RunCompletedWithFailures
        else RunFailed
      ensures end.PassDone? ==> PassResult(ops, first, state, options, outcome, policy == ContinueIndependent && !end.cancelled)
      ensures end.PassDone? && !end.cancelled && policy == ContinueIndependent ==> forall k :: 0 <= k < |ops| ==> Settled(ops, state.statuses, k)
      ensures CompletedKept(first.statuses, saved.statuses) && OnlySuccesses(first.statuses, saved.statuses, outcome)
      ensures !disturbed && !MayAbort(ops, first, outcome) ==> end.PassDone?
      ensures !disturbed && AllSucceed(ops, first, options, outcome) ==> end == PassDone(false) && saved.terminal == RunCompleted
      ensures end.PassDone? ==> started == old(started) + Attempted(order, first.attempts, state.attempts)
    {
      hide IsTopological, ValidGraph, Settled, Sound, CompletedKept, OnlySuccesses, SavedKeeps, Accounted, Attempted;
      hide PassRight, PassResult, OnlyMarked, AllSucceed, MayAbort, MayBeCancelled, Prepared;
      ghost var begun := state;
      SoundFacts(ops, state);
      PreparedFacts(ops, first, begun, options, outcome);
      AllSucceedRunsThrough(ops, begun, options, outcome);
      var pass;
      ghost var visited;
      pass, visited := RunLoop(options, outcome, disturbed);
      KeptSaved(first, saved, begun.statuses, outcome);
      SoundFacts(ops, saved);
      SoundFacts(ops, state);
      if pass.Aborted? { return Errored; }
      ghost var looped, storedByLoop := state, saved;
      var concluded := Conclude(pass.cancelled, pass.failureSeen, disturbed);
      SoundFacts(ops, state);
      ConcludedFacts(first.statuses, begun.statuses, looped.statuses, state.statuses, outcome);
      MarksKeepPass(ops, order, begun, looped, state, options, outcome, visited);
      ResultOfPass(ops, order, first, begun, state, options, outcome, visited, policy == ContinueIndependent && !pass.cancelled);
      if AllSucceed(ops, begun, options, outcome) {
        AllSucceedCompletes(ops, order, begun, looped, options, outcome, visited, pass.failureSeen);
      }
      if !pass.cancelled && policy == ContinueIndependent {
        NothingLeftToMark(looped.statuses, state.statuses);
      }
      return if concluded then PassDone(pass.cancelled) else Errored;
    }

    /** A cancellation seen before the loop: unstarted operations become Cancelled. */
    method StopEarly(disturbed: bool) returns (end: RunEnd)
      requires Valid() && state.terminal == RunRunning
      modifies this`state, this`saved
      ensures Valid() && |state.statuses| == |ops| && (end.CancelledEarly? || end.Errored?)
      ensures SameCompleted(old(state).statuses, state.statuses) && state.attempts == old(state).attempts
      ensures forall k :: 0 <= k < |ops| ==>
        state.statuses[k] == if old(state).statuses[k] in {NotStarted, Running} then Cancelled else old(state).statuses[k]
      ensures state.terminal == RunCancelled
      ensures (end.CancelledEarly? ==> saved == state) && (saved == state || saved == old(saved))
    {
      hide IsTopological, ValidGraph, DependenciesCompleted, Accounted;
      ApplyToAll(AfterCancel);
      SameCompletedKeepsSound(ops, state, state.statuses, RunCancelled);
      state := state.(terminal := RunCancelled);
      EndOfPassIsAccounted(ops, started, saved, old(state), state);
      var stored := Persist(disturbed);
      return if stored then CancelledEarly else Errored;
    }

    /** A first run and any number of resumes, with any options, any disturbances and any ends: the
        stored state is sound throughout, so Completed operations are closed under dependencies, no
        operation is attempted more than eight times, and a stored Completed means that every operation
        is Completed. */
    method AnyRuns(resumes: nat)
      requires Valid() && saved == InitialState(ops)
      modifies this
      ensures Valid() && Sound(ops, saved)
      ensures forall i: nat :: multiset(started)[i] <= 8
      ensures forall k: nat, j: nat :: k < |started| && DependsOn(ops, started[k], j) ==> j in started[..k]
    {
      hide IsTopological, ValidGraph, Sound, ProperAncestor, InitialState, CompletedKept, NoneCompleted, PreflightPasses, Accounted;
      var passes: nat -> bool, later: (nat, nat) -> bool, disturbed: bool := *, *, *;
      var outcome: nat -> Execution, outcomes: (nat, nat) -> Execution := *, *;
      var first := Execute(false, ResumeOptions(false, false), passes, outcome, disturbed);
      AnyResumes(resumes, later, outcomes);
      StartsAreFew(ops, started, saved, state);
    }

    /** From any stored state, any number of resumes: as long as every operation that is not yet
        Completed passes its preflight in each of them, no stored Completed is ever lost. And however
        they go, what is stored Completed in the end was so at the start or succeeded in one of them. */
    method AnyResumes(resumes: nat, passes: (nat, nat) -> bool, outcomes: (nat, nat) -> Execution)
      requires Valid()
      modifies this
      ensures Valid() && |saved.statuses| == |old(saved).statuses|
      ensures (forall run: nat, i: nat :: run < resumes && i < |ops| ==> passes(run, i))
              ==> CompletedKept(old(saved).statuses, saved.statuses)
      ensures forall i: nat :: i < |ops| == |saved.statuses| && saved.statuses[i] == Completed ==>
        old(saved).statuses[i] == Completed || exists run: nat :: run < resumes && outcomes(run, i).Succeeded?
    {
      hide IsTopological, ValidGraph, Sound, ProperAncestor, InitialState, CompletedKept, NoneCompleted, Accounted;
      hide PassResult, AllSucceed, MayAbort;
      ghost var start := saved.statuses;
      KeptBySame(start, start);
      for run := 0 to resumes
        invariant Valid() && |saved.statuses| == |start|
        invariant forall i: nat :: i < |start| && saved.statuses[i] == Completed ==>
          start[i] == Completed || exists r: nat :: r < run && outcomes(r, i).Succeeded?
        invariant (forall r: nat, i: nat :: r < run && i < |ops| ==> passes(r, i)) ==> CompletedKept(start, saved.statuses)
      {
        var retryFailed: bool, retryCancelled: bool, disturbed: bool := *, *, *;
        ghost var before := saved.statuses;
        SoundFacts(ops, saved);
        var end := Execute(true, ResumeOptions(retryFailed, retryCancelled),
                           (i: nat) => passes(run, i), (i: nat) => outcomes(run, i), disturbed);
        if forall r: nat, i: nat :: r < run + 1 && i < |ops| ==> passes(r, i) {
          assert PreflightPasses(before, (i: nat) => passes(run, i));
          KeptThrough(start, start, before, saved.statuses);
        }
      }
    }
  }

  /** Every operation that is not Completed passes its preflight. */
  predicate PreflightPasses(statuses: seq<Status>, passes: nat -> bool) {
    forall i :: 0 <= i < |statuses| ==> statuses[i] == Completed || passes(i)
  }

  ghost predicate NoneCompleted(statuses: seq<Status>) {
    forall i :: 0 <= i < |statuses| ==> statuses[i] != Completed
  }

  /** Only a successful execution makes an operation Completed. */
  ghost predicate OnlySuccesses(a: seq<Status>, b: seq<Status>, outcome: nat -> Execution) {
    |a| == |b| && forall k :: 0 <= k < |a| && b[k] == Completed ==> a[k] == Completed || outcome(k).Succeeded?
  }

  /** The stored state is what it was, or keeps what was Completed in memory and adds only successes. */
  ghost predicate SavedKeeps(before: RunState, after: RunState, statuses: seq<Status>, outcome: nat -> Execution) {
    after == before || (CompletedKept(statuses, after.statuses) && OnlySuccesses(statuses, after.statuses, outcome))
  }

  lemma SavedUnchanged(saved: RunState, statuses: seq<Status>, outcome: nat -> Execution)
    ensures SavedKeeps(saved, saved, statuses, outcome) && OnlySuccesses(statuses, statuses, outcome)
  {
  }

  lemma SavedStep(first: RunState, before: RunState, after: RunState, start: seq<Status>, statuses: seq<Status>, outcome: nat -> Execution)
    requires SavedKeeps(first, before, start, outcome) && SavedKeeps(before, after, statuses, outcome)
    requires CompletedKept(start, statuses) && OnlySuccesses(start, statuses, outcome)
    ensures SavedKeeps(first, after, start, outcome)
  {
  }

  lemma KeptSaved(before: RunState, after: RunState, statuses: seq<Status>, outcome: nat -> Execution)
    requires SavedKeeps(before, after, statuses, outcome)
    requires CompletedKept(before.statuses, statuses) && OnlySuccesses(before.statuses, statuses, outcome)
    ensures CompletedKept(before.statuses, after.statuses) && OnlySuccesses(before.statuses, after.statuses, outcome)
  {
  }

  lemma SuccessesOnward(a: seq<Status>, b: seq<Status>, c: seq<Status>, outcome: nat -> Execution)
    requires OnlySuccesses(a, b, outcome) && OnlySuccesses(b, c, outcome)
    ensures OnlySuccesses(a, c, outcome)
  {
  }

  lemma SuccessesBySame(a: seq<Status>, b: seq<Status>, outcome: nat -> Execution)
    requires a == b || SameCompleted(a, b) || (|a| == |b| && NoneCompleted(b))
    ensures OnlySuccesses(a, b, outcome)
  {
  }

  /** What a resume changes before the pass: waiting, running and retried operations wait. */
  ghost predicate Prepared(first: RunState, begun: RunState, options: ResumeOptions) {
    && |first.statuses| == |begun.statuses| && begun.attempts == first.attempts
    && forall i :: 0 <= i < |first.statuses| ==>
         && (begun.statuses[i] == Completed <==> first.statuses[i] == Completed)
         && (!options.retryFailed ==> (begun.statuses[i] == Failed <==> first.statuses[i] == Failed))
         && (begun.statuses[i] == Failed ==> first.statuses[i] == Failed)
         && (begun.statuses[i] == Cancelled <==> first.statuses[i] == Cancelled && !options.retryCancelled)
         && begun.statuses[i] != Running && begun.statuses[i] != Interrupted
  }

  lemma PreparedFacts(ops: seq<Operation>, first: RunState, begun: RunState, options: ResumeOptions, outcome: nat -> Execution)
    requires Prepared(first, begun, options) && |first.statuses| == |first.attempts| == |ops|
    ensures SameCompleted(first.statuses, begun.statuses) && CompletedKept(first.statuses, begun.statuses)
    ensures OnlySuccesses(first.statuses, begun.statuses, outcome) && begun.attempts == first.attempts
    ensures MayAbort(ops, first, outcome) <==> MayAbort(ops, begun, outcome)
    ensures AllSucceed(ops, first, options, outcome) ==> AllSucceed(ops, begun, options, outcome)
  {
  }

  /** Every operation that is not yet Completed can be attempted and its execution succeeds. */
  ghost predicate AllSucceed(ops: seq<Operation>, first: RunState, options: ResumeOptions, outcome: nat -> Execution)
    requires |first.statuses| == |first.attempts| == |ops|
  {
    forall i :: 0 <= i < |ops| && first.statuses[i] != Completed ==>
      && outcome(i).Succeeded? && first.attempts[i] < 8
      && (first.statuses[i] == Failed ==> options.retryFailed) && (first.statuses[i] == Cancelled ==> options.retryCancelled)
  }

  lemma AllSucceedRunsThrough(ops: seq<Operation>, begun: RunState, options: ResumeOptions, outcome: nat -> Execution)
    requires |begun.statuses| == |begun.attempts| == |ops|
    ensures AllSucceed(ops, begun, options, outcome) ==> !MayAbort(ops, begun, outcome) && !MayBeCancelled(ops, begun, options, outcome)
  {
  }

  lemma AllSucceedCompletes(ops: seq<Operation>, order: seq<nat>, begun: RunState, looped: RunState, options: ResumeOptions,
                            outcome: nat -> Execution, visited: nat, failureSeen: bool)
    requires PassRight(ops, order, begun, looped, options, outcome, visited) && IsTopological(ops, order)
    requires |begun.statuses| == |begun.attempts| == |ops| && AllSucceed(ops, begun, options, outcome)
    requires failureSeen ==>
      exists q :: 0 <= q < visited <= |order| && order[q] < |looped.statuses| && looped.statuses[order[q]] == Failed
    ensures !failureSeen
    ensures visited == |order| ==> forall k :: 0 <= k < |ops| ==> looped.statuses[k] == Completed
  {
    hide DependsOn;
    forall q | 0 <= q < visited
      ensures looped.statuses[order[q]] != Failed
    {
      assert VisitRight(ops, begun, looped, options, outcome, order[q]);
    }
    if visited == |order| {
      OrderCovers(ops, order);
      forall k | 0 <= k < |ops|
        ensures looped.statuses[k] == Completed
      {
        var q := PositionOf(order, k);
        CompletesInOrder(ops, order, begun, looped, options, outcome, q);
      }
    }
  }

  lemma {:induction false} CompletesInOrder(ops: seq<Operation>, order: seq<nat>, begun: RunState, looped: RunState,
                                            options: ResumeOptions, outcome: nat -> Execution, p: nat)
    requires PassRight(ops, order, begun, looped, options, outcome, |order|) && IsTopological(ops, order) && p < |order|
    requires |begun.statuses| == |begun.attempts| == |ops| && AllSucceed(ops, begun, options, outcome)
    ensures order[p] < |ops| && looped.statuses[order[p]] == Completed
    decreases p
  {
    assert VisitRight(ops, begun, looped, options, outcome, order[p]);
    forall j: nat | DependsOn(ops, order[p], j)
      ensures j < |looped.statuses| && looped.statuses[j] == Completed
    {
      assert j in order[..p];
      var q :| 0 <= q < p && order[..p][q] == j;
      CompletesInOrder(ops, order, begun, looped, options, outcome, q);
    }
  }

  /** What a call that ends its pass leaves: each operation is as it was or attempted once more and recorded
      as its execution ended; and a complete pass has dealt with all of them, as seen from the state stored
      before the call. */
  ghost predicate PassResult(ops: seq<Operation>, first: RunState, now: RunState, options: ResumeOptions, outcome: nat -> Execution,
                             complete: bool)
  {
    && |first.statuses| == |first.attempts| == |now.statuses| == |now.attempts| == |ops|
    && (forall i :: 0 <= i < |ops| ==>
          || now.attempts[i] == first.attempts[i]
          || (now.attempts[i] == first.attempts[i] + 1 && !outcome(i).NoEvidence? && Recorded(outcome(i), now.statuses[i])))
    && (forall i :: 0 <= i < |ops| && now.attempts[i] == first.attempts[i] && now.statuses[i] == Completed
                    ==> first.statuses[i] == Completed)
    && (complete ==> forall i :: 0 <= i < |ops| ==> VisitRight(ops, first, now, options, outcome, i))
  }

  /** Every operation attempted between the two states was attempted with success. */
  ghost predicate AttemptedSucceeded(first: RunState, now: RunState, outcome: nat -> Execution) {
    |first.attempts| == |now.attempts| && forall i :: 0 <= i < |now.attempts| && now.attempts[i] > first.attempts[i] ==> outcome(i).Succeeded?
  }

  lemma CompletedRunSucceeded(ops: seq<Operation>, first: RunState, now: RunState, options: ResumeOptions, outcome: nat -> Execution,
                              complete: bool)
    requires PassResult(ops, first, now, options, outcome, complete) && forall i :: 0 <= i < |ops| ==> now.statuses[i] == Completed
    ensures AttemptedSucceeded(first, now, outcome)
  {
    hide VisitRight;
  }

  lemma ResultOfPass(ops: seq<Operation>, order: seq<nat>, first: RunState, begun: RunState, now: RunState, options: ResumeOptions,
                     outcome: nat -> Execution, visited: nat, complete: bool)
    requires Prepared(first, begun, options) && |first.statuses| == |first.attempts| == |ops|
    requires PassRight(ops, order, begun, now, options, outcome, visited) && IsTopological(ops, order)
    requires complete ==> visited == |order|
    ensures PassResult(ops, first, now, options, outcome, complete)
  {
    hide DependsOn, Recorded, DependenciesCompleted, IsTopological;
    assert IsTopological(ops, order);
    OrderCovers(ops, order);
    forall i | 0 <= i < |ops|
      ensures now.attempts[i] == first.attempts[i]
        || (now.attempts[i] == first.attempts[i] + 1 && !outcome(i).NoEvidence? && Recorded(outcome(i), now.statuses[i]))
      ensures now.attempts[i] == first.attempts[i] && now.statuses[i] == Completed ==> first.statuses[i] == Completed
      ensures complete ==> VisitRight(ops, first, now, options, outcome, i)
    {
      var q := PositionOf(order, i);
      assert order[q] == i;
      assert q < visited ==> VisitRight(ops, begun, now, options, outcome, i);
    }
  }

  lemma StoppedFacts(stored: seq<Status>, begun: seq<Status>, stopped: seq<Status>, outcome: nat -> Execution)
    requires CompletedKept(stored, begun) && OnlySuccesses(stored, begun, outcome) && SameCompleted(begun, stopped)
    ensures CompletedKept(stored, stopped) && OnlySuccesses(stored, stopped, outcome)
  {
  }

  lemma MarksAreKept(a: seq<Status>, b: seq<Status>, outcome: nat -> Execution)
    requires OnlyMarked(a, b)
    ensures CompletedKept(a, b) && OnlySuccesses(a, b, outcome)
  {
  }

  lemma ConcludedFacts(first: seq<Status>, begun: seq<Status>, looped: seq<Status>, now: seq<Status>, outcome: nat -> Execution)
    requires CompletedKept(first, begun) && OnlySuccesses(first, begun, outcome)
    requires CompletedKept(begun, looped) && OnlySuccesses(begun, looped, outcome) && OnlyMarked(looped, now)
    ensures CompletedKept(first, now) && OnlySuccesses(first, now, outcome)
  {
    MarksAreKept(looped, now, outcome);
    hide OnlyMarked;
  }

  lemma NothingLeftToMark(a: seq<Status>, b: seq<Status>)
    requires |a| == |b| && forall k :: 0 <= k < |a| ==> a[k] == b[k]
    ensures a == b
  {
  }

  lemma KeptBySame(a: seq<Status>, b: seq<Status>)
    requires a == b || SameCompleted(a, b)
    ensures CompletedKept(a, b)
  {
  }

  lemma PassesSame(a: seq<Status>, b: seq<Status>, passes: nat -> bool)
    requires SameCompleted(a, b)
    ensures PreflightPasses(a, passes) <==> PreflightPasses(b, passes)
  {
  }

  lemma KeptThrough(a: seq<Status>, b: seq<Status>, c: seq<Status>, d: seq<Status>)
    requires CompletedKept(a, b) && CompletedKept(b, c) && CompletedKept(c, d)
    ensures CompletedKept(a, d)
  {
  }

  datatype Planned = PlannedCompleted | PlannedBlocked | PlannedReady | PlannedNotReady

  datatype RunEnd = PassDone(cancelled: bool) | PreflightFailed | CancelledEarly | Errored

  ghost predicate PlanRight(ops: seq<Operation>, statuses: seq<Status>, plans: seq<Planned>, passes: nat -> bool, i: nat)
    requires |statuses| == |plans| == |ops| && i < |ops|
  {
    && (plans[i] == PlannedCompleted <==> statuses[i] == Completed)
    && (plans[i] == PlannedReady ==> passes(i))
    && (plans[i] == PlannedNotReady ==> !passes(i))
    && (plans[i] != PlannedCompleted ==>
          (plans[i] == PlannedBlocked <==> exists j :: 0 <= j < |ops| && DependsOn(ops, i, j)
                                             && (plans[j] == PlannedBlocked || plans[j] == PlannedNotReady)))
  }

  lemma PlansAreRight(ops: seq<Operation>, statuses: seq<Status>, plans: seq<Planned>, passes: nat -> bool)
    requires |statuses| == |plans| == |ops|
    requires forall i :: 0 <= i < |ops| ==> PlanRight(ops, statuses, plans, passes, i)
    ensures forall i :: 0 <= i < |ops| ==> (plans[i] == PlannedCompleted <==> statuses[i] == Completed)
    ensures forall i :: 0 <= i < |ops| && plans[i] == PlannedNotReady ==> !passes(i)
    ensures forall i :: 0 <= i < |ops| && plans[i] != PlannedCompleted ==>
      (plans[i] == PlannedBlocked <==> exists j :: 0 <= j < |ops| && DependsOn(ops, i, j)
                                         && (plans[j] == PlannedBlocked || plans[j] == PlannedNotReady))
  {
    hide DependsOn;
    forall i | 0 <= i < |ops|
      ensures plans[i] == PlannedCompleted <==> statuses[i] == Completed
      ensures plans[i] == PlannedNotReady ==> !passes(i)
      ensures plans[i] != PlannedCompleted ==>
        (plans[i] == PlannedBlocked <==> exists j :: 0 <= j < |ops| && DependsOn(ops, i, j)
                                           && (plans[j] == PlannedBlocked || plans[j] == PlannedNotReady))
    {
      assert PlanRight(ops, statuses, plans, passes, i);
    }
  }

  /** No operation is blocked unless some operation fails its preflight. */
  lemma ReadyIffAllPass(ops: seq<Operation>, order: seq<nat>, statuses: seq<Status>, plans: seq<Planned>, passes: nat -> bool)
    requires IsTopological(ops, order) && |statuses| == |plans| == |ops|
    requires forall i :: 0 <= i < |ops| ==> PlanRight(ops, statuses, plans, passes, i)
    ensures (forall i :: 0 <= i < |ops| ==> plans[i] == PlannedCompleted || plans[i] == PlannedReady)
            <==> PreflightPasses(statuses, passes)
  {
    hide DependsOn;
    CoversAll(order, |ops|);
    if PreflightPasses(statuses, passes) {
      forall i | 0 <= i < |ops|
        ensures plans[i] == PlannedCompleted || plans[i] == PlannedReady
      {
        var p := PositionOf(order, i);
        NoneBlocked(ops, order, statuses, plans, passes, p);
      }
    } else {
      var i :| 0 <= i < |statuses| && statuses[i] != Completed && !passes(i);
      assert PlanRight(ops, statuses, plans, passes, i);
    }
  }

  lemma {:induction false} NoneBlocked(ops: seq<Operation>, order: seq<nat>, statuses: seq<Status>, plans: seq<Planned>,
                                       passes: nat -> bool, p: nat)
    requires IsTopological(ops, order) && |statuses| == |plans| == |ops| && p < |order|
    requires forall i :: 0 <= i < |ops| ==> PlanRight(ops, statuses, plans, passes, i)
    requires PreflightPasses(statuses, passes)
    ensures order[p] < |ops| && (plans[order[p]] == PlannedCompleted || plans[order[p]] == PlannedReady)
    decreases p
  {
    hide DependsOn;
    var i := order[p];
    assert PlanRight(ops, statuses, plans, passes, i);
    if plans[i] == PlannedBlocked {
      var j: nat :| j < |ops| && DependsOn(ops, i, j) && (plans[j] == PlannedBlocked || plans[j] == PlannedNotReady);
      assert j in order[..p];
      var q :| 0 <= q < p && order[..p][q] == j;
      NoneBlocked(ops, order, statuses, plans, passes, q);
    }
  }

  lemma PlanStable(ops: seq<Operation>, order: seq<nat>, statuses: seq<Status>, a: seq<Planned>, b: seq<Planned>,
                   passes: nat -> bool, q: nat, p: nat)
    requires IsTopological(ops, order) && |statuses| == |a| == |b| == |ops| && q <= p < |order|
    requires b == a[order[p] := b[order[p]]]
    requires q < p ==> PlanRight(ops, statuses, a, passes, order[q])
    requires b[order[p]] == PlannedCompleted <==> statuses[order[p]] == Completed
    requires (b[order[p]] == PlannedReady ==> passes(order[p])) && (b[order[p]] == PlannedNotReady ==> !passes(order[p]))
    requires b[order[p]] != PlannedCompleted ==>
      (b[order[p]] == PlannedBlocked <==> exists j :: 0 <= j < |ops| && DependsOn(ops, order[p], j)
                                            && (a[j] == PlannedBlocked || a[j] == PlannedNotReady))
    ensures order[q] < |ops| && PlanRight(ops, statuses, b, passes, order[q])
  {
    forall j: nat | DependsOn(ops, order[q], j)
      ensures j != order[p] && a[j] == b[j]
    {
      assert j in order[..q];
    }
  }

  ghost predicate CompletedKept(a: seq<Status>, b: seq<Status>) {
    |a| == |b| && forall k :: 0 <= k < |a| && a[k] == Completed ==> b[k] == Completed
  }

  ghost predicate AttemptsSpentSoundly(ops: seq<Operation>, a: RunState, b: RunState) {
    && |a.attempts| == |b.attempts| == |ops|
    && forall k :: 0 <= k < |ops| ==>
         && a.attempts[k] <= b.attempts[k] <= a.attempts[k] + 1
         && (b.attempts[k] > a.attempts[k] ==> DependenciesCompleted(ops, b.statuses, k))
  }

  lemma StartOfPass(ops: seq<Operation>, s: RunState)
    requires Sound(ops, s)
    ensures CompletedKept(s.statuses, s.statuses) && AttemptsSpentSoundly(ops, s, s)
    ensures |s.statuses| == |s.attempts| == |ops|
  {
    hide DependenciesCompleted;
  }

  /** One turn extends what the pass has done so far; `i` is the operation it visited. */
  lemma PassStep(ops: seq<Operation>, start: RunState, before: RunState, after: RunState, i: nat)
    requires CompletedKept(start.statuses, before.statuses) && AttemptsSpentSoundly(ops, start, before)
    requires |before.statuses| == |after.statuses| == |before.attempts| == |after.attempts| == |ops|
    requires forall k :: 0 <= k < |ops| && before.statuses[k] == Completed ==> after.statuses[k] == Completed
    requires forall k :: 0 <= k < |ops| && k != i ==> after.attempts[k] == before.attempts[k]
    requires i < |ops| ==> before.attempts[i] <= after.attempts[i] <= before.attempts[i] + 1
    requires i < |ops| ==> before.attempts[i] == start.attempts[i]
    requires i < |ops| && after.attempts[i] > before.attempts[i] ==> DependenciesCompleted(ops, after.statuses, i)
    ensures CompletedKept(start.statuses, after.statuses) && AttemptsSpentSoundly(ops, start, after)
  {
    hide DependsOn;
  }

  lemma OrderCovers(ops: seq<Operation>, order: seq<nat>)
    requires IsTopological(ops, order)
    ensures |order| == |ops| && Distinct(order)
    ensures forall q :: 0 <= q < |order| ==> order[q] < |ops|
    ensures forall k: nat :: k < |ops| ==> k in order
  {
    hide DependsOn;
    CoversAll(order, |ops|);
  }

  /** A later operation is no dependency of an earlier one, so visiting it unsettles nothing. */
  lemma SettledStable(ops: seq<Operation>, order: seq<nat>, a: seq<Status>, b: seq<Status>, q: nat, p: nat)
    requires IsTopological(ops, order) && |a| == |b| == |ops| && q < p < |order|
    requires forall k :: 0 <= k < |ops| && k != order[p] ==> a[k] == b[k]
    ensures order[q] < |ops| && a[order[q]] == b[order[q]]
    ensures Settled(ops, a, order[q]) <==> Settled(ops, b, order[q])
  {
    var i := order[q];
    forall j: nat | DependsOn(ops, i, j)
      ensures j != order[p] && a[j] == b[j]
    {
      assert j in order[..q];
    }
  }
}
