/** The rows of the desktop task table: statuses, priorities and the selections its statements make.
    Identifiers and time stamps are numbers; the original compares both as text of one fixed shape. */
module TaskModel {
  import opened FiniteSets

  const MAX_NONTERMINAL_TASKS: nat := 64

  datatype TaskStatus =
    | Planned | Queued | Running | Pausing | Paused | Resuming | Cancelling
    | Cancelled | Interrupted | PermissionRequired | Failed | Completed
  {
    predicate IsTerminal() {
      Cancelled? || Failed? || Completed?
    }

    /** The statuses a task has only while a worker drives it. */
    predicate InFlight() {
      Running? || Pausing? || Paused? || Resuming? || Cancelling?
    }

    predicate CanTransitionTo(next: TaskStatus) {
      this == next ||
      match this
      case Planned => next.Queued? || next.Cancelled?
      case Queued => next.Running? || next.Cancelled?
      case Running =>
        next.Pausing? || next.Cancelling? || next.Interrupted? || next.PermissionRequired? || next.Failed? || next.Completed?
      case Pausing => next.Paused? || next.Cancelling? || next.Interrupted?
      case Paused => next.Resuming? || next.Cancelling? || next.Interrupted?
      case Resuming => next.Running? || next.Cancelling? || next.Interrupted?
      case Cancelling => next.Cancelled? || next.Interrupted? || next.Failed?
      case Interrupted => next.Queued? || next.Cancelled?
      case PermissionRequired => next.Queued? || next.Cancelled?
      case Failed => next.Queued? || next.Cancelled?
      case Cancelled => next.Queued?
      case Completed => false
    }
  }

  /** The statuses that a task can come from, seen from the status it comes to. */
  function Predecessors(next: TaskStatus): set<TaskStatus> {
    match next
    case Planned => {}
    case Queued => {Planned, Interrupted, PermissionRequired, Failed, Cancelled}
    case Running => {Queued, Resuming}
    case Pausing => {Running}
    case Paused => {Pausing}
    case Resuming => {Paused}
    case Cancelling => {Running, Pausing, Paused, Resuming}
    case Cancelled => {Planned, Queued, Cancelling, Interrupted, PermissionRequired, Failed}
    case Interrupted => {Running, Pausing, Paused, Resuming, Cancelling}
    case PermissionRequired => {Running}
    case Failed => {Running, Cancelling}
    case Completed => {Running}
  }

  lemma TransitionsByTarget(status: TaskStatus, next: TaskStatus)
    ensures status.CanTransitionTo(next) <==> status == next || status in Predecessors(next)
  {
  }

  datatype Priority = High | Normal | Low {
    function Rank(): nat {
      match this
      case High => 0
      case Normal => 1
      case Low => 2
    }
  }

  /** A sequence of allowed transitions. */
  ghost predicate History(statuses: seq<TaskStatus>) {
    forall k :: 0 <= k < |statuses| - 1 ==> statuses[k].CanTransitionTo(statuses[k + 1])
  }

  /** Whatever its history, a task that is Completed was Running when it last was anything else, and
      it stays Completed. */
  lemma {:induction false} CompletedOnlyFromRunning(statuses: seq<TaskStatus>, c: nat)
    requires History(statuses) && c < |statuses| && statuses[c] == Completed && statuses[0] != Completed
    ensures forall k :: c <= k < |statuses| ==> statuses[k] == Completed
    ensures exists k :: 0 <= k < c && statuses[k] == Running && statuses[k + 1] == Completed
    decreases |statuses|
  {
    if c + 1 < |statuses| {
      var shorter := statuses[..|statuses| - 1];
      CompletedOnlyFromRunning(shorter, c);
      assert statuses[|statuses| - 2].CanTransitionTo(statuses[|statuses| - 1]);
      var k :| 0 <= k < c && shorter[k] == Running && shorter[k + 1] == Completed;
      assert statuses[k] == Running && statuses[k + 1] == Completed;
    } else {
      assert statuses[c - 1].CanTransitionTo(statuses[c]);
      if statuses[c - 1] == Completed {
        var shorter := statuses[..c];
        CompletedOnlyFromRunning(shorter, c - 1);
        var k :| 0 <= k < c - 1 && shorter[k] == Running && shorter[k + 1] == Completed;
        assert statuses[k] == Running && statuses[k + 1] == Completed;
      }
    }
  }

  /** One row; `readable` is whether `decode_row` accepts it. */
  datatype Row = Row(epoch: nat, revision: nat, updatedAt: nat, status: TaskStatus, priority: Priority,
                     queueOrder: nat, checkpointed: bool, readable: bool)

  type Rows = map<nat, Row>

  function Nonterminal(rows: Rows): (ids: set<nat>)
    ensures ids <= rows.Keys
  {
    set id | id in rows && !rows[id].status.IsTerminal()
  }

  function CheckpointedTerminal(rows: Rows): set<nat> {
    set id | id in rows && rows[id].status.IsTerminal() && rows[id].checkpointed
  }

  /** The terminal rows without a checkpoint: the only ones that pruning may delete. */
  function PlainTerminal(rows: Rows): set<nat> {
    set id | id in rows && rows[id].status.IsTerminal() && !rows[id].checkpointed
  }

  function QueuedIds(rows: Rows): set<nat> {
    set id | id in rows && rows[id].status == Queued
  }

  /** One status can follow another, over any number of transitions, exactly when they are equal or the first
      is not Completed and the second is not Planned. */
  lemma ReachableStatuses(a: TaskStatus, b: TaskStatus)
    ensures a == b || (a != Completed && b != Planned) <==>
            exists statuses :: History(statuses) && |statuses| > 0 && statuses[0] == a && statuses[|statuses| - 1] == b
  {
    hide TaskStatus.CanTransitionTo, History, ToQueued, FromQueued;
    if a != Completed && b != Planned {
      Joined(ToQueued(a), FromQueued(b));
    } else if a == b {
      Standing(a);
    }
    if statuses :| History(statuses) && |statuses| > 0 && statuses[0] == a && statuses[|statuses| - 1] == b {
      NeverPlannedAgain(statuses);
      CompletedStays(statuses);
    }
  }

  lemma Standing(status: TaskStatus)
    ensures History([status]) && [status][0] == status
  {
  }

  lemma Joined(a: seq<TaskStatus>, b: seq<TaskStatus>)
    requires History(a) && History(b) && |a| > 0 && |b| > 0 && a[|a| - 1] == b[0]
    ensures var both := a + b[1..]; History(both) && both[0] == a[0] && both[|both| - 1] == b[|b| - 1]
  {
    hide TaskStatus.CanTransitionTo;
    var both := a + b[1..];
    forall k | 0 <= k < |both| - 1
      ensures both[k].CanTransitionTo(both[k + 1])
    {
      if k >= |a| - 1 {
        assert both[k] == b[k - (|a| - 1)] && both[k + 1] == b[k - (|a| - 1) + 1];
      }
    }
  }

  /** A way to Queued from every status but Completed. */
  function ToQueued(status: TaskStatus): (way: seq<TaskStatus>)
    requires status != Completed
    ensures History(way) && |way| > 0 && way[0] == status && way[|way| - 1] == Queued
  {
    if status.Queued? then [Queued]
    else if status.InFlight() then [status, Interrupted, Queued]
    else [status, Queued]
  }

  /** And from Queued to every status but Planned. */
  function FromQueued(status: TaskStatus): (way: seq<TaskStatus>)
    requires status != Planned
    ensures History(way) && |way| > 0 && way[0] == Queued && way[|way| - 1] == status
  {
    match status
    case Queued => [Queued]
    case Running => [Queued, Running]
    case Pausing => [Queued, Running, Pausing]
    case Paused => [Queued, Running, Pausing, Paused]
    case Resuming => [Queued, Running, Pausing, Paused, Resuming]
    case Cancelled => [Queued, Cancelled]
    case other => [Queued, Running, other]
  }

  lemma {:induction false} NeverPlannedAgain(statuses: seq<TaskStatus>)
    requires History(statuses) && |statuses| > 0
    ensures statuses[|statuses| - 1] == Planned ==> statuses[0] == Planned
    decreases |statuses|
  {
    if |statuses| > 1 {
      assert statuses[|statuses| - 2].CanTransitionTo(statuses[|statuses| - 1]);
      NeverPlannedAgain(statuses[..|statuses| - 1]);
    }
  }

  lemma {:induction false} CompletedStays(statuses: seq<TaskStatus>)
    requires History(statuses) && |statuses| > 0
    ensures statuses[0] == Completed ==> statuses[|statuses| - 1] == Completed
    decreases |statuses|
  {
    if |statuses| > 1 {
      assert statuses[0].CanTransitionTo(statuses[1]);
      CompletedStays(statuses[1..]);
    }
  }

  // ----- ORDER BY updated_at, id with LIMIT and OFFSET -----

  predicate Older(rows: Rows, a: nat, b: nat)
    requires a in rows && b in rows
  {
    rows[a].updatedAt < rows[b].updatedAt || (rows[a].updatedAt == rows[b].updatedAt && a < b)
  }

  predicate Before(rows: Rows, newestFirst: bool, a: nat, b: nat)
    requires a in rows && b in rows
  {
    if newestFirst then Older(rows, b, a) else Older(rows, a, b)
  }

  /** The selected ids that come before `id` in the ordering. */
  function Ahead(rows: Rows, newestFirst: bool, ids: set<nat>, id: nat): set<nat>
    requires ids <= rows.Keys && id in rows
  {
    set other | other in ids && Before(rows, newestFirst, other, id)
  }

  /** The first `count` of the selected ids. */
  function First(rows: Rows, newestFirst: bool, ids: set<nat>, count: nat): (first: set<nat>)
    requires ids <= rows.Keys
    ensures first <= ids
  {
    set id | id in ids && |Ahead(rows, newestFirst, ids, id)| < count
  }

  /** The last of a nonempty selection. */
  lemma {:induction false} LastOf(rows: Rows, newestFirst: bool, ids: set<nat>) returns (last: nat)
    requires ids <= rows.Keys && ids != {}
    ensures last in ids && Ahead(rows, newestFirst, ids, last) == ids - {last}
    decreases |ids|
  {
    var some :| some in ids;
    last := some;
    if ids != {some} {
      var rest := ids - {some};
      assert rest < ids;
      var other := LastOf(rows, newestFirst, rest);
      last := if Before(rows, newestFirst, some, other) then other else some;
      forall x | x in ids && x != last
        ensures Before(rows, newestFirst, x, last)
      {
        if x != some && x != other {
          assert x in Ahead(rows, newestFirst, rest, other);
        }
      }
    }
  }

  /** A selection with LIMIT `count` has exactly that many rows, or all of them if there are fewer,
      and every selected row comes before every one left out. */
  lemma {:induction false} FirstIsExact(rows: Rows, newestFirst: bool, ids: set<nat>, count: nat)
    requires ids <= rows.Keys
    ensures |First(rows, newestFirst, ids, count)| == if count < |ids| then count else |ids|
    ensures forall a, b :: a in First(rows, newestFirst, ids, count) && b in ids - First(rows, newestFirst, ids, count)
                           ==> Before(rows, newestFirst, a, b)
    decreases |ids|
  {
    hide Before, First;
    if ids == {} {
      NothingSelected(rows, newestFirst, count);
    } else {
      var last := LastOf(rows, newestFirst, ids);
      var rest := ids - {last};
      assert |rest| == |ids| - 1;
      FirstIsExact(rows, newestFirst, rest, count);
      FirstWithoutLast(rows, newestFirst, ids, count, last);
    }
    forall a, b | a in First(rows, newestFirst, ids, count) && b in ids - First(rows, newestFirst, ids, count)
      ensures Before(rows, newestFirst, a, b)
    {
      SelectedComesBefore(rows, newestFirst, ids, count, a, b);
    }
  }

  lemma NothingSelected(rows: Rows, newestFirst: bool, count: nat)
    ensures First(rows, newestFirst, {}, count) == {}
  {
  }

  lemma SelectedComesBefore(rows: Rows, newestFirst: bool, ids: set<nat>, count: nat, a: nat, b: nat)
    requires ids <= rows.Keys && b in ids
    requires a in First(rows, newestFirst, ids, count) && b !in First(rows, newestFirst, ids, count)
    ensures a in ids && Before(rows, newestFirst, a, b)
  {
    if !Before(rows, newestFirst, a, b) {
      assert Before(rows, newestFirst, b, a);
      var x, y := Ahead(rows, newestFirst, ids, b), Ahead(rows, newestFirst, ids, a);
      assert x <= y;
      SubsetSize(x, y);
    }
  }

  lemma FirstWithoutLast(rows: Rows, newestFirst: bool, ids: set<nat>, count: nat, last: nat)
    requires ids <= rows.Keys && last in ids && Ahead(rows, newestFirst, ids, last) == ids - {last}
    ensures First(rows, newestFirst, ids, count)
            == First(rows, newestFirst, ids - {last}, count) + if |ids| - 1 < count then {last} else {}
    ensures last !in First(rows, newestFirst, ids - {last}, count)
    ensures forall a :: a in ids - {last} ==> Before(rows, newestFirst, a, last)
  {
    var rest := ids - {last};
    forall a | a in rest
      ensures Before(rows, newestFirst, a, last)
      ensures Ahead(rows, newestFirst, ids, a) == Ahead(rows, newestFirst, rest, a)
    {
      assert a in Ahead(rows, newestFirst, ids, last);
      assert !Before(rows, newestFirst, last, a);
    }
    assert |rest| == |ids| - 1;
    var first, shorter := First(rows, newestFirst, ids, count), First(rows, newestFirst, rest, count);
    forall a | a in rest
      ensures a in first <==> a in shorter
    {
    }
  }
}
