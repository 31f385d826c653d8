/** The desktop task store: a bounded table with pruned history, an epoch fence, manual reordering and
    recovery after a restart. Every operation is one transaction; one that fails changes nothing. */
module TaskTable {
  import opened FiniteSets
  import opened Wrappers
  import opened TaskModel
  import opened Scheduler

  const MAX_RECOVERY_RECORDS: nat := MAX_NONTERMINAL_TASKS
  const MAX_TASK_HISTORY: nat := 500
  const MAX_QUARANTINE_RECORDS: nat := 20
  const MAX_HISTORY_RETENTION_DAYS: nat := 3_650
  const MILLISECONDS_A_DAY: nat := 86_400_000
  // The largest epoch or revision that a column of the table can hold.
  const MAX_STORED_INTEGER: nat := 0x7fff_ffff_ffff_ffff

  datatype StoreError =
    | NotFound
    | CorruptState
    | StaleEpoch
    | InvalidTransition
    | TaskActive
    | QueueCapacityReached
    | CheckpointHistoryCapacityReached
    | InvalidReorder
    | InvalidPriorityChange
    | DuplicateTask

  datatype Preferences = Preferences(maximumTerminalHistory: nat, terminalHistoryDays: nat) {
    predicate Validate() {
      0 < maximumTerminalHistory <= MAX_TASK_HISTORY && 0 < terminalHistoryDays <= MAX_HISTORY_RETENTION_DAYS
    }
  }

  datatype QueueDirection = Earlier | Later

  /** What a caller chooses about a new task; `wellShaped` is whether `validate_record_shape` and the
      size limit accept the record. */
  datatype NewTask = NewTask(epoch: nat, status: TaskStatus, priority: Priority, checkpointed: bool, wellShaped: bool)

  /** What a `mutate` closure may change; none changes the identifier, the epoch or the queue order. */
  datatype Fields = Fields(status: TaskStatus, priority: Priority, checkpointed: bool, wellShaped: bool)

  type Change = Fields -> Result<Fields, StoreError>

  function FieldsOf(row: Row): Fields {
    Fields(row.status, row.priority, row.checkpointed, row.readable)
  }

  function Mutated(row: Row, fields: Fields, now: nat): Row {
    row.(status := fields.status, priority := fields.priority, checkpointed := fields.checkpointed,
         revision := row.revision + 1, updatedAt := now)
  }

  predicate IsCheckpointedTerminal(status: TaskStatus, checkpointed: bool) {
    status.IsTerminal() && checkpointed
  }

  // ----- Pruning -----

  function Expired(rows: Rows, preferences: Preferences, now: nat): set<nat> {
    set id | id in PlainTerminal(rows) && rows[id].updatedAt + preferences.terminalHistoryDays * MILLISECONDS_A_DAY < now
  }

  /** `prune_history_with_preferences`: first by age, then down to the newest of the allowed number. */
  function Pruned(rows: Rows, preferences: Preferences, now: nat): Rows {
    var recent := rows - Expired(rows, preferences, now);
    var plain := PlainTerminal(recent);
    recent - (plain - First(recent, true, plain, preferences.maximumTerminalHistory))
  }

  /** Pruning changes no row it keeps and deletes neither nonterminal nor checkpointed rows. */
  lemma PruneKeeps(rows: Rows, preferences: Preferences, now: nat)
    ensures forall id :: id in Pruned(rows, preferences, now) ==> id in rows && Pruned(rows, preferences, now)[id] == rows[id]
    ensures Nonterminal(Pruned(rows, preferences, now)) == Nonterminal(rows)
    ensures CheckpointedTerminal(Pruned(rows, preferences, now)) == CheckpointedTerminal(rows)
  {
    hide First;
  }

  /** The plain rows written at most the preferred number of days ago. */
  function Young(rows: Rows, days: nat, now: nat): set<nat> {
    set id | id in PlainTerminal(rows) && now <= rows[id].updatedAt + days * 86_400_000
  }

  /** It leaves exactly the allowed number of plain rows, or all that are young enough. */
  lemma PruneBounds(rows: Rows, preferences: Preferences, now: nat)
    ensures PlainTerminal(Pruned(rows, preferences, now)) <= Young(rows, preferences.terminalHistoryDays, now)
    ensures var young := Young(rows, preferences.terminalHistoryDays, now);
            |PlainTerminal(Pruned(rows, preferences, now))|
            == if preferences.maximumTerminalHistory < |young| then preferences.maximumTerminalHistory else |young|
  {
    hide First;
    var recent := rows - Expired(rows, preferences, now);
    var plain := PlainTerminal(recent);
    FirstIsExact(recent, true, plain, preferences.maximumTerminalHistory);
    assert PlainTerminal(Pruned(rows, preferences, now)) == First(recent, true, plain, preferences.maximumTerminalHistory);
    assert plain == Young(rows, preferences.terminalHistoryDays, now);
  }

  /** Every plain row it deletes is older than every plain row it keeps. */
  lemma PruneDeletesOldest(rows: Rows, preferences: Preferences, now: nat, kept: nat, deleted: nat)
    requires kept in PlainTerminal(Pruned(rows, preferences, now))
    requires deleted in rows && deleted !in Pruned(rows, preferences, now)
    ensures kept in rows && Older(rows, deleted, kept)
  {
    hide First;
    PruneKeeps(rows, preferences, now);
    var recent := rows - Expired(rows, preferences, now);
    var plain := PlainTerminal(recent);
    if deleted in recent {
      FirstIsExact(recent, true, plain, preferences.maximumTerminalHistory);
      assert Before(recent, true, kept, deleted);
    } else {
      assert kept in recent && kept in PlainTerminal(rows);
    }
  }

  // ----- The invariant -----

  ghost predicate WithinLimits(rows: Rows, epoch: nat) {
    && |Nonterminal(rows)| <= MAX_NONTERMINAL_TASKS
    && |CheckpointedTerminal(rows)| <= MAX_TASK_HISTORY
    && OrdersUnique(rows)
    && forall id :: id in rows ==>
         && rows[id].readable && rows[id].epoch == epoch
         && (rows[id].status == Queued ==> rows[id].queueOrder != 0)
  }

  /** What every committed operation keeps. */
  ghost predicate Bounded(rows: Rows, epoch: nat, preferences: Preferences) {
    && preferences.Validate() && WithinLimits(rows, epoch)
    && |PlainTerminal(rows)| <= preferences.maximumTerminalHistory
  }

  lemma PruningBounds(rows: Rows, epoch: nat, preferences: Preferences, now: nat)
    requires WithinLimits(rows, epoch) && preferences.Validate()
    ensures Bounded(Pruned(rows, preferences, now), epoch, preferences)
  {
    PruneKeeps(rows, preferences, now);
    PruneBounds(rows, preferences, now);
    hide Pruned, Nonterminal, CheckpointedTerminal, PlainTerminal, Expired;
  }

  /** A write of one row that respects the two capacities keeps the invariant, once pruned. */
  lemma WriteKeepsBounded(rows: Rows, epoch: nat, preferences: Preferences, id: nat, row: Row, now: nat)
    requires Bounded(rows, epoch, preferences)
    requires row.readable && row.epoch == epoch && (row.status == Queued ==> row.queueOrder != 0)
    requires forall other :: other in rows && other != id && row.queueOrder != 0 ==> rows[other].queueOrder != row.queueOrder
    requires !row.status.IsTerminal() && id !in Nonterminal(rows) ==> |Nonterminal(rows)| < MAX_NONTERMINAL_TASKS
    requires IsCheckpointedTerminal(row.status, row.checkpointed) && id !in CheckpointedTerminal(rows)
             ==> |CheckpointedTerminal(rows)| < MAX_TASK_HISTORY
    ensures Bounded(Pruned(rows[id := row], preferences, now), epoch, preferences)
  {
    WriteKeepsSizes(rows, id, row);
    hide Pruned, Nonterminal, CheckpointedTerminal, PlainTerminal, TaskStatus.IsTerminal, IsCheckpointedTerminal;
    assert OrdersUnique(rows[id := row]);
    PruningBounds(rows[id := row], epoch, preferences, now);
  }

  lemma WriteKeepsSizes(rows: Rows, id: nat, row: Row)
    requires |Nonterminal(rows)| <= MAX_NONTERMINAL_TASKS && |CheckpointedTerminal(rows)| <= MAX_TASK_HISTORY
    requires !row.status.IsTerminal() && id !in Nonterminal(rows) ==> |Nonterminal(rows)| < MAX_NONTERMINAL_TASKS
    requires IsCheckpointedTerminal(row.status, row.checkpointed) && id !in CheckpointedTerminal(rows)
             ==> |CheckpointedTerminal(rows)| < MAX_TASK_HISTORY
    ensures |Nonterminal(rows[id := row])| <= MAX_NONTERMINAL_TASKS
    ensures |CheckpointedTerminal(rows[id := row])| <= MAX_TASK_HISTORY
  {
    WriteMovesOneRow(rows, id, row);
    hide Nonterminal, CheckpointedTerminal, TaskStatus.IsTerminal, IsCheckpointedTerminal;
    SizeAfterWrite(Nonterminal(rows), id, !row.status.IsTerminal(), MAX_NONTERMINAL_TASKS);
    SizeAfterWrite(CheckpointedTerminal(rows), id, IsCheckpointedTerminal(row.status, row.checkpointed), MAX_TASK_HISTORY);
  }

  lemma SizeAfterWrite(ids: set<nat>, id: nat, present: bool, limit: nat)
    requires |ids| <= limit && (present && id !in ids ==> |ids| < limit)
    ensures |if present then ids + {id} else ids - {id}| <= limit
  {
    SubsetSize(ids - {id}, ids);
    assert id in ids ==> ids + {id} == ids;
  }

  lemma WriteMovesOneRow(rows: Rows, id: nat, row: Row)
    ensures Nonterminal(rows[id := row]) == if row.status.IsTerminal() then Nonterminal(rows) - {id} else Nonterminal(rows) + {id}
    ensures CheckpointedTerminal(rows[id := row])
            == if IsCheckpointedTerminal(row.status, row.checkpointed) then CheckpointedTerminal(rows) + {id}
               else CheckpointedTerminal(rows) - {id}
  {
  }

  /** Deleting rows keeps it. */
  lemma DeletionKeepsBounded(rows: Rows, epoch: nat, preferences: Preferences, ids: set<nat>)
    requires Bounded(rows, epoch, preferences)
    ensures Bounded(rows - ids, epoch, preferences)
  {
    var rest := rows - ids;
    assert Nonterminal(rest) == Nonterminal(rows) - ids;
    assert CheckpointedTerminal(rest) == CheckpointedTerminal(rows) - ids;
    assert PlainTerminal(rest) == PlainTerminal(rows) - ids;
    SubsetSize(Nonterminal(rest), Nonterminal(rows));
    SubsetSize(CheckpointedTerminal(rest), CheckpointedTerminal(rows));
    SubsetSize(PlainTerminal(rest), PlainTerminal(rows));
  }

  lemma SwapKeepsBounded(rows: Rows, epoch: nat, preferences: Preferences, a: nat, b: nat, now: nat)
    requires Bounded(rows, epoch, preferences) && a in QueuedIds(rows) && b in QueuedIds(rows) && a != b
    ensures Bounded(OrdersSwapped(rows, a, b, now), epoch, preferences)
  {
    var swapped := OrdersSwapped(rows, a, b, now);
    assert Nonterminal(swapped) == Nonterminal(rows);
    assert CheckpointedTerminal(swapped) == CheckpointedTerminal(rows);
    assert PlainTerminal(swapped) == PlainTerminal(rows);
    SwapKeepsOrdersUnique(rows, a, b, now);
  }

  /** Whether a `mutate` whose closure answered `next` may commit. */
  ghost predicate MayCommit(rows: Rows, row: Row, next: Fields) {
    && (row.status.IsTerminal() && !next.status.IsTerminal() ==> |Nonterminal(rows)| < MAX_NONTERMINAL_TASKS)
    && (IsCheckpointedTerminal(next.status, next.checkpointed) && !IsCheckpointedTerminal(row.status, row.checkpointed)
        ==> |CheckpointedTerminal(rows)| < MAX_TASK_HISTORY)
    && row.revision < MAX_STORED_INTEGER
    && next.wellShaped && (next.status == Queued ==> row.queueOrder != 0)
  }

  /** `id` and its neighbour in the given direction exchanged their places among their peers. */
  ghost predicate MovedOnePlace(before: Rows, after: Rows, id: nat, other: nat, direction: QueueDirection) {
    id in QueuedIds(before) && exists s: seq<nat>, i: nat :: MovedAt(before, after, id, other, direction, s, i)
  }

  ghost predicate MovedAt(before: Rows, after: Rows, id: nat, other: nat, direction: QueueDirection, s: seq<nat>, i: nat)
    requires id in before
  {
    && i + 1 < |s| && IsSorted(PeerKeys(before, before[id].priority), s)
    && id == (if direction == Later then s[i] else s[i + 1])
    && other == (if direction == Later then s[i + 1] else s[i])
    && IsSorted(PeerKeys(after, before[id].priority), SwappedAt(s, i))
  }

  /** Two rows have each other's order, a new revision and a new time stamp, and nothing else differs. */
  ghost predicate OrdersExchanged(before: Rows, after: Rows, a: nat, b: nat, now: nat) {
    && a in before && b in before && after.Keys == before.Keys
    && (forall id :: id in before && id != a && id != b ==> after[id] == before[id])
    && after[a] == before[a].(queueOrder := before[b].queueOrder, revision := before[a].revision + 1, updatedAt := now)
    && after[b] == before[b].(queueOrder := before[a].queueOrder, revision := before[b].revision + 1, updatedAt := now)
  }

  /** `id` already stands at the end of its peers. */
  ghost predicate AtEnd(rows: Rows, id: nat, direction: QueueDirection) {
    && id in QueuedIds(rows)
    && exists s: seq<nat> :: s != [] && IsSorted(PeerKeys(rows, rows[id].priority), s)
                             && id == if direction == Later then s[|s| - 1] else s[0]
  }

  function KeepLast(s: seq<nat>): (kept: seq<nat>)
    ensures |kept| == if |s| < 20 then |s| else 20
    ensures kept == s[|s| - |kept|..]
  {
    if |s| <= MAX_QUARANTINE_RECORDS then s else s[|s| - MAX_QUARANTINE_RECORDS..]
  }

  class TaskStore {
    var rows: Rows
    var epoch: nat
    var preferences: Preferences
    var quarantined: seq<nat>

    ghost predicate Valid()
      reads this
    {
      Bounded(rows, epoch, preferences) && epoch <= MAX_STORED_INTEGER && |quarantined| <= MAX_QUARANTINE_RECORDS
    }

    constructor ()
      ensures Valid() && rows == map[] && epoch == 1 && quarantined == []
      ensures preferences == Preferences(500, 90)
    {
      rows, epoch, preferences, quarantined := map[], 1, Preferences(MAX_TASK_HISTORY, 90), [];
    }

    method Insert(id: nat, task: NewTask, now: nat) returns (r: Result<Row, StoreError>)
      requires Valid()
      modifies this`rows
      ensures Valid()
      ensures r.Err? ==> rows == old(rows)
      ensures r.Ok? <==> && task.epoch == epoch && task.wellShaped && id !in old(rows)
                         && (!task.status.IsTerminal() ==> |Nonterminal(old(rows))| < MAX_NONTERMINAL_TASKS)
                         && (IsCheckpointedTerminal(task.status, task.checkpointed)
                             ==> |CheckpointedTerminal(old(rows))| < MAX_TASK_HISTORY)
      ensures r == Err(StaleEpoch) <==> task.epoch != epoch
      ensures r == Err(QueueCapacityReached) <==>
        task.epoch == epoch && !task.status.IsTerminal() && |Nonterminal(old(rows))| >= 64
      ensures r == Err(CheckpointHistoryCapacityReached) <==>
        task.epoch == epoch && task.status.IsTerminal() && task.checkpointed && |CheckpointedTerminal(old(rows))| >= 500
      ensures r == Err(DuplicateTask) ==> id in old(rows)
      ensures r == Err(CorruptState) ==> !task.wellShaped
      ensures r.Err? ==> r.error in {StaleEpoch, QueueCapacityReached, CheckpointHistoryCapacityReached, CorruptState, DuplicateTask}
      ensures r.Ok? ==> r.value.(queueOrder := 0) == Row(epoch, 1, now, task.status, task.priority, 0, task.checkpointed, true)
      ensures r.Ok? && task.status == Queued ==>
        r.value.queueOrder > 0 && IsMaximumOrder(old(rows), old(rows).Keys, r.value.queueOrder - 1)
      ensures r.Ok? ==> rows == Pruned(old(rows)[id := r.value], preferences, now)
    {
      hide Pruned, First, OrdersUnique;
      if task.epoch != epoch { return Err(StaleEpoch); }
      if !task.status.IsTerminal() && |Nonterminal(rows)| >= MAX_NONTERMINAL_TASKS { return Err(QueueCapacityReached); }
      if IsCheckpointedTerminal(task.status, task.checkpointed) && |CheckpointedTerminal(rows)| >= MAX_TASK_HISTORY {
        return Err(CheckpointHistoryCapacityReached);
      }
      var order := 0;
      if task.status == Queued {
        var maximum := MaximumOrder(rows, rows.Keys);
        order := maximum + 1;
      }
      if !task.wellShaped { return Err(CorruptState); }
      if id in rows { return Err(DuplicateTask); }
      var row := Row(epoch, 1, now, task.status, task.priority, order, task.checkpointed, true);
      WriteKeepsBounded(rows, epoch, preferences, id, row, now);
      rows := Pruned(rows[id := row], preferences, now);
      return Ok(row);
    }

    /** `quarantine`: moves one row out of the table and keeps the last twenty. */
    method Quarantine(id: nat)
      modifies this`rows, this`quarantined
      ensures rows == old(rows) - {id} && quarantined == KeepLast(old(quarantined) + [id])
    {
      quarantined := KeepLast(quarantined + [id]);
      rows := rows - {id};
    }

    /** `mutate`. It works on any table, as recovery needs. */
    method Mutate(id: nat, callerEpoch: nat, change: Change, now: nat) returns (r: Result<Row, StoreError>)
      requires preferences.Validate()
      modifies this`rows, this`quarantined
      ensures old(Valid()) ==> Valid()
      ensures callerEpoch != epoch ==> r == Err(StaleEpoch) && rows == old(rows) && quarantined == old(quarantined)
      ensures r.Ok? <==> && callerEpoch == epoch && id in old(rows) && old(rows)[id].readable && old(rows)[id].epoch == epoch
                         && change(FieldsOf(old(rows)[id])).Ok?
                         && MayCommit(old(rows), old(rows)[id], change(FieldsOf(old(rows)[id])).value)
      ensures r.Ok? ==>
        && var row, next := old(rows)[id], change(FieldsOf(old(rows)[id])).value;
        && r.value == Row(row.epoch, row.revision + 1, now, next.status, next.priority, row.queueOrder, next.checkpointed, true)
      ensures r.Ok? ==> rows == Pruned(old(rows)[id := r.value], preferences, now) && quarantined == old(quarantined)
      ensures r.Err? ==>
        rows == if callerEpoch == epoch && id in old(rows) && !old(rows)[id].readable then old(rows) - {id} else old(rows)
      ensures |old(quarantined)| <= MAX_QUARANTINE_RECORDS ==> |quarantined| <= MAX_QUARANTINE_RECORDS
    {
      hide Pruned, First;
      if callerEpoch != epoch { return Err(StaleEpoch); }
      if id !in rows { return Err(NotFound); }
      var row := rows[id];
      if !row.readable {
        Quarantine(id);
        return Err(CorruptState);
      }
      if row.epoch != callerEpoch { return Err(StaleEpoch); }
      var answer := change(FieldsOf(row));
      if answer.Err? { return Err(answer.error); }
      var next := answer.value;
      if row.status.IsTerminal() && !next.status.IsTerminal() && |Nonterminal(rows)| >= MAX_NONTERMINAL_TASKS {
        return Err(QueueCapacityReached);
      }
      if IsCheckpointedTerminal(next.status, next.checkpointed) && !IsCheckpointedTerminal(row.status, row.checkpointed)
         && |CheckpointedTerminal(rows)| >= MAX_TASK_HISTORY {
        return Err(CheckpointHistoryCapacityReached);
      }
      if row.revision >= MAX_STORED_INTEGER { return Err(CorruptState); }
      if !next.wellShaped || (next.status == Queued && row.queueOrder == 0) { return Err(CorruptState); }
      var updated := Mutated(row, next, now);
      if Bounded(rows, epoch, preferences) {
        WriteKeepsBounded(rows, epoch, preferences, id, updated, now);
      }
      rows := Pruned(rows[id := updated], preferences, now);
      return Ok(updated);
    }

    method SetPriority(id: nat, callerEpoch: nat, priority: Priority, now: nat) returns (r: Result<Row, StoreError>)
      requires Valid()
      modifies this`rows, this`quarantined
      ensures Valid()
      ensures r.Ok? <==> callerEpoch == epoch && id in QueuedIds(old(rows)) && old(rows)[id].revision < MAX_STORED_INTEGER
      ensures r.Ok? ==> r.value == old(rows)[id].(priority := priority, revision := old(rows)[id].revision + 1, updatedAt := now)
      ensures r.Ok? ==> rows == Pruned(old(rows)[id := r.value], preferences, now)
      ensures r.Err? ==> rows == old(rows)
    {
      hide Pruned, First;
      r := Mutate(id, callerEpoch,
                  (f: Fields) => if f.status == Queued then Ok(f.(priority := priority)) else Err(InvalidPriorityChange), now);
    }

    method RemoveTerminal(id: nat) returns (r: Result<(), StoreError>)
      requires Valid()
      modifies this`rows
      ensures Valid()
      ensures r.Ok? <==> id in old(rows) && old(rows)[id].status.IsTerminal()
      ensures rows == if r.Ok? then old(rows) - {id} else old(rows)
    {
      if id !in rows { return Err(NotFound); }
      if !rows[id].status.IsTerminal() { return Err(TaskActive); }
      DeletionKeepsBounded(rows, epoch, preferences, {id});
      rows := rows - {id};
      return Ok(());
    }

    method RemoveFailedAdmission(id: nat) returns (r: Result<(), StoreError>)
      requires Valid()
      modifies this`rows
      ensures Valid()
      ensures r.Ok? <==> id in QueuedIds(old(rows))
      ensures rows == if r.Ok? then old(rows) - {id} else old(rows)
    {
      if id !in rows || rows[id].status != Queued { return Err(TaskActive); }
      DeletionKeepsBounded(rows, epoch, preferences, {id});
      rows := rows - {id};
      return Ok(());
    }

    /** `clear_terminal_status`: a nonterminal status removes nothing. */
    method ClearTerminalStatus(status: TaskStatus) returns (removed: nat)
      requires Valid()
      modifies this`rows
      ensures Valid() && Nonterminal(rows) == Nonterminal(old(rows))
      ensures removed == |old(rows).Keys| - |rows.Keys|
      ensures forall id :: id in rows <==> id in old(rows) && (old(rows)[id].status != status || !status.IsTerminal())
      ensures forall id :: id in rows ==> rows[id] == old(rows)[id]
    {
      hide Bounded, Nonterminal, WithTerminalStatus, TaskStatus.IsTerminal;
      var rest := rows - WithTerminalStatus(rows, status);
      DeletionKeepsBounded(rows, epoch, preferences, WithTerminalStatus(rows, status));
      ClearedRows(rows, status, rest);
      removed := |rows.Keys| - |rest.Keys|;
      rows := rest;
    }

    method ClearAll() returns (r: Result<nat, StoreError>)
      requires Valid()
      modifies this`rows, this`quarantined, this`epoch
      ensures Valid()
      ensures r.Ok? <==> old(epoch) < MAX_STORED_INTEGER
      ensures r.Ok? ==> rows == map[] && quarantined == [] && r.value == epoch == old(epoch) + 1
      ensures r.Err? ==> rows == old(rows) && quarantined == old(quarantined) && epoch == old(epoch)
    {
      if epoch >= MAX_STORED_INTEGER { return Err(CorruptState); }
      rows, quarantined, epoch := map[], [], epoch + 1;
      return Ok(epoch);
    }

    method SavePreferences(next: Preferences, now: nat) returns (r: Result<Preferences, StoreError>)
      requires Valid()
      modifies this`rows, this`preferences
      ensures Valid()
      ensures r.Ok? <==> 1 <= next.maximumTerminalHistory <= 500 && 1 <= next.terminalHistoryDays <= 3_650
      ensures r.Ok? ==> r.value == preferences == next && rows == Pruned(old(rows), next, now)
      ensures r.Err? ==> rows == old(rows) && preferences == old(preferences)
    {
      hide Pruned, First;
      if !next.Validate() { return Err(CorruptState); }
      PruningBounds(rows, epoch, next, now);
      preferences := next;
      rows := Pruned(rows, next, now);
      return Ok(next);
    }

    /** `move_queued`: the task changes places with its neighbour among the queued tasks of its priority,
        and no other task moves. */
    method MoveQueued(id: nat, direction: QueueDirection, now: nat) returns (r: Result<nat, StoreError>)
      requires Valid()
      modifies this`rows
      ensures Valid()
      ensures r.Err? ==> rows == old(rows)
      ensures r.Ok? ==> MovedOnePlace(old(rows), rows, id, r.value, direction)
      ensures r.Ok? ==> r.value in QueuedIds(old(rows)) && rows == OrdersSwapped(old(rows), id, r.value, now)
      ensures r.Ok? ==> OrdersExchanged(old(rows), rows, id, r.value, now)
      ensures r.Ok? ==> forall p :: p != old(rows)[id].priority ==> PeerKeys(rows, p) == PeerKeys(old(rows), p)
      ensures r == Err(InvalidReorder) <==> id in old(rows) && (old(rows)[id].status != Queued || AtEnd(old(rows), id, direction))
      ensures r == Err(NotFound) <==> id !in old(rows)
      ensures r.Err? ==> r.error == NotFound || r.error == InvalidReorder || r.error == CorruptState
    {
      BoundedFacts(rows, epoch, preferences);
      hide OrdersUnique, PeerKeys, IsSorted, OrdersSwapped, OrdersExchanged, MovedOnePlace, AtEnd, Bounded;
      if id !in rows { return Err(NotFound); }
      if rows[id].status != Queued { return Err(InvalidReorder); }
      var priority := rows[id].priority;
      var s := SortByKey(PeerKeys(rows, priority));
      var index := PeerPosition(rows, id, s);
      if direction == Earlier && index == 0 { return Err(InvalidReorder); }
      if direction == Later && index + 1 >= |s| { return Err(InvalidReorder); }
      var i := if direction == Later then index else index - 1;
      var other := if direction == Later then s[i + 1] else s[i];
      MovesOnePlace(rows, s, i, id, direction, now);
      NotAtEnd(rows, id, s, index, direction);
      r := ExchangeOrders(id, other, now);
    }

    /** The two updates of a move. */
    method ExchangeOrders(id: nat, other: nat, now: nat) returns (r: Result<nat, StoreError>)
      requires Valid() && id in QueuedIds(rows) && other in QueuedIds(rows) && id != other
      modifies this`rows
      ensures Valid()
      ensures r == if old(rows)[id].revision < MAX_STORED_INTEGER && old(rows)[other].revision < MAX_STORED_INTEGER
                   then Ok(other) else Err(CorruptState)
      ensures rows == if r.Ok? then OrdersSwapped(old(rows), id, other, now) else old(rows)
    {
      hide OrdersUnique, OrdersSwapped, Bounded;
      if rows[id].revision >= MAX_STORED_INTEGER || rows[other].revision >= MAX_STORED_INTEGER { return Err(CorruptState); }
      SwapKeepsBounded(rows, epoch, preferences, id, other, now);
      rows := OrdersSwapped(rows, id, other, now);
      return Ok(other);
    }

    /** One step earlier and then one step later restores the queue of every priority. The second step
        can only fail on a revision that has reached its limit. */
    method MoveEarlierThenLater(id: nat, now: nat, later: nat)
      returns (first: Result<nat, StoreError>, second: Result<nat, StoreError>)
      requires Valid()
      modifies this`rows
      ensures Valid()
      ensures first.Ok? && second.Ok? ==> forall p :: PeerKeys(rows, p) == PeerKeys(old(rows), p)
      ensures first.Ok? && second.Err? ==> second == Err(CorruptState)
    {
      hide OrdersUnique, PeerKeys, IsSorted, OrdersSwapped, Bounded;
      ghost var start := rows;
      first := MoveQueued(id, Earlier, now);
      if first.Err? { return first, first; }
      ghost var moved := rows;
      second := MoveQueued(id, Later, later);
      MovedBack(start, moved, id, first.value, now);
      if second.Ok? {
        SameNeighbour(start, moved, rows, id, first.value, second.value);
        SwapTwice(start, id, first.value, now, later);
      }
    }

    // ----- Whole runs -----

    method AnyOperation()
      requires Valid()
      modifies this
      ensures Valid() && epoch >= old(epoch)
    {
      hide Bounded;
      var id: nat, now: nat, which: nat := *, *, *;
      if which == 0 {
        var task: NewTask := *;
        var _ := Insert(id, task, now);
      } else if which == 1 {
        var callerEpoch: nat, change: Change := *, *;
        PreferencesAreValid();
        var _ := Mutate(id, callerEpoch, change, now);
      } else if which == 2 {
        var _ := RemoveTerminal(id);
      } else if which == 3 {
        var _ := RemoveFailedAdmission(id);
      } else if which == 4 {
        var status: TaskStatus := *;
        var _ := ClearTerminalStatus(status);
      } else if which == 5 {
        var _ := ClearAll();
      } else if which == 6 {
        var next: Preferences := *;
        var _ := SavePreferences(next, now);
      } else if which == 7 {
        var direction: QueueDirection := *;
        var _ := MoveQueued(id, direction, now);
      } else {
        quarantined := [];
      }
    }

    lemma PreferencesAreValid()
      requires Valid()
      ensures preferences.Validate()
    {
    }

    /** From an empty store, any run of operations keeps every bound. */
    method AnyOperations(count: nat)
      requires Valid()
      modifies this
      ensures Valid() && epoch >= old(epoch)
    {
      hide Bounded;
      for n := 0 to count
        invariant Valid() && epoch >= old(epoch)
      {
        AnyOperation();
      }
    }

    /** The epoch fence: an update that carries an epoch read before a successful clear changes nothing,
        however many operations have run since. */
    method StaleUpdateAfterClear(id: nat, change: Change, operations: nat, now: nat)
      returns (cleared: bool, before: Rows, r: Result<Row, StoreError>)
      requires Valid()
      modifies this
      ensures Valid()
      ensures cleared ==> r == Err(StaleEpoch) && rows == before
    {
      hide Bounded;
      var captured := epoch;
      var clear := ClearAll();
      cleared := clear.Ok?;
      AnyOperations(operations);
      before := rows;
      PreferencesAreValid();
      r := Mutate(id, captured, change, now);
    }
  }

  function WithTerminalStatus(rows: Rows, status: TaskStatus): set<nat> {
    set id | id in rows && rows[id].status == status && status.IsTerminal()
  }

  lemma ClearedRows(rows: Rows, status: TaskStatus, rest: Rows)
    requires rest == rows - WithTerminalStatus(rows, status)
    ensures Nonterminal(rest) == Nonterminal(rows) && |rest.Keys| <= |rows.Keys|
    ensures forall id :: id in rest <==> id in rows && (rows[id].status != status || !status.IsTerminal())
    ensures forall id :: id in rest ==> rest[id] == rows[id]
  {
    hide TaskStatus.IsTerminal;
    ClearedKeeps(rows, status, rest);
    hide Nonterminal, WithTerminalStatus;
    SubsetSize(rest.Keys, rows.Keys);
  }

  lemma ClearedKeeps(rows: Rows, status: TaskStatus, rest: Rows)
    requires rest == rows - WithTerminalStatus(rows, status)
    ensures rest.Keys <= rows.Keys && Nonterminal(rest) == Nonterminal(rows)
    ensures forall id :: id in rest <==> id in rows && (rows[id].status != status || !status.IsTerminal())
    ensures forall id :: id in rest ==> rest[id] == rows[id]
  {
    hide TaskStatus.IsTerminal;
  }

  // ----- Facts about moves -----

  lemma PeersAreQueued(rows: Rows, priority: Priority, id: nat)
    requires id in PeerKeys(rows, priority)
    ensures id in QueuedIds(rows) && rows[id].priority == priority
  {
  }

  method PeerPosition(rows: Rows, id: nat, s: seq<nat>) returns (index: nat)
    requires id in QueuedIds(rows) && IsSorted(PeerKeys(rows, rows[id].priority), s)
    ensures index < |s| && s[index] == id
    ensures AtEnd(rows, id, Earlier) <==> index == 0
    ensures AtEnd(rows, id, Later) <==> index == |s| - 1
  {
    assert id in PeerKeys(rows, rows[id].priority);
    assert id in s;
    ghost var k :| 0 <= k < |s| && s[k] == id;
    index := 0;
    while s[index] != id
      invariant index <= k
      decreases k - index
    {
      index := index + 1;
    }
    EndsAreUnique(rows, id, s, index);
  }

  lemma EndsAreUnique(rows: Rows, id: nat, s: seq<nat>, index: nat)
    requires id in QueuedIds(rows) && IsSorted(PeerKeys(rows, rows[id].priority), s) && index < |s| && s[index] == id
    ensures AtEnd(rows, id, Earlier) <==> index == 0
    ensures AtEnd(rows, id, Later) <==> index == |s| - 1
  {
    var keys := PeerKeys(rows, rows[id].priority);
    forall t | IsSorted(keys, t)
      ensures t == s
    {
      SortedIsUnique(keys, s, t);
    }
    assert forall k :: 0 <= k < |s| && k != index ==> s[k] != id by {
      hide PeerKeys;
      DistinctWhenSorted(keys, s);
    }
  }

  lemma DistinctWhenSorted(keys: Keys, s: seq<nat>)
    requires IsSorted(keys, s)
    ensures forall i, j :: 0 <= i < |s| && 0 <= j < |s| && i != j ==> s[i] != s[j]
  {
    forall i, j | 0 <= i < j < |s|
      ensures s[i] != s[j]
    {
      assert KeyLess(keys, s[i], s[j]);
    }
  }

  lemma NotAtEnd(rows: Rows, id: nat, s: seq<nat>, index: nat, direction: QueueDirection)
    requires id in QueuedIds(rows) && IsSorted(PeerKeys(rows, rows[id].priority), s) && index < |s| && s[index] == id
    requires if direction == Later then index + 1 < |s| else index > 0
    ensures !AtEnd(rows, id, direction)
  {
    EndsAreUnique(rows, id, s, index);
  }

  lemma BoundedFacts(rows: Rows, epoch: nat, preferences: Preferences)
    requires Bounded(rows, epoch, preferences)
    ensures OrdersUnique(rows) && forall id :: id in QueuedIds(rows) ==> rows[id].queueOrder != 0
  {
    hide OrdersUnique;
  }

  lemma MovesOnePlace(rows: Rows, s: seq<nat>, i: nat, id: nat, direction: QueueDirection, now: nat)
    requires id in rows && OrdersUnique(rows) && IsSorted(PeerKeys(rows, rows[id].priority), s) && i + 1 < |s|
    requires forall other :: other in QueuedIds(rows) ==> rows[other].queueOrder != 0
    requires id == if direction == Later then s[i] else s[i + 1]
    ensures var other := if direction == Later then s[i + 1] else s[i];
            && id in QueuedIds(rows) && other in QueuedIds(rows) && other != id
            && OrdersExchanged(rows, OrdersSwapped(rows, id, other, now), id, other, now)
            && MovedOnePlace(rows, OrdersSwapped(rows, id, other, now), id, other, direction)
            && forall p :: p != rows[id].priority ==> PeerKeys(OrdersSwapped(rows, id, other, now), p) == PeerKeys(rows, p)
  {
    SwapMovesNeighbours(rows, rows[id].priority, s, i, now);
    PeersAreQueued(rows, rows[id].priority, s[i]);
    PeersAreQueued(rows, rows[id].priority, s[i + 1]);
    SwapIsSymmetric(rows, s[i], s[i + 1], now);
    SwappedRows(rows, id, if direction == Later then s[i + 1] else s[i], now);
    assert MovedAt(rows, OrdersSwapped(rows, s[i], s[i + 1], now), id, if direction == Later then s[i + 1] else s[i], direction, s, i);
    hide OrdersUnique, PeerKeys, IsSorted, OrdersSwapped, OrdersExchanged;
  }

  lemma SwappedRows(rows: Rows, a: nat, b: nat, now: nat)
    requires a in rows && b in rows && a != b
    ensures OrdersExchanged(rows, OrdersSwapped(rows, a, b, now), a, b, now)
  {
  }

  lemma SwapIsSymmetric(rows: Rows, a: nat, b: nat, now: nat)
    requires a in rows && b in rows && a != b
    ensures OrdersSwapped(rows, a, b, now) == OrdersSwapped(rows, b, a, now)
  {
  }

  /** After a step earlier the neighbour stands right behind, so the task is not last. */
  lemma MovedBack(start: Rows, moved: Rows, id: nat, other: nat, now: nat)
    requires MovedOnePlace(start, moved, id, other, Earlier) && other in QueuedIds(start)
    requires moved == OrdersSwapped(start, id, other, now)
    ensures other != id && id in QueuedIds(moved) && !AtEnd(moved, id, Later)
    ensures moved[id].priority == start[id].priority && moved[id].status == Queued
  {
    SwapKeepsStatus(start, id, other, now);
    var t, i := PlacesAfterMove(start, moved, id, other);
    hide PeerKeys, IsSorted, OrdersSwapped, QueuedIds, AtEnd, MovedOnePlace;
    NotAtEnd(moved, id, t, i, Later);
  }

  /** The peers after a step earlier, and where the task stands among them. */
  lemma PlacesAfterMove(start: Rows, moved: Rows, id: nat, other: nat) returns (t: seq<nat>, i: nat)
    requires MovedOnePlace(start, moved, id, other, Earlier)
    ensures && id in start && id != other && i + 1 < |t|
            && IsSorted(PeerKeys(moved, start[id].priority), t) && t[i] == id && t[i + 1] == other
  {
    hide MovedAt, PeerKeys, IsSorted;
    var s: seq<nat>, k: nat :| MovedAt(start, moved, id, other, Earlier, s, k);
    MovedAtFacts(start, moved, id, other, s, k);
    t, i := SwappedAt(s, k), k;
  }

  lemma MovedAtFacts(start: Rows, moved: Rows, id: nat, other: nat, s: seq<nat>, k: nat)
    requires id in start && MovedAt(start, moved, id, other, Earlier, s, k)
    ensures id != other && k + 1 < |s| && IsSorted(PeerKeys(moved, start[id].priority), SwappedAt(s, k))
    ensures |SwappedAt(s, k)| == |s| && SwappedAt(s, k)[k] == id && SwappedAt(s, k)[k + 1] == other
  {
    hide PeerKeys, IsSorted;
    NeighboursDiffer(PeerKeys(start, start[id].priority), s, k);
    SwappedFacts(s, k);
  }

  lemma NeighboursDiffer(keys: Keys, s: seq<nat>, i: nat)
    requires IsSorted(keys, s) && i + 1 < |s|
    ensures s[i] != s[i + 1]
  {
    DistinctWhenSorted(keys, s);
  }

  lemma SwappedFacts(s: seq<nat>, i: nat)
    requires i + 1 < |s|
    ensures |SwappedAt(s, i)| == |s| && SwappedAt(s, i)[i] == s[i + 1] && SwappedAt(s, i)[i + 1] == s[i]
  {
  }

  lemma SwapKeepsStatus(rows: Rows, a: nat, b: nat, now: nat)
    requires a in QueuedIds(rows) && b in rows
    ensures a in QueuedIds(OrdersSwapped(rows, a, b, now)) && a in OrdersSwapped(rows, a, b, now)
    ensures OrdersSwapped(rows, a, b, now)[a].priority == rows[a].priority && OrdersSwapped(rows, a, b, now)[a].status == Queued
  {
  }

  lemma SameNeighbour(start: Rows, moved: Rows, after: Rows, id: nat, other: nat, second: nat)
    requires MovedOnePlace(start, moved, id, other, Earlier) && id in moved && moved[id].priority == start[id].priority
    requires MovedOnePlace(moved, after, id, second, Later)
    ensures second == other
  {
    hide PeerKeys, IsSorted, KeyLess;
    var priority := start[id].priority;
    var s: seq<nat>, i: nat :| MovedAt(start, moved, id, other, Earlier, s, i);
    var t: seq<nat>, j: nat :| MovedAt(moved, after, id, second, Later, t, j);
    SortedIsUnique(PeerKeys(moved, priority), t, SwappedAt(s, i));
    DistinctWhenSorted(PeerKeys(moved, priority), t);
    assert t[i] == id && t[i + 1] == other && i == j;
  }

  lemma SwapTwice(rows: Rows, a: nat, b: nat, now: nat, later: nat)
    requires a in rows && b in rows && a != b
    ensures forall p :: PeerKeys(OrdersSwapped(OrdersSwapped(rows, a, b, now), a, b, later), p) == PeerKeys(rows, p)
  {
    var back := OrdersSwapped(OrdersSwapped(rows, a, b, now), a, b, later);
    assert back.Keys == rows.Keys;
    assert forall id :: id in rows ==> back[id].queueOrder == rows[id].queueOrder && back[id].status == rows[id].status
                                       && back[id].priority == rows[id].priority;
  }
}
