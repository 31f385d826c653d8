/** `recover_after_restart`: from any table, however full or damaged, to one the worker can run. */
module TaskRecovery {
  import opened FiniteSets
  import opened Wrappers
  import opened TaskModel
  import opened TaskTable

  /** `state` of the report is derived from these counts and is not part of this model. */
  datatype Report = Report(recovered: nat, quarantined: nat, capacityExceeded: nat)

  /** The nonterminal rows that survive the capacity limit: the oldest ones. */
  function Survivors(rows: Rows): (ids: set<nat>)
    ensures ids <= Nonterminal(rows)
  {
    First(rows, false, Nonterminal(rows), MAX_RECOVERY_RECORDS)
  }

  function Overflow(rows: Rows): set<nat> {
    Nonterminal(rows) - Survivors(rows)
  }

  function Excess(count: nat): nat {
    if MAX_RECOVERY_RECORDS < count then count - MAX_RECOVERY_RECORDS else 0
  }

  function Unreadable(rows: Rows): set<nat> {
    set id | id in rows && !rows[id].readable
  }

  function InFlightIds(rows: Rows): set<nat> {
    set id | id in rows && rows[id].status.InFlight()
  }

  /** The tasks that recovery has to interrupt. */
  function ToInterrupt(start: Rows): set<nat> {
    set id | id in Survivors(start) && start[id].readable && start[id].status.InFlight()
  }

  function Interruption(f: Fields): Result<Fields, StoreError> {
    if f.status.CanTransitionTo(Interrupted) then Ok(f.(status := Interrupted)) else Err(InvalidTransition)
  }

  /** Removing rows past a limit does not change which rows the limit selects. */
  lemma LimitIgnoresLater(rows: Rows, rest: Rows, count: nat, removed: set<nat>)
    requires removed <= Nonterminal(rows) - First(rows, false, Nonterminal(rows), count) && rest == rows - removed
    ensures Nonterminal(rest) == Nonterminal(rows) - removed
    ensures First(rest, false, Nonterminal(rest), count) == First(rows, false, Nonterminal(rows), count)
  {
    hide Nonterminal, Before, First, Ahead;
    var all := Nonterminal(rows);
    NonterminalAfterRemoval(rows, rest, removed);
    FirstIsExact(rows, false, all, count);
    if |First(rows, false, all, count)| < count {
      SubsetOfSameSize(First(rows, false, all, count), all);
    }
    forall id | id in all - removed
      ensures id in First(rest, false, all - removed, count) <==> id in First(rows, false, all, count)
    {
      SelectedAfterRemoval(rows, rest, all, removed, count, id);
    }
  }

  lemma NonterminalAfterRemoval(rows: Rows, rest: Rows, removed: set<nat>)
    requires rest == rows - removed
    ensures Nonterminal(rest) == Nonterminal(rows) - removed
  {
  }

  lemma SelectedAfterRemoval(rows: Rows, rest: Rows, all: set<nat>, removed: set<nat>, count: nat, id: nat)
    requires all <= rows.Keys && rest == rows - removed && id in all - removed
    requires removed <= all - First(rows, false, all, count)
    requires forall a, b :: a in First(rows, false, all, count) && b in all - First(rows, false, all, count) ==> Before(rows, false, a, b)
    requires |First(rows, false, all, count)| >= count || First(rows, false, all, count) == all
    ensures id in First(rest, false, all - removed, count) <==> id in First(rows, false, all, count)
  {
    var first, left := First(rows, false, all, count), all - removed;
    assert Ahead(rest, false, left, id) == Ahead(rows, false, all, id) - removed;
    if id in first {
      SubsetSize(Ahead(rest, false, left, id), Ahead(rows, false, all, id));
    } else {
      assert first <= Ahead(rows, false, all, id) - removed;
      SubsetSize(first, Ahead(rest, false, left, id));
    }
  }

  lemma NothingOverflows(rows: Rows)
    requires |Nonterminal(rows)| <= MAX_RECOVERY_RECORDS
    ensures Overflow(rows) == {}
  {
    hide First, Nonterminal;
    FirstIsExact(rows, false, Nonterminal(rows), MAX_RECOVERY_RECORDS);
    SubsetOfSameSize(Survivors(rows), Nonterminal(rows));
  }

  /** Quarantines some rows, one after the other. */
  method QuarantineAll(store: TaskStore, ids: set<nat>)
    modifies store`rows, store`quarantined
    ensures store.rows == old(store.rows) - ids
    ensures |old(store.quarantined)| <= MAX_QUARANTINE_RECORDS ==> |store.quarantined| <= MAX_QUARANTINE_RECORDS
  {
    var left := ids;
    while left != {}
      invariant left <= ids && store.rows == old(store.rows) - (ids - left)
      invariant |old(store.quarantined)| <= MAX_QUARANTINE_RECORDS ==> |store.quarantined| <= MAX_QUARANTINE_RECORDS
      decreases |left|
    {
      var id :| id in left;
      store.Quarantine(id);
      left := left - {id};
    }
  }

  function AtMostTwenty(n: nat): nat {
    if n < 20 then n else 20
  }

  /** The first transaction: keeps the oldest 64 nonterminal rows, samples up to 20 of the others into
      the quarantine and deletes the rest. */
  method LimitRows(store: TaskStore) returns (exceeded: nat, samples: nat)
    modifies store`rows, store`quarantined
    ensures store.rows == old(store.rows) - Overflow(old(store.rows))
    ensures exceeded == |Overflow(old(store.rows))| == if |Nonterminal(old(store.rows))| > 64 then |Nonterminal(old(store.rows))| - 64 else 0
    ensures forall kept, dropped :: kept in Nonterminal(store.rows) && dropped in Overflow(old(store.rows)) ==>
      kept in old(store.rows) && Older(old(store.rows), kept, dropped)
    ensures samples == AtMostTwenty(exceeded)
    ensures |old(store.quarantined)| <= MAX_QUARANTINE_RECORDS ==> |store.quarantined| <= MAX_QUARANTINE_RECORDS
  {
    OldestStay(store.rows);
    hide First, Nonterminal, Older;
    ghost var start := store.rows;
    OverflowSize(start);
    var actual := |Nonterminal(store.rows)|;
    if actual <= MAX_RECOVERY_RECORDS {
      NothingOverflows(start);
      return 0, 0;
    }
    var sampled := First(store.rows, false, Nonterminal(store.rows), MAX_RECOVERY_RECORDS + MAX_QUARANTINE_RECORDS) - Survivors(store.rows);
    SampleSize(store.rows);
    samples := |sampled|;
    QuarantineAll(store, sampled);
    LimitIgnoresLater(start, store.rows, MAX_RECOVERY_RECORDS, sampled);
    store.rows := store.rows - Overflow(store.rows);
    return actual - MAX_RECOVERY_RECORDS, samples;
  }

  lemma OldestStay(rows: Rows)
    ensures Nonterminal(rows - Overflow(rows)) == Survivors(rows)
    ensures forall kept, dropped :: kept in Survivors(rows) && dropped in Overflow(rows) ==> Older(rows, kept, dropped)
  {
    hide First, Older;
    FirstIsExact(rows, false, Nonterminal(rows), MAX_RECOVERY_RECORDS);
  }

  lemma OverflowSize(rows: Rows)
    ensures |Overflow(rows)| == Excess(|Nonterminal(rows)|)
    ensures |Survivors(rows)| <= MAX_RECOVERY_RECORDS
  {
    hide First, Nonterminal;
    FirstIsExact(rows, false, Nonterminal(rows), MAX_RECOVERY_RECORDS);
    assert Nonterminal(rows) == Survivors(rows) + Overflow(rows);
  }

  lemma SampleSize(rows: Rows)
    ensures var sampled := First(rows, false, Nonterminal(rows), MAX_RECOVERY_RECORDS + MAX_QUARANTINE_RECORDS) - Survivors(rows);
            |sampled| == if |Overflow(rows)| < MAX_QUARANTINE_RECORDS then |Overflow(rows)| else MAX_QUARANTINE_RECORDS
  {
    var wide := First(rows, false, Nonterminal(rows), MAX_RECOVERY_RECORDS + MAX_QUARANTINE_RECORDS);
    assert Survivors(rows) <= wide;
    OverflowSize(rows);
    hide First, Nonterminal;
    FirstIsExact(rows, false, Nonterminal(rows), MAX_RECOVERY_RECORDS + MAX_QUARANTINE_RECORDS);
    FirstIsExact(rows, false, Nonterminal(rows), MAX_RECOVERY_RECORDS);
    assert wide == Survivors(rows) + (wide - Survivors(rows));
  }

  /** What one row of the table has become once recovery is over. */
  ghost predicate Recovered(before: Row, after: Row, now: nat) {
    if before.status in {Running, Pausing, Paused, Resuming, Cancelling}
    then after == before.(status := Interrupted, revision := before.revision + 1, updatedAt := now)
    else after == before
  }

  /** A task can become Interrupted from the in-flight statuses and from no other. */
  lemma InterruptibleIsInFlight(status: TaskStatus)
    ensures status != Interrupted ==> (status.CanTransitionTo(Interrupted) <==> status.InFlight())
  {
  }

  ghost predicate Interruptible(start: Rows, epoch: nat, id: nat)
    requires id in start
  {
    start[id].epoch == epoch && start[id].revision < MAX_STORED_INTEGER
  }

  /** The table while `todo` is still to be interrupted. */
  ghost predicate InProgress(start: Rows, rows: Rows, todo: set<nat>, now: nat) {
    && todo <= ToInterrupt(start)
    && (forall id :: id in Nonterminal(rows) <==> id in Survivors(start) && start[id].readable)
    && (forall id :: id in Nonterminal(rows) ==> if id in todo then rows[id] == start[id] else Recovered(start[id], rows[id], now))
    && (forall id :: id in rows ==> rows[id].readable)
  }

  lemma InterruptionsBegin(start: Rows, limited: Rows, rows: Rows, now: nat)
    requires limited.Keys <= start.Keys && (forall id :: id in limited ==> limited[id] == start[id])
    requires Nonterminal(limited) == Survivors(start)
    requires rows == limited - Unreadable(limited)
    ensures InProgress(start, rows, InFlightIds(rows), now) && InFlightIds(rows) == ToInterrupt(start)
  {
    hide First;
    forall id
      ensures id in Nonterminal(rows) <==> id in Survivors(start) && start[id].readable
    {
      assert id in Nonterminal(limited) <==> id in Survivors(start);
    }
    forall id
      ensures id in InFlightIds(rows) <==> id in ToInterrupt(start)
    {
      if id in InFlightIds(rows) { assert id in Nonterminal(rows); }
      if id in ToInterrupt(start) { assert id in Nonterminal(limited); }
    }
  }

  lemma InterruptionStep(start: Rows, before: Rows, after: Rows, todo: set<nat>, id: nat, row: Row, now: nat)
    requires InProgress(start, before, todo, now) && id in todo && id in before
    requires Recovered(start[id], row, now) && row.readable
    requires after.Keys <= before.Keys + {id} && (forall x :: x in after ==> after[x] == before[id := row][x])
    requires Nonterminal(after) == Nonterminal(before[id := row])
    ensures InProgress(start, after, todo - {id}, now)
  {
    hide Survivors;
    var written := before[id := row];
    assert start[id].status.InFlight() && row.status == Interrupted;
    assert id in Survivors(start) && start[id].readable;
    forall x
      ensures x in Nonterminal(after) <==> x in Nonterminal(before)
    {
      assert x in Nonterminal(written) <==> x in Nonterminal(before);
    }
  }

  lemma TodoIsPresent(start: Rows, rows: Rows, todo: set<nat>, id: nat, now: nat)
    requires InProgress(start, rows, todo, now) && id in todo
    ensures id in rows && rows[id] == start[id] && rows[id].readable && rows[id].status.InFlight()
  {
    hide Survivors;
    assert id in Nonterminal(rows);
  }

  lemma InterruptionsEnd(start: Rows, rows: Rows, now: nat)
    requires InProgress(start, rows, {}, now)
    ensures InFlightIds(rows) == {}
    ensures Nonterminal(rows) == set id | id in Survivors(start) && start[id].readable
    ensures forall id :: id in Nonterminal(rows) ==> id in start && Recovered(start[id], rows[id], now)
    ensures |Nonterminal(rows)| <= MAX_RECOVERY_RECORDS && Unreadable(rows) == {}
  {
    hide First;
    forall id | id in rows
      ensures !rows[id].status.InFlight()
    {
      assert rows[id].status.IsTerminal() || id in Nonterminal(rows);
    }
    OverflowSize(start);
    SubsetSize(Nonterminal(rows), Survivors(start));
  }

  /** From any table: when it succeeds, the nonterminal rows are the readable ones among the 64 oldest,
      none is in flight, those that were are Interrupted with one revision more and the others are
      untouched; the excess and the number recovered are exact. It fails exactly when a task to be
      interrupted carries another epoch or a revision at its limit. */
  method RecoverAfterRestart(store: TaskStore, unsupportedDatabase: bool, now: nat) returns (r: Result<Report, StoreError>)
    requires store.preferences.Validate()
    modifies store`rows, store`quarantined
    ensures r.Ok? <==> forall id :: id in ToInterrupt(old(store.rows)) ==> Interruptible(old(store.rows), store.epoch, id)
    ensures r.Ok? ==> Nonterminal(store.rows) == set id | id in Survivors(old(store.rows)) && old(store.rows)[id].readable
    ensures r.Ok? ==> forall id :: id in Nonterminal(store.rows) ==>
                                     id in old(store.rows) && Recovered(old(store.rows)[id], store.rows[id], now)
    ensures r.Ok? ==> InFlightIds(store.rows) == {} && Unreadable(store.rows) == {}
    ensures r.Ok? ==> |Nonterminal(store.rows)| <= 64
    ensures r.Ok? ==> r.value.recovered == |ToInterrupt(old(store.rows))|
    ensures r.Ok? ==> r.value.capacityExceeded == if |Nonterminal(old(store.rows))| > 64 then |Nonterminal(old(store.rows))| - 64 else 0
    ensures r.Ok? ==> r.value.quarantined == AtMostTwenty(
      AtMostTwenty(r.value.capacityExceeded)
      + |Unreadable(Pruned(old(store.rows) - Overflow(old(store.rows)), store.preferences, now))| + if unsupportedDatabase then 1 else 0)
    ensures |old(store.quarantined)| <= MAX_QUARANTINE_RECORDS ==> |store.quarantined| <= MAX_QUARANTINE_RECORDS
  {
    hide Pruned, First, Nonterminal, Overflow, Survivors, Unreadable, InFlightIds, ToInterrupt, InProgress, Recovered, Interruptible;
    ghost var start := store.rows;
    OverflowSize(start);
    var exceeded, samples := LimitRows(store);
    LimitedRows(start, store.rows);
    PruneKeeps(store.rows, store.preferences, now);
    store.rows := Pruned(store.rows, store.preferences, now);
    ghost var limited := store.rows;
    var unreadable := Unreadable(store.rows);
    QuarantineAll(store, unreadable);
    InterruptionsBegin(start, limited, store.rows, now);
    var todo := InFlightIds(store.rows);
    var recovered := 0;
    while todo != {}
      invariant InProgress(start, store.rows, todo, now) && todo <= ToInterrupt(start)
      invariant recovered == |ToInterrupt(start)| - |todo|
      invariant forall id :: id in ToInterrupt(start) && id !in todo ==> id in start && Interruptible(start, store.epoch, id)
      invariant |old(store.quarantined)| <= MAX_QUARANTINE_RECORDS ==> |store.quarantined| <= MAX_QUARANTINE_RECORDS
      decreases |todo|
    {
      var id :| id in todo;
      TodoIsPresent(start, store.rows, todo, id, now);
      ghost var before := store.rows;
      InterruptCommits(start, before, id, store.epoch);
      var outcome := store.Mutate(id, store.rows[id].epoch, Interruption, now);
      if outcome.Err? { return Err(outcome.error); }
      AfterInterrupt(start, before, id, outcome.value, store.preferences, now);
      InterruptionStep(start, before, store.rows, todo, id, outcome.value, now);
      todo := todo - {id};
      recovered := recovered + 1;
    }
    InterruptionsEnd(start, store.rows, now);
    var quarantinedRecords := |unreadable| + samples + if unsupportedDatabase then 1 else 0;
    return Ok(Report(recovered, if quarantinedRecords < MAX_QUARANTINE_RECORDS then quarantinedRecords else MAX_QUARANTINE_RECORDS,
                     exceeded));
  }

  lemma LimitedRows(start: Rows, rows: Rows)
    requires rows == start - Overflow(start)
    ensures rows.Keys <= start.Keys && Nonterminal(rows) == Survivors(start)
    ensures forall id :: id in rows ==> rows[id] == start[id]
    ensures forall id :: id in ToInterrupt(start) ==> id in start
  {
    hide First;
  }

  lemma InterruptCommits(start: Rows, rows: Rows, id: nat, epoch: nat)
    requires id in start && id in rows && rows[id] == start[id] && rows[id].readable && rows[id].status.InFlight()
    ensures Interruption(FieldsOf(rows[id])) == Ok(FieldsOf(rows[id]).(status := Interrupted))
    ensures MayCommit(rows, rows[id], Interruption(FieldsOf(rows[id])).value) <==> rows[id].revision < MAX_STORED_INTEGER
    ensures Interruptible(start, epoch, id) <==> rows[id].epoch == epoch && rows[id].revision < MAX_STORED_INTEGER
  {
    InterruptibleIsInFlight(rows[id].status);
  }

  lemma AfterInterrupt(start: Rows, before: Rows, id: nat, row: Row, preferences: Preferences, now: nat)
    requires id in start && id in before && before[id] == start[id] && before[id].readable && start[id].status.InFlight()
    requires row == Mutated(before[id], FieldsOf(before[id]).(status := Interrupted), now)
    ensures Recovered(start[id], row, now) && row.readable
    ensures var after := Pruned(before[id := row], preferences, now);
            && after.Keys <= before.Keys + {id} && (forall x :: x in after ==> after[x] == before[id := row][x])
            && Nonterminal(after) == Nonterminal(before[id := row])
  {
    hide Pruned, First;
    PruneKeeps(before[id := row], preferences, now);
  }

  /** A second recovery finds nothing to do: no excess, no task to interrupt, no nonterminal row changed. */
  method RecoverTwice(store: TaskStore, unsupportedDatabase: bool, now: nat, later: nat)
    returns (first: Result<Report, StoreError>, between: Rows, second: Result<Report, StoreError>)
    requires store.preferences.Validate()
    modifies store`rows, store`quarantined
    ensures first.Ok? ==> second.Ok? && second.value.recovered == 0 && second.value.capacityExceeded == 0
    ensures first.Ok? ==> Nonterminal(store.rows) == Nonterminal(between)
    ensures first.Ok? ==> forall id :: id in Nonterminal(between) ==> id in store.rows && id in between && store.rows[id] == between[id]
  {
    hide First, Nonterminal, Overflow, Survivors, Unreadable, InFlightIds, ToInterrupt, Recovered, Interruptible;
    first := RecoverAfterRestart(store, unsupportedDatabase, now);
    between := store.rows;
    if first.Err? { return first, between, first; }
    NothingToInterrupt(between);
    second := RecoverAfterRestart(store, unsupportedDatabase, later);
    NothingInterrupted(between, store.rows, later);
  }

  lemma NothingToInterrupt(rows: Rows)
    requires InFlightIds(rows) == {} && Unreadable(rows) == {} && |Nonterminal(rows)| <= MAX_RECOVERY_RECORDS
    ensures ToInterrupt(rows) == {}
    ensures (set id | id in Survivors(rows) && rows[id].readable) == Nonterminal(rows)
  {
    NothingOverflows(rows);
    hide First;
    forall id | id in rows
      ensures !rows[id].status.InFlight() && rows[id].readable
    {
      assert id !in InFlightIds(rows) && id !in Unreadable(rows);
    }
    forall id | id in Nonterminal(rows)
      ensures id in Survivors(rows)
    {
      assert id !in Overflow(rows);
    }
  }

  lemma NothingInterrupted(before: Rows, after: Rows, now: nat)
    requires InFlightIds(before) == {} && Nonterminal(after) == Nonterminal(before)
    requires forall id :: id in Nonterminal(after) ==> id in before && Recovered(before[id], after[id], now)
    ensures forall id :: id in Nonterminal(before) ==> id in after && id in before && after[id] == before[id]
  {
    forall id | id in Nonterminal(before)
      ensures id in after && id in before && after[id] == before[id]
    {
      assert id in Nonterminal(after) && id !in InFlightIds(before);
    }
  }
}
