/** How often a waiting task can be overtaken: runs of the worker, the admissions and the removals over
    the task table. */
module Fairness {
  import opened FiniteSets
  import opened Wrappers
  import opened TaskModel
  import opened Scheduler
  import opened TaskTable

  /** The table, and the task that the worker has chosen but not yet started: it lets go of the lock
      between the two. */
  datatype State = State(rows: Rows, pick: Option<nat>)

  ghost predicate BoundedBy(rows: Rows, highest: nat) {
    forall id :: id in rows ==> rows[id].queueOrder <= highest
  }

  /** A new queued task gets the order after the highest one in the whole table; identifiers are new. */
  ghost predicate Admits(a: State, b: State, id: nat, row: Row) {
    && id !in a.rows && a.pick != Some(id) && row.status == Queued && row.queueOrder > 0
    && IsMaximumOrder(a.rows, a.rows.Keys, row.queueOrder - 1)
    && b == State(a.rows[id := row], a.pick)
  }

  ghost predicate Chooses(a: State, b: State) {
    && b.rows == a.rows && b.pick.Some? && IsNext(a.rows, b.pick.value)
  }

  /** The worker takes the lock again: a task that is no longer queued is dropped. */
  ghost predicate Starts(a: State, b: State) {
    && a.pick.Some? && b.pick == None
    && b.rows == if a.pick.value in QueuedIds(a.rows)
                 then a.rows[a.pick.value := a.rows[a.pick.value].(status := Running)] else a.rows
  }

  /** Anything that happens to rows without requeueing, reordering or a priority change. */
  ghost predicate Updates(a: State, b: State) {
    && b.pick == a.pick && b.rows.Keys == a.rows.Keys
    && forall id :: id in a.rows ==>
         && b.rows[id].queueOrder == a.rows[id].queueOrder && b.rows[id].priority == a.rows[id].priority
         && (b.rows[id].status == Queued ==> a.rows[id].status == Queued)
         && (a.rows[id].status == Queued ==> b.rows[id].status == Queued || b.rows[id].status == Cancelled)
  }

  /** Removal of terminal rows, by hand or by pruning. */
  ghost predicate Removes(a: State, b: State) {
    && b.pick == a.pick && b.rows.Keys <= a.rows.Keys
    && (forall id :: id in b.rows ==> b.rows[id] == a.rows[id])
    && Nonterminal(a.rows) <= b.rows.Keys
  }

  ghost predicate AdmitsSome(a: State, b: State) {
    exists id, row :: Admits(a, b, id, row)
  }

  ghost predicate Step(a: State, b: State) {
    AdmitsSome(a, b) || Chooses(a, b) || Starts(a, b) || Updates(a, b) || Removes(a, b)
  }

  /** None of `used` lies above everything in the table. */
  ghost predicate Keeps(s: State, used: set<nat>) {
    forall order, highest: nat :: order in used && BoundedBy(s.rows, highest) ==> order <= highest
  }

  /** A run in which task `w` is queued throughout. The worker's choice at its start, if any, is not a
      later task than `w`. */
  ghost predicate IsRun(run: seq<State>, w: nat) {
    && |run| > 0 && OrdersUnique(run[0].rows)
    && (forall id :: id in QueuedIds(run[0].rows) ==> run[0].rows[id].queueOrder != 0)
    && (forall k :: 0 <= k < |run| ==> w in QueuedIds(run[k].rows))
    && (run[0].pick.Some? && run[0].pick.value in run[0].rows
        ==> run[0].rows[run[0].pick.value].queueOrder <= run[0].rows[w].queueOrder)
    && forall k :: 0 <= k < |run| - 1 ==> Step(run[k], run[k + 1])
  }

  /** A step that starts a queued task with a higher order than `w`. */
  ghost predicate Overtakes(a: State, b: State, w: nat) {
    && w in a.rows && a.pick.Some? && a.pick.value in QueuedIds(a.rows) && b.pick.None?
    && b.rows == a.rows[a.pick.value := a.rows[a.pick.value].(status := Running)]
    && a.rows[w].queueOrder < a.rows[a.pick.value].queueOrder
  }

  /** How many of the first `n` steps overtake `w`. */
  ghost function TimesOvertaken(run: seq<State>, w: nat, n: nat): nat
    requires n < |run|
  {
    if n == 0 then 0
    else TimesOvertaken(run, w, n - 1) + if Overtakes(run[n - 1], run[n], w) then 1 else 0
  }

  /** Orders below which the scheduler may still prefer a later task to `w`. */
  function WindowEnd(row: Row): nat {
    row.queueOrder + FAIRNESS_ADMISSION_WINDOW * row.priority.Rank()
  }

  /** Orders below which it may still prefer a later task of the given priority. */
  function WindowEndAgainst(row: Row, priority: Priority): int {
    row.queueOrder + FAIRNESS_ADMISSION_WINDOW * (row.priority.Rank() - priority.Rank())
  }

  /** The scheduler picks a later task only within the window of eight orders for each rank that the later
      task stands above the waiting one. */
  lemma ChosenWithinWindow(rows: Rows, chosen: nat, w: nat)
    requires IsNext(rows, chosen) && w in QueuedIds(rows)
    ensures || rows[chosen].queueOrder <= rows[w].queueOrder
            || rows[chosen].queueOrder < WindowEndAgainst(rows[w], rows[chosen].priority)
  {
    hide RunsBefore, IsNext;
    assert chosen in QueuedIds(rows) by { NextIsQueued(rows, chosen); }
    NextRunsBeforeAll(rows, chosen);
  }

  lemma NextIsQueued(rows: Rows, id: nat)
    requires IsNext(rows, id)
    ensures id in QueuedIds(rows)
  {
  }

  /** The orders with which the first `n` steps of a run overtake `w`. */
  ghost function SpentOrders(run: seq<State>, w: nat, n: nat): set<nat>
    requires n < |run|
  {
    if n == 0 then {} else Using(run[n - 1], run[n], w, SpentOrders(run, w, n - 1))
  }

  /** Step `k` leaves some row at or above every order spent before it. Only a removal can fail this. */
  ghost predicate KeepsSpent(run: seq<State>, w: nat, k: nat)
    requires k + 1 < |run|
  {
    Keeps(run[k + 1], SpentOrders(run, w, k))
  }

  /** A step that, if it lowers the highest order in the table, leaves it at the end of the window of
      `w` or beyond. */
  ghost predicate KeepsWindow(a: State, b: State, w: nat) {
    w in a.rows && forall highest: nat :: BoundedBy(b.rows, highest)
                                          ==> BoundedBy(a.rows, highest) || highest + 1 >= WindowEnd(a.rows[w])
  }

  // ----- The invariant of a run -----

  ghost predicate PickWithinWindow(s: State, w: nat)
    requires w in s.rows
  {
    s.pick.Some? && s.pick.value in s.rows ==>
      || s.rows[s.pick.value].queueOrder <= s.rows[w].queueOrder
      || s.rows[s.pick.value].queueOrder < WindowEndAgainst(s.rows[w], s.rows[s.pick.value].priority)
  }

  /** `used` holds the orders that have overtaken `w` so far: none of them is queued or will be. */
  ghost predicate Spent(s: State, w: nat, used: set<nat>)
    requires w in s.rows
  {
    && (forall order :: order in used ==> s.rows[w].queueOrder < order < WindowEnd(s.rows[w]))
    && (forall id :: id in QueuedIds(s.rows) ==> s.rows[id].queueOrder !in used)
    && Keeps(s, used)
  }

  ghost predicate Fair(s: State, w: nat, used: set<nat>) {
    && w in QueuedIds(s.rows) && OrdersUnique(s.rows) && PickWithinWindow(s, w) && Spent(s, w, used)
    && forall id :: id in QueuedIds(s.rows) ==> s.rows[id].queueOrder != 0
  }

  ghost function Using(a: State, b: State, w: nat, used: set<nat>): set<nat> {
    if Overtakes(a, b, w) then used + {a.rows[a.pick.value].queueOrder} else used
  }

  lemma AdmissionKeepsFair(a: State, b: State, w: nat, used: set<nat>, id: nat, row: Row)
    requires Fair(a, w, used) && Admits(a, b, id, row)
    ensures Fair(b, w, used) && b.rows[w] == a.rows[w]
  {
    assert BoundedBy(a.rows, row.queueOrder - 1);
    assert forall x :: x in a.rows ==> a.rows[x].queueOrder <= row.queueOrder - 1;
    assert OrdersUnique(b.rows);
    forall order, highest: nat | order in used && BoundedBy(b.rows, highest)
      ensures order <= highest
    {
      assert b.rows[id].queueOrder <= highest;
      assert order <= row.queueOrder - 1;
    }
    forall x | x in QueuedIds(b.rows)
      ensures b.rows[x].queueOrder !in used && b.rows[x].queueOrder != 0
    {
      if x != id { assert x in QueuedIds(a.rows); }
    }
  }

  lemma StartKeepsFair(a: State, b: State, w: nat, used: set<nat>)
    requires Fair(a, w, used) && Starts(a, b) && w in QueuedIds(b.rows)
    ensures Fair(b, w, Using(a, b, w, used)) && b.rows[w] == a.rows[w]
    ensures Overtakes(a, b, w) ==> a.rows[a.pick.value].queueOrder !in used
  {
    var c := a.pick.value;
    if c in QueuedIds(a.rows) {
      hide WindowEnd;
      assert c != w;
      assert a.rows[c].queueOrder != a.rows[w].queueOrder;
      assert forall x :: x in QueuedIds(b.rows) <==> x in QueuedIds(a.rows) && x != c;
      assert forall highest: nat :: BoundedBy(b.rows, highest) ==> BoundedBy(a.rows, highest) && b.rows[c].queueOrder <= highest;
    }
  }

  lemma UpdateKeepsFair(a: State, b: State, w: nat, used: set<nat>)
    requires Fair(a, w, used) && Updates(a, b) && w in QueuedIds(b.rows)
    ensures Fair(b, w, used)
    ensures b.rows[w].queueOrder == a.rows[w].queueOrder && b.rows[w].priority == a.rows[w].priority
  {
    forall highest: nat | BoundedBy(b.rows, highest)
      ensures BoundedBy(a.rows, highest)
    {
      assert forall x :: x in a.rows ==> b.rows[x].queueOrder <= highest;
    }
    assert forall x :: x in QueuedIds(b.rows) ==> x in QueuedIds(a.rows);
    assert OrdersUnique(b.rows);
  }

  lemma RemovalKeepsFair(a: State, b: State, w: nat, used: set<nat>)
    requires Fair(a, w, used) && Removes(a, b) && Keeps(b, used)
    ensures Fair(b, w, used) && b.rows[w] == a.rows[w]
  {
    assert w in Nonterminal(a.rows);
    assert forall x :: x in QueuedIds(b.rows) ==> x in QueuedIds(a.rows);
    assert OrdersUnique(b.rows);
  }

  lemma StepKeepsFair(a: State, b: State, w: nat, used: set<nat>)
    requires Fair(a, w, used) && Step(a, b) && Keeps(b, used) && w in QueuedIds(b.rows)
    ensures Fair(b, w, Using(a, b, w, used))
    ensures b.rows[w].queueOrder == a.rows[w].queueOrder && b.rows[w].priority == a.rows[w].priority
    ensures Overtakes(a, b, w) ==> a.rows[a.pick.value].queueOrder !in used
  {
    hide Fair, Keeps, Admits, Updates, Removes;
    if Starts(a, b) {
      StartKeepsFair(a, b, w, used);
    } else {
      OvertakingIsStarting(a, b, w);
      hide Overtakes, Starts;
      if AdmitsSome(a, b) {
        var id, row :| Admits(a, b, id, row);
        AdmissionKeepsFair(a, b, w, used, id, row);
      } else if Chooses(a, b) {
        ChoiceKeepsFair(a, b, w, used);
      } else if Updates(a, b) {
        UpdateKeepsFair(a, b, w, used);
      } else {
        RemovalKeepsFair(a, b, w, used);
      }
    }
  }

  lemma OvertakingIsStarting(a: State, b: State, w: nat)
    requires !Starts(a, b)
    ensures !Overtakes(a, b, w)
  {
  }

  lemma ChoiceKeepsFair(a: State, b: State, w: nat, used: set<nat>)
    requires Fair(a, w, used) && Chooses(a, b)
    ensures Fair(b, w, used) && b.rows[w] == a.rows[w]
  {
    hide IsNext;
    ChosenWithinWindow(a.rows, b.pick.value, w);
  }

  lemma {:induction false} RunStaysFair(run: seq<State>, w: nat, n: nat)
    requires IsRun(run, w) && n < |run|
    requires forall k :: 0 <= k < n ==> KeepsSpent(run, w, k)
    ensures Fair(run[n], w, SpentOrders(run, w, n)) && |SpentOrders(run, w, n)| == TimesOvertaken(run, w, n)
    ensures run[n].rows[w].queueOrder == run[0].rows[w].queueOrder && run[n].rows[w].priority == run[0].rows[w].priority
  {
    hide Step, Keeps, Overtakes, Fair, IsRun, QueuedIds;
    if n == 0 {
      RunBegins(run, w);
    } else {
      RunStaysFair(run, w, n - 1);
      RunContinues(run, w, n - 1);
      assert KeepsSpent(run, w, n - 1);
      StepKeepsFair(run[n - 1], run[n], w, SpentOrders(run, w, n - 1));
    }
  }

  lemma RunBegins(run: seq<State>, w: nat)
    requires IsRun(run, w)
    ensures Fair(run[0], w, {})
  {
    hide Step;
  }

  lemma RunContinues(run: seq<State>, w: nat, k: nat)
    requires IsRun(run, w) && k + 1 < |run|
    ensures Step(run[k], run[k + 1]) && w in QueuedIds(run[k + 1].rows)
  {
    hide Step;
  }

  lemma {:induction false} WindowSize(used: set<nat>, low: nat, high: nat)
    requires forall order :: order in used ==> low < order < high
    ensures |used| <= if low + 1 < high then high - low - 1 else 0
    decreases high
  {
    if used == {} {
    } else {
      var some :| some in used;
      assert low < some < high;
      WindowSize(used - {high - 1}, low, high - 1);
    }
  }

  /** A High task is never overtaken, a Normal one at most 7 times and a Low one at most 15 times, in
      every run whose steps keep some row at or above each order that has already overtaken it. */
  lemma OvertakingIsBounded(run: seq<State>, w: nat)
    requires IsRun(run, w)
    requires forall k :: 0 <= k < |run| - 1 ==> KeepsSpent(run, w, k)
    ensures TimesOvertaken(run, w, |run| - 1)
            <= match run[0].rows[w].priority case High => 0 case Normal => 7 case Low => 15
  {
    RunStaysFair(run, w, |run| - 1);
    WindowSize(SpentOrders(run, w, |run| - 1), run[0].rows[w].queueOrder, WindowEnd(run[0].rows[w]));
  }

  // ----- Who overtakes -----

  ghost function OvertakingOrder(a: State): nat {
    if a.pick.Some? && a.pick.value in a.rows then a.rows[a.pick.value].queueOrder else 0
  }

  ghost predicate OvertakesAs(a: State, b: State, w: nat, priority: Priority) {
    Overtakes(a, b, w) && a.rows[a.pick.value].priority == priority
  }

  /** How many of the first `n` steps start a later task of the given priority before `w`. */
  ghost function TimesOvertakenBy(run: seq<State>, w: nat, n: nat, priority: Priority): nat
    requires n < |run|
  {
    if n == 0 then 0
    else TimesOvertakenBy(run, w, n - 1, priority) + if OvertakesAs(run[n - 1], run[n], w, priority) then 1 else 0
  }

  ghost function UsingBy(a: State, b: State, w: nat, spent: set<nat>, priority: Priority): set<nat> {
    if OvertakesAs(a, b, w, priority) then spent + {OvertakingOrder(a)} else spent
  }

  ghost function SpentBy(run: seq<State>, w: nat, n: nat, priority: Priority): set<nat>
    requires n < |run|
  {
    if n == 0 then {} else UsingBy(run[n - 1], run[n], w, SpentBy(run, w, n - 1, priority), priority)
  }

  ghost predicate InWindowAgainst(spent: set<nat>, row: Row, priority: Priority) {
    forall order :: order in spent ==> row.queueOrder < order < WindowEndAgainst(row, priority)
  }

  lemma SpentByStep(a: State, b: State, w: nat, used: set<nat>, spent: set<nat>, priority: Priority)
    requires Fair(a, w, used) && Step(a, b) && Keeps(b, used) && w in QueuedIds(b.rows) && spent <= used
    requires w in a.rows && InWindowAgainst(spent, a.rows[w], priority)
    ensures UsingBy(a, b, w, spent, priority) <= Using(a, b, w, used)
    ensures |UsingBy(a, b, w, spent, priority)| == |spent| + if OvertakesAs(a, b, w, priority) then 1 else 0
    ensures InWindowAgainst(UsingBy(a, b, w, spent, priority), a.rows[w], priority)
  {
    hide Step, Keeps, WindowEndAgainst;
    StepKeepsFair(a, b, w, used);
    if OvertakesAs(a, b, w, priority) {
      OvertakerWithinWindow(a, b, w, used);
    }
  }

  lemma {:induction false} SpentByPriority(run: seq<State>, w: nat, n: nat, priority: Priority)
    requires IsRun(run, w) && n < |run|
    requires forall k :: 0 <= k < n ==> KeepsSpent(run, w, k)
    ensures SpentBy(run, w, n, priority) <= SpentOrders(run, w, n)
    ensures |SpentBy(run, w, n, priority)| == TimesOvertakenBy(run, w, n, priority)
    ensures w in run[0].rows && InWindowAgainst(SpentBy(run, w, n, priority), run[0].rows[w], priority)
  {
    hide Step, Keeps, OvertakesAs, Fair, IsRun, QueuedIds, Using, UsingBy, InWindowAgainst;
    RunStaysFair(run, w, 0);
    FairHasTask(run[0], w, SpentOrders(run, w, 0));
    if n == 0 {
      NothingSpentYet(run[0].rows[w], priority);
    } else {
      SpentByPriority(run, w, n - 1, priority);
      RunStaysFair(run, w, n - 1);
      RunContinues(run, w, n - 1);
      assert KeepsSpent(run, w, n - 1);
      var used, spent := SpentOrders(run, w, n - 1), SpentBy(run, w, n - 1, priority);
      FairHasTask(run[n - 1], w, used);
      SameWindow(spent, run[0].rows[w], run[n - 1].rows[w], priority);
      SpentByStep(run[n - 1], run[n], w, used, spent, priority);
      SameWindow(SpentBy(run, w, n, priority), run[n - 1].rows[w], run[0].rows[w], priority);
    }
  }

  lemma NothingSpentYet(row: Row, priority: Priority)
    ensures InWindowAgainst({}, row, priority)
  {
  }

  lemma SameWindow(spent: set<nat>, a: Row, b: Row, priority: Priority)
    requires a.queueOrder == b.queueOrder && a.priority == b.priority
    ensures InWindowAgainst(spent, a, priority) <==> InWindowAgainst(spent, b, priority)
  {
  }

  lemma FairHasTask(s: State, w: nat, used: set<nat>)
    requires Fair(s, w, used)
    ensures w in s.rows
  {
  }

  lemma OvertakerWithinWindow(a: State, b: State, w: nat, used: set<nat>)
    requires Fair(a, w, used) && Overtakes(a, b, w)
    ensures a.rows[w].queueOrder < OvertakingOrder(a) < WindowEndAgainst(a.rows[w], a.rows[a.pick.value].priority)
    ensures Using(a, b, w, used) == used + {OvertakingOrder(a)} && OvertakingOrder(a) == a.rows[a.pick.value].queueOrder
  {
  }

  /** No task is overtaken by one of its own or a lower priority, a Low one at most 7 times by Normal ones,
      and by High ones a Normal one at most 7 and a Low one at most 15 times. */
  lemma OvertakingByPriorityIsBounded(run: seq<State>, w: nat, priority: Priority)
    requires IsRun(run, w)
    requires forall k :: 0 <= k < |run| - 1 ==> KeepsSpent(run, w, k)
    ensures TimesOvertakenBy(run, w, |run| - 1, priority)
            <= match (run[0].rows[w].priority, priority)
               case (Normal, High) => 7
               case (Low, High) => 15
               case (Low, Normal) => 7
               case _ => 0
  {
    hide KeepsSpent, QueuedIds;
    SpentByPriority(run, w, |run| - 1, priority);
    var spent := SpentBy(run, w, |run| - 1, priority);
    var low, end := run[0].rows[w].queueOrder, WindowEndAgainst(run[0].rows[w], priority);
    if end <= low {
      assert forall order :: order in spent ==> low < order < low;
      WindowSize(spent, low, low);
    } else {
      WindowSize(spent, low, end);
    }
  }

  /** It is enough that no removal lowers the highest order below the end of the window. */
  lemma {:induction false} WindowKeepsSpent(run: seq<State>, w: nat, n: nat)
    requires IsRun(run, w) && n < |run|
    requires forall k :: 0 <= k < n ==> KeepsWindow(run[k], run[k + 1], w)
    ensures forall k :: 0 <= k < n ==> KeepsSpent(run, w, k)
  {
    hide Step, Overtakes, IsRun, Fair, Keeps, KeepsWindow;
    if n > 0 {
      WindowKeepsSpent(run, w, n - 1);
      RunStaysFair(run, w, n - 1);
      WindowKeeps(run[n - 1], run[n - 1 + 1], w, SpentOrders(run, w, n - 1));
      assert KeepsSpent(run, w, n - 1);
    }
  }

  lemma WindowKeeps(a: State, b: State, w: nat, used: set<nat>)
    requires Fair(a, w, used) && KeepsWindow(a, b, w)
    ensures Keeps(b, used)
  {
    hide BoundedBy, WindowEnd, OrdersUnique;
  }

  // ----- And only then -----

  lemma {:induction false} FreshId(rows: Rows) returns (id: nat)
    ensures forall other :: other in rows ==> other < id
    decreases |rows|
  {
    if rows == map[] {
      return 0;
    }
    var some :| some in rows;
    var rest := rows - {some};
    assert rest.Keys == rows.Keys - {some};
    id := FreshId(rest);
    assert forall other :: other in rows ==> other == some || other in rest;
    if id <= some {
      id := some + 1;
    }
  }

  lemma {:induction false} HighestOrder(rows: Rows) returns (highest: nat)
    ensures IsMaximumOrder(rows, rows.Keys, highest)
    decreases |rows|
  {
    if rows == map[] {
      return 0;
    }
    var some :| some in rows;
    var rest := rows - {some};
    assert rest.Keys == rows.Keys - {some};
    highest := HighestOrder(rest);
    assert forall other :: other in rows ==> other == some || (other in rest && rest[other] == rows[other]);
    if highest <= rows[some].queueOrder {
      highest := rows[some].queueOrder;
    }
  }

  /** A run with `w` queued throughout, without the conditions on where it starts. */
  ghost predicate Continues(run: seq<State>, w: nat) {
    && |run| > 0 && (forall k :: 0 <= k < |run| ==> w in QueuedIds(run[k].rows))
    && forall k :: 0 <= k < |run| - 1 ==> Step(run[k], run[k + 1])
  }

  lemma Extend(run: seq<State>, w: nat, next: State)
    requires Continues(run, w) && Step(run[|run| - 1], next) && w in QueuedIds(next.rows)
    ensures Continues(run + [next], w)
  {
    hide Step, QueuedIds;
    var longer := run + [next];
    forall k | 0 <= k < |longer| - 1
      ensures Step(longer[k], longer[k + 1])
    {
      if k < |run| - 1 { assert longer[k + 1] == run[k + 1]; }
    }
  }

  /** From any table below an order, admissions alone reach a High task with exactly that order. */
  lemma {:induction false} AdmitUpTo(s: State, w: nat, order: nat, highest: nat) returns (run: seq<State>, later: nat)
    requires w in QueuedIds(s.rows) && IsMaximumOrder(s.rows, s.rows.Keys, highest) && highest < order
    ensures Continues(run, w) && run[0] == s
    ensures var last := run[|run| - 1];
            && later != w && later in QueuedIds(last.rows) && last.rows[later] == Waiting(High, order)
            && last.rows[w] == s.rows[w]
    decreases order - highest
  {
    var bound := FreshId(s.rows);
    var id := if s.pick == Some(bound) then bound + 1 else bound;
    var row := Waiting(High, highest + 1);
    var next := State(s.rows[id := row], s.pick);
    assert Admits(s, next, id, row);
    assert AdmitsSome(s, next);
    assert IsMaximumOrder(next.rows, next.rows.Keys, highest + 1) by {
      assert next.rows[id].queueOrder == highest + 1;
    }
    if highest + 1 == order {
      Extend([s], w, next);
      return [s, next], id;
    }
    var rest;
    rest, later := AdmitUpTo(next, w, order, highest + 1);
    run := [s] + rest;
    Prepend(s, w, rest);
  }

  lemma Prepend(s: State, w: nat, rest: seq<State>)
    requires Continues(rest, w) && Step(s, rest[0]) && w in QueuedIds(s.rows)
    ensures Continues([s] + rest, w)
  {
    hide Step, QueuedIds;
    var run := [s] + rest;
    forall k | 0 <= k < |run| - 1
      ensures Step(run[k], run[k + 1])
    {
      if k > 0 { assert run[k] == rest[k - 1] && run[k + 1] == rest[k]; }
    }
  }

  /** All queued tasks but two are cancelled. */
  function OnlyQueued(rows: Rows, a: nat, b: nat): Rows {
    map id | id in rows :: if rows[id].status == Queued && id != a && id != b then rows[id].(status := Cancelled) else rows[id]
  }

  lemma LaterIsNext(rows: Rows, w: nat, later: nat)
    requires w in rows && later in rows && later != w && QueuedIds(rows) == {w, later}
    requires rows[later].priority == High && rows[w].queueOrder < rows[later].queueOrder < WindowEnd(rows[w])
    ensures IsNext(rows, later)
  {
    var maximum := rows[later].queueOrder;
    assert IsMaximumOrder(rows, QueuedIds(rows), maximum);
    var waited := maximum - rows[w].queueOrder;
    assert waited / FAIRNESS_ADMISSION_WINDOW < rows[w].priority.Rank();
    var keys := SchedulerKeys(rows, maximum);
    assert keys[later].rank == 0 && keys[w].rank > 0;
  }

  /** Whatever the table, an order of the window that lies above all of it can still overtake `w`. */
  lemma OrderCanOvertake(s: State, w: nat, order: nat) returns (run: seq<State>)
    requires w in QueuedIds(s.rows) && s.rows[w].queueOrder < order < WindowEnd(s.rows[w]) && BoundedBy(s.rows, order - 1)
    ensures Continues(run, w) && |run| >= 2 && run[0] == s
    ensures Overtakes(run[|run| - 2], run[|run| - 1], w) && OvertakingOrder(run[|run| - 2]) == order
  {
    var highest := HighestOrder(s.rows);
    assert highest < order;
    var later;
    run, later := AdmitUpTo(s, w, order, highest);
    var a := run[|run| - 1];
    assert w in QueuedIds(a.rows) by { assert a.rows[w] == s.rows[w]; }
    hide Continues, WindowEnd, IsMaximumOrder, Step, Overtakes;
    var quiet, chosen, started := LaterOvertakes(a, w, later);
    Extend(run, w, quiet);
    Extend(run + [quiet], w, chosen);
    Extend(run + [quiet] + [chosen], w, started);
    HeadOfExtension(run, [quiet] + [chosen] + [started]);
    assert run + [quiet] + [chosen] + [started] == run + ([quiet] + [chosen] + [started]);
    run := run + [quiet] + [chosen] + [started];
  }

  /** A High task of the window overtakes `w` once the other queued tasks are cancelled. */
  lemma LaterOvertakes(a: State, w: nat, later: nat) returns (quiet: State, chosen: State, started: State)
    requires w in QueuedIds(a.rows) && later in QueuedIds(a.rows) && later != w && a.rows[later].priority == High
    requires a.rows[w].queueOrder < a.rows[later].queueOrder < WindowEnd(a.rows[w])
    ensures Step(a, quiet) && Step(quiet, chosen) && Step(chosen, started) && Overtakes(chosen, started, w)
    ensures w in QueuedIds(quiet.rows) && w in QueuedIds(chosen.rows) && w in QueuedIds(started.rows)
    ensures OvertakingOrder(chosen) == a.rows[later].queueOrder
  {
    hide WindowEnd, IsMaximumOrder, IsNext;
    quiet := State(OnlyQueued(a.rows, w, later), a.pick);
    assert Updates(a, quiet);
    assert QueuedIds(quiet.rows) == {w, later};
    LaterIsNext(quiet.rows, w, later);
    chosen := State(quiet.rows, Some(later));
    assert Chooses(quiet, chosen);
    started := State(quiet.rows[later := quiet.rows[later].(status := Running)], None);
    assert Starts(chosen, started);
  }

  lemma HeadOfExtension(run: seq<State>, more: seq<State>)
    requires |run| > 0
    ensures (run + more)[0] == run[0]
  {
  }

  lemma {:induction false} SpentWasUsed(run: seq<State>, w: nat, n: nat, order: nat) returns (i: nat)
    requires n < |run| && order in SpentOrders(run, w, n)
    ensures i < n && Overtakes(run[i], run[i + 1], w) && OvertakingOrder(run[i]) == order
  {
    hide Step;
    if order in SpentOrders(run, w, n - 1) {
      i := SpentWasUsed(run, w, n - 1, order);
    } else {
      i := n - 1;
    }
  }

  /** The condition is exact: a first step that leaves the whole table below an order already spent can
      be followed so that the same order overtakes `w` a second time. */
  lemma UnkeptOrderOvertakesAgain(run: seq<State>, w: nat, k: nat) returns (longer: seq<State>, i: nat, j: nat)
    requires IsRun(run, w) && k + 1 < |run| && !KeepsSpent(run, w, k)
    requires forall m :: 0 <= m < k ==> KeepsSpent(run, w, m)
    ensures IsRun(longer, w) && k + 2 <= |longer| && longer[..k + 2] == run[..k + 2]
    ensures i < k < j < |longer| - 1
    ensures Overtakes(longer[i], longer[i + 1], w) && Overtakes(longer[j], longer[j + 1], w)
    ensures OvertakingOrder(longer[i]) == OvertakingOrder(longer[j])
  {
    RunStaysFair(run, w, k);
    var order, highest: nat :| order in SpentOrders(run, w, k) && BoundedBy(run[k + 1].rows, highest) && order > highest;
    i := SpentWasUsed(run, w, k, order);
    RunContinues(run, w, k);
    hide Overtakes, KeepsSpent, SpentOrders;
    WaitingRowIsKept(run[k], run[k + 1], w);
    assert BoundedBy(run[k + 1].rows, order - 1);
    var tail := OrderCanOvertake(run[k + 1], w, order);
    longer := run[..k + 1] + tail;
    j := k + 1 + |tail| - 2;
    Rejoin(run, w, k, tail);
    assert longer[i] == run[i] && longer[i + 1] == run[i + 1];
    assert longer[j] == tail[|tail| - 2] && longer[j + 1] == tail[|tail| - 1];
  }

  lemma WaitingRowIsKept(a: State, b: State, w: nat)
    requires Step(a, b) && w in QueuedIds(a.rows) && w in QueuedIds(b.rows)
    ensures b.rows[w].queueOrder == a.rows[w].queueOrder && b.rows[w].priority == a.rows[w].priority
  {
  }

  lemma Rejoin(run: seq<State>, w: nat, k: nat, tail: seq<State>)
    requires IsRun(run, w) && k + 1 < |run| && Continues(tail, w) && tail[0] == run[k + 1]
    ensures IsRun(run[..k + 1] + tail, w) && (run[..k + 1] + tail)[..k + 2] == run[..k + 2]
  {
    hide Step, QueuedIds, OrdersUnique;
    var longer := run[..k + 1] + tail;
    forall m | 0 <= m < |longer|
      ensures w in QueuedIds(longer[m].rows)
    {
      if m <= k { assert longer[m] == run[m]; } else { assert longer[m] == tail[m - k - 1]; }
    }
    forall m | 0 <= m < |longer| - 1
      ensures Step(longer[m], longer[m + 1])
    {
      if m < k {
        assert longer[m] == run[m] && longer[m + 1] == run[m + 1];
      } else if m == k {
        assert longer[m] == run[k] && longer[m + 1] == run[k + 1] && Step(run[k], run[k + 1]);
      } else {
        assert longer[m] == tail[m - k - 1] && longer[m + 1] == tail[m - k];
      }
    }
    assert longer[0] == run[0];
  }

  // ----- The store operations as steps -----

  /** `insert` of a queued task is an admission and then the removals of its pruning. */
  lemma InsertIsAdmission(rows: Rows, pick: Option<nat>, id: nat, row: Row, preferences: Preferences, now: nat) returns (admitted: State)
    requires id !in rows && pick != Some(id) && row.status == Queued && row.queueOrder > 0
    requires IsMaximumOrder(rows, rows.Keys, row.queueOrder - 1)
    ensures Admits(State(rows, pick), admitted, id, row)
    ensures Removes(admitted, State(Pruned(rows[id := row], preferences, now), pick))
  {
    PruneKeeps(rows[id := row], preferences, now);
    return State(rows[id := row], pick);
  }

  /** A `mutate` that neither requeues nor changes the priority is an update and then removals. */
  lemma MutateIsUpdate(rows: Rows, pick: Option<nat>, id: nat, fields: Fields, preferences: Preferences, now: nat) returns (updated: State)
    requires id in rows && fields.priority == rows[id].priority
    requires fields.status == Queued ==> rows[id].status == Queued
    requires rows[id].status == Queued ==> fields.status == Queued || fields.status == Cancelled
    ensures Updates(State(rows, pick), updated)
    ensures Removes(updated, State(Pruned(rows[id := Mutated(rows[id], fields, now)], preferences, now), pick))
  {
    var written := rows[id := Mutated(rows[id], fields, now)];
    PruneKeeps(written, preferences, now);
    return State(written, pick);
  }

  /** The `mutate` by which the worker starts its choice is a start, an update of the row's revision and
      time stamp, and then removals. */
  lemma MutateIsStart(rows: Rows, id: nat, fields: Fields, preferences: Preferences, now: nat) returns (started: State, updated: State)
    requires id in QueuedIds(rows) && fields.priority == rows[id].priority && fields.status == Running
    ensures Starts(State(rows, Some(id)), started) && Updates(started, updated)
    ensures Removes(updated, State(Pruned(rows[id := Mutated(rows[id], fields, now)], preferences, now), None))
  {
    var written := rows[id := Mutated(rows[id], fields, now)];
    PruneKeeps(written, preferences, now);
    return State(rows[id := rows[id].(status := Running)], None), State(written, None);
  }

  // ----- The bound is reached -----

  function Waiting(priority: Priority, order: nat): Row {
    Row(1, 1, 0, Queued, priority, order, false, true)
  }

  /** Task 0 waits first; tasks 1 to 8r - 1 are High and came after it; the first `started` of them run. */
  function CrowdRow(priority: Priority, started: nat, id: nat): Row {
    if id == 0 then Waiting(priority, 1)
    else if id <= started then Waiting(High, id + 1).(status := Running) else Waiting(High, id + 1)
  }

  function Crowd(priority: Priority, started: nat): Rows {
    map id | id in Below(FAIRNESS_ADMISSION_WINDOW * priority.Rank()) :: CrowdRow(priority, started, id)
  }

  function CrowdState(priority: Priority, i: nat): State {
    State(Crowd(priority, i / 2), if i % 2 == 0 then None else Some(i / 2 + 1))
  }

  lemma CrowdKey(priority: Priority, started: nat, id: nat)
    requires priority != High && id in QueuedIds(Crowd(priority, started))
    ensures id < FAIRNESS_ADMISSION_WINDOW * priority.Rank() && (id == 0 || id > started)
    ensures id in SchedulerKeys(Crowd(priority, started), FAIRNESS_ADMISSION_WINDOW * priority.Rank())
    ensures SchedulerKeys(Crowd(priority, started), FAIRNESS_ADMISSION_WINDOW * priority.Rank())[id]
            == if id == 0 then Key(1, 1) else Key(0, id + 1)
  {
    hide Below;
  }

  lemma CrowdMaximum(priority: Priority, started: nat)
    requires priority != High && started + 1 < FAIRNESS_ADMISSION_WINDOW * priority.Rank()
    ensures IsMaximumOrder(Crowd(priority, started), QueuedIds(Crowd(priority, started)),
                           FAIRNESS_ADMISSION_WINDOW * priority.Rank())
    ensures started + 1 in QueuedIds(Crowd(priority, started))
  {
    hide Below;
    var n := FAIRNESS_ADMISSION_WINDOW * priority.Rank();
    var rows := Crowd(priority, started);
    assert n - 1 in QueuedIds(rows) && rows[n - 1].queueOrder == n;
  }

  lemma CrowdChooses(priority: Priority, started: nat)
    requires priority != High && started + 1 < FAIRNESS_ADMISSION_WINDOW * priority.Rank()
    ensures IsNext(Crowd(priority, started), started + 1)
  {
    hide Crowd, SchedulerKeys, QueuedIds, IsMaximumOrder;
    var n := FAIRNESS_ADMISSION_WINDOW * priority.Rank();
    CrowdMaximum(priority, started);
    CrowdKey(priority, started, started + 1);
    forall other | other in QueuedIds(Crowd(priority, started)) && other != started + 1
      ensures other in SchedulerKeys(Crowd(priority, started), n)
      ensures KeyLess(SchedulerKeys(Crowd(priority, started), n), started + 1, other)
    {
      CrowdKey(priority, started, other);
    }
  }

  lemma CrowdGrows(priority: Priority, started: nat)
    requires priority != High && started + 1 < FAIRNESS_ADMISSION_WINDOW * priority.Rank()
    ensures 0 in QueuedIds(Crowd(priority, started)) && started + 1 in QueuedIds(Crowd(priority, started))
    ensures 0 in Crowd(priority, started) && started + 1 in Crowd(priority, started)
    ensures Crowd(priority, started)[0].queueOrder < Crowd(priority, started)[started + 1].queueOrder
    ensures Crowd(priority, started + 1)
            == Crowd(priority, started)[started + 1 := Crowd(priority, started)[started + 1].(status := Running)]
  {
    hide Below;
  }

  lemma CrowdSteps(priority: Priority, i: nat)
    requires priority != High && i / 2 + 1 < FAIRNESS_ADMISSION_WINDOW * priority.Rank()
    ensures Step(CrowdState(priority, i), CrowdState(priority, i + 1))
    ensures Overtakes(CrowdState(priority, i), CrowdState(priority, i + 1), 0) <==> i % 2 == 1
  {
    hide Crowd, QueuedIds, IsNext, Admits, Updates, Removes;
    var a, b := CrowdState(priority, i), CrowdState(priority, i + 1);
    if i % 2 == 0 {
      assert (i + 1) / 2 == i / 2;
      CrowdChooses(priority, i / 2);
      assert Chooses(a, b);
    } else {
      assert (i + 1) / 2 == i / 2 + 1;
      CrowdGrows(priority, i / 2);
      assert Starts(a, b);
    }
  }

  lemma {:induction false} CrowdOvertakes(run: seq<State>, priority: Priority, n: nat)
    requires priority != High && n < |run| && |run| == 2 * FAIRNESS_ADMISSION_WINDOW * priority.Rank() - 1
    requires forall i :: 0 <= i < |run| ==> run[i] == CrowdState(priority, i)
    ensures TimesOvertaken(run, 0, n) == n / 2
  {
    hide Overtakes, Step, CrowdState;
    if n > 0 {
      CrowdOvertakes(run, priority, n - 1);
      CrowdSteps(priority, n - 1);
    }
  }

  /** A run that reaches the bound, for each priority that has one. */
  lemma BoundIsReached(priority: Priority) returns (run: seq<State>)
    requires priority != High
    ensures IsRun(run, 0) && run[0].rows[0].priority == priority
    ensures forall k :: 0 <= k < |run| - 1 ==> KeepsWindow(run[k], run[k + 1], 0)
    ensures TimesOvertaken(run, 0, |run| - 1) == match priority case High => 0 case Normal => 7 case Low => 15
  {
    hide Step, KeepsWindow, CrowdState, OrdersUnique, QueuedIds, TimesOvertaken, IsRun;
    run := seq(2 * FAIRNESS_ADMISSION_WINDOW * priority.Rank() - 1, i requires 0 <= i => CrowdState(priority, i));
    forall k | 0 <= k < |run| - 1
      ensures KeepsWindow(run[k], run[k + 1], 0)
    {
      CrowdKeepsHighest(priority, k);
    }
    CrowdIsRun(priority, run);
    CrowdOvertakes(run, priority, |run| - 1);
  }

  lemma CrowdIsRun(priority: Priority, run: seq<State>)
    requires priority != High && |run| == 2 * FAIRNESS_ADMISSION_WINDOW * priority.Rank() - 1
    requires forall i :: 0 <= i < |run| ==> run[i] == CrowdState(priority, i)
    ensures IsRun(run, 0) && run[0].rows[0].priority == priority
  {
    hide Step, CrowdState, OrdersUnique, QueuedIds;
    CrowdStart(priority);
    forall k | 0 <= k < |run|
      ensures 0 in QueuedIds(run[k].rows)
    {
      CrowdWaits(priority, k);
    }
    forall k | 0 <= k < |run| - 1
      ensures Step(run[k], run[k + 1])
    {
      CrowdSteps(priority, k);
    }
  }

  lemma CrowdStart(priority: Priority)
    requires priority != High
    ensures OrdersUnique(CrowdState(priority, 0).rows) && CrowdState(priority, 0).pick == None
    ensures 0 in CrowdState(priority, 0).rows && CrowdState(priority, 0).rows[0].priority == priority
    ensures forall id :: id in QueuedIds(CrowdState(priority, 0).rows) ==> CrowdState(priority, 0).rows[id].queueOrder != 0
  {
    hide Below;
  }

  lemma CrowdWaits(priority: Priority, i: nat)
    requires priority != High
    ensures 0 in QueuedIds(CrowdState(priority, i).rows)
  {
    hide Below;
  }

  lemma CrowdKeepsHighest(priority: Priority, i: nat)
    requires priority != High
    ensures KeepsWindow(CrowdState(priority, i), CrowdState(priority, i + 1), 0)
  {
    hide Below;
    var a, b := CrowdState(priority, i), CrowdState(priority, i + 1);
    forall highest: nat | BoundedBy(b.rows, highest)
      ensures BoundedBy(a.rows, highest)
    {
      assert forall id :: id in a.rows ==> id in b.rows && b.rows[id].queueOrder == a.rows[id].queueOrder;
    }
  }

  // ----- Without it there is none -----

  /** One Normal task; a High task comes, runs, completes and is removed: its order is given out again. */
  function CycleState(i: nat): State {
    var first := Waiting(Normal, 1);
    var later := Waiting(High, 2);
    match i % 5
    case 0 => State(map[0 := first], None)
    case 1 => State(map[0 := first, 1 := later], None)
    case 2 => State(map[0 := first, 1 := later], Some(1))
    case 3 => State(map[0 := first, 1 := later.(status := Running)], None)
    case _ => State(map[0 := first, 1 := later.(status := Completed)], None)
  }

  lemma CycleChooses(i: nat)
    requires i % 5 == 1
    ensures Chooses(CycleState(i), CycleState(i + 1))
  {
    var a := CycleState(i);
    assert 1 in QueuedIds(a.rows) && a.rows[1].queueOrder == 2;
    assert IsMaximumOrder(a.rows, QueuedIds(a.rows), 2);
  }

  lemma CycleSteps(i: nat)
    ensures Step(CycleState(i), CycleState(i + 1))
    ensures Overtakes(CycleState(i), CycleState(i + 1), 0) <==> i % 5 == 2
  {
    var a, b := CycleState(i), CycleState(i + 1);
    match i % 5 {
      case 0 =>
        assert a.rows[0].queueOrder == 1;
        assert Admits(a, b, 1, Waiting(High, 2));
      case 1 => CycleChooses(i);
      case 2 =>
        assert 1 in QueuedIds(a.rows);
        assert Starts(a, b);
      case 3 => assert Updates(a, b);
      case _ => assert Removes(a, b);
    }
  }

  lemma {:induction false} CycleOvertakes(run: seq<State>, n: nat)
    requires n < |run| && forall i :: 0 <= i < |run| ==> run[i] == CycleState(i)
    ensures TimesOvertaken(run, 0, n) == (n + 2) / 5
  {
    hide Overtakes, Step, CycleState;
    if n > 0 {
      CycleOvertakes(run, n - 1);
      CycleSteps(n - 1);
    }
  }

  /** When removals may take the row with the highest order, a task can be overtaken any number of times. */
  lemma RemovalDefeatsTheBound(times: nat) returns (run: seq<State>)
    ensures IsRun(run, 0) && run[0].rows[0].priority == Normal
    ensures TimesOvertaken(run, 0, |run| - 1) == times
  {
    run := seq(5 * times + 1, i requires 0 <= i => CycleState(i));
    forall k | 0 <= k < |run| - 1
      ensures Step(run[k], run[k + 1])
    {
      CycleSteps(k);
    }
    forall k | 0 <= k < |run|
      ensures 0 in QueuedIds(run[k].rows)
    {
    }
    CycleOvertakes(run, |run| - 1);
  }
}
