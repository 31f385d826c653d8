/** Which queued task runs next: priority with ageing, then queue order, then identifier. */
module Scheduler {
  import opened Wrappers
  import opened TaskModel

  const FAIRNESS_ADMISSION_WINDOW: nat := 8

  datatype Key = Key(rank: nat, order: nat)

  type Keys = map<nat, Key>

  predicate KeyLess(keys: Keys, a: nat, b: nat)
    requires a in keys && b in keys
  {
    || keys[a].rank < keys[b].rank
    || (keys[a].rank == keys[b].rank && keys[a].order < keys[b].order)
    || (keys[a] == keys[b] && a < b)
  }

  /** The ids of `keys`, each once, in key order. */
  ghost predicate IsSorted(keys: Keys, s: seq<nat>) {
    && (forall id :: id in s <==> id in keys)
    && (forall i, j :: 0 <= i < j < |s| ==> KeyLess(keys, s[i], s[j]))
  }

  lemma SortedEmpty(keys: Keys, s: seq<nat>)
    requires IsSorted(keys, s)
    ensures s == [] <==> keys == map[]
  {
    if keys != map[] {
      var id :| id in keys;
      assert id in s;
    }
    if s != [] {
      assert s[0] in keys;
    }
  }

  lemma {:induction false} SortedIsUnique(keys: Keys, s: seq<nat>, t: seq<nat>)
    requires IsSorted(keys, s) && IsSorted(keys, t)
    ensures s == t
    decreases |s|
  {
    SortedEmpty(keys, s);
    SortedEmpty(keys, t);
    if s != [] {
      SameHead(keys, s, t);
      WithoutHead(keys, s);
      WithoutHead(keys, t);
      SortedIsUnique(keys - {s[0]}, s[1..], t[1..]);
      assert s == [s[0]] + s[1..] && t == [t[0]] + t[1..];
    }
  }

  lemma SameHead(keys: Keys, s: seq<nat>, t: seq<nat>)
    requires IsSorted(keys, s) && IsSorted(keys, t) && s != [] && t != []
    ensures s[0] == t[0]
  {
    assert s[0] in t && t[0] in s;
    var i :| 0 <= i < |t| && t[i] == s[0];
    var j :| 0 <= j < |s| && s[j] == t[0];
  }

  lemma WithoutHead(keys: Keys, s: seq<nat>)
    requires IsSorted(keys, s) && s != []
    ensures IsSorted(keys - {s[0]}, s[1..])
  {
    var rest := s[1..];
    forall id
      ensures id in rest <==> id in keys - {s[0]}
    {
      if id in rest {
        var k :| 0 <= k < |rest| && rest[k] == id;
        assert s[k + 1] == id && KeyLess(keys, s[0], s[k + 1]);
      }
      if id in keys - {s[0]} {
        var k :| 0 <= k < |s| && s[k] == id;
        assert rest[k - 1] == id;
      }
    }
  }

  /** The least of a nonempty set of ids. */
  method LeastOf(keys: Keys, ids: set<nat>) returns (least: nat)
    requires ids != {} && ids <= keys.Keys
    ensures least in ids && forall id :: id in ids && id != least ==> KeyLess(keys, least, id)
  {
    var left := ids;
    least :| least in left;
    left := left - {least};
    while left != {}
      invariant left <= ids && least in ids - left
      invariant forall id :: id in ids - left && id != least ==> KeyLess(keys, least, id)
      decreases |left|
    {
      var next :| next in left;
      left := left - {next};
      ghost var before := least;
      if KeyLess(keys, next, least) {
        least := next;
      }
      forall id | id in ids - left && id != least
        ensures KeyLess(keys, least, id)
      {
        assert id == next || id == before || KeyLess(keys, before, id);
      }
    }
  }

  method SortByKey(keys: Keys) returns (s: seq<nat>)
    ensures IsSorted(keys, s)
  {
    s := [];
    var left := keys.Keys;
    while left != {}
      invariant left <= keys.Keys
      invariant forall id :: id in s <==> id in keys.Keys - left
      invariant forall i :: 0 <= i < |s| ==> s[i] in keys && s[i] !in left
      invariant forall i, j :: 0 <= i < j < |s| ==> KeyLess(keys, s[i], s[j])
      invariant forall i, id :: 0 <= i < |s| && id in left ==> KeyLess(keys, s[i], id)
      decreases |left|
    {
      var least := LeastOf(keys, left);
      s := s + [least];
      left := left - {least};
    }
  }

  // ----- Ageing -----

  /** The rank of a task after one step up for every eight admissions it has waited. */
  function EffectiveRank(row: Row, maximum: nat): nat {
    var waited := if row.queueOrder < maximum then maximum - row.queueOrder else 0;
    var boost := waited / FAIRNESS_ADMISSION_WINDOW;
    if boost < row.priority.Rank() then row.priority.Rank() - boost else 0
  }

  ghost predicate IsMaximumOrder(rows: Rows, ids: set<nat>, maximum: nat)
    requires ids <= rows.Keys
  {
    && (forall id :: id in ids ==> rows[id].queueOrder <= maximum)
    && (maximum == 0 || exists id :: id in ids && rows[id].queueOrder == maximum)
  }

  method MaximumOrder(rows: Rows, ids: set<nat>) returns (maximum: nat)
    requires ids <= rows.Keys
    ensures IsMaximumOrder(rows, ids, maximum)
  {
    maximum := 0;
    var left := ids;
    while left != {}
      invariant left <= ids && IsMaximumOrder(rows, ids - left, maximum)
      decreases |left|
    {
      var id :| id in left;
      left := left - {id};
      if maximum < rows[id].queueOrder {
        maximum := rows[id].queueOrder;
      }
    }
  }

  function SchedulerKeys(rows: Rows, maximum: nat): Keys {
    map id | id in rows && rows[id].status == Queued :: Key(EffectiveRank(rows[id], maximum), rows[id].queueOrder)
  }

  /** Whether a task counts as rank `r` or better: High is 0, Normal 1 and Low 2, and every eight orders
      that the newest queued task is ahead lift a task by one rank. */
  predicate ReachedRank(row: Row, maximum: nat, r: nat) {
    match row.priority
    case High => true
    case Normal => r >= 1 || row.queueOrder + 8 <= maximum
    case Low => r >= 2 || (r == 1 && row.queueOrder + 8 <= maximum) || row.queueOrder + 16 <= maximum
  }

  /** `a` runs before `b`: it has reached a rank that `b` has not, or neither has and it is older. */
  predicate RunsBefore(rows: Rows, maximum: nat, a: nat, b: nat)
    requires a in rows && b in rows
  {
    || (ReachedRank(rows[a], maximum, 0) && !ReachedRank(rows[b], maximum, 0))
    || ((ReachedRank(rows[a], maximum, 0) <==> ReachedRank(rows[b], maximum, 0))
        && ((ReachedRank(rows[a], maximum, 1) && !ReachedRank(rows[b], maximum, 1))
            || ((ReachedRank(rows[a], maximum, 1) <==> ReachedRank(rows[b], maximum, 1))
                && (rows[a].queueOrder < rows[b].queueOrder || (rows[a].queueOrder == rows[b].queueOrder && a < b)))))
  }

  lemma RankIsReached(row: Row, maximum: nat, r: nat)
    ensures EffectiveRank(row, maximum) <= r <==> ReachedRank(row, maximum, r)
    ensures EffectiveRank(row, maximum) <= 2
  {
    var waited := if row.queueOrder < maximum then maximum - row.queueOrder else 0;
    assert waited / 8 >= 1 <==> waited >= 8;
    assert waited / 8 >= 2 <==> waited >= 16;
  }

  /** The keys the scheduler sorts by say exactly this. */
  lemma KeyLessIsRunsBefore(rows: Rows, maximum: nat, a: nat, b: nat)
    requires a in QueuedIds(rows) && b in QueuedIds(rows)
    ensures KeyLess(SchedulerKeys(rows, maximum), a, b) <==> RunsBefore(rows, maximum, a, b)
  {
    hide EffectiveRank, ReachedRank;
    RankIsReached(rows[a], maximum, 0);
    RankIsReached(rows[a], maximum, 1);
    RankIsReached(rows[b], maximum, 0);
    RankIsReached(rows[b], maximum, 1);
  }

  /** When `c` is the newest queued task, it runs before an older `w` exactly as long as it is fewer than
      eight orders behind for each rank it stands above `w`. */
  lemma NewestRunsFirst(rows: Rows, c: nat, w: nat)
    requires c in QueuedIds(rows) && w in QueuedIds(rows) && rows[w].queueOrder < rows[c].queueOrder
    ensures KeyLess(SchedulerKeys(rows, rows[c].queueOrder), c, w)
      <==> rows[c].queueOrder < rows[w].queueOrder + 8 * (rows[w].priority.Rank() - rows[c].priority.Rank())
  {
    KeyLessIsRunsBefore(rows, rows[c].queueOrder, c, w);
  }

  /** And whatever has been queued since, it runs before `w` only then. */
  lemma LaterRunsFirstOnlyWithin(rows: Rows, maximum: nat, c: nat, w: nat)
    requires c in QueuedIds(rows) && w in QueuedIds(rows) && rows[w].queueOrder < rows[c].queueOrder <= maximum
    requires KeyLess(SchedulerKeys(rows, maximum), c, w)
    ensures rows[c].queueOrder < rows[w].queueOrder + 8 * (rows[w].priority.Rank() - rows[c].priority.Rank())
  {
    KeyLessIsRunsBefore(rows, maximum, c, w);
  }

  /** Every queued task once, each before all that run after it. */
  ghost predicate InRunningOrder(rows: Rows, maximum: nat, s: seq<nat>) {
    && (forall id :: id in s <==> id in QueuedIds(rows))
    && forall i, j :: 0 <= i < j < |s| ==> s[i] in rows && s[j] in rows && RunsBefore(rows, maximum, s[i], s[j])
  }

  lemma SortedIsRunningOrder(rows: Rows, maximum: nat, s: seq<nat>)
    requires IsSorted(SchedulerKeys(rows, maximum), s)
    ensures InRunningOrder(rows, maximum, s)
  {
    hide EffectiveRank, RunsBefore, KeyLess;
    forall i, j | 0 <= i < j < |s|
      ensures s[i] in rows && s[j] in rows && RunsBefore(rows, maximum, s[i], s[j])
    {
      assert s[i] in s && s[j] in s;
      KeyLessIsRunsBefore(rows, maximum, s[i], s[j]);
    }
  }

  /** The queued tasks in the order in which they would run if nothing else were admitted. */
  ghost predicate IsSchedule(rows: Rows, s: seq<nat>) {
    exists maximum :: IsMaximumOrder(rows, QueuedIds(rows), maximum) && IsSorted(SchedulerKeys(rows, maximum), s)
  }

  /** `queued_in_scheduler_order`. */
  method QueuedInSchedulerOrder(rows: Rows) returns (s: seq<nat>)
    ensures IsSchedule(rows, s)
    ensures exists maximum :: IsMaximumOrder(rows, QueuedIds(rows), maximum) && InRunningOrder(rows, maximum, s)
  {
    var maximum := MaximumOrder(rows, QueuedIds(rows));
    s := SortByKey(SchedulerKeys(rows, maximum));
    SortedIsRunningOrder(rows, maximum, s);
  }

  /** A queued task with the least key among all queued tasks. */
  ghost predicate IsNext(rows: Rows, id: nat) {
    && id in QueuedIds(rows)
    && exists maximum :: IsMaximumOrder(rows, QueuedIds(rows), maximum)
                         && forall other :: other in QueuedIds(rows) && other != id
                                            ==> KeyLess(SchedulerKeys(rows, maximum), id, other)
  }

  /** The next task runs before every other queued one, and is less than eight orders behind an older one
      for each rank it stands above it. */
  lemma NextRunsBeforeAll(rows: Rows, id: nat)
    requires IsNext(rows, id)
    ensures exists maximum :: IsMaximumOrder(rows, QueuedIds(rows), maximum)
              && forall other :: other in QueuedIds(rows) && other != id ==> RunsBefore(rows, maximum, id, other)
    ensures forall w :: w in QueuedIds(rows) && rows[w].queueOrder < rows[id].queueOrder ==>
              rows[id].queueOrder < rows[w].queueOrder + 8 * (rows[w].priority.Rank() - rows[id].priority.Rank())
  {
    hide EffectiveRank, RunsBefore;
    var maximum :| IsMaximumOrder(rows, QueuedIds(rows), maximum)
                   && forall other :: other in QueuedIds(rows) && other != id
                                      ==> KeyLess(SchedulerKeys(rows, maximum), id, other);
    forall other | other in QueuedIds(rows) && other != id
      ensures RunsBefore(rows, maximum, id, other)
      ensures rows[other].queueOrder < rows[id].queueOrder ==>
                rows[id].queueOrder < rows[other].queueOrder + 8 * (rows[other].priority.Rank() - rows[id].priority.Rank())
    {
      KeyLessIsRunsBefore(rows, maximum, id, other);
      if rows[other].queueOrder < rows[id].queueOrder {
        LaterRunsFirstOnlyWithin(rows, maximum, id, other);
      }
    }
  }

  /** `next_scheduled_task`: some task exactly when one is queued, and then the first of the schedule. */
  method NextScheduledTask(rows: Rows) returns (next: Option<nat>)
    ensures next.None? <==> QueuedIds(rows) == {}
    ensures next.Some? ==> IsNext(rows, next.value)
    ensures next.Some? ==>
      exists maximum :: IsMaximumOrder(rows, QueuedIds(rows), maximum)
        && forall other :: other in QueuedIds(rows) && other != next.value ==> RunsBefore(rows, maximum, next.value, other)
    ensures next.Some? ==> forall w :: w in QueuedIds(rows) && rows[w].queueOrder < rows[next.value].queueOrder ==>
      rows[next.value].queueOrder < rows[w].queueOrder + 8 * (rows[w].priority.Rank() - rows[next.value].priority.Rank())
  {
    hide RunsBefore, EffectiveRank;
    var maximum := MaximumOrder(rows, QueuedIds(rows));
    var keys := SchedulerKeys(rows, maximum);
    var s := SortByKey(keys);
    if s == [] {
      assert forall id :: id in QueuedIds(rows) ==> id in keys;
      return None;
    }
    assert s[0] in keys;
    forall other | other in QueuedIds(rows) && other != s[0]
      ensures KeyLess(keys, s[0], other)
    {
      assert other in keys;
      var k :| 0 <= k < |s| && s[k] == other;
    }
    NextRunsBeforeAll(rows, s[0]);
    return Some(s[0]);
  }

  // ----- Tasks of one priority -----

  function PeerKeys(rows: Rows, priority: Priority): Keys {
    map id | id in rows && rows[id].status == Queued && rows[id].priority == priority :: Key(0, rows[id].queueOrder)
  }

  function OfPriority(rows: Rows, s: seq<nat>, priority: Priority): seq<nat> {
    if s == [] then []
    else
      var rest := OfPriority(rows, s[..|s| - 1], priority);
      var last := s[|s| - 1];
      if last in rows && rows[last].priority == priority then rest + [last] else rest
  }

  /** Ageing never reorders tasks of one priority. */
  lemma AgeingKeepsPeers(rows: Rows, maximum: nat, priority: Priority, a: nat, b: nat)
    requires a in PeerKeys(rows, priority) && b in PeerKeys(rows, priority)
    ensures KeyLess(SchedulerKeys(rows, maximum), a, b) <==> KeyLess(PeerKeys(rows, priority), a, b)
  {
    if rows[a].queueOrder < rows[b].queueOrder {
      AgeingIsMonotone(rows[a], rows[b], maximum);
    } else if rows[b].queueOrder < rows[a].queueOrder {
      AgeingIsMonotone(rows[b], rows[a], maximum);
    }
  }

  lemma AgeingIsMonotone(a: Row, b: Row, maximum: nat)
    requires a.priority == b.priority && a.queueOrder <= b.queueOrder
    ensures EffectiveRank(a, maximum) <= EffectiveRank(b, maximum)
  {
    var waitedA := if a.queueOrder < maximum then maximum - a.queueOrder else 0;
    var waitedB := if b.queueOrder < maximum then maximum - b.queueOrder else 0;
    assert waitedB <= waitedA;
    assert waitedB / FAIRNESS_ADMISSION_WINDOW <= waitedA / FAIRNESS_ADMISSION_WINDOW;
  }

  /** In every schedule the tasks of one priority stand in queue order, whatever has waited how long. */
  lemma PeersRunInQueueOrder(rows: Rows, s: seq<nat>, priority: Priority)
    requires IsSchedule(rows, s)
    ensures IsSorted(PeerKeys(rows, priority), OfPriority(rows, s, priority))
  {
    var maximum :| IsMaximumOrder(rows, QueuedIds(rows), maximum) && IsSorted(SchedulerKeys(rows, maximum), s);
    forall i, j | 0 <= i < j < |s| && s[i] in PeerKeys(rows, priority) && s[j] in PeerKeys(rows, priority)
      ensures KeyLess(PeerKeys(rows, priority), s[i], s[j])
    {
      AgeingKeepsPeers(rows, maximum, priority, s[i], s[j]);
    }
    forall id | id in s
      ensures id in rows && rows[id].status == Queued
    {
      assert id in SchedulerKeys(rows, maximum);
    }
    FilterKeepsOrder(rows, s, priority);
    forall id | id in PeerKeys(rows, priority)
      ensures id in s
    {
      assert id in SchedulerKeys(rows, maximum);
    }
  }

  lemma {:induction false} FilterKeepsOrder(rows: Rows, s: seq<nat>, priority: Priority)
    requires forall id :: id in s ==> id in rows && rows[id].status == Queued
    requires forall i, j :: 0 <= i < j < |s| && s[i] in PeerKeys(rows, priority) && s[j] in PeerKeys(rows, priority)
                            ==> KeyLess(PeerKeys(rows, priority), s[i], s[j])
    ensures forall id :: id in OfPriority(rows, s, priority) <==> id in s && id in PeerKeys(rows, priority)
    ensures forall i, j :: 0 <= i < j < |OfPriority(rows, s, priority)|
                           ==> KeyLess(PeerKeys(rows, priority), OfPriority(rows, s, priority)[i], OfPriority(rows, s, priority)[j])
  {
    if s != [] {
      var front, last := s[..|s| - 1], s[|s| - 1];
      FilterKeepsOrder(rows, front, priority);
      var kept := OfPriority(rows, front, priority);
      assert s == front + [last];
      if last in PeerKeys(rows, priority) {
        forall i | 0 <= i < |kept|
          ensures KeyLess(PeerKeys(rows, priority), kept[i], last)
        {
          assert kept[i] in front;
          var k :| 0 <= k < |front| && front[k] == kept[i];
          assert s[k] == kept[i] && s[|s| - 1] == last;
        }
      }
    }
  }

  // ----- Moving a task among its peers -----

  /** Every order is held by one row at most; 0 means that none was given. */
  ghost predicate OrdersUnique(rows: Rows) {
    forall a, b :: a in rows && b in rows && a != b && rows[a].queueOrder != 0 ==> rows[a].queueOrder != rows[b].queueOrder
  }

  function Reordered(row: Row, order: nat, now: nat): Row {
    row.(queueOrder := order, revision := row.revision + 1, updatedAt := now)
  }

  /** Two rows exchange their orders; nothing else but their revisions and time stamps changes. */
  function OrdersSwapped(rows: Rows, a: nat, b: nat, now: nat): Rows
    requires a in rows && b in rows
  {
    rows[a := Reordered(rows[a], rows[b].queueOrder, now)][b := Reordered(rows[b], rows[a].queueOrder, now)]
  }

  function SwappedAt(s: seq<nat>, i: nat): seq<nat>
    requires i + 1 < |s|
  {
    s[i := s[i + 1]][i + 1 := s[i]]
  }

  /** Exchanging two neighbours' keys puts each where the other was. */
  lemma SwappedKeysSort(keys: Keys, s: seq<nat>, i: nat)
    requires IsSorted(keys, s) && i + 1 < |s|
    requires forall a, b :: a in keys && b in keys && a != b ==> keys[a].rank == keys[b].rank && keys[a].order != keys[b].order
    ensures s[i] in keys && s[i + 1] in keys
    ensures IsSorted(keys[s[i] := keys[s[i + 1]]][s[i + 1] := keys[s[i]]], SwappedAt(s, i))
  {
    var a, b := s[i], s[i + 1];
    assert a in s && b in s && KeyLess(keys, a, b);
    var after, t := keys[a := keys[b]][b := keys[a]], SwappedAt(s, i);
    forall k | 0 <= k < |s|
      ensures s[k] in keys && t[k] in after && after[t[k]] == keys[s[k]]
    {
      KeyAfterSwap(keys, s, i, k);
    }
    forall k, m | 0 <= k < m < |t|
      ensures KeyLess(after, t[k], t[m])
    {
      assert KeyLess(keys, s[k], s[m]) && s[k] != s[m];
    }
    forall id
      ensures id in t <==> id in after
    {
      SwapKeepsMembers(s, i, id);
    }
  }

  /** The exchanged keys stand at the exchanged places, so the keys come in the same sequence as before. */
  lemma KeyAfterSwap(keys: Keys, s: seq<nat>, i: nat, k: nat)
    requires IsSorted(keys, s) && i + 1 < |s| && k < |s|
    ensures s[i] in keys && s[i + 1] in keys && s[k] in keys
    ensures var after := keys[s[i] := keys[s[i + 1]]][s[i + 1] := keys[s[i]]];
            SwappedAt(s, i)[k] in after && after[SwappedAt(s, i)[k]] == keys[s[k]]
  {
    var a, b := s[i], s[i + 1];
    assert a in s && b in s && s[k] in s && KeyLess(keys, a, b);
    if k < i { assert KeyLess(keys, s[k], a) && KeyLess(keys, s[k], b); }
    if k > i + 1 { assert KeyLess(keys, a, s[k]) && KeyLess(keys, b, s[k]); }
  }

  lemma SwapKeepsMembers(s: seq<nat>, i: nat, id: nat)
    requires i + 1 < |s|
    ensures id in SwappedAt(s, i) <==> id in s
  {
    var t := SwappedAt(s, i);
    if id in s {
      var k :| 0 <= k < |s| && s[k] == id;
      assert t[if k == i then i + 1 else if k == i + 1 then i else k] == id;
    }
  }

  lemma PeerKeysAfterSwap(rows: Rows, priority: Priority, a: nat, b: nat, now: nat)
    requires a in PeerKeys(rows, priority) && b in PeerKeys(rows, priority) && a != b
    ensures PeerKeys(OrdersSwapped(rows, a, b, now), priority)
            == PeerKeys(rows, priority)[a := PeerKeys(rows, priority)[b]][b := PeerKeys(rows, priority)[a]]
    ensures forall p :: p != priority ==> PeerKeys(OrdersSwapped(rows, a, b, now), p) == PeerKeys(rows, p)
  {
  }

  lemma SwapKeepsOrdersUnique(rows: Rows, a: nat, b: nat, now: nat)
    requires OrdersUnique(rows) && a in rows && b in rows && a != b
    ensures OrdersUnique(OrdersSwapped(rows, a, b, now))
  {
    var swapped := OrdersSwapped(rows, a, b, now);
    forall x, y | x in swapped && y in swapped && x != y && swapped[x].queueOrder != 0
      ensures swapped[x].queueOrder != swapped[y].queueOrder
    {
      var back := (z: nat) => if z == a then b else if z == b then a else z;
      assert swapped[x].queueOrder == rows[back(x)].queueOrder && swapped[y].queueOrder == rows[back(y)].queueOrder;
    }
  }

  /** Exchanging the orders of two neighbours swaps them in their peer sequence and moves no other peer
      of any priority. */
  lemma SwapMovesNeighbours(rows: Rows, priority: Priority, s: seq<nat>, i: nat, now: nat)
    requires OrdersUnique(rows) && IsSorted(PeerKeys(rows, priority), s) && i + 1 < |s|
    requires forall id :: id in QueuedIds(rows) ==> rows[id].queueOrder != 0
    ensures s[i] in PeerKeys(rows, priority) && s[i + 1] in PeerKeys(rows, priority) && s[i] != s[i + 1]
    ensures IsSorted(PeerKeys(OrdersSwapped(rows, s[i], s[i + 1], now), priority), SwappedAt(s, i))
    ensures OrdersUnique(OrdersSwapped(rows, s[i], s[i + 1], now))
    ensures forall p :: p != priority ==> PeerKeys(OrdersSwapped(rows, s[i], s[i + 1], now), p) == PeerKeys(rows, p)
  {
    var keys := PeerKeys(rows, priority);
    assert s[i] in s && s[i + 1] in s && KeyLess(keys, s[i], s[i + 1]);
    forall a, b | a in keys && b in keys && a != b
      ensures keys[a].rank == keys[b].rank && keys[a].order != keys[b].order
    {
      assert a in QueuedIds(rows);
    }
    hide PeerKeys, QueuedIds, OrdersUnique, OrdersSwapped, IsSorted, SwappedAt;
    SwappedKeysSort(keys, s, i);
    PeerKeysAfterSwap(rows, priority, s[i], s[i + 1], now);
    SwapKeepsOrdersUnique(rows, s[i], s[i + 1], now);
  }
}
