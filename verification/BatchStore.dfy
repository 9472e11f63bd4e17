/** The tables behind batches: item rows, batch rows, the order in which pending items are handed
    out, and what processing a batch leaves. */
module BatchTables {
  import opened Basics
  import opened StableSort
  import opened BatchPool

  /** `enqueuedAt` is absent when the stored time is empty or cannot be parsed. */
  datatype ItemRow = ItemRow(
    itemId: nat, batchId: nat, taskId: Option<string>, status: Outcome, error: Option<string>,
    position: nat, priority: int, enqueuedAt: Option<real>)

  datatype BatchRow = BatchRow(status: BatchStatus, total: nat, completed: nat, failed: nat)

  // ----- one batch's rows -----

  function OfBatch(items: seq<ItemRow>, b: nat): seq<ItemRow> {
    if items == [] then []
    else
      var n := |items| - 1;
      OfBatch(items[..n], b) + if items[n].batchId == b then [items[n]] else []
  }

  function Outcomes(rows: seq<ItemRow>): seq<Outcome> {
    seq(|rows|, i requires 0 <= i < |rows| => rows[i].status)
  }

  function PendingOf(items: seq<ItemRow>, b: nat): seq<ItemRow> {
    if items == [] then []
    else
      var n := |items| - 1;
      PendingOf(items[..n], b) + if items[n].batchId == b && items[n].status == Pending then [items[n]] else []
  }

  function NewRows(firstId: nat, b: nat, priorities: seq<int>, now: real): seq<ItemRow> {
    seq(|priorities|, i requires 0 <= i < |priorities| =>
      ItemRow(firstId + i, b, None, Pending, None, i, priorities[i], Some(now)))
  }

  lemma {:induction false} OfBatchConcat(a: seq<ItemRow>, c: seq<ItemRow>, b: nat)
    ensures OfBatch(a + c, b) == OfBatch(a, b) + OfBatch(c, b)
  {
    if c == [] {
      assert a + c == a;
    } else {
      OfBatchConcat(a, c[..|c| - 1], b);
      assert (a + c)[..|a + c| - 1] == a + c[..|c| - 1];
    }
  }

  lemma {:induction false} OfBatchAll(items: seq<ItemRow>, b: nat)
    requires forall i :: 0 <= i < |items| ==> items[i].batchId == b
    ensures OfBatch(items, b) == items
  {
    if items != [] {
      OfBatchAll(items[..|items| - 1], b);
    }
  }

  lemma {:induction false} OfBatchNone(items: seq<ItemRow>, b: nat)
    requires forall i :: 0 <= i < |items| ==> items[i].batchId != b
    ensures OfBatch(items, b) == []
  {
    if items != [] {
      OfBatchNone(items[..|items| - 1], b);
    }
  }

  lemma OfBatchWithNewRows(items: seq<ItemRow>, firstId: nat, b: nat, priorities: seq<int>, now: real, c: nat)
    ensures var rows := NewRows(firstId, b, priorities, now);
      OfBatch(items + rows, c) == OfBatch(items, c) + if c == b then rows else []
  {
    var rows := NewRows(firstId, b, priorities, now);
    OfBatchConcat(items, rows, c);
    if c == b { OfBatchAll(rows, c); } else { OfBatchNone(rows, c); }
  }

  lemma {:induction false} PendingOfMembers(items: seq<ItemRow>, b: nat)
    ensures forall x :: x in PendingOf(items, b) <==> x in items && x.batchId == b && x.status == Pending
  {
    if items != [] {
      PendingOfMembers(items[..|items| - 1], b);
      assert items == items[..|items| - 1] + [items[|items| - 1]];
    }
  }

  // ----- the order of pending items -----

  datatype Aging = Aging(starvationSec: int, maxBoost: int)

  predicate QueryOrder(a: ItemRow, b: ItemRow) {
    a.priority > b.priority || (a.priority == b.priority && a.position <= b.position)
  }

  function Boost(g: Aging, now: real, enqueuedAt: Option<real>): int
    requires g.starvationSec > 0
  {
    match enqueuedAt
    case None => 0
    case Some(t) =>
      var periods := ((now - t) / g.starvationSec as real).Floor;
      if periods < g.maxBoost then periods else g.maxBoost
  }

  function Effective(g: Aging, now: real, x: ItemRow): int
    requires g.starvationSec > 0
  {
    x.priority + Boost(g, now, x.enqueuedAt)
  }

  predicate BoostedOrder(g: Aging, now: real, a: ItemRow, b: ItemRow)
    requires g.starvationSec > 0
  {
    || Effective(g, now, a) > Effective(g, now, b)
    || (Effective(g, now, a) == Effective(g, now, b) && a.position <= b.position)
  }

  /** `_apply_starvation_boost`. */
  function Boosted(g: Aging, now: real, items: seq<ItemRow>): seq<ItemRow> {
    if g.starvationSec <= 0 then items
    else Sort((a, b) => BoostedOrder(g, now, a, b), items)
  }

  function ListPending(g: Aging, now: real, items: seq<ItemRow>, b: nat): seq<ItemRow> {
    Boosted(g, now, Sort(QueryOrder, PendingOf(items, b)))
  }

  lemma ListPendingSorts(g: Aging, now: real, items: seq<ItemRow>, b: nat)
    ensures multiset(ListPending(g, now, items, b)) == multiset(PendingOf(items, b))
    ensures g.starvationSec > 0 ==> forall i, j :: 0 <= i < j < |ListPending(g, now, items, b)| ==>
      BoostedOrder(g, now, ListPending(g, now, items, b)[i], ListPending(g, now, items, b)[j])
    ensures g.starvationSec <= 0 ==> Ordered(QueryOrder, ListPending(g, now, items, b))
  {
    var rows := Sort(QueryOrder, PendingOf(items, b));
    SortPermutes(QueryOrder, PendingOf(items, b));
    SortOrders(QueryOrder, PendingOf(items, b));
    if g.starvationSec > 0 {
      var leq: Order<ItemRow> := (x, y) => BoostedOrder(g, now, x, y);
      SortPermutes(leq, rows);
      SortOrders(leq, rows);
    }
  }

  /** Every pending item of the batch is handed out once, by priority and boost and then by position. */
  lemma ListPendingIsExact(g: Aging, now: real, items: seq<ItemRow>, b: nat, list: seq<ItemRow>)
    requires list == ListPending(g, now, items, b)
    ensures multiset(list) == multiset(PendingOf(items, b))
    ensures forall x :: x in list <==> x in items && x.batchId == b && x.status == Pending
    ensures forall i, j :: 0 <= i < j < |list| ==>
      var x := list[i].priority + if g.starvationSec > 0 then Boost(g, now, list[i].enqueuedAt) else 0;
      var y := list[j].priority + if g.starvationSec > 0 then Boost(g, now, list[j].enqueuedAt) else 0;
      x > y || (x == y && list[i].position <= list[j].position)
  {
    hide ListPending, Boost, PendingOf;
    ListPendingSorts(g, now, items, b);
    PendingOfMembers(items, b);
    forall x ensures x in list <==> x in PendingOf(items, b) {
      assert x in multiset(list) <==> x in multiset(PendingOf(items, b));
    }
  }

  /** The boost is one for each full period of waiting, up to the most; without a stamp there is none. */
  lemma BoostIs(g: Aging, now: real, t: real)
    requires g.starvationSec > 0
    ensures Boost(g, now, None) == 0
    ensures var k, period := Boost(g, now, Some(t)), g.starvationSec as real;
      && k <= g.maxBoost
      && k as real * period <= now - t
      && (k == g.maxBoost || now - t < (k + 1) as real * period)
  {
    var period, age := g.starvationSec as real, now - t;
    FloorOfShare(age, period, (age / period).Floor, Boost(g, now, Some(t)));
  }

  lemma FloorOfShare(age: real, period: real, n: int, k: int)
    requires period > 0.0 && n == (age / period).Floor && k <= n
    ensures k as real * period <= age && age < (n + 1) as real * period
  {
    var q, next := age / period, (n + 1) as real;
    assert q * period == age;
    assert k as real <= q < next;
    Scaled(q, next, period);
    if k as real < q { Scaled(k as real, q, period); }
  }

  /** The boost tells items of one batch apart only if they were enqueued at different times, and
      `create_batch` stamps all items of a batch alike: the order stays that of the query. */
  lemma BoostNeverReorders(g: Aging, now: real, items: seq<ItemRow>, b: nat, stamp: Option<real>)
    requires forall x :: x in items && x.batchId == b ==> x.enqueuedAt == stamp
    ensures ListPending(g, now, items, b) == Sort(QueryOrder, PendingOf(items, b))
  {
    if g.starvationSec > 0 {
      var rows := Sort(QueryOrder, PendingOf(items, b));
      var leq: Order<ItemRow> := (x, y) => BoostedOrder(g, now, x, y);
      SortPermutes(QueryOrder, PendingOf(items, b));
      SortOrders(QueryOrder, PendingOf(items, b));
      PendingOfMembers(items, b);
      forall i, j | 0 <= i < j < |rows| ensures leq(rows[i], rows[j]) {
        assert rows[i] in multiset(rows) && rows[j] in multiset(rows);
        assert rows[i] in PendingOf(items, b) && rows[j] in PendingOf(items, b);
        assert QueryOrder(rows[i], rows[j]);
      }
      SortOfOrdered(leq, rows);
    }
  }

  /** Items of one batch carry one stamp. */
  ghost predicate OneStamp(items: seq<ItemRow>) {
    forall x, y :: x in items && y in items && x.batchId == y.batchId ==> x.enqueuedAt == y.enqueuedAt
  }

  lemma BoostHasNoEffect(g: Aging, now: real, items: seq<ItemRow>, b: nat)
    requires OneStamp(items)
    ensures ListPending(g, now, items, b) == Sort(QueryOrder, PendingOf(items, b))
  {
    hide ListPending;
    if x :| x in items && x.batchId == b {
      BoostNeverReorders(g, now, items, b, x.enqueuedAt);
    } else {
      BoostNeverReorders(g, now, items, b, None);
    }
  }

  predicate WaitedOut(g: Aging, now: real, x: ItemRow) {
    x.enqueuedAt.Some? && now - x.enqueuedAt.value >= g.maxBoost as real * g.starvationSec as real
  }

  predicate JustArrived(g: Aging, now: real, x: ItemRow) {
    x.enqueuedAt.Some? && 0.0 <= now - x.enqueuedAt.value < g.starvationSec as real
  }

  lemma StarvedOutranks(g: Aging, now: real, x: ItemRow, y: ItemRow)
    requires g.starvationSec > 0 && g.maxBoost >= 0 && WaitedOut(g, now, x) && JustArrived(g, now, y)
    requires y.priority < x.priority + g.maxBoost
    ensures !BoostedOrder(g, now, y, x)
  {
    FloorAtLeast(now - x.enqueuedAt.value, g.starvationSec as real, g.maxBoost);
    FloorOfFraction(now - y.enqueuedAt.value, g.starvationSec as real);
    assert Boost(g, now, x.enqueuedAt) == g.maxBoost;
    assert Boost(g, now, y.enqueuedAt) <= 0;
  }

  /** An item that waited out its whole boost comes before every one that has not waited a single
      period and is not more urgent by the boost or more. */
  lemma StarvedComesFirst(g: Aging, now: real, items: seq<ItemRow>, b: nat, list: seq<ItemRow>, i: nat, j: nat)
    requires g.starvationSec > 0 && g.maxBoost >= 0 && list == ListPending(g, now, items, b)
    requires i < |list| && WaitedOut(g, now, list[i]) && j < |list| && JustArrived(g, now, list[j])
    requires list[j].priority < list[i].priority + g.maxBoost
    ensures i < j
  {
    hide ListPending, WaitedOut, JustArrived, Boost;
    ListPendingIsExact(g, now, items, b, list);
    StarvedOutranks(g, now, list[i], list[j]);
  }

  lemma Scaled(a: real, b: real, p: real)
    requires a < b && p > 0.0
    ensures a * p < b * p
  {
    assert (b - a) * p > 0.0;
  }

  lemma FloorAtLeast(age: real, period: real, n: int)
    requires period > 0.0 && age >= n as real * period
    ensures (age / period).Floor >= n
  {
    var q := age / period;
    assert q * period == age;
    if q < n as real {
      Scaled(q, n as real, period);
    }
  }

  lemma FloorOfFraction(age: real, period: real)
    requires 0.0 <= age < period
    ensures (age / period).Floor == 0
  {
    var q := age / period;
    assert q * period == age;
    if q > 1.0 {
      Scaled(1.0, q, period);
    }
    if q < 0.0 {
      Scaled(q, 0.0, period);
    }
  }

  // ----- a new batch is handed out as submitted -----

  lemma {:induction false} PendingOfNew(items: seq<ItemRow>, rows: seq<ItemRow>, b: nat)
    requires forall x :: x in items ==> x.batchId != b
    requires forall i :: 0 <= i < |rows| ==> rows[i].batchId == b && rows[i].status == Pending
    ensures PendingOf(items + rows, b) == rows
  {
    var n := |items + rows| - 1;
    if rows != [] {
      PendingOfNew(items, rows[..|rows| - 1], b);
      assert (items + rows)[..n] == items + rows[..|rows| - 1];
    } else if items != [] {
      PendingOfNew(items[..n], [], b);
      assert (items + rows)[..n] == items[..n] + [] && items[n] in items;
    }
  }

  lemma {:induction false} AtMostOnce(rows: seq<ItemRow>, x: ItemRow)
    requires UniqueIds(rows)
    ensures multiset(rows)[x] <= 1
  {
    if rows != [] {
      var n := |rows| - 1;
      AtMostOnce(rows[..n], x);
      assert rows == rows[..n] + [rows[n]];
      if x in rows[..n] {
        assert x != rows[n];
      }
    }
  }

  lemma OccursTwice(list: seq<ItemRow>, i: nat, j: nat)
    requires i < j < |list| && list[i] == list[j]
    ensures multiset(list)[list[i]] >= 2
  {
    assert list == list[..j] + [list[j]] + list[j + 1..];
    assert list[i] in list[..j];
  }

  /** A new batch is handed out whole: the item submitted at place p has that position, its own priority
      and the batch's stamp; a higher priority comes first, and equal ones in the order submitted. */
  lemma ListedAsSubmitted(g: Aging, later: real, items: seq<ItemRow>, firstId: nat, b: nat, priorities: seq<int>,
                          now: real, list: seq<ItemRow>)
    requires forall x :: x in items ==> x.batchId != b
    requires list == ListPending(g, later, items + NewRows(firstId, b, priorities, now), b)
    ensures |list| == |priorities|
    ensures forall i :: 0 <= i < |list| ==>
      && list[i].position < |priorities| && list[i].priority == priorities[list[i].position]
      && list[i].batchId == b && list[i].status == Pending && list[i].enqueuedAt == Some(now)
      && list[i].taskId == None && list[i].error == None
    ensures forall i, j :: 0 <= i < j < |list| ==>
      || list[i].priority > list[j].priority
      || (list[i].priority == list[j].priority && list[i].position < list[j].position)
  {
    hide ListPending, PendingOf, Sort, Ordered;
    var rows := NewRows(firstId, b, priorities, now);
    PendingOfNew(items, rows, b);
    BoostNeverReorders(g, later, items + rows, b, Some(now));
    NewRowsAreUnique(firstId, b, priorities, now);
    SortOfUnique(rows, list);
    forall i | 0 <= i < |list| ensures list[i].position < |priorities| && list[i] == rows[list[i].position] {
      assert list[i] in rows;
    }
  }

  lemma NewRowsAreUnique(firstId: nat, b: nat, priorities: seq<int>, now: real)
    ensures UniqueIds(NewRows(firstId, b, priorities, now))
  {
  }

  /** Sorting rows with different ids keeps them apart. */
  lemma SortOfUnique(rows: seq<ItemRow>, list: seq<ItemRow>)
    requires UniqueIds(rows) && list == Sort(QueryOrder, rows)
    ensures |list| == |rows| && forall i :: 0 <= i < |list| ==> list[i] in rows
    ensures forall i, j :: 0 <= i < j < |list| ==> list[i] != list[j] && QueryOrder(list[i], list[j])
  {
    hide Sort, UniqueIds;
    SortPermutes(QueryOrder, rows);
    SortOrders(QueryOrder, rows);
    assert |multiset(list)| == |multiset(rows)|;
    forall i | 0 <= i < |list| ensures list[i] in rows {
      assert list[i] in multiset(list);
    }
    forall i, j | 0 <= i < j < |list| ensures list[i] != list[j] {
      if list[i] == list[j] {
        OccursTwice(list, i, j);
        AtMostOnce(rows, list[i]);
      }
    }
  }

  // ----- processing a batch -----

  /** What running one item as a task comes to. */
  datatype Ran = Succeeded(taskId: string) | Raised(error: string)

  type Runner = nat -> Ran

  function UpdateRow(x: ItemRow, status: Outcome, taskId: Option<string>, error: Option<string>): ItemRow {
    x.(status := status, taskId := if taskId.Some? then taskId else x.taskId, error := error)
  }

  function Updated(items: seq<ItemRow>, itemId: nat, status: Outcome, taskId: Option<string>, error: Option<string>)
    : seq<ItemRow>
  {
    seq(|items|, i requires 0 <= i < |items| =>
      if items[i].itemId == itemId then UpdateRow(items[i], status, taskId, error) else items[i])
  }

  /** Rows with another id are as they were; the row with this one has the new status and error, and
      the new task id if there is one. */
  ghost predicate UpdatedTo(items: seq<ItemRow>, next: seq<ItemRow>, itemId: nat, status: Outcome,
                            taskId: Option<string>, error: Option<string>)
  {
    && |next| == |items|
    && (forall i :: 0 <= i < |items| && items[i].itemId != itemId ==> next[i] == items[i])
    && (forall i :: 0 <= i < |items| && items[i].itemId == itemId ==>
          && next[i].status == status && next[i].error == error
          && next[i].taskId == (if taskId.None? then items[i].taskId else taskId)
          && next[i].(status := items[i].status, error := items[i].error, taskId := items[i].taskId) == items[i])
  }

  function RunRow(run: Runner, x: ItemRow): ItemRow {
    match run(x.itemId)
    case Succeeded(taskId) => UpdateRow(x, Completed, Some(taskId), None)
    case Raised(error) => UpdateRow(x, Failed, None, Some(error))
  }

  /** The item rows once these items were run, in whatever order. */
  function RunAll(items: seq<ItemRow>, ids: set<nat>, run: Runner): seq<ItemRow> {
    seq(|items|, i requires 0 <= i < |items| => if items[i].itemId in ids then RunRow(run, items[i]) else items[i])
  }

  function ItemIds(items: seq<ItemRow>): set<nat> { set x | x in items :: x.itemId }

  ghost predicate UniqueIds(items: seq<ItemRow>) {
    forall i, j :: 0 <= i < j < |items| ==> items[i].itemId != items[j].itemId
  }

  lemma UniqueWithNewRows(items: seq<ItemRow>, firstId: nat, b: nat, priorities: seq<int>, now: real)
    requires UniqueIds(items) && forall x :: x in items ==> x.itemId < firstId
    ensures UniqueIds(items + NewRows(firstId, b, priorities, now))
  {
    var all := items + NewRows(firstId, b, priorities, now);
    forall i, j | 0 <= i < j < |all| ensures all[i].itemId != all[j].itemId {
      if i < |items| {
        assert items[i] in items;
      }
    }
  }

  lemma OneStampWithNewRows(items: seq<ItemRow>, firstId: nat, b: nat, priorities: seq<int>, now: real)
    requires OneStamp(items) && forall x :: x in items ==> x.batchId < b
    ensures OneStamp(items + NewRows(firstId, b, priorities, now))
  {
    assert forall x :: x in NewRows(firstId, b, priorities, now) ==> x.batchId == b && x.enqueuedAt == Some(now);
  }

  lemma NewRowIds(firstId: nat, b: nat, priorities: seq<int>, now: real)
    ensures |NewRows(firstId, b, priorities, now)| == |priorities|
    ensures forall x :: x in NewRows(firstId, b, priorities, now) ==>
      x.batchId == b && firstId <= x.itemId < firstId + |priorities|
  {
  }

  lemma OldRowsElsewhere(items: seq<ItemRow>, b: nat)
    requires forall x :: x in items ==> x.batchId < b
    ensures OfBatch(items, b) == []
  {
    OfBatchNone(items, b);
  }

  lemma {:induction false} OfBatchRun(items: seq<ItemRow>, ids: set<nat>, run: Runner, b: nat)
    ensures OfBatch(RunAll(items, ids, run), b) == RunAll(OfBatch(items, b), ids, run)
  {
    if items != [] {
      var n := |items| - 1;
      OfBatchRun(items[..n], ids, run, b);
      assert RunAll(items, ids, run)[..n] == RunAll(items[..n], ids, run);
    }
  }

  lemma {:induction false} OfBatchMembers(items: seq<ItemRow>, b: nat)
    ensures forall x :: x in OfBatch(items, b) <==> x in items && x.batchId == b
  {
    if items != [] {
      OfBatchMembers(items[..|items| - 1], b);
      assert items == items[..|items| - 1] + [items[|items| - 1]];
    }
  }

  /** After running all its pending items, nothing of the batch is pending. */
  lemma RunLeavesNothingPending(items: seq<ItemRow>, b: nat, run: Runner)
    ensures Pending !in Outcomes(OfBatch(RunAll(items, ItemIds(PendingOf(items, b)), run), b))
    ensures |OfBatch(RunAll(items, ItemIds(PendingOf(items, b)), run), b)| == |OfBatch(items, b)|
  {
    var ids := ItemIds(PendingOf(items, b));
    OfBatchRun(items, ids, run, b);
    OfBatchMembers(items, b);
    PendingOfMembers(items, b);
    var rows := OfBatch(items, b);
    forall i | 0 <= i < |rows| ensures RunAll(rows, ids, run)[i].status != Pending {
      if rows[i].status == Pending {
        assert rows[i] in PendingOf(items, b);
        assert rows[i].itemId in ids;
      }
    }
  }

  lemma RunOneMore(items: seq<ItemRow>, ids: set<nat>, run: Runner, id: nat, next: seq<ItemRow>)
    requires match run(id)
      case Succeeded(t) => UpdatedTo(RunAll(items, ids, run), next, id, Completed, Some(t), None)
      case Raised(e) => UpdatedTo(RunAll(items, ids, run), next, id, Failed, None, Some(e))
    ensures next == RunAll(items, ids + {id}, run)
  {
    var all := RunAll(items, ids + {id}, run);
    forall i | 0 <= i < |items| ensures next[i] == all[i] {
      assert RunAll(items, ids, run)[i].itemId == items[i].itemId;
    }
  }

  lemma RunKeepsStamps(items: seq<ItemRow>, ids: set<nat>, run: Runner)
    requires OneStamp(items)
    ensures OneStamp(RunAll(items, ids, run))
  {
    var all := RunAll(items, ids, run);
    forall x | x in all ensures exists y :: y in items && y.batchId == x.batchId && y.enqueuedAt == x.enqueuedAt {
      var i :| 0 <= i < |all| && all[i] == x;
      assert items[i] in items && items[i].batchId == x.batchId;
    }
  }

  lemma RunKeepsIds(items: seq<ItemRow>, ids: set<nat>, run: Runner, bound: nat)
    requires UniqueIds(items) && forall x :: x in items ==> x.itemId < bound && x.batchId < bound
    ensures UniqueIds(RunAll(items, ids, run))
    ensures forall x :: x in RunAll(items, ids, run) ==> x.itemId < bound && x.batchId < bound
    ensures forall b :: |OfBatch(RunAll(items, ids, run), b)| == |OfBatch(items, b)|
  {
    forall b ensures |OfBatch(RunAll(items, ids, run), b)| == |OfBatch(items, b)| {
      OfBatchRun(items, ids, run, b);
    }
  }

  lemma RunNothing(items: seq<ItemRow>, run: Runner)
    ensures RunAll(items, {}, run) == items
  {
  }

  function WithCounters(row: BatchRow, c: Counters): BatchRow {
    row.(status := c.status, completed := c.completed, failed := c.failed)
  }

  /** The store: both tables. Ids are drawn from a counter, as new as random ones. */
  class BatchStore {
    var batches: map<nat, BatchRow>
    var items: seq<ItemRow>
    var nextId: nat

    /** Ids are used once, the items of a batch are stamped alike, and a batch row knows how many items
        it has. */
    ghost predicate Valid()
      reads this
    {
      && UniqueIds(items) && OneStamp(items)
      && (forall x :: x in items ==> x.itemId < nextId && x.batchId < nextId)
      && (forall b :: b in batches ==> b < nextId && batches[b].total == |OfBatch(items, b)|)
    }

    constructor ()
      ensures Valid() && batches == map[] && items == []
    {
      batches, items, nextId := map[], [], 0;
    }

    /** A new batch: pending items in the given order, all stamped alike, and a row to match. */
    method CreateBatch(priorities: seq<int>, now: real) returns (b: nat)
      requires Valid()
      modifies this
      ensures Valid() && b !in old(batches)
      ensures batches == old(batches)[b := BatchRow(BatchPending, |priorities|, 0, 0)]
      ensures items == old(items) + NewRows(b + 1, b, priorities, now)
      ensures OfBatch(items, b) == NewRows(b + 1, b, priorities, now)
    {
      hide NewRows, OfBatch, UniqueIds, OneStamp;
      b := nextId;
      var rows := NewRows(b + 1, b, priorities, now);
      UniqueWithNewRows(items, b + 1, b, priorities, now);
      OneStampWithNewRows(items, b + 1, b, priorities, now);
      NewRowIds(b + 1, b, priorities, now);
      OldRowsElsewhere(items, b);
      forall c ensures OfBatch(items + rows, c) == OfBatch(items, c) + if c == b then rows else [] {
        OfBatchWithNewRows(items, b + 1, b, priorities, now, c);
      }
      items := items + rows;
      nextId := b + 1 + |priorities|;
      batches := batches[b := BatchRow(BatchPending, |priorities|, 0, 0)];
    }

    /** The pending items of a batch as they are handed out: in the order of the query, however old
        they are. */
    method ListPendingItems(b: nat, g: Aging, now: real) returns (list: seq<ItemRow>)
      requires Valid()
      ensures list == ListPending(g, now, items, b) == Sort(QueryOrder, PendingOf(items, b))
    {
      BoostHasNoEffect(g, now, items, b);
      list := ListPending(g, now, items, b);
    }

    method UpdateItem(itemId: nat, status: Outcome, taskId: Option<string>, error: Option<string>)
      modifies this
      ensures UpdatedTo(old(items), items, itemId, status, taskId, error)
      ensures batches == old(batches) && nextId == old(nextId)
    {
      items := Updated(items, itemId, status, taskId, error);
    }

    method SetBatchStatus(b: nat, status: BatchStatus)
      modifies this
      ensures batches == if b in old(batches) then old(batches)[b := old(batches)[b].(status := status)] else old(batches)
      ensures items == old(items) && nextId == old(nextId)
    {
      if b in batches { batches := batches[b := batches[b].(status := status)]; }
    }

    method RefreshBatchCounters(b: nat)
      modifies this
      ensures batches.Keys == old(batches).Keys && items == old(items) && nextId == old(nextId)
      ensures forall c :: c in batches && c != b ==> batches[c] == old(batches)[c]
      ensures b in batches ==>
        && batches[b].total == old(batches)[b].total
        && Reports(Counters(batches[b].status, batches[b].completed, batches[b].failed), Outcomes(OfBatch(items, b)))
    {
      if b in batches {
        RefreshedReports(Outcomes(OfBatch(items, b)));
        batches := batches[b := WithCounters(batches[b], Refreshed(Outcomes(OfBatch(items, b))))];
      }
    }

    /** `_process_batch` with its items run one after the other: exactly the pending items of the
        batch are run, whatever their order, nothing else changes, and the batch row ends with
        completed + failed = total and the status that its outcomes call for. */
    method ProcessBatch(b: nat, g: Aging, now: real, run: Runner)
      requires Valid() && b in batches
      modifies this
      ensures Valid() && batches.Keys == old(batches).Keys
      ensures items == RunAll(old(items), ItemIds(PendingOf(old(items), b)), run)
      ensures forall c :: c in batches && c != b ==> batches[c] == old(batches)[c]
      ensures var rows := OfBatch(items, b);
        && batches[b].total == old(batches)[b].total && Pending !in Outcomes(rows)
        && batches[b].completed == Count(Outcomes(rows), Completed) && batches[b].failed == Count(Outcomes(rows), Failed)
        && batches[b].completed + batches[b].failed == batches[b].total
        && (batches[b].status == BatchCompleted <==> Failed !in Outcomes(rows))
        && (batches[b].status == BatchFailed <==> Failed in Outcomes(rows) && Completed !in Outcomes(rows))
        && (batches[b].status == BatchPartial <==> Failed in Outcomes(rows) && Completed in Outcomes(rows))
    {
      SetBatchStatus(b, BatchRunning);
      RunPending(b, g, now, run);
      RefreshBatchCounters(b);
      RunLeavesNothingPending(old(items), b, run);
      CountsCoverItems(Outcomes(OfBatch(items, b)));
      CountZeroIffAbsent(Outcomes(OfBatch(items, b)), Pending);
    }

    method RunPending(b: nat, g: Aging, now: real, run: Runner)
      requires Valid()
      modifies this
      ensures Valid() && batches == old(batches)
      ensures items == RunAll(old(items), ItemIds(PendingOf(old(items), b)), run)
    {
      hide RunAll, Updated, UpdatedTo, ListPending, PendingOf, OfBatch, UniqueIds, OneStamp;
      var todo := ListPendingItems(b, g, now);
      ghost var done: set<nat> := {};
      ListedIds(g, now, items, b);
      RunNothing(items, run);
      for i := 0 to |todo|
        invariant items == RunAll(old(items), done, run) && batches == old(batches) && nextId == old(nextId)
        invariant done == ItemIds(todo[..i])
      {
        ItemIdsNext(todo, i);
        match run(todo[i].itemId) {
          case Succeeded(taskId) => UpdateItem(todo[i].itemId, Completed, Some(taskId), None);
          case Raised(error) => UpdateItem(todo[i].itemId, Failed, None, Some(error));
        }
        RunOneMore(old(items), done, run, todo[i].itemId, items);
        done := done + {todo[i].itemId};
      }
      assert todo[..|todo|] == todo;
      RunKeepsIds(old(items), done, run, nextId);
      RunKeepsStamps(old(items), done, run);
    }
  }

  lemma ItemIdsNext(items: seq<ItemRow>, i: nat)
    requires i < |items|
    ensures ItemIds(items[..i + 1]) == ItemIds(items[..i]) + {items[i].itemId}
  {
    assert items[..i + 1] == items[..i] + [items[i]];
  }

  lemma ListedIds(g: Aging, now: real, items: seq<ItemRow>, b: nat)
    ensures ItemIds(ListPending(g, now, items, b)) == ItemIds(PendingOf(items, b))
  {
    var listed, pending := ListPending(g, now, items, b), PendingOf(items, b);
    ListPendingIsExact(g, now, items, b, listed);
    forall x ensures x in listed <==> x in pending {
      assert x in multiset(listed) <==> x in multiset(pending);
    }
  }
}
