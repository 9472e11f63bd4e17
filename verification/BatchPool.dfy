/** Batch coordinators and the items they fan out share one bounded thread pool. A coordinator
    holds its worker while it waits for its items, so the pool can fill up with waiting
    coordinators. The pool is modelled as a step system over a FIFO queue. */
module BatchPool {

  datatype Outcome = Pending | Completed | Failed

  datatype BatchStatus = BatchPending | BatchRunning | BatchCompleted | BatchFailed | BatchPartial

  /** The counters and the status that `refresh_batch_counters` writes to a batch row. */
  datatype Counters = Counters(status: BatchStatus, completed: nat, failed: nat)

  /** A submitted batch: its item rows in the order the coordinator lists them, how many of
      them the coordinator has handed to the executor, and its own row. */
  datatype Batch = Batch(items: seq<Outcome>, submitted: nat, finished: bool, row: Counters)

  datatype Task = Coordinator(batch: nat) | Item(batch: nat, index: nat)

  datatype Pool = Pool(queue: seq<Task>, running: set<Task>, batches: seq<Batch>)

  datatype Step =
    | SubmitBatch(size: nat)                     // submit_batch, from outside the pool
    | StartNext                                  // a free worker takes the head of the queue
    | SubmitItem(batch: nat)                     // a coordinator submits its next item
    | FinishItem(batch: nat, index: nat, ok: bool)
    | FinishBatch(batch: nat)                    // all futures done: refresh counters, return

  const EMPTY := Pool([], {}, [])

  // ----- batch rows -----

  function Count(items: seq<Outcome>, what: Outcome): nat {
    if items == [] then 0
    else Count(items[1..], what) + if items[0] == what then 1 else 0
  }

  function StatusOf(pending: nat, completed: nat, failed: nat): BatchStatus {
    if pending > 0 && completed + failed > 0 then BatchRunning
    else if pending == 0 && failed == 0 then BatchCompleted
    else if pending == 0 && completed == 0 then BatchFailed
    else if pending == 0 then BatchPartial
    else BatchPending
  }

  function Refreshed(items: seq<Outcome>): Counters {
    var completed := Count(items, Completed);
    var failed := Count(items, Failed);
    Counters(StatusOf(Count(items, Pending), completed, failed), completed, failed)
  }

  lemma {:induction false} CountsCoverItems(items: seq<Outcome>)
    ensures Count(items, Pending) + Count(items, Completed) + Count(items, Failed) == |items|
  {
    if items != [] {
      CountsCoverItems(items[1..]);
    }
  }

  lemma {:induction false} CountZeroIffAbsent(items: seq<Outcome>, what: Outcome)
    ensures Count(items, what) == 0 <==> what !in items
  {
    if items != [] {
      CountZeroIffAbsent(items[1..], what);
      assert items == [items[0]] + items[1..];
    }
  }

  /** Once nothing is pending the counters add up to the total and the status names exactly
      which outcomes occurred. An empty batch counts as completed. */
  lemma FinishedCountersAreExact(items: seq<Outcome>)
    requires Pending !in items
    ensures var c := Refreshed(items);
      && c.completed + c.failed == |items|
      && (c.status == BatchCompleted <==> Failed !in items)
      && (c.status == BatchFailed <==> Failed in items && Completed !in items)
      && (c.status == BatchPartial <==> Failed in items && Completed in items)
  {
    CountsCoverItems(items);
    CountZeroIffAbsent(items, Pending);
    CountZeroIffAbsent(items, Completed);
    CountZeroIffAbsent(items, Failed);
  }

  /** What a refreshed row says, finished or not. */
  ghost predicate Reports(c: Counters, items: seq<Outcome>) {
    && c.completed == Count(items, Completed) && c.failed == Count(items, Failed)
    && (c.status == BatchRunning <==> Pending in items && (Completed in items || Failed in items))
    && (c.status == BatchPending <==> Pending in items && Completed !in items && Failed !in items)
    && (c.status == BatchCompleted <==> Pending !in items && Failed !in items)
    && (c.status == BatchFailed <==> Pending !in items && Failed in items && Completed !in items)
    && (c.status == BatchPartial <==> Pending !in items && Failed in items && Completed in items)
  }

  lemma RefreshedReports(items: seq<Outcome>)
    ensures Reports(Refreshed(items), items)
  {
    CountZeroIffAbsent(items, Pending);
    CountZeroIffAbsent(items, Completed);
    CountZeroIffAbsent(items, Failed);
  }

  // ----- steps -----

  predicate Unfinished(p: Pool, b: nat) {
    b < |p.batches| && !p.batches[b].finished
  }

  predicate Enabled(workers: nat, p: Pool, s: Step) {
    match s
    case SubmitBatch(_) => true
    case StartNext => p.queue != [] && |p.running| < workers
    case SubmitItem(b) =>
      && Coordinator(b) in p.running && b < |p.batches|
      && p.batches[b].submitted < |p.batches[b].items|
    case FinishItem(b, i, _) =>
      && Item(b, i) in p.running
      && b < |p.batches| && i < |p.batches[b].items|
    case FinishBatch(b) =>
      && Coordinator(b) in p.running && b < |p.batches|
      && p.batches[b].submitted == |p.batches[b].items|
      && Pending !in p.batches[b].items
  }

  function Apply(workers: nat, p: Pool, s: Step): Pool
    requires Enabled(workers, p, s)
  {
    match s
    case SubmitBatch(n) =>
      var newBatch := Batch(seq(n, _ => Pending), 0, false, Counters(BatchPending, 0, 0));
      Pool(p.queue + [Coordinator(|p.batches|)], p.running, p.batches + [newBatch])
    case StartNext =>
      var t := p.queue[0];
      Pool(p.queue[1..], p.running + {t},
           if t.Coordinator? && t.batch < |p.batches|
           then p.batches[t.batch := p.batches[t.batch].(row := p.batches[t.batch].row.(status := BatchRunning))]
           else p.batches)
    case SubmitItem(b) =>
      var k := p.batches[b].submitted;
      Pool(p.queue + [Item(b, k)], p.running, p.batches[b := p.batches[b].(submitted := k + 1)])
    case FinishItem(b, i, ok) =>
      var items := p.batches[b].items[i := if ok then Completed else Failed];
      Pool(p.queue, p.running - {Item(b, i)}, p.batches[b := p.batches[b].(items := items)])
    case FinishBatch(b) =>
      var done := p.batches[b].(finished := true, row := Refreshed(p.batches[b].items));
      Pool(p.queue, p.running - {Coordinator(b)}, p.batches[b := done])
  }

  /** `q` is reached from `p` by taking `steps` in order. */
  ghost predicate Path(workers: nat, p: Pool, steps: seq<Step>, q: Pool)
    decreases |steps|
  {
    if steps == [] then p == q
    else Enabled(workers, p, steps[0]) && Path(workers, Apply(workers, p, steps[0]), steps[1..], q)
  }

  ghost predicate Internal(steps: seq<Step>) {
    forall i :: 0 <= i < |steps| ==> !steps[i].SubmitBatch?
  }

  lemma {:induction false} PathConcat(w: nat, p: Pool, s1: seq<Step>, q: Pool, s2: seq<Step>, r: Pool)
    requires Path(w, p, s1, q) && Path(w, q, s2, r)
    ensures Path(w, p, s1 + s2, r)
    decreases |s1|
  {
    if s1 == [] {
      assert s1 + s2 == s2;
    } else {
      PathConcat(w, Apply(w, p, s1[0]), s1[1..], q, s2, r);
      assert (s1 + s2)[1..] == s1[1..] + s2;
    }
  }

  // ----- the invariant of every reachable pool -----

  /** The tasks that the batch rows say must still be queued or running. */
  ghost predicate Expected(batches: seq<Batch>, t: Task) {
    && t.batch < |batches|
    && match t
       case Coordinator(b) => !batches[b].finished
       case Item(b, i) => i < batches[b].submitted && i < |batches[b].items| && batches[b].items[i] == Pending
  }

  ghost predicate WellFormed(b: Batch) {
    && b.submitted <= |b.items|
    && (!b.finished ==> b.row == Counters(b.row.status, 0, 0) && b.row.status in {BatchPending, BatchRunning})
    && (forall i :: b.submitted <= i < |b.items| ==> b.items[i] == Pending)
    && (b.finished ==> b.submitted == |b.items| && Pending !in b.items && b.row == Refreshed(b.items))
  }

  ghost predicate Inv(workers: nat, p: Pool) {
    && |p.running| <= workers
    && (forall i, j :: 0 <= i < j < |p.queue| ==> p.queue[i] != p.queue[j])
    && (forall t :: t in p.queue ==> t !in p.running)
    && (forall t: Task :: (t in p.queue || t in p.running) <==> Expected(p.batches, t))
    && (forall b :: 0 <= b < |p.batches| ==> WellFormed(p.batches[b]))
  }

  lemma SubmitBatchKeepsInv(w: nat, p: Pool, n: nat)
    requires Inv(w, p)
    ensures Inv(w, Apply(w, p, SubmitBatch(n)))
  {
    var q := Apply(w, p, SubmitBatch(n));
    assert !Expected(p.batches, Coordinator(|p.batches|));
    forall t: Task ensures (t in q.queue || t in q.running) <==> Expected(q.batches, t) {
      assert t in q.queue <==> t in p.queue || t == Coordinator(|p.batches|);
      assert (t in p.queue || t in p.running) <==> Expected(p.batches, t);
    }
  }

  lemma StartNextKeepsInv(w: nat, p: Pool)
    requires Inv(w, p) && Enabled(w, p, StartNext)
    ensures Inv(w, Apply(w, p, StartNext))
  {
    hide WellFormed;
    var q := Apply(w, p, StartNext);
    var t0 := p.queue[0];
    assert p.queue == [t0] + q.queue;
    assert t0 in p.queue;
    assert Expected(p.batches, t0);
    forall t: Task ensures (t in q.queue || t in q.running) <==> Expected(q.batches, t) {
      assert (t in p.queue || t in p.running) <==> Expected(p.batches, t);
      assert Expected(q.batches, t) == Expected(p.batches, t);
    }
    if t0.Coordinator? {
      StartedIsWellFormed(p.batches[t0.batch]);
    }
  }

  lemma StartedIsWellFormed(b: Batch)
    requires WellFormed(b) && !b.finished
    ensures WellFormed(b.(row := b.row.(status := BatchRunning)))
  {
  }

  lemma SubmitItemKeepsInv(w: nat, p: Pool, b: nat)
    requires Inv(w, p) && Enabled(w, p, SubmitItem(b))
    ensures Inv(w, Apply(w, p, SubmitItem(b)))
  {
    var q := Apply(w, p, SubmitItem(b));
    var t0 := Item(b, p.batches[b].submitted);
    assert WellFormed(p.batches[b]);
    assert !Expected(p.batches, t0);
    assert Expected(p.batches, Coordinator(b));
    forall t: Task ensures (t in q.queue || t in q.running) <==> Expected(q.batches, t) {
      assert t in q.queue <==> t in p.queue || t == t0;
      assert (t in p.queue || t in p.running) <==> Expected(p.batches, t);
      assert t != t0 ==> Expected(q.batches, t) == Expected(p.batches, t);
    }
  }

  lemma FinishItemKeepsInv(w: nat, p: Pool, b: nat, i: nat, ok: bool)
    requires Inv(w, p) && Enabled(w, p, FinishItem(b, i, ok))
    ensures Inv(w, Apply(w, p, FinishItem(b, i, ok)))
  {
    var q := Apply(w, p, FinishItem(b, i, ok));
    var t0 := Item(b, i);
    assert Expected(p.batches, t0);
    assert WellFormed(p.batches[b]);
    forall t: Task ensures (t in q.queue || t in q.running) <==> Expected(q.batches, t) {
      assert (t in p.queue || t in p.running) <==> Expected(p.batches, t);
      assert t != t0 ==> Expected(q.batches, t) == Expected(p.batches, t);
    }
    assert p.batches[b].items[i] in p.batches[b].items;
  }

  lemma FinishBatchKeepsInv(w: nat, p: Pool, b: nat)
    requires Inv(w, p) && Enabled(w, p, FinishBatch(b))
    ensures Inv(w, Apply(w, p, FinishBatch(b)))
  {
    var q := Apply(w, p, FinishBatch(b));
    var t0 := Coordinator(b);
    assert Expected(p.batches, t0);
    forall t: Task ensures (t in q.queue || t in q.running) <==> Expected(q.batches, t) {
      assert (t in p.queue || t in p.running) <==> Expected(p.batches, t);
      assert t != t0 ==> Expected(q.batches, t) == Expected(p.batches, t);
    }
  }

  /** What every step of the pool keeps. */
  lemma StepKeepsInv(w: nat, p: Pool, s: Step)
    requires Inv(w, p) && Enabled(w, p, s)
    ensures Inv(w, Apply(w, p, s))
  {
    match s
    case SubmitBatch(n) => SubmitBatchKeepsInv(w, p, n);
    case StartNext => StartNextKeepsInv(w, p);
    case SubmitItem(b) => SubmitItemKeepsInv(w, p, b);
    case FinishItem(b, i, ok) => FinishItemKeepsInv(w, p, b, i, ok);
    case FinishBatch(b) => FinishBatchKeepsInv(w, p, b);
  }

  lemma {:induction false} PathKeepsInv(w: nat, p: Pool, steps: seq<Step>, q: Pool)
    requires Inv(w, p) && Path(w, p, steps, q)
    ensures Inv(w, q)
    decreases |steps|
  {
    if steps != [] {
      StepKeepsInv(w, p, steps[0]);
      PathKeepsInv(w, Apply(w, p, steps[0]), steps[1..], q);
    }
  }

  /** An unfinished batch is pending exactly as long as its coordinator is queued. */
  ghost predicate StatusTells(p: Pool) {
    forall b :: 0 <= b < |p.batches| && !p.batches[b].finished ==>
      (p.batches[b].row.status == BatchPending <==> Coordinator(b) in p.queue)
  }

  lemma StepKeepsStatus(w: nat, p: Pool, s: Step)
    requires Inv(w, p) && StatusTells(p) && Enabled(w, p, s)
    ensures StatusTells(Apply(w, p, s))
  {
    hide WellFormed, Expected;
    var q := Apply(w, p, s);
    if s == StartNext {
      var t0 := p.queue[0];
      assert p.queue == [t0] + q.queue;
      FirstIsGone(p.queue, q.queue, t0);
    } else {
      hide Inv;
      assert forall b :: 0 <= b < |p.batches| ==> (Coordinator(b) in q.queue <==> Coordinator(b) in p.queue);
      assert s.SubmitBatch? ==> q.queue[|p.queue|] == Coordinator(|p.batches|);
    }
  }

  lemma FirstIsGone(queue: seq<Task>, rest: seq<Task>, t0: Task)
    requires queue == [t0] + rest && forall i, j :: 0 <= i < j < |queue| ==> queue[i] != queue[j]
    ensures t0 !in rest && forall t :: t in queue <==> t == t0 || t in rest
  {
    forall k | 0 <= k < |rest| ensures rest[k] != t0 {
      assert queue[0] != queue[k + 1];
    }
  }

  lemma {:induction false} PathKeepsStatus(w: nat, p: Pool, steps: seq<Step>, q: Pool)
    requires Inv(w, p) && StatusTells(p) && Path(w, p, steps, q)
    ensures StatusTells(q)
    decreases |steps|
  {
    hide StatusTells, Enabled;
    if steps != [] {
      StepKeepsInv(w, p, steps[0]);
      StepKeepsStatus(w, p, steps[0]);
      PathKeepsStatus(w, Apply(w, p, steps[0]), steps[1..], q);
    }
  }

  // ----- getting stuck -----

  /** Work remains, yet nothing inside the pool can move. */
  ghost predicate Stuck(workers: nat, p: Pool) {
    && (exists b :: Unfinished(p, b))
    && (forall s: Step :: Enabled(workers, p, s) ==> s.SubmitBatch?)
  }

  /** Every worker holds a coordinator that has handed out all its items and waits for one. */
  ghost predicate AllWorkersWaiting(workers: nat, p: Pool) {
    && |p.running| == workers
    && forall t :: t in p.running ==>
         && t.Coordinator? && t.batch < |p.batches|
         && p.batches[t.batch].submitted == |p.batches[t.batch].items|
         && Pending in p.batches[t.batch].items
  }

  /** The batches that can hold a worker waiting: unfinished ones with items. */
  ghost function InFlight(p: Pool): set<Task> {
    set b | 0 <= b < |p.batches| && !p.batches[b].finished && p.batches[b].items != [] :: Coordinator(b)
  }

  /** The only way for the pool to get stuck is for waiting coordinators to hold every worker. */
  lemma StuckIffAllWorkersWait(w: nat, p: Pool)
    requires w >= 1 && Inv(w, p)
    ensures Stuck(w, p) <==> AllWorkersWaiting(w, p)
  {
    if AllWorkersWaiting(w, p) {
      var t :| t in p.running;
      assert Unfinished(p, t.batch) by { assert Expected(p.batches, t); }
      forall s: Step | Enabled(w, p, s) ensures s.SubmitBatch? {}
    }
    if Stuck(w, p) {
      forall t | t in p.running ensures
          && t.Coordinator? && t.batch < |p.batches|
          && p.batches[t.batch].submitted == |p.batches[t.batch].items|
          && Pending in p.batches[t.batch].items
      {
        assert Expected(p.batches, t);
        match t
        case Item(b, i) => assert Enabled(w, p, FinishItem(b, i, true));
        case Coordinator(b) =>
          assert WellFormed(p.batches[b]);
          assert !Enabled(w, p, SubmitItem(b));
          assert !Enabled(w, p, FinishBatch(b));
      }
      if |p.running| < w {
        assert !Enabled(w, p, StartNext);
        SomethingRuns(w, p);
        var t :| t in p.running;
        ItemRuns(w, p, t.batch);
      }
    }
  }

  lemma SomethingRuns(w: nat, p: Pool)
    requires Inv(w, p) && p.queue == [] && exists b :: Unfinished(p, b)
    ensures p.running != {}
  {
    var b :| Unfinished(p, b);
    assert Expected(p.batches, Coordinator(b));
  }

  lemma ItemRuns(w: nat, p: Pool, b: nat)
    requires Inv(w, p) && p.queue == [] && b < |p.batches|
    requires p.batches[b].submitted == |p.batches[b].items| && Pending in p.batches[b].items
    ensures exists i: nat :: Item(b, i) in p.running
  {
    var i :| 0 <= i < |p.batches[b].items| && p.batches[b].items[i] == Pending;
    assert Expected(p.batches, Item(b, i));
  }

  lemma QueueHasHead(queue: seq<Task>)
    ensures queue == [] || exists t :: t in queue
  {
    if queue != [] {
      assert queue[0] in queue;
    }
  }

  lemma SubsetCardinality<T>(a: set<T>, b: set<T>)
    requires a <= b
    ensures |a| <= |b|
  {
    assert b == a + (b - a);
  }

  /** While fewer batches with items are in flight than there are workers, every reachable pool with
      work left can take a step, whatever other batches came and went before or have no items. */
  lemma NeverStuckBelowWorkers(w: nat, steps: seq<Step>, p: Pool)
    requires Path(w, EMPTY, steps, p)
    requires |InFlight(p)| < w
    ensures !Stuck(w, p)
  {
    assert Inv(w, EMPTY);
    PathKeepsInv(w, EMPTY, steps, p);
    if Stuck(w, p) {
      StuckIffAllWorkersWait(w, p);
      forall t | t in p.running ensures t in InFlight(p) {
        assert Expected(p.batches, t);
      }
      SubsetCardinality(p.running, InFlight(p));
      assert false;
    }
  }

  // ----- finishing -----

  ghost function Unsubmitted(batches: seq<Batch>): int {
    if batches == [] then 0
    else Unsubmitted(batches[..|batches| - 1])
         + |batches[|batches| - 1].items| - batches[|batches| - 1].submitted
  }

  lemma {:induction false} UnsubmittedUpdate(bs: seq<Batch>, b: nat, x: Batch)
    requires b < |bs|
    ensures Unsubmitted(bs[b := x])
         == Unsubmitted(bs) - (|bs[b].items| - bs[b].submitted) + (|x.items| - x.submitted)
  {
    var n := |bs| - 1;
    if b == n {
      assert bs[b := x][..n] == bs[..n];
    } else {
      UnsubmittedUpdate(bs[..n], b, x);
      assert bs[b := x][..n] == bs[..n][b := x];
    }
  }

  lemma {:induction false} UnsubmittedNonNegative(bs: seq<Batch>)
    requires forall b :: 0 <= b < |bs| ==> WellFormed(bs[b])
    ensures Unsubmitted(bs) >= 0
  {
    if bs != [] {
      UnsubmittedNonNegative(bs[..|bs| - 1]);
    }
  }

  ghost function Measure(p: Pool): int {
    2 * |p.queue| + |p.running| + 3 * Unsubmitted(p.batches)
  }

  /** What replacing one batch does to the measure's part of it, if it keeps its items. */
  lemma BatchReplaced(p: Pool, b: nat, x: Batch)
    requires b < |p.batches| && |x.items| == |p.batches[b].items| && (p.batches[b].finished ==> x.finished)
    ensures Unsubmitted(p.batches[b := x]) == Unsubmitted(p.batches) - (x.submitted - p.batches[b].submitted)
    ensures InFlight(p.(batches := p.batches[b := x])) <= InFlight(p)
  {
    UnsubmittedUpdate(p.batches, b, x);
  }

  /** Taking a task from the queue. */
  lemma StartDecreases(w: nat, p: Pool)
    requires Enabled(w, p, StartNext) && p.queue[0] !in p.running
    ensures Measure(Apply(w, p, StartNext)) < Measure(p) && InFlight(Apply(w, p, StartNext)) <= InFlight(p)
  {
    hide Unsubmitted, Refreshed;
    var t := p.queue[0];
    if t.Coordinator? && t.batch < |p.batches| {
      BatchReplaced(p, t.batch, p.batches[t.batch].(row := p.batches[t.batch].row.(status := BatchRunning)));
    }
  }

  lemma HandOutDecreases(w: nat, p: Pool, b: nat)
    requires Enabled(w, p, SubmitItem(b))
    ensures Measure(Apply(w, p, SubmitItem(b))) < Measure(p) && InFlight(Apply(w, p, SubmitItem(b))) <= InFlight(p)
  {
    hide Unsubmitted, Refreshed;
    BatchReplaced(p, b, p.batches[b].(submitted := p.batches[b].submitted + 1));
  }

  lemma FinishItemDecreases(w: nat, p: Pool, b: nat, i: nat, ok: bool)
    requires Enabled(w, p, FinishItem(b, i, ok))
    ensures var q := Apply(w, p, FinishItem(b, i, ok)); Measure(q) < Measure(p) && InFlight(q) <= InFlight(p)
  {
    hide Unsubmitted, Refreshed;
    BatchReplaced(p, b, p.batches[b].(items := p.batches[b].items[i := if ok then Completed else Failed]));
  }

  lemma FinishBatchDecreases(w: nat, p: Pool, b: nat)
    requires Enabled(w, p, FinishBatch(b))
    ensures var q := Apply(w, p, FinishBatch(b)); Measure(q) < Measure(p) && InFlight(q) <= InFlight(p)
  {
    hide Unsubmitted, Refreshed;
    BatchReplaced(p, b, p.batches[b].(finished := true, row := Refreshed(p.batches[b].items)));
  }

  /** Every step inside the pool makes progress, and no step puts a finished batch back. */
  lemma InternalStepDecreases(w: nat, p: Pool, s: Step)
    requires Inv(w, p) && Enabled(w, p, s) && !s.SubmitBatch?
    ensures Measure(Apply(w, p, s)) < Measure(p)
    ensures InFlight(Apply(w, p, s)) <= InFlight(p)
  {
    match s
    case StartNext =>
      assert p.queue[0] in p.queue;
      StartDecreases(w, p);
    case SubmitItem(b) => HandOutDecreases(w, p, b);
    case FinishItem(b, i, ok) => FinishItemDecreases(w, p, b, i, ok);
    case FinishBatch(b) => FinishBatchDecreases(w, p, b);
  }

  /** No schedule can keep the pool busy for longer than its measure. */
  lemma {:induction false} InternalRunsAreBounded(w: nat, p: Pool, steps: seq<Step>, q: Pool)
    requires Inv(w, p) && Path(w, p, steps, q) && Internal(steps)
    ensures |steps| + Measure(q) <= Measure(p)
    ensures Measure(q) >= 0
    ensures InFlight(q) <= InFlight(p)
    decreases |steps|
  {
    if steps == [] {
      UnsubmittedNonNegative(p.batches);
    } else {
      var m := Apply(w, p, steps[0]);
      InternalStepDecreases(w, p, steps[0]);
      StepKeepsInv(w, p, steps[0]);
      InternalRunsAreBounded(w, m, steps[1..], q);
    }
  }

  /** A batch is done with its books balanced. */
  ghost predicate Settled(b: Batch) {
    && b.finished && Pending !in b.items
    && b.row.completed + b.row.failed == |b.items|
    && (b.row.status == BatchCompleted <==> Failed !in b.items)
    && (b.row.status == BatchFailed <==> Failed in b.items && Completed !in b.items)
    && (b.row.status == BatchPartial <==> Failed in b.items && Completed in b.items)
  }

  /** Below the worker limit every schedule, run until nothing inside the pool can move, takes
      boundedly many steps and finishes every item of every batch. */
  lemma EveryScheduleFinishes(w: nat, history: seq<Step>, p: Pool, steps: seq<Step>, q: Pool)
    requires Path(w, EMPTY, history, p) && |InFlight(p)| < w
    requires Path(w, p, steps, q) && Internal(steps)
    requires forall s: Step :: Enabled(w, q, s) ==> s.SubmitBatch?
    ensures |steps| <= Measure(p)
    ensures forall b :: 0 <= b < |q.batches| ==> Settled(q.batches[b])
    ensures q.queue == [] && q.running == {}
  {
    assert Inv(w, EMPTY);
    PathKeepsInv(w, EMPTY, history, p);
    InternalRunsAreBounded(w, p, steps, q);
    PathConcat(w, EMPTY, history, p, steps, q);
    SubsetCardinality(InFlight(q), InFlight(p));
    NeverStuckBelowWorkers(w, history + steps, q);
    PathKeepsInv(w, p, steps, q);
    forall b | 0 <= b < |q.batches| ensures Settled(q.batches[b]) {
      assert !Unfinished(q, b);
      assert WellFormed(q.batches[b]);
      FinishedCountersAreExact(q.batches[b].items);
    }
    forall t: Task ensures !Expected(q.batches, t) {
      assert !Unfinished(q, t.batch);
      assert t.batch < |q.batches| ==> WellFormed(q.batches[t.batch]);
    }
    QueueHasHead(q.queue);
    assert forall t :: t in q.queue || t in q.running ==> Expected(q.batches, t);
  }

  // ----- the limit is sharp -----

  ghost function Coordinators(k: nat): set<Task> {
    set b | 0 <= b < k :: Coordinator(b)
  }

  ghost predicate Fresh(b: Batch, size: nat) {
    b.items == seq(size, _ => Pending) && b.submitted == 0 && !b.finished
  }

  /** All batches submitted, the first `k` coordinators started, nothing else done. */
  ghost predicate Launching(p: Pool, sizes: seq<nat>, k: nat) {
    && |p.batches| == |sizes| && k <= |sizes|
    && p.running == Coordinators(k)
    && p.queue == seq(|sizes| - k, i requires 0 <= i => Coordinator(k + i))
    && forall b :: 0 <= b < |sizes| ==> Fresh(p.batches[b], sizes[b])
  }

  lemma {:induction false} SubmitAll(w: nat, sizes: seq<nat>) returns (steps: seq<Step>, p: Pool)
    ensures Path(w, EMPTY, steps, p)
    ensures Launching(p, sizes, 0)
    decreases |sizes|
  {
    if sizes == [] {
      steps, p := [], EMPTY;
    } else {
      var n := |sizes| - 1;
      var s', p' := SubmitAll(w, sizes[..n]);
      var s := SubmitBatch(sizes[n]);
      p := Apply(w, p', s);
      steps := s' + [s];
      assert Path(w, p, [], p);
      assert [s][1..] == [];
      PathConcat(w, EMPTY, s', p', [s], p);
      assert sizes == sizes[..n] + [sizes[n]];
      assert p.queue == seq(|sizes|, i requires 0 <= i => Coordinator(i));
    }
  }

  lemma CoordinatorsCount(k: nat)
    ensures |Coordinators(k)| == k
  {
    if k > 0 {
      CoordinatorsCount(k - 1);
      assert Coordinators(k) == Coordinators(k - 1) + {Coordinator(k - 1)};
    }
  }

  lemma {:induction false} StartAll(w: nat, p: Pool, sizes: seq<nat>, k: nat) returns (steps: seq<Step>, q: Pool)
    requires Launching(p, sizes, k) && |sizes| == w
    ensures Path(w, p, steps, q)
    ensures Launching(q, sizes, w)
    decreases w - k
  {
    if k == w {
      steps, q := [], p;
    } else {
      CoordinatorsCount(k);
      var m := Apply(w, p, StartNext);
      assert m.running == Coordinators(k + 1);
      assert m.queue == seq(|sizes| - (k + 1), i requires 0 <= i => Coordinator(k + 1 + i));
      var rest;
      rest, q := StartAll(w, m, sizes, k + 1);
      steps := [StartNext] + rest;
      assert steps[1..] == rest;
    }
  }

  /** Every worker holds a coordinator and no item has run. */
  ghost predicate Filling(w: nat, p: Pool) {
    && |p.batches| == w && p.running == Coordinators(w)
    && forall b :: 0 <= b < w ==>
         && |p.batches[b].items| > 0 && p.batches[b].submitted <= |p.batches[b].items|
         && forall i :: 0 <= i < |p.batches[b].items| ==> p.batches[b].items[i] == Pending
  }

  lemma {:induction false} HandOutAll(w: nat, p: Pool) returns (steps: seq<Step>, q: Pool)
    requires Inv(w, p) && Filling(w, p)
    ensures Path(w, p, steps, q)
    ensures AllWorkersWaiting(w, q)
    decreases Measure(p)
  {
    UnsubmittedNonNegative(p.batches);
    if b :| 0 <= b < w && p.batches[b].submitted < |p.batches[b].items| {
      assert Coordinator(b) in p.running;
      var m := Apply(w, p, SubmitItem(b));
      InternalStepDecreases(w, p, SubmitItem(b));
      StepKeepsInv(w, p, SubmitItem(b));
      UnsubmittedNonNegative(m.batches);
      var rest;
      rest, q := HandOutAll(w, m);
      steps := [SubmitItem(b)] + rest;
      assert steps[1..] == rest;
    } else {
      CoordinatorsCount(w);
      steps, q := [], p;
      forall t | t in p.running ensures
          && t.Coordinator? && t.batch < |p.batches|
          && p.batches[t.batch].submitted == |p.batches[t.batch].items|
          && Pending in p.batches[t.batch].items
      {
        assert p.batches[t.batch].items[0] == Pending;
      }
    }
  }

  /** With as many non-empty batches as workers, some schedule gets the pool stuck for good. */
  lemma StuckReachableAtWorkers(w: nat, sizes: seq<nat>) returns (steps: seq<Step>, p: Pool)
    requires w >= 1 && |sizes| == w
    requires forall b :: 0 <= b < w ==> sizes[b] > 0
    ensures Path(w, EMPTY, steps, p)
    ensures Stuck(w, p)
  {
    hide Path, Stuck;
    var s1, p1 := SubmitAll(w, sizes);
    var s2, p2 := StartAll(w, p1, sizes, 0);
    PathConcat(w, EMPTY, s1, p1, s2, p2);
    assert Inv(w, EMPTY);
    PathKeepsInv(w, EMPTY, s1 + s2, p2);
    forall b | 0 <= b < w ensures Fresh(p2.batches[b], sizes[b]) {}
    var s3, p3 := HandOutAll(w, p2);
    PathConcat(w, EMPTY, s1 + s2, p2, s3, p3);
    PathKeepsInv(w, p2, s3, p3);
    StuckIffAllWorkersWait(w, p3);
    steps, p := s1 + s2 + s3, p3;
  }
}
