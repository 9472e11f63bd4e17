/** The whole reduction: dedupe, the bucket phase, and the global budget with its degrade order and
    final sweep. */
module ContextBudget {
  import opened Basics
  import opened StableSort
  import opened ContextItems
  import opened ContextDedupe
  import opened ContextPolicy
  import opened BucketLoop
  import opened ContextTally
  import opened ContextReducer

  function InBucket(items: seq<Item>, b: Bucket): seq<Item> {
    if items == [] then []
    else (if ResolveBucket(items[0]) == b then [items[0]] else []) + InBucket(items[1..], b)
  }

  lemma {:induction false} InBucketMembers(items: seq<Item>, b: Bucket)
    ensures multiset(InBucket(items, b)) <= multiset(items)
    ensures forall x :: x in InBucket(items, b) <==> x in items && ResolveBucket(x) == b
  {
    if items != [] {
      InBucketMembers(items[1..], b);
      assert items == [items[0]] + items[1..];
    }
  }

  // ----- the degrade order -----

  /** Items still to be visited are still kept. */
  ghost predicate StillKept(kept: seq<Item>, todo: seq<Item>) {
    multiset(todo) <= multiset(kept)
  }

  lemma StillKeptAfterRemoval(kept: seq<Item>, todo: seq<Item>, more: seq<Item>)
    requires todo != [] && StillKept(kept, todo)
    ensures todo[0] in kept && StillKept(kept, todo[1..])
    ensures StillKept(RemoveFirst(kept, todo[0]), todo[1..])
    ensures StillKept(RemoveFirst(kept, todo[0]) + more, todo[1..])
  {
    assert todo == [todo[0]] + todo[1..];
    assert todo[0] in multiset(todo);
    RemoveFirstTakesOne(kept, todo[0]);
  }

  /** What happens to one item of a degraded bucket: cut to half its tokens if its bucket or the
      item itself may not be dropped from, left alone if it may not be cut either. */
  function DegradeItem(c: Compressors, p: Policy, b: Bucket, t: Tally, x: Item): Tally {
    if !x.droppable || b in p.preserve then
      if x.compressible then ReplaceItem(t, x, Truncate(c, x, Max(32, x.tokens / 2))) else t
    else DropItem(t, x)
  }

  /** The items are visited in order for as long as the kept tokens are over the budget. */
  function DegradeItems(c: Compressors, p: Policy, b: Bucket, budget: int, order: seq<Item>, t: Tally): Tally
    decreases |order|
  {
    if order == [] || SumTokens(t.kept) <= budget then t
    else DegradeItems(c, p, b, budget, order[1..], DegradeItem(c, p, b, t, order[0]))
  }

  function ShelveAll(group: seq<Item>, t: Tally): Tally
    decreases |group|
  {
    if group == [] then t else ShelveAll(group[1..], ShelveItem(t, group[0]))
  }

  function Transcribed(c: Compressors, group: seq<Item>, t: Tally): Tally {
    var shelved := ShelveAll(group, t);
    shelved.(kept := shelved.kept + c.transcript(group))
  }

  /** The buckets of the degrade order, one after the other while over the budget. */
  function Degraded(c: Compressors, p: Policy, budget: int, buckets: seq<Bucket>, t: Tally): Tally
    decreases |buckets|
  {
    if buckets == [] || SumTokens(t.kept) <= budget then t
    else
      var b := buckets[0];
      var group := InBucket(t.kept, b);
      Degraded(c, p, budget, buckets[1..],
        if group == [] then t
        else if b in p.compressible && b == RecentTranscript then Transcribed(c, group, t)
        else DegradeItems(c, p, b, budget, Sort(WorstFirst, group), t))
  }

  /** The ids that compressing the transcript makes in the degrade order, along the same path. */
  function DegradeMade(c: Compressors, p: Policy, budget: int, buckets: seq<Bucket>, t: Tally): set<string>
    decreases |buckets|
  {
    if buckets == [] || SumTokens(t.kept) <= budget then {}
    else
      var b := buckets[0];
      var group := InBucket(t.kept, b);
      if group == [] then DegradeMade(c, p, budget, buckets[1..], t)
      else if b in p.compressible && b == RecentTranscript then
        IdSet(c.transcript(group)) + DegradeMade(c, p, budget, buckets[1..], Transcribed(c, group, t))
      else DegradeMade(c, p, budget, buckets[1..], DegradeItems(c, p, b, budget, Sort(WorstFirst, group), t))
  }

  /** Degrades one bucket item by item, least important first. */
  method DegradeBucket(c: Compressors, p: Policy, b: Bucket, group: seq<Item>, budget: int, t0: Tally) returns (t: Tally)
    requires StillKept(t0.kept, group)
    ensures t == DegradeItems(c, p, b, budget, Sort(WorstFirst, group), t0)
    ensures Moves({}, t0, t)
  {
    t := t0;
    var order := Sort(WorstFirst, group);
    SortPermutes(WorstFirst, group);
    MovesRefl(t0);
    assert order[0..] == order;
    for i := 0 to |order|
      invariant DegradeItems(c, p, b, budget, order[i..], t) == DegradeItems(c, p, b, budget, order, t0)
      invariant Moves({}, t0, t)
      invariant StillKept(t.kept, order[i..])
    {
      if SumTokens(t.kept) <= budget { break; }
      var x := order[i];
      assert order[i..][0] == x && order[i..][1..] == order[i + 1..];
      StillKeptAfterRemoval(t.kept, order[i..], []);
      ghost var before := t;
      if !x.droppable || b in p.preserve {
        if x.compressible {
          var trimmed := Truncate(c, x, Max(32, x.tokens / 2));
          TruncateKeepsIdentity(c, x, Max(32, x.tokens / 2));
          StillKeptAfterRemoval(t.kept, order[i..], [trimmed]);
          ReplaceMoves(t, x, trimmed);
          t := ReplaceItem(t, x, trimmed);
        } else {
          MovesRefl(t);
        }
      } else {
        DropMoves(t, x);
        t := DropItem(t, x);
      }
      MovesOn({}, t0, before, t);
    }
  }

  /** Replaces all transcript items by their compression. */
  method CompressTranscript(c: Compressors, group: seq<Item>, t0: Tally) returns (t: Tally)
    requires StillKept(t0.kept, group)
    ensures t == Transcribed(c, group, t0)
    ensures Moves(IdSet(c.transcript(group)), t0, t)
  {
    t := t0;
    MovesRefl(t0);
    assert group[0..] == group;
    for i := 0 to |group|
      invariant ShelveAll(group[i..], t) == ShelveAll(group, t0)
      invariant Moves({}, t0, t) && StillKept(t.kept, group[i..])
    {
      var x := group[i];
      assert group[i..][0] == x && group[i..][1..] == group[i + 1..];
      StillKeptAfterRemoval(t.kept, group[i..], []);
      ShelveMoves(t, x);
      MovesOn({}, t0, t, ShelveItem(t, x));
      t := ShelveItem(t, x);
    }
    ExtendMoves(t, c.transcript(group));
    MovesTrans({}, IdSet(c.transcript(group)), t0, t, t.(kept := t.kept + c.transcript(group)));
    t := t.(kept := t.kept + c.transcript(group));
  }

  method Degrade(c: Compressors, p: Policy, budget: int, t0: Tally) returns (t: Tally)
    ensures t == Degraded(c, p, budget, p.degradeOrder, t0)
    ensures Moves(DegradeMade(c, p, budget, p.degradeOrder, t0), t0, t)
  {
    t := t0;
    MovesRefl(t0);
    ghost var made: set<string> := {};
    var order := p.degradeOrder;
    assert order[0..] == order;
    for i := 0 to |order|
      invariant Degraded(c, p, budget, order[i..], t) == Degraded(c, p, budget, order, t0)
      invariant made + DegradeMade(c, p, budget, order[i..], t) == DegradeMade(c, p, budget, order, t0)
      invariant Moves(made, t0, t)
    {
      if SumTokens(t.kept) <= budget { break; }
      var b := order[i];
      assert order[i..][0] == b && order[i..][1..] == order[i + 1..];
      var group := InBucket(t.kept, b);
      if group == [] { continue; }
      InBucketMembers(t.kept, b);
      ghost var before := t;
      if b in p.compressible && b == RecentTranscript {
        t := CompressTranscript(c, group, t);
        MovesTrans(made, IdSet(c.transcript(group)), t0, before, t);
        made := made + IdSet(c.transcript(group));
      } else {
        t := DegradeBucket(c, p, b, group, budget, t);
        MovesOn(made, t0, before, t);
      }
    }
  }

  // ----- the final sweep -----

  /** What the sweep may not touch. */
  predicate Protected(x: Item) { x.priority == Critical || !x.droppable }

  lemma SweepInvariantStep(kept: seq<Item>, todo: seq<Item>, spared: seq<Item>)
    requires todo != [] && multiset(kept) == multiset(todo) + multiset(spared)
    ensures todo[0] in kept
    ensures multiset(RemoveFirst(kept, todo[0])) == multiset(todo[1..]) + multiset(spared)
    ensures multiset(kept) == multiset(todo[1..]) + multiset(spared + [todo[0]])
  {
    assert todo == [todo[0]] + todo[1..];
    assert todo[0] in multiset(kept);
    RemoveFirstTakesOne(kept, todo[0]);
  }

  /** Unprotected items go one by one for as long as the kept tokens are over the budget. */
  function Swept(budget: int, order: seq<Item>, t: Tally): Tally
    decreases |order|
  {
    if order == [] || SumTokens(t.kept) <= budget then t
    else Swept(budget, order[1..], if Protected(order[0]) then t else DropItem(t, order[0]))
  }

  /** The sweep ends within the budget or with nothing left that it may drop. */
  method Sweep(budget: int, t0: Tally) returns (t: Tally)
    ensures t == Swept(budget, Sort(WorstFirst, t0.kept), t0)
    ensures Moves({}, t0, t)
    ensures SumTokens(t.kept) <= budget || forall x :: x in t.kept ==> Protected(x)
  {
    hide Sort, Moves, SumTokens;
    t := t0;
    MovesRefl(t0);
    var order := Sort(WorstFirst, t0.kept);
    SortPermutes(WorstFirst, t0.kept);
    ghost var spared: seq<Item> := [];
    var i := 0;
    assert order[0..] == order;
    while i < |order| && SumTokens(t.kept) > budget
      invariant i <= |order|
      invariant Swept(budget, order[i..], t) == Swept(budget, order, t0)
      invariant Moves({}, t0, t)
      invariant multiset(t.kept) == multiset(order[i..]) + multiset(spared)
      invariant forall x :: x in spared ==> Protected(x)
    {
      var x := order[i];
      assert order[i..][0] == x && order[i..][1..] == order[i + 1..];
      SweepInvariantStep(t.kept, order[i..], spared);
      if Protected(x) {
        spared := spared + [x];
      } else {
        DropMoves(t, x);
        MovesOn({}, t0, t, DropItem(t, x));
        t := DropItem(t, x);
      }
      i := i + 1;
    }
    if SumTokens(t.kept) > budget {
      assert order[i..] == [];
      OnlySpared(t.kept, spared);
    }
  }

  lemma OnlySpared(kept: seq<Item>, spared: seq<Item>)
    requires multiset(kept) == multiset(spared) && forall x :: x in spared ==> Protected(x)
    ensures forall x :: x in kept ==> Protected(x)
  {
    forall x | x in kept ensures Protected(x) { assert x in multiset(kept); }
  }

  /** The global phase. */
  function Enforced(c: Compressors, p: Policy, budget: int, t: Tally): Tally {
    var mid := Degraded(c, p, budget, p.degradeOrder, t);
    Swept(budget, Sort(WorstFirst, mid.kept), mid)
  }

  /** Degrade order, then sweep: within the budget, or everything left is critical or may not be
      dropped; whatever was dropped here was droppable. */
  method EnforceBudget(c: Compressors, p: Policy, budget: int, t0: Tally) returns (t: Tally)
    ensures t == Enforced(c, p, budget, t0)
    ensures Moves(DegradeMade(c, p, budget, p.degradeOrder, t0), t0, t)
    ensures SumTokens(t.kept) <= budget || forall x :: x in t.kept ==> Protected(x)
  {
    if SumTokens(t0.kept) <= budget { MovesRefl(t0); return t0; }
    var mid := Degrade(c, p, budget, t0);
    t := Sweep(budget, mid);
    MovesOn(DegradeMade(c, p, budget, p.degradeOrder, t0), t0, mid, t);
  }

  // ----- the whole reduction -----

  function Estimated(items: seq<Item>): seq<Item> {
    seq(|items|, i requires 0 <= i < |items| => EstimateItem(items[i]))
  }

  function Deduped(f: Fingerprints, items: seq<Item>): seq<Item> { Dedupe(f, Estimated(items)) }

  /** The reduction returns: every bucket loop it starts comes to an end. */
  ghost predicate Returns(c: Compressors, p: Policy, items: seq<Item>) {
    forall b :: BucketReturns(c, p, b, InBucket(items, b))
  }

  /** The buckets in the order in which items of them first appear. */
  function BucketsOf(items: seq<Item>): seq<Bucket> {
    if items == [] then []
    else
      var n := |items| - 1;
      var before := BucketsOf(items[..n]);
      if ResolveBucket(items[n]) in before then before else before + [ResolveBucket(items[n])]
  }

  method BucketOrder(items: seq<Item>) returns (order: seq<Bucket>)
    ensures order == BucketsOf(items)
    ensures forall x :: x in items ==> ResolveBucket(x) in order
  {
    order := [];
    for i := 0 to |items|
      invariant order == BucketsOf(items[..i])
      invariant forall k :: 0 <= k < i ==> ResolveBucket(items[k]) in order
    {
      assert items[..i + 1][..i] == items[..i];
      if ResolveBucket(items[i]) !in order { order := order + [ResolveBucket(items[i])]; }
    }
    assert items[..|items|] == items;
  }

  /** What the bucket phase keeps: bucket by bucket, what its loop left. */
  ghost function KeptByBuckets(c: Compressors, p: Policy, items: seq<Item>, order: seq<Bucket>): seq<Item>
    requires Returns(c, p, items)
  {
    if order == [] then []
    else
      var n := |order| - 1;
      assert BucketReturns(c, p, order[n], InBucket(items, order[n]));
      KeptByBuckets(c, p, items, order[..n]) + BucketLeft(c, p, order[n], InBucket(items, order[n]))
  }

  /** The ids that the bucket phase makes: only the transcript is ever compressed into new items. */
  function BucketsMade(c: Compressors, p: Policy, items: seq<Item>): set<string> {
    MadeInBucket(c, p, RecentTranscript, InBucket(items, RecentTranscript))
  }

  /** Every kept id is an input id or was made by compressing the transcript in this phase. */
  ghost predicate KnownIds(c: Compressors, p: Policy, items: seq<Item>, kept: seq<Item>) {
    IdSet(kept) <= IdSet(items) + BucketsMade(c, p, items)
  }

  lemma KnownIdsJoin(c: Compressors, p: Policy, items: seq<Item>, kept: seq<Item>, b: Bucket, left: seq<Item>)
    requires KnownIds(c, p, items, kept)
    requires IdSet(left) <= IdSet(InBucket(items, b)) + MadeInBucket(c, p, b, InBucket(items, b))
    ensures KnownIds(c, p, items, kept + left)
  {
    IdSetConcat(kept, left);
    InBucketMembers(items, b);
    if b != RecentTranscript {
      assert MadeInBucket(c, p, b, InBucket(items, b)) == {};
    }
  }

  lemma KeptByBucketsNext(c: Compressors, p: Policy, items: seq<Item>, order: seq<Bucket>, i: nat)
    requires Returns(c, p, items) && i < |order|
    ensures BucketReturns(c, p, order[i], InBucket(items, order[i]))
    ensures KeptByBuckets(c, p, items, order[..i + 1])
         == KeptByBuckets(c, p, items, order[..i]) + BucketLeft(c, p, order[i], InBucket(items, order[i]))
  {
    assert order[..i + 1][..i] == order[..i];
  }

  /** Every item of these buckets is accounted for. */
  ghost predicate Accounted(items: seq<Item>, done: set<Bucket>, t: Tally) {
    forall x :: x in items && ResolveBucket(x) in done ==> x.id in AllIds(t)
  }

  lemma BucketAccounted(items: seq<Item>, b: Bucket, done: set<Bucket>, t0: Tally, t: Tally)
    requires Accounted(items, done, t0) && Grows(t0, t) && IdSet(InBucket(items, b)) <= AllIds(t)
    ensures Accounted(items, done + {b}, t)
  {
    InBucketMembers(items, b);
    forall x | x in items && ResolveBucket(x) in done + {b} ensures x.id in AllIds(t) {
      if ResolveBucket(x) == b { assert x in InBucket(items, b); assert x.id in IdSet(InBucket(items, b)); }
    }
  }

  method ReduceOne(c: Compressors, p: Policy, items: seq<Item>, b: Bucket, ghost done: set<Bucket>, t0: Tally)
    returns (t: Tally)
    requires BucketReturns(c, p, b, InBucket(items, b))
    requires Honest(t0) && KnownIds(c, p, items, t0.kept) && Accounted(items, done, t0)
    ensures t.kept == t0.kept + BucketLeft(c, p, b, InBucket(items, b))
    ensures Honest(t) && KnownIds(c, p, items, t.kept) && Accounted(items, done + {b}, t)
  {
    hide Ends, Prepared, BucketLeft, Settled, RulesOf, MadeInBucket, KnownIds, LongestFit;
    var group := InBucket(items, b);
    InBucketMembers(items, b);
    var left;
    t, left := ReduceBucket(c, p, b, group, t0);
    KnownIdsJoin(c, p, items, t0.kept, b, left);
    BucketAccounted(items, b, done, t0, t);
  }

  /** The bucket phase over all buckets. */
  method ReduceBuckets(c: Compressors, p: Policy, items: seq<Item>) returns (t: Tally)
    requires Returns(c, p, items)
    ensures t.kept == KeptByBuckets(c, p, items, BucketsOf(items))
    ensures IdSet(items) <= AllIds(t) && Honest(t) && KnownIds(c, p, items, t.kept)
  {
    hide BucketReturns, BucketLeft, IdSet, AllIds, KnownIds, Accounted, Honest, InBucket, Returns;
    var order := BucketOrder(items);
    t := Tally([], [], [], []);
    NothingAccounted(c, p, items);
    ghost var done: set<Bucket> := {};
    for i := 0 to |order|
      invariant t.kept == KeptByBuckets(c, p, items, order[..i])
      invariant Honest(t) && KnownIds(c, p, items, t.kept)
      invariant forall k :: 0 <= k < i ==> order[k] in done
      invariant Accounted(items, done, t)
    {
      KeptByBucketsNext(c, p, items, order, i);
      t := ReduceOne(c, p, items, order[i], done, t);
      done := done + {order[i]};
    }
    assert order[..|order|] == order;
    AllAccounted(items, done, t);
  }

  lemma NothingAccounted(c: Compressors, p: Policy, items: seq<Item>)
    ensures var t := Tally([], [], [], []);
      Honest(t) && KnownIds(c, p, items, t.kept) && Accounted(items, {}, t)
  {
  }

  lemma AllAccounted(items: seq<Item>, done: set<Bucket>, t: Tally)
    requires Accounted(items, done, t) && forall x :: x in items ==> ResolveBucket(x) in done
    ensures IdSet(items) <= AllIds(t)
  {
  }

  /** Every deduplicated item ends up kept, compressed or dropped; every kept id is an input id or
      was made by transcript compression; the trace lists the dropped items in order; after the
      bucket phase only droppable items were dropped; and the result fits the budget unless all
      that is left is critical or may not be dropped. */
  method ReduceContextItems(c: Compressors, f: Fingerprints, p: Policy, items: seq<Item>, budget: int)
    returns (t: Tally, ghost mid: Tally)
    requires Returns(c, p, Deduped(f, items))
    ensures mid.kept == KeptByBuckets(c, p, Deduped(f, items), BucketsOf(Deduped(f, items)))
    ensures t == Enforced(c, p, budget, mid)
    ensures SumTokens(t.kept) <= budget || forall x :: x in t.kept ==> Protected(x)
    ensures IdSet(Deduped(f, items)) <= AllIds(t)
    ensures IdSet(t.kept) <= IdSet(Deduped(f, items)) + BucketsMade(c, p, Deduped(f, items))
                             + DegradeMade(c, p, budget, p.degradeOrder, mid)
    ensures DroppedIds(t.trace) == Ids(t.dropped)
    ensures mid.dropped <= t.dropped && forall i :: |mid.dropped| <= i < |t.dropped| ==> t.dropped[i].droppable
  {
    var all := DedupeContextItems(f, Estimated(items));
    var first := ReduceBuckets(c, p, all);
    mid := first;
    t := EnforceBudget(c, p, budget, first);
  }

  // ----- when the reduction returns -----

  /** A bucket that is trimmed by truncating comes to an end at once or never. */
  predicate BucketFits(c: Compressors, p: Policy, b: Bucket, items: seq<Item>) {
    var start := Prepared(c, p, b, InBucket(items, b));
    start == [] || FitsAtOnce(c, RulesOf(p, b), start)
  }

  predicate BucketSettles(c: Compressors, p: Policy, b: Bucket, items: seq<Item>) {
    var start := Prepared(c, p, b, InBucket(items, b));
    start != [] ==> LastSettles(c, RulesOf(p, b), start)
  }

  /** With compressors that cut at their budget, and tool items that are left alone once they are cut,
      the reduction returns exactly if every bucket that is trimmed by truncating is empty, fits, or
      fits after one truncation of its least important item. */
  lemma ReturnsIff(c: Compressors, p: Policy, items: seq<Item>)
    requires CutsAtBudget(c) && forall b :: b in Truncating(p) ==> BucketSettles(c, p, b, items)
    ensures Returns(c, p, items) <==> forall b :: b in Truncating(p) ==> BucketFits(c, p, b, items)
  {
    hide BucketReturns, BucketFits, BucketSettles, CutsAtBudget, Truncating;
    forall b ensures b in Truncating(p) && BucketSettles(c, p, b, items) ==>
      (BucketReturns(c, p, b, InBucket(items, b)) <==> BucketFits(c, p, b, items))
    {
      if b in Truncating(p) && BucketSettles(c, p, b, items) { TruncatedBucketReturnsIff(c, p, b, items); }
    }
    forall b ensures b !in Truncating(p) ==> BucketReturns(c, p, b, InBucket(items, b)) {
      if b !in Truncating(p) { DroppedBucketReturns(c, p, b, InBucket(items, b)); }
    }
    if Returns(c, p, items) {
      assert forall b :: BucketReturns(c, p, b, InBucket(items, b));
    }
  }

  lemma TruncatedBucketReturnsIff(c: Compressors, p: Policy, b: Bucket, items: seq<Item>)
    requires b in Truncating(p) && CutsAtBudget(c) && BucketSettles(c, p, b, items)
    ensures BucketReturns(c, p, b, InBucket(items, b)) <==> BucketFits(c, p, b, items)
  {
    hide FitsAtOnce, LastSettles, CutsAtBudget, Prepared;
    var r, start := RulesOf(p, b), Prepared(c, p, b, InBucket(items, b));
    if start == [] {
      assert Settled(r, Iterate(c, r, start, 0));
    } else {
      TruncatingEndsAtOnceIff(c, r, start);
    }
  }

  lemma DroppedBucketReturns(c: Compressors, p: Policy, b: Bucket, group: seq<Item>)
    requires b !in Truncating(p)
    ensures BucketReturns(c, p, b, group)
  {
    var k := DroppingEnds(c, RulesOf(p, b), Prepared(c, p, b, group));
  }

  /** It does not if the items of some bucket that is trimmed by truncating, but for the least
      important one, fill that bucket's cap. */
  lemma FullBucketHangs(c: Compressors, p: Policy, items: seq<Item>, b: Bucket)
    requires b in Truncating(p) && (b !in p.required || b !in p.minTokens) && InBucket(items, b) != []
    requires var sorted := Sort(ImportanceLeq, InBucket(items, b));
      sorted != [] && sorted[|sorted| - 1].tokens >= 1 && SumTokens(sorted[..|sorted| - 1]) >= CapOf(p, b)
    ensures !Returns(c, p, items)
  {
    FullBucketNeverReturns(c, p, b, InBucket(items, b));
  }

  lemma {:induction false} InBucketAll(items: seq<Item>, b: Bucket)
    requires forall i :: 0 <= i < |items| ==> ResolveBucket(items[i]) == b
    ensures InBucket(items, b) == items
  {
    if items != [] {
      InBucketAll(items[1..], b);
    }
  }

  /** Seven different documents of 3000 characters, which is as long as retrieval makes them and
      one fewer than it hands to reasoning, hang the built-in reasoning policy. */
  lemma SevenDocumentsHang(c: Compressors, f: Fingerprints, docs: seq<Item>)
    requires |docs| == 7 && Deduped(f, docs) == Estimated(docs)
    requires forall x :: x in docs ==>
      x.kind == Knowledge && x.bucket == Some(RetrievedKnowledge) && x.tokens == 0 && |x.content| == 3000
    ensures !Returns(c, BuiltIn(Reasoning), Deduped(f, docs))
  {
    hide BuiltIn, Returns, Sort, Truncating;
    ReasoningTruncatesKnowledge();
    var items := Estimated(docs);
    DocumentsEstimated(docs);
    InBucketAll(items, RetrievedKnowledge);
    EqualItemsFill(BuiltIn(Reasoning), RetrievedKnowledge, items, 6, 750);
    FullBucketHangs(c, BuiltIn(Reasoning), items, RetrievedKnowledge);
  }

  lemma ReasoningTruncatesKnowledge()
    ensures var p := BuiltIn(Reasoning);
      RetrievedKnowledge in Truncating(p) && RetrievedKnowledge !in p.required && CapOf(p, RetrievedKnowledge) == 4000
  {
  }

  lemma DocumentsEstimated(docs: seq<Item>)
    requires forall x :: x in docs ==>
      x.kind == Knowledge && x.bucket == Some(RetrievedKnowledge) && x.tokens == 0 && |x.content| == 3000
    ensures |Estimated(docs)| == |docs|
    ensures forall i :: 0 <= i < |docs| ==>
      Estimated(docs)[i].tokens == 750 && ResolveBucket(Estimated(docs)[i]) == RetrievedKnowledge
  {
    forall i | 0 <= i < |docs|
      ensures Estimated(docs)[i].tokens == 750 && ResolveBucket(Estimated(docs)[i]) == RetrievedKnowledge
    {
      assert docs[i] in docs;
    }
  }
}
