/** The parts of a reduction one by one: how an item is cut, what the bucket loop leaves and notes, and
    how the degrade order is gone through. */
module ReductionPhases {
  import opened Basics
  import opened StableSort
  import opened ContextItems
  import opened ToolItems
  import opened ContextPolicy
  import opened BucketLoop
  import opened ContextTally
  import opened ContextReducer
  import opened ContextBudget
  import opened ContextOrder

  // ----- cutting one item -----

  /** Which compressor an item goes to: the first that its bucket or its kind calls for. */
  lemma ShapesAre(x: Item)
    ensures var b := ResolveBucket(x);
      var memory := b == RetrievedMemory || x.kind == EpisodicMemory;
      var knowledge := b == RetrievedKnowledge || x.kind == Knowledge;
      var tool := b == ToolObservations || x.kind == ToolOutput;
      var diagnostic := b == Diagnostics || x.kind == DiagnosticKind || x.kind == TestFailure || x.kind == TerminalOutput;
      && (ShapeOf(x) == MemoryShape <==> memory)
      && (ShapeOf(x) == KnowledgeShape <==> !memory && knowledge)
      && (ShapeOf(x) == ToolShape <==> !memory && !knowledge && tool)
      && (ShapeOf(x) == DiagnosticShape <==> !memory && !knowledge && !tool && diagnostic)
      && (ShapeOf(x) == PlainShape <==> !memory && !knowledge && !tool && !diagnostic)
  {
    hide BucketOfKind;
  }

  /** A truncated item is the old one, or has the text of its compressor, that text's tokens and the
      compressor's name. */
  lemma TruncatedBy(c: Compressors, x: Item, m: int)
    ensures var y := Truncate(c, x, m); var shape := ShapeOf(x); var budget := if 4 * m > 80 then 4 * m else 80;
      && (x.tokens <= m ==> y == x)
      && (x.tokens > m ==>
            && y.(content := x.content, tokens := x.tokens, clipped := x.clipped) == x
            && y.tokens == EstimateText(y.content)
            && (shape == MemoryShape ==> y.clipped == Some("memory") && y.content == c.shorten(x, m))
            && (shape == KnowledgeShape ==> y.clipped == Some("knowledge") && y.content == c.shorten(x, m))
            && (shape == DiagnosticShape ==> y.clipped == Some("diagnostic_structured") && y.content == c.shorten(x, m))
            && (shape == ToolShape ==>
                  && y.content == ClipTool(c.cutBody, x.content, m)
                  && (y.clipped == Some("tool_structured") <==> Parse(x.content).Some?)
                  && (y.clipped == Some("tool_tail") <==> Parse(x.content).None?))
            && (shape == PlainShape ==>
                  && y.clipped == Some("token_truncate")
                  && y.content == if |x.content| <= budget then x.content else x.content[..budget] + "\U{2026}"))
  {
    hide ShapeOf, ClipTool, Parse;
  }

  /** The share of the cap that the last of so many items is truncated to. */
  lemma TargetIs(r: Rules, count: nat)
    requires count > 0
    ensures var m := Target(r, count);
      m >= 32 && (m == 32 || m * count <= r.cap) && r.cap < (m + 1) * count
  {
    ShareIs(r.cap, count);
  }

  // ----- what the bucket loop leaves and notes -----

  /** Where the loop drops, what it leaves fits the cap, or is nothing, or is the one item that a required
      bucket keeps; a required bucket of a droppable kind is never emptied. */
  lemma {:induction false} DroppingLeaves(c: Compressors, r: Rules, items: seq<Item>, k: nat)
    requires (r.droppable || !r.truncates) && k <= |items| && Iterate(c, r, items, |items|) == items[..k]
    ensures SumTokens(items[..k]) <= r.cap || k == 0 || (k == 1 && r.droppable && r.required)
    ensures r.droppable && r.required && items != [] ==> k >= 1
    decreases |items|
  {
    hide SumTokens;
    if !Settled(r, items) {
      var n := |items| - 1;
      assert |Iterate(c, r, items, |items|)| == k;
      assert Iterate(c, r, items, |items|) == Iterate(c, r, items[..n], n);
      IterateShrinks(c, r, items[..n], n);
      assert items[..n][..k] == items[..k];
      DroppingLeaves(c, r, items[..n], k);
    } else {
      assert |items[..k]| == |items|;
    }
  }

  lemma {:induction false} IterateShrinks(c: Compressors, r: Rules, items: seq<Item>, steps: nat)
    requires r.droppable || !r.truncates
    ensures |Iterate(c, r, items, steps)| <= |items|
    decreases steps
  {
    if steps > 0 && !Settled(r, items) {
      IterateShrinks(c, r, items[..|items| - 1], steps - 1);
    }
  }

  function Backwards(s: seq<Item>): seq<Item> {
    if s == [] then [] else [s[|s| - 1]] + Backwards(s[..|s| - 1])
  }

  /** Where the loop drops, it notes the dropped items, and these only, from the last one on. */
  lemma {:induction false} DropsAreNoted(c: Compressors, r: Rules, items: seq<Item>, t: Tally, steps: nat)
    requires r.droppable || !r.truncates
    ensures var u, left := TallyAfter(c, r, items, t, steps), Iterate(c, r, items, steps);
      && |left| <= |items| && left == items[..|left|]
      && u.kept == t.kept && u.compressed == t.compressed && u.dropped == t.dropped + Backwards(items[|left|..])
    decreases steps
  {
    hide Settled;
    if steps > 0 && !Settled(r, items) {
      NotSettled(r, items);
      var n := |items| - 1;
      DropsAreNoted(c, r, items[..n], NoteDropped(t, items[n]), steps - 1);
      var left := Iterate(c, r, items, steps);
      NotedNext(items, |left|, t.dropped);
    } else {
      assert items[..|items|] == items && items[|items|..] == [];
      assert t.dropped + [] == t.dropped;
    }
  }

  lemma NotedNext(items: seq<Item>, m: nat, dropped: seq<Item>)
    requires m < |items|
    ensures var n := |items| - 1;
      && items[..n][..m] == items[..m]
      && dropped + [items[n]] + Backwards(items[..n][m..]) == dropped + Backwards(items[m..])
  {
    var n := |items| - 1;
    var rest := items[m..];
    assert rest[|rest| - 1] == items[n] && rest[..|rest| - 1] == items[..n][m..];
    var tail := Backwards(items[..n][m..]);
    assert dropped + ([items[n]] + tail) == dropped + [items[n]] + tail;
  }

  /** Where it truncates, it drops nothing, and notes one compressed item to a turn. */
  lemma {:induction false} CutsAreNoted(c: Compressors, r: Rules, items: seq<Item>, t: Tally, steps: nat)
    requires r.truncates && !r.droppable
    ensures var u := TallyAfter(c, r, items, t, steps);
      && u.kept == t.kept && u.dropped == t.dropped && t.compressed <= u.compressed
      && |Iterate(c, r, items, steps)| == |items| && |u.compressed| <= |t.compressed| + steps
      && (!Settled(r, Iterate(c, r, items, steps)) ==> |u.compressed| == |t.compressed| + steps)
    decreases steps
  {
    hide Settled, Truncate, Target;
    if steps > 0 && !Settled(r, items) {
      NotSettled(r, items);
      CutsAreNoted(c, r, Next(c, r, items), NoteCompressed(t, items[|items| - 1]), steps - 1);
    }
  }

  lemma NotSettled(r: Rules, items: seq<Item>)
    requires !Settled(r, items)
    ensures items != []
  {
  }

  function IdsNoted(trace: seq<Action>, kept: bool): seq<string> {
    if trace == [] then []
    else
      IdsNoted(trace[..|trace| - 1], kept)
      + match trace[|trace| - 1]
        case KeptAction(id) => if kept then [id] else []
        case CompressedAction(id) => if kept then [] else [id]
        case DroppedAction(_) => []
  }

  /** The trace tells what is kept and what is compressed, by the ids of the old items. */
  lemma PhaseTraces(t: Tally, x: Item, y: Item)
    ensures IdsNoted(ReplaceItem(t, x, y).trace, false) == IdsNoted(t.trace, false) + [x.id]
    ensures IdsNoted(KeepItem(t, x).trace, true) == IdsNoted(t.trace, true) + [x.id]
    ensures IdsNoted(NoteCompressed(t, x).trace, false) == IdsNoted(t.trace, false) + [x.id]
    ensures KeepItem(t, x).compressed == t.compressed && NoteCompressed(t, x).kept == t.kept
  {
    assert (t.trace + [KeptAction(x.id)])[..|t.trace|] == t.trace;
    assert (t.trace + [CompressedAction(x.id)])[..|t.trace|] == t.trace;
  }

  /** The bucket phase takes every bucket once ... */
  lemma {:induction false} BucketsOnce(items: seq<Item>)
    ensures var order := BucketsOf(items);
      && (forall i, j :: 0 <= i < j < |order| ==> order[i] != order[j])
      && (forall i :: 0 <= i < |items| ==> ResolveBucket(items[i]) in order)
  {
    hide ResolveBucket;
    if items != [] {
      var n := |items| - 1;
      var before := BucketsOf(items[..n]);
      BucketsOnce(items[..n]);
      NewIsDistinct(before, ResolveBucket(items[n]));
      forall i | 0 <= i < |items| ensures ResolveBucket(items[i]) in BucketsOf(items) {
        if i < n { assert ResolveBucket(items[..n][i]) in before; }
      }
    }
  }

  lemma NewIsDistinct(before: seq<Bucket>, b: Bucket)
    requires b !in before ==> forall i, j :: 0 <= i < j < |before| ==> before[i] != before[j]
    ensures b !in before ==> forall i, j :: 0 <= i < j < |before + [b]| ==> (before + [b])[i] != (before + [b])[j]
  {
  }

  /** ... in the order in which the buckets first appear. */
  lemma {:induction false} BucketsInOrder(items: seq<Item>, k: nat) returns (i: nat)
    requires k < |BucketsOf(items)|
    ensures i < |items| && ResolveBucket(items[i]) == BucketsOf(items)[k] && BucketsOf(items[..i]) == BucketsOf(items)[..k]
  {
    hide ResolveBucket;
    var n := |items| - 1;
    var before := BucketsOf(items[..n]);
    if k < |before| {
      i := BucketsInOrder(items[..n], k);
      assert items[..n][..i] == items[..i] && BucketsOf(items)[..k] == before[..k];
    } else {
      i := n;
      assert BucketsOf(items)[..k] == before;
    }
  }

  // ----- the degrade order -----

  lemma {:induction false} Shelved(group: seq<Item>, t: Tally)
    requires StillKept(t.kept, group)
    ensures var u := ShelveAll(group, t);
      && multiset(u.kept) == multiset(t.kept) - multiset(group)
      && u.compressed == t.compressed + group && u.dropped == t.dropped
    decreases |group|
  {
    hide StillKept, RemoveFirst;
    if group == [] {
      assert t.compressed + [] == t.compressed;
    } else {
      StillKeptAfterRemoval(t.kept, group, []);
      RemoveFirstTakesOne(t.kept, group[0]);
      Shelved(group[1..], ShelveItem(t, group[0]));
      ShelvedFirst(t.compressed, t.kept, group);
    }
  }

  lemma ShelvedFirst(compressed: seq<Item>, kept: seq<Item>, group: seq<Item>)
    requires group != []
    ensures compressed + [group[0]] + group[1..] == compressed + group
    ensures multiset(kept) - multiset{group[0]} - multiset(group[1..]) == multiset(kept) - multiset(group)
  {
    assert group == [group[0]] + group[1..];
  }

  /** What one bucket of the degrade order comes to: the transcript, if it may be compressed, is replaced by its
      compression; any other bucket is degraded item by item. */
  ghost predicate BucketVisit(c: Compressors, p: Policy, budget: int, b: Bucket, t: Tally, u: Tally) {
    var group := InBucket(t.kept, b);
    if group == [] then u == t
    else if b == RecentTranscript && b in p.compressible then
      && multiset(u.kept) == multiset(t.kept) - multiset(group) + multiset(c.transcript(group))
      && u.compressed == t.compressed + group && u.dropped == t.dropped
    else u == DegradeItems(c, p, b, budget, Sort(WorstFirst, group), t)
  }

  lemma OneBucket(c: Compressors, p: Policy, budget: int, buckets: seq<Bucket>, t: Tally) returns (u: Tally)
    requires buckets != [] && SumTokens(t.kept) > budget
    ensures BucketVisit(c, p, budget, buckets[0], t, u)
    ensures Degraded(c, p, budget, buckets, t) == Degraded(c, p, budget, buckets[1..], u)
    ensures DegradeMade(c, p, budget, buckets, t) ==
      DegradeMade(c, p, budget, buckets[1..], u)
      + (if buckets[0] == RecentTranscript && RecentTranscript in p.compressible && InBucket(t.kept, RecentTranscript) != []
         then IdSet(c.transcript(InBucket(t.kept, RecentTranscript))) else {})
  {
    hide SumTokens, DegradeItems, Sort, InBucket, IdSet, ShelveAll;
    var b := buckets[0];
    var group := InBucket(t.kept, b);
    u := if group == [] then t
         else if b in p.compressible && b == RecentTranscript then Transcribed(c, group, t)
         else DegradeItems(c, p, b, budget, Sort(WorstFirst, group), t);
    InBucketMembers(t.kept, b);
    Shelved(group, t);
  }

  /** The id is one that compressing the transcript made, at one of these visits. */
  ghost predicate MadeAt(c: Compressors, p: Policy, buckets: seq<Bucket>, states: seq<Tally>, id: string) {
    && RecentTranscript in p.compressible
    && (exists i :: 0 <= i < |buckets| && i < |states| - 1 && buckets[i] == RecentTranscript
                    && id in IdSet(c.transcript(InBucket(states[i].kept, RecentTranscript))))
  }

  /** The buckets of the degrade order are visited one by one for as long as the kept tokens are over the
      budget, and only compressing the transcript makes new ids. */
  lemma {:induction false} DegradeGoesBy(c: Compressors, p: Policy, budget: int, buckets: seq<Bucket>, t: Tally)
    returns (states: seq<Tally>)
    ensures 1 <= |states| <= |buckets| + 1 && states[0] == t
    ensures states[|states| - 1] == Degraded(c, p, budget, buckets, t)
    ensures forall i :: 0 <= i < |states| - 1 ==>
      SumTokens(states[i].kept) > budget && BucketVisit(c, p, budget, buckets[i], states[i], states[i + 1])
    ensures |states| == |buckets| + 1 || SumTokens(states[|states| - 1].kept) <= budget
    ensures forall id :: id in DegradeMade(c, p, budget, buckets, t) ==> MadeAt(c, p, buckets, states, id)
    decreases |buckets|
  {
    hide SumTokens, BucketVisit, IdSet, InBucket, Transcribed, DegradeItems, Sort;
    if buckets == [] || SumTokens(t.kept) <= budget {
      states := [t];
    } else {
      var u := OneBucket(c, p, budget, buckets, t);
      hide Degraded, DegradeMade;
      var rest := DegradeGoesBy(c, p, budget, buckets[1..], u);
      states := [t] + rest;
      forall id | id in DegradeMade(c, p, budget, buckets, t)
        ensures MadeAt(c, p, buckets, states, id)
      {
        if id in DegradeMade(c, p, budget, buckets[1..], u) {
          var i :| 0 <= i < |buckets[1..]| && i < |rest| - 1 && buckets[1..][i] == RecentTranscript
                   && id in IdSet(c.transcript(InBucket(rest[i].kept, RecentTranscript)));
          assert states[i + 1] == rest[i] && buckets[i + 1] == RecentTranscript;
        } else {
          assert states[0] == t && buckets[0] == RecentTranscript;
        }
      }
    }
  }

  // ----- what the degrade order spares -----

  lemma OthersStay(kept: seq<Item>, x: Item, y: Item)
    requires x != y
    ensures multiset(RemoveFirst(kept, y))[x] == multiset(kept)[x]
  {
    if y in kept { RemoveFirstTakesOne(kept, y); } else { NothingRemoved(kept, y); }
  }

  lemma {:induction false} NothingRemoved(kept: seq<Item>, y: Item)
    requires y !in kept
    ensures RemoveFirst(kept, y) == kept
  {
    if kept != [] {
      NothingRemoved(kept[1..], y);
      assert kept == [kept[0]] + kept[1..];
    }
  }

  /** Degrading some items of a bucket drops only such of them as may be dropped, from a bucket whose fidelity is
      not to be preserved, and every other kept item stays. */
  lemma {:induction false} DegradedItemsSpare(c: Compressors, p: Policy, b: Bucket, budget: int, order: seq<Item>, t: Tally, x: Item)
    requires forall k :: 0 <= k < |order| ==> ResolveBucket(order[k]) == b
    ensures var u := DegradeItems(c, p, b, budget, order, t);
      && t.dropped <= u.dropped
      && (forall i :: |t.dropped| <= i < |u.dropped| ==>
            u.dropped[i].droppable && ResolveBucket(u.dropped[i]) == b && b !in p.preserve)
      && (ResolveBucket(x) != b ==> multiset(u.kept)[x] >= multiset(t.kept)[x])
    decreases |order|
  {
    hide SumTokens, ResolveBucket, Truncate, RemoveFirst;
    if order != [] && SumTokens(t.kept) > budget {
      var y := order[0];
      if x != y { OthersStay(t.kept, x, y); }
      DegradedItemsSpare(c, p, b, budget, order[1..], DegradeItem(c, p, b, t, y), x);
    }
  }

  lemma VisitSpares(c: Compressors, p: Policy, budget: int, b: Bucket, t: Tally, u: Tally, x: Item)
    requires BucketVisit(c, p, budget, b, t, u)
    ensures t.dropped <= u.dropped
    ensures forall i :: |t.dropped| <= i < |u.dropped| ==>
      u.dropped[i].droppable && ResolveBucket(u.dropped[i]) == b && b !in p.preserve
    ensures ResolveBucket(x) != b ==> multiset(u.kept)[x] >= multiset(t.kept)[x]
  {
    hide DegradeItems, Sort, InBucket, ResolveBucket;
    var group := InBucket(t.kept, b);
    var order := Sort(WorstFirst, group);
    InBucketMembers(t.kept, b);
    SortPermutes(WorstFirst, group);
    forall k | 0 <= k < |order| ensures ResolveBucket(order[k]) == b {
      assert order[k] in multiset(order);
      assert order[k] in group;
    }
    DegradedItemsSpare(c, p, b, budget, order, t, x);
    if ResolveBucket(x) != b {
      assert x !in group;
      assert multiset(group)[x] == 0;
    }
  }

  /** The degrade order drops only droppable items of its own buckets, and none of a bucket whose fidelity is to be
      preserved; every kept item of a bucket it does not name stays, and within the budget nothing happens. */
  lemma {:induction false} DegradeSpares(c: Compressors, p: Policy, budget: int, buckets: seq<Bucket>, t: Tally, x: Item)
    ensures var u := Degraded(c, p, budget, buckets, t);
      && t.dropped <= u.dropped
      && (forall i :: |t.dropped| <= i < |u.dropped| ==>
            u.dropped[i].droppable && ResolveBucket(u.dropped[i]) in buckets && ResolveBucket(u.dropped[i]) !in p.preserve)
      && (ResolveBucket(x) !in buckets ==> multiset(u.kept)[x] >= multiset(t.kept)[x])
      && (SumTokens(t.kept) <= budget ==> u == t)
    decreases |buckets|
  {
    hide SumTokens, BucketVisit, ResolveBucket;
    if buckets != [] && SumTokens(t.kept) > budget {
      var u := OneBucket(c, p, budget, buckets, t);
      hide Degraded;
      VisitSpares(c, p, budget, buckets[0], t, u, x);
      DegradeSpares(c, p, budget, buckets[1..], u, x);
    }
  }

  /** Both global phases together. */
  lemma BudgetSpares(c: Compressors, p: Policy, budget: int, t: Tally, x: Item)
    ensures var u := Enforced(c, p, budget, t);
      && (SumTokens(t.kept) <= budget ==> u == t)
      && t.dropped <= u.dropped
      && (forall i :: |t.dropped| <= i < |u.dropped| ==> u.dropped[i].droppable)
      && (ResolveBucket(x) !in p.degradeOrder && (x.priority == Critical || !x.droppable) ==>
            multiset(u.kept)[x] >= multiset(t.kept)[x])
  {
    hide SumTokens, Degraded, Swept, ResolveBucket;
    var mid := Degraded(c, p, budget, p.degradeOrder, t);
    var u := Swept(budget, Sort(WorstFirst, mid.kept), mid);
    DegradeSpares(c, p, budget, p.degradeOrder, t, x);
    SweepDropsWorst(budget, mid);
    forall i | |t.dropped| <= i < |u.dropped| ensures u.dropped[i].droppable {
      if i >= |mid.dropped| { assert u.dropped[i] in u.dropped[|mid.dropped|..]; }
    }
    if x.priority == Critical || !x.droppable {
      assert x !in u.dropped[|mid.dropped|..];
      assert multiset(u.dropped[|mid.dropped|..])[x] == 0;
      assert multiset(u.kept)[x] == (multiset(u.kept) + multiset(u.dropped[|mid.dropped|..]))[x];
    }
  }

  // ----- tokens -----

  /** A text costs a token to four characters, rounded down, and at least one. */
  lemma EstimateIs(text: string, x: Item)
    ensures var n := EstimateText(text); n >= 1 && (n == 1 || 4 * n <= |text|) && |text| < 4 * (n + 1)
    ensures EstimateItem(x) == x.(tokens := EstimateItem(x).tokens)
    ensures EstimateItem(x).tokens == if x.tokens <= 0 && x.content != "" then EstimateText(x.content) else x.tokens
  {
  }

  /** A bucket without a cap of its own is capped at 8000 tokens. */
  lemma UncappedBucket(p: Policy, b: Bucket)
    ensures CapOf(p, b) == if b in p.caps then p.caps[b] else 8000
  {
  }
}
