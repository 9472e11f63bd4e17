/** Reducing context items to a token budget: dedupe, bucket caps, degrade order, final sweep. */
module ContextReducer {
  import opened Basics
  import opened StableSort
  import opened ContextItems
  import opened ContextDedupe
  import opened ContextPolicy
  import opened BucketLoop
  import opened ContextTally

  // ----- one bucket before its loop -----

  function RulesOf(p: Policy, b: Bucket): Rules {
    Rules(CapOf(p, b), b in p.droppable, b in p.required, b in p.compressible && b != RecentTranscript)
  }

  function MinimalItem(c: Compressors, p: Policy, b: Bucket, x: Item, perItem: int): Item {
    if b in p.summaries && x.kind in {MemoryKind, SummaryKind}
    then Clip(x, c.firstLines(x.content), "min_bucket_summary")
    else Truncate(c, x, perItem)
  }

  function MinimalItems(c: Compressors, p: Policy, b: Bucket, items: seq<Item>, perItem: int): seq<Item> {
    if items == [] then []
    else MinimalItems(c, p, b, items[..|items| - 1], perItem) + [MinimalItem(c, p, b, items[|items| - 1], perItem)]
  }

  function Share(tokens: int, count: nat): int { Max(32, tokens / Max(1, count)) }

  /** `_apply_min_bucket_representation`: the most important items, each cut to its share. */
  function MinRepresentation(c: Compressors, p: Policy, b: Bucket, items: seq<Item>): seq<Item> {
    if b !in p.minTokens || p.minTokens[b] == 0 || items == [] then items
    else
      var count := Max(1, if b in p.minItems then p.minItems[b] else 1);
      var sorted := Sort(ImportanceLeq, items);
      var keep := if |sorted| <= count then sorted else sorted[..count];
      MinimalItems(c, p, b, keep, Share(p.minTokens[b], |keep|))
  }

  /** The bucket after sorting and whole-transcript compression. */
  function Merged(c: Compressors, p: Policy, b: Bucket, group: seq<Item>): seq<Item> {
    var sorted := Sort(ImportanceLeq, group);
    if SumTokens(sorted) > CapOf(p, b) && b in p.compressible && b == RecentTranscript && sorted != []
    then c.transcript(sorted) else sorted
  }

  /** The bucket as its loop finds it. */
  function Prepared(c: Compressors, p: Policy, b: Bucket, group: seq<Item>): seq<Item> {
    var merged := Merged(c, p, b, group);
    var minimal := MinRepresentation(c, p, b, merged);
    if SumTokens(merged) > CapOf(p, b) && b in p.required && b in p.minTokens
       && minimal != [] && SumTokens(minimal) < SumTokens(merged)
    then minimal else merged
  }

  ghost predicate BucketReturns(c: Compressors, p: Policy, b: Bucket, group: seq<Item>) {
    Ends(c, RulesOf(p, b), Prepared(c, p, b, group))
  }

  /** What the bucket loop leaves, given that it ends. */
  ghost function Final(c: Compressors, r: Rules, start: seq<Item>): seq<Item>
    requires Ends(c, r, start)
  {
    var steps: nat :| Settled(r, Iterate(c, r, start, steps));
    Iterate(c, r, start, steps)
  }

  /** What is left of a bucket after the first phase. */
  ghost function BucketLeft(c: Compressors, p: Policy, b: Bucket, group: seq<Item>): seq<Item>
    requires BucketReturns(c, p, b, group)
  {
    Final(c, RulesOf(p, b), Prepared(c, p, b, group))
  }

  /** The ids that compressing the transcript makes in the bucket phase. */
  function MadeInBucket(c: Compressors, p: Policy, b: Bucket, group: seq<Item>): set<string> {
    if Merged(c, p, b, group) == Sort(ImportanceLeq, group) then {} else IdSet(Merged(c, p, b, group))
  }

  lemma SortIds(leq: Order<Item>, items: seq<Item>)
    ensures IdSet(Sort(leq, items)) == IdSet(items)
  {
    SortPermutes(leq, items);
    forall x ensures x in Sort(leq, items) <==> x in items {
      assert x in multiset(Sort(leq, items)) <==> x in multiset(items);
    }
  }

  lemma {:induction false} MinimalItemsIds(c: Compressors, p: Policy, b: Bucket, items: seq<Item>, perItem: int)
    ensures IdSet(MinimalItems(c, p, b, items, perItem)) == IdSet(items)
  {
    if items != [] {
      var n := |items| - 1;
      MinimalItemsIds(c, p, b, items[..n], perItem);
      var y := MinimalItem(c, p, b, items[n], perItem);
      assert y.id == items[n].id;
      IdSetConcat(MinimalItems(c, p, b, items[..n], perItem), [y]);
      IdSetConcat(items[..n], [items[n]]);
      IdSetOne(y);
      IdSetOne(items[n]);
      assert items == items[..n] + [items[n]];
    }
  }

  lemma MinRepresentationIds(c: Compressors, p: Policy, b: Bucket, items: seq<Item>)
    ensures IdSet(MinRepresentation(c, p, b, items)) <= IdSet(items)
  {
    hide Share, Sort, MinimalItems;
    if b in p.minTokens && p.minTokens[b] != 0 && items != [] {
      var count := Max(1, if b in p.minItems then p.minItems[b] else 1);
      var sorted := Sort(ImportanceLeq, items);
      var keep := if |sorted| <= count then sorted else sorted[..count];
      MinimalItemsIds(c, p, b, keep, Share(p.minTokens[b], |keep|));
      SortIds(ImportanceLeq, items);
      assert forall x :: x in keep ==> x in sorted;
    }
  }

  method ApplyMinRepresentation(c: Compressors, p: Policy, b: Bucket, items: seq<Item>) returns (out: seq<Item>)
    ensures out == MinRepresentation(c, p, b, items)
  {
    hide MinimalItem, Sort, Truncate, Share;
    if b !in p.minTokens || p.minTokens[b] == 0 || items == [] { return items; }
    var count := Max(1, if b in p.minItems then p.minItems[b] else 1);
    var sorted := Sort(ImportanceLeq, items);
    var keep := if |sorted| <= count then sorted else sorted[..count];
    var perItem := Share(p.minTokens[b], |keep|);
    out := [];
    for i := 0 to |keep|
      invariant out == MinimalItems(c, p, b, keep[..i], perItem)
    {
      MinimalItemsNext(c, p, b, keep, i, perItem);
      out := out + [MinimalItem(c, p, b, keep[i], perItem)];
    }
    assert keep[..|keep|] == keep;
  }

  lemma MinimalItemsNext(c: Compressors, p: Policy, b: Bucket, keep: seq<Item>, i: nat, perItem: int)
    requires i < |keep|
    ensures MinimalItems(c, p, b, keep[..i + 1], perItem)
         == MinimalItems(c, p, b, keep[..i], perItem) + [MinimalItem(c, p, b, keep[i], perItem)]
  {
    assert keep[..i + 1][..i] == keep[..i];
  }

  // ----- the bucket phase -----

  lemma GrowsTrans(a: Tally, b: Tally, d: Tally)
    requires Grows(a, b) && Grows(b, d)
    ensures Grows(a, d)
  {
  }

  /** A trimmed item is noted as compressed, every other victim as dropped. */
  function NoteVictim(r: Rules, items: seq<Item>, t: Tally): Tally
    requires items != []
  {
    var victim := items[|items| - 1];
    if r.truncates && !r.droppable then NoteCompressed(t, victim) else NoteDropped(t, victim)
  }

  function TallyAfter(c: Compressors, r: Rules, items: seq<Item>, t: Tally, steps: nat): Tally
    decreases steps
  {
    if steps == 0 || Settled(r, items) then t
    else TallyAfter(c, r, Next(c, r, items), NoteVictim(r, items, t), steps - 1)
  }

  /** One turn of the bucket loop. */
  method TrimOnce(c: Compressors, r: Rules, items: seq<Item>, t0: Tally) returns (next: seq<Item>, t: Tally)
    requires items != []
    ensures next == Next(c, r, items) && t == NoteVictim(r, items, t0)
    ensures Grows(t0, t) && t.kept == t0.kept
    ensures IdSet(items) <= IdSet(next) + AllIds(t) && IdSet(next) <= IdSet(items)
  {
    var n := |items| - 1;
    var victim := items[n];
    assert items == items[..n] + [victim];
    IdSetConcat(items[..n], [victim]);
    IdSetOne(victim);
    if r.droppable || !r.truncates {
      NoteDroppedGrows(t0, victim);
      t := NoteDropped(t0, victim);
      next := items[..n];
    } else {
      var trimmed := Truncate(c, victim, Target(r, |items|));
      TruncateKeepsIdentity(c, victim, Target(r, |items|));
      NoteCompressedGrows(t0, victim);
      t := NoteCompressed(t0, victim);
      next := items[n := trimmed];
      assert next == items[..n] + [trimmed];
      IdSetConcat(items[..n], [trimmed]);
      IdSetOne(trimmed);
    }
  }

  /** Nothing of `start` is lost between what is left of it and the tally. */
  ghost predicate Carried(start: seq<Item>, items: seq<Item>, t0: Tally, t: Tally) {
    && Grows(t0, t) && t.kept == t0.kept
    && IdSet(start) <= IdSet(items) + AllIds(t) && IdSet(items) <= IdSet(start)
  }

  lemma CarriedOn(start: seq<Item>, items: seq<Item>, next: seq<Item>, t0: Tally, t: Tally, u: Tally)
    requires Carried(start, items, t0, t) && Carried(items, next, t, u)
    ensures Carried(start, next, t0, u)
  {
  }

  lemma StepDown(c: Compressors, r: Rules, items: seq<Item>, steps: nat)
    requires !Settled(r, items) && Settled(r, Iterate(c, r, items, steps))
    ensures steps > 0 && Settled(r, Iterate(c, r, Next(c, r, items), steps - 1))
  {
  }

  /** The bucket loop. It ends within its cap, or with one required item left, and every item it
      was given is still there, was noted as compressed, or was dropped. */
  method RunBucketLoop(c: Compressors, r: Rules, start: seq<Item>, t0: Tally)
    returns (items: seq<Item>, t: Tally, ghost steps: nat)
    requires Ends(c, r, start)
    ensures items == Iterate(c, r, start, steps) && Settled(r, items)
    ensures t == TallyAfter(c, r, start, t0, steps)
    ensures Grows(t0, t) && t.kept == t0.kept
    ensures IdSet(start) <= IdSet(items) + AllIds(t) && IdSet(items) <= IdSet(start)
  {
    hide Next, Truncate, TallyAfter, NoteVictim, IdSet, AllIds;
    items, t, steps := start, t0, 0;
    NothingDoneYet(c, r, start, t0);
    ghost var all: nat :| Settled(r, Iterate(c, r, start, all));
    ghost var left := all;
    var tokens := SumTokens(items);
    while tokens > r.cap && items != []
      invariant tokens == SumTokens(items)
      invariant Settled(r, Iterate(c, r, items, left))
      invariant Iterate(c, r, start, steps) == items && TallyAfter(c, r, start, t0, steps) == t
      invariant Carried(start, items, t0, t)
      decreases left
    {
      if r.droppable && r.required && |items| == 1 { break; }
      OneMoreStep(c, r, start, t0, steps);
      ghost var before, tally := items, t;
      items, t := TrimOnce(c, r, items, t);
      CarriedOn(start, before, items, t0, tally, t);
      StepDown(c, r, before, left);
      steps := steps + 1;
      left := left - 1;
      tokens := SumTokens(items);
    }
  }

  lemma NothingDoneYet(c: Compressors, r: Rules, start: seq<Item>, t0: Tally)
    ensures Iterate(c, r, start, 0) == start && TallyAfter(c, r, start, t0, 0) == t0
    ensures Carried(start, start, t0, t0)
  {
  }

  lemma {:induction false} OneMoreStep(c: Compressors, r: Rules, items: seq<Item>, t: Tally, steps: nat)
    requires !Settled(r, Iterate(c, r, items, steps))
    ensures Iterate(c, r, items, steps + 1) == Next(c, r, Iterate(c, r, items, steps))
    ensures TallyAfter(c, r, items, t, steps + 1)
         == NoteVictim(r, Iterate(c, r, items, steps), TallyAfter(c, r, items, t, steps))
    decreases steps
  {
    if steps > 0 {
      OneMoreStep(c, r, Next(c, r, items), NoteVictim(r, items, t), steps - 1);
    }
  }

  lemma {:induction false} SettledIsFinal(c: Compressors, r: Rules, items: seq<Item>, a: nat, b: nat)
    requires Settled(r, Iterate(c, r, items, a)) && Settled(r, Iterate(c, r, items, b))
    ensures Iterate(c, r, items, a) == Iterate(c, r, items, b)
    decreases a
  {
    if a > 0 && b > 0 && !Settled(r, items) {
      SettledIsFinal(c, r, Next(c, r, items), a - 1, b - 1);
    }
  }

  lemma MergedIds(c: Compressors, p: Policy, b: Bucket, group: seq<Item>)
    ensures IdSet(Merged(c, p, b, group)) <= IdSet(group) + MadeInBucket(c, p, b, group)
  {
    SortIds(ImportanceLeq, group);
  }

  method NoteAllCompressed(items: seq<Item>, keep: seq<Item>, t0: Tally) returns (t: Tally)
    ensures Grows(t0, t) && t.kept == t0.kept
    ensures IdSet(items) <= IdSet(keep) + AllIds(t)
  {
    t := t0;
    for i := 0 to |items|
      invariant Grows(t0, t) && t.kept == t0.kept
      invariant IdSet(items[..i]) <= IdSet(keep) + AllIds(t)
    {
      assert items[..i + 1] == items[..i] + [items[i]];
      IdSetConcat(items[..i], [items[i]]);
      IdSetOne(items[i]);
      if items[i] !in keep {
        NoteCompressedGrows(t, items[i]);
        GrowsTrans(t0, t, NoteCompressed(t, items[i]));
        t := NoteCompressed(t, items[i]);
      }
    }
    assert items[..|items|] == items;
  }

  method KeepAll(items: seq<Item>, t0: Tally) returns (t: Tally)
    ensures Grows(t0, t) && t.kept == t0.kept + items
    ensures IdSet(items) <= AllIds(t)
  {
    t := t0;
    for i := 0 to |items|
      invariant Grows(t0, t) && t.kept == t0.kept + items[..i]
    {
      KeepGrows(t, items[i]);
      GrowsTrans(t0, t, KeepItem(t, items[i]));
      t := KeepItem(t, items[i]);
      assert items[..i + 1] == items[..i] + [items[i]];
    }
    assert items[..|items|] == items;
    IdSetConcat(t0.kept, items);
  }

  /** What happens to a bucket before its loop: sorting, whole-transcript compression and, where the
      policy asks for a minimum, cutting down to it. */
  method PrepareBucket(c: Compressors, p: Policy, b: Bucket, group: seq<Item>, t0: Tally)
    returns (items: seq<Item>, t: Tally)
    ensures items == Prepared(c, p, b, group)
    ensures Grows(t0, t) && t.kept == t0.kept
    ensures IdSet(group) <= IdSet(items) + AllIds(t) && IdSet(items) <= IdSet(group) + MadeInBucket(c, p, b, group)
  {
    hide MinRepresentation, Sort, SumTokens, Truncate;
    var cap := CapOf(p, b);
    items := Sort(ImportanceLeq, group);
    SortIds(ImportanceLeq, group);
    MergedIds(c, p, b, group);
    t := t0;
    if SumTokens(items) > cap && b in p.compressible && b == RecentTranscript && items != [] {
      t := NoteAllCompressed(items, [], t0);
      items := c.transcript(items);
    }
    ghost var merged, t1 := items, t;
    if SumTokens(items) > cap && b in p.required && b in p.minTokens {
      var minimal := ApplyMinRepresentation(c, p, b, items);
      MinRepresentationIds(c, p, b, items);
      if minimal != [] && SumTokens(minimal) < SumTokens(items) {
        t := NoteAllCompressed(items, minimal, t);
        items := minimal;
      }
    }
    GrowsTrans(t0, t1, t);
  }

  /** One bucket of the first phase. What is left of it fits the cap or is its one required item;
      where the policy drops, it is the longest beginning of the sorted bucket that fits. */
  method ReduceBucket(c: Compressors, p: Policy, b: Bucket, group: seq<Item>, t0: Tally)
    returns (t: Tally, left: seq<Item>)
    requires BucketReturns(c, p, b, group)
    ensures t.kept == t0.kept + left && left == BucketLeft(c, p, b, group) && Settled(RulesOf(p, b), left)
    ensures Grows(t0, t) && IdSet(group) <= AllIds(t)
    ensures IdSet(left) <= IdSet(group) + MadeInBucket(c, p, b, group)
    ensures b in p.droppable || !RulesOf(p, b).truncates ==>
      LongestFit(Prepared(c, p, b, group), left, CapOf(p, b))
  {
    hide Settled, Iterate, Prepared, SumTokens, TallyAfter, MadeInBucket, LongestFit;
    var r := RulesOf(p, b);
    var start, t1 := PrepareBucket(c, p, b, group, t0);
    ghost var steps, t2;
    left, t, steps := RunBucketLoop(c, r, start, t1);
    t2 := t;
    t := KeepAll(left, t);
    GrowsTrans(t0, t1, t2);
    GrowsTrans(t0, t2, t);
    LoopResult(c, r, start, steps);
  }

  /** `left` is the longest beginning of `start` within the cap. */
  ghost predicate LongestFit(start: seq<Item>, left: seq<Item>, cap: int) {
    && |left| <= |start| && left == start[..|left|]
    && (forall j :: |left| < j <= |start| ==> SumTokens(start[..j]) > cap)
  }

  lemma LoopResult(c: Compressors, r: Rules, start: seq<Item>, steps: nat)
    requires Settled(r, Iterate(c, r, start, steps)) && Ends(c, r, start)
    ensures Final(c, r, start) == Iterate(c, r, start, steps)
    ensures r.droppable || !r.truncates ==> LongestFit(start, Iterate(c, r, start, steps), r.cap)
  {
    var n: nat :| Settled(r, Iterate(c, r, start, n)) && Final(c, r, start) == Iterate(c, r, start, n);
    SettledIsFinal(c, r, start, n, steps);
    if r.droppable || !r.truncates {
      var k := DroppingEnds(c, r, start);
      SettledIsFinal(c, r, start, steps, |start|);
    }
  }

  /** In a bucket from which the loop drops, and which is not compressed or minimised before, what
      is kept is a beginning of the sorted bucket, and nothing kept is less important than anything
      that is dropped. */
  lemma DropsLeastImportant(c: Compressors, p: Policy, b: Bucket, group: seq<Item>)
    requires b in p.droppable || !RulesOf(p, b).truncates
    requires b != RecentTranscript || b !in p.compressible
    requires b !in p.required || b !in p.minTokens
    ensures BucketReturns(c, p, b, group)
    ensures var left, start := BucketLeft(c, p, b, group), Prepared(c, p, b, group);
      && multiset(start) == multiset(group)
      && LongestFit(start, left, CapOf(p, b))
      && forall x, y :: x in left && y in start[|left|..] ==> Rank(x) <= Rank(y)
  {
    var r, start := RulesOf(p, b), Sort(ImportanceLeq, group);
    SortRankAscending(group);
    SortPermutes(ImportanceLeq, group);
    assert Prepared(c, p, b, group) == start;
    var k := DroppingEnds(c, r, start);
    LoopResult(c, r, start, |start|);
    assert BucketLeft(c, p, b, group) == start[..k];
    RanksSplit(start, k);
  }

  lemma RanksSplit(s: seq<Item>, k: nat)
    requires RankAscending(s) && k <= |s|
    ensures forall x, y :: x in s[..k] && y in s[k..] ==> Rank(x) <= Rank(y)
  {
    forall x, y | x in s[..k] && y in s[k..] ensures Rank(x) <= Rank(y) {
      var i :| 0 <= i < k && s[i] == x;
      var j :| k <= j < |s| && s[j] == y;
    }
  }

  /** Under every built-in policy the bucket phase brings each group it returns from within its cap:
      the exception for a required bucket that may be dropped from never applies. */
  lemma BuiltInBucketsFit(purpose: Purpose, b: Bucket, left: seq<Item>)
    requires Settled(RulesOf(BuiltIn(purpose), b), left)
    ensures left == [] || SumTokens(left) <= CapOf(BuiltIn(purpose), b)
  {
    BuiltInShape(purpose);
    assert b !in BuiltIn(purpose).required * BuiltIn(purpose).droppable;
  }

  /** A bucket that is trimmed by truncating, and is not minimised before, is never left if its items
      but the least important one fill the cap already, whatever the compressors do. */
  lemma FullBucketNeverReturns(c: Compressors, p: Policy, b: Bucket, group: seq<Item>)
    requires b in Truncating(p) && (b !in p.required || b !in p.minTokens) && group != []
    requires var sorted := Sort(ImportanceLeq, group);
      sorted != [] && sorted[|sorted| - 1].tokens >= 1 && SumTokens(sorted[..|sorted| - 1]) >= CapOf(p, b)
    ensures !BucketReturns(c, p, b, group)
  {
    var sorted := Sort(ImportanceLeq, group);
    assert Prepared(c, p, b, group) == sorted;
    NoRoomNeverEnds(c, RulesOf(p, b), sorted, 1);
  }

  lemma EqualItemsFill(p: Policy, b: Bucket, group: seq<Item>, n: nat, tokens: nat)
    requires |group| == n + 1 && (forall x :: x in group ==> x.tokens == tokens) && n * tokens >= CapOf(p, b) && tokens >= 1
    ensures var sorted := Sort(ImportanceLeq, group);
      sorted != [] && sorted[|sorted| - 1].tokens >= 1 && SumTokens(sorted[..|sorted| - 1]) >= CapOf(p, b)
  {
    var sorted := Sort(ImportanceLeq, group);
    SortPermutes(ImportanceLeq, group);
    assert |sorted| == |multiset(sorted)| == |multiset(group)| == n + 1;
    forall x | x in sorted ensures x in group { assert x in multiset(sorted); }
    assert sorted[n] in sorted;
    SumOfEqual(sorted[..n], tokens);
  }
}
