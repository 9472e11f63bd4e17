/** In which order the global phases give items up, and what becomes of each item they visit. */
module ContextOrder {
  import opened Basics
  import opened StableSort
  import opened ContextItems
  import opened ContextPolicy
  import opened BucketLoop
  import opened ContextTally
  import opened ContextReducer
  import opened ContextBudget

  // ----- least important first -----

  ghost predicate RankDescending(s: seq<Item>) {
    forall i, j :: 0 <= i < j < |s| ==> Rank(s[i]) >= Rank(s[j])
  }

  lemma WorstComeFirst(items: seq<Item>)
    ensures RankDescending(Sort(WorstFirst, items))
    ensures multiset(Sort(WorstFirst, items)) == multiset(items)
    ensures |Sort(WorstFirst, items)| == |items|
  {
    SortOrders(WorstFirst, items);
    SortPermutes(WorstFirst, items);
    var order := Sort(WorstFirst, items);
    assert |multiset(order)| == |order| && |multiset(items)| == |items|;
    forall i, j | 0 <= i < j < |order| ensures Rank(order[i]) >= Rank(order[j]) {
      assert WorstFirst(order[i], order[j]);
    }
  }

  /** The order of importance: rank, then the freshest, then the id. */
  lemma MostImportantFirst(items: seq<Item>, i: nat, j: nat)
    requires i < j < |Sort(ImportanceLeq, items)|
    ensures var x, y := Sort(ImportanceLeq, items)[i], Sort(ImportanceLeq, items)[j];
      || Rank(x) < Rank(y)
      || (Rank(x) == Rank(y) && (x.freshness > y.freshness || (x.freshness == y.freshness && StringLeq(x.id, y.id))))
  {
    ImportanceIsTotal();
    SortOrders(ImportanceLeq, items);
  }

  lemma ImportanceIsTotal()
    ensures Total(ImportanceLeq)
  {
    hide StringLeq;
    forall a, b ensures StringLeq(a, b) || StringLeq(b, a) { StringTotal(a, b); }
    forall a, b, c | StringLeq(a, b) && StringLeq(b, c) ensures StringLeq(a, c) { StringTransitive(a, b, c); }
  }

  lemma {:induction false} StringTotal(a: string, b: string)
    ensures StringLeq(a, b) || StringLeq(b, a)
  {
    if a != "" && b != "" {
      StringTotal(a[1..], b[1..]);
    }
  }

  lemma {:induction false} StringTransitive(a: string, b: string, c: string)
    requires StringLeq(a, b) && StringLeq(b, c)
    ensures StringLeq(a, c)
  {
    if a != "" && a[0] == b[0] == c[0] {
      StringTransitive(a[1..], b[1..], c[1..]);
    }
  }

  // ----- sums of what is kept -----

  lemma {:induction false} RemovedCost(s: seq<Item>, x: Item)
    requires x in s
    ensures SumTokens(RemoveFirst(s, x)) == SumTokens(s) - Cost(x)
  {
    assert s == [s[0]] + s[1..];
    SumConcat([s[0]], s[1..]);
    assert [s[0]][..0] == [];
    if s[0] != x {
      RemovedCost(s[1..], x);
      SumConcat([s[0]], RemoveFirst(s[1..], x));
    }
  }

  // ----- the sweep -----

  function Unprotected(items: seq<Item>): seq<Item> {
    if items == [] then []
    else
      var x := items[|items| - 1];
      Unprotected(items[..|items| - 1]) + if x.priority != Critical && x.droppable then [x] else []
  }

  function Spared(items: seq<Item>): seq<Item> {
    if items == [] then []
    else
      var x := items[|items| - 1];
      Spared(items[..|items| - 1]) + if x.priority == Critical || !x.droppable then [x] else []
  }

  lemma SparedOrNot(items: seq<Item>)
    ensures multiset(Spared(items)) + multiset(Unprotected(items)) == multiset(items)
  {
    hide Spared, Unprotected;
    forall y ensures multiset(Spared(items))[y] + multiset(Unprotected(items))[y] == multiset(items)[y] {
      EachOnce(items, y);
    }
  }

  lemma {:induction false} EachOnce(items: seq<Item>, y: Item)
    ensures multiset(Spared(items))[y] + multiset(Unprotected(items))[y] == multiset(items)[y]
  {
    hide Spared, Unprotected;
    if items == [] {
      NoneSorted();
    } else {
      var front, x := items[..|items| - 1], items[|items| - 1];
      EachOnce(front, y);
      LastSorted(items);
      OneMoreOf(items, front, x, y);
      OneMoreOf(Spared(front) + [x], Spared(front), x, y);
      OneMoreOf(Unprotected(front) + [x], Unprotected(front), x, y);
    }
  }

  lemma NoneSorted()
    ensures Spared([]) == [] && Unprotected([]) == []
  {
  }

  lemma LastSorted(items: seq<Item>)
    requires items != []
    ensures var front, x := items[..|items| - 1], items[|items| - 1];
      var drops := x.priority != Critical && x.droppable;
      && Spared(items) == (if drops then Spared(front) else Spared(front) + [x])
      && Unprotected(items) == if drops then Unprotected(front) + [x] else Unprotected(front)
  {
  }

  lemma OneMoreOf(all: seq<Item>, s: seq<Item>, x: Item, y: Item)
    requires |all| == |s| + 1 && s == all[..|s|] && all[|s|] == x
    ensures multiset(all)[y] == multiset(s)[y] + if x == y then 1 else 0
  {
    assert all == s + [x];
  }

  lemma {:induction false} SparedAre(items: seq<Item>)
    ensures forall i :: 0 <= i < |Spared(items)| ==> Spared(items)[i].priority == Critical || !Spared(items)[i].droppable
  {
    if items != [] {
      SparedAre(items[..|items| - 1]);
    }
  }

  lemma {:induction false} UnprotectedAre(items: seq<Item>)
    ensures forall i :: 0 <= i < |Unprotected(items)| ==>
      Unprotected(items)[i].priority != Critical && Unprotected(items)[i].droppable
  {
    if items != [] {
      UnprotectedAre(items[..|items| - 1]);
    }
  }

  lemma SortedOutAre(items: seq<Item>)
    ensures multiset(Spared(items)) + multiset(Unprotected(items)) == multiset(items)
    ensures forall x :: x in Unprotected(items) ==> x in items && x.priority != Critical && x.droppable
    ensures forall x :: x in Spared(items) ==> x.priority == Critical || !x.droppable
  {
    hide Spared, Unprotected;
    SparedOrNot(items);
    SparedAre(items);
    UnprotectedAre(items);
    forall x | x in Unprotected(items) ensures x in items {
      assert x in multiset(Unprotected(items));
      assert x in multiset(items);
    }
  }

  /** What the sweep has done after the first `n` items of its order. */
  ghost predicate SweptSo(order: seq<Item>, n: nat, t0: Tally, t: Tally) {
    && n <= |order|
    && t.dropped == t0.dropped + Unprotected(order[..n]) && t.compressed == t0.compressed
    && multiset(t.kept) == multiset(order[n..]) + multiset(Spared(order[..n]))
  }

  lemma SortedOut(order: seq<Item>, n: nat)
    requires n < |order|
    ensures var x := order[n];
      && Unprotected(order[..n + 1]) == Unprotected(order[..n]) + (if Protected(x) then [] else [x])
      && Spared(order[..n + 1]) == Spared(order[..n]) + (if Protected(x) then [x] else [])
  {
    assert order[..n + 1][..n] == order[..n];
  }

  lemma SweptNext(order: seq<Item>, n: nat, t0: Tally, t: Tally)
    requires SweptSo(order, n, t0, t) && n < |order|
    ensures var x := order[n];
      && (Protected(x) ==> SweptSo(order, n + 1, t0, t))
      && (!Protected(x) ==> x in t.kept && SweptSo(order, n + 1, t0, DropItem(t, x)))
  {
    hide Unprotected, Spared, Protected;
    SortedOut(order, n);
    assert order[n..][0] == order[n] && order[n..][1..] == order[n + 1..];
    SweepInvariantStep(t.kept, order[n..], Spared(order[..n]));
  }

  /** The sweep goes down its order from `n` on; it stops once the budget is met, and what was kept
      before its last drop did not meet it. */
  lemma {:induction false} SweptFrom(budget: int, order: seq<Item>, n: nat, t0: Tally, t: Tally) returns (m: nat)
    requires SweptSo(order, n, t0, t)
    requires t.dropped != t0.dropped ==> SumTokens(t.kept) + Cost(t.dropped[|t.dropped| - 1]) > budget
    ensures n <= m && var u := Swept(budget, order[n..], t);
      && SweptSo(order, m, t0, u)
      && (m == |order| || SumTokens(u.kept) <= budget)
      && (u.dropped != t0.dropped ==> SumTokens(u.kept) + Cost(u.dropped[|u.dropped| - 1]) > budget)
    decreases |order| - n
  {
    hide SweptSo, SumTokens, Unprotected, Spared;
    if n == |order| || SumTokens(t.kept) <= budget {
      SweptBound(order, n, t0, t);
      m := n;
    } else {
      SweptBound(order, n, t0, t);
      var x := order[n];
      SweptNext(order, n, t0, t);
      assert order[n..][0] == x && order[n..][1..] == order[n + 1..];
      if Protected(x) {
        m := SweptFrom(budget, order, n + 1, t0, t);
      } else {
        RemovedCost(t.kept, x);
        m := SweptFrom(budget, order, n + 1, t0, DropItem(t, x));
      }
    }
  }

  lemma SweptBound(order: seq<Item>, n: nat, t0: Tally, t: Tally)
    requires SweptSo(order, n, t0, t)
    ensures n <= |order|
  {
  }

  /** Whatever the sweep drops ranks no higher than anything it keeps and might have dropped, and the
      kept tokens were over the budget before its last drop. */
  lemma SweepDropsWorst(budget: int, t: Tally)
    ensures var u := Swept(budget, Sort(WorstFirst, t.kept), t);
      && t.dropped <= u.dropped && u.compressed == t.compressed
      && (forall x, y :: x in u.dropped[|t.dropped|..] && y in u.kept && y.priority != Critical && y.droppable ==>
            Rank(x) >= Rank(y))
      && (forall x :: x in u.dropped[|t.dropped|..] ==> x.priority != Critical && x.droppable)
      && (u.dropped != t.dropped ==> SumTokens(u.kept) + Cost(u.dropped[|u.dropped| - 1]) > budget)
      && (SumTokens(t.kept) <= budget ==> u == t)
      && multiset(u.kept) + multiset(u.dropped[|t.dropped|..]) == multiset(t.kept)
  {
    hide SumTokens, Unprotected, Spared, Swept;
    var order := Sort(WorstFirst, t.kept);
    WorstComeFirst(t.kept);
    SweptNothing(order, t);
    var n := SweptFrom(budget, order, 0, t, t);
    var u := Swept(budget, order, t);
    hide SweptSo, RankDescending;
    SweptRanks(order, n, t, u);
    SweptWithin(budget, order, t);
  }

  lemma SweptRanks(order: seq<Item>, n: nat, t: Tally, u: Tally)
    requires RankDescending(order) && multiset(order) == multiset(t.kept) && SweptSo(order, n, t, u)
    ensures t.dropped <= u.dropped && u.compressed == t.compressed
    ensures forall x, y :: x in u.dropped[|t.dropped|..] && y in u.kept && y.priority != Critical && y.droppable ==>
      Rank(x) >= Rank(y)
    ensures forall x :: x in u.dropped[|t.dropped|..] ==> x.priority != Critical && x.droppable
    ensures multiset(u.kept) + multiset(u.dropped[|t.dropped|..]) == multiset(t.kept)
  {
    hide Unprotected, Spared, Rank;
    assert u.dropped[|t.dropped|..] == Unprotected(order[..n]);
    assert order == order[..n] + order[n..];
    SortedOutAre(order[..n]);
    RanksFall(order, n);
    forall y | y in u.kept && y.priority != Critical && y.droppable ensures y in order[n..] {
      assert y in multiset(u.kept);
    }
  }

  lemma SweptNothing(order: seq<Item>, t: Tally)
    requires multiset(t.kept) == multiset(order)
    ensures SweptSo(order, 0, t, t) && order[0..] == order
  {
    assert order[..0] == [] && order[0..] == order;
    assert t.dropped + [] == t.dropped;
  }

  lemma SweptWithin(budget: int, order: seq<Item>, t: Tally)
    ensures SumTokens(t.kept) <= budget ==> Swept(budget, order, t) == t
  {
  }

  lemma RanksFall(order: seq<Item>, n: nat)
    requires RankDescending(order) && n <= |order|
    ensures forall x, y :: x in order[..n] && y in order[n..] ==> Rank(x) >= Rank(y)
  {
    forall x, y | x in order[..n] && y in order[n..] ensures Rank(x) >= Rank(y) {
      var i :| 0 <= i < n && order[i] == x;
      var j :| n <= j < |order| && order[j] == y;
    }
  }

  // ----- degrading a bucket -----

  /** The items that degrading drops, and those it cuts, out of those it visits. */
  function DroppedOf(p: Policy, b: Bucket, items: seq<Item>): seq<Item> {
    if items == [] then []
    else
      var x := items[|items| - 1];
      DroppedOf(p, b, items[..|items| - 1]) + if x.droppable && b !in p.preserve then [x] else []
  }

  function CutOf(p: Policy, b: Bucket, items: seq<Item>): seq<Item> {
    if items == [] then []
    else
      var x := items[|items| - 1];
      CutOf(p, b, items[..|items| - 1]) + if x.compressible && (!x.droppable || b in p.preserve) then [x] else []
  }

  /** The tally once these items were visited. */
  function VisitAll(c: Compressors, p: Policy, b: Bucket, items: seq<Item>, t: Tally): Tally {
    if items == [] then t
    else DegradeItem(c, p, b, VisitAll(c, p, b, items[..|items| - 1], t), items[|items| - 1])
  }

  lemma {:induction false} VisitedIsDroppedOrCut(c: Compressors, p: Policy, b: Bucket, items: seq<Item>, t: Tally)
    ensures var u := VisitAll(c, p, b, items, t);
      u.dropped == t.dropped + DroppedOf(p, b, items) && u.compressed == t.compressed + CutOf(p, b, items)
  {
    if items != [] {
      VisitedIsDroppedOrCut(c, p, b, items[..|items| - 1], t);
    }
  }

  lemma {:induction false} VisitsOneByOne(c: Compressors, p: Policy, b: Bucket, budget: int, order: seq<Item>, n: nat, t: Tally)
    returns (m: nat)
    requires n <= |order|
    requires forall k :: 0 <= k < n ==> SumTokens(VisitAll(c, p, b, order[..k], t).kept) > budget
    ensures n <= m <= |order|
    ensures DegradeItems(c, p, b, budget, order[n..], VisitAll(c, p, b, order[..n], t)) == VisitAll(c, p, b, order[..m], t)
    ensures forall k :: 0 <= k < m ==> SumTokens(VisitAll(c, p, b, order[..k], t).kept) > budget
    ensures m == |order| || SumTokens(VisitAll(c, p, b, order[..m], t).kept) <= budget
    decreases |order| - n
  {
    hide SumTokens, DegradeItem;
    var now := VisitAll(c, p, b, order[..n], t);
    if n == |order| || SumTokens(now.kept) <= budget {
      m := n;
    } else {
      assert order[n..][0] == order[n] && order[n..][1..] == order[n + 1..];
      assert order[..n + 1][..n] == order[..n];
      m := VisitsOneByOne(c, p, b, budget, order, n + 1, t);
    }
  }

  /** Degrading a bucket visits its items, least important first, for as long as the kept tokens are over
      the budget; it drops those that may be dropped and cuts those others that may be cut. Nothing
      it has visited ranks higher than anything it has not. */
  lemma DegradeWorstFirst(c: Compressors, p: Policy, b: Bucket, budget: int, group: seq<Item>, t: Tally)
    returns (order: seq<Item>, n: nat)
    ensures multiset(order) == multiset(group) && n <= |order| && RankDescending(order)
    ensures forall x, y :: x in order[..n] && y in order[n..] ==> Rank(x) >= Rank(y)
    ensures var u := DegradeItems(c, p, b, budget, Sort(WorstFirst, group), t);
      && u.dropped == t.dropped + DroppedOf(p, b, order[..n])
      && u.compressed == t.compressed + CutOf(p, b, order[..n])
      && u == VisitAll(c, p, b, order[..n], t)
      && (n == |order| || SumTokens(u.kept) <= budget)
    ensures forall k :: 0 <= k < n ==> SumTokens(VisitAll(c, p, b, order[..k], t).kept) > budget
  {
    order := Sort(WorstFirst, group);
    WorstComeFirst(group);
    assert order[..0] == [] && order[0..] == order;
    n := VisitsOneByOne(c, p, b, budget, order, 0, t);
    VisitedIsDroppedOrCut(c, p, b, order[..n], t);
    RanksFall(order, n);
  }

  /** A cut keeps the item, at half its tokens or 32 if its compressor cuts at its budget. */
  lemma CutHalves(c: Compressors, p: Policy, b: Bucket, t: Tally, x: Item)
    requires x in t.kept && x.compressible && (!x.droppable || b in p.preserve)
    ensures var u := DegradeItem(c, p, b, t, x);
      && u.kept != [] && multiset(u.kept[..|u.kept| - 1]) == multiset(t.kept) - multiset{x}
      && var y := u.kept[|u.kept| - 1];
         && SameItem(x, y)
         && (x.tokens <= 32 ==> y == x)
         && (CutsAtBudget(c) && ShapeOf(x) != ToolShape ==> y.tokens <= 32 || 2 * y.tokens <= x.tokens)
  {
    var m := Max(32, x.tokens / 2);
    RemoveFirstTakesOne(t.kept, x);
    TruncateKeepsIdentity(c, x, m);
    var y := Truncate(c, x, m);
    assert (RemoveFirst(t.kept, x) + [y])[..|RemoveFirst(t.kept, x)|] == RemoveFirst(t.kept, x);
    if CutsAtBudget(c) && ShapeOf(x) != ToolShape {
      TruncateMeetsTarget(c, x, m);
    }
  }

  // ----- the minimum of a bucket -----

  lemma {:induction false} MinimalOneByOne(c: Compressors, p: Policy, b: Bucket, items: seq<Item>, perItem: int)
    ensures var out := MinimalItems(c, p, b, items, perItem);
      |out| == |items| && forall i :: 0 <= i < |items| ==> out[i] == MinimalItem(c, p, b, items[i], perItem)
  {
    if items != [] {
      MinimalOneByOne(c, p, b, items[..|items| - 1], perItem);
    }
  }

  /** An item in a bucket's minimum: the same item, with its first lines if its bucket may be represented by
      summaries and it is one, and else within its share if its compressor cuts at its budget. */
  lemma MinimalIs(c: Compressors, p: Policy, b: Bucket, x: Item, share: int)
    requires share >= 32
    ensures var y := MinimalItem(c, p, b, x, share);
      && SameItem(x, y)
      && (b in p.summaries && (x.kind == MemoryKind || x.kind == SummaryKind) ==> y.content == c.firstLines(x.content))
      && (!(b in p.summaries && (x.kind == MemoryKind || x.kind == SummaryKind)) ==>
            && (x.tokens <= share ==> y == x)
            && (CutsAtBudget(c) && ShapeOf(x) != ToolShape ==> y.tokens <= share))
  {
    hide BucketOfKind;
    TruncateKeepsIdentity(c, x, share);
    ClipKeepsIdentity(x, c.firstLines(x.content), "min_bucket_summary");
    if CutsAtBudget(c) && ShapeOf(x) != ToolShape {
      TruncateMeetsTarget(c, x, share);
    }
  }

  /** The minimum of a bucket keeps as many items as the policy asks for, at least one, each as it is in the
      minimum; none that it leaves out ranks higher than one it keeps, or as high and is fresher. */
  lemma MinKeepsMostImportant(c: Compressors, p: Policy, b: Bucket, items: seq<Item>)
    returns (keep: seq<Item>, rest: seq<Item>, share: int)
    requires b in p.minTokens && p.minTokens[b] != 0 && items != []
    ensures multiset(keep) + multiset(rest) == multiset(items)
    ensures var asked := if b in p.minItems && p.minItems[b] > 1 then p.minItems[b] else 1;
      |keep| == if |items| <= asked then |items| else asked
    ensures forall x, y :: x in keep && y in rest ==> Rank(x) < Rank(y) || (Rank(x) == Rank(y) && x.freshness >= y.freshness)
    ensures share >= 32 && (share == 32 || share * |keep| <= p.minTokens[b]) && p.minTokens[b] < (share + 1) * |keep|
    ensures var out := MinRepresentation(c, p, b, items);
      |out| == |keep| && forall i :: 0 <= i < |keep| ==> out[i] == MinimalItem(c, p, b, keep[i], share)
  {
    hide MinimalItems, MinimalItem, Sort, MinRepresentation;
    var count := Max(1, if b in p.minItems then p.minItems[b] else 1);
    var sorted := Sort(ImportanceLeq, items);
    SortPermutes(ImportanceLeq, items);
    assert |multiset(sorted)| == |multiset(items)|;
    var k := if |sorted| <= count then |sorted| else count;
    keep, rest := sorted[..k], sorted[k..];
    assert sorted == keep + rest;
    share := Share(p.minTokens[b], |keep|);
    ShareIs(p.minTokens[b], |keep|);
    MinimalOneByOne(c, p, b, keep, share);
    MinimumOf(c, p, b, items, sorted, keep, count);
    BeginningComesFirst(items, keep, rest);
  }

  lemma MinimumOf(c: Compressors, p: Policy, b: Bucket, items: seq<Item>, sorted: seq<Item>, keep: seq<Item>, count: nat)
    requires b in p.minTokens && p.minTokens[b] != 0 && items != [] && sorted == Sort(ImportanceLeq, items)
    requires count == Max(1, if b in p.minItems then p.minItems[b] else 1)
    requires keep == sorted[..if |sorted| <= count then |sorted| else count]
    ensures MinRepresentation(c, p, b, items) == MinimalItems(c, p, b, keep, Share(p.minTokens[b], |keep|))
  {
    hide MinimalItems, Sort, Share;
    assert |sorted| <= count ==> keep == sorted;
  }

  lemma BeginningComesFirst(items: seq<Item>, keep: seq<Item>, rest: seq<Item>)
    requires Sort(ImportanceLeq, items) == keep + rest
    ensures forall x, y :: x in keep && y in rest ==> Rank(x) < Rank(y) || (Rank(x) == Rank(y) && x.freshness >= y.freshness)
  {
    hide Sort;
    forall x, y | x in keep && y in rest
      ensures Rank(x) < Rank(y) || (Rank(x) == Rank(y) && x.freshness >= y.freshness)
    {
      var i :| 0 <= i < |keep| && keep[i] == x;
      var j :| 0 <= j < |rest| && rest[j] == y;
      assert (keep + rest)[i] == x && (keep + rest)[|keep| + j] == y;
      MostImportantFirst(items, i, |keep| + j);
    }
  }

  lemma ShareIs(tokens: int, count: nat)
    requires count > 0
    ensures var share := Share(tokens, count);
      share >= 32 && (share == 32 || share * count <= tokens) && tokens < (share + 1) * count
  {
    var q := tokens / count;
    assert q * count <= tokens < (q + 1) * count;
    if q < 32 {
      assert (q + 1) * count <= 33 * count;
    }
  }

  lemma MinimumIsThere(c: Compressors, p: Policy, b: Bucket, items: seq<Item>)
    ensures MinRepresentation(c, p, b, items) == [] <==> items == []
  {
    hide MinRepresentation;
    if items != [] && b in p.minTokens && p.minTokens[b] != 0 {
      var keep, rest, share := MinKeepsMostImportant(c, p, b, items);
    } else {
      NoMinimum(c, p, b, items);
    }
  }

  /** Without a minimum in the policy the bucket is left alone. */
  lemma NoMinimum(c: Compressors, p: Policy, b: Bucket, items: seq<Item>)
    requires items == [] || b !in p.minTokens || p.minTokens[b] == 0
    ensures MinRepresentation(c, p, b, items) == items
  {
  }

  /** A bucket within its cap, or that need not be there, goes into its loop as it is; one over its cap that
      has a minimum is replaced by it, if that is smaller. */
  lemma PreparedOnlyWhenOver(c: Compressors, p: Policy, b: Bucket, group: seq<Item>)
    ensures var merged, start := Merged(c, p, b, group), Prepared(c, p, b, group);
      var smaller := SumTokens(MinRepresentation(c, p, b, merged)) < SumTokens(merged);
      && SumTokens(start) <= SumTokens(merged)
      && (SumTokens(merged) <= CapOf(p, b) || b !in p.required || b !in p.minTokens || !smaller ==> start == merged)
      && (SumTokens(merged) > CapOf(p, b) && b in p.required && b in p.minTokens && smaller ==>
            start == MinRepresentation(c, p, b, merged))
      && (SumTokens(Sort(ImportanceLeq, group)) <= CapOf(p, b) || b != RecentTranscript || b !in p.compressible ==>
            merged == Sort(ImportanceLeq, group))
      && (SumTokens(Sort(ImportanceLeq, group)) > CapOf(p, b) && b == RecentTranscript && b in p.compressible && group != [] ==>
            merged == c.transcript(Sort(ImportanceLeq, group)))
  {
    hide Sort, MinRepresentation, CapOf;
    MinimumIsThere(c, p, b, Merged(c, p, b, group));
    SortPermutes(ImportanceLeq, group);
    assert |multiset(Sort(ImportanceLeq, group))| == |multiset(group)|;
  }
}
