/** Bringing one bucket within its cap: the loop that drops, truncates or hard-drops from the end
    of the sorted bucket, when it ends, and what it leaves. */
module BucketLoop {
  import opened Basics
  import opened ContextItems
  import opened ToolItems

  /** The text compressors, and the one that makes new items for whole buckets. */
  datatype Compressors = Compressors(
    shorten: (Item, int) -> string,          // memory, knowledge and diagnostic items
    cutBody: Cutter,                         // the body of a tool item, which is longer than it may be
    firstLines: string -> string,            // the first four lines that are not blank
    transcript: seq<Item> -> seq<Item>)      // whole-transcript compression, with new items

  // ----- truncating one item -----

  datatype Shape = MemoryShape | KnowledgeShape | ToolShape | DiagnosticShape | PlainShape

  function ShapeOf(x: Item): Shape {
    var b := ResolveBucket(x);
    if b == RetrievedMemory || x.kind == EpisodicMemory then MemoryShape
    else if b == RetrievedKnowledge || x.kind == Knowledge then KnowledgeShape
    else if b == ToolObservations || x.kind == ToolOutput then ToolShape
    else if b == Diagnostics || x.kind in {DiagnosticKind, TestFailure, TerminalOutput} then DiagnosticShape
    else PlainShape
  }

  function Clip(x: Item, text: string, how: string): Item {
    x.(content := text, tokens := EstimateText(text), clipped := Some(how))
  }

  function PlainClip(text: string, maxTokens: int): string {
    if |text| <= TailBudget(maxTokens) then text else text[..TailBudget(maxTokens)] + "\U{2026}"
  }

  function Truncate(c: Compressors, x: Item, maxTokens: int): Item {
    if x.tokens <= maxTokens then x
    else match ShapeOf(x)
      case PlainShape => Clip(x, PlainClip(x.content, maxTokens), "token_truncate")
      case MemoryShape => Clip(x, c.shorten(x, maxTokens), "memory")
      case KnowledgeShape => Clip(x, c.shorten(x, maxTokens), "knowledge")
      case ToolShape =>
        Clip(x, ClipTool(c.cutBody, x.content, maxTokens), if Parse(x.content).Some? then "tool_structured" else "tool_tail")
      case DiagnosticShape => Clip(x, c.shorten(x, maxTokens), "diagnostic_structured")
  }

  /** The memory, knowledge and diagnostic compressors cut at the character budget and add at most
      an ellipsis; a tool item keeps its whole header and need not fit. */
  ghost predicate CutsAtBudget(c: Compressors) {
    forall x, m :: ShapeOf(x) in {MemoryShape, KnowledgeShape, DiagnosticShape} ==>
      |c.shorten(x, m)| <= TailBudget(m) + 1
  }

  /** Whatever is not a tool item meets a token target of at least 20 in one truncation. */
  lemma TruncateMeetsTarget(c: Compressors, x: Item, maxTokens: int)
    requires CutsAtBudget(c) && maxTokens >= 20 && ShapeOf(x) != ToolShape
    ensures Truncate(c, x, maxTokens).tokens <= maxTokens
  {
  }

  /** Truncating to the same target a second time changes nothing. */
  lemma TruncateSettles(c: Compressors, x: Item, maxTokens: int)
    requires CutsAtBudget(c) && maxTokens >= 20
    requires ShapeOf(x) == ToolShape ==> BodySettles(c.cutBody, x.content, maxTokens)
    ensures Truncate(c, Truncate(c, x, maxTokens), maxTokens) == Truncate(c, x, maxTokens)
  {
    hide ClipTool, Parse, CutsAtBudget, BodySettles, BucketOfKind;
    if ShapeOf(x) != ToolShape {
      TruncateMeetsTarget(c, x, maxTokens);
    } else if Parse(x.content).Some? {
      ClipSettles(c.cutBody, x.content, maxTokens);
    } else {
      HeaderlessFits(c.cutBody, x.content, maxTokens);
    }
  }

  /** The fewest tokens that truncating can bring an item down to, for all it knows: what the header
      of a tool item takes, and one for any other. */
  function Floor(x: Item): nat {
    if ShapeOf(x) == ToolShape && Parse(x.content).Some? then EstimateText(Render(Parse(x.content).value, "")) else 1
  }

  lemma TruncateKeepsFloor(c: Compressors, x: Item, maxTokens: int, least: nat)
    requires x.tokens >= least && Floor(x) >= least
    ensures Truncate(c, x, maxTokens).tokens >= least && Floor(Truncate(c, x, maxTokens)) >= least
  {
    hide ClipTool, Parse, Render, BucketOfKind;
    if Parse(x.content).Some? {
      ClipKeepsHeader(c.cutBody, x.content, maxTokens);
    }
  }

  /** Truncating never changes who the item is or how it may be treated. */
  lemma TruncateKeepsIdentity(c: Compressors, x: Item, maxTokens: int)
    ensures SameItem(x, Truncate(c, x, maxTokens))
  {
    hide BucketOfKind, ShapeOf, PlainClip, ClipTool, Parse, Clip;
    assert forall text, how :: SameItem(x, Clip(x, text, how)) by {
      forall text, how ensures SameItem(x, Clip(x, text, how)) { ClipKeepsIdentity(x, text, how); }
    }
  }

  predicate SameItem(x: Item, y: Item) {
    && y.id == x.id && y.kind == x.kind && y.priority == x.priority && y.droppable == x.droppable
    && y.compressible == x.compressible && ResolveBucket(y) == ResolveBucket(x)
  }

  lemma ClipKeepsIdentity(x: Item, text: string, how: string)
    ensures SameItem(x, Clip(x, text, how))
  {
  }

  // ----- the loop as a step function -----

  /** What a policy says about one bucket. */
  datatype Rules = Rules(cap: int, droppable: bool, required: bool, truncates: bool)

  predicate Settled(r: Rules, items: seq<Item>) {
    SumTokens(items) <= r.cap || items == [] || (r.droppable && r.required && |items| == 1)
  }

  function Target(r: Rules, count: nat): int { Max(32, r.cap / Max(1, count)) }

  function Next(c: Compressors, r: Rules, items: seq<Item>): seq<Item>
    requires items != []
  {
    var n := |items| - 1;
    if r.truncates && !r.droppable then items[n := Truncate(c, items[n], Target(r, |items|))]
    else items[..n]
  }

  function Iterate(c: Compressors, r: Rules, items: seq<Item>, steps: nat): seq<Item>
    decreases steps
  {
    if steps == 0 || Settled(r, items) then items else Iterate(c, r, Next(c, r, items), steps - 1)
  }

  /** The loop comes to an end. */
  ghost predicate Ends(c: Compressors, r: Rules, items: seq<Item>) {
    exists steps: nat :: Settled(r, Iterate(c, r, items, steps))
  }

  // ----- dropping always ends, and drops no more than it must -----

  lemma {:induction false} PrefixSumsGrow(items: seq<Item>, k: nat)
    requires k <= |items|
    ensures SumTokens(items[..k]) <= SumTokens(items)
  {
    if k < |items| {
      PrefixSumsGrow(items[..|items| - 1], k);
      assert items[..|items| - 1][..k] == items[..k];
    } else {
      assert items[..k] == items;
    }
  }

  /** In the two dropping branches the loop ends within as many steps as there are items, with the
      longest prefix that fits, or the first item alone if that one is required. */
  lemma {:induction false} DroppingEnds(c: Compressors, r: Rules, items: seq<Item>) returns (k: nat)
    requires r.droppable || !r.truncates
    ensures k <= |items| && Iterate(c, r, items, |items|) == items[..k]
    ensures Settled(r, items[..k]) && Ends(c, r, items)
    ensures forall j :: k < j <= |items| ==> SumTokens(items[..j]) > r.cap
  {
    if Settled(r, items) {
      k := |items|;
      assert items[..k] == items;
      assert Settled(r, Iterate(c, r, items, 0));
    } else {
      var n := |items| - 1;
      k := DroppingEnds(c, r, items[..n]);
      assert items[..n][..k] == items[..k];
      assert Iterate(c, r, items, |items|) == Iterate(c, r, items[..n], n);
      forall j | k < j <= |items| ensures SumTokens(items[..j]) > r.cap {
        if j <= n { assert items[..n][..j] == items[..j]; } else { assert items[..j] == items; }
      }
    }
  }

  // ----- when truncating ends -----

  function TruncateTimes(c: Compressors, x: Item, m: int, times: nat): Item
    decreases times
  {
    if times == 0 then x else TruncateTimes(c, Truncate(c, x, m), m, times - 1)
  }

  lemma SumWithLast(items: seq<Item>, x: Item)
    requires items != []
    ensures var n := |items| - 1;
      SumTokens(items[n := x]) == SumTokens(items[..n]) + Cost(x)
      && items[n := x][..n] == items[..n]
  {
    assert items[|items| - 1 := x][..|items| - 1] == items[..|items| - 1];
  }

  /** While the loop truncates, only the last item changes. */
  lemma {:induction false} TruncatingTouchesLast(c: Compressors, r: Rules, items: seq<Item>, steps: nat) returns (times: nat)
    requires r.truncates && !r.droppable && items != []
    ensures times <= steps
    ensures var n := |items| - 1;
      Iterate(c, r, items, steps) == items[n := TruncateTimes(c, items[n], Target(r, |items|), times)]
    ensures times < steps ==> Settled(r, Iterate(c, r, items, steps))
    decreases steps
  {
    hide Truncate, Target, Settled;
    var n := |items| - 1;
    if steps == 0 || Settled(r, items) {
      times := 0;
      assert items[n := items[n]] == items;
    } else {
      var next := Next(c, r, items);
      var t := TruncatingTouchesLast(c, r, next, steps - 1);
      times := t + 1;
      var y := TruncateTimes(c, next[n], Target(r, |items|), t);
      assert next[n := y] == items[n := y];
    }
  }

  /** The bucket fits once its last item has been truncated so many times. */
  ghost predicate FitsAfter(c: Compressors, r: Rules, items: seq<Item>, times: nat)
    requires items != []
  {
    var n := |items| - 1;
    SumTokens(items[..n]) + Cost(TruncateTimes(c, items[n], Target(r, |items|), times)) <= r.cap
  }

  /** The truncating loop ends exactly when truncating the last item over and over closes the
      excess by itself. */
  lemma TruncatingEndsIff(c: Compressors, r: Rules, items: seq<Item>)
    requires r.truncates && !r.droppable && items != []
    ensures Ends(c, r, items) <==>
      exists times: nat :: FitsAfter(c, r, items, times)
  {
    hide Truncate, Target, Iterate, TruncateTimes;
    var n := |items| - 1;
    var m := Target(r, |items|);
    if Ends(c, r, items) {
      var steps: nat :| Settled(r, Iterate(c, r, items, steps));
      var times := TruncatingTouchesLast(c, r, items, steps);
      SumWithLast(items, TruncateTimes(c, items[n], m, times));
      assert FitsAfter(c, r, items, times);
    }
    if times: nat :| FitsAfter(c, r, items, times) {
      var t := TruncatingTouchesLast(c, r, items, times);
      SumWithLast(items, TruncateTimes(c, items[n], m, times));
      assert Settled(r, Iterate(c, r, items, times));
    }
  }

  /** Once the last item fits its target a step changes nothing, and the loop never ends. */
  lemma StuckOnceLastFits(c: Compressors, r: Rules, items: seq<Item>)
    requires r.truncates && !r.droppable && !Settled(r, items)
    requires items[|items| - 1].tokens <= Target(r, |items|)
    ensures Next(c, r, items) == items
    ensures !Ends(c, r, items)
  {
    assert items[|items| - 1 := items[|items| - 1]] == items;
    NeverMoves(c, r, items);
  }

  lemma {:induction false} Fixed(c: Compressors, r: Rules, items: seq<Item>, steps: nat)
    requires items != [] ==> Next(c, r, items) == items
    ensures Iterate(c, r, items, steps) == items
  {
    if steps > 0 && !Settled(r, items) {
      Fixed(c, r, items, steps - 1);
    }
  }

  /** The last item, if it is a tool item, has a body that is left alone once it is cut. */
  predicate LastSettles(c: Compressors, r: Rules, items: seq<Item>)
    requires items != []
  {
    var last := items[|items| - 1];
    ShapeOf(last) == ToolShape ==> BodySettles(c.cutBody, last.content, Target(r, |items|))
  }

  lemma LastSettlesOnce(c: Compressors, r: Rules, items: seq<Item>)
    requires items != [] && CutsAtBudget(c) && LastSettles(c, r, items)
    ensures var m, last := Target(r, |items|), items[|items| - 1];
      Truncate(c, Truncate(c, last, m), m) == Truncate(c, last, m)
  {
    TruncateSettles(c, items[|items| - 1], Target(r, |items|));
  }

  /** The bucket fits, or does once its last item is truncated to its share. */
  predicate FitsAtOnce(c: Compressors, r: Rules, items: seq<Item>)
    requires items != []
  {
    var n := |items| - 1;
    SumTokens(items) <= r.cap || SumTokens(items[..n]) + Cost(Truncate(c, items[n], Target(r, |items|))) <= r.cap
  }

  /** With compressors that cut at their budget, and a last item that is left alone once it is cut,
      the loop ends exactly when the bucket fits now or after one truncation of its last item. */
  lemma TruncatingEndsAtOnceIff(c: Compressors, r: Rules, items: seq<Item>)
    requires r.truncates && !r.droppable && items != []
    requires CutsAtBudget(c) && LastSettles(c, r, items)
    ensures Ends(c, r, items) <==> FitsAtOnce(c, r, items)
  {
    hide Truncate, CutsAtBudget, LastSettles;
    var n := |items| - 1;
    var m := Target(r, |items|);
    var once := Truncate(c, items[n], m);
    LastSettlesOnce(c, r, items);
    SumWithLast(items, once);
    if SumTokens(items) <= r.cap {
      assert Settled(r, Iterate(c, r, items, 0));
    } else {
      var next := Next(c, r, items);
      assert next == items[n := once];
      if SumTokens(next) <= r.cap {
        assert Settled(r, Iterate(c, r, items, 1));
      } else {
        NeverMoves(c, r, next);
        StepwiseEnds(c, r, items);
      }
    }
  }

  lemma NeverMoves(c: Compressors, r: Rules, items: seq<Item>)
    requires items != [] && Next(c, r, items) == items && !Settled(r, items)
    ensures !Ends(c, r, items)
  {
    forall steps: nat ensures Iterate(c, r, items, steps) == items { Fixed(c, r, items, steps); }
  }

  lemma StepwiseEnds(c: Compressors, r: Rules, items: seq<Item>)
    requires !Settled(r, items)
    ensures Ends(c, r, items) ==> Ends(c, r, Next(c, r, items))
  {
    if steps: nat :| Settled(r, Iterate(c, r, items, steps)) {
      assert steps > 0;
      assert Settled(r, Iterate(c, r, Next(c, r, items), steps - 1));
    }
  }

  lemma {:induction false} TruncateTimesKeepsFloor(c: Compressors, x: Item, m: int, times: nat, least: nat)
    requires x.tokens >= least && Floor(x) >= least
    ensures TruncateTimes(c, x, m, times).tokens >= least
    decreases times
  {
    hide Truncate, Floor;
    if times > 0 {
      TruncateKeepsFloor(c, x, m, least);
      TruncateTimesKeepsFloor(c, Truncate(c, x, m), m, times - 1, least);
    }
  }

  /** Whatever the compressors do: if the items before the last one leave no room for as little as
      the last one can be brought down to, the loop never ends. */
  lemma NoRoomNeverEnds(c: Compressors, r: Rules, items: seq<Item>, least: nat)
    requires r.truncates && !r.droppable && items != []
    requires items[|items| - 1].tokens >= least && Floor(items[|items| - 1]) >= least
    requires SumTokens(items[..|items| - 1]) + least > r.cap
    ensures !Ends(c, r, items)
  {
    hide Truncate, Floor;
    TruncatingEndsIff(c, r, items);
    forall times: nat ensures !FitsAfter(c, r, items, times) {
      TruncateTimesKeepsFloor(c, items[|items| - 1], Target(r, |items|), times, least);
    }
  }

  lemma {:induction false} SumOfEqual(items: seq<Item>, n: nat)
    requires forall x :: x in items ==> x.tokens == n
    ensures SumTokens(items) == |items| * n
  {
    if items != [] {
      SumOfEqual(items[..|items| - 1], n);
      assert items[|items| - 1] in items;
    }
  }
}
