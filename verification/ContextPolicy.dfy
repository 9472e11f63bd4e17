/** The prompt context policies: which buckets a prompt needs, how large each may be, and what may
    be compressed or dropped to get there. */
module ContextPolicy {
  import opened Basics
  import opened ContextItems

  datatype Policy = Policy(
    required: set<Bucket>, caps: map<Bucket, int>, compressible: set<Bucket>, droppable: set<Bucket>,
    degradeOrder: seq<Bucket>, defaultBudget: int, preserve: set<Bucket>,
    minTokens: map<Bucket, int>, minItems: map<Bucket, int>, summaries: set<Bucket>)

  datatype Purpose =
    | Planning | Reasoning | Writing | Reviewing | Summarization | Reflection | Routing
    | IntentObservation | CodeAgent

  function CapOf(p: Policy, b: Bucket): int { if b in p.caps then p.caps[b] else 8000 }

  const BASE: map<Bucket, int> := map[
    SystemPolicy := 2000, CurrentTurn := 6000, RecentTranscript := 10000, SemanticSummary := 2500,
    WorkingMemory := 3500, RetrievedMemory := 2500, RetrievedKnowledge := 4000, ToolObservations := 3000,
    FileContext := 4000, Diagnostics := 3000]

  const PRESERVED: set<Bucket> := {CurrentTurn, SystemPolicy}

  const MIN_TOKENS: map<Bucket, int> := map[SemanticSummary := 400, WorkingMemory := 600, RecentTranscript := 800]

  const MIN_ITEMS: map<Bucket, int> := map[SemanticSummary := 1, WorkingMemory := 1, RecentTranscript := 1]

  const SUMMARIES: set<Bucket> := {SemanticSummary, WorkingMemory}

  const NARROW: map<Bucket, int> := map[
    CurrentTurn := 4000, WorkingMemory := 2000, RecentTranscript := 3000, SemanticSummary := 1500,
    RetrievedMemory := 1000, RetrievedKnowledge := 500, ToolObservations := 0, FileContext := 0,
    Diagnostics := 0, SystemPolicy := 0]

  /** The built-in policy table. */
  function BuiltIn(purpose: Purpose): Policy {
    match purpose
    case Planning => Policy(
      {CurrentTurn, SemanticSummary, WorkingMemory, RecentTranscript},
      BASE + map[RetrievedKnowledge := 1200, ToolObservations := 800, FileContext := 500],
      {RecentTranscript, SemanticSummary, RetrievedMemory, RetrievedKnowledge, ToolObservations},
      {RetrievedKnowledge, ToolObservations, FileContext, Diagnostics, RetrievedMemory},
      [RetrievedKnowledge, ToolObservations, FileContext, Diagnostics, RetrievedMemory, RecentTranscript,
       SemanticSummary, WorkingMemory],
      24000, PRESERVED, MIN_TOKENS, MIN_ITEMS, SUMMARIES)
    case Reasoning => Policy(
      {CurrentTurn, RecentTranscript, SemanticSummary, WorkingMemory},
      BASE,
      {RecentTranscript, SemanticSummary, RetrievedMemory, RetrievedKnowledge, ToolObservations},
      {FileContext, Diagnostics, RetrievedMemory},
      [FileContext, Diagnostics, RetrievedMemory, RetrievedKnowledge, ToolObservations, RecentTranscript,
       SemanticSummary],
      32000, PRESERVED, MIN_TOKENS, MIN_ITEMS, SUMMARIES)
    case Writing => Policy(
      {CurrentTurn, WorkingMemory, FileContext, RetrievedKnowledge},
      BASE + map[RecentTranscript := 4000, SemanticSummary := 3000],
      {RecentTranscript, SemanticSummary, RetrievedMemory, ToolObservations},
      {RecentTranscript, RetrievedMemory, ToolObservations, Diagnostics},
      [RecentTranscript, ToolObservations, Diagnostics, RetrievedMemory, SemanticSummary],
      36000, PRESERVED, map[], map[], {})
    case Reviewing => Policy(
      {CurrentTurn, WorkingMemory, FileContext, RetrievedKnowledge},
      BASE,
      {RecentTranscript, SemanticSummary, ToolObservations},
      {RecentTranscript, RetrievedMemory, ToolObservations},
      [RecentTranscript, ToolObservations, RetrievedMemory, SemanticSummary],
      32000, PRESERVED, map[], map[], {})
    case Summarization => Policy(
      {CurrentTurn, RecentTranscript},
      map[CurrentTurn := 4000, RecentTranscript := 24000, SemanticSummary := 0, WorkingMemory := 2000,
          RetrievedMemory := 0, RetrievedKnowledge := 0, ToolObservations := 0, FileContext := 0,
          Diagnostics := 0, SystemPolicy := 0],
      {RecentTranscript}, {}, [RecentTranscript],
      28000, PRESERVED, map[], map[], {})
    case Reflection => Policy(
      {CurrentTurn, WorkingMemory, SemanticSummary},
      BASE + map[RecentTranscript := 5000, RetrievedKnowledge := 1500, ToolObservations := 2000],
      {RecentTranscript, SemanticSummary, RetrievedMemory},
      {RetrievedKnowledge, FileContext, Diagnostics},
      [RetrievedKnowledge, FileContext, RecentTranscript, RetrievedMemory],
      20000, PRESERVED, map[], map[], {})
    case Routing => Policy(
      {CurrentTurn, WorkingMemory},
      NARROW,
      {RecentTranscript, SemanticSummary, RetrievedMemory},
      {RetrievedKnowledge, ToolObservations, FileContext, Diagnostics},
      [RetrievedKnowledge, ToolObservations, RecentTranscript, RetrievedMemory],
      12000, PRESERVED, map[], map[], {})
    case IntentObservation => Policy(
      {CurrentTurn, SemanticSummary, WorkingMemory, RecentTranscript},
      NARROW + map[WorkingMemory := 2500, RetrievedMemory := 800, RetrievedKnowledge := 0, SystemPolicy := 500],
      {RecentTranscript, SemanticSummary, RetrievedMemory},
      {RetrievedKnowledge, ToolObservations, FileContext, Diagnostics},
      [RetrievedKnowledge, ToolObservations, RecentTranscript, RetrievedMemory],
      10000, PRESERVED, map[], map[], {})
    case CodeAgent => Policy(
      {CurrentTurn, Diagnostics, FileContext, WorkingMemory},
      BASE + map[Diagnostics := 5000, FileContext := 6000, RecentTranscript := 4000, RetrievedKnowledge := 2000],
      {RecentTranscript, SemanticSummary, RetrievedMemory, RetrievedKnowledge, ToolObservations},
      {RetrievedKnowledge, RetrievedMemory, SemanticSummary, RecentTranscript, ToolObservations},
      [RetrievedKnowledge, RetrievedMemory, SemanticSummary, RecentTranscript, WorkingMemory, ToolObservations,
       FileContext],
      30000, {CurrentTurn, Diagnostics, SystemPolicy}, map[], map[], {})
  }

  /** The buckets that are trimmed by truncating, the only branch of the bucket loop that can fail
      to make progress. */
  function Truncating(p: Policy): set<Bucket> {
    p.compressible - p.droppable - {RecentTranscript}
  }

  /** No built-in policy drops from a bucket it requires, and exactly these buckets are trimmed by
      truncating. */
  lemma BuiltInShape(purpose: Purpose)
    ensures BuiltIn(purpose).required * BuiltIn(purpose).droppable == {}
    ensures Truncating(BuiltIn(purpose)) == match purpose
      case Planning => {SemanticSummary}
      case Reasoning => {SemanticSummary, RetrievedKnowledge, ToolObservations}
      case Writing => {SemanticSummary}
      case Reviewing => {SemanticSummary}
      case Summarization => {}
      case Reflection => {SemanticSummary, RetrievedMemory}
      case Routing => {SemanticSummary, RetrievedMemory}
      case IntentObservation => {SemanticSummary, RetrievedMemory}
      case CodeAgent => {}
  {
  }

  // ----- scaling -----

  function ScaledCap(cap: int, ratio: real): int {
    if cap <= 0 then 0 else Max(1, (cap as real * ratio).Floor)
  }

  /** `scale_policy_for_budget` with both adaptive settings on, over exact ratios. */
  function Scale(p: Policy, budget: int): Policy {
    if p.defaultBudget <= 0 || budget <= 0 then p
    else
      var ratio := budget as real / p.defaultBudget as real;
      if -0.01 < ratio - 1.0 < 0.01 then p
      else p.(caps := map b | b in p.caps :: ScaledCap(p.caps[b], ratio))
  }

  /** Scaling changes caps only: the same buckets stay capped, an open bucket stays open, a closed
      one stays closed, and a bucket allowed no more than another one still is. */
  lemma ScalePreserves(p: Policy, budget: int)
    ensures Scale(p, budget).(caps := p.caps) == p
    ensures Scale(p, budget).caps.Keys == p.caps.Keys
    ensures forall b :: b in p.caps ==> (Scale(p, budget).caps[b] > 0 <==> p.caps[b] > 0)
    ensures forall a, b :: a in p.caps && b in p.caps && 0 <= p.caps[a] <= p.caps[b] ==>
      Scale(p, budget).caps[a] <= Scale(p, budget).caps[b]
  {
    if p.defaultBudget > 0 && budget > 0 {
      var ratio := budget as real / p.defaultBudget as real;
      forall a, b | a in p.caps && b in p.caps && 0 <= p.caps[a] <= p.caps[b]
        ensures ScaledCap(p.caps[a], ratio) <= ScaledCap(p.caps[b], ratio)
      {
        ScaledCapMonotone(p.caps[a], p.caps[b], ratio);
      }
    }
  }

  /** A scaled cap is in proportion to the budget: it is the largest whole number whose share of the
      default budget is no more than the cap's share of the new one, but at least one. Within one
      percent of the default budget nothing is scaled. */
  lemma ScaledInProportion(p: Policy, budget: int, b: Bucket)
    requires p.defaultBudget > 0 && budget > 0 && b in p.caps
    ensures var n, cap := Scale(p, budget).caps[b], p.caps[b];
      if 100 * (budget - p.defaultBudget) < p.defaultBudget && 100 * (p.defaultBudget - budget) < p.defaultBudget then n == cap
      else if cap <= 0 then n == 0
      else n >= 1 && (n == 1 || n * p.defaultBudget <= cap * budget) && cap * budget < (n + 1) * p.defaultBudget
  {
    var ratio := budget as real / p.defaultBudget as real;
    assert ratio * p.defaultBudget as real == budget as real;
    Percent(p.defaultBudget, budget, ratio);
    if p.caps[b] > 0 { Proportion(p.defaultBudget, budget, p.caps[b], ratio); }
  }

  lemma Less(x: real, y: real, w: real)
    requires w > 0.0
    ensures x < y <==> x * w < y * w
  {
    assert (y - x) * w == y * w - x * w;
    if x < y { assert (y - x) * w > 0.0; } else { assert (x - y) * w >= 0.0; }
  }

  lemma Percent(whole: int, budget: int, ratio: real)
    requires whole > 0 && ratio * whole as real == budget as real
    ensures -0.01 < ratio - 1.0 < 0.01 <==> 100 * (budget - whole) < whole && 100 * (whole - budget) < whole
  {
    Sandwich(ratio, whole as real, budget as real, 0.99, 1.01);
    Hundredths(whole, budget, 0.99, 1.01);
  }

  lemma Sandwich(ratio: real, whole: real, budget: real, least: real, most: real)
    requires whole > 0.0 && ratio * whole == budget
    ensures least < ratio < most <==> least * whole < budget < most * whole
  {
    Less(ratio, most, whole);
    Less(least, ratio, whole);
  }

  lemma Hundredths(whole: int, budget: int, least: real, most: real)
    requires least == 0.99 && most == 1.01
    ensures least * whole as real < budget as real < most * whole as real <==>
      100 * (budget - whole) < whole && 100 * (whole - budget) < whole
  {
  }

  lemma RealProduct(x: int, y: int)
    ensures x as real * y as real == (x * y) as real
  {
  }

  lemma Proportion(whole: int, budget: int, cap: int, ratio: real)
    requires whole > 0 && budget > 0 && cap > 0 && ratio * whole as real == budget as real
    ensures var n := ScaledCap(cap, ratio);
      n >= 1 && (n == 1 || n * whole <= cap * budget) && cap * budget < (n + 1) * whole
  {
    var x := cap as real * ratio;
    Reorder(cap as real, ratio, whole as real);
    RealProduct(cap, budget);
    FloorOfShare(x, x.Floor, whole, cap * budget);
    AtLeastOne(x.Floor, ScaledCap(cap, ratio), whole, cap * budget);
  }

  lemma FloorOfShare(x: real, k: int, whole: int, n: int)
    requires whole > 0 && k as real <= x < (k + 1) as real && x * whole as real == n as real
    ensures k * whole <= n < (k + 1) * whole
  {
    RealProduct(k, whole);
    RealProduct(k + 1, whole);
    Less(x, k as real, whole as real);
    Less(x, (k + 1) as real, whole as real);
  }

  lemma AtLeastOne(k: int, n: int, whole: int, m: int)
    requires whole > 0 && n == (if k < 1 then 1 else k) && k * whole <= m < (k + 1) * whole
    ensures n >= 1 && (n == 1 || n * whole <= m) && m < (n + 1) * whole
  {
    if k < 1 {
      assert (k + 1) * whole <= 2 * whole;
    }
  }

  lemma Reorder(c: real, r: real, w: real)
    ensures (c * r) * w == c * (r * w)
  {
  }

  lemma ScaledCapMonotone(x: int, y: int, ratio: real)
    requires 0 <= x <= y && ratio >= 0.0
    ensures ScaledCap(x, ratio) <= ScaledCap(y, ratio)
  {
    assert (y - x) as real * ratio >= 0.0;
    assert y as real * ratio == x as real * ratio + (y - x) as real * ratio;
  }
}
