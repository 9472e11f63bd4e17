/** The unit of prompt context, its token cost, and its order. */
module ContextItems {
  import opened Basics
  import opened StableSort

  datatype Bucket =
    | SystemPolicy | CurrentTurn | RecentTranscript | SemanticSummary | WorkingMemory
    | RetrievedMemory | RetrievedKnowledge | ToolObservations | FileContext | Diagnostics

  datatype Kind =
    | SystemKind | UserTurn | RecentHistory | SummaryKind | MemoryKind | EpisodicMemory | Knowledge
    | ToolOutput | FileSlice | SymbolSlice | GitDiff | WorkspaceSummary | DiagnosticKind | TestFailure
    | TerminalOutput | OtherKind

  datatype Priority = Critical | High | Medium | Low | Unranked

  /** `clipped` is the compression method recorded in the item's metadata by the last clipping. */
  datatype Item = Item(
    id: string, kind: Kind, source: string, content: string, priority: Priority, freshness: real,
    tokens: int, compressible: bool, droppable: bool, bucket: Option<Bucket>, meta: string,
    clipped: Option<string>)

  function BucketOfKind(kind: Kind): Bucket {
    match kind
    case SystemKind => SystemPolicy
    case UserTurn => CurrentTurn
    case RecentHistory => RecentTranscript
    case SummaryKind => SemanticSummary
    case MemoryKind => WorkingMemory
    case EpisodicMemory => RetrievedMemory
    case Knowledge => RetrievedKnowledge
    case ToolOutput => ToolObservations
    case FileSlice => FileContext
    case SymbolSlice => FileContext
    case GitDiff => FileContext
    case WorkspaceSummary => FileContext
    case DiagnosticKind => Diagnostics
    case TestFailure => Diagnostics
    case TerminalOutput => Diagnostics
    case OtherKind => RecentTranscript
  }

  function ResolveBucket(x: Item): Bucket {
    if x.bucket.Some? then x.bucket.value else BucketOfKind(x.kind)
  }

  /** About four characters to a token, and at least one. */
  function EstimateText(text: string): (n: nat)
    ensures n >= 1
  {
    Max(1, |text| / 4)
  }

  function EstimateItem(x: Item): Item {
    if x.tokens <= 0 && x.content != "" then x.(tokens := EstimateText(x.content)) else x
  }

  function Cost(x: Item): nat { Max(0, x.tokens) }

  function SumTokens(items: seq<Item>): nat {
    if items == [] then 0 else SumTokens(items[..|items| - 1]) + Cost(items[|items| - 1])
  }

  lemma {:induction false} SumConcat(a: seq<Item>, b: seq<Item>)
    ensures SumTokens(a + b) == SumTokens(a) + SumTokens(b)
  {
    if b == [] {
      assert a + b == a;
    } else {
      SumConcat(a, b[..|b| - 1]);
      assert (a + b)[..|a + b| - 1] == a + b[..|b| - 1];
    }
  }

  function Rank(x: Item): nat {
    match x.priority
    case Critical => 0
    case High => 1
    case Medium => 2
    case Low => 3
    case Unranked => 9
  }

  predicate StringLeq(a: string, b: string) {
    a == "" || (b != "" && (a[0] < b[0] || (a[0] == b[0] && StringLeq(a[1..], b[1..]))))
  }

  /** The order of `_sort_items`: by rank, then freshest first, then by id. */
  predicate ImportanceLeq(a: Item, b: Item) {
    || Rank(a) < Rank(b)
    || (Rank(a) == Rank(b) && (a.freshness > b.freshness || (a.freshness == b.freshness && StringLeq(a.id, b.id))))
  }

  /** The order of the degrade and sweep phases: least important first. */
  predicate WorstFirst(a: Item, b: Item) { Rank(a) >= Rank(b) }

  // ----- the sort keeps ranks ascending -----

  ghost predicate RankAscending(s: seq<Item>) {
    forall i, j :: 0 <= i < j < |s| ==> Rank(s[i]) <= Rank(s[j])
  }

  lemma RankAscendingAppend(s: seq<Item>, x: Item)
    requires RankAscending(s) && forall y :: y in s ==> Rank(y) <= Rank(x)
    ensures RankAscending(s + [x])
  {
  }

  lemma RankAscendingLast(s: seq<Item>)
    requires RankAscending(s) && s != []
    ensures RankAscending(s[..|s| - 1]) && forall y :: y in s ==> Rank(y) <= Rank(s[|s| - 1])
  {
  }

  lemma {:induction false} InsertRankAscending(s: seq<Item>, x: Item)
    requires RankAscending(s)
    ensures RankAscending(InsertLast(ImportanceLeq, s, x))
  {
    hide RankAscending, Rank;
    if s == [] {
      RankAscendingAppend(s, x);
    } else {
      var n := |s| - 1;
      RankAscendingLast(s);
      if ImportanceLeq(s[n], x) {
        RankOfImportance(s[n], x);
        RankAscendingAppend(s, x);
      } else {
        InsertRankAscending(s[..n], x);
        InsertAdds(ImportanceLeq, s[..n], x);
        RankOfImportance(s[n], x);
        var front := InsertLast(ImportanceLeq, s[..n], x);
        forall y | y in front ensures Rank(y) <= Rank(s[n]) {
          assert y in multiset(front);
          assert y == x || y in s[..n];
        }
        RankAscendingAppend(front, s[n]);
      }
    }
  }

  lemma RankOfImportance(a: Item, b: Item)
    ensures if ImportanceLeq(a, b) then Rank(a) <= Rank(b) else Rank(b) <= Rank(a)
  {
  }

  lemma {:induction false} SortRankAscending(items: seq<Item>)
    ensures RankAscending(Sort(ImportanceLeq, items))
  {
    if items != [] {
      SortRankAscending(items[..|items| - 1]);
      InsertRankAscending(Sort(ImportanceLeq, items[..|items| - 1]), items[|items| - 1]);
    }
  }
}
