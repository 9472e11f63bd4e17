/** The three result lists of a reduction and its trace, and the single moves between them. */
module ContextTally {
  import opened ContextItems

  datatype Action = KeptAction(id: string) | CompressedAction(id: string) | DroppedAction(id: string)

  datatype Tally = Tally(kept: seq<Item>, compressed: seq<Item>, dropped: seq<Item>, trace: seq<Action>)

  function IdSet(items: seq<Item>): set<string> { set x | x in items :: x.id }

  function AllIds(t: Tally): set<string> { IdSet(t.kept) + IdSet(t.compressed) + IdSet(t.dropped) }

  function Ids(items: seq<Item>): seq<string> {
    if items == [] then [] else Ids(items[..|items| - 1]) + [items[|items| - 1].id]
  }

  function DroppedIds(trace: seq<Action>): seq<string> {
    if trace == [] then []
    else DroppedIds(trace[..|trace| - 1])
         + match trace[|trace| - 1] case DroppedAction(id) => [id] case _ => []
  }

  /** The trace tells the truth about what was dropped, in order. */
  ghost predicate Honest(t: Tally) { DroppedIds(t.trace) == Ids(t.dropped) }

  lemma TraceOne(t: Tally, x: Item, a: Action)
    ensures DroppedIds(t.trace + [a]) == DroppedIds(t.trace) + match a case DroppedAction(id) => [id] case _ => []
    ensures Ids(t.dropped + [x]) == Ids(t.dropped) + [x.id]
  {
    assert (t.trace + [a])[..|t.trace|] == t.trace;
    assert (t.dropped + [x])[..|t.dropped|] == t.dropped;
  }

  lemma IdSetConcat(a: seq<Item>, b: seq<Item>)
    ensures IdSet(a + b) == IdSet(a) + IdSet(b)
  {
    assert forall x :: x in a + b <==> x in a || x in b;
  }

  lemma IdSetOne(x: Item)
    ensures IdSet([x]) == {x.id}
  {
    assert x in [x];
  }

  /** `list.remove`: the first equal element goes. */
  function RemoveFirst(s: seq<Item>, x: Item): seq<Item> {
    if s == [] then [] else if s[0] == x then s[1..] else [s[0]] + RemoveFirst(s[1..], x)
  }

  lemma {:induction false} RemoveFirstTakesOne(s: seq<Item>, x: Item)
    requires x in s
    ensures multiset(RemoveFirst(s, x)) == multiset(s) - multiset{x}
  {
    assert s == [s[0]] + s[1..];
    if s[0] != x {
      RemoveFirstTakesOne(s[1..], x);
    }
  }

  lemma RemoveFirstIds(s: seq<Item>, x: Item)
    requires x in s
    ensures IdSet(s) == IdSet(RemoveFirst(s, x)) + {x.id}
    ensures forall y :: y in RemoveFirst(s, x) ==> y in s
  {
    RemoveFirstTakesOne(s, x);
    var r := RemoveFirst(s, x);
    forall y | y in r ensures y in s { assert y in multiset(r); assert y in multiset(s); }
    forall y | y in s && y != x ensures y in r { assert y in multiset(s); assert y in multiset(r); }
  }

  // ----- moves -----

  function DropItem(t: Tally, x: Item): Tally {
    Tally(RemoveFirst(t.kept, x), t.compressed, t.dropped + [x], t.trace + [DroppedAction(x.id)])
  }

  function ReplaceItem(t: Tally, x: Item, y: Item): Tally {
    Tally(RemoveFirst(t.kept, x) + [y], t.compressed + [x], t.dropped, t.trace + [CompressedAction(x.id)])
  }

  function ShelveItem(t: Tally, x: Item): Tally {
    Tally(RemoveFirst(t.kept, x), t.compressed + [x], t.dropped, t.trace)
  }

  function KeepItem(t: Tally, x: Item): Tally {
    t.(kept := t.kept + [x], trace := t.trace + [KeptAction(x.id)])
  }

  function NoteDropped(t: Tally, x: Item): Tally {
    t.(dropped := t.dropped + [x], trace := t.trace + [DroppedAction(x.id)])
  }

  function NoteCompressed(t: Tally, x: Item): Tally {
    t.(compressed := t.compressed + [x], trace := t.trace + [CompressedAction(x.id)])
  }

  /** What every move of the global phases keeps: no id disappears, nothing non-droppable is
      dropped, the trace stays honest, and a kept id is an old one or one of those `made` by the
      transcript compressions of the moves. */
  ghost predicate Moves(made: set<string>, a: Tally, b: Tally) {
    && AllIds(a) <= AllIds(b)
    && (Honest(a) ==> Honest(b))
    && a.dropped <= b.dropped
    && (forall i :: |a.dropped| <= i < |b.dropped| ==> b.dropped[i].droppable)
    && IdSet(b.kept) <= IdSet(a.kept) + made
  }

  lemma MovesRefl(a: Tally)
    ensures Moves({}, a, a)
  {
  }

  lemma MovesTrans(made: set<string>, more: set<string>, a: Tally, b: Tally, d: Tally)
    requires Moves(made, a, b) && Moves(more, b, d)
    ensures Moves(made + more, a, d)
  {
  }

  lemma MovesOn(made: set<string>, a: Tally, b: Tally, d: Tally)
    requires Moves(made, a, b) && Moves({}, b, d)
    ensures Moves(made, a, d)
  {
  }

  lemma DropMoves(t: Tally, x: Item)
    requires x in t.kept && x.droppable
    ensures Moves({}, t, DropItem(t, x))
  {
    RemoveFirstIds(t.kept, x);
    IdSetConcat(t.dropped, [x]);
    IdSetOne(x);
    TraceOne(t, x, DroppedAction(x.id));
  }

  lemma ReplaceMoves(t: Tally, x: Item, y: Item)
    requires x in t.kept && y.id == x.id
    ensures Moves({}, t, ReplaceItem(t, x, y))
  {
    RemoveFirstIds(t.kept, x);
    IdSetConcat(RemoveFirst(t.kept, x), [y]);
    IdSetConcat(t.compressed, [x]);
    IdSetOne(x);
    IdSetOne(y);
    TraceOne(t, x, CompressedAction(x.id));
  }

  lemma ShelveMoves(t: Tally, x: Item)
    requires x in t.kept
    ensures Moves({}, t, ShelveItem(t, x))
  {
    RemoveFirstIds(t.kept, x);
    IdSetConcat(t.compressed, [x]);
    IdSetOne(x);
  }

  lemma ExtendMoves(t: Tally, more: seq<Item>)
    ensures Moves(IdSet(more), t, t.(kept := t.kept + more))
  {
    IdSetConcat(t.kept, more);
  }

  /** The same for the bucket phase, which may drop anything. */
  ghost predicate Grows(a: Tally, b: Tally) {
    && AllIds(a) <= AllIds(b)
    && (Honest(a) ==> Honest(b))
    && a.dropped <= b.dropped
  }

  lemma NoteDroppedGrows(t: Tally, x: Item)
    ensures Grows(t, NoteDropped(t, x)) && x.id in AllIds(NoteDropped(t, x)) && NoteDropped(t, x).kept == t.kept
  {
    IdSetConcat(t.dropped, [x]);
    IdSetOne(x);
    TraceOne(t, x, DroppedAction(x.id));
  }

  lemma NoteCompressedGrows(t: Tally, x: Item)
    ensures Grows(t, NoteCompressed(t, x)) && x.id in AllIds(NoteCompressed(t, x)) && NoteCompressed(t, x).kept == t.kept
  {
    IdSetConcat(t.compressed, [x]);
    IdSetOne(x);
    TraceOne(t, x, CompressedAction(x.id));
  }

  lemma KeepGrows(t: Tally, x: Item)
    ensures Grows(t, KeepItem(t, x)) && x.id in AllIds(KeepItem(t, x))
  {
    IdSetConcat(t.kept, [x]);
    IdSetOne(x);
    TraceOne(t, x, KeptAction(x.id));
  }
}
