/** A stable sort: insertion from the left, behind everything that may stay before it. */
module StableSort {

  type Order<!T> = (T, T) -> bool

  function InsertLast<T>(leq: Order<T>, s: seq<T>, x: T): seq<T> {
    if s == [] || leq(s[|s| - 1], x) then s + [x]
    else InsertLast(leq, s[..|s| - 1], x) + [s[|s| - 1]]
  }

  function Sort<T>(leq: Order<T>, items: seq<T>): seq<T> {
    if items == [] then [] else InsertLast(leq, Sort(leq, items[..|items| - 1]), items[|items| - 1])
  }

  lemma {:induction false} InsertAdds<T>(leq: Order<T>, s: seq<T>, x: T)
    ensures multiset(InsertLast(leq, s, x)) == multiset(s) + multiset{x}
  {
    if s != [] && !leq(s[|s| - 1], x) {
      InsertAdds(leq, s[..|s| - 1], x);
      assert s == s[..|s| - 1] + [s[|s| - 1]];
    }
  }

  lemma {:induction false} SortPermutes<T>(leq: Order<T>, items: seq<T>)
    ensures multiset(Sort(leq, items)) == multiset(items)
  {
    if items != [] {
      SortPermutes(leq, items[..|items| - 1]);
      InsertAdds(leq, Sort(leq, items[..|items| - 1]), items[|items| - 1]);
      assert items == items[..|items| - 1] + [items[|items| - 1]];
    }
  }

  ghost predicate Total<T(!new)>(leq: Order<T>) {
    && (forall a, b :: leq(a, b) || leq(b, a))
    && (forall a, b, c :: leq(a, b) && leq(b, c) ==> leq(a, c))
  }

  ghost predicate Ordered<T>(leq: Order<T>, s: seq<T>) {
    forall i, j :: 0 <= i < j < |s| ==> leq(s[i], s[j])
  }

  lemma OrderedAppend<T>(leq: Order<T>, s: seq<T>, x: T)
    requires Ordered(leq, s) && forall y :: y in s ==> leq(y, x)
    ensures Ordered(leq, s + [x])
  {
  }

  lemma OrderedSplit<T(!new)>(leq: Order<T>, s: seq<T>)
    requires Total(leq) && Ordered(leq, s) && s != []
    ensures Ordered(leq, s[..|s| - 1]) && forall y :: y in s ==> leq(y, s[|s| - 1])
  {
    var z := s[|s| - 1];
    assert leq(z, z);
  }

  lemma {:induction false} InsertOrders<T(!new)>(leq: Order<T>, s: seq<T>, x: T)
    requires Total(leq) && Ordered(leq, s)
    ensures Ordered(leq, InsertLast(leq, s, x))
  {
    hide Ordered;
    if s == [] {
      OrderedAppend(leq, s, x) by { OneIsOrdered(leq, x); }
      return;
    }
    var n := |s| - 1;
    OrderedSplit(leq, s);
    if leq(s[n], x) {
      assert forall y :: y in s ==> leq(y, s[n]);
      OrderedAppend(leq, s, x);
    } else {
      InsertOrders(leq, s[..n], x);
      InsertAdds(leq, s[..n], x);
      var front := InsertLast(leq, s[..n], x);
      assert leq(x, s[n]);
      forall y | y in front ensures leq(y, s[n]) {
        assert y in multiset(front);
        assert y == x || (y in s[..n] && y in s);
      }
      OrderedAppend(leq, front, s[n]);
    }
  }

  lemma OneIsOrdered<T>(leq: Order<T>, x: T)
    ensures Ordered(leq, []) && Ordered(leq, [x])
  {
  }

  lemma {:induction false} SortOrders<T(!new)>(leq: Order<T>, items: seq<T>)
    requires Total(leq)
    ensures Ordered(leq, Sort(leq, items))
  {
    if items != [] {
      SortOrders(leq, items[..|items| - 1]);
      InsertOrders(leq, Sort(leq, items[..|items| - 1]), items[|items| - 1]);
    }
  }

  lemma {:induction false} SortOfOrdered<T>(leq: Order<T>, items: seq<T>)
    requires Ordered(leq, items)
    ensures Sort(leq, items) == items
  {
    if items != [] {
      SortOfOrdered(leq, items[..|items| - 1]);
      assert items == items[..|items| - 1] + [items[|items| - 1]];
    }
  }
}
