/** Fingerprint dedupe of context items, and the bounded registry that uses the same keys. */
module ContextDedupe {
  import opened ContextItems

  /** The content key, the normalisation of texts and their word tokens. */
  datatype Fingerprints = Fingerprints(
    key: Item -> string, normalize: string -> string, words: string -> set<string>, threshold: real)

  // ----- near duplicates -----

  predicate StandsAt(longer: string, shorter: string, i: nat) {
    i + |shorter| <= |longer| && longer[i..i + |shorter|] == shorter
  }

  predicate Contains(longer: string, shorter: string) {
    exists i :: 0 <= i <= |longer| && StandsAt(longer, shorter, i)
  }

  /** Word overlap: the share of common words among all words of the two normalised texts. */
  function Overlap(f: Fingerprints, a: string, b: string): real {
    var ta, tb := f.words(f.normalize(a)), f.words(f.normalize(b));
    if ta == {} || tb == {} then 0.0
    else if |ta + tb| == 0 then 0.0
    else |ta * tb| as real / |ta + tb| as real
  }

  predicate NearDuplicate(f: Fingerprints, a: string, b: string) {
    a != "" && b != "" &&
    var na, nb := f.normalize(a), f.normalize(b);
    var shorter := if |na| <= |nb| then na else nb;
    var longer := if |na| <= |nb| then nb else na;
    || na == nb
    || (|shorter| >= 20 && Contains(longer, shorter))
    || Overlap(f, a, b) >= f.threshold
  }

  lemma SameLengthContained(a: string, b: string)
    requires |a| == |b| && Contains(a, b)
    ensures a == b
  {
    var i :| 0 <= i <= |a| && StandsAt(a, b, i);
    assert a[0..|a|] == a;
  }

  /** Being a near duplicate is mutual, so it does not matter which text came first. */
  lemma NearDuplicateSymmetric(f: Fingerprints, a: string, b: string)
    ensures NearDuplicate(f, a, b) <==> NearDuplicate(f, b, a)
  {
    var na, nb := f.normalize(a), f.normalize(b);
    var ta, tb := f.words(na), f.words(nb);
    assert ta * tb == tb * ta && ta + tb == tb + ta;
    if |na| == |nb| {
      if Contains(na, nb) { SameLengthContained(na, nb); }
      if Contains(nb, na) { SameLengthContained(nb, na); }
    }
  }

  lemma ContainsIff(longer: string, shorter: string)
    ensures Contains(longer, shorter) <==> exists pre, post :: longer == pre + shorter + post
  {
    if i :| 0 <= i <= |longer| && StandsAt(longer, shorter, i) {
      assert longer == longer[..i] + shorter + longer[i + |shorter|..];
    }
    if pre, post :| longer == pre + shorter + post {
      assert StandsAt(longer, shorter, |pre|);
    }
  }

  /** Two texts are near duplicates exactly if neither is empty and they are the same once normalised, or
      one of at least 20 characters stands in the other, or their common words are at least the
      threshold's share of all their words. */
  lemma NearDuplicateIff(f: Fingerprints, a: string, b: string)
    requires f.threshold > 0.0
    ensures var na, nb := f.normalize(a), f.normalize(b);
      var ta, tb := f.words(na), f.words(nb);
      NearDuplicate(f, a, b) <==>
        && a != "" && b != ""
        && (|| na == nb
            || (|na| >= 20 && exists pre, post :: nb == pre + na + post)
            || (|nb| >= 20 && exists pre, post :: na == pre + nb + post)
            || (ta != {} && tb != {} && |ta * tb| as real >= f.threshold * |ta + tb| as real))
  {
    var na, nb := f.normalize(a), f.normalize(b);
    var ta, tb := f.words(na), f.words(nb);
    ContainsIff(na, nb);
    ContainsIff(nb, na);
    if Contains(na, nb) { ContainedIsShorter(na, nb); }
    if Contains(nb, na) { ContainedIsShorter(nb, na); }
    if ta != {} && tb != {} {
      var x :| x in ta;
      assert x in ta + tb;
      AtLeastShare(|ta * tb|, |ta + tb|, f.threshold);
    }
  }

  lemma ContainedIsShorter(longer: string, shorter: string)
    requires Contains(longer, shorter)
    ensures |shorter| <= |longer| && (|shorter| == |longer| ==> shorter == longer)
  {
    if |shorter| == |longer| { SameLengthContained(longer, shorter); }
  }

  lemma AtLeastShare(n: nat, d: nat, share: real)
    requires d > 0
    ensures n as real / d as real >= share <==> n as real >= share * d as real
  {
    var q := n as real / d as real;
    assert q * d as real == n as real;
    if q >= share { assert (q - share) * d as real >= 0.0; } else { assert (share - q) * d as real > 0.0; }
  }

  // ----- greedy dedupe -----

  /** An item that is kept makes `x` superfluous. */
  predicate Covers(f: Fingerprints, y: Item, x: Item) {
    f.key(y) == f.key(x) || NearDuplicate(f, x.content, y.content)
  }

  predicate Covered(f: Fingerprints, kept: seq<Item>, x: Item) {
    exists i :: 0 <= i < |kept| && Covers(f, kept[i], x)
  }

  function Dedupe(f: Fingerprints, items: seq<Item>): seq<Item> {
    if items == [] then []
    else
      var n := |items| - 1;
      var kept := Dedupe(f, items[..n]);
      if Covered(f, kept, items[n]) then kept else kept + [items[n]]
  }

  method DedupeContextItems(f: Fingerprints, items: seq<Item>) returns (kept: seq<Item>)
    ensures kept == Dedupe(f, items)
  {
    hide NearDuplicate;
    var seen: set<string> := {};
    var texts: seq<string> := [];
    kept := [];
    for n := 0 to |items|
      invariant kept == Dedupe(f, items[..n])
      invariant forall k :: k in seen <==> exists i :: 0 <= i < |kept| && f.key(kept[i]) == k
      invariant forall t :: t in texts <==> exists i :: 0 <= i < |kept| && kept[i].content == t && t != ""
    {
      var x := items[n];
      assert items[..n + 1][..n] == items[..n];
      if f.key(x) in seen { continue; }
      var near := NearAny(f, x.content, texts);
      if near {
        var k :| 0 <= k < |texts| && NearDuplicate(f, x.content, texts[k]);
        assert texts[k] in texts;
        continue;
      }
      NotNear(f, kept, texts, x);
      seen := seen + {f.key(x)};
      ghost var before := kept;
      kept := kept + [x];
      assert forall i :: 0 <= i < |before| ==> kept[i] == before[i];
      assert kept[|before|] == x;
      if x.content != "" { texts := texts + [x.content]; }
    }
    assert items[..|items|] == items;
  }

  method NearAny(f: Fingerprints, text: string, texts: seq<string>) returns (near: bool)
    ensures near <==> exists k :: 0 <= k < |texts| && NearDuplicate(f, text, texts[k])
  {
    hide NearDuplicate;
    near := false;
    for j := 0 to |texts|
      invariant near <==> exists k :: 0 <= k < j && NearDuplicate(f, text, texts[k])
    {
      if NearDuplicate(f, text, texts[j]) { return true; }
    }
  }

  lemma NotNear(f: Fingerprints, kept: seq<Item>, texts: seq<string>, x: Item)
    requires forall t :: t in texts <==> exists i :: 0 <= i < |kept| && kept[i].content == t && t != ""
    requires forall k :: 0 <= k < |texts| ==> !NearDuplicate(f, x.content, texts[k])
    requires forall i :: 0 <= i < |kept| ==> f.key(kept[i]) != f.key(x)
    ensures !Covered(f, kept, x)
  {
    forall i | 0 <= i < |kept| ensures !Covers(f, kept[i], x) {
      if kept[i].content != "" {
        assert kept[i].content in texts;
      }
    }
  }

  predicate IsSubsequence(a: seq<Item>, b: seq<Item>) {
    if a == [] then true
    else if b == [] then false
    else if a[|a| - 1] == b[|b| - 1] then IsSubsequence(a[..|a| - 1], b[..|b| - 1])
    else IsSubsequence(a, b[..|b| - 1])
  }

  lemma {:induction false} SubsequenceDropLast(a: seq<Item>, b: seq<Item>)
    requires a != [] && IsSubsequence(a, b)
    ensures IsSubsequence(a[..|a| - 1], b)
    decreases |b|, 0
  {
    var a', b' := a[..|a| - 1], b[..|b| - 1];
    if a[|a| - 1] == b[|b| - 1] {
      if a' != [] {
        SubsequenceExtend(a', b', b[|b| - 1]);
        assert b == b' + [b[|b| - 1]];
      }
    } else {
      SubsequenceDropLast(a, b');
      SubsequenceExtend(a', b', b[|b| - 1]);
      assert b == b' + [b[|b| - 1]];
    }
  }

  lemma {:induction false} SubsequenceExtend(a: seq<Item>, b: seq<Item>, x: Item)
    requires IsSubsequence(a, b)
    ensures IsSubsequence(a, b + [x])
    decreases |b|, 1
  {
    assert (b + [x])[..|b|] == b;
    if a != [] && a[|a| - 1] == x {
      SubsequenceDropLast(a, b);
    }
  }

  /** No kept item covers another one, in either direction of the comparison. */
  ghost predicate Independent(f: Fingerprints, kept: seq<Item>) {
    forall i, j :: 0 <= i < j < |kept| ==>
      && f.key(kept[i]) != f.key(kept[j])
      && !NearDuplicate(f, kept[j].content, kept[i].content)
      && !NearDuplicate(f, kept[i].content, kept[j].content)
  }

  /** Greedy dedupe returns a subsequence whose items are pairwise independent. */
  lemma {:induction false} DedupeIsIndependent(f: Fingerprints, items: seq<Item>)
    ensures IsSubsequence(Dedupe(f, items), items)
    ensures Independent(f, Dedupe(f, items))
  {
    if items != [] {
      var n := |items| - 1;
      DedupeIsIndependent(f, items[..n]);
      var kept := Dedupe(f, items[..n]);
      assert items == items[..n] + [items[n]];
      if Covered(f, kept, items[n]) {
        SubsequenceExtend(kept, items[..n], items[n]);
      } else {
        assert (kept + [items[n]])[..|kept|] == kept;
        forall i | 0 <= i < |kept|
          ensures f.key(kept[i]) != f.key(items[n]) && !NearDuplicate(f, items[n].content, kept[i].content)
          ensures !NearDuplicate(f, kept[i].content, items[n].content)
        {
          assert !Covers(f, kept[i], items[n]);
          NearDuplicateSymmetric(f, kept[i].content, items[n].content);
        }
      }
    }
  }

  /** What is kept of a beginning stays kept, in front. */
  lemma {:induction false} DedupePrefix(f: Fingerprints, items: seq<Item>, k: nat)
    requires k <= |items|
    ensures Dedupe(f, items[..k]) <= Dedupe(f, items)
  {
    if k < |items| {
      var n := |items| - 1;
      DedupePrefix(f, items[..n], k);
      assert items[..n][..k] == items[..k];
    } else {
      assert items[..k] == items;
    }
  }

  lemma KeptOrCovered(f: Fingerprints, items: seq<Item>, i: nat)
    requires i < |items|
    ensures Covered(f, Dedupe(f, items[..i]), items[i]) || items[i] in Dedupe(f, items)
    ensures Dedupe(f, items[..i]) <= Dedupe(f, items)
  {
    DedupePrefix(f, items, i);
    DedupePrefix(f, items, i + 1);
    assert items[..i + 1][..i] == items[..i];
    var before, after := Dedupe(f, items[..i]), Dedupe(f, items[..i + 1]);
    if !Covered(f, before, items[i]) {
      assert after[|before|] == items[i];
      assert Dedupe(f, items)[|before|] == items[i];
    }
  }

  /** Every removed item is covered by an item kept before it. */
  lemma RemovedIsCovered(f: Fingerprints, items: seq<Item>, i: nat)
    requires i < |items| && items[i] !in Dedupe(f, items)
    ensures Covered(f, Dedupe(f, items[..i]), items[i])
    ensures Dedupe(f, items[..i]) <= Dedupe(f, items)
  {
    KeptOrCovered(f, items, i);
  }

  lemma {:induction false} IndependentIsFixed(f: Fingerprints, kept: seq<Item>)
    requires Independent(f, kept)
    ensures Dedupe(f, kept) == kept
  {
    if kept != [] {
      var n := |kept| - 1;
      IndependentIsFixed(f, kept[..n]);
      forall i | 0 <= i < n ensures !Covers(f, kept[..n][i], kept[n]) {}
      assert kept == kept[..n] + [kept[n]];
    }
  }

  lemma DedupeIdempotent(f: Fingerprints, items: seq<Item>)
    ensures Dedupe(f, Dedupe(f, items)) == Dedupe(f, items)
  {
    DedupeIsIndependent(f, items);
    IndependentIsFixed(f, Dedupe(f, items));
  }

  // ----- the registry -----

  const MAX_REGISTRY := 48

  predicate HasKey(f: Fingerprints, entries: seq<Item>, key: string) {
    exists i :: 0 <= i < |entries| && f.key(entries[i]) == key
  }

  function AddNew(f: Fingerprints, entries: seq<Item>, items: seq<Item>): seq<Item>
    decreases |items|
  {
    if items == [] then entries
    else AddNew(f, if HasKey(f, entries, f.key(items[0])) then entries else entries + [items[0]], items[1..])
  }

  function Newest(entries: seq<Item>): seq<Item> {
    if |entries| <= MAX_REGISTRY then entries else entries[|entries| - MAX_REGISTRY..]
  }

  /** `merge_registry_items`; an entry and the item it was made from have the same key. */
  function Merge(f: Fingerprints, existing: seq<Item>, items: seq<Item>): seq<Item> {
    if items == [] then existing else Newest(AddNew(f, existing, items))
  }

  method MergeRegistryItems(f: Fingerprints, registry: seq<Item>, items: seq<Item>) returns (merged: seq<Item>)
    ensures merged == Merge(f, registry, items)
  {
    if items == [] { return registry; }
    var existing := registry;
    var seen: set<string> := set x | x in registry :: f.key(x);
    for n := 0 to |items|
      invariant AddNew(f, existing, items[n..]) == AddNew(f, registry, items)
      invariant forall k :: k in seen <==> HasKey(f, existing, k)
    {
      var key := f.key(items[n]);
      assert items[n..][1..] == items[n + 1..];
      if key in seen { continue; }
      seen := seen + {key};
      ghost var before := existing;
      existing := existing + [items[n]];
      assert forall i :: 0 <= i < |before| ==> existing[i] == before[i];
      assert existing[|before|] == items[n];
    }
    merged := if |existing| <= MAX_REGISTRY then existing else existing[|existing| - MAX_REGISTRY..];
  }

  ghost predicate DistinctKeys(f: Fingerprints, entries: seq<Item>) {
    forall i, j :: 0 <= i < j < |entries| ==> f.key(entries[i]) != f.key(entries[j])
  }

  lemma {:induction false} AddNewKeepsDistinct(f: Fingerprints, entries: seq<Item>, items: seq<Item>)
    requires DistinctKeys(f, entries)
    ensures DistinctKeys(f, AddNew(f, entries, items))
    ensures entries <= AddNew(f, entries, items)
    ensures forall k :: 0 <= k < |items| ==> HasKey(f, AddNew(f, entries, items), f.key(items[k]))
    decreases |items|
  {
    if items != [] {
      var next := if HasKey(f, entries, f.key(items[0])) then entries else entries + [items[0]];
      AddNewKeepsDistinct(f, next, items[1..]);
      var all := AddNew(f, next, items[1..]);
      assert HasKey(f, next, f.key(items[0])) by {
        if next != entries { assert next[|entries|] == items[0]; }
      }
      var i :| 0 <= i < |next| && f.key(next[i]) == f.key(items[0]);
      assert all[i] == next[i];
      forall k | 0 <= k < |items| ensures HasKey(f, all, f.key(items[k])) {
        if k > 0 { assert items[1..][k - 1] == items[k]; }
      }
    }
  }

  function MergeAll(f: Fingerprints, batches: seq<seq<Item>>): seq<Item> {
    if batches == [] then [] else Merge(f, MergeAll(f, batches[..|batches| - 1]), batches[|batches| - 1])
  }

  /** Every run of merges keeps at most 48 entries with distinct keys. */
  lemma {:induction false} RegistryBounded(f: Fingerprints, batches: seq<seq<Item>>)
    ensures |MergeAll(f, batches)| <= MAX_REGISTRY
    ensures DistinctKeys(f, MergeAll(f, batches))
  {
    if batches != [] {
      var n := |batches| - 1;
      RegistryBounded(f, batches[..n]);
      AddNewKeepsDistinct(f, MergeAll(f, batches[..n]), batches[n]);
    }
  }

  /** What a merge leaves are the newest entries: either every key of the batch and of the old
      registry is in, or exactly the 48 last of old entries followed by new ones are. */
  lemma MergeKeepsNewest(f: Fingerprints, existing: seq<Item>, items: seq<Item>)
    requires DistinctKeys(f, existing) && items != []
    ensures var all := AddNew(f, existing, items); var merged := Merge(f, existing, items);
      && existing <= all && all[|all| - |merged|..] == merged
      && (|merged| < |all| ==> |merged| == MAX_REGISTRY)
      && forall k :: 0 <= k < |items| ==> HasKey(f, all, f.key(items[k]))
  {
    AddNewKeepsDistinct(f, existing, items);
  }
}
