/** The edit code in its own form: cursor loops proved against the functions of `TextEdits`,
    and the fold over a batch of edits. */
module ArtifactEdits {
  import opened Basics
  import opened PyText
  import opened TextEdits

  // ----- loops of one edit -----

  method MapBackLoop(lines: seq<string>, norms: seq<string>, columns: bool, from: nat, to: int, total: nat)
    returns (span: Span)
    requires |lines| == |norms| && |Flatten(lines)| <= total
    requires lines[0..] == lines
    ensures span == MapBack(lines, norms, columns, from, to, 0, 0, 0, 0, total)
  {
    var cursor: nat, normCursor: nat, start: nat := 0, 0, 0;
    for i := 0 to |lines|
      invariant cursor + |Flatten(lines[i..])| <= total
      invariant MapBack(lines, norms, columns, from, to, i, cursor, normCursor, start, total)
             == MapBack(lines, norms, columns, from, to, 0, 0, 0, 0, total)
    {
      FlattenTail(lines, i);
      var n, nn := |lines[i]|, |norms[i]|;
      if normCursor <= from < normCursor + nn {
        start := if columns then cursor + (from - normCursor) else cursor;
      }
      if normCursor < to <= normCursor + nn {
        return Span(start, cursor + if columns then Min(n, to - normCursor) else n);
      }
      cursor := cursor + n;
      normCursor := normCursor + nn;
    }
    span := Span(start, total);
  }

  method BestWindowLoop(m: Matcher, joined: string, needle: string) returns (best: Option<(real, nat)>)
    ensures best == BestWindow(m, joined, needle, Width(needle), Width(needle) / 4, 0, WindowStop(joined, needle), None)
  {
    var width := Width(needle);
    var step := width / 4;
    var stop := WindowStop(joined, needle);
    best := None;
    var start := 0;
    while start < stop
      invariant BestWindow(m, joined, needle, width, step, start, stop, best)
             == BestWindow(m, joined, needle, width, step, 0, stop, None)
    {
      var score := m.ratio(needle, Clip(joined, start, start + width + |needle|));
      if score >= 0.82 && (best.None? || score > best.value.0) {
        best := Some((score, start));
      }
      start := start + step;
    }
  }

  method FindFuzzySpan(m: Matcher, target: string, oldText: string) returns (r: Option<Span>)
    ensures r == FuzzySpan(m, target, oldText)
    ensures r.Some? ==> r.value.lo < r.value.hi <= |target|
  {
    hide MapBack, BestWindow, Find, Flatten, Lines;
    if FuzzySpan(m, target, oldText).Some? { FuzzySpanInBounds(m, target, oldText); }
    if oldText == "" { return None; }
    var direct := Find(target, oldText, 0);
    if direct >= 0 { return Some(Span(direct, direct + |oldText|)); }
    var needle := m.normalize(oldText);
    if needle == "" { return None; }
    var lines := Lines(target);
    if lines == [] { return None; }
    LinesCoverText(target);
    assert lines[0..] == lines;
    var norms := NormalizedLines(m, lines);
    var joined := Flatten(norms);
    var pos := Find(joined, needle, 0);
    if pos >= 0 {
      var span := MapBackLoop(lines, norms, true, pos, pos + |needle|, |target|);
      if span.hi > span.lo { return Some(span); }
    }
    var best := BestWindowLoop(m, joined, needle);
    if best.None? { return None; }
    var whole := MapBackLoop(lines, norms, false, best.value.1, best.value.1 + |needle|, |target|);
    if whole.hi <= whole.lo { return None; }
    return Some(whole);
  }

  /** The n-th match found by searching on from the end of the last one, or -1. */
  function Search(t: string, pat: string, from: nat, k: nat): int
    requires from <= |t| && k >= 1
    decreases k
  {
    var p := Find(t, pat, from);
    if p < 0 then -1 else if k == 1 then p else Search(t, pat, p + |pat|, k - 1)
  }

  lemma {:induction false} SearchNeverMisses(t: string, pat: string, from: nat, k: nat)
    requires from <= |t| && k >= 1
    requires pat == "" || k <= CountFrom(t, pat, from)
    ensures Search(t, pat, from, k) == NthFrom(t, pat, from, k)
    decreases k
  {
    NthUnfold(t, pat, from, k);
    if k > 1 {
      SearchNeverMisses(t, pat, Find(t, pat, from) + |pat|, k - 1);
    }
  }

  /** The `find` loop behind `occurrence_index`: with an index up to the count it never misses. */
  method SelectOccurrence(target: string, oldText: string, k: nat) returns (start: int)
    requires 1 <= k <= Count(target, oldText)
    ensures start == NthFrom(target, oldText, 0, k)
  {
    SearchNeverMisses(target, oldText, 0, k);
    ghost var goal := Search(target, oldText, 0, k);
    var cursor: nat := 0;
    start := -1;
    for i := 0 to k
      invariant cursor <= |target|
      invariant i < k ==> Search(target, oldText, cursor, k - i) == goal
      invariant i == k ==> start == goal
    {
      start := Find(target, oldText, cursor);
      cursor := start + |oldText|;
    }
  }

  method ReplaceInTarget(target: string, e: Edit, oldText: string, count: nat) returns (r: EditResult)
    requires count <= Count(target, oldText)
    ensures r == ReplaceIn(target, e, oldText, count)
  {
    if e.occurrence.Some? {
      var k := e.occurrence.value;
      if k < 1 || k > count { return Failed(OccurrenceOutOfRange); }
      var start := SelectOccurrence(target, oldText, k);
      return Edited(target[..start] + e.newText + target[start + |oldText|..], 1, false);
    }
    if count > 1 && !e.replaceAll { return Failed(AmbiguousMatch); }
    return if e.replaceAll
      then Edited(Replace(target, oldText, e.newText, -1), count, false)
      else Edited(Replace(target, oldText, e.newText, 1), 1, false);
  }

  method ApplyPrecisionEdit(m: Matcher, original: string, e: Edit) returns (r: EditResult)
    ensures r == ApplyEdit(m, original, e)
  {
    var bounds := SliceBounds(original, e.startLine, e.endLine);
    if bounds.None? { return Failed(InvalidLineRange); }
    var lo, hi := bounds.value.lo, bounds.value.hi;
    var target := original[lo..hi];
    var occurrences := Count(target, e.oldText);
    var oldText := e.oldText;
    var fuzzy := false;
    if occurrences == 0 {
      var span := FindFuzzySpan(m, target, e.oldText);
      if span.None? { return Failed(OldTextNotFound); }
      fuzzy := true;
      oldText := target[span.value.lo..span.value.hi];
      occurrences := 1;
      if e.occurrence.None? && !e.replaceAll {
        return Edited(original[..lo + span.value.lo] + e.newText + original[lo + span.value.hi..], 1, true);
      }
      FoundCounts(target, oldText, span.value.lo);
    }
    var inner := ReplaceInTarget(target, e, oldText, occurrences);
    if inner.Failed? { return inner; }
    return Edited(original[..lo] + inner.text + original[hi..], inner.replacements, fuzzy);
  }

  // ----- batches -----

  /** One applied edit of a batch: its index in the batch and what it reported. */
  datatype Detail = Detail(index: nat, replacements: nat, fuzzy: bool)

  datatype BatchResult = BatchEdited(text: string, total: nat, details: seq<Detail>) | BatchFailed(error: Error)

  /** How one edit acts on a text. */
  type Editor = (string, Edit) -> EditResult

  function EditorOf(m: Matcher): Editor { (text, e) => ApplyEdit(m, text, e) }

  /** Edits `edits[i..]` in order, each on the text the last one left; an edit with an empty old
      text is skipped and the first refusal abandons the batch. */
  function ApplyBatch(f: Editor, edits: seq<Edit>, i: nat, text: string, total: nat, details: seq<Detail>): BatchResult
    requires i <= |edits|
    decreases |edits| - i
  {
    if i == |edits| then BatchEdited(text, total, details)
    else if edits[i].oldText == "" then ApplyBatch(f, edits, i + 1, text, total, details)
    else match f(text, edits[i])
      case Failed(error) => BatchFailed(error)
      case Edited(u, n, fuzzy) => ApplyBatch(f, edits, i + 1, u, total + n, details + [Detail(i, n, fuzzy)])
  }

  method ApplyBatchEdits(m: Matcher, original: string, edits: seq<Edit>) returns (r: BatchResult)
    ensures r == ApplyBatch(EditorOf(m), edits, 0, original, 0, [])
  {
    ghost var f := EditorOf(m);
    var updated, total: nat, details := original, 0, [];
    for i := 0 to |edits|
      invariant ApplyBatch(f, edits, i, updated, total, details) == ApplyBatch(f, edits, 0, original, 0, [])
    {
      if edits[i].oldText == "" { continue; }
      var one := ApplyPrecisionEdit(m, updated, edits[i]);
      if one.Failed? { return BatchFailed(one.error); }
      updated := one.text;
      total := total + one.replacements;
      details := details + [Detail(i, one.replacements, one.fuzzy)];
    }
    return BatchEdited(updated, total, details);
  }

  /** The growth the details account for. */
  function Growth(edits: seq<Edit>, details: seq<Detail>): int {
    if details == [] then 0
    else Growth(edits, details[..|details| - 1]) + OwnGrowth(edits, details[|details| - 1])
  }

  function OwnGrowth(edits: seq<Edit>, d: Detail): int {
    if d.index < |edits| then d.replacements * (|edits[d.index].newText| - |edits[d.index].oldText|) else 0
  }

  function Reported(details: seq<Detail>): nat {
    if details == [] then 0 else Reported(details[..|details| - 1]) + details[|details| - 1].replacements
  }

  predicate AllExact(details: seq<Detail>) {
    details == [] || (AllExact(details[..|details| - 1]) && !details[|details| - 1].fuzzy)
  }

  function Indices(details: seq<Detail>): seq<nat> {
    if details == [] then [] else Indices(details[..|details| - 1]) + [details[|details| - 1].index]
  }

  /** The indexes below `i` of the edits that carry an old text. */
  function Applicable(edits: seq<Edit>, i: nat): seq<nat>
    requires i <= |edits|
  {
    if i == 0 then [] else Applicable(edits, i - 1) + if edits[i - 1].oldText == "" then [] else [i - 1]
  }

  /** The books of a batch after its first `i` edits: every edit with an old text was applied,
      once and in order, the total is the sum of what was reported, and when every match so far
      was exact the text has grown by what the details say. */
  ghost predicate Balanced(edits: seq<Edit>, i: nat, original: string, text: string, total: nat, details: seq<Detail>) {
    && i <= |edits|
    && Indices(details) == Applicable(edits, i)
    && total == Reported(details)
    && (AllExact(details) ==> |text| == |original| + Growth(edits, details))
  }

  ghost predicate LengthLaw(f: Editor) {
    forall text, e :: var r := f(text, e);
      r.Edited? && !r.fuzzy ==> |r.text| == |text| + r.replacements * (|e.newText| - |e.oldText|)
  }

  lemma BalancedStep(f: Editor, edits: seq<Edit>, i: nat, original: string, text: string, total: nat, details: seq<Detail>)
    requires i < |edits| && edits[i].oldText != "" && Balanced(edits, i, original, text, total, details)
    requires LengthLaw(f) && f(text, edits[i]).Edited?
    ensures var one := f(text, edits[i]);
      Balanced(edits, i + 1, original, one.text, total + one.replacements,
               details + [Detail(i, one.replacements, one.fuzzy)])
  {
    var one := f(text, edits[i]);
    BalancedEntry(edits, i, original, text, total, details, one.text, Detail(i, one.replacements, one.fuzzy));
  }

  lemma BalancedEntry(edits: seq<Edit>, i: nat, original: string, text: string, total: nat, details: seq<Detail>, u: string, d: Detail)
    requires i < |edits| && edits[i].oldText != "" && Balanced(edits, i, original, text, total, details) && d.index == i
    requires !d.fuzzy ==> |u| == |text| + d.replacements * (|edits[i].newText| - |edits[i].oldText|)
    ensures Balanced(edits, i + 1, original, u, total + d.replacements, details + [d])
  {
    var more := details + [d];
    assert more[..|more| - 1] == details && more[|more| - 1] == d;
  }

  lemma {:induction false} BatchBalances(f: Editor, edits: seq<Edit>, i: nat, original: string, text: string, total: nat, details: seq<Detail>, r: BatchResult)
    requires LengthLaw(f) && Balanced(edits, i, original, text, total, details)
    requires r == ApplyBatch(f, edits, i, text, total, details) && r.BatchEdited?
    ensures Balanced(edits, |edits|, original, r.text, r.total, r.details)
    decreases |edits| - i
  {
    if i < |edits| {
      if edits[i].oldText == "" {
        BatchBalances(f, edits, i + 1, original, text, total, details, r);
      } else {
        var one := f(text, edits[i]);
        BalancedStep(f, edits, i, original, text, total, details);
        BatchBalances(f, edits, i + 1, original, one.text, total + one.replacements,
                      details + [Detail(i, one.replacements, one.fuzzy)], r);
      }
    }
  }

  /** The length law composes over a batch. */
  lemma BatchAddsUp(m: Matcher, original: string, edits: seq<Edit>)
    requires ApplyBatch(EditorOf(m), edits, 0, original, 0, []).BatchEdited?
    ensures var r := ApplyBatch(EditorOf(m), edits, 0, original, 0, []);
      Balanced(edits, |edits|, original, r.text, r.total, r.details)
  {
    var f := EditorOf(m);
    forall text, e | f(text, e).Edited? && !f(text, e).fuzzy
      ensures |f(text, e).text| == |text| + f(text, e).replacements * (|e.newText| - |e.oldText|)
    {
      EditLength(m, text, e);
    }
    BatchBalances(f, edits, 0, original, original, 0, [], ApplyBatch(f, edits, 0, original, 0, []));
  }
}
