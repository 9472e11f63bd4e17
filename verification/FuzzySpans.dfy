/** Which stretch of a text a fuzzy search takes: where a normalised match lies in the text, and
    which window is chosen when there is none. */
module FuzzySpans {
  import opened Basics
  import opened PyText
  import opened TextEdits

  /** Where line `i` starts, in the text or in its normalised form. */
  function StartOf(lines: seq<string>, i: nat): nat
    requires i <= |lines|
  {
    |Flatten(lines[..i])|
  }

  lemma StartOfNext(lines: seq<string>, i: nat)
    requires i < |lines|
    ensures StartOf(lines, i + 1) == StartOf(lines, i) + |lines[i]|
  {
    assert lines[..i + 1][..i] == lines[..i];
  }

  lemma {:induction false} StartsGrow(lines: seq<string>, i: nat, j: nat)
    requires i <= j <= |lines|
    ensures StartOf(lines, i) <= StartOf(lines, j) <= |Flatten(lines)|
    decreases j - i
  {
    FlattenConcat(lines[..j], lines[j..]);
    assert lines[..j] + lines[j..] == lines;
    if i < j {
      StartsGrow(lines, i, j - 1);
      StartOfNext(lines, j - 1);
    }
  }

  /** Line `i` holds the `x`-th character. */
  predicate Holds(lines: seq<string>, i: nat, x: nat) {
    i < |lines| && StartOf(lines, i) <= x < StartOf(lines, i + 1)
  }

  lemma {:induction false} LineHolding(lines: seq<string>, x: nat, n: nat) returns (i: nat)
    requires n <= |lines| && x < StartOf(lines, n)
    ensures i < n && Holds(lines, i, x)
  {
    assert StartOf(lines, 0) == 0;
    if x >= StartOf(lines, n - 1) { i := n - 1; } else { i := LineHolding(lines, x, n - 1); }
  }

  // ----- mapping a range back -----

  lemma RestOfLines(lines: seq<string>, i: nat, total: nat)
    requires i <= |lines| && total == |Flatten(lines)|
    ensures StartOf(lines, i) + |Flatten(lines[i..])| <= total
  {
    FlattenConcat(lines[..i], lines[i..]);
    assert lines[..i] + lines[i..] == lines;
  }

  /** Past the line in which the range starts, only its end is looked for. */
  lemma {:induction false} MapBackEnd(lines: seq<string>, norms: seq<string>, columns: bool, from: nat, to: nat, i: nat,
                                      start: nat, b: nat, total: nat)
    requires |lines| == |norms| && total == |Flatten(lines)| && i <= b && 1 <= to && Holds(norms, b, to - 1)
    requires from < StartOf(norms, i)
    ensures StartOf(lines, i) + |Flatten(lines[i..])| <= total
    ensures MapBack(lines, norms, columns, from, to, i, StartOf(lines, i), StartOf(norms, i), start, total)
         == Span(start, StartOf(lines, b) + if columns then Min(|lines[b]|, to - StartOf(norms, b)) else |lines[b]|)
    decreases b - i
  {
    RestOfLines(lines, i, total);
    StartOfNext(lines, i);
    StartOfNext(norms, i);
    if i < b {
      StartsGrow(norms, i + 1, b);
      MapBackEnd(lines, norms, columns, from, to, i + 1, start, b, total);
    }
  }

  /** A range of the normalised text starts in line `a` and ends in line `b`. */
  lemma {:induction false} MapBackRange(lines: seq<string>, norms: seq<string>, columns: bool, from: nat, to: nat, i: nat,
                                        start: nat, a: nat, b: nat, total: nat)
    requires |lines| == |norms| && total == |Flatten(lines)|
    requires i <= a <= b && from < to && Holds(norms, a, from) && Holds(norms, b, to - 1)
    ensures StartOf(lines, i) + |Flatten(lines[i..])| <= total
    ensures MapBack(lines, norms, columns, from, to, i, StartOf(lines, i), StartOf(norms, i), start, total)
         == Span(StartOf(lines, a) + (if columns then from - StartOf(norms, a) else 0),
                 StartOf(lines, b) + if columns then Min(|lines[b]|, to - StartOf(norms, b)) else |lines[b]|)
    decreases a - i
  {
    RestOfLines(lines, i, total);
    StartOfNext(lines, i);
    StartOfNext(norms, i);
    if i < a {
      StartsGrow(norms, i + 1, a);
      MapBackRange(lines, norms, columns, from, to, i + 1, start, a, b, total);
    } else if a < b {
      MapBackStart(lines, norms, columns, from, to, start, a, b, total);
    }
  }

  lemma MapBackStart(lines: seq<string>, norms: seq<string>, columns: bool, from: nat, to: nat, start: nat, a: nat, b: nat,
                     total: nat)
    requires |lines| == |norms| && total == |Flatten(lines)|
    requires a < b && from < to && Holds(norms, a, from) && Holds(norms, b, to - 1)
    requires StartOf(lines, a) + |Flatten(lines[a..])| <= total
    ensures MapBack(lines, norms, columns, from, to, a, StartOf(lines, a), StartOf(norms, a), start, total)
         == Span(StartOf(lines, a) + (if columns then from - StartOf(norms, a) else 0),
                 StartOf(lines, b) + if columns then Min(|lines[b]|, to - StartOf(norms, b)) else |lines[b]|)
  {
    hide StartOf, Flatten;
    StartOfNext(lines, a);
    StartOfNext(norms, a);
    StartsGrow(norms, a + 1, b);
    MapBackEnd(lines, norms, columns, from, to, a + 1,
               StartOf(lines, a) + (if columns then from - StartOf(norms, a) else 0), b, total);
  }

  /** A range that runs past the normalised text ends with the text. */
  lemma {:induction false} MapBackPast(lines: seq<string>, norms: seq<string>, columns: bool, from: nat, to: nat, i: nat,
                                       start: nat, total: nat)
    requires |lines| == |norms| && total == |Flatten(lines)| && i <= |lines| && to > |Flatten(norms)|
    ensures StartOf(lines, i) + |Flatten(lines[i..])| <= total
    ensures var r := MapBack(lines, norms, columns, from, to, i, StartOf(lines, i), StartOf(norms, i), start, total);
      && r.hi == total
      && forall a :: i <= a && Holds(norms, a, from) ==>
           r.lo == StartOf(lines, a) + if columns then from - StartOf(norms, a) else 0
    ensures (forall a :: i <= a ==> !Holds(norms, a, from)) ==>
      MapBack(lines, norms, columns, from, to, i, StartOf(lines, i), StartOf(norms, i), start, total).lo == start
    decreases |lines| - i
  {
    RestOfLines(lines, i, total);
    if i < |lines| {
      StartOfNext(lines, i);
      StartOfNext(norms, i);
      StartsGrow(norms, i + 1, |norms|);
      assert norms[..|norms|] == norms;
      var s := if Holds(norms, i, from)
               then StartOf(lines, i) + (if columns then from - StartOf(norms, i) else 0) else start;
      MapBackPast(lines, norms, columns, from, to, i + 1, s, total);
      forall a | i < a && Holds(norms, a, from) ensures !Holds(norms, i, from) {
        StartsGrow(norms, i + 1, a);
      }
    }
  }

  // ----- a normalised match -----

  /** The search reaches its normalised form: the old text itself is not in the target. */
  predicate Normalised(m: Matcher, target: string, oldText: string) {
    oldText != "" && Find(target, oldText, 0) < 0 && m.normalize(oldText) != "" && target != ""
  }

  /** Text that is there as it stands is found where it first stands. */
  lemma DirectSpan(m: Matcher, target: string, oldText: string, p: nat)
    requires oldText != "" && MatchAt(target, p, oldText) && forall q :: 0 <= q < p ==> !MatchAt(target, q, oldText)
    ensures FuzzySpan(m, target, oldText) == Some(Span(p, p + |oldText|))
  {
    FirstIsFound(target, oldText, p);
  }

  lemma NothingToFind(m: Matcher, target: string, oldText: string)
    requires oldText == "" || (Find(target, oldText, 0) < 0 && (m.normalize(oldText) == "" || target == ""))
    ensures FuzzySpan(m, target, oldText).None?
  {
    hide MapBack, BestWindow, Flatten;
  }

  function NormsOf(m: Matcher, target: string): seq<string> { NormalizedLines(m, Lines(target)) }

  /** The normalised old text first stands at `p` of the normalised target. */
  ghost predicate FirstAt(m: Matcher, target: string, oldText: string, p: nat) {
    var joined, needle := Flatten(NormsOf(m, target)), m.normalize(oldText);
    MatchAt(joined, p, needle) && forall q :: 0 <= q < p ==> !MatchAt(joined, q, needle)
  }

  lemma FirstIsFound(t: string, pat: string, p: nat)
    requires MatchAt(t, p, pat) && forall q :: 0 <= q < p ==> !MatchAt(t, q, pat)
    ensures Find(t, pat, 0) == p && p + |pat| <= |t|
  {
    FindIsLeftmost(t, pat, 0, p);
    MatchIsSlice(t, p, pat);
  }

  /** For any normalisation: the span of a normalised match starts in the line in which the match does,
      at the same column, and ends in the line in which the match does, at the same column or where
      that line ends. */
  lemma MatchKeepsColumns(m: Matcher, target: string, oldText: string, p: nat, a: nat, b: nat)
    requires Normalised(m, target, oldText) && FirstAt(m, target, oldText, p)
    requires var norms := NormsOf(m, target);
      a <= b && Holds(norms, a, p) && Holds(norms, b, p + |m.normalize(oldText)| - 1)
    ensures var lines, norms := Lines(target), NormsOf(m, target);
      var lo := StartOf(lines, a) + (p - StartOf(norms, a));
      var hi := StartOf(lines, b) + Min(|lines[b]|, p + |m.normalize(oldText)| - StartOf(norms, b));
      hi > lo ==> FuzzySpan(m, target, oldText) == Some(Span(lo, hi))
  {
    hide MapBack, BestWindow, Find, Lines, Flatten;
    var lines, norms, needle := Lines(target), NormsOf(m, target), m.normalize(oldText);
    LinesCoverText(target);
    FirstIsFound(Flatten(norms), needle, p);
    MapBackRange(lines, norms, true, p, p + |needle|, 0, 0, a, b, |target|);
    StartOfNone(lines);
    StartOfNone(norms);
    assert lines[0..] == lines;
  }

  lemma StartOfNone(lines: seq<string>)
    ensures StartOf(lines, 0) == 0
  {
  }

  lemma {:induction false} SameStarts(lines: seq<string>, norms: seq<string>, i: nat)
    requires |lines| == |norms| && i <= |lines| && forall k :: 0 <= k < |lines| ==> |norms[k]| == |lines[k]|
    ensures StartOf(lines, i) == StartOf(norms, i)
  {
    StartOfNone(lines);
    StartOfNone(norms);
    if i > 0 {
      SameStarts(lines, norms, i - 1);
      StartOfNext(lines, i - 1);
      StartOfNext(norms, i - 1);
    }
  }

  /** If normalising changes no line's length, the span is exactly where the match is. */
  lemma SameLengthMatch(m: Matcher, target: string, oldText: string, p: nat)
    requires Normalised(m, target, oldText) && FirstAt(m, target, oldText, p)
    requires forall i :: 0 <= i < |Lines(target)| ==> |m.normalize(Lines(target)[i])| == |Lines(target)[i]|
    ensures FuzzySpan(m, target, oldText) == Some(Span(p, p + |m.normalize(oldText)|))
  {
    hide FuzzySpan, Lines, Flatten;
    var lines, norms, needle := Lines(target), NormsOf(m, target), m.normalize(oldText);
    FirstIsFound(Flatten(norms), needle, p);
    assert norms[..|norms|] == norms;
    var a := LineHolding(norms, p, |norms|);
    var b := LineHolding(norms, p + |needle| - 1, |norms|);
    LinesInOrder(norms, a, b, p, p + |needle| - 1);
    SameStarts(lines, norms, a);
    SameStarts(lines, norms, b);
    StartOfNext(norms, b);
    assert |norms[b]| == |lines[b]|;
    MatchKeepsColumns(m, target, oldText, p, a, b);
  }

  lemma LinesInOrder(lines: seq<string>, a: nat, b: nat, x: nat, y: nat)
    requires Holds(lines, a, x) && Holds(lines, b, y) && x <= y
    ensures a <= b
  {
    if b < a {
      StartsGrow(lines, b + 1, a);
    }
  }

  // ----- the best window -----

  /** How alike the old text and the window at `start` are. */
  function ScoreAt(m: Matcher, joined: string, needle: string, start: nat): real
    requires start <= |joined|
  {
    var end := start + |needle| + Max(8, |needle|);
    m.ratio(needle, joined[start..if end < |joined| then end else |joined|])
  }

  /** The windows start at every `step`-th character that leaves room for one, and at the first. */
  ghost predicate OnGrid(joined: string, needle: string, start: nat) {
    var width := Max(8, |needle|);
    (exists k: nat :: start == Times(k, width / 4)) && (start == 0 || start + width <= |joined|)
  }

  function Times(k: nat, step: nat): nat { k * step }

  /** Two multiples of a step that are less than a step apart are the same. */
  lemma SameMultiple(k: nat, j: nat, step: nat)
    requires Times(k, step) <= Times(j, step) < Times(k, step) + step
    ensures k == j
  {
    if j < k { TimesGrow(j, k, step); }
    if k < j { TimesGrow(k, j, step); }
  }

  lemma {:induction false} TimesGrow(a: nat, b: nat, step: nat)
    requires a < b
    ensures Times(b, step) >= Times(a, step) + step
  {
    assert Times(b, step) == Times(b - 1, step) + step;
    if a + 1 < b {
      TimesGrow(a, b - 1, step);
    }
  }

  /** `start` is the first of the best windows, and good enough. */
  ghost predicate BestAt(m: Matcher, joined: string, needle: string, start: nat) {
    && OnGrid(joined, needle, start) && start <= |joined| && ScoreAt(m, joined, needle, start) >= 0.82
    && (forall s: nat :: OnGrid(joined, needle, s) && s <= |joined| ==>
          && ScoreAt(m, joined, needle, s) <= ScoreAt(m, joined, needle, start)
          && (s < start ==> ScoreAt(m, joined, needle, s) < ScoreAt(m, joined, needle, start)))
  }

  ghost predicate NoneGood(m: Matcher, joined: string, needle: string, below: nat) {
    forall s: nat :: OnGrid(joined, needle, s) && s <= |joined| && s < below ==> ScoreAt(m, joined, needle, s) < 0.82
  }

  /** What the windows before `start` have come to. */
  ghost predicate BestSoFar(m: Matcher, joined: string, needle: string, start: nat, best: Option<(real, nat)>) {
    match best
    case None => NoneGood(m, joined, needle, start)
    case Some((score, at)) =>
      && OnGrid(joined, needle, at) && at <= |joined| && at < start && score == ScoreAt(m, joined, needle, at) >= 0.82
      && (forall s: nat :: OnGrid(joined, needle, s) && s <= |joined| && s < start ==>
            ScoreAt(m, joined, needle, s) <= score && (s < at ==> ScoreAt(m, joined, needle, s) < score))
  }

  lemma ClipIsWindow(m: Matcher, joined: string, needle: string, start: nat)
    requires start <= |joined|
    ensures m.ratio(needle, Clip(joined, start, start + Width(needle) + |needle|)) == ScoreAt(m, joined, needle, start)
  {
  }

  lemma {:induction false} BestWindowIsBest(m: Matcher, joined: string, needle: string, k: nat, best: Option<(real, nat)>)
    requires BestSoFar(m, joined, needle, Times(k, Width(needle) / 4), best)
    ensures var start := Times(k, Width(needle) / 4);
      var r := BestWindow(m, joined, needle, Width(needle), Width(needle) / 4, start, WindowStop(joined, needle), best);
      if r.None? then NoneGood(m, joined, needle, |joined| + 1)
      else BestAt(m, joined, needle, r.value.1) && r.value.0 == ScoreAt(m, joined, needle, r.value.1)
    decreases WindowStop(joined, needle) - Times(k, Width(needle) / 4)
  {
    hide ScoreAt, BestSoFar, BestAt, NoneGood, Clip, Times;
    var step, stop := Width(needle) / 4, WindowStop(joined, needle);
    var start := Times(k, step);
    if start < stop {
      ClipIsWindow(m, joined, needle, start);
      var score := ScoreAt(m, joined, needle, start);
      var better := score >= 0.82 && (best.None? || score > best.value.0);
      var next := if better then Some((score, start)) else best;
      BestStep(m, joined, needle, k, best, next);
      TimesNext(k, step);
      BestWindowIsBest(m, joined, needle, k + 1, next);
    } else {
      AllSeen(m, joined, needle, start, best);
    }
  }

  lemma TimesNext(k: nat, step: nat)
    ensures Times(k + 1, step) == Times(k, step) + step
  {
  }

  lemma AllSeen(m: Matcher, joined: string, needle: string, start: nat, best: Option<(real, nat)>)
    requires BestSoFar(m, joined, needle, start, best) && start >= WindowStop(joined, needle)
    ensures if best.None? then NoneGood(m, joined, needle, |joined| + 1)
            else BestAt(m, joined, needle, best.value.1) && best.value.0 == ScoreAt(m, joined, needle, best.value.1)
  {
    hide ScoreAt;
    assert forall s: nat :: OnGrid(joined, needle, s) ==> s < start;
  }

  /** One more window is looked at. */
  lemma BestStep(m: Matcher, joined: string, needle: string, k: nat, best: Option<(real, nat)>, next: Option<(real, nat)>)
    requires var start := Times(k, Width(needle) / 4);
      && start < WindowStop(joined, needle) && BestSoFar(m, joined, needle, start, best)
      && var score := ScoreAt(m, joined, needle, start);
         next == if score >= 0.82 && (best.None? || score > best.value.0) then Some((score, start)) else best
    ensures BestSoFar(m, joined, needle, Times(k, Width(needle) / 4) + Width(needle) / 4, next)
  {
    hide ScoreAt;
    var step := Width(needle) / 4;
    var start := Times(k, step);
    forall s: nat | OnGrid(joined, needle, s) && start <= s < start + step ensures s == start {
      var j: nat :| s == Times(j, step);
      SameMultiple(k, j, step);
    }
    assert OnGrid(joined, needle, start);
  }

  /** No normalised match, or one that covers no stretch of the text. */
  ghost predicate NoUsableMatch(m: Matcher, target: string, oldText: string) {
    var lines, norms, n := Lines(target), NormsOf(m, target), |m.normalize(oldText)|;
    forall p: nat, a: nat, b: nat ::
      FirstAt(m, target, oldText, p) && Holds(norms, a, p) && n > 0 && Holds(norms, b, p + n - 1) ==>
        StartOf(lines, b) + Min(|lines[b]|, p + n - StartOf(norms, b)) <= StartOf(lines, a) + (p - StartOf(norms, a))
  }

  /** Without a usable normalised match the span is the whole lines over the best window, and there
      is none exactly if no window is good enough. */
  lemma WindowTakesLines(m: Matcher, target: string, oldText: string)
    requires Normalised(m, target, oldText) && NoUsableMatch(m, target, oldText)
    ensures var joined, needle := Flatten(NormsOf(m, target)), m.normalize(oldText);
      match FuzzySpan(m, target, oldText)
      case None => NoneGood(m, joined, needle, |joined| + 1)
      case Some(s) => exists start: nat, a: nat, b: nat ::
        && BestAt(m, joined, needle, start) && LinesOver(m, target, start, start + |needle|, a, b)
        && s == Span(StartOf(Lines(target), a), StartOf(Lines(target), b))
  {
    hide MapBack, BestWindow, Find, Lines, Flatten, BestAt, NoneGood, LinesOver, Holds, StartOf;
    var lines, norms, needle := Lines(target), NormsOf(m, target), m.normalize(oldText);
    var joined := Flatten(norms);
    LinesCoverText(target);
    assert lines[0..] == lines;
    NoExactSpan(m, target, oldText);
    NothingYet(m, joined, needle);
    BestWindowIsBest(m, joined, needle, 0, None);
    var best := BestWindow(m, joined, needle, Width(needle), Width(needle) / 4, 0, WindowStop(joined, needle), None);
    if best.Some? {
      var a, b := WholeLines(m, target, best.value.1, best.value.1 + |needle|);
    }
  }

  lemma NoExactSpan(m: Matcher, target: string, oldText: string)
    requires Normalised(m, target, oldText) && NoUsableMatch(m, target, oldText)
    requires |Flatten(Lines(target))| == |target| && Lines(target)[0..] == Lines(target)
    ensures var p, n := Find(Flatten(NormsOf(m, target)), m.normalize(oldText), 0), |m.normalize(oldText)|;
      p >= 0 ==>
        var r := MapBack(Lines(target), NormsOf(m, target), true, p, p + n, 0, 0, 0, 0, |target|);
        r.hi <= r.lo
  {
    hide MapBack, Lines, Flatten;
    var lines, norms, needle := Lines(target), NormsOf(m, target), m.normalize(oldText);
    var joined := Flatten(norms);
    var p := Find(joined, needle, 0);
    if p >= 0 {
      MatchIsSlice(joined, p, needle);
      forall q | 0 <= q < p ensures !MatchAt(joined, q, needle) {
        if MatchAt(joined, q, needle) { FindIsLeftmost(joined, needle, 0, q); }
      }
      assert norms[..|norms|] == norms;
      var a := LineHolding(norms, p, |norms|);
      var b := LineHolding(norms, p + |needle| - 1, |norms|);
      LinesInOrder(norms, a, b, p, p + |needle| - 1);
      MapBackRange(lines, norms, true, p, p + |needle|, 0, 0, a, b, |target|);
      StartOfNone(lines);
      StartOfNone(norms);
    }
  }

  lemma NothingYet(m: Matcher, joined: string, needle: string)
    ensures BestSoFar(m, joined, needle, Times(0, Width(needle) / 4), None) && Times(0, Width(needle) / 4) == 0
  {
  }

  /** Lines `a` to `b` are those from the one holding `from`, or the first one if none does, to the
      one holding the character before `to`, or the last one. */
  predicate LinesOver(m: Matcher, target: string, from: nat, to: nat, a: nat, b: nat) {
    var norms := NormsOf(m, target);
    && a <= |norms| && b <= |norms| && to >= 1
    && (if from < |Flatten(norms)| then Holds(norms, a, from) else a == 0)
    && (if to <= |Flatten(norms)| then b >= 1 && Holds(norms, b - 1, to - 1) else b == |norms|)
  }

  lemma WholeLines(m: Matcher, target: string, from: nat, to: nat) returns (a: nat, b: nat)
    requires target != "" && from < to
    requires |Flatten(Lines(target))| == |target| && Lines(target)[0..] == Lines(target)
    ensures LinesOver(m, target, from, to, a, b)
    ensures MapBack(Lines(target), NormsOf(m, target), false, from, to, 0, 0, 0, 0, |target|)
         == Span(StartOf(Lines(target), a), StartOf(Lines(target), b))
    ensures StartOf(Lines(target), a) < StartOf(Lines(target), b)
  {
    hide MapBack, Lines, Flatten;
    var lines, norms := Lines(target), NormsOf(m, target);
    StartOfNone(lines);
    StartOfNone(norms);
    assert norms[..|norms|] == norms && lines[..|lines|] == lines;
    a, b := 0, |norms|;
    if from < |Flatten(norms)| { a := LineHolding(norms, from, |norms|); }
    if to <= |Flatten(norms)| {
      var last := LineHolding(norms, to - 1, |norms|);
      LinesInOrder(norms, a, last, from, to - 1);
      MapBackRange(lines, norms, false, from, to, 0, 0, a, last, |target|);
      StartOfNext(lines, last);
      b := last + 1;
    } else {
      MapBackPast(lines, norms, false, from, to, 0, 0, |target|);
      if from >= |Flatten(norms)| {
        forall k: nat | k < |norms| ensures !Holds(norms, k, from) { StartsGrow(norms, k + 1, |norms|); }
      }
    }
    StartOfNext(lines, a);
    StartsGrow(lines, a + 1, b);
  }
}
