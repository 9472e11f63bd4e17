/** Precise edits of a text artifact: line ranges, the n-th occurrence, replace-all, the fuzzy
    fallback, and batches of edits. */
module TextEdits {
  import opened Basics
  import opened PyText

  /** What the fuzzy search takes from elsewhere: the anchor normalisation (whitespace folding
      and Unicode NFKC) and the similarity ratio. */
  datatype Matcher = Matcher(normalize: string -> string, ratio: (string, string) -> real)

  datatype Span = Span(lo: nat, hi: nat)

  datatype Edit = Edit(
    oldText: string, newText: string, replaceAll: bool, occurrence: Option<int>,
    startLine: Option<int>, endLine: Option<int>)

  datatype Error = InvalidLineRange | OldTextNotFound | OccurrenceOutOfRange | AmbiguousMatch

  datatype EditResult = Edited(text: string, replacements: nat, fuzzy: bool) | Failed(error: Error)

  // ----- occurrences -----

  /** `t.count(pat)` from position `from`: matches are taken leftmost first and do not overlap. */
  function CountFrom(t: string, pat: string, from: nat): nat
    requires pat != "" && from <= |t|
    decreases |t| - from
  {
    var p := Find(t, pat, from);
    if p < 0 then 0 else 1 + CountFrom(t, pat, p + |pat|)
  }

  function Count(t: string, pat: string): nat {
    if pat == "" then |t| + 1 else CountFrom(t, pat, 0)
  }

  /** Text that stands somewhere is counted. */
  lemma FoundCounts(t: string, pat: string, at: nat)
    requires at + |pat| <= |t| && t[at..at + |pat|] == pat
    ensures Count(t, pat) >= 1
  {
    if pat != "" {
      MatchIsSlice(t, at, pat);
      FindIsLeftmost(t, pat, 0, at);
    }
  }

  /** Where the `k`-th of those matches starts. Every match of the empty text is at `from`. */
  function NthFrom(t: string, pat: string, from: nat, k: nat): (r: nat)
    requires k >= 1 && from <= |t|
    requires pat == "" || k <= CountFrom(t, pat, from)
    ensures from <= r && MatchAt(t, r, pat)
    decreases k
  {
    var p := Find(t, pat, from);
    if k == 1 then p else NthFrom(t, pat, p + |pat|, k - 1)
  }

  lemma NthUnfold(t: string, pat: string, from: nat, k: nat)
    requires k >= 1 && from <= |t|
    requires pat == "" || k <= CountFrom(t, pat, from)
    ensures var p := Find(t, pat, from);
      && p >= 0
      && (pat == "" || k - 1 <= CountFrom(t, pat, p + |pat|))
      && (k == 1 ==> NthFrom(t, pat, from, k) == p)
      && (k > 1 ==> NthFrom(t, pat, from, k) == NthFrom(t, pat, p + |pat|, k - 1))
  {
  }

  /** `t[from..].replace(pat, rep, limit)`; a negative limit means no limit. */
  function ReplaceFrom(t: string, pat: string, rep: string, from: nat, limit: int): string
    requires pat != "" && from <= |t|
    decreases |t| - from
  {
    var p := Find(t, pat, from);
    if limit == 0 || p < 0 then t[from..]
    else t[from..p] + rep + ReplaceFrom(t, pat, rep, p + |pat|, limit - 1)
  }

  /** Replacing the empty text inserts in front of every character and at the end. */
  function InsertBetween(t: string, rep: string, limit: int): string {
    if limit == 0 then t
    else if t == "" then rep
    else rep + [t[0]] + InsertBetween(t[1..], rep, limit - 1)
  }

  function Replace(t: string, pat: string, rep: string, limit: int): string {
    if pat == "" then InsertBetween(t, rep, limit) else ReplaceFrom(t, pat, rep, 0, limit)
  }

  function ReplaceAt(t: string, p: nat, pat: string, rep: string): string
    requires p + |pat| <= |t|
  {
    t[..p] + rep + t[p + |pat|..]
  }

  // ----- line ranges -----

  /** The character range of a line range, or None for an invalid one. */
  function SliceBounds(content: string, startLine: Option<int>, endLine: Option<int>): (r: Option<Span>)
    ensures r.Some? ==> r.value.lo <= r.value.hi <= |content|
  {
    if startLine.None? && endLine.None? then Some(Span(0, |content|))
    else
      var lines := Lines(content);
      if lines == [] then Some(Span(0, 0))
      else
        var first := if startLine.None? then 1 else startLine.value;
        var last := if endLine.None? then |lines| else endLine.value;
        if first < 1 || last < first || last > |lines| then None
        else
          LineRange(content, first - 1, last);
          Some(Span(|Flatten(lines[..first - 1])|, |Flatten(lines[..last])|))
  }

  /** The range of lines `a..b` is exactly those lines, with the text around them split off. */
  lemma LineRange(content: string, a: nat, b: nat)
    requires a <= b <= |Lines(content)|
    ensures var lines := Lines(content); var lo, hi := |Flatten(lines[..a])|, |Flatten(lines[..b])|;
      lo <= hi <= |content|
      && content[lo..hi] == Flatten(lines[a..b])
      && content[..lo] == Flatten(lines[..a]) && content[hi..] == Flatten(lines[b..])
  {
    hide Lines, Flatten;
    var lines := Lines(content);
    LinesCoverText(content);
    FlattenConcat(lines[..a], lines[a..b]);
    assert lines[..a] + lines[a..b] == lines[..b];
    FlattenConcat(lines[..b], lines[b..]);
    assert lines[..b] + lines[b..] == lines;
    ThreeParts(content, Flatten(lines[..a]), Flatten(lines[a..b]), Flatten(lines[b..]));
  }

  lemma ThreeParts(t: string, a: string, b: string, c: string)
    requires t == a + b + c
    ensures t[|a|..|a + b|] == b && t[..|a|] == a && t[|a + b|..] == c && t[..|a + b|] == a + b
  {
  }

  // ----- the fuzzy fallback -----

  function Min(a: int, b: int): int { if a < b then a else b }

  function NormalizedLines(m: Matcher, lines: seq<string>): (r: seq<string>)
    ensures |r| == |lines|
  {
    seq(|lines|, i requires 0 <= i < |lines| => m.normalize(lines[i]))
  }

  /** Maps the normalised range `[from, to)` back to the text, line by line. With `columns` the
      offsets inside a line are carried over, otherwise whole lines are taken. */
  function MapBack(lines: seq<string>, norms: seq<string>, columns: bool, from: nat, to: int,
                   i: nat, cursor: nat, normCursor: nat, start: nat, total: nat): (r: Span)
    requires i <= |lines| == |norms|
    requires cursor + |Flatten(lines[i..])| <= total
    ensures r.hi <= total
    decreases |lines| - i
  {
    if i == |lines| then Span(start, total)
    else
      var n, nn := |lines[i]|, |norms[i]|;
      FlattenTail(lines, i);
      var s := if normCursor <= from < normCursor + nn
               then (if columns then cursor + (from - normCursor) else cursor) else start;
      if normCursor < to <= normCursor + nn
      then Span(s, cursor + if columns then Min(n, to - normCursor) else n)
      else MapBack(lines, norms, columns, from, to, i + 1, cursor + n, normCursor + nn, s, total)
  }

  lemma FlattenTail(lines: seq<string>, i: nat)
    requires i < |lines|
    ensures |Flatten(lines[i..])| == |lines[i]| + |Flatten(lines[i + 1..])|
  {
    FlattenConcat([lines[i]], lines[i + 1..]);
    assert lines[i..] == [lines[i]] + lines[i + 1..];
    assert Flatten([lines[i]]) == Flatten([]) + lines[i];
  }

  function Clip(t: string, lo: nat, hi: nat): string {
    if lo <= |t| then t[lo..if hi < lo then lo else if hi < |t| then hi else |t|] else ""
  }

  /** The first best-scoring window among the starts `start`, `start + step`, ... below `stop`. */
  function BestWindow(m: Matcher, joined: string, needle: string, width: nat, step: nat,
                      start: nat, stop: int, best: Option<(real, nat)>): Option<(real, nat)>
    requires step > 0
    decreases stop - start
  {
    if start >= stop then best
    else
      var score := m.ratio(needle, Clip(joined, start, start + width + |needle|));
      var better := score >= 0.82 && (best.None? || score > best.value.0);
      BestWindow(m, joined, needle, width, step, start + step, stop,
                 if better then Some((score, start)) else best)
  }

  function Width(needle: string): nat { if |needle| > 8 then |needle| else 8 }

  function WindowStop(joined: string, needle: string): int {
    var s := |joined| - Width(needle) + 1;
    if s > 1 then s else 1
  }

  function FuzzySpan(m: Matcher, target: string, oldText: string): Option<Span> {
    if oldText == "" then None
    else if Find(target, oldText, 0) >= 0 then
      Some(Span(Find(target, oldText, 0), Find(target, oldText, 0) + |oldText|))
    else
      var needle := m.normalize(oldText);
      var lines := Lines(target);
      if needle == "" || lines == [] then None
      else
        LinesCoverText(target);
        assert lines[0..] == lines;
        var norms := NormalizedLines(m, lines);
        var joined := Flatten(norms);
        var pos := Find(joined, needle, 0);
        var exact := if pos >= 0
                     then MapBack(lines, norms, true, pos, pos + |needle|, 0, 0, 0, 0, |target|)
                     else Span(0, 0);
        if exact.hi > exact.lo then Some(exact)
        else
          var width := Width(needle);
          var best := BestWindow(m, joined, needle, width, width / 4, 0, WindowStop(joined, needle), None);
          if best.None? then None
          else
            var from := best.value.1;
            var whole := MapBack(lines, norms, false, from, from + |needle|, 0, 0, 0, 0, |target|);
            if whole.hi <= whole.lo then None else Some(whole)
  }

  /** Whatever the normalisation and the similarity do, even if a normalised line is longer than
      the line itself, a fuzzy span is a non-empty stretch of the text. */
  lemma FuzzySpanInBounds(m: Matcher, target: string, oldText: string)
    requires FuzzySpan(m, target, oldText).Some?
    ensures var s := FuzzySpan(m, target, oldText).value; s.lo < s.hi <= |target|
  {
    LinesCoverText(target);
    assert Lines(target)[0..] == Lines(target);
  }

  // ----- one edit -----

  /** The replaced target and the count that is reported, given `count` recorded matches. */
  function ReplaceIn(target: string, e: Edit, oldText: string, count: nat): EditResult
    requires count <= Count(target, oldText)
  {
    match e.occurrence
    case Some(k) =>
      if k < 1 || k > count then Failed(OccurrenceOutOfRange)
      else Edited(ReplaceAt(target, NthFrom(target, oldText, 0, k), oldText, e.newText), 1, false)
    case None =>
      if count > 1 && !e.replaceAll then Failed(AmbiguousMatch)
      else if e.replaceAll then Edited(Replace(target, oldText, e.newText, -1), count, false)
      else Edited(Replace(target, oldText, e.newText, 1), 1, false)
  }

  function Splice(original: string, at: Span, r: EditResult, fuzzy: bool): EditResult
    requires at.lo <= at.hi <= |original|
  {
    match r
    case Failed(_) => r
    case Edited(text, n, _) => Edited(original[..at.lo] + text + original[at.hi..], n, fuzzy)
  }

  function ApplyEdit(m: Matcher, original: string, e: Edit): EditResult {
    var bounds := SliceBounds(original, e.startLine, e.endLine);
    if bounds.None? then Failed(InvalidLineRange)
    else
      var at := bounds.value;
      var target := original[at.lo..at.hi];
      if Count(target, e.oldText) > 0 then
        Splice(original, at, ReplaceIn(target, e, e.oldText, Count(target, e.oldText)), false)
      else
        var span := FuzzySpan(m, target, e.oldText);
        if span.None? then Failed(OldTextNotFound)
        else
          FuzzySpanInBounds(m, target, e.oldText);
          var lo, hi := span.value.lo, span.value.hi;
          if e.occurrence.None? && !e.replaceAll then
            Edited(original[..at.lo + lo] + e.newText + original[at.lo + hi..], 1, true)
          else
            FoundCounts(target, target[lo..hi], lo);
            Splice(original, at, ReplaceIn(target, e, target[lo..hi], 1), true)
  }

  // ----- what an edit does to the text -----

  lemma {:induction false} ReplaceFromLength(t: string, pat: string, rep: string, from: nat, limit: int)
    requires pat != "" && from <= |t|
    requires limit < 0 || limit <= CountFrom(t, pat, from)
    ensures |ReplaceFrom(t, pat, rep, from, limit)|
         == |t| - from + (if limit < 0 then CountFrom(t, pat, from) else limit) * (|rep| - |pat|)
    decreases |t| - from
  {
    var p := Find(t, pat, from);
    var n, d := if limit < 0 then CountFrom(t, pat, from) else limit, |rep| - |pat|;
    if limit != 0 && p >= 0 {
      ReplaceFromLength(t, pat, rep, p + |pat|, limit - 1);
      OneMore(n, d);
    }
  }

  lemma OneMore(n: nat, d: int)
    ensures n * d == (n - 1) * d + d
  {
  }

  lemma {:induction false} InsertBetweenLength(t: string, rep: string, limit: int)
    requires limit <= |t| + 1
    ensures |InsertBetween(t, rep, limit)| == |t| + (if limit < 0 then |t| + 1 else limit) * |rep|
  {
    if limit != 0 && t != "" {
      InsertBetweenLength(t[1..], rep, limit - 1);
    }
  }

  lemma ReplaceLength(t: string, pat: string, rep: string, limit: int)
    requires limit <= Count(t, pat)
    ensures |Replace(t, pat, rep, limit)|
         == |t| + (if limit < 0 then Count(t, pat) else limit) * (|rep| - |pat|)
  {
    if pat == "" { InsertBetweenLength(t, rep, limit); } else { ReplaceFromLength(t, pat, rep, 0, limit); }
  }

  /** In exact mode the length changes by the reported number of replacements, for every scope
      and even for an empty old text. */
  lemma EditLength(m: Matcher, original: string, e: Edit)
    requires ApplyEdit(m, original, e).Edited? && !ApplyEdit(m, original, e).fuzzy
    ensures var r := ApplyEdit(m, original, e);
      |r.text| == |original| + r.replacements * (|e.newText| - |e.oldText|)
  {
    var at := SliceBounds(original, e.startLine, e.endLine).value;
    var target := original[at.lo..at.hi];
    if e.occurrence.None? {
      ReplaceLength(target, e.oldText, e.newText, if e.replaceAll then -1 else 1);
    }
  }

  /** An edit, exact or fuzzy, leaves the text before and after its line range alone. */
  lemma EditStaysInRange(m: Matcher, original: string, e: Edit)
    requires ApplyEdit(m, original, e).Edited?
    ensures var at := SliceBounds(original, e.startLine, e.endLine).value;
      var text := ApplyEdit(m, original, e).text;
      var tail := |original| - at.hi;
      && at.lo + tail <= |text|
      && text[..at.lo] == original[..at.lo]
      && text[|text| - tail..] == original[at.hi..]
  {
    hide FuzzySpan, Count, SliceBounds;
    var at := SliceBounds(original, e.startLine, e.endLine).value;
    var target := original[at.lo..at.hi];
    if Count(target, e.oldText) > 0 {
      SpliceKeepsRest(original, at, ReplaceIn(target, e, e.oldText, Count(target, e.oldText)), false);
    } else {
      FuzzySpanInBounds(m, target, e.oldText);
      var s := FuzzySpan(m, target, e.oldText).value;
      if e.occurrence.None? && !e.replaceAll {
        var mid := original[at.lo..at.lo + s.lo] + e.newText + original[at.lo + s.hi..at.hi];
        SpliceInside(original, at, s, e.newText);
        ThreeParts(original[..at.lo] + mid + original[at.hi..], original[..at.lo], mid, original[at.hi..]);
      } else {
        FoundCounts(target, target[s.lo..s.hi], s.lo);
        SpliceKeepsRest(original, at, ReplaceIn(target, e, target[s.lo..s.hi], 1), true);
      }
    }
  }

  lemma SpliceInside(t: string, at: Span, s: Span, newText: string)
    requires at.lo <= at.hi <= |t| && s.lo <= s.hi <= at.hi - at.lo
    ensures t[..at.lo + s.lo] + newText + t[at.lo + s.hi..]
         == t[..at.lo] + (t[at.lo..at.lo + s.lo] + newText + t[at.lo + s.hi..at.hi]) + t[at.hi..]
  {
    assert t[..at.lo + s.lo] == t[..at.lo] + t[at.lo..at.lo + s.lo];
    assert t[at.lo + s.hi..] == t[at.lo + s.hi..at.hi] + t[at.hi..];
  }

  lemma SpliceKeepsRest(original: string, at: Span, r: EditResult, fuzzy: bool)
    requires at.lo <= at.hi <= |original| && r.Edited?
    ensures var text := Splice(original, at, r, fuzzy).text; var tail := |original| - at.hi;
      && at.lo + tail <= |text|
      && text[..at.lo] == original[..at.lo]
      && text[|text| - tail..] == original[at.hi..]
  {
    ThreeParts(original[..at.lo] + r.text + original[at.hi..], original[..at.lo], r.text, original[at.hi..]);
  }

  /** Exactly when an edit is refused, for every input. */
  lemma EditRefusedIff(m: Matcher, original: string, e: Edit)
    ensures ApplyEdit(m, original, e).Failed? <==>
      var bounds := SliceBounds(original, e.startLine, e.endLine);
      bounds.None? ||
      var target := original[bounds.value.lo..bounds.value.hi];
      var found := Count(target, e.oldText);
      if found == 0 then FuzzySpan(m, target, e.oldText).None? || (e.occurrence.Some? && e.occurrence.value != 1)
      else match e.occurrence
        case Some(k) => k < 1 || k > found
        case None => found > 1 && !e.replaceAll
    ensures e.oldText == "" ==> Count(original, e.oldText) > 0
  {
  }

  // ----- replace-all against single edits -----

  /** Replacing nothing by itself: every text is the pieces between its matches. */
  lemma {:induction false} ReplaceBySelf(t: string, pat: string, from: nat, limit: int)
    requires pat != "" && from <= |t|
    ensures ReplaceFrom(t, pat, pat, from, limit) == t[from..]
    decreases |t| - from
  {
    var p := Find(t, pat, from);
    if limit != 0 && p >= 0 {
      ReplaceBySelf(t, pat, p + |pat|, limit - 1);
      MatchIsSlice(t, p, pat);
      assert t[from..] == t[from..p] + t[p..p + |pat|] + t[p + |pat|..];
    }
  }

  /** The pieces of text between the matches. */
  function Pieces(t: string, pat: string, from: nat): (r: seq<string>)
    requires pat != "" && from <= |t|
    ensures |r| == CountFrom(t, pat, from) + 1
    decreases |t| - from
  {
    var p := Find(t, pat, from);
    if p < 0 then [t[from..]] else [t[from..p]] + Pieces(t, pat, p + |pat|)
  }

  function JoinRight(sep: string, parts: seq<string>): string
    requires parts != []
  {
    if |parts| == 1 then parts[0] else parts[0] + sep + JoinRight(sep, parts[1..])
  }

  /** Replace-all is cutting the text at its matches and joining the pieces with the new text. */
  lemma {:induction false} ReplaceAllIsSplitJoin(t: string, pat: string, rep: string, from: nat, limit: int)
    requires pat != "" && from <= |t| && limit < 0
    ensures ReplaceFrom(t, pat, rep, from, limit) == JoinRight(rep, Pieces(t, pat, from))
    decreases |t| - from
  {
    var p := Find(t, pat, from);
    if p >= 0 {
      ReplaceAllIsSplitJoin(t, pat, rep, p + |pat|, limit - 1);
      assert Pieces(t, pat, from)[1..] == Pieces(t, pat, p + |pat|);
    }
  }

  /** Joining the pieces with the old text gives the text back. */
  lemma {:induction false} PiecesRejoin(t: string, pat: string, from: nat)
    requires pat != "" && from <= |t|
    ensures JoinRight(pat, Pieces(t, pat, from)) == t[from..]
    decreases |t| - from
  {
    ReplaceAllIsSplitJoin(t, pat, pat, from, -1);
    ReplaceBySelf(t, pat, from, -1);
  }

  /** No piece holds a match. */
  lemma {:induction false} PiecesHoldNoMatch(t: string, pat: string, from: nat, i: nat, q: nat)
    requires pat != "" && from <= |t| && i < |Pieces(t, pat, from)|
    ensures !MatchAt(Pieces(t, pat, from)[i], q, pat)
    decreases |t| - from
  {
    var p := Find(t, pat, from);
    if p < 0 {
      assert t[from..] == t[from..|t|];
      if MatchAt(t[from..|t|], q, pat) {
        ShiftMatch(t, from, |t|, q, pat);
        FindIsLeftmost(t, pat, from, from + q);
      }
    } else if i == 0 {
      if MatchAt(t[from..p], q, pat) {
        ShiftMatch(t, from, p, q, pat);
        FindIsLeftmost(t, pat, from, from + q);
      }
    } else {
      PiecesHoldNoMatch(t, pat, p + |pat|, i - 1, q);
    }
  }

  lemma SliceOfSlice(t: string, lo: nat, hi: nat, i: nat, j: nat)
    requires lo <= hi <= |t| && i <= j <= hi - lo
    ensures t[lo..hi][i..j] == t[lo + i..lo + j]
  {
    var u := t[lo..hi];
    assert forall k :: 0 <= k < j - i ==> u[i..j][k] == u[i + k] == t[lo + (i + k)] == t[lo + i..lo + j][k];
  }

  lemma ShiftMatch(t: string, lo: nat, hi: nat, q: nat, pat: string)
    requires lo <= hi <= |t| && MatchAt(t[lo..hi], q, pat)
    ensures lo + q + |pat| <= hi && MatchAt(t, lo + q, pat)
  {
    MatchIsSlice(t[lo..hi], q, pat);
    MatchIsSlice(t, lo + q, pat);
    SliceOfSlice(t, lo, hi, q, q + |pat|);
  }

  lemma SamePrefixSlice(t: string, u: string, edge: nat, i: nat, j: nat)
    requires i <= j <= edge <= |t| && edge <= |u| && t[..edge] == u[..edge]
    ensures t[i..j] == u[i..j]
  {
    assert forall k :: i <= k < j ==> t[k] == t[..edge][k] == u[..edge][k] == u[k];
  }

  lemma SameMatch(t: string, u: string, pat: string, i: nat, edge: nat)
    requires edge <= |t| && edge <= |u| && t[..edge] == u[..edge] && i + |pat| <= edge
    ensures MatchAt(t, i, pat) == MatchAt(u, i, pat)
  {
    MatchIsSlice(t, i, pat);
    MatchIsSlice(u, i, pat);
    SamePrefixSlice(t, u, edge, i, i + |pat|);
  }

  /** Changing the text at or after `edge` moves no match that ends by `edge`. */
  lemma FindBeforeEdge(t: string, u: string, pat: string, from: nat, edge: nat)
    requires from <= edge <= |t| && edge <= |u| && t[..edge] == u[..edge]
    requires 0 <= Find(t, pat, from) && Find(t, pat, from) + |pat| <= edge
    ensures Find(u, pat, from) == Find(t, pat, from)
  {
    var p := Find(t, pat, from);
    SameMatch(t, u, pat, p, edge);
    FindIsLeftmost(u, pat, from, p);
    var q := Find(u, pat, from);
    SameMatch(t, u, pat, q, edge);
    FindIsLeftmost(t, pat, from, q);
  }

  /** Replacing the k-th match first does not disturb the matches before it: the first `k - 1`
      of them can be replaced afterwards. */
  lemma {:induction false} LastThenRest(t: string, pat: string, rep: string, from: nat, k: nat, n: nat, at: nat, u: string)
    requires pat != "" && from <= |t| && 1 <= k <= CountFrom(t, pat, from) && n == k - 1
    requires at == NthFrom(t, pat, from, k) && u == ReplaceAt(t, at, pat, rep)
    ensures from <= |u|
    ensures n <= CountFrom(u, pat, from)
    ensures ReplaceFrom(u, pat, rep, from, n) == ReplaceFrom(t, pat, rep, from, k)
    decreases k
  {
    hide ReplaceFrom;
    if k == 1 {
      LastThenRestOne(t, pat, rep, from, at, u);
    } else {
      var p := Find(t, pat, from);
      LastThenRest(t, pat, rep, p + |pat|, k - 1, n - 1, at, u);
      ThreeParts(u, t[..at], rep, t[at + |pat|..]);
      PrefixKept(t, u, pat, from, p, at);
      SameFirstStep(t, u, pat, rep, from, p, k, n);
    }
  }

  lemma LastThenRestOne(t: string, pat: string, rep: string, from: nat, p: nat, u: string)
    requires pat != "" && from <= |t| && p == Find(t, pat, from)
    requires u == ReplaceAt(t, p, pat, rep)
    ensures from <= |u|
    ensures ReplaceFrom(u, pat, rep, from, 0) == ReplaceFrom(t, pat, rep, from, 1)
  {
    hide ReplaceFrom;
    ReplacedTail(t, p, pat, rep, from);
    ReplaceFirstOnly(t, pat, rep, from, p, u);
  }

  lemma ReplaceFirstOnly(t: string, pat: string, rep: string, from: nat, p: nat, u: string)
    requires pat != "" && from <= |t| && p == Find(t, pat, from) && from <= |u|
    ensures ReplaceFrom(t, pat, rep, from, 1) == t[from..p] + rep + t[p + |pat|..]
    ensures ReplaceFrom(u, pat, rep, from, 0) == u[from..]
  {
  }

  lemma ReplacedTail(t: string, p: nat, pat: string, rep: string, from: nat)
    requires from <= p && p + |pat| <= |t|
    ensures from <= |ReplaceAt(t, p, pat, rep)|
    ensures ReplaceAt(t, p, pat, rep)[from..] == t[from..p] + rep + t[p + |pat|..]
  {
  }

  lemma SameFirstStep(t: string, u: string, pat: string, rep: string, from: nat, p: nat, k: nat, n: nat)
    requires pat != "" && from <= |t| && from <= |u| && k >= 2 && n == k - 1
    requires p == Find(t, pat, from) && p == Find(u, pat, from) && u[from..p] == t[from..p]
    requires n - 1 <= CountFrom(u, pat, p + |pat|)
    requires ReplaceFrom(u, pat, rep, p + |pat|, n - 1) == ReplaceFrom(t, pat, rep, p + |pat|, k - 1)
    ensures n <= CountFrom(u, pat, from)
    ensures ReplaceFrom(u, pat, rep, from, n) == ReplaceFrom(t, pat, rep, from, k)
  {
  }

  lemma PrefixKept(t: string, u: string, pat: string, from: nat, p: nat, edge: nat)
    requires from <= p && p + |pat| <= edge <= |t| && edge <= |u| && t[..edge] == u[..edge]
    requires p == Find(t, pat, from)
    ensures Find(u, pat, from) == p && u[from..p] == t[from..p]
  {
    hide Find;
    FindBeforeEdge(t, u, pat, from, edge);
    SamePrefixSlice(t, u, edge, from, p);
  }

  lemma {:induction false} LimitAtCount(t: string, pat: string, rep: string, from: nat, limit: int)
    requires pat != "" && from <= |t| && limit < 0
    ensures ReplaceFrom(t, pat, rep, from, CountFrom(t, pat, from)) == ReplaceFrom(t, pat, rep, from, limit)
    decreases |t| - from
  {
    var p := Find(t, pat, from);
    if p >= 0 {
      LimitAtCount(t, pat, rep, p + |pat|, limit - 1);
    }
  }

  function SingleEdit(oldText: string, newText: string, k: int): Edit {
    Edit(oldText, newText, false, Some(k), None, None)
  }

  /** `texts` is what single-occurrence edits at indexes k, k-1, ..., 1 leave behind, each
      applied to the text the one before it left. */
  ghost predicate SinglesDownFrom(m: Matcher, texts: seq<string>, oldText: string, newText: string, k: nat) {
    && |texts| == k + 1
    && forall i :: 0 <= i < k ==>
         ApplyEdit(m, texts[i], SingleEdit(oldText, newText, k - i)) == Edited(texts[i + 1], 1, false)
  }

  lemma SingleEditWhole(m: Matcher, t: string, oldText: string, newText: string, k: nat)
    requires oldText != "" && 1 <= k <= Count(t, oldText)
    ensures ApplyEdit(m, t, SingleEdit(oldText, newText, k))
         == Edited(ReplaceAt(t, NthFrom(t, oldText, 0, k), oldText, newText), 1, false)
  {
    hide FuzzySpan, NthFrom;
    var u := ReplaceAt(t, NthFrom(t, oldText, 0, k), oldText, newText);
    assert t[0..|t|] == t;
    assert t[..0] + u + t[|t|..] == u;
  }

  ghost predicate ReplacesNth(t: string, u: string, oldText: string, newText: string, k: nat) {
    && oldText != "" && 1 <= k <= CountFrom(t, oldText, 0)
    && u == ReplaceAt(t, NthFrom(t, oldText, 0, k), oldText, newText)
  }

  lemma {:induction false} SinglesReplaceFirst(t: string, oldText: string, newText: string, k: nat)
    returns (texts: seq<string>)
    requires oldText != "" && k <= CountFrom(t, oldText, 0)
    ensures |texts| == k + 1 && texts[0] == t
    ensures forall i :: 0 <= i < k ==> ReplacesNth(texts[i], texts[i + 1], oldText, newText, k - i)
    ensures texts[k] == ReplaceFrom(t, oldText, newText, 0, k)
    decreases k
  {
    if k == 0 {
      texts := [t];
      assert t[0..] == t;
    } else {
      var at := NthFrom(t, oldText, 0, k);
      var u := ReplaceAt(t, at, oldText, newText);
      LastThenRest(t, oldText, newText, 0, k, k - 1, at, u);
      var rest := SinglesReplaceFirst(u, oldText, newText, k - 1);
      texts := ChainFront(t, u, rest, oldText, newText, k);
    }
  }

  lemma ChainFront(t: string, u: string, rest: seq<string>, oldText: string, newText: string, k: nat)
    returns (texts: seq<string>)
    requires k >= 1 && |rest| == k && rest[0] == u && ReplacesNth(t, u, oldText, newText, k)
    requires forall i :: 0 <= i < k - 1 ==> ReplacesNth(rest[i], rest[i + 1], oldText, newText, k - 1 - i)
    ensures |texts| == k + 1 && texts[0] == t && texts[k] == rest[k - 1]
    ensures forall i :: 0 <= i < k ==> ReplacesNth(texts[i], texts[i + 1], oldText, newText, k - i)
  {
    texts := [t] + rest;
    forall i | 0 <= i < k ensures ReplacesNth(texts[i], texts[i + 1], oldText, newText, k - i) {
      if i > 0 {
        var j := i - 1;
        assert ReplacesNth(rest[j], rest[j + 1], oldText, newText, k - 1 - j);
      }
    }
  }

  /** Exact replace-all equals the single edits at k, k-1, ..., 1, for every text and every
      non-empty old text, also when the new text contains the old one; the reported counts
      agree as well. */
  lemma ReplaceAllIsSinglesBackwards(m: Matcher, t: string, oldText: string, newText: string)
    returns (texts: seq<string>)
    requires oldText != "" && Count(t, oldText) > 0
    ensures SinglesDownFrom(m, texts, oldText, newText, Count(t, oldText)) && texts[0] == t
    ensures ApplyEdit(m, t, Edit(oldText, newText, true, None, None, None))
         == Edited(texts[Count(t, oldText)], Count(t, oldText), false)
  {
    var k := CountFrom(t, oldText, 0);
    texts := SinglesReplaceFirst(t, oldText, newText, k);
    ChainApplies(m, texts, oldText, newText, k);
    LimitAtCount(t, oldText, newText, 0, -1);
    WholeTextReplaceAll(m, t, oldText, newText);
  }

  lemma ChainApplies(m: Matcher, texts: seq<string>, oldText: string, newText: string, k: nat)
    requires |texts| == k + 1
    requires forall i :: 0 <= i < k ==> ReplacesNth(texts[i], texts[i + 1], oldText, newText, k - i)
    ensures SinglesDownFrom(m, texts, oldText, newText, k)
  {
    hide ApplyEdit, ReplaceAt, NthFrom;
    forall i | 0 <= i < k
      ensures ApplyEdit(m, texts[i], SingleEdit(oldText, newText, k - i)) == Edited(texts[i + 1], 1, false)
    {
      assert ReplacesNth(texts[i], texts[i + 1], oldText, newText, k - i);
      SingleEditWhole(m, texts[i], oldText, newText, k - i);
    }
  }

  lemma WholeTextReplaceAll(m: Matcher, t: string, oldText: string, newText: string)
    requires oldText != "" && Count(t, oldText) > 0
    ensures ApplyEdit(m, t, Edit(oldText, newText, true, None, None, None))
         == Edited(ReplaceFrom(t, oldText, newText, 0, -1), Count(t, oldText), false)
  {
    assert t[0..|t|] == t;
    var r := ReplaceFrom(t, oldText, newText, 0, -1);
    assert t[..0] + r + t[|t|..] == r;
  }
}
