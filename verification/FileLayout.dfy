/** Where the text of a file comes from: what an append puts between its chunks and how far it gets,
    and what an edit by line range replaces. */
module FileLayout {
  import opened Basics
  import opened PyText
  import opened TextEdits
  import opened ArtifactEdits
  import opened TextChunks
  import opened ArtifactFiles

  // ----- appending -----

  lemma Associates(a: string, b: string, c: string, d: string)
    ensures (a + b) + c + d == a + (b + c + d)
  {
  }

  lemma {:induction false} RenderedIsJoin(first: string, chunks: seq<string>)
    requires chunks != []
    ensures Rendered(first, chunks) == first + Join("\n\n", chunks)
  {
    var n := |chunks| - 1;
    if n > 0 {
      var front := Join("\n\n", chunks[..n]);
      RenderedIsJoin(first, chunks[..n]);
      Associates(first, front, "\n\n", chunks[n]);
    } else {
      assert Rendered(first, chunks[..0]) == "";
    }
  }

  predicate HasInk(t: string) { exists i :: 0 <= i < |t| && !IsSpace(t[i]) }

  /** Chunks are appended with one blank line between any two, and one in front of them exactly if the
      file holds more than whitespace and does not end with a blank line yet. */
  lemma AppendLayout(existing: string, chunks: seq<string>)
    requires chunks != []
    ensures var n := |existing|;
      var blank := HasInk(existing) && !(n >= 2 && existing[n - 2] == '\n' && existing[n - 1] == '\n');
      Appended(existing, FirstSeparator(existing), chunks)
        == existing + (if blank then "\n\n" else "") + Join("\n\n", chunks)
  {
    hide Rendered, FirstSeparator, Join;
    var first := FirstSeparator(existing);
    SeparatorIs(existing);
    RenderedIsJoin(first, chunks);
    assert existing + (first + Join("\n\n", chunks)) == existing + first + Join("\n\n", chunks);
  }

  lemma SeparatorIs(existing: string)
    ensures var n := |existing|;
      FirstSeparator(existing) ==
        if HasInk(existing) && !(n >= 2 && existing[n - 2] == '\n' && existing[n - 1] == '\n') then "\n\n" else ""
  {
    hide Strip;
    var n := |existing|;
    var lead := StripCuts(existing);
    AllSpaceIff(existing);
    if n >= 2 {
      assert existing[n - 2..] == [existing[n - 2], existing[n - 1]];
    }
  }

  /** An append stops at the first chunk that is too large by itself or for what the file holds by
      then, and at no other. */
  lemma AppendStopsWhere(l: Limits, existing: string, chunks: seq<string>, n: nat)
    requires n == Accepted(l, existing, FirstSeparator(existing), chunks, 0)
    ensures n <= |chunks|
    ensures forall i :: 0 <= i <= n && i < |chunks| ==>
      (i < n <==> Bytes(chunks[i]) <= l.maxWrite
                  && Bytes(Appended(existing, FirstSeparator(existing), chunks[..i])) + Bytes(chunks[i]) <= l.maxFile)
  {
    hide Accepted, Appended, Bytes, FirstSeparator;
    var first := FirstSeparator(existing);
    forall i | 0 <= i <= n && i < |chunks|
      ensures i < n <==> SizeOk(l, chunks[i], Bytes(Appended(existing, first, chunks[..i])))
    {
      if i < n { AcceptedPasses(l, existing, first, chunks, 0, i); } else { AcceptedStops(l, existing, first, chunks, 0); }
    }
  }

  lemma {:induction false} AcceptedStops(l: Limits, existing: string, first: string, chunks: seq<string>, k: nat)
    requires k <= |chunks|
    ensures var n := Accepted(l, existing, first, chunks, k);
      n < |chunks| ==> !SizeOk(l, chunks[n], Bytes(Appended(existing, first, chunks[..n])))
    decreases |chunks| - k
  {
    if k < |chunks| && SizeOk(l, chunks[k], Bytes(Appended(existing, first, chunks[..k]))) {
      AcceptedStops(l, existing, first, chunks, k + 1);
    }
  }

  // ----- editing by line range -----

  function Chomped(lines: seq<string>): (r: seq<string>)
    ensures |r| == |lines|
  {
    seq(|lines|, i requires 0 <= i < |lines| => Chomp(lines[i]))
  }

  /** Lines that end with a newline, the last of which may lack it. */
  predicate NewlineLines(lines: seq<string>) {
    && (forall i :: 0 <= i < |lines| - 1 ==> lines[i] == Chomp(lines[i]) + "\n")
    && (lines != [] ==> var z := lines[|lines| - 1]; z == Chomp(z) + "\n" || z == Chomp(z))
  }

  function LastBreak(lines: seq<string>): (r: string)
    requires lines != []
    ensures r in {"", "\n"}
  {
    var z := lines[|lines| - 1];
    if z == Chomp(z) then "" else "\n"
  }

  lemma {:induction false} LinesAreJoined(lines: seq<string>)
    requires lines != [] && NewlineLines(lines)
    ensures Flatten(lines) == Join("\n", Chomped(lines)) + LastBreak(lines)
  {
    hide Chomp, Join, Flatten;
    var n := |lines| - 1;
    var front := lines[..n];
    FlattenLast(lines);
    JoinLast(Chomped(lines));
    assert Chomped(lines)[..n] == Chomped(front);
    if n > 0 {
      assert front[n - 1] == Chomp(front[n - 1]) + "\n";
      assert front[n - 1] != Chomp(front[n - 1]);
      LinesAreJoined(front);
      Associates(Join("\n", Chomped(front)), "\n", Chomp(lines[n]), LastBreak(lines));
    }
  }

  lemma FlattenLast(lines: seq<string>)
    requires lines != []
    ensures Flatten(lines) == if |lines| == 1 then lines[0] else Flatten(lines[..|lines| - 1]) + lines[|lines| - 1]
  {
    if |lines| == 1 {
      assert Flatten(lines[..0]) == "";
    }
  }

  lemma JoinLast(parts: seq<string>)
    requires parts != []
    ensures Join("\n", parts) ==
      if |parts| == 1 then parts[0] else Join("\n", parts[..|parts| - 1]) + "\n" + parts[|parts| - 1]
  {
  }

  lemma {:induction false} JoinIsLong(parts: seq<string>)
    requires parts != []
    ensures |Join("\n", parts)| >= |parts| - 1
    ensures |parts| == 2 ==> Join("\n", parts) == parts[0] + "\n" + parts[1]
  {
    if |parts| > 1 {
      JoinIsLong(parts[..|parts| - 1]);
    }
  }

  /** One or two blank lines: what stands in them stands there twice. */
  predicate FewBlank(lines: seq<string>) {
    |lines| <= 2 && forall i :: 0 <= i < |lines| ==> lines[i] == "\n"
  }

  lemma FewBlankIff(lines: seq<string>, was: string)
    requires lines != [] && NewlineLines(lines) && was == Join("\n", Chomped(lines))
    requires forall i :: 0 <= i < |lines| ==> lines[i] != "" && lines[i] != "\n\n"
    ensures FewBlank(lines) <==> was == "" || (was == "\n" && LastBreak(lines) == "\n")
    ensures was == "" ==> LastBreak(lines) == "\n"
  {
    hide Join, Chomp;
    var z := |lines| - 1;
    JoinIsLong(Chomped(lines));
    JoinLast(Chomped(lines));
    BlankChomps(lines[0]);
    BlankChomps(lines[z]);
    if |lines| == 1 {
      assert was == Chomp(lines[0]);
    } else if |lines| == 2 {
      assert was == Chomp(lines[0]) + "\n" + Chomp(lines[1]);
    }
  }

  lemma BlankChomps(line: string)
    requires line == Chomp(line) + "\n" || line == Chomp(line)
    ensures Chomp(line) == "" ==> line in {"", "\n"}
    ensures line == "\n" ==> Chomp(line) == ""
    ensures Chomp(line) == "\n" ==> line == "\n\n"
  {
  }

  lemma NoSecondMatch(was: string, brk: string)
    requires was != "" && brk in {"", "\n"} && !(was == "\n" == brk)
    ensures Find(was + brk, was, |was|) == -1
  {
    var r := Find(was + brk, was, |was|);
    if r >= 0 {
      MatchIsSlice(was + brk, r, was);
    }
  }

  lemma OneMatch(was: string, brk: string)
    requires was != "" && brk in {"", "\n"}
    ensures Find(was + brk, was, 0) == 0
    ensures Count(was + brk, was) == if was == "\n" == brk then 2 else 1
  {
    var t := was + brk;
    MatchIsSlice(t, 0, was);
    FindIsLeftmost(t, was, 0, 0);
    if was == "\n" == brk {
      assert t == "\n\n";
      MatchIsSlice(t, 1, was);
      FindIsLeftmost(t, was, 1, 1);
      assert CountFrom(t, was, 2) == 0;
    } else {
      NoSecondMatch(was, brk);
      assert CountFrom(t, was, |was|) == 0;
    }
  }

  lemma ChompedSlice(lines: seq<string>, a: nat, b: nat)
    requires a <= b <= |lines|
    ensures Slice(Chomped(lines), a, b) == Chomped(lines[a..b])
  {
  }

  lemma OneLineEach(t: string, a: nat, b: nat)
    requires a <= b <= |Lines(t)|
    ensures forall i :: 0 <= i < b - a ==> Lines(t)[a..b][i] != "" && Lines(t)[a..b][i] != "\n\n"
  {
    forall i | 0 <= i < b - a ensures Lines(t)[a..b][i] != "\n\n" {
      LinesAreLines(t, a + i);
      assert Lines(t)[a..b][i] == Lines(t)[a + i];
      assert BreaksAtEnd(Lines(t)[a + i]);
      assert "\n\n"[0] == '\n';
    }
  }

  lemma ReplaceOnce(was: string, brk: string, put: string)
    requires was != "" && Find(was + brk, was, 0) == 0
    ensures Replace(was + brk, was, put, 1) == put + brk
  {
    var t := was + brk;
    assert t[|was|..] == brk && t[0..0] + put == put;
    assert ReplaceFrom(t, was, put, |was|, 0) == brk;
  }

  /** An edit of lines a to b that names no old text replaces exactly what stands in these lines and
      keeps the last line break, except that one or two blank lines are refused as ambiguous. */
  lemma EditByLines(m: Matcher, original: string, e: Edit, a: nat, b: nat)
    requires e.oldText == "" && e.occurrence.None? && !e.replaceAll
    requires 1 <= a <= b <= |Lines(original)| && e.startLine == Some(a) && e.endLine == Some(b)
    requires NewlineLines(Lines(original)[a - 1..b])
    ensures var lines := Lines(original);
      ApplyEdit(m, original, ResolveOldText(original, e)) ==
        if FewBlank(lines[a - 1..b]) then Failed(AmbiguousMatch)
        else Edited(Flatten(lines[..a - 1]) + (e.newText + LastBreak(lines[a - 1..b])) + Flatten(lines[b..]), 1, false)
  {
    hide Lines, Flatten, FewBlank, NewlineLines, LastBreak, Join,  Find, Replace, CountFrom, FuzzySpan;
    var lines := Lines(original);
    var part := lines[a - 1..b];
    var was := Join("\n", Chomped(part));
    ChompedSlice(lines, a - 1, b);
    assert ResolveOldText(original, e) == e.(oldText := was);
    LineRange(original, a - 1, b);
    LinesAreJoined(part);
    OneLineEach(original, a - 1, b);
    FewBlankIff(part, was);
    var target := Flatten(part);
    if was != "" {
      OneMatch(was, LastBreak(part));
      ReplaceOnce(was, LastBreak(part), e.newText);
    }
  }

  // ----- where an edit takes effect -----

  /** The range of an edit is the whole text without line numbers; else it runs from the first to the last line given,
      a missing one being the first or last of the text, and it is invalid if these are no lines of it in order. */
  lemma SliceBoundsAre(content: string, startLine: Option<int>, endLine: Option<int>)
    ensures var r, lines := SliceBounds(content, startLine, endLine), Lines(content);
      var first := if startLine.Some? then startLine.value else 1;
      var last := if endLine.Some? then endLine.value else |lines|;
      && (startLine.None? && endLine.None? ==> r == Some(Span(0, |content|)))
      && (startLine.Some? || endLine.Some? ==>
            && (r.None? <==> content != "" && !(1 <= first <= last <= |lines|))
            && (r.Some? && content != "" ==>
                  && r.value.lo <= r.value.hi <= |content|
                  && content[..r.value.lo] == Flatten(lines[..first - 1])
                  && content[r.value.lo..r.value.hi] == Flatten(lines[first - 1..last])
                  && content[r.value.hi..] == Flatten(lines[last..])))
  {
    hide Lines, Flatten;
    var lines := Lines(content);
    var first := if startLine.Some? then startLine.value else 1;
    var last := if endLine.Some? then endLine.value else |lines|;
    if content != "" && 1 <= first <= last <= |lines| {
      LineRange(content, first - 1, last);
    }
  }

  lemma InsertedOnce(t: string, rep: string)
    ensures InsertBetween(t, rep, 1) == rep + t
  {
    if t == "" { assert rep + t == rep; } else { Reattach(rep, t); }
    InsertedFirst(t, rep);
  }

  lemma InsertedFirst(t: string, rep: string)
    ensures InsertBetween(t, rep, 1) == if t == "" then rep else rep + [t[0]] + t[1..]
  {
  }

  lemma Reattach(rep: string, t: string)
    requires t != ""
    ensures rep + [t[0]] + t[1..] == rep + t
  {
  }

  /** Where the one replacement of an edit without replace_all takes place in its target. */
  lemma ReplacesOnce(target: string, e: Edit, was: string, count: nat) returns (p: nat)
    requires !e.replaceAll && 0 < count <= Count(target, was) && ReplaceIn(target, e, was, count).Edited?
    ensures p + |was| <= |target| && target[p..p + |was|] == was
    ensures ReplaceIn(target, e, was, count).text == target[..p] + e.newText + target[p + |was|..]
    ensures ReplaceIn(target, e, was, count).replacements == 1
    ensures e.occurrence.None? ==> p == Find(target, was, 0)
    ensures e.occurrence.Some? && was != "" ==> 1 <= e.occurrence.value <= count && p == NthFrom(target, was, 0, e.occurrence.value)
  {
    hide NthFrom, CountFrom, Find;
    match e.occurrence {
      case Some(k) =>
        p := NthFrom(target, was, 0, k);
        MatchIsSlice(target, p, was);
      case None =>
        FindsCounted(target, was);
        p := Find(target, was, 0);
        MatchIsSlice(target, p, was);
        if was == "" {
          InsertedOnce(target, e.newText);
          assert target[..0] + e.newText + target[0..] == e.newText + target;
        } else {
          ReplacesFirst(target, was, e.newText, p);
        }
    }
  }

  lemma FindsCounted(t: string, pat: string)
    requires Count(t, pat) > 0
    ensures Find(t, pat, 0) >= 0
    ensures pat == "" ==> Find(t, pat, 0) == 0
  {
  }

  lemma ReplacesFirst(t: string, pat: string, rep: string, p: nat)
    requires pat != "" && p == Find(t, pat, 0)
    ensures ReplaceFrom(t, pat, rep, 0, 1) == t[..p] + rep + t[p + |pat|..]
  {
    assert t[0..p] == t[..p];
    assert ReplaceFrom(t, pat, rep, p + |pat|, 0) == t[p + |pat|..];
  }

  /** An edit without replace_all puts the new text in the place of one stretch of its range and reports one
      replacement: of the old text if that stands in the range ... */
  lemma EditReplacesOne(m: Matcher, original: string, e: Edit, at: Span) returns (p: nat)
    requires ApplyEdit(m, original, e).Edited? && !e.replaceAll && Some(at) == SliceBounds(original, e.startLine, e.endLine)
    requires Count(original[at.lo..at.hi], e.oldText) > 0
    ensures at.lo <= p && p + |e.oldText| <= at.hi && original[p..p + |e.oldText|] == e.oldText
    ensures ApplyEdit(m, original, e) == Edited(original[..p] + e.newText + original[p + |e.oldText|..], 1, false)
    ensures e.occurrence.None? ==> p - at.lo == Find(original[at.lo..at.hi], e.oldText, 0)
  {
    hide FuzzySpan, Count, SliceBounds, ReplaceIn, Find, NthFrom;
    var target := original[at.lo..at.hi];
    var k := ReplacesOnce(target, e, e.oldText, Count(target, e.oldText));
    p := at.lo + k;
    hide Splice;
    SplicedExact(m, original, e, at, ReplaceIn(target, e, e.oldText, Count(target, e.oldText)));
    SliceOfSlice(original, at.lo, at.hi, k, k + |e.oldText|);
    Unspliced(original, at, k, k + |e.oldText|, e.newText);
  }

  lemma SplicedExact(m: Matcher, original: string, e: Edit, at: Span, r: EditResult)
    requires Some(at) == SliceBounds(original, e.startLine, e.endLine)
    requires Count(original[at.lo..at.hi], e.oldText) > 0
    requires r == ReplaceIn(original[at.lo..at.hi], e, e.oldText, Count(original[at.lo..at.hi], e.oldText))
    ensures ApplyEdit(m, original, e).Edited? <==> r.Edited?
    ensures r.Edited? ==>
      ApplyEdit(m, original, e) == Edited(original[..at.lo] + r.text + original[at.hi..], r.replacements, false)
  {
    hide FuzzySpan, Count, SliceBounds, ReplaceIn;
  }

  /** ... and of the fuzzy span if it does not. */
  lemma FuzzyEditReplacesOne(m: Matcher, original: string, e: Edit, at: Span, s: Span)
    requires e.occurrence.None? && !e.replaceAll && Some(at) == SliceBounds(original, e.startLine, e.endLine)
    requires Count(original[at.lo..at.hi], e.oldText) == 0 && FuzzySpan(m, original[at.lo..at.hi], e.oldText) == Some(s)
    ensures s.lo < s.hi <= at.hi - at.lo
    ensures ApplyEdit(m, original, e) == Edited(original[..at.lo + s.lo] + e.newText + original[at.lo + s.hi..], 1, true)
  {
    hide FuzzySpan, Count, SliceBounds;
    FuzzySpanInBounds(m, original[at.lo..at.hi], e.oldText);
  }

  /** Asked for an occurrence or for all of them, a fuzzy edit takes its span as the old text: only the first
      occurrence can be asked for, and all of them are replaced as one. */
  lemma FuzzyOccurrences(m: Matcher, original: string, e: Edit, at: Span, s: Span) returns (p: nat)
    requires (e.occurrence.Some? || e.replaceAll) && Some(at) == SliceBounds(original, e.startLine, e.endLine)
    requires Count(original[at.lo..at.hi], e.oldText) == 0 && FuzzySpan(m, original[at.lo..at.hi], e.oldText) == Some(s)
    ensures s.lo < s.hi <= at.hi - at.lo
    ensures var target, r := original[at.lo..at.hi], ApplyEdit(m, original, e); var was := target[s.lo..s.hi];
      && (e.occurrence.Some? && e.occurrence.value != 1 ==> r == Failed(OccurrenceOutOfRange))
      && (e.occurrence == Some(1) ==>
            && p == Find(target, was, 0) && p + |was| <= |target|
            && r == Edited(original[..at.lo] + (target[..p] + e.newText + target[p + |was|..]) + original[at.hi..], 1, true))
      && (e.occurrence.None? ==>
            r == Edited(original[..at.lo] + JoinRight(e.newText, Pieces(target, was, 0)) + original[at.hi..], 1, true))
  {
    hide FuzzySpan, SliceBounds, Find, ReplaceFrom, JoinRight, Pieces;
    var target := original[at.lo..at.hi];
    FuzzySpanInBounds(m, target, e.oldText);
    var was := target[s.lo..s.hi];
    FoundCounts(target, was, s.lo);
    FindsCounted(target, was);
    p := Find(target, was, 0);
    if e.occurrence == Some(1) {
      NthUnfold(target, was, 0, 1);
    } else if e.occurrence.None? {
      ReplaceAllIsSplitJoin(target, was, e.newText, 0, -1);
    }
  }

  /** Which error an edit is refused with. */
  lemma EditErrorIs(m: Matcher, original: string, e: Edit)
    ensures var bounds, r := SliceBounds(original, e.startLine, e.endLine), ApplyEdit(m, original, e);
      && (r == Failed(InvalidLineRange) <==> bounds.None?)
      && (bounds.Some? ==>
            var target := original[bounds.value.lo..bounds.value.hi];
            var found := Count(target, e.oldText);
            var fuzzy := FuzzySpan(m, target, e.oldText).Some?;
            && (r == Failed(OldTextNotFound) <==> found == 0 && !fuzzy)
            && (r == Failed(OccurrenceOutOfRange) <==>
                  e.occurrence.Some? && if found == 0 then fuzzy && e.occurrence.value != 1 else !(1 <= e.occurrence.value <= found))
            && (r == Failed(AmbiguousMatch) <==> found > 1 && e.occurrence.None? && !e.replaceAll))
  {
    hide FuzzySpan, Count, SliceBounds, NthFrom, Replace;
  }

  lemma Unspliced(t: string, at: Span, i: nat, j: nat, newText: string)
    requires at.lo <= at.hi <= |t| && i <= j <= at.hi - at.lo
    ensures t[..at.lo] + (t[at.lo..at.hi][..i] + newText + t[at.lo..at.hi][j..]) + t[at.hi..]
         == t[..at.lo + i] + newText + t[at.lo + j..]
  {
    assert t[at.lo..at.hi][..i] == t[at.lo..at.lo + i] && t[at.lo..at.hi][j..] == t[at.lo + j..at.hi];
    SpliceInside(t, at, Span(i, j), newText);
  }

  // ----- the edited text of a file -----

  function Outcome(r: BatchResult): Option<(string, int)> {
    match r
    case BatchFailed(_) => None
    case BatchEdited(text, total, _) => Some((text, total))
  }

  function Counted(r: Option<(string, int)>, n: int): Option<(string, int)> {
    if r.None? then None else Some((r.value.0, r.value.1 + n))
  }

  /** What a batch comes to depends on the edits that are left, not on how many went before. */
  lemma {:induction false} RestOfBatch(f: Editor, a: seq<Edit>, i: nat, b: seq<Edit>, j: nat, text: string, total: nat,
                                       before: nat, da: seq<Detail>, db: seq<Detail>)
    requires i <= |a| && j <= |b| && a[i..] == b[j..]
    ensures Outcome(ApplyBatch(f, a, i, text, total + before, da)) == Counted(Outcome(ApplyBatch(f, b, j, text, total, db)), before)
    decreases |a| - i
  {
    assert |a[i..]| == |b[j..]|;
    if i < |a| {
      assert a[i..][0] == b[j..][0] && a[i..][1..] == b[j..][1..];
      if a[i].oldText == "" {
        RestOfBatch(f, a, i + 1, b, j + 1, text, total, before, da, db);
      } else {
        var r := f(text, a[i]);
        if r.Edited? {
          RestOfBatch(f, a, i + 1, b, j + 1, r.text, total + r.replacements, before,
                      da + [Detail(i, r.replacements, r.fuzzy)], db + [Detail(j, r.replacements, r.fuzzy)]);
        }
      }
    }
  }

  /** A batch is its first edit and then the others on what that leaves: an edit without an old text is passed
      over, a refused one refuses the batch, and the replacements add up. The single edit beside it is not looked at. */
  lemma BatchOneByOne(m: Matcher, original: string, e: Edit, rest: seq<Edit>, single: Edit)
    ensures var r := EditedText(m, original, [e] + rest, single);
      if e.oldText == "" then r == if rest == [] then Some((original, 0)) else EditedText(m, original, rest, single)
      else match ApplyEdit(m, original, e)
        case Failed(_) => r == None
        case Edited(text, n, _) =>
          if rest == [] then r == Some((text, n))
          else
            var later := EditedText(m, text, rest, single);
            if later.None? then r.None? else r == Some((later.value.0, later.value.1 + n))
  {
    hide ApplyEdit, ApplyBatch;
    var all, f := [e] + rest, EditorOf(m);
    assert all[1..] == rest[0..];
    FirstOfBatch(f, all, original);
    NothingLeft(f, rest, original);
    if e.oldText == "" {
      RestOfBatch(f, all, 1, rest, 0, original, 0, 0, [], []);
    } else {
      var r := ApplyEdit(m, original, e);
      if r.Edited? {
        NothingLeft(f, rest, r.text);
        RestOfBatch(f, all, 1, rest, 0, r.text, 0, r.replacements, [Detail(0, r.replacements, r.fuzzy)], []);
      }
    }
  }

  lemma FirstOfBatch(f: Editor, all: seq<Edit>, text: string)
    requires all != []
    ensures ApplyBatch(f, all, 0, text, 0, []) ==
      if all[0].oldText == "" then ApplyBatch(f, all, 1, text, 0, [])
      else match f(text, all[0])
        case Failed(error) => BatchFailed(error)
        case Edited(u, n, fuzzy) => ApplyBatch(f, all, 1, u, n, [Detail(0, n, fuzzy)])
  {
    assert forall d: Detail :: [] + [d] == [d];
  }

  lemma NothingLeft(f: Editor, rest: seq<Edit>, text: string)
    ensures rest == [] ==> ApplyBatch(f, rest, 0, text, 0, []) == BatchEdited(text, 0, [])
  {
  }

  /** Without a batch, the single edit needs an old text or a line number. */
  lemma SingleNeedsTarget(m: Matcher, original: string, single: Edit)
    ensures single.oldText == "" && single.startLine.None? && single.endLine.None? ==> EditedText(m, original, [], single).None?
    ensures single.oldText != "" ==>
      EditedText(m, original, [], single) ==
        match ApplyEdit(m, original, single)
        case Failed(_) => None
        case Edited(text, n, _) => Some((text, n))
    ensures single.oldText == "" && single.startLine.Some? ==>
      (EditedText(m, original, [], single).Some? <==> ApplyEdit(m, original, ResolveOldText(original, single)).Edited?)
  {
    hide ApplyEdit;
  }
}
