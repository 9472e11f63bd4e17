/** What an edit that counts as applied says about the file: it reports a replacement, which is
    less than having changed something. */
module EditHonesty {
  import opened Basics
  import opened PyText
  import opened TextEdits
  import opened ArtifactEdits
  import opened ArtifactFiles
  import opened ReadGuard
  import opened ActionExecutor

  // ----- when an edit leaves the text as it is -----

  lemma MiddleSame(a: string, x: string, y: string, b: string)
    ensures a + x + b == a + y + b <==> x == y
  {
    if a + x + b == a + y + b {
      assert |x| == |y|;
      assert (a + x + b)[|a|..|a| + |x|] == x;
      assert (a + y + b)[|a|..|a| + |y|] == y;
    }
  }

  lemma NoGrowth(n: nat, d: int)
    requires n >= 1 && n * d == 0
    ensures d == 0
  {
  }

  lemma {:induction false} InsertNothing(t: string, limit: int)
    ensures InsertBetween(t, "", limit) == t
  {
    if limit != 0 && t != "" {
      InsertNothing(t[1..], limit - 1);
    }
  }

  lemma ReplaceSameIff(t: string, pat: string, rep: string, limit: int)
    requires Count(t, pat) > 0 && (limit == 1 || limit == -1)
    ensures Replace(t, pat, rep, limit) == t <==> rep == pat
  {
    var n := if limit < 0 then Count(t, pat) else limit;
    if Replace(t, pat, rep, limit) == t {
      ReplaceLength(t, pat, rep, limit);
      NoGrowth(n, |rep| - |pat|);
      if pat != "" {
        FirstReplaced(t, pat, rep, limit);
      }
    }
    if rep == pat {
      if pat == "" {
        InsertNothing(t, limit);
      } else {
        ReplaceBySelf(t, pat, 0, limit);
        assert t[0..] == t;
      }
    }
  }

  lemma FirstReplaced(t: string, pat: string, rep: string, limit: int)
    requires pat != "" && Count(t, pat) > 0 && limit != 0 && |rep| == |pat| && Replace(t, pat, rep, limit) == t
    ensures rep == pat
  {
    var p := Find(t, pat, 0);
    MatchIsSlice(t, p, pat);
    var rest := ReplaceFrom(t, pat, rep, p + |pat|, limit - 1);
    assert t == t[0..p] + rep + rest;
    assert (t[0..p] + rep + rest)[p..p + |rep|] == rep;
  }

  lemma ReplaceAtSameIff(t: string, p: nat, pat: string, rep: string)
    requires MatchAt(t, p, pat) && p + |pat| <= |t|
    ensures ReplaceAt(t, p, pat, rep) == t <==> rep == pat
  {
    MatchIsSlice(t, p, pat);
    assert t == t[..p] + pat + t[p + |pat|..];
    MiddleSame(t[..p], rep, pat, t[p + |pat|..]);
  }

  lemma ReplaceInSameIff(target: string, e: Edit, pat: string, count: nat)
    requires 0 < count <= Count(target, pat) && ReplaceIn(target, e, pat, count).Edited?
    ensures ReplaceIn(target, e, pat, count).text == target <==> e.newText == pat
    ensures ReplaceIn(target, e, pat, count).replacements >= 1
  {
    match e.occurrence
    case Some(k) =>
      var p := NthFrom(target, pat, 0, k);
      MatchIsSlice(target, p, pat);
      ReplaceAtSameIff(target, p, pat, e.newText);
    case None => ReplaceSameIff(target, pat, e.newText, if e.replaceAll then -1 else 1);
  }

  /** The text that an edit which goes through replaces: the old text, or the stretch that the
      fuzzy search took for it. */
  function Matched(m: Matcher, original: string, e: Edit): string
    requires ApplyEdit(m, original, e).Edited?
  {
    var at := SliceBounds(original, e.startLine, e.endLine).value;
    var target := original[at.lo..at.hi];
    if Count(target, e.oldText) > 0 then e.oldText
    else
      FuzzySpanInBounds(m, target, e.oldText);
      var s := FuzzySpan(m, target, e.oldText).value;
      target[s.lo..s.hi]
  }

  /** Every edit that goes through reports a replacement, and leaves the text as it was exactly if
      the new text is the one that was matched. */
  lemma UnchangedIff(m: Matcher, original: string, e: Edit)
    requires ApplyEdit(m, original, e).Edited?
    ensures ApplyEdit(m, original, e).replacements >= 1
    ensures ApplyEdit(m, original, e).text == original <==> e.newText == Matched(m, original, e)
  {
    hide FuzzySpan, Count, SliceBounds, ReplaceIn;
    var at := SliceBounds(original, e.startLine, e.endLine).value;
    var target := original[at.lo..at.hi];
    if Count(target, e.oldText) > 0 {
      var r := ReplaceIn(target, e, e.oldText, Count(target, e.oldText));
      ReplaceInSameIff(target, e, e.oldText, Count(target, e.oldText));
      SpliceSameIff(original, at, r.text);
    } else {
      FuzzySpanInBounds(m, target, e.oldText);
      var s := FuzzySpan(m, target, e.oldText).value;
      var pat := target[s.lo..s.hi];
      FoundCounts(target, pat, s.lo);
      if e.occurrence.None? && !e.replaceAll {
        FuzzyAlone(original, at, s, e.newText);
      } else {
        var r := ReplaceIn(target, e, pat, 1);
        ReplaceInSameIff(target, e, pat, 1);
        SpliceSameIff(original, at, r.text);
      }
    }
  }

  lemma SpliceSameIff(original: string, at: Span, text: string)
    requires at.lo <= at.hi <= |original|
    ensures original[..at.lo] + text + original[at.hi..] == original <==> text == original[at.lo..at.hi]
  {
    var target := original[at.lo..at.hi];
    assert original == original[..at.lo] + target + original[at.hi..];
    MiddleSame(original[..at.lo], text, target, original[at.hi..]);
  }

  lemma FuzzyAlone(original: string, at: Span, s: Span, newText: string)
    requires at.lo <= at.hi <= |original| && s.lo < s.hi <= at.hi - at.lo
    ensures original[..at.lo + s.lo] + newText + original[at.lo + s.hi..] == original
      <==> newText == original[at.lo..at.hi][s.lo..s.hi]
  {
    var pat := original[at.lo + s.lo..at.lo + s.hi];
    SliceOfSlice(original, at.lo, at.hi, s.lo, s.hi);
    assert original == original[..at.lo + s.lo] + pat + original[at.lo + s.hi..];
    MiddleSame(original[..at.lo + s.lo], newText, pat, original[at.lo + s.hi..]);
  }

  /** Each edit of a batch that would go through on this text puts back what it matches. */
  ghost predicate PutsBack(m: Matcher, original: string, edits: seq<Edit>) {
    forall k :: 0 <= k < |edits| && edits[k].oldText != "" && ApplyEdit(m, original, edits[k]).Edited? ==>
      edits[k].newText == Matched(m, original, edits[k])
  }

  /** Such a batch leaves the text as it was. */
  lemma {:induction false} BatchPutsBack(m: Matcher, original: string, edits: seq<Edit>, i: nat, total: nat, details: seq<Detail>)
    requires i <= |edits| && PutsBack(m, original, edits)
    ensures var r := ApplyBatch(EditorOf(m), edits, i, original, total, details);
      r.BatchEdited? ==> r.text == original
    decreases |edits| - i
  {
    hide ApplyEdit, Matched;
    if i < |edits| {
      if edits[i].oldText == "" {
        BatchPutsBack(m, original, edits, i + 1, total, details);
      } else {
        var one := ApplyEdit(m, original, edits[i]);
        if one.Edited? {
          UnchangedIff(m, original, edits[i]);
          BatchPutsBack(m, original, edits, i + 1, total + one.replacements,
                        details + [Detail(i, one.replacements, one.fuzzy)]);
        }
      }
    }
  }

  // ----- the row of an edit, and its file -----

  function AnswerOf(path: string, r: EditOutcome): Answer {
    match r
    case EditOk(_, n) => Done(path, n)
    case EditMissing => NotFound
    case _ => BadValue
  }

  /** A targeted edit action: the handler edits the file, the executor keeps a row. The row counts
      as applied exactly if the edits went through, the result fits, and at least one replacement is
      reported. An edit that is no batch and counts as applied has left all files as they were
      exactly if it was a dry run or its new text is the text it matched; a batch does if each of its
      edits puts back what it matches. */
  method ExecuteEdit(ws: Workspace, path: string, batch: seq<Edit>, single: Edit, dryRun: bool) returns (row: Row)
    modifies ws
    ensures Applied(row) <==>
      && path in old(ws.files)
      && EditedText(ws.matcher, old(ws.files)[path], batch, single).Some?
      && EditedText(ws.matcher, old(ws.files)[path], batch, single).value.1 >= 1
      && SizeOk(ws.limits, EditedText(ws.matcher, old(ws.files)[path], batch, single).value.0, 0)
    ensures Applied(row) && batch == [] ==>
      var e := ResolveOldText(old(ws.files)[path], single);
      && ApplyEdit(ws.matcher, old(ws.files)[path], e).Edited?
      && (ws.files == old(ws.files) <==> dryRun || e.newText == Matched(ws.matcher, old(ws.files)[path], e))
    ensures !Applied(row) && batch == [] ==> ws.files == old(ws.files)
    ensures batch != [] && (path in old(ws.files) ==> PutsBack(ws.matcher, old(ws.files)[path], batch)) ==>
      ws.files == old(ws.files)
  {
    hide ApplyEdit, Matched, ResolveOldText, SizeOk, PutsBack;
    ghost var before := ws.files;
    var r := ws.EditFile(path, batch, single, dryRun);
    row := HandlerRow(EditText, EditKind, AnswerOf(path, r), EditText);
    if path in before && batch == [] && r.EditOk? {
      LoneEdit(ws.matcher, before[path], single);
      assert ws.files == before <==> dryRun || r.text == before[path] by {
        SameFile(before, path, r.text);
      }
    }
    if path in before && batch != [] && r.EditOk? && PutsBack(ws.matcher, before[path], batch) {
      BatchPutsBack(ws.matcher, before[path], batch, 0, 0, []);
      SameFile(before, path, r.text);
    }
  }

  lemma SameFile(files: map<string, string>, path: string, text: string)
    requires path in files
    ensures files[path := text] == files <==> text == files[path]
  {
    if text != files[path] {
      assert files[path := text][path] != files[path];
    }
  }

  lemma LoneEdit(m: Matcher, original: string, single: Edit)
    requires EditedText(m, original, [], single).Some?
    ensures var e := ResolveOldText(original, single);
      && ApplyEdit(m, original, e).Edited?
      && EditedText(m, original, [], single).value == (ApplyEdit(m, original, e).text, ApplyEdit(m, original, e).replacements)
      && ApplyEdit(m, original, e).replacements >= 1
      && (ApplyEdit(m, original, e).text == original <==> e.newText == Matched(m, original, e))
  {
    hide ApplyEdit, Matched, ResolveOldText;
    UnchangedIff(m, original, ResolveOldText(original, single));
  }
}
