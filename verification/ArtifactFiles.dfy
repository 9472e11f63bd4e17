/** The write, append and edit handlers over the files of one task. */
module ArtifactFiles {
  import opened Basics
  import opened PyText
  import opened TextEdits
  import opened ArtifactEdits
  import opened TextChunks

  datatype Limits = Limits(maxWrite: int, maxFile: int, chunkChars: int)

  /** `_check_size`: false stands for the ValueError. */
  predicate SizeOk(l: Limits, content: string, existing: int) {
    Bytes(content) <= l.maxWrite && existing + Bytes(content) <= l.maxFile
  }

  function SumBytes(parts: seq<string>): nat {
    if parts == [] then 0 else SumBytes(parts[..|parts| - 1]) + Bytes(parts[|parts| - 1])
  }

  const BLANK := "\n\n"

  // ----- writing -----

  /** Whether every chunk passes its size check, the separators not being counted. */
  predicate AllFit(l: Limits, chunks: seq<string>) {
    chunks == []
    || (AllFit(l, chunks[..|chunks| - 1])
        && SizeOk(l, chunks[|chunks| - 1], SumBytes(chunks[..|chunks| - 1])))
  }

  /** The checks of a write, said without the loop. */
  lemma {:induction false} WriteAcceptedIff(l: Limits, chunks: seq<string>)
    requires chunks != []
    ensures AllFit(l, chunks) <==>
      (forall c :: c in chunks ==> Bytes(c) <= l.maxWrite) && SumBytes(chunks) <= l.maxFile
  {
    var n := |chunks| - 1;
    var before, last := chunks[..n], chunks[n];
    assert chunks == before + [last];
    assert (forall c :: c in chunks ==> Bytes(c) <= l.maxWrite)
      <==> (forall c :: c in before ==> Bytes(c) <= l.maxWrite) && Bytes(last) <= l.maxWrite by
    {
      assert last in chunks;
      assert forall c :: c in chunks <==> c in before || c == last;
    }
    if n > 0 {
      WriteAcceptedIff(l, before);
    } else {
      assert before == [];
    }
    assert AllFit(l, chunks) <==> AllFit(l, before) && SizeOk(l, last, SumBytes(before));
    assert SumBytes(chunks) == SumBytes(before) + Bytes(last);
  }

  lemma {:induction false} JoinBytes(parts: seq<string>)
    requires parts != []
    ensures Bytes(Join(BLANK, parts)) == SumBytes(parts) + 2 * (|parts| - 1)
  {
    var n := |parts| - 1;
    if n > 0 {
      JoinBytes(parts[..n]);
      BytesConcat(Join(BLANK, parts[..n]) + BLANK, parts[n]);
      BytesConcat(Join(BLANK, parts[..n]), BLANK);
      BlankBytes();
    } else {
      assert SumBytes(parts[..0]) == 0;
    }
  }

  lemma BlankBytes()
    ensures Bytes(BLANK) == 2 && AllSpace(BLANK)
  {
    assert BLANK[..1] == "\n";
    assert "\n"[..0] == "";
    assert Bytes("\n") == 1;
  }

  lemma {:induction false} JoinInk(parts: seq<string>)
    ensures Ink(Join(BLANK, parts)) == Ink(Flatten(parts))
  {
    if |parts| == 1 {
      assert Flatten(parts) == Flatten([]) + parts[0] == parts[0];
    } else if |parts| > 1 {
      var n := |parts| - 1;
      JoinInk(parts[..n]);
      InkConcat(Join(BLANK, parts[..n]) + BLANK, parts[n]);
      InkConcat(Join(BLANK, parts[..n]), BLANK);
      InkConcat(Flatten(parts[..n]), parts[n]);
      BlankBytes();
    }
  }

  /** What a write puts into the file when all its checks pass. */
  function Written(l: Limits, content: string): string {
    var chunks := Split(content, l.chunkChars);
    if chunks == [] then content else Join(BLANK, chunks)
  }

  predicate WriteAccepted(l: Limits, content: string) {
    var chunks := Split(content, l.chunkChars);
    if chunks == [] then SizeOk(l, content, 0) else AllFit(l, chunks)
  }

  /** An accepted write keeps every character but whitespace, and exceeds the file limit by no
      more than its separators; the file limit itself holds exactly when they fit as well. */
  lemma WriteBound(l: Limits, content: string)
    requires WriteAccepted(l, content)
    ensures var n := |Split(content, l.chunkChars)|;
      && Bytes(Written(l, content)) <= l.maxFile + 2 * Max(0, n - 1)
      && Ink(Written(l, content)) == Ink(content)
      && (n > 0 ==> Bytes(Written(l, content)) == SumBytes(Split(content, l.chunkChars)) + 2 * (n - 1))
  {
    var chunks := Split(content, l.chunkChars);
    if chunks != [] {
      WriteAcceptedIff(l, chunks);
      JoinBytes(chunks);
      JoinInk(chunks);
      SplitKeepsInk(content, l.chunkChars);
    }
  }

  // ----- appending -----

  predicate EndsBlank(t: string) {
    |t| >= 2 && t[|t| - 2..] == BLANK
  }

  /** The separator in front of the first chunk appended to `existing`. */
  function FirstSeparator(existing: string): string {
    if Strip(existing) != "" && !EndsBlank(existing) then BLANK else ""
  }

  function Separator(first: string, index: nat): string {
    if index == 0 then first else BLANK
  }

  /** The chunks as they are appended, separators included. */
  function Rendered(first: string, chunks: seq<string>): string {
    if chunks == [] then ""
    else
      var n := |chunks| - 1;
      Rendered(first, chunks[..n]) + Separator(first, n) + chunks[n]
  }

  function Appended(existing: string, first: string, chunks: seq<string>): string {
    existing + Rendered(first, chunks)
  }

  /** How many chunks, from the `k`-th on, are written before a size check fails. */
  function Accepted(l: Limits, existing: string, first: string, chunks: seq<string>, k: nat): (n: nat)
    requires k <= |chunks|
    ensures k <= n <= |chunks|
    decreases |chunks| - k
  {
    if k < |chunks| && SizeOk(l, chunks[k], Bytes(Appended(existing, first, chunks[..k])))
    then Accepted(l, existing, first, chunks, k + 1)
    else k
  }

  lemma AcceptedUnfold(l: Limits, existing: string, first: string, chunks: seq<string>, k: nat)
    requires k <= |chunks|
    ensures Accepted(l, existing, first, chunks, k) ==
      if k < |chunks| && SizeOk(l, chunks[k], Bytes(Appended(existing, first, chunks[..k])))
      then Accepted(l, existing, first, chunks, k + 1) else k
  {
  }

  lemma AppendedNothing(existing: string, first: string, chunks: seq<string>)
    ensures Appended(existing, first, chunks[..0]) == existing
  {
    assert existing + "" == existing;
  }

  lemma FirstSeparatorIsBlankOrNone(existing: string)
    ensures FirstSeparator(existing) == BLANK || FirstSeparator(existing) == ""
  {
  }

  lemma SeparatorIsBlankOrNone(first: string, index: nat)
    requires first == BLANK || first == ""
    ensures Separator(first, index) == BLANK || Separator(first, index) == ""
  {
  }

  lemma {:induction false} AcceptedPasses(l: Limits, existing: string, first: string, chunks: seq<string>, k: nat, i: nat)
    requires k <= |chunks| && k <= i < Accepted(l, existing, first, chunks, k)
    ensures SizeOk(l, chunks[i], Bytes(Appended(existing, first, chunks[..i])))
    decreases |chunks| - k
  {
    if k < i {
      AcceptedPasses(l, existing, first, chunks, k + 1, i);
    }
  }

  lemma AppendOne(existing: string, first: string, chunks: seq<string>, k: nat)
    requires k < |chunks|
    ensures Appended(existing, first, chunks[..k + 1])
         == Appended(existing, first, chunks[..k]) + Separator(first, k) + chunks[k]
    ensures Bytes(Appended(existing, first, chunks[..k + 1]))
         == Bytes(Appended(existing, first, chunks[..k])) + Bytes(Separator(first, k)) + Bytes(chunks[k])
  {
    assert chunks[..k + 1][..k] == chunks[..k];
    var r, s := Rendered(first, chunks[..k]), Separator(first, k);
    assert existing + (r + s + chunks[k]) == (existing + r) + s + chunks[k];
    BytesConcat(existing + r + s, chunks[k]);
    BytesConcat(existing + r, s);
  }

  /** An append, complete or cut short, leaves the file at most one separator over the limit. */
  lemma AppendBound(l: Limits, existing: string, first: string, chunks: seq<string>, n: nat)
    requires first == BLANK || first == ""
    requires 0 < n <= Accepted(l, existing, first, chunks, 0)
    ensures Bytes(Appended(existing, first, chunks[..n])) <= l.maxFile + 2
  {
    AcceptedPasses(l, existing, first, chunks, 0, n - 1);
    AppendOne(existing, first, chunks, n - 1);
    BlankBytes();
    assert Bytes("") == 0;
  }

  lemma {:induction false} RenderedInk(first: string, chunks: seq<string>)
    requires AllSpace(first)
    ensures Ink(Rendered(first, chunks)) == Ink(Flatten(chunks))
  {
    if chunks != [] {
      var n := |chunks| - 1;
      RenderedInk(first, chunks[..n]);
      var r, s := Rendered(first, chunks[..n]), Separator(first, n);
      BlankBytes();
      InkConcat(r + s, chunks[n]);
      InkConcat(r, s);
      InkConcat(Flatten(chunks[..n]), chunks[n]);
    }
  }

  /** The file after appending `chunks`, and whether all of them made it in. */
  function AppendedFile(l: Limits, existing: string, chunks: seq<string>): (string, bool) {
    var first := FirstSeparator(existing);
    var n := Accepted(l, existing, first, chunks, 0);
    (Appended(existing, first, chunks[..n]), n == |chunks|)
  }

  lemma AppendedInk(existing: string, first: string, chunks: seq<string>)
    requires first == BLANK || first == ""
    ensures Ink(Appended(existing, first, chunks)) == Ink(existing) + Ink(Flatten(chunks))
  {
    BlankBytes();
    InkConcat(existing, Rendered(first, chunks));
    RenderedInk(first, chunks);
  }

  /** A successful append stays within one separator of the file limit and adds every character
      of the chunks but whitespace; a failed one leaves the old text and a proper prefix of the
      chunks with their separators. */
  lemma AppendOutcome(l: Limits, existing: string, chunks: seq<string>) returns (n: nat)
    requires chunks != []
    ensures n <= |chunks|
    ensures AppendedFile(l, existing, chunks) == (Appended(existing, FirstSeparator(existing), chunks[..n]), n == |chunks|)
    ensures if n == 0 then AppendedFile(l, existing, chunks).0 == existing
            else Bytes(AppendedFile(l, existing, chunks).0) <= l.maxFile + 2
    ensures n == |chunks| ==> Ink(AppendedFile(l, existing, chunks).0) == Ink(existing) + Ink(Flatten(chunks))
  {
    var first := FirstSeparator(existing);
    n := Accepted(l, existing, first, chunks, 0);
    if n > 0 {
      AppendBound(l, existing, first, chunks, n);
    } else {
      assert existing + "" == existing;
    }
    AppendedInk(existing, first, chunks);
    assert chunks[..|chunks|] == chunks;
  }

  // ----- editing -----

  datatype EditOutcome = EditOk(text: string, replacements: nat) | EditMissing | EditRefused | EditTooLarge

  /** A line range without an old text stands for the text of those lines. */
  function ResolveOldText(original: string, e: Edit): Edit {
    if e.oldText == "" && e.startLine.Some? then
      var lines := Lines(original);
      var plain := seq(|lines|, i requires 0 <= i < |lines| => Chomp(lines[i]));
      var start := e.startLine.value;
      var end := if e.endLine.Some? && e.endLine.value != 0 then e.endLine.value else start;
      e.(oldText := Join("\n", Slice(plain, start - 1, end)))
    else e
  }

  /** The new text of the file and the count, before the size check. */
  function EditedText(m: Matcher, original: string, batch: seq<Edit>, single: Edit): Option<(string, nat)> {
    if batch != [] then
      match ApplyBatch(EditorOf(m), batch, 0, original, 0, [])
      case BatchFailed(_) => None
      case BatchEdited(text, total, _) => Some((text, total))
    else if single.oldText == "" && single.startLine.None? && single.endLine.None? then None
    else
      match ApplyEdit(m, original, ResolveOldText(original, single))
      case Failed(_) => None
      case Edited(text, n, _) => Some((text, n))
  }

  /** One refused edit anywhere in a batch refuses the whole batch. */
  lemma {:induction false} BatchRefusedByOne(f: Editor, edits: seq<Edit>, i: nat, k: nat, text: string, total: nat, details: seq<Detail>, mid: BatchResult)
    requires i <= k < |edits| && edits[k].oldText != ""
    requires mid == ApplyBatch(f, edits[..k], i, text, total, details) && mid.BatchEdited?
    requires f(mid.text, edits[k]).Failed?
    ensures ApplyBatch(f, edits, i, text, total, details).BatchFailed?
    decreases k - i
  {
    if i < k {
      if edits[i].oldText == "" {
        BatchRefusedByOne(f, edits, i + 1, k, text, total, details, mid);
      } else {
        var one := f(text, edits[i]);
        BatchRefusedByOne(f, edits, i + 1, k, one.text, total + one.replacements,
                          details + [Detail(i, one.replacements, one.fuzzy)], mid);
      }
    }
  }

  /** The artifact directory of one task. */
  class Workspace {
    const limits: Limits
    const matcher: Matcher
    var files: map<string, string>

    constructor (limits: Limits, matcher: Matcher)
      ensures this.limits == limits && this.matcher == matcher && files == map[]
    {
      this.limits := limits;
      this.matcher := matcher;
      files := map[];
    }

    /** A refused write changes nothing. */
    method Write(path: string, content: string) returns (ok: bool, chunksWritten: nat)
      modifies this
      ensures ok <==> WriteAccepted(limits, content)
      ensures files == if ok then old(files)[path := Written(limits, content)] else old(files)
      ensures ok ==> Bytes(files[path]) <= limits.maxFile + 2 * (chunksWritten - 1)
      ensures ok ==> Ink(files[path]) == Ink(content)
    {
      hide SizeOk, Join, SumBytes, Bytes, Ink, WriteAccepted, Written, AllFit;
      if WriteAccepted(limits, content) { WriteBound(limits, content); }
      WriteCases(limits, content);
      var chunks := SplitLongText(content, limits.chunkChars);
      if chunks == [] {
        ok, chunksWritten := SizeOk(limits, content, 0), 1;
        if ok { files := files[path := content]; }
        return;
      }
      var parts: seq<string> := [];
      var existing: nat := 0;
      NothingFits(limits, chunks);
      for i := 0 to |chunks|
        invariant parts == chunks[..i] && existing == SumBytes(chunks[..i])
        invariant AllFit(limits, chunks[..i])
        invariant files == old(files)
      {
        OneMoreFits(limits, chunks, i);
        if !SizeOk(limits, chunks[i], existing) {
          MisfitRefuses(limits, chunks, i + 1);
          return false, 0;
        }
        parts := parts + [chunks[i]];
        existing := existing + Bytes(chunks[i]);
      }
      assert chunks[..|chunks|] == chunks;
      files := files[path := Join(BLANK, parts)];
      return true, |chunks|;
    }

    /** One chunk, behind its separator, through the open file handle. */
    method AppendChunk(path: string, separator: string, chunk: string)
      requires path in files && (separator == BLANK || separator == "")
      modifies this
      ensures files == old(files)[path := old(files)[path] + separator + chunk]
    {
      if separator == BLANK {
        files := files[path := files[path] + BLANK];
      } else {
        assert files[path] + separator == files[path];
      }
      files := files[path := files[path] + chunk];
    }

    /** Appends chunk by chunk until a size check fails. */
    method AppendChunks(path: string, existing: string, first: string, chunks: seq<string>) returns (n: nat)
      requires path in files && files[path] == existing
      requires first == BLANK || first == ""
      modifies this
      ensures n == Accepted(limits, existing, first, chunks, 0)
      ensures files == old(files)[path := Appended(existing, first, chunks[..n])]
    {
      hide Accepted, Appended, SizeOk, Bytes, Separator;
      ghost var goal := Accepted(limits, existing, first, chunks, 0);
      ghost var text := existing;
      var current := Bytes(existing);
      AppendedNothing(existing, first, chunks);
      n := 0;
      while n < |chunks|
        invariant n <= |chunks| && Accepted(limits, existing, first, chunks, n) == goal
        invariant text == Appended(existing, first, chunks[..n]) && current == Bytes(text)
        invariant files == old(files)[path := text]
      {
        AcceptedUnfold(limits, existing, first, chunks, n);
        if !SizeOk(limits, chunks[n], current) { return; }
        AppendOne(existing, first, chunks, n);
        var separator := Separator(first, n);
        SeparatorIsBlankOrNone(first, n);
        AppendChunk(path, separator, chunks[n]);
        current := current + Bytes(separator) + Bytes(chunks[n]);
        text := Appended(existing, first, chunks[..n + 1]);
        n := n + 1;
      }
      AcceptedUnfold(limits, existing, first, chunks, n);
    }

    function TextOf(fs: map<string, string>, path: string): string {
      if path in fs then fs[path] else ""
    }

    /** A refusal half way leaves the chunks before it in the file. The file is created even when
        the first chunk is refused. */
    method AppendAll(path: string, chunks: seq<string>) returns (ok: bool, chunksWritten: nat)
      modifies this
      ensures files == old(files)[path := AppendedFile(limits, TextOf(old(files), path), chunks).0]
      ensures ok == AppendedFile(limits, TextOf(old(files), path), chunks).1
    {
      hide Accepted, Appended, SizeOk, FirstSeparator;
      var existing := TextOf(files, path);
      ghost var before := files;
      files := files[path := existing];
      FirstSeparatorIsBlankOrNone(existing);
      chunksWritten := AppendChunks(path, existing, FirstSeparator(existing), chunks);
      ok := chunksWritten == |chunks|;
      assert before[path := existing][path := files[path]] == before[path := files[path]];
    }

    method Append(path: string, content: string) returns (ok: bool, chunksWritten: nat)
      modifies this
      ensures content == "" ==> ok && files == old(files)
      ensures content != "" ==>
        var r := AppendedFile(limits, TextOf(old(files), path), Split(content, limits.chunkChars));
        files == old(files)[path := r.0] && ok == r.1
    {
      var chunks := SplitLongText(content, limits.chunkChars);
      if chunks == [] { return true, 0; }
      ok, chunksWritten := AppendAll(path, chunks);
    }

    /** Any failure, in whichever edit of a batch, leaves every file as it was. */
    method EditFile(path: string, batch: seq<Edit>, single: Edit, dryRun: bool) returns (r: EditOutcome)
      modifies this
      ensures path !in old(files) <==> r.EditMissing?
      ensures path in old(files) ==>
        var result := EditedText(matcher, old(files)[path], batch, single);
        && (result.None? <==> r.EditRefused?)
        && (result.Some? ==>
              r == if SizeOk(limits, result.value.0, 0) then EditOk(result.value.0, result.value.1) else EditTooLarge)
      ensures files == if r.EditOk? && !dryRun then old(files)[path := r.text] else old(files)
    {
      if path !in files { return EditMissing; }
      var original := files[path];
      var updated, replacements := original, 0;
      if batch != [] {
        var all := ApplyBatchEdits(matcher, original, batch);
        if all.BatchFailed? { return EditRefused; }
        updated, replacements := all.text, all.total;
      } else {
        if single.oldText == "" && single.startLine.None? && single.endLine.None? { return EditRefused; }
        var one := ApplyPrecisionEdit(matcher, original, ResolveOldText(original, single));
        if one.Failed? { return EditRefused; }
        updated, replacements := one.text, one.replacements;
      }
      if !SizeOk(limits, updated, 0) { return EditTooLarge; }
      if !dryRun { files := files[path := updated]; }
      return EditOk(updated, replacements);
    }
  }

  /** An accepted write, unchunked and in chunks. */
  lemma WriteCases(l: Limits, content: string)
    ensures var chunks := Split(content, l.chunkChars);
      if chunks == [] then (WriteAccepted(l, content) <==> SizeOk(l, content, 0)) && Written(l, content) == content
      else (WriteAccepted(l, content) <==> AllFit(l, chunks)) && Written(l, content) == Join(BLANK, chunks)
  {
    hide Split, SizeOk, Join;
  }

  lemma NothingFits(l: Limits, chunks: seq<string>)
    ensures SumBytes(chunks[..0]) == 0 && AllFit(l, chunks[..0])
  {
  }

  lemma OneMoreFits(l: Limits, chunks: seq<string>, i: nat)
    requires i < |chunks|
    ensures SumBytes(chunks[..i + 1]) == SumBytes(chunks[..i]) + Bytes(chunks[i])
    ensures AllFit(l, chunks[..i + 1]) <==> AllFit(l, chunks[..i]) && SizeOk(l, chunks[i], SumBytes(chunks[..i]))
  {
    assert chunks[..i + 1][..i] == chunks[..i];
  }

  lemma {:induction false} MisfitRefuses(l: Limits, chunks: seq<string>, k: nat)
    requires k <= |chunks| && !AllFit(l, chunks[..k])
    ensures !AllFit(l, chunks)
    decreases |chunks| - k
  {
    if k < |chunks| {
      assert chunks[..k + 1][..k] == chunks[..k];
      MisfitRefuses(l, chunks, k + 1);
    } else {
      assert chunks[..k] == chunks;
    }
  }
}
