/** Splitting a long text into chunks before it is written. */
module TextChunks {
  import opened Basics
  import opened PyText

  /** The chunk size in force: the setting, but at least one character. */
  function ChunkChars(setting: int): (n: nat)
    ensures n >= 1
  {
    Max(1, setting)
  }

  /** The last paragraph, line, sentence or word break in a window, or -1. */
  function LastBreak(window: string): (r: int)
    ensures -1 <= r < |window|
  {
    var below := |window| + 1;
    Max(Max(RFind(window, "\n\n", below), RFind(window, "\n", below)),
        Max(RFind(window, "\U{3002}", below), RFind(window, " ", below)))
  }

  /** Where the chunk that starts at `cursor` ends. Every chunk but the last takes at least a
      third of the chunk size and one character more. */
  function CutEnd(content: string, cursor: nat, chunk: nat): (end: nat)
    requires cursor < |content| && chunk >= 1
    ensures cursor < end <= |content| && end <= cursor + chunk
    ensures end < |content| ==> end - cursor >= chunk / 3 + 1
  {
    var end := if cursor + chunk < |content| then cursor + chunk else |content|;
    if end < |content| && LastBreak(content[cursor..end]) >= Max(200, chunk / 3)
    then cursor + LastBreak(content[cursor..end]) + 1
    else end
  }

  /** The stretches of text between the cuts, from `cursor` on. */
  function Windows(content: string, cursor: nat, chunk: nat): seq<string>
    requires cursor <= |content| && chunk >= 1
    decreases |content| - cursor
  {
    if cursor == |content| then []
    else
      var end := CutEnd(content, cursor, chunk);
      [content[cursor..end]] + Windows(content, end, chunk)
  }

  /** The windows with `clean` applied, those it leaves empty dropped. */
  function Cleaned(clean: string -> string, windows: seq<string>): (chunks: seq<string>)
    ensures |chunks| <= |windows|
  {
    if windows == [] then []
    else
      var s := clean(windows[0]);
      (if s == "" then [] else [s]) + Cleaned(clean, windows[1..])
  }

  function Split(content: string, setting: int): seq<string> {
    var chunk := ChunkChars(setting);
    if content == "" then []
    else if |content| <= chunk then [content]
    else
      var chunks := Cleaned(Strip, Windows(content, 0, chunk));
      if chunks == [] then [content] else chunks
  }

  lemma CleanedUnfold(clean: string -> string, content: string, cursor: nat, chunk: nat, end: nat)
    requires cursor < |content| && chunk >= 1 && end == CutEnd(content, cursor, chunk)
    ensures Cleaned(clean, Windows(content, cursor, chunk))
         == (if clean(content[cursor..end]) == "" then [] else [clean(content[cursor..end])])
            + Cleaned(clean, Windows(content, end, chunk))
  {
    assert Windows(content, cursor, chunk)[1..] == Windows(content, end, chunk);
  }

  method NextCut(content: string, cursor: nat, chunk: nat) returns (end: nat)
    requires cursor < |content| && chunk >= 1
    ensures end == CutEnd(content, cursor, chunk) && cursor < end <= |content|
  {
    end := if cursor + chunk < |content| then cursor + chunk else |content|;
    if end < |content| {
      var lastBreak := LastBreak(content[cursor..end]);
      if lastBreak >= Max(200, chunk / 3) {
        end := cursor + lastBreak + 1;
      }
    }
  }

  lemma StripUnfold(content: string, cursor: nat, chunk: nat, end: nat, s: string)
    requires cursor < |content| && chunk >= 1 && end == CutEnd(content, cursor, chunk)
    requires s == Strip(content[cursor..end])
    ensures Cleaned(Strip, Windows(content, cursor, chunk))
         == (if s == "" then [] else [s]) + Cleaned(Strip, Windows(content, end, chunk))
  {
    CleanedUnfold(Strip, content, cursor, chunk, end);
  }

  lemma Associate(a: seq<string>, b: seq<string>, c: seq<string>)
    ensures a + (b + c) == (a + b) + c
  {
  }

  method CutAndClean(content: string, chunk: nat) returns (chunks: seq<string>)
    requires chunk >= 1
    ensures chunks == Cleaned(Strip, Windows(content, 0, chunk))
  {
    chunks := [];
    var cursor: nat := 0;
    ghost var rest := Cleaned(Strip, Windows(content, 0, chunk));
    ghost var goal := rest;
    while cursor < |content|
      invariant cursor <= |content|
      invariant rest == Cleaned(Strip, Windows(content, cursor, chunk))
      invariant chunks + rest == goal
    {
      var end := NextCut(content, cursor, chunk);
      var cleaned := Strip(content[cursor..end]);
      StripUnfold(content, cursor, chunk, end, cleaned);
      rest := Cleaned(Strip, Windows(content, end, chunk));
      if cleaned != "" {
        Associate(chunks, [cleaned], rest);
        chunks := chunks + [cleaned];
      } else {
        assert [] + rest == rest;
      }
      cursor := end;
    }
  }

  method SplitLongText(content: string, setting: int) returns (chunks: seq<string>)
    ensures chunks == Split(content, setting)
  {
    if content == "" { return []; }
    var chunk := ChunkChars(setting);
    if |content| <= chunk { return [content]; }
    chunks := CutAndClean(content, chunk);
    if chunks == [] { chunks := [content]; }
  }

  // ----- nothing is lost -----

  /** The chunks in order with one gap before each of them and one after the last. */
  function Weave(gaps: seq<string>, chunks: seq<string>): string
    requires |gaps| == |chunks| + 1
  {
    if chunks == [] then gaps[0] else gaps[0] + chunks[0] + Weave(gaps[1..], chunks[1..])
  }

  predicate AllBlank(gaps: seq<string>) {
    gaps == [] || (AllSpace(gaps[0]) && AllBlank(gaps[1..]))
  }

  /** The chunks lie in the text one after the other, with only whitespace before, between and
      after them. */
  ghost predicate Covers(text: string, chunks: seq<string>, gaps: seq<string>) {
    |gaps| == |chunks| + 1 && AllBlank(gaps) && Weave(gaps, chunks) == text
  }

  lemma CoversAfterSpace(space: string, text: string, chunks: seq<string>, gaps: seq<string>) returns (more: seq<string>)
    requires AllSpace(space) && Covers(text, chunks, gaps)
    ensures Covers(space + text, chunks, more)
  {
    more := [space + gaps[0]] + gaps[1..];
    assert more[1..] == gaps[1..];
    InkConcat(space, gaps[0]);
    if chunks != [] {
      var rest := Weave(gaps[1..], chunks[1..]);
      assert space + (gaps[0] + chunks[0] + rest) == space + gaps[0] + chunks[0] + rest;
    }
  }

  lemma CoversOne(text: string)
    ensures Covers(text, [text], ["", ""])
  {
    assert [text][1..] == [] && ["", ""][1..] == [""] && [""][1..] == [];
    assert "" + text + "" == text;
  }

  lemma CoversCons(lead: string, chunk: string, text: string, chunks: seq<string>, gaps: seq<string>)
    requires AllSpace(lead) && Covers(text, chunks, gaps)
    ensures Covers(lead + chunk + text, [chunk] + chunks, [lead] + gaps)
  {
    assert ([chunk] + chunks)[1..] == chunks && ([lead] + gaps)[1..] == gaps;
  }

  function Glue(windows: seq<string>): string {
    if windows == [] then "" else windows[0] + Glue(windows[1..])
  }

  lemma {:induction false} WindowsGlue(content: string, cursor: nat, chunk: nat)
    requires cursor <= |content| && chunk >= 1
    ensures Glue(Windows(content, cursor, chunk)) == content[cursor..]
    decreases |content| - cursor
  {
    if cursor < |content| {
      var end := CutEnd(content, cursor, chunk);
      WindowsGlue(content, end, chunk);
      assert Windows(content, cursor, chunk)[1..] == Windows(content, end, chunk);
    }
  }

  /** `s` is `w` without `lead` characters at the front and what is left over at the end. */
  ghost predicate SitsAt(w: string, lead: nat, s: string) {
    && lead + |s| <= |w| && w[lead..lead + |s|] == s
    && AllSpace(w[..lead]) && AllSpace(w[lead + |s|..])
  }

  /** `s` is `w` without some whitespace at its ends, and is empty only if nothing else is in `w`. */
  ghost predicate TrimsTo(w: string, s: string) {
    && (exists lead: nat :: SitsAt(w, lead, s))
    && (s == "" <==> AllSpace(w))
  }

  ghost predicate Trimmer(clean: string -> string) {
    forall w :: TrimsTo(w, clean(w))
  }

  lemma StripTrims()
    ensures Trimmer(Strip)
  {
    forall w ensures TrimsTo(w, Strip(w)) {
      var lead := StripCuts(w);
      assert SitsAt(w, lead, Strip(w));
    }
  }

  lemma CoverWindow(a: string, s: string, b: string, rest: string, chunks: seq<string>, gaps: seq<string>, all: string)
    returns (more: seq<string>)
    requires AllSpace(a) && AllSpace(b) && Covers(rest, chunks, gaps) && all == a + s + b + rest
    ensures Covers(all, [s] + chunks, more)
  {
    var tailGaps := CoversAfterSpace(b, rest, chunks, gaps);
    CoversCons(a, s, b + rest, chunks, tailGaps);
    more := [a] + tailGaps;
    assert a + s + (b + rest) == all;
  }

  lemma CoverCleaned(w: string, rest: string, s: string, chunks: seq<string>, gaps: seq<string>) returns (more: seq<string>)
    requires TrimsTo(w, s) && Covers(rest, chunks, gaps)
    ensures Covers(w + rest, (if s == "" then [] else [s]) + chunks, more)
  {
    hide Covers, AllSpace;
    if s == "" {
      more := CoversAfterSpace(w, rest, chunks, gaps);
      assert [] + chunks == chunks;
    } else {
      var lead: nat :| SitsAt(w, lead, s);
      var a, b := w[..lead], w[lead + |s|..];
      assert w == a + s + b;
      more := CoverWindow(a, s, b, rest, chunks, gaps, w + rest);
    }
  }

  lemma {:induction false} CleanedCovers(clean: string -> string, windows: seq<string>) returns (gaps: seq<string>)
    requires Trimmer(clean)
    ensures Covers(Glue(windows), Cleaned(clean, windows), gaps)
  {
    if windows == [] {
      gaps := [""];
      assert gaps[1..] == [];
    } else {
      var rest := CleanedCovers(clean, windows[1..]);
      var w := windows[0];
      assert TrimsTo(w, clean(w));
      gaps := CoverCleaned(w, Glue(windows[1..]), clean(w), Cleaned(clean, windows[1..]), rest);
    }
  }

  /** Splitting never loses, duplicates or reorders anything but whitespace between chunks. */
  lemma SplitCovers(content: string, setting: int) returns (gaps: seq<string>)
    ensures Covers(content, Split(content, setting), gaps)
  {
    var chunk := ChunkChars(setting);
    if content == "" {
      gaps := [""];
      assert gaps[1..] == [];
    } else if |content| > chunk && Cleaned(Strip, Windows(content, 0, chunk)) != [] {
      WindowsGlue(content, 0, chunk);
      StripTrims();
      gaps := CleanedCovers(Strip, Windows(content, 0, chunk));
      assert content[0..] == content;
    } else {
      CoversOne(content);
      gaps := ["", ""];
    }
  }

  lemma {:induction false} CoveredInk(text: string, chunks: seq<string>, gaps: seq<string>)
    requires Covers(text, chunks, gaps)
    ensures Ink(Flatten(chunks)) == Ink(text)
    decreases |chunks|
  {
    if chunks != [] {
      var rest := Weave(gaps[1..], chunks[1..]);
      CoveredInk(rest, chunks[1..], gaps[1..]);
      FlattenFront(chunks);
      InkConcat(chunks[0], Flatten(chunks[1..]));
      InkConcat(gaps[0] + chunks[0], rest);
      InkConcat(gaps[0], chunks[0]);
    }
  }

  lemma FlattenFront(parts: seq<string>)
    requires parts != []
    ensures Flatten(parts) == parts[0] + Flatten(parts[1..])
  {
    FlattenConcat([parts[0]], parts[1..]);
    assert parts == [parts[0]] + parts[1..];
    assert Flatten([parts[0]]) == Flatten([]) + parts[0];
  }

  /** The characters that are not whitespace survive splitting, in order. */
  lemma SplitKeepsInk(content: string, setting: int)
    ensures Ink(Flatten(Split(content, setting))) == Ink(content)
  {
    var gaps := SplitCovers(content, setting);
    CoveredInk(content, Split(content, setting), gaps);
  }

  // ----- sizes -----

  lemma {:induction false} WindowsFit(content: string, cursor: nat, chunk: nat, i: nat)
    requires cursor <= |content| && chunk >= 1 && i < |Windows(content, cursor, chunk)|
    ensures |Windows(content, cursor, chunk)[i]| <= chunk
    decreases |content| - cursor
  {
    if i > 0 {
      WindowsFit(content, CutEnd(content, cursor, chunk), chunk, i - 1);
    }
  }

  lemma {:induction false} CleanedFit(clean: string -> string, windows: seq<string>, chunk: nat, i: nat)
    requires Trimmer(clean)
    requires forall j :: 0 <= j < |windows| ==> |windows[j]| <= chunk
    requires i < |Cleaned(clean, windows)|
    ensures 1 <= |Cleaned(clean, windows)[i]| <= chunk
  {
    assert TrimsTo(windows[0], clean(windows[0]));
    if clean(windows[0]) == "" {
      CleanedFit(clean, windows[1..], chunk, i);
    } else if i > 0 {
      CleanedFit(clean, windows[1..], chunk, i - 1);
    }
  }

  lemma {:induction false} BlankIffNoChunks(clean: string -> string, windows: seq<string>)
    requires Trimmer(clean)
    ensures Cleaned(clean, windows) == [] <==> AllSpace(Glue(windows))
  {
    if windows != [] {
      BlankIffNoChunks(clean, windows[1..]);
      assert TrimsTo(windows[0], clean(windows[0]));
      InkConcat(windows[0], Glue(windows[1..]));
    }
  }

  /** Every chunk is non-empty, and longer than the chunk size only when the whole text is one
      overlong stretch of whitespace. */
  lemma SplitChunkSizes(content: string, setting: int, i: nat)
    requires i < |Split(content, setting)|
    ensures var c := Split(content, setting)[i];
      && c != ""
      && (|c| > ChunkChars(setting) <==> AllSpace(content) && |content| > ChunkChars(setting))
  {
    var chunk := ChunkChars(setting);
    var windows := Windows(content, 0, chunk);
    WindowsGlue(content, 0, chunk);
    assert content[0..] == content;
    StripTrims();
    BlankIffNoChunks(Strip, windows);
    if |content| > chunk && !AllSpace(content) {
      forall j | 0 <= j < |windows| ensures |windows[j]| <= chunk { WindowsFit(content, 0, chunk, j); }
      CleanedFit(Strip, windows, chunk, i);
    }
  }

  lemma {:induction false} WindowCount(content: string, cursor: nat, chunk: nat, d: nat)
    requires cursor < |content| && chunk >= 1 && d == chunk / 3 + 1
    ensures (|Windows(content, cursor, chunk)| - 1) * d < |content| - cursor
    decreases |content| - cursor
  {
    var end := CutEnd(content, cursor, chunk);
    if end < |content| {
      WindowCount(content, end, chunk, d);
      OneMoreWindow(|Windows(content, end, chunk)|, d, end - cursor, |content| - end);
    } else {
      assert Windows(content, end, chunk) == [];
    }
  }

  lemma OneMoreWindow(n: nat, d: nat, taken: nat, rest: nat)
    requires (n - 1) * d < rest && taken >= d
    ensures n * d < taken + rest
  {
    assert n * d == (n - 1) * d + d;
  }

  lemma OverQuotient(a: nat, d: nat, n: nat)
    requires d >= 1 && a >= n / d + 1
    ensures a * d > n
  {
    var k := a - (n / d + 1);
    assert a * d == (n / d) * d + d + k * d;
    assert k * d >= 0;
  }

  lemma DivBound(a: nat, d: nat, n: nat)
    requires d >= 1 && a * d < n
    ensures a <= n / d
  {
    if a >= n / d + 1 {
      OverQuotient(a, d, n);
    }
  }

  /** A text never becomes more chunks than its length warrants. */
  lemma SplitCount(content: string, setting: int)
    ensures |Split(content, setting)| <= |content| / (ChunkChars(setting) / 3 + 1) + 1
  {
    var chunk := ChunkChars(setting);
    if content != "" {
      WindowCount(content, 0, chunk, chunk / 3 + 1);
      DivBound(|Windows(content, 0, chunk)| - 1, chunk / 3 + 1, |content|);
    }
  }

  // ----- where the text is cut -----

  predicate IsBreak(c: char) { c == '\n' || c == '\U{3002}' || c == ' ' }

  /** A newline, full stop or space of the chunk at `a`, past its first 200 characters and its first third. */
  predicate BreaksAt(content: string, a: nat, chunk: nat, k: int) {
    a + 200 <= k && a + chunk / 3 <= k < a + chunk && k < |content| && IsBreak(content[k])
  }

  /** A window from `a` to `b`: all that is left if it fits the chunk size; else it ends behind the last
      such break if there is one, and takes the whole chunk if there is none. */
  ghost predicate CutsWell(content: string, a: nat, b: nat, chunk: nat) {
    && a < b <= |content|
    && (|content| <= a + chunk ==> b == |content|)
    && (a + chunk < |content| ==>
          && b <= a + chunk
          && (forall k :: b <= k < a + chunk ==> !BreaksAt(content, a, chunk, k))
          && (BreaksAt(content, a, chunk, b - 1)
              || (b == a + chunk && forall k :: a <= k < b ==> !BreaksAt(content, a, chunk, k))))
  }

  lemma LastOfChar(window: string, c: char)
    ensures var r := RFind(window, [c], |window| + 1);
      && -1 <= r < |window| && (r >= 0 ==> window[r] == c)
      && forall k :: r < k < |window| ==> window[k] != c
  {
    hide RFind, MatchAt;
    var r := RFind(window, [c], |window| + 1);
    if r >= 0 {
      OneCharMatch(window, r, c);
    }
    forall k | r < k < |window| ensures window[k] != c {
      OneCharMatch(window, k, c);
      if window[k] == c {
        RFindIsRightmost(window, [c], |window| + 1, k);
      }
    }
  }

  lemma OneCharMatch(t: string, i: nat, c: char)
    ensures MatchAt(t, i, [c]) <==> i < |t| && t[i] == c
  {
    MatchIsSlice(t, i, [c]);
    if i < |t| {
      assert t[i..i + 1] == [t[i]];
    }
  }

  lemma LastBreakIsLast(window: string)
    ensures var r := LastBreak(window);
      && (r >= 0 ==> IsBreak(window[r]))
      && forall k :: r < k < |window| ==> !IsBreak(window[k])
  {
    var below := |window| + 1;
    LastOfChar(window, '\n');
    LastOfChar(window, '\U{3002}');
    LastOfChar(window, ' ');
    var p := RFind(window, "\n\n", below);
    if p >= 0 {
      MatchIsSlice(window, p, "\n\n");
      assert window[p] == window[p..p + 2][0] == '\n';
    }
  }

  lemma CutEndCutsWell(content: string, cursor: nat, chunk: nat)
    requires cursor < |content| && chunk >= 1
    ensures CutsWell(content, cursor, CutEnd(content, cursor, chunk), chunk)
  {
    hide LastBreak;
    if cursor + chunk < |content| {
      var window := content[cursor..cursor + chunk];
      LastBreakIsLast(window);
      var r := LastBreak(window);
      LastOfChunk(content, cursor, chunk, r);
      CutAtLast(content, cursor, chunk, r);
    }
  }

  /** The last break of the window, seen from the text. */
  ghost predicate LastIn(content: string, cursor: nat, chunk: nat, r: int)
    requires cursor + chunk < |content|
  {
    && -1 <= r < chunk && (r >= 0 ==> IsBreak(content[cursor + r]))
    && forall k :: cursor <= k < cursor + chunk && k > cursor + r ==> !IsBreak(content[k])
  }

  lemma LastOfChunk(content: string, cursor: nat, chunk: nat, r: int)
    requires cursor + chunk < |content|
    requires var window := content[cursor..cursor + chunk];
      && -1 <= r < |window| && (r >= 0 ==> IsBreak(window[r])) && forall k :: r < k < |window| ==> !IsBreak(window[k])
    ensures LastIn(content, cursor, chunk, r)
  {
    hide IsBreak;
    var window := content[cursor..cursor + chunk];
    forall k | cursor <= k < cursor + chunk && k > cursor + r ensures !IsBreak(content[k]) {
      assert content[k] == window[k - cursor];
    }
  }

  lemma CutAtLast(content: string, cursor: nat, chunk: nat, r: int)
    requires cursor + chunk < |content| && chunk >= 1 && LastIn(content, cursor, chunk, r)
    requires r == LastBreak(content[cursor..cursor + chunk])
    ensures CutsWell(content, cursor, CutEnd(content, cursor, chunk), chunk)
  {
    hide LastBreak, IsBreak;
  }

  /** Every window of a text starts where the one before it ended, and is cut well. */
  lemma {:induction false} WindowsCutWell(content: string, cursor: nat, chunk: nat, i: nat)
    requires cursor < |content| && chunk >= 1 && i < |Windows(content, cursor, chunk)|
    ensures var windows := Windows(content, cursor, chunk); var a := cursor + |Glue(windows[..i])|;
      && a + |windows[i]| <= |content| && windows[i] == content[a..a + |windows[i]|]
      && CutsWell(content, a, a + |windows[i]|, chunk)
    decreases |content| - cursor
  {
    hide CutsWell, CutEnd, Glue;
    var end := CutEnd(content, cursor, chunk);
    var first, rest := content[cursor..end], Windows(content, end, chunk);
    assert Windows(content, cursor, chunk) == [first] + rest;
    GluedNone(Windows(content, cursor, chunk));
    if i == 0 {
      CutEndCutsWell(content, cursor, chunk);
    } else {
      WindowsCutWell(content, end, chunk, i - 1);
      GlueCons(first, rest, i);
    }
  }

  lemma GluedNone(windows: seq<string>)
    ensures Glue(windows[..0]) == ""
  {
  }

  lemma GlueCons(first: string, rest: seq<string>, i: nat)
    requires 1 <= i <= |rest| + 1
    ensures |Glue(([first] + rest)[..i])| == |first| + |Glue(rest[..i - 1])|
  {
    assert ([first] + rest)[..i][1..] == rest[..i - 1];
  }

  /** A text that fits the chunk size is its own chunk, and so is one that is nothing but whitespace; the
      empty text has none. */
  lemma SplitWhole(content: string, setting: int)
    requires |content| <= 1 || |content| <= setting || AllSpace(content)
    ensures Split(content, setting) == if content == "" then [] else [content]
  {
    hide Windows, Cleaned;
    var chunk := ChunkChars(setting);
    if |content| > chunk {
      WindowsGlue(content, 0, chunk);
      assert content[0..] == content;
      StripTrims();
      BlankIffNoChunks(Strip, Windows(content, 0, chunk));
    }
  }

  /** The chunks of a text that is longer than the chunk size and not blank are its windows stripped,
      without those that are blank. */
  lemma SplitStripsWindows(content: string, setting: int, chunk: nat)
    requires chunk == (if setting < 1 then 1 else setting) && |content| > chunk && !AllSpace(content)
    ensures Split(content, setting) == Stripped(Windows(content, 0, chunk))
  {
    WindowsGlue(content, 0, chunk);
    assert content[0..] == content;
    StripTrims();
    BlankIffNoChunks(Strip, Windows(content, 0, chunk));
    CleanedIsStripped(Windows(content, 0, chunk));
  }

  function Stripped(windows: seq<string>): seq<string> {
    if windows == [] then []
    else (if AllSpace(windows[0]) then [] else [Strip(windows[0])]) + Stripped(windows[1..])
  }

  lemma {:induction false} CleanedIsStripped(windows: seq<string>)
    ensures Cleaned(Strip, windows) == Stripped(windows)
  {
    hide Strip, AllSpace;
    if windows != [] {
      CleanedIsStripped(windows[1..]);
      var lead := StripCuts(windows[0]);
    }
  }

  /** A chunk of a text that was cut has no whitespace around it. */
  lemma {:induction false} StrippedIsTight(windows: seq<string>, i: nat)
    requires i < |Stripped(windows)|
    ensures var c := Stripped(windows)[i]; c != "" && !IsSpace(c[0]) && !IsSpace(c[|c| - 1])
  {
    hide Strip, AllSpace;
    if windows != [] {
      var lead := StripCuts(windows[0]);
      StripIsTight(windows[0]);
      if AllSpace(windows[0]) {
        StrippedIsTight(windows[1..], i);
      } else if i > 0 {
        StrippedIsTight(windows[1..], i - 1);
      }
    }
  }
}
