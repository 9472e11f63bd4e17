/** Streaming the artifact text to the client while its JSON arguments are still arriving. */
module ArtifactStream {
  import opened Basics
  import opened PyText
  import opened ArgsParser
  import opened JsonStrings

  // ----- the text that is shown -----

  /** The greedy run of string characters and escape pairs that the fallback pattern captures. */
  function FieldRun(s: string, i: nat): string
    decreases |s| - i
  {
    if i >= |s| || s[i] == '"' then ""
    else if s[i] != '\\' then [s[i]] + FieldRun(s, i + 1)
    else if i + 1 < |s| then s[i..i + 2] + FieldRun(s, i + 2)
    else ""
  }

  /** Characters other than quotes and backslashes, and pairs of a backslash and any character. */
  predicate Units(r: string) {
    r == "" || (r[0] != '"' && r[0] != '\\' && Units(r[1..])) || (r[0] == '\\' && |r| >= 2 && Units(r[2..]))
  }

  /** The run is the longest one of such units: behind it the text ends, a quote stands, or a backslash
      without anything to pair it with. */
  lemma {:induction false} RunIsLongest(s: string, i: nat)
    requires i <= |s|
    ensures var r := FieldRun(s, i); var n := i + |r|;
      && n <= |s| && s[i..n] == r && Units(r)
      && (n == |s| || s[n] == '"' || (s[n] == '\\' && n + 1 == |s|))
    decreases |s| - i
  {
    hide FieldRun, Units;
    RunStep(s, i);
    if i < |s| && s[i] != '"' && !(s[i] == '\\' && i + 1 == |s|) {
      var j := if s[i] != '\\' then i + 1 else i + 2;
      RunIsLongest(s, j);
      UnitFirst(s[i..j], FieldRun(s, j));
      assert s[i..j] + s[j..j + |FieldRun(s, j)|] == s[i..j + |FieldRun(s, j)|];
    } else {
      NoUnits();
    }
  }

  lemma RunStep(s: string, i: nat)
    requires i <= |s|
    ensures FieldRun(s, i) ==
      if i == |s| || s[i] == '"' || (s[i] == '\\' && i + 1 == |s|) then ""
      else if s[i] != '\\' then s[i..i + 1] + FieldRun(s, i + 1)
      else s[i..i + 2] + FieldRun(s, i + 2)
  {
  }

  lemma NoUnits()
    ensures Units("")
  {
  }

  lemma UnitFirst(a: string, rest: string)
    requires Units(rest)
    requires (|a| == 1 && a[0] != '"' && a[0] != '\\') || (|a| == 2 && a[0] == '\\')
    ensures Units(a + rest)
  {
    assert (a + rest)[|a|..] == rest;
  }

  /** The regular-expression fallback: the raw run behind the leftmost key, through the JSON
      loader, which turns the empty run into the empty text. */
  function FieldText(load: string -> string, s: string): string {
    match ContentStart(s)
    case None => ""
    case Some(e) => if FieldRun(s, e) == "" then "" else load(FieldRun(s, e))
  }

  /** `extract_streaming_content`: the parser, then one-shot parsing, then the fallback. */
  function StreamingContent(hex: HexParser, load: string -> string, parsed: string, s: string): string {
    if parsed != "" then parsed
    else if Content(hex, s) != "" then Content(hex, s)
    else FieldText(load, s)
  }

  /** The fallback never contributes: where the parser finds nothing there is nothing to find. */
  lemma FallbackAddsNothing(hex: HexParser, load: string -> string, s: string)
    ensures StreamingContent(hex, load, Content(hex, s), s) == Content(hex, s)
  {
  }

  /** What the parser has comes first, then what one-shot parsing finds. */
  lemma ParserComesFirst(hex: HexParser, load: string -> string, parsed: string, s: string)
    ensures parsed != "" ==> StreamingContent(hex, load, parsed, s) == parsed
    ensures parsed == "" && Content(hex, s) != "" ==> StreamingContent(hex, load, parsed, s) == Content(hex, s)
  {
  }

  // ----- one emission -----

  /** The new cursor and the delta sent; an empty delta is not sent. */
  function EmitStep(text: string, seen: nat, cap: int, minDelta: int): (r: (nat, string)) {
    if |text| <= seen || seen >= cap then (seen, "")
    else
      var newLen := if |text| < cap then |text| else cap;
      if newLen - seen < minDelta && newLen < |text| then (seen, "")
      else (newLen, text[seen..newLen])
  }

  /** The emission keeps a cursor into a growing text exact. */
  lemma EmitKeepsCursor(shown: string, before: string, text: string, seen: nat, cap: int, minDelta: int)
    requires seen <= |before| && shown == before[..seen] && before <= text
    requires seen <= cap || seen == 0
    ensures var r := EmitStep(text, seen, cap, minDelta);
      && r.0 <= |text| && shown + r.1 == text[..r.0]
      && (r.0 <= cap || r.0 == 0)
      && (r.0 == |text| || r.0 >= cap || cap - r.0 < minDelta)
  {
    assert before[..seen] == text[..seen];
    var r := EmitStep(text, seen, cap, minDelta);
    if r.1 != "" {
      assert text[..seen] + text[seen..r.0] == text[..r.0];
    } else {
      assert shown + "" == shown;
    }
  }

  /** Something is sent exactly if there is new text below the cap, and it does not run into the cap with
      less than the minimum left; then it is all there is up to the cap. */
  lemma EmitSends(text: string, seen: nat, cap: int, minDelta: int)
    ensures var r := EmitStep(text, seen, cap, minDelta);
      && (r.1 != "" <==> seen < |text| && seen < cap && (|text| <= cap || cap - seen >= minDelta))
      && (r.1 == "" ==> r.0 == seen)
      && (r.1 != "" ==> r.0 == if |text| <= cap then |text| else cap)
  {
  }

  /** The side effects: the deltas pushed to the client. */
  class DeltaSink {
    var deltas: seq<string>

    constructor ()
      ensures deltas == []
    {
      deltas := [];
    }

    method EmitContentDeltas(text: string, seen: nat, cap: int, minDelta: int) returns (newSeen: nat)
      modifies this
      ensures newSeen == EmitStep(text, seen, cap, minDelta).0
      ensures deltas == old(deltas) + if EmitStep(text, seen, cap, minDelta).1 == "" then []
                                      else [EmitStep(text, seen, cap, minDelta).1]
      ensures Flatten(deltas) == Flatten(old(deltas)) + EmitStep(text, seen, cap, minDelta).1
    {
      assert Flatten(deltas) + "" == Flatten(deltas);
      assert deltas + [] == deltas;
      if |text| <= seen { return seen; }
      if seen >= cap { return seen; }
      var newLen := if |text| < cap then |text| else cap;
      var allowed := newLen - seen;
      if allowed < minDelta && newLen < |text| { return seen; }
      var chunk := text[seen..newLen];
      if chunk != "" {
        deltas := deltas + [chunk];
        assert deltas[..|deltas| - 1] == old(deltas);
      }
      return newLen;
    }
  }

  // ----- a whole stream -----

  /** The stream is cut at `k` outside an escape of its content, or before the content begins. */
  ghost predicate OutsideEscape(hex: HexParser, all: string, k: nat)
    requires k <= |all|
  {
    ContentStart(all[..k]).Some? ==> CleanCut(hex, all, ContentStart(all[..k]).value, k)
  }

  /** The content of a prefix cut outside an escape is a prefix of the content of any longer
      piece of the stream. */
  lemma ContentGrows(hex: HexParser, all: string, k: nat, m: nat)
    requires k <= m <= |all| && OutsideEscape(hex, all, k)
    ensures Content(hex, all[..k]) <= Content(hex, all[..m])
  {
    if ContentStart(all[..k]).Some? {
      var e := ContentStart(all[..k]).value;
      LeftmostStays(all[..k], all[..m], 0);
      CleanCutInPiece(hex, all, e, k, m);
      DecodeMonotone(hex, all[..m], e, k);
      assert all[..m][..k] == all[..k];
    }
  }

  ghost predicate CleanPieces(hex: HexParser, pieces: seq<string>) {
    forall j :: 0 <= j <= |pieces| ==>
      |Flatten(pieces[..j])| <= |Flatten(pieces)| && OutsideEscape(hex, Flatten(pieces), |Flatten(pieces[..j])|)
  }

  lemma FlattenPrefix(pieces: seq<string>, j: nat)
    requires j <= |pieces|
    ensures |Flatten(pieces[..j])| <= |Flatten(pieces)|
    ensures Flatten(pieces[..j]) == Flatten(pieces)[..|Flatten(pieces[..j])|]
  {
    FlattenConcat(pieces[..j], pieces[j..]);
    assert pieces[..j] + pieces[j..] == pieces;
  }

  lemma PiecesGrow(hex: HexParser, pieces: seq<string>, i: nat, j: nat)
    requires CleanPieces(hex, pieces) && i <= j <= |pieces|
    ensures Content(hex, Flatten(pieces[..i])) <= Content(hex, Flatten(pieces[..j]))
  {
    FlattenPrefix(pieces, i);
    FlattenPrefix(pieces, j);
    FlattenPrefix(pieces[..j], i);
    assert pieces[..j][..i] == pieces[..i];
    ContentGrows(hex, Flatten(pieces), |Flatten(pieces[..i])|, |Flatten(pieces[..j])|);
  }

  lemma NothingYet(hex: HexParser)
    ensures Content(hex, "") == ""
  {
    assert MatchEnd("", 0).None?;
  }

  lemma WholeGrows(hex: HexParser, pieces: seq<string>, i: nat)
    requires CleanPieces(hex, pieces) && i <= |pieces|
    ensures Content(hex, Flatten(pieces[..i])) <= Content(hex, Flatten(pieces))
  {
    PiecesGrow(hex, pieces, i, |pieces|);
    assert pieces[..|pieces|] == pieces;
  }

  /** The cursor is exact: what was sent is the text up to the cursor, the cursor is within the
      cap, and nothing below the cap is held back but a stretch shorter than the minimum delta. */
  ghost predicate CursorExact(sent: string, text: string, seen: nat, cap: int, minDelta: int) {
    && seen <= |text| && sent == text[..seen]
    && (seen <= cap || seen == 0)
    && (seen == |text| || seen >= cap || cap - seen < minDelta)
  }

  /** One turn of the streaming loop after a piece has been fed. */
  method EmitPiece(hex: HexParser, load: string -> string, parser: ArtifactArgsParser, sink: DeltaSink,
                   ghost before: string, seen: nat, cap: int, minDelta: int)
    returns (newSeen: nat)
    requires parser.Valid() && before <= Content(hex, parser.accumulated)
    requires CursorExact(Flatten(sink.deltas), before, seen, cap, minDelta)
    modifies parser, sink
    ensures parser.Valid() && parser.accumulated == old(parser.accumulated)
    ensures CursorExact(Flatten(sink.deltas), Content(hex, parser.accumulated), newSeen, cap, minDelta)
  {
    var parsed := parser.ContentSoFar(hex);
    FallbackAddsNothing(hex, load, parser.accumulated);
    var text := StreamingContent(hex, load, parsed, parser.accumulated);
    EmitKeepsCursor(Flatten(sink.deltas), before, text, seen, cap, minDelta);
    newSeen := sink.EmitContentDeltas(text, seen, cap, minDelta);
  }

  /** Feeding and emitting piece by piece until the argument cap. The deltas add up to exactly the
      first `seen` characters of the content received when the last of them was sent. */
  method StreamArtifact(hex: HexParser, load: string -> string, pieces: seq<string>, cap: int, minDelta: int, maxArgs: int)
    returns (sink: DeltaSink, seen: nat, shown: nat, capped: bool)
    requires CleanPieces(hex, pieces)
    ensures shown <= |pieces|
    ensures CursorExact(Flatten(sink.deltas), Content(hex, Flatten(pieces[..shown])), seen, cap, minDelta)
    ensures Flatten(sink.deltas) <= Content(hex, Flatten(pieces))
    ensures capped <==> shown < |pieces| && |Flatten(pieces[..shown + 1])| > maxArgs
    ensures !capped ==> shown == |pieces|
    ensures maxArgs >= 0 ==> |Flatten(pieces[..shown])| <= maxArgs
  {
    hide Content, OneShot, CursorExact, Flatten;
    var parser := new ArtifactArgsParser("");
    sink := new DeltaSink();
    seen, shown, capped := 0, 0, false;
    ghost var received, text := "", "";
    NothingYet(hex);
    NothingShown(pieces, cap, minDelta);
    while shown < |pieces|
      invariant maxArgs >= 0 ==> |received| <= maxArgs
      invariant shown <= |pieces| && !capped && received == Flatten(pieces[..shown]) && text == Content(hex, received)
      invariant parser.Valid() && parser.accumulated == received
      invariant CursorExact(Flatten(sink.deltas), text, seen, cap, minDelta)
      invariant fresh(parser) && fresh(sink)
    {
      var piece := pieces[shown];
      ShownNext(pieces, shown);
      if piece == "" {
        assert received + "" == received;
        shown := shown + 1;
        continue;
      }
      parser.FeedPiece(piece);
      if |parser.accumulated| > maxArgs {
        capped := true;
        break;
      }
      PiecesGrow(hex, pieces, shown, shown + 1);
      seen := EmitPiece(hex, load, parser, sink, text, seen, cap, minDelta);
      shown := shown + 1;
      received := received + piece;
      text := Content(hex, received);
    }
    WholeGrows(hex, pieces, shown);
    SentBeginsWhole(Flatten(sink.deltas), text, Content(hex, Flatten(pieces)), seen, cap, minDelta);
  }

  lemma NothingShown(pieces: seq<string>, cap: int, minDelta: int)
    ensures Flatten([]) == "" && Flatten(pieces[..0]) == "" && CursorExact("", "", 0, cap, minDelta)
  {
  }

  lemma ShownNext(pieces: seq<string>, i: nat)
    requires i < |pieces|
    ensures Flatten(pieces[..i + 1]) == Flatten(pieces[..i]) + pieces[i]
  {
    assert pieces[..i + 1][..i] == pieces[..i];
  }

  lemma SentBeginsWhole(sent: string, text: string, whole: string, seen: nat, cap: int, minDelta: int)
    requires CursorExact(sent, text, seen, cap, minDelta) && text <= whole
    ensures sent <= whole
  {
  }
}
