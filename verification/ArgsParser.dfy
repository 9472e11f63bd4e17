/** Incremental extraction of the `content` string from streaming tool-call arguments. */
module ArgsParser {
  import opened Basics
  import opened PyText

  /** `chr(int(digits, 16))` on the four characters after `\u`; None where it raises ValueError. */
  type HexParser = string -> Option<char>

  // ----- finding the content key -----

  const KEY := "\"content\""

  function SkipSpace(s: string, i: nat): (r: nat)
    requires i <= |s|
    ensures i <= r <= |s|
    ensures forall k :: i <= k < r ==> IsSpace(s[k])
    ensures r < |s| ==> !IsSpace(s[r])
    decreases |s| - i
  {
    if i < |s| && IsSpace(s[i]) then SkipSpace(s, i + 1) else i
  }

  /** The end of a match of `"content"\s*:\s*"` that starts at `p`, if there is one. */
  function MatchEnd(s: string, p: nat): Option<nat> {
    if !MatchAt(s, p, KEY) then None
    else
      var i := SkipSpace(s, p + |KEY|);
      if i == |s| || s[i] != ':' then None
      else
        var j := SkipSpace(s, i + 1);
        if j == |s| || s[j] != '"' then None else Some(j + 1)
  }

  /** The end of the leftmost match that starts at or after `p`. */
  function Search(s: string, p: nat): Option<nat>
    requires p <= |s|
    decreases |s| - p
  {
    if MatchEnd(s, p).Some? then MatchEnd(s, p)
    else if p == |s| then None
    else Search(s, p + 1)
  }

  lemma SkipSpaceStops(s: string, i: nat, r: nat)
    requires i <= r < |s| && !IsSpace(s[r])
    requires forall k :: i <= k < r ==> IsSpace(s[k])
    ensures SkipSpace(s, i) == r
  {
  }

  lemma KeyCharacters()
    ensures |KEY| == 9 && KEY[0] == '"' && KEY[1] == 'c' && KEY[8] == '"'
    ensures forall k :: 0 < k < 8 ==> KEY[k] != '"'
    ensures !IsSpace(':') && !IsSpace('"') && !IsSpace('c')
  {
  }

  /** The parts of a match. */
  lemma MatchShape(s: string, p: nat) returns (colon: nat)
    requires MatchEnd(s, p).Some?
    ensures var e := MatchEnd(s, p).value;
      && p + 9 <= colon && colon + 1 < e <= |s|
      && s[p..p + 9] == KEY && s[colon] == ':' && s[e - 1] == '"'
      && (forall k :: p + 9 <= k < colon || colon < k < e - 1 ==> IsSpace(s[k]))
      && (forall k :: p <= k < p + 9 ==> s[k] == KEY[k - p])
  {
    KeyCharacters();
    MatchIsSlice(s, p, KEY);
    colon := SkipSpace(s, p + 9);
    forall k | p <= k < p + 9 ensures s[k] == KEY[k - p] {
      assert s[p..p + 9][k - p] == s[k];
    }
  }

  lemma MatchFromShape(s: string, p: nat, colon: nat, e: nat)
    requires p + 9 <= colon && colon + 1 < e <= |s|
    requires s[p..p + 9] == KEY && s[colon] == ':' && s[e - 1] == '"'
    requires forall k :: p + 9 <= k < colon || colon < k < e - 1 ==> IsSpace(s[k])
    ensures MatchEnd(s, p) == Some(e)
  {
    KeyCharacters();
    MatchIsSlice(s, p, KEY);
    SkipSpaceStops(s, p + 9, colon);
    SkipSpaceStops(s, colon + 1, e - 1);
  }

  /** A match does not see what comes after it. */
  lemma MatchExtends(s: string, u: string, p: nat)
    requires s <= u && MatchEnd(s, p).Some?
    ensures MatchEnd(u, p) == MatchEnd(s, p)
  {
    var colon := MatchShape(s, p);
    assert u[p..p + 9] == s[p..p + 9];
    MatchFromShape(u, p, colon, MatchEnd(s, p).value);
  }

  lemma MatchShrinks(s: string, u: string, p: nat)
    requires s <= u && MatchEnd(u, p).Some? && MatchEnd(u, p).value <= |s|
    ensures MatchEnd(s, p) == MatchEnd(u, p)
  {
    var colon := MatchShape(u, p);
    assert u[p..p + 9] == s[p..p + 9];
    MatchFromShape(s, p, colon, MatchEnd(u, p).value);
  }

  /** A match that starts before another one also ends before the other one does: the opening
      quote of the later match would have to be the earlier one's own closing quote, and the `c`
      after it is neither whitespace nor a colon. */
  lemma EarlierMatchEndsEarlier(u: string, q: nat, p: nat)
    requires q < p && MatchEnd(u, q).Some? && MatchEnd(u, p).Some?
    ensures MatchEnd(u, q).value <= p + 1
  {
    KeyCharacters();
    var cq := MatchShape(u, q);
    var cp := MatchShape(u, p);
    assert u[p] == '"' && u[p + 1] == 'c';
  }

  /** The leftmost match found in a prefix stays leftmost in every extension. */
  lemma {:induction false} LeftmostStays(s: string, u: string, p: nat)
    requires s <= u && p <= |s| && Search(s, p).Some?
    ensures Search(u, p) == Search(s, p)
    decreases |s| - p
  {
    hide MatchEnd;
    if MatchEnd(s, p).Some? {
      MatchExtends(s, u, p);
    } else {
      LeftmostStays(s, u, p + 1);
      NoEarlierMatch(s, u, p);
    }
  }

  /** More text brings no match in front of one that is already there. */
  lemma NoEarlierMatch(s: string, u: string, p: nat)
    requires s <= u && p < |s| && MatchEnd(s, p).None? && Search(s, p + 1).Some?
    ensures MatchEnd(u, p).None?
  {
    hide MatchEnd, Search;
    if MatchEnd(u, p).Some? {
      var r := SearchStart(s, p + 1);
      MatchExtends(s, u, r);
      EarlierMatchEndsEarlier(u, p, r);
      var c := MatchShape(s, r);
      MatchShrinks(s, u, p);
    }
  }

  lemma {:induction false} SearchStart(s: string, p: nat) returns (r: nat)
    requires p <= |s| && Search(s, p).Some?
    ensures p <= r <= |s| && MatchEnd(s, r) == Search(s, p)
    decreases |s| - p
  {
    if MatchEnd(s, p).Some? { r := p; } else { r := SearchStart(s, p + 1); }
  }

  // ----- decoding -----

  function Unescape(c: char): char {
    match c
    case 'n' => '\n'
    case 't' => '\t'
    case 'r' => '\r'
    case 'b' => '\U{08}'
    case 'f' => '\U{0c}'
    case _ => c
  }

  /** The next decoded character and how far the cursor moves. A `\u` escape that parses moves
      it by seven, one more than the escape is long. */
  function Token(hex: HexParser, raw: string, i: nat): (r: (char, nat))
    requires i < |raw|
    ensures r.1 >= 1
  {
    if raw[i] == '\\' && i + 1 < |raw| then
      if raw[i + 1] == 'u' && i + 5 < |raw| && hex(raw[i + 2..i + 6]).Some?
      then (hex(raw[i + 2..i + 6]).value, 7)
      else (Unescape(raw[i + 1]), 2)
    else (raw[i], 1)
  }

  /** The string from `i` up to its closing quote, or as much of it as there is. */
  function Decode(hex: HexParser, raw: string, i: nat): string
    decreases |raw| - i
  {
    if i >= |raw| || raw[i] == '"' then ""
    else
      var t := Token(hex, raw, i);
      [t.0] + Decode(hex, raw, i + t.1)
  }

  method DecodeJsonStringPartial(hex: HexParser, raw: string, start: nat) returns (out: string)
    ensures out == Decode(hex, raw, start)
  {
    hide Decode;
    out := "";
    var i := start;
    ghost var goal := Decode(hex, raw, start);
    while i < |raw|
      invariant out + Decode(hex, raw, i) == goal
      decreases |raw| - i
    {
      var ch := raw[i];
      if ch == '"' { break; }
      DecodeStep(hex, raw, i, out);
      if ch == '\\' && i + 1 < |raw| {
        var next := raw[i + 1];
        if next == 'u' && i + 5 < |raw| {
          var code := hex(raw[i + 2..i + 6]);
          if code.Some? {
            out := out + [code.value];
            i := i + 5;
          } else {
            out := out + [next];
          }
        } else {
          out := out + [Unescape(next)];
        }
        i := i + 2;
      } else {
        out := out + [ch];
        i := i + 1;
      }
    }
    DecodeStops(hex, raw, i);
  }

  lemma DecodeStep(hex: HexParser, raw: string, i: nat, out: string)
    requires i < |raw| && raw[i] != '"'
    ensures out + Decode(hex, raw, i)
         == out + [Token(hex, raw, i).0] + Decode(hex, raw, i + Token(hex, raw, i).1)
  {
  }

  lemma DecodeStops(hex: HexParser, raw: string, i: nat)
    requires i >= |raw| || raw[i] == '"'
    ensures Decode(hex, raw, i) == ""
  {
  }

  // ----- the parser object -----

  /** What one-shot parsing of a text yields. */
  function ContentStart(s: string): Option<nat> { Search(s, 0) }

  function Content(hex: HexParser, s: string): string {
    match ContentStart(s)
    case None => ""
    case Some(e) => Decode(hex, s, e)
  }

  datatype Fields = Fields(accumulated: string, keySeen: bool, start: int)

  /** The fields as a function of everything fed so far. */
  function OneShot(s: string): Fields {
    match ContentStart(s)
    case None => Fields(s, false, -1)
    case Some(e) => Fields(s, true, e)
  }

  /** `feed`: an empty piece is ignored, and the key is searched for until it is found once. */
  function Feed(f: Fields, piece: string): Fields {
    if piece == "" then f
    else
      var s := f.accumulated + piece;
      if f.keySeen then f.(accumulated := s)
      else match Search(s, 0)
        case None => f.(accumulated := s)
        case Some(e) => Fields(s, true, e)
  }

  lemma FeedIsOneShot(s: string, piece: string)
    ensures Feed(OneShot(s), piece) == OneShot(s + piece)
  {
    if piece == "" {
      assert s + piece == s;
    } else if ContentStart(s).Some? {
      LeftmostStays(s, s + piece, 0);
    }
  }

  function FeedAll(pieces: seq<string>): Fields {
    if pieces == [] then Fields("", false, -1) else Feed(FeedAll(pieces[..|pieces| - 1]), pieces[|pieces| - 1])
  }

  /** However the stream is cut into pieces, the fields, and so the decoded content, are those of
      parsing the whole text at once. */
  lemma {:induction false} ChunkingIndependence(pieces: seq<string>)
    ensures FeedAll(pieces) == OneShot(Flatten(pieces))
  {
    if pieces == [] {
      assert MatchEnd("", 0).None?;
    } else {
      var n := |pieces| - 1;
      ChunkingIndependence(pieces[..n]);
      FeedIsOneShot(Flatten(pieces[..n]), pieces[n]);
    }
  }

  class ArtifactArgsParser {
    var accumulated: string
    var keySeen: bool
    var contentStart: int

    function State(): Fields
      reads this
    {
      Fields(accumulated, keySeen, contentStart)
    }

    /** Until the key has been seen the search may be behind the text, as it is for a parser
        that was created with text in it. */
    ghost predicate Valid()
      reads this
    {
      if keySeen then State() == OneShot(accumulated) else contentStart == -1
    }

    constructor (text: string)
      ensures Valid() && accumulated == text && !keySeen
    {
      accumulated, keySeen, contentStart := text, false, -1;
    }

    method FeedPiece(piece: string)
      requires Valid()
      modifies this
      ensures Valid() && State() == Feed(old(State()), piece)
      ensures accumulated == old(accumulated) + piece
      ensures piece != "" ==> State() == OneShot(accumulated)
    {
      hide Search;
      if piece != "" {
        if keySeen { FeedIsOneShot(accumulated, piece); }
        accumulated := accumulated + piece;
        if !keySeen {
          var found := Search(accumulated, 0);
          if found.Some? {
            keySeen := true;
            contentStart := found.value;
          }
        }
      } else {
        assert accumulated + piece == accumulated;
      }
    }

    method HasContentKey() returns (r: bool)
      requires Valid()
      modifies this
      ensures Valid() && State() == OneShot(accumulated) && accumulated == old(accumulated)
      ensures r <==> ContentStart(accumulated).Some?
    {
      hide Search;
      if keySeen { return true; }
      var found := Search(accumulated, 0);
      if found.Some? {
        keySeen := true;
        contentStart := found.value;
        return true;
      }
      return false;
    }

    method ContentSoFar(hex: HexParser) returns (r: string)
      requires Valid()
      modifies this
      ensures Valid() && State() == OneShot(accumulated) && accumulated == old(accumulated)
      ensures r == Content(hex, accumulated)
    {
      var seen := HasContentKey();
      if !seen { return ""; }
      r := DecodeJsonStringPartial(hex, accumulated, contentStart);
    }
  }
}
