/** What the decoder makes of JSON strings as section 7 of RFC 8259 defines them, and how its
    result behaves when the text is cut off. */
module JsonStrings {
  import opened Basics
  import opened ArgsParser

  // ----- round trips -----

  /** One character of a JSON string in one of its spellings. */
  datatype Spelling =
    | Plain(c: char)
    | Short(letter: char)
    | Hex(digits: string)

  /** The two-character escapes; `/` may be escaped or not. */
  predicate IsShort(letter: char) {
    letter in {'"', '\\', '/', 'b', 'f', 'n', 'r', 't'}
  }

  predicate Legal(hex: HexParser, p: Spelling) {
    match p
    case Plain(c) => c != '"' && c != '\\'
    case Short(letter) => IsShort(letter)
    case Hex(digits) => |digits| == 4 && hex(digits).Some?
  }

  function Spell(p: Spelling): string {
    match p
    case Plain(c) => [c]
    case Short(letter) => ['\\', letter]
    case Hex(digits) => "\\u" + digits
  }

  function Meaning(hex: HexParser, p: Spelling): char
    requires Legal(hex, p)
  {
    match p
    case Plain(c) => c
    case Short(letter) => Unescape(letter)
    case Hex(digits) => hex(digits).value
  }

  function SpellAll(ps: seq<Spelling>): string {
    if ps == [] then "" else Spell(ps[0]) + SpellAll(ps[1..])
  }

  function Meanings(hex: HexParser, ps: seq<Spelling>): string
    requires forall p :: p in ps ==> Legal(hex, p)
  {
    if ps == [] then "" else [Meaning(hex, ps[0])] + Meanings(hex, ps[1..])
  }

  predicate NoHex(ps: seq<Spelling>) {
    forall p :: p in ps ==> !p.Hex?
  }

  /** The text in front of the cursor does not matter. */
  lemma {:induction false} DecodeShift(hex: HexParser, front: string, raw: string, i: nat)
    ensures Decode(hex, front + raw, |front| + i) == Decode(hex, raw, i)
    decreases |raw| - i
  {
    var all := front + raw;
    if i < |raw| && raw[i] != '"' {
      if i + 6 <= |raw| {
        assert all[|front| + i + 2..|front| + i + 6] == raw[i + 2..i + 6];
      }
      assert Token(hex, all, |front| + i) == Token(hex, raw, i);
      DecodeShift(hex, front, raw, i + Token(hex, raw, i).1);
    }
  }

  lemma DecodeOne(hex: HexParser, p: Spelling, tail: string)
    requires Legal(hex, p) && !p.Hex?
    ensures Decode(hex, Spell(p) + tail, 0) == [Meaning(hex, p)] + Decode(hex, tail, 0)
  {
    var raw := Spell(p) + tail;
    match p {
      case Plain(c) => assert raw[0] == c;
      case Short(letter) => assert raw[0] == '\\' && raw[1] == letter && letter != 'u';
    }
    assert Token(hex, raw, 0) == (Meaning(hex, p), |Spell(p)|);
    DecodeShift(hex, Spell(p), tail, 0);
  }

  /** Decoding takes spellings without `\u` off the front, whatever follows them. */
  lemma {:induction false} DecodeSpelled(hex: HexParser, ps: seq<Spelling>, rest: string)
    requires (forall p :: p in ps ==> Legal(hex, p)) && NoHex(ps)
    ensures Decode(hex, SpellAll(ps) + rest, 0) == Meanings(hex, ps) + Decode(hex, rest, 0)
  {
    if ps == [] {
      assert "" + rest == rest;
    } else {
      assert ps[0] in ps;
      DecodeSpelled(hex, ps[1..], rest);
      DecodeOne(hex, ps[0], SpellAll(ps[1..]) + rest);
      assert SpellAll(ps) + rest == Spell(ps[0]) + (SpellAll(ps[1..]) + rest);
    }
  }

  /** The escaping of a string with the two-character escapes only. */
  function EscapeChar(c: char): Spelling {
    match c
    case '"' => Short('"')
    case '\\' => Short('\\')
    case '\n' => Short('n')
    case '\t' => Short('t')
    case '\r' => Short('r')
    case '\U{08}' => Short('b')
    case '\U{0c}' => Short('f')
    case _ => Plain(c)
  }

  function Escape(s: string): (ps: seq<Spelling>)
    ensures NoHex(ps)
  {
    if s == "" then [] else [EscapeChar(s[0])] + Escape(s[1..])
  }

  lemma {:induction false} EscapeMeans(hex: HexParser, s: string)
    ensures forall p :: p in Escape(s) ==> Legal(hex, p)
    ensures Meanings(hex, Escape(s)) == s
  {
    if s != "" {
      EscapeMeans(hex, s[1..]);
    }
  }

  /** Decoding undoes short-escape encoding of every string, whether its closing quote has
      arrived, with anything after it, or not. */
  lemma RoundTrip(hex: HexParser, s: string, after: string)
    ensures Decode(hex, SpellAll(Escape(s)), 0) == s
    ensures Decode(hex, SpellAll(Escape(s)) + "\"" + after, 0) == s
  {
    EscapeMeans(hex, s);
    DecodeSpelled(hex, Escape(s), "");
    assert SpellAll(Escape(s)) + "" == SpellAll(Escape(s));
    DecodeSpelled(hex, Escape(s), "\"" + after);
    assert SpellAll(Escape(s)) + ("\"" + after) == SpellAll(Escape(s)) + "\"" + after;
    assert Decode(hex, "\"" + after, 0) == "";
    assert s + "" == s;
  }

  /** The same through the whole parser: the content of an argument object whose first field is
      a short-escape encoded `content`. */
  lemma ArgumentsRoundTrip(hex: HexParser, s: string, after: string)
    ensures Content(hex, "{\"content\":\"" + SpellAll(Escape(s)) + "\"" + after) == s
  {
    hide Decode, SpellAll, Escape, Search;
    var head := "{\"content\":\"";
    var body := SpellAll(Escape(s)) + "\"" + after;
    assert head + body == head + SpellAll(Escape(s)) + "\"" + after;
    HeadIsFound(head);
    LeftmostStays(head, head + body, 0);
    DecodeShift(hex, head, body, 0);
    RoundTrip(hex, s, after);
  }

  lemma HeadIsFound(head: string)
    requires head == "{\"content\":\""
    ensures Search(head, 0) == Some(12)
  {
    hide MatchEnd;
    assert head[1..10] == KEY;
    MatchFromShape(head, 1, 10, 12);
    NoKeyAt(head, 0);
  }

  lemma NoKeyAt(s: string, p: nat)
    requires p < |s| && s[p] != '"'
    ensures MatchEnd(s, p).None?
  {
    KeyCharacters();
  }

  // ----- cutting the text off -----

  /** What the hexadecimal reader never accepts: quotes and backslashes. */
  ghost predicate Digits(hex: HexParser) {
    forall d: string :: hex(d).Some? ==> '"' !in d && '\\' !in d
  }

  /** The end of the character or escape at `i`; a `\u` escape moves the cursor one further. */
  function EscapeEnd(hex: HexParser, raw: string, i: nat): nat
    requires i < |raw|
  {
    if Token(hex, raw, i).1 == 7 then i + 6 else i + Token(hex, raw, i).1
  }

  /** The decoder, starting at `i`, stands at `k` or behind an escape that ends at `k`, or has met
      the closing quote before `k`: cutting the text at `k` does not cut an escape. */
  predicate CleanCut(hex: HexParser, raw: string, i: nat, k: nat)
    decreases |raw| - i
  {
    if i >= k || i >= |raw| then i == k
    else raw[i] == '"' || k == EscapeEnd(hex, raw, i) || CleanCut(hex, raw, i + Token(hex, raw, i).1, k)
  }

  lemma {:induction false} CleanCutBounds(hex: HexParser, raw: string, i: nat, k: nat)
    requires CleanCut(hex, raw, i, k) && k <= |raw|
    ensures i <= k
    decreases |raw| - i
  {
  }

  /** Up to a clean cut the cut text has the same tokens as any longer piece of the text. */
  lemma TokenBeforeCut(hex: HexParser, raw: string, i: nat, k: nat)
    requires i < k <= |raw| && EscapeEnd(hex, raw, i) <= k
    ensures Token(hex, raw[..k], i) == Token(hex, raw, i)
  {
    if i + 6 <= k {
      assert raw[..k][i + 2..i + 6] == raw[i + 2..i + 6];
    }
  }

  /** Decoding is prefix-monotone at cuts outside an escape. */
  lemma {:induction false} DecodeMonotone(hex: HexParser, raw: string, i: nat, k: nat)
    requires CleanCut(hex, raw, i, k) && k <= |raw|
    ensures Decode(hex, raw[..k], i) <= Decode(hex, raw, i)
    decreases |raw| - i
  {
    if i < k && raw[i] != '"' {
      var n := Token(hex, raw, i).1;
      if k == EscapeEnd(hex, raw, i) {
        TokenBeforeCut(hex, raw, i, k);
      } else {
        CleanCutBounds(hex, raw, i + n, k);
        TokenBeforeCut(hex, raw, i, k);
        DecodeMonotone(hex, raw, i + n, k);
      }
    }
  }

  /** A cut that is clean in the whole text is clean in every piece of it that reaches the cut. */
  lemma {:induction false} CleanCutInPiece(hex: HexParser, raw: string, i: nat, k: nat, m: nat)
    requires CleanCut(hex, raw, i, k) && k <= m <= |raw|
    ensures CleanCut(hex, raw[..m], i, k)
    decreases |raw| - i
  {
    if i < k && raw[i] != '"' {
      var n := Token(hex, raw, i).1;
      if k == EscapeEnd(hex, raw, i) {
        TokenBeforeCut(hex, raw, i, m);
      } else {
        CleanCutBounds(hex, raw, i + n, k);
        TokenBeforeCut(hex, raw, i, m);
        CleanCutInPiece(hex, raw, i + n, k, m);
      }
    }
  }

  /** A cut after which the decoded text only grows: one outside an escape; one right behind the
      backslash of an escape for a backslash; or one further inside a `\u` escape for the letter
      `u`, if what is shown of its digits is also what is decoded behind it. */
  predicate SafeCut(hex: HexParser, raw: string, i: nat, k: nat)
    decreases |raw| - i
  {
    if i >= k || i >= |raw| || raw[i] == '"' || k == EscapeEnd(hex, raw, i) then true
    else if EscapeEnd(hex, raw, i) < k then SafeCut(hex, raw, i + Token(hex, raw, i).1, k)
    else if k == i + 1 then Token(hex, raw, i).0 == '\\'
    else Token(hex, raw, i).0 == 'u' && raw[i + 2..k] <= Decode(hex, raw, i + 7)
  }

  lemma {:induction false} UnquotedDecodes(hex: HexParser, text: string, i: nat)
    requires i <= |text| && forall j :: i <= j < |text| ==> text[j] != '"' && text[j] != '\\'
    ensures Decode(hex, text, i) == text[i..]
    decreases |text| - i
  {
    if i < |text| {
      UnquotedDecodes(hex, text, i + 1);
    }
  }

  lemma ConsPrefix(x: char, a: string, y: char, b: string)
    ensures [x] + a <= [y] + b <==> x == y && a <= b
  {
    if [x] + a <= [y] + b {
      assert ([x] + a)[0] == ([y] + b)[0];
      assert forall j :: 0 <= j < |a| ==> a[j] == ([x] + a)[j + 1] && b[j] == ([y] + b)[j + 1];
    }
  }

  /** Exactly when the text decoded from a beginning stays where it is as more arrives, for every
      text and every cut. */
  lemma {:induction false} DecodeMonotoneIff(hex: HexParser, raw: string, i: nat, k: nat)
    requires Digits(hex) && i <= k <= |raw|
    ensures Decode(hex, raw[..k], i) <= Decode(hex, raw, i) <==> SafeCut(hex, raw, i, k)
    decreases |raw| - i
  {
    if i == k || raw[i] == '"' {
      return;
    }
    var end := EscapeEnd(hex, raw, i);
    hide Decode, SafeCut, Token, EscapeEnd;
    if end == k {
      CutBehindEscape(hex, raw, i, k);
    } else if end < k {
      CutLater(hex, raw, i, k);
      DecodeMonotoneIff(hex, raw, i + Token(hex, raw, i).1, k);
    } else {
      CutInsideEscape(hex, raw, i, k);
    }
  }

  lemma CutBehindEscape(hex: HexParser, raw: string, i: nat, k: nat)
    requires i < k <= |raw| && raw[i] != '"' && EscapeEnd(hex, raw, i) == k
    ensures Decode(hex, raw[..k], i) <= Decode(hex, raw, i) && SafeCut(hex, raw, i, k)
  {
    TokenBeforeCut(hex, raw, i, k);
  }

  lemma CutLater(hex: HexParser, raw: string, i: nat, k: nat)
    requires i < k <= |raw| && raw[i] != '"' && EscapeEnd(hex, raw, i) < k
    ensures var n := i + Token(hex, raw, i).1;
      && i < n <= k && SafeCut(hex, raw, i, k) == SafeCut(hex, raw, n, k)
      && (Decode(hex, raw[..k], i) <= Decode(hex, raw, i) <==> Decode(hex, raw[..k], n) <= Decode(hex, raw, n))
  {
    hide Token;
    var t := Token(hex, raw, i);
    TokenLengths(hex, raw, i);
    TokenBeforeCut(hex, raw, i, k);
    ConsPrefix(t.0, Decode(hex, raw[..k], i + t.1), t.0, Decode(hex, raw, i + t.1));
  }

  lemma TokenLengths(hex: HexParser, raw: string, i: nat)
    requires i < |raw|
    ensures Token(hex, raw, i).1 in {1, 2, 7} && i < EscapeEnd(hex, raw, i) <= |raw|
    ensures Token(hex, raw, i).1 > 1 ==> raw[i] == '\\'
    ensures Token(hex, raw, i).1 == 1 && raw[i] == '\\' ==> i + 1 == |raw|
  {
  }

  lemma CutInsideEscape(hex: HexParser, raw: string, i: nat, k: nat)
    requires Digits(hex) && i < k <= |raw| && raw[i] != '"' && k < EscapeEnd(hex, raw, i)
    ensures Decode(hex, raw[..k], i) <= Decode(hex, raw, i) <==> SafeCut(hex, raw, i, k)
  {
    var t := Token(hex, raw, i);
    TokenLengths(hex, raw, i);
    if k == i + 1 {
      CutBackslash(hex, raw[..k], i);
      hide Token;
      ConsPrefix('\\', "", t.0, Decode(hex, raw, i + t.1));
    } else {
      CutHex(hex, raw, i, k);
      hide Token;
      ConsPrefix('u', raw[i + 2..k], t.0, Decode(hex, raw, i + 7));
    }
  }

  lemma CutBackslash(hex: HexParser, cut: string, i: nat)
    requires i + 1 == |cut| && cut[i] == '\\'
    ensures Decode(hex, cut, i) == ['\\'] + ""
  {
  }

  /** What shows of a `\u` escape that is cut inside. */
  lemma CutHex(hex: HexParser, raw: string, i: nat, k: nat)
    requires Digits(hex) && i < |raw| && i + 1 < k < i + 6 && k <= |raw| && Token(hex, raw, i).1 == 7
    ensures Decode(hex, raw[..k], i) == "u" + raw[i + 2..k]
  {
    var cut := raw[..k];
    DigitsAreUnquoted(hex, raw, i);
    UnquotedDecodes(hex, cut, i + 2);
    assert cut[i + 2..] == raw[i + 2..k];
  }

  lemma DigitsAreUnquoted(hex: HexParser, raw: string, i: nat)
    requires Digits(hex) && i < |raw| && Token(hex, raw, i).1 == 7
    ensures forall j :: i + 2 <= j < i + 6 ==> raw[j] != '"' && raw[j] != '\\'
  {
    var d := raw[i + 2..i + 6];
    assert hex(d).Some?;
    forall j | i + 2 <= j < i + 6 ensures raw[j] != '"' && raw[j] != '\\' {
      assert raw[j] == d[j - i - 2] && d[j - i - 2] in d;
    }
  }

  /** Cutting right after the backslash of a two-character escape shows the backslash itself, so
      the decoded text only grows from there when the escape stands for a backslash. */
  lemma CutInsideShortEscapeIff(hex: HexParser, before: seq<Spelling>, letter: char, rest: string)
    requires (forall p :: p in before ==> Legal(hex, p)) && NoHex(before) && IsShort(letter)
    ensures Decode(hex, SpellAll(before) + "\\", 0) <= Decode(hex, SpellAll(before) + Spell(Short(letter)) + rest, 0)
      <==> letter == '\\'
  {
    var m := Meanings(hex, before);
    DecodeSpelled(hex, before, "\\");
    DecodeSpelled(hex, before, Spell(Short(letter)) + rest);
    assert SpellAll(before) + (Spell(Short(letter)) + rest) == SpellAll(before) + Spell(Short(letter)) + rest;
    assert Decode(hex, "\\", 0) == "\\";
    DecodeShift(hex, Spell(Short(letter)), rest, 0);
    var whole := m + Decode(hex, Spell(Short(letter)) + rest, 0);
    assert (m + "\\")[|m|] == '\\' && whole[|m|] == Unescape(letter);
  }
}
