/** What a parsed `\u` escape does to the rest of its string: the decoder moves its cursor by
    seven characters where the escape has six. */
module UnicodeEscapes {
  import opened Basics
  import opened ArgsParser
  import opened JsonStrings

  /** A `\u` escape that parses swallows the character after its four digits, be it the next
      letter, the start of the next escape or the closing quote. */
  lemma UnicodeEscapeSwallowsNext(hex: HexParser, digits: string, next: char, rest: string)
    requires Legal(hex, Hex(digits))
    ensures Decode(hex, Spell(Hex(digits)) + [next] + rest, 0)
         == [hex(digits).value] + Decode(hex, rest, 0)
    ensures Decode(hex, Spell(Hex(digits)), 0) == [hex(digits).value]
  {
    var raw := Spell(Hex(digits)) + [next] + rest;
    assert raw[2..6] == digits;
    DecodeShift(hex, Spell(Hex(digits)) + [next], rest, 0);
    assert Spell(Hex(digits))[2..6] == digits;
  }

  /** Four plain characters behind a plain `u` that read as hexadecimal. */
  predicate HexBlock(hex: HexParser, ps: seq<Spelling>) {
    && |ps| >= 5 && ps[0] == Plain('u') && ps[1].Plain? && ps[2].Plain? && ps[3].Plain? && ps[4].Plain?
    && hex([ps[1].c, ps[2].c, ps[3].c, ps[4].c]).Some?
  }

  function BlockDigits(ps: seq<Spelling>): string
    requires |ps| >= 5 && ps[1].Plain? && ps[2].Plain? && ps[3].Plain? && ps[4].Plain?
  {
    [ps[1].c, ps[2].c, ps[3].c, ps[4].c]
  }

  /** Whether a decoder that has swallowed the first character of the spelled string `after` still
      reads `missing` and then what `after` means.

      It does when the string goes on with escaped backslashes, any number of them, and then an
      escaped slash: the misread backslashes pair up again, and a slash means itself. It also does
      when there is no string left, the closing quote was swallowed, and decoding past it yields
      what is missing, nothing in the simplest case. The remaining case is an escaped backslash in
      front of text that looks like a `\u` escape: the decoder takes it for one, and must find
      the characters it skips by this beyond the closing quote. */
  predicate Recovers(hex: HexParser, after: seq<Spelling>, missing: string, tail: string) {
    if after == [] then Decode(hex, tail, 0) == missing
    else if after[0] == Short('/') then missing == ""
    else if after[0] != Short('\\') || |after| == 1 then false
    else if after[1].Short? then
      var owed := missing + "\\";
      owed[0] == '\\' && Recovers(hex, after[1..], owed[1..], tail)
    else if HexBlock(hex, after[1..]) then
      var digits := BlockDigits(after[1..]);
      var owed := missing + "\\u" + digits;
      owed[0] == hex(digits).value && Recovers(hex, after[1..][5..], owed[1..], tail)
    else false
  }

  /** Text with one `\u` escape among plain and short-escaped characters decodes to what it means
      exactly when the decoder recovers from the character that the escape swallows. */
  lemma UnicodeEscapeRoundTripIff(hex: HexParser, before: seq<Spelling>, digits: string, after: seq<Spelling>, tail: string,
                                  raw: string)
    requires Digits(hex) && Legal(hex, Hex(digits))
    requires (forall p :: p in before ==> Legal(hex, p)) && NoHex(before)
    requires (forall p :: p in after ==> Legal(hex, p)) && NoHex(after)
    requires raw == SpellAll(before) + Spell(Hex(digits)) + (SpellAll(after) + "\"" + tail)
    ensures Decode(hex, raw, 0) == Meanings(hex, before) + [hex(digits).value] + Meanings(hex, after)
      <==> Recovers(hex, after, "", tail)
  {
    var rest := SpellAll(after) + "\"" + tail;
    HexThenRest(hex, before, digits, rest);
    RecoversIff(hex, after, "", tail);
    assert Decode(hex, rest[1..], 0) == Misread(hex, after, tail);
    SameFront(Meanings(hex, before) + [hex(digits).value], Decode(hex, rest[1..], 0), Meanings(hex, after));
    assert "" + Meanings(hex, after) == Meanings(hex, after);
  }

  /** Any number of escaped backslashes and then an escaped slash. */
  predicate SlashRun(ps: seq<Spelling>) {
    ps != [] && (ps[0] == Short('/') || (ps[0] == Short('\\') && SlashRun(ps[1..])))
  }

  /** In a string that holds no look-alike of a `\u` escape the condition is that the escape ends
      the string, with nothing or another quote behind the closing one, or is followed by escaped
      backslashes and an escaped slash. */
  lemma {:induction false} RecoversWithoutLookalike(hex: HexParser, after: seq<Spelling>, tail: string)
    requires forall i :: 0 <= i < |after| ==> !HexBlock(hex, after[i..])
    ensures Recovers(hex, after, "", tail)
      <==> SlashRun(after) || (after == [] && (tail == "" || tail[0] == '"'))
  {
    if |after| > 1 {
      assert forall i :: 0 <= i < |after[1..]| ==> after[1..][i..] == after[i + 1..];
      RecoversWithoutLookalike(hex, after[1..], tail);
    }
  }

  /** A look-alike does happen to be harmless: behind a parsed escape, an escaped backslash and
      `u005c`, with `u005c` once more behind the closing quote. */
  lemma LookalikeRecovers(hex: HexParser, d: string)
    requires |d| == 4 && hex(d) == Some('\\') && '"' !in d && '\\' !in d
    ensures Recovers(hex, [Short('\\'), Plain('u'), Plain(d[0]), Plain(d[1]), Plain(d[2]), Plain(d[3])], "", "u" + d + "\"")
  {
    hide Decode;
    var block := [Plain('u'), Plain(d[0]), Plain(d[1]), Plain(d[2]), Plain(d[3])];
    var after := [Short('\\'), Plain('u'), Plain(d[0]), Plain(d[1]), Plain(d[2]), Plain(d[3])];
    assert after[1..] == block;
    assert d == [d[0], d[1], d[2], d[3]];
    PlainThenQuote(hex, block, "u" + d);
    BlockRecovers(hex, after, d, "u" + d + "\"");
  }

  lemma BlockRecovers(hex: HexParser, after: seq<Spelling>, d: string, tail: string)
    requires |after| == 6 && after[0] == Short('\\') && HexBlock(hex, after[1..]) && BlockDigits(after[1..]) == d
    requires hex(d) == Some('\\') && Decode(hex, tail, 0) == "u" + d
    ensures Recovers(hex, after, "", tail)
  {
    hide Decode;
    assert after[1..][5..] == [];
    assert ("" + "\\u" + d)[1..] == "u" + d;
  }

  lemma PlainThenQuote(hex: HexParser, ps: seq<Spelling>, text: string)
    requires |ps| == |text| && forall i :: 0 <= i < |ps| ==> ps[i] == Plain(text[i])
    requires forall p :: p in ps ==> Legal(hex, p)
    ensures Decode(hex, text + "\"", 0) == text
  {
    hide Decode, SpellAll;
    PlainText(hex, ps, text);
    ClosedDecodes(hex, ps, "");
    assert SpellAll(ps) + "\"" + "" == text + "\"";
  }

  // ----- any number of escapes -----

  /** Every `\u` escape is followed by escaped backslashes and an escaped slash, or ends the string
      with nothing or another quote behind the closing one. */
  predicate EscapesRecover(ps: seq<Spelling>, tail: string) {
    ps == []
    || ((ps[0].Hex? ==> SlashRun(ps[1..]) || (|ps| == 1 && (tail == "" || tail[0] == '"')))
        && EscapesRecover(ps[1..], tail))
  }

  /** A string with any number of such escapes decodes to what it means. */
  lemma {:induction false} ManyEscapesRoundTrip(hex: HexParser, ps: seq<Spelling>, tail: string)
    requires (forall p :: p in ps ==> Legal(hex, p)) && EscapesRecover(ps, tail)
    ensures Decode(hex, SpellAll(ps) + "\"" + tail, 0) == Meanings(hex, ps)
    decreases |ps|, 1
  {
    if ps == [] {
      ClosedDecodes(hex, ps, tail);
      return;
    }
    hide Decode, SpellAll, EscapesRecover;
    assert ps[0] in ps;
    var ahead := SpellAll(ps[1..]) + "\"" + tail;
    NextSpelled(ps, tail);
    assert EscapesRecover(ps[1..], tail) by { RecoverUnfold(ps, tail); }
    if ps[0].Hex? {
      RecoverUnfold(ps, tail);
      EscapeThenMisread(hex, ps[0].digits, ps[1..], tail);
      if |ps| == 1 {
        LastEscape(hex, ps[1..], tail);
      } else {
        MisreadSlashRun(hex, ps[1..], tail);
      }
    } else {
      DecodeOne(hex, ps[0], ahead);
      ManyEscapesRoundTrip(hex, ps[1..], tail);
    }
  }

  lemma RecoverUnfold(ps: seq<Spelling>, tail: string)
    requires ps != [] && EscapesRecover(ps, tail)
    ensures EscapesRecover(ps[1..], tail)
    ensures ps[0].Hex? && |ps| > 1 ==> SlashRun(ps[1..])
    ensures ps[0].Hex? && |ps| == 1 ==> tail == "" || tail[0] == '"'
  {
  }

  lemma EscapeThenMisread(hex: HexParser, digits: string, ps: seq<Spelling>, tail: string)
    requires Legal(hex, Hex(digits))
    ensures Decode(hex, Spell(Hex(digits)) + (SpellAll(ps) + "\"" + tail), 0) == [hex(digits).value] + Misread(hex, ps, tail)
  {
    hide Decode, SpellAll;
    var ahead := SpellAll(ps) + "\"" + tail;
    UnicodeEscapeSwallowsNext(hex, digits, ahead[0], ahead[1..]);
    assert Spell(Hex(digits)) + [ahead[0]] + ahead[1..] == Spell(Hex(digits)) + ahead;
  }

  lemma LastEscape(hex: HexParser, ps: seq<Spelling>, tail: string)
    requires ps == [] && (tail == "" || tail[0] == '"')
    ensures Misread(hex, ps, tail) == Meanings(hex, ps)
  {
    MisreadNothing(hex, tail);
  }

  lemma {:induction false} MisreadSlashRun(hex: HexParser, ps: seq<Spelling>, tail: string)
    requires (forall p :: p in ps ==> Legal(hex, p)) && SlashRun(ps) && EscapesRecover(ps, tail)
    ensures Misread(hex, ps, tail) == Meanings(hex, ps)
    decreases |ps|, 0
  {
    hide Decode, SpellAll, Misread, EscapesRecover;
    assert ps[0] in ps;
    RecoverUnfold(ps, tail);
    if ps[0] == Short('/') {
      MisreadSlash(hex, ps, tail);
      ManyEscapesRoundTrip(hex, ps[1..], tail);
    } else {
      MisreadBackslash(hex, ps, tail);
      BackslashPair(hex, ps[1..], tail);
      MisreadSlashRun(hex, ps[1..], tail);
    }
  }

  lemma MisreadSlash(hex: HexParser, ps: seq<Spelling>, tail: string)
    requires ps != [] && ps[0] == Short('/')
    ensures Misread(hex, ps, tail) == "/" + Decode(hex, SpellAll(ps[1..]) + "\"" + tail, 0)
  {
    hide SpellAll;
    var ahead := SpellAll(ps[1..]) + "\"" + tail;
    NextSpelled(ps, tail);
    assert (Spell(ps[0]) + ahead)[1..] == Spell(Plain('/')) + ahead;
    DecodeOne(hex, Plain('/'), ahead);
  }

  /** Of two escapes in a row the second one is read as the letter `u` and its digits. */
  lemma AdjacentEscapes(hex: HexParser, before: seq<Spelling>, first: string, second: string, rest: string, raw: string)
    requires Digits(hex) && (forall p :: p in before ==> Legal(hex, p)) && NoHex(before)
    requires Legal(hex, Hex(first)) && Legal(hex, Hex(second))
    requires raw == SpellAll(before) + Spell(Hex(first)) + (Spell(Hex(second)) + rest)
    ensures Decode(hex, raw, 0) == Meanings(hex, before) + [hex(first).value] + ("u" + second + Decode(hex, rest, 0))
  {
    hide Decode, SpellAll, Meanings;
    var tail := Spell(Hex(second)) + rest;
    HexThenRest(hex, before, first, tail);
    assert tail[1..] == ("u" + second) + rest;
    PlainFrontDecodes(hex, "u" + second, rest);
  }

  lemma {:induction false} PlainFrontDecodes(hex: HexParser, text: string, rest: string)
    requires forall i :: 0 <= i < |text| ==> text[i] != '"' && text[i] != '\\'
    ensures Decode(hex, text + rest, 0) == text + Decode(hex, rest, 0)
  {
    hide Decode;
    if text == "" {
      assert "" + rest == rest;
    } else {
      PlainFrontDecodes(hex, text[1..], rest);
      DecodeOne(hex, Plain(text[0]), text[1..] + rest);
      assert text + rest == Spell(Plain(text[0])) + (text[1..] + rest);
      assert text == [text[0]] + text[1..];
    }
  }

  lemma ClosedDecodes(hex: HexParser, ps: seq<Spelling>, tail: string)
    requires (forall p :: p in ps ==> Legal(hex, p)) && NoHex(ps)
    ensures Decode(hex, SpellAll(ps) + "\"" + tail, 0) == Meanings(hex, ps)
  {
    DecodeSpelled(hex, ps, "\"" + tail);
    assert SpellAll(ps) + ("\"" + tail) == SpellAll(ps) + "\"" + tail;
    assert Meanings(hex, ps) + "" == Meanings(hex, ps);
  }

  lemma SameFront(front: string, a: string, b: string)
    ensures front + a == front + b <==> a == b
  {
    assert (front + a)[|front|..] == a;
    assert (front + b)[|front|..] == b;
  }

  lemma HexThenRest(hex: HexParser, before: seq<Spelling>, digits: string, rest: string)
    requires (forall p :: p in before ==> Legal(hex, p)) && NoHex(before)
    requires Legal(hex, Hex(digits)) && rest != ""
    ensures Decode(hex, SpellAll(before) + Spell(Hex(digits)) + rest, 0)
         == Meanings(hex, before) + [hex(digits).value] + Decode(hex, rest[1..], 0)
  {
    var tail := Spell(Hex(digits)) + [rest[0]] + rest[1..];
    assert SpellAll(before) + Spell(Hex(digits)) + rest == SpellAll(before) + tail;
    DecodeSpelled(hex, before, tail);
    UnicodeEscapeSwallowsNext(hex, digits, rest[0], rest[1..]);
  }

  /** Behind a spelled string, characters that are neither quotes nor backslashes are plain ones. */
  lemma {:induction false} PlainFront(ps: seq<Spelling>, tail: string, n: nat)
    requires NoHex(ps) && n <= |SpellAll(ps) + "\"" + tail|
    requires '"' !in (SpellAll(ps) + "\"" + tail)[..n] && '\\' !in (SpellAll(ps) + "\"" + tail)[..n]
    ensures n <= |ps| && forall i :: 0 <= i < n ==> ps[i] == Plain((SpellAll(ps) + "\"" + tail)[i])
    decreases n
  {
    var text := SpellAll(ps) + "\"" + tail;
    if n > 0 {
      assert text[0] in text[..n];
      assert ps != [] && ps[0] in ps;
      var rest := SpellAll(ps[1..]) + "\"" + tail;
      assert text == Spell(ps[0]) + rest;
      assert text[1..] == rest;
      assert rest[..n - 1] == text[..n][1..];
      PlainFront(ps[1..], tail, n - 1);
    }
  }

  lemma SameHead(x: char, text: string, owed: string, means: string)
    requires owed != ""
    ensures [x] + text == owed + means <==> owed[0] == x && text == owed[1..] + means
  {
    assert owed + means == [owed[0]] + (owed[1..] + means);
    assert ([x] + text)[1..] == text;
    assert ([owed[0]] + (owed[1..] + means))[1..] == owed[1..] + means;
  }

  lemma Longer(text: string, missing: string, means: string)
    requires |text| < |means|
    ensures text != missing + means
  {
  }

  /** The decoded text of the spelled string `after` without its first character. */
  function Misread(hex: HexParser, after: seq<Spelling>, tail: string): string {
    Decode(hex, (SpellAll(after) + "\"" + tail)[1..], 0)
  }

  /** What the decoder makes of a string whose first character is swallowed, case by case. */
  lemma MisreadNothing(hex: HexParser, tail: string)
    ensures Misread(hex, [], tail) == Decode(hex, tail, 0)
  {
    assert ("" + "\"" + tail)[1..] == tail;
  }

  lemma MisreadPlain(hex: HexParser, after: seq<Spelling>, tail: string)
    requires (forall p :: p in after ==> Legal(hex, p)) && NoHex(after) && after != [] && after[0].Plain?
    ensures Misread(hex, after, tail) == Meanings(hex, after[1..])
  {
    NextSpelled(after, tail);
    ClosedDecodes(hex, after[1..], tail);
  }

  lemma MisreadShort(hex: HexParser, after: seq<Spelling>, tail: string)
    requires (forall p :: p in after ==> Legal(hex, p)) && NoHex(after)
    requires after != [] && after[0].Short? && after[0].letter != '\\'
    ensures Misread(hex, after, tail) ==
      if after[0].letter == '"' then "" else [after[0].letter] + Meanings(hex, after[1..])
  {
    var letter := after[0].letter;
    var ahead := SpellAll(after[1..]) + "\"" + tail;
    NextSpelled(after, tail);
    assert (Spell(after[0]) + ahead)[1..] == [letter] + ahead;
    if letter != '"' {
      ClosedDecodes(hex, after[1..], tail);
      DecodeOne(hex, Plain(letter), ahead);
    }
  }

  lemma MisreadBackslash(hex: HexParser, after: seq<Spelling>, tail: string)
    requires after != [] && after[0] == Short('\\')
    ensures Misread(hex, after, tail) == Decode(hex, "\\" + (SpellAll(after[1..]) + "\"" + tail), 0)
  {
    hide Decode;
    var ahead := SpellAll(after[1..]) + "\"" + tail;
    NextSpelled(after, tail);
    assert (Spell(after[0]) + ahead)[1..] == "\\" + ahead;
  }

  lemma NextSpelled(ps: seq<Spelling>, tail: string)
    requires ps != []
    ensures SpellAll(ps) + "\"" + tail == Spell(ps[0]) + (SpellAll(ps[1..]) + "\"" + tail)
    ensures (SpellAll(ps) + "\"" + tail)[1..] == Spell(ps[0])[1..] + (SpellAll(ps[1..]) + "\"" + tail)
  {
    SpellUnfold(ps);
    hide SpellAll, Spell;
    Associates(Spell(ps[0]), SpellAll(ps[1..]), "\"", tail);
    WithoutFirst(Spell(ps[0]), SpellAll(ps[1..]) + "\"" + tail);
  }

  lemma Associates(a: string, b: string, c: string, d: string)
    ensures a + b + c + d == a + (b + c + d)
  {
  }

  lemma SpellUnfold(ps: seq<Spelling>)
    requires ps != []
    ensures SpellAll(ps) == Spell(ps[0]) + SpellAll(ps[1..]) && Spell(ps[0]) != ""
  {
    SpellsSomething(ps[0]);
  }

  lemma SpellsSomething(p: Spelling)
    ensures Spell(p) != ""
  {
  }

  lemma WithoutFirst(a: string, b: string)
    requires a != ""
    ensures (a + b)[1..] == a[1..] + b
  {
  }

  lemma {:induction false} RecoversIff(hex: HexParser, after: seq<Spelling>, missing: string, tail: string)
    requires Digits(hex) && (forall p :: p in after ==> Legal(hex, p)) && NoHex(after) && '"' !in missing
    ensures Misread(hex, after, tail) == missing + Meanings(hex, after) <==> Recovers(hex, after, missing, tail)
    decreases |after|
  {
    hide Misread, Decode, SpellAll, Digits;
    if after == [] {
      MisreadNothing(hex, tail);
      assert missing + "" == missing;
    } else if after[0].Plain? {
      assert after[0] in after;
      MisreadPlain(hex, after, tail);
      Longer(Meanings(hex, after[1..]), missing, Meanings(hex, after));
    } else {
      assert after[0] in after;
      if after[0] == Short('\\') {
        RecoversBackslash(hex, after, missing, tail);
      } else {
        MisreadShort(hex, after, tail);
        RecoversShort(hex, after, missing, tail);
      }
    }
  }

  lemma RecoversShort(hex: HexParser, after: seq<Spelling>, missing: string, tail: string)
    requires (forall p :: p in after ==> Legal(hex, p)) && after != [] && after[0].Short? && after[0].letter != '\\'
    requires Misread(hex, after, tail) ==
      if after[0].letter == '"' then "" else [after[0].letter] + Meanings(hex, after[1..])
    ensures Misread(hex, after, tail) == missing + Meanings(hex, after) <==> Recovers(hex, after, missing, tail)
  {
    hide Misread;
    var means := Meanings(hex, after[1..]);
    var letter := after[0].letter;
    assert Meanings(hex, after) == [Unescape(letter)] + means;
    assert after[0] in after;
    if letter == '"' {
      Longer("", missing, Meanings(hex, after));
    } else if missing == "" {
      SameHead(letter, means, [Unescape(letter)], means);
      assert [Unescape(letter)][1..] + means == means;
      assert missing + Meanings(hex, after) == Meanings(hex, after);
    } else {
      assert |missing + Meanings(hex, after)| > |[letter] + means|;
    }
  }

  /** The decoder has swallowed the first backslash of an escaped one. */
  lemma {:induction false} RecoversBackslash(hex: HexParser, after: seq<Spelling>, missing: string, tail: string)
    requires Digits(hex) && (forall p :: p in after ==> Legal(hex, p)) && NoHex(after) && '"' !in missing
    requires after != [] && after[0] == Short('\\')
    ensures Misread(hex, after, tail) == missing + Meanings(hex, after) <==> Recovers(hex, after, missing, tail)
    decreases |after|, 0
  {
    hide Misread, Decode, SpellAll, Digits, HexBlock, Meanings;
    MisreadBackslash(hex, after, tail);
    var rest := after[1..];
    MeaningsCons(hex, after);
    assert missing + Meanings(hex, after) == missing + "\\" + Meanings(hex, rest);
    if rest == [] {
      LoneBackslash(hex, tail);
      FirstDiffers(missing, Decode(hex, tail, 0));
      MeaningsNone(hex);
    } else if rest[0].Short? {
      BackslashPair(hex, rest, tail);
      var owed := missing + "\\";
      SameHead('\\', Misread(hex, rest, tail), owed, Meanings(hex, rest));
      RecoversIff(hex, rest, owed[1..], tail);
    } else if HexBlock(hex, rest) {
      var digits := BlockUnfold(hex, rest);
      var owed := missing + "\\u" + digits;
      LooksLikeHex(hex, rest, tail);
      BlockReads(hex, rest);
      assert owed + Meanings(hex, rest[5..]) == missing + "\\" + Meanings(hex, rest);
      SameHead(hex(digits).value, Misread(hex, rest[5..], tail), owed, Meanings(hex, rest[5..]));
      NoQuoteIn(hex, digits);
      RecoversIff(hex, rest[5..], owed[1..], tail);
    } else {
      PlainAfterBackslash(hex, rest, tail);
      MeaningsCons(hex, rest);
      Longer([Unescape(rest[0].c)] + Meanings(hex, rest[1..]), missing, "\\" + Meanings(hex, rest));
      assert missing + ("\\" + Meanings(hex, rest)) == missing + "\\" + Meanings(hex, rest);
    }
  }

  lemma MeaningsCons(hex: HexParser, ps: seq<Spelling>)
    requires ps != [] && forall p :: p in ps ==> Legal(hex, p)
    ensures Meanings(hex, ps) == [Meaning(hex, ps[0])] + Meanings(hex, ps[1..])
  {
  }

  lemma MeaningsNone(hex: HexParser)
    ensures Meanings(hex, []) == ""
  {
  }

  lemma BlockUnfold(hex: HexParser, ps: seq<Spelling>) returns (digits: string)
    requires HexBlock(hex, ps)
    ensures |ps| >= 5 && ps[0].Plain? && ps[1].Plain? && ps[2].Plain? && ps[3].Plain? && ps[4].Plain?
    ensures digits == BlockDigits(ps) && hex(digits).Some?
  {
    digits := BlockDigits(ps);
  }

  lemma NoQuoteIn(hex: HexParser, digits: string)
    requires Digits(hex) && hex(digits).Some?
    ensures '"' !in digits
  {
  }

  lemma FirstDiffers(missing: string, text: string)
    requires '"' !in missing
    ensures "\"" + text != missing + "\\" && "\"" + text != missing + "\\" + ""
  {
    if missing != "" {
      assert missing[0] in missing;
      assert ("\"" + text)[0] == '"';
      assert (missing + "\\")[0] == missing[0];
    } else {
      assert ("\"" + text)[0] == '"' && (missing + "\\")[0] == '\\';
    }
    assert missing + "\\" + "" == missing + "\\";
  }

  lemma LoneBackslash(hex: HexParser, tail: string)
    ensures Decode(hex, "\\" + (SpellAll([]) + "\"" + tail), 0) == "\"" + Decode(hex, tail, 0)
  {
    DecodeOne(hex, Short('"'), tail);
    assert "\\" + (SpellAll([]) + "\"" + tail) == Spell(Short('"')) + tail;
  }

  lemma BackslashPair(hex: HexParser, rest: seq<Spelling>, tail: string)
    requires rest != [] && rest[0].Short?
    ensures var ahead := SpellAll(rest) + "\"" + tail;
      Decode(hex, "\\" + ahead, 0) == "\\" + Misread(hex, rest, tail)
  {
    var ahead := SpellAll(rest) + "\"" + tail;
    assert ahead[0] == '\\';
    assert "\\" + ahead == "\\\\" + ahead[1..];
    DecodeShift(hex, "\\\\", ahead[1..], 0);
  }

  lemma SpellCons(p: Spelling, ps: seq<Spelling>)
    ensures SpellAll([p] + ps) == Spell(p) + SpellAll(ps)
  {
    assert ([p] + ps)[1..] == ps;
  }

  lemma SpellNone()
    ensures SpellAll([]) == ""
  {
  }

  lemma {:induction false} SpellConcat(a: seq<Spelling>, b: seq<Spelling>)
    ensures SpellAll(a + b) == SpellAll(a) + SpellAll(b)
  {
    hide SpellAll, Spell;
    if a == [] {
      assert a + b == b;
      SpellNone();
    } else {
      SpellConcat(a[1..], b);
      SpellCons(a[0], a[1..]);
      SpellCons(a[0], a[1..] + b);
      assert [a[0]] + a[1..] == a && [a[0]] + (a[1..] + b) == a + b;
    }
  }

  lemma {:induction false} MeaningsConcat(hex: HexParser, a: seq<Spelling>, b: seq<Spelling>)
    requires (forall p :: p in a ==> Legal(hex, p)) && (forall p :: p in b ==> Legal(hex, p))
    ensures Meanings(hex, a + b) == Meanings(hex, a) + Meanings(hex, b)
  {
    if a == [] {
      assert a + b == b;
    } else {
      MeaningsConcat(hex, a[1..], b);
      assert (a + b)[1..] == a[1..] + b;
    }
  }

  lemma {:induction false} PlainText(hex: HexParser, ps: seq<Spelling>, text: string)
    requires |ps| == |text| && forall i :: 0 <= i < |ps| ==> ps[i] == Plain(text[i])
    requires forall p :: p in ps ==> Legal(hex, p)
    ensures SpellAll(ps) == text && Meanings(hex, ps) == text
  {
    if ps != [] {
      PlainText(hex, ps[1..], text[1..]);
      assert text == [text[0]] + text[1..];
    }
  }

  lemma BlockReads(hex: HexParser, ps: seq<Spelling>)
    requires (forall p :: p in ps ==> Legal(hex, p)) && HexBlock(hex, ps)
    ensures SpellAll(ps) == "u" + BlockDigits(ps) + SpellAll(ps[5..])
    ensures Meanings(hex, ps) == "u" + BlockDigits(ps) + Meanings(hex, ps[5..])
  {
    hide SpellAll, Meanings;
    assert ps[..5] + ps[5..] == ps;
    SpellConcat(ps[..5], ps[5..]);
    MeaningsConcat(hex, ps[..5], ps[5..]);
    PlainText(hex, ps[..5], "u" + BlockDigits(ps));
  }

  lemma LooksLikeHex(hex: HexParser, rest: seq<Spelling>, tail: string)
    requires (forall p :: p in rest ==> Legal(hex, p)) && HexBlock(hex, rest)
    ensures Decode(hex, "\\" + (SpellAll(rest) + "\"" + tail), 0)
         == [hex(BlockDigits(rest)).value] + Misread(hex, rest[5..], tail)
  {
    var far := SpellAll(rest[5..]) + "\"" + tail;
    hide Decode, SpellAll;
    BlockReads(hex, rest);
    assert "\\" + (SpellAll(rest) + "\"" + tail) == Spell(Hex(BlockDigits(rest))) + [far[0]] + far[1..];
    UnicodeEscapeSwallowsNext(hex, BlockDigits(rest), far[0], far[1..]);
  }

  /** A lone backslash and a plain character that begins no look-alike are read as one character. */
  lemma PlainAfterBackslash(hex: HexParser, rest: seq<Spelling>, tail: string)
    requires Digits(hex) && (forall p :: p in rest ==> Legal(hex, p)) && NoHex(rest)
    requires rest != [] && rest[0].Plain? && !HexBlock(hex, rest)
    ensures Decode(hex, "\\" + (SpellAll(rest) + "\"" + tail), 0) == [Unescape(rest[0].c)] + Meanings(hex, rest[1..])
  {
    var c := rest[0].c;
    var far := SpellAll(rest[1..]) + "\"" + tail;
    var raw := "\\" + (SpellAll(rest) + "\"" + tail);
    hide SpellAll, HexBlock, Decode, Unescape, Digits, Meanings, Token;
    NextSpelled(rest, tail);
    assert raw == ['\\', c] + far;
    assert raw[2..] == far;
    if c == 'u' && |far| >= 4 {
      NoLookalike(hex, rest, tail);
      assert raw[2..6] == far[..4];
    }
    PairToken(hex, raw);
    PairDecodes(hex, raw);
    ClosedDecodes(hex, rest[1..], tail);
  }

  lemma PairDecodes(hex: HexParser, raw: string)
    requires |raw| >= 2 && raw[0] == '\\' && Token(hex, raw, 0) == (Unescape(raw[1]), 2)
    ensures Decode(hex, raw, 0) == [Unescape(raw[1])] + Decode(hex, raw[2..], 0)
  {
    hide Decode, Unescape, Token;
    FirstToken(hex, raw);
    DecodeDrop(hex, raw, 2);
  }

  lemma DecodeDrop(hex: HexParser, raw: string, i: nat)
    requires i <= |raw|
    ensures Decode(hex, raw, i) == Decode(hex, raw[i..], 0)
  {
    assert raw == raw[..i] + raw[i..];
    DecodeShift(hex, raw[..i], raw[i..], 0);
  }

  lemma PairToken(hex: HexParser, raw: string)
    requires |raw| >= 2 && raw[0] == '\\'
    requires raw[1] == 'u' && |raw| >= 6 ==> hex(raw[2..6]).None?
    ensures Token(hex, raw, 0) == (Unescape(raw[1]), 2)
  {
    hide Unescape;
  }

  lemma FirstToken(hex: HexParser, raw: string)
    requires raw != "" && raw[0] != '"'
    ensures Decode(hex, raw, 0) == [Token(hex, raw, 0).0] + Decode(hex, raw, Token(hex, raw, 0).1)
  {
  }

  lemma NoLookalike(hex: HexParser, rest: seq<Spelling>, tail: string)
    requires Digits(hex) && NoHex(rest) && rest != [] && rest[0] == Plain('u') && !HexBlock(hex, rest)
    requires |SpellAll(rest[1..]) + "\"" + tail| >= 4
    ensures hex((SpellAll(rest[1..]) + "\"" + tail)[..4]).None?
  {
    var far := SpellAll(rest[1..]) + "\"" + tail;
    assert far[..4] == [far[0], far[1], far[2], far[3]];
    if hex(far[..4]).Some? {
      PlainFront(rest[1..], tail, 4);
      BlockFromFront(hex, rest, far);
    }
  }

  lemma BlockFromFront(hex: HexParser, ps: seq<Spelling>, far: string)
    requires |ps| >= 5 && |far| >= 4 && ps[0] == Plain('u') && hex(far[..4]).Some?
    requires forall i :: 0 <= i < 4 ==> ps[1..][i] == Plain(far[i])
    ensures HexBlock(hex, ps)
  {
    assert ps[1..][0] == ps[1] && ps[1..][1] == ps[2] && ps[1..][2] == ps[3] && ps[1..][3] == ps[4];
    assert far[..4] == [far[0], far[1], far[2], far[3]];
  }
}
