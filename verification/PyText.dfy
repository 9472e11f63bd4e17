/** The parts of Python's `str` that the artifact tools lean on, over sequences of characters. */
module PyText {

  /** `str.isspace`, which also decides `str.strip` and the regular expression class `\s`. */
  predicate IsSpace(c: char) {
    || '\t' <= c <= '\r' || '\U{1c}' <= c <= ' '
    || c == '\U{85}' || c == '\U{a0}' || c == '\U{1680}'
    || '\U{2000}' <= c <= '\U{200a}' || c == '\U{2028}' || c == '\U{2029}'
    || c == '\U{202f}' || c == '\U{205f}' || c == '\U{3000}'
  }

  /** The characters at which `str.splitlines` ends a line. */
  predicate IsLineBreak(c: char) {
    || '\n' <= c <= '\r' || '\U{1c}' <= c <= '\U{1e}'
    || c == '\U{85}' || c == '\U{2028}' || c == '\U{2029}'
  }

  /** The number of bytes of the UTF-8 encoding. */
  function Bytes(t: string): nat {
    if t == "" then 0 else Bytes(t[..|t| - 1]) + CharBytes(t[|t| - 1])
  }

  function CharBytes(c: char): nat {
    if c < '\U{80}' then 1 else if c < '\U{800}' then 2 else if c < '\U{10000}' then 3 else 4
  }

  lemma {:induction false} BytesConcat(a: string, b: string)
    ensures Bytes(a + b) == Bytes(a) + Bytes(b)
  {
    if b == "" {
      assert a + b == a;
    } else {
      BytesConcat(a, b[..|b| - 1]);
      assert (a + b)[..|a + b| - 1] == a + b[..|b| - 1];
    }
  }

  /** The same tables, code point by code point; every line break is whitespace. */
  lemma Tables(c: char)
    ensures var n := c as int;
      && (IsSpace(c) <==>
            n in {9, 10, 11, 12, 13, 28, 29, 30, 31, 32, 133, 160, 5760, 8192, 8193, 8194, 8195, 8196, 8197, 8198, 8199,
                  8200, 8201, 8202, 8232, 8233, 8239, 8287, 12288})
      && (IsLineBreak(c) <==> n in {10, 11, 12, 13, 28, 29, 30, 133, 8232, 8233})
      && (IsLineBreak(c) ==> IsSpace(c))
  {
  }

  /** A character takes as few bytes as have room for it: one byte has 7 bits for it, two have 11, three have 16. */
  lemma FewestBytes(c: char)
    ensures var n, k := c as int, CharBytes(c);
      && (k == 1 <==> n < 128) && (k <= 2 <==> n < 2048) && (k <= 3 <==> n < 65536) && 1 <= k <= 4
  {
  }

  // ----- searching -----

  /** Whether `pat` stands in `t` at `i`, compared character by character. */
  predicate MatchAt(t: string, i: nat, pat: string)
    ensures MatchAt(t, i, pat) ==> i + |pat| <= |t|
    decreases |pat|
  {
    if pat == "" then i <= |t| else i < |t| && t[i] == pat[0] && MatchAt(t, i + 1, pat[1..])
  }

  lemma {:induction false} MatchIsSlice(t: string, i: nat, pat: string)
    ensures MatchAt(t, i, pat) <==> i + |pat| <= |t| && t[i..i + |pat|] == pat
    decreases |pat|
  {
    if pat != "" {
      MatchIsSlice(t, i + 1, pat[1..]);
      if i + |pat| <= |t| {
        assert t[i..i + |pat|] == [t[i]] + t[i + 1..i + |pat|];
      }
    }
  }

  /** `t.find(pat, from)`: the leftmost match at or after `from`, or -1. */
  function Find(t: string, pat: string, from: nat): (r: int)
    requires from <= |t|
    ensures r == -1 || (from <= r && MatchAt(t, r, pat))
    decreases |t| - from
  {
    if MatchAt(t, from, pat) then from
    else if from == |t| then -1
    else Find(t, pat, from + 1)
  }

  lemma {:induction false} FindIsLeftmost(t: string, pat: string, from: nat, q: nat)
    requires from <= q && MatchAt(t, q, pat)
    ensures 0 <= Find(t, pat, from) <= q
    decreases q - from
  {
    if !MatchAt(t, from, pat) {
      FindIsLeftmost(t, pat, from + 1, q);
    }
  }

  /** `t.rfind(pat)`, searching starts below `below`. */
  function RFind(t: string, pat: string, below: nat): (r: int)
    ensures r == -1 || (0 <= r < below && MatchAt(t, r, pat))
  {
    if below == 0 then -1
    else if MatchAt(t, below - 1, pat) then below - 1
    else RFind(t, pat, below - 1)
  }

  lemma {:induction false} RFindIsRightmost(t: string, pat: string, below: nat, q: nat)
    requires q < below && MatchAt(t, q, pat)
    ensures q <= RFind(t, pat, below)
  {
    if !MatchAt(t, below - 1, pat) {
      RFindIsRightmost(t, pat, below - 1, q);
    }
  }

  // ----- stripping -----

  /** The characters that are not whitespace, in order. */
  function Ink(t: string): string {
    if t == "" then ""
    else Ink(t[..|t| - 1]) + if IsSpace(t[|t| - 1]) then "" else [t[|t| - 1]]
  }

  predicate AllSpace(t: string) {
    Ink(t) == ""
  }

  lemma {:induction false} AllSpaceIff(t: string)
    ensures AllSpace(t) <==> forall i :: 0 <= i < |t| ==> IsSpace(t[i])
  {
    if t != "" {
      AllSpaceIff(t[..|t| - 1]);
    }
  }

  lemma {:induction false} InkConcat(a: string, b: string)
    ensures Ink(a + b) == Ink(a) + Ink(b)
  {
    if b == "" {
      assert a + b == a;
    } else {
      InkConcat(a, b[..|b| - 1]);
      assert (a + b)[..|a + b| - 1] == a + b[..|b| - 1];
    }
  }

  function LStrip(t: string): string {
    if t == "" || !IsSpace(t[0]) then t else LStrip(t[1..])
  }

  function RStrip(t: string): (r: string)
    ensures r != "" ==> !IsSpace(r[|r| - 1])
  {
    if t == "" || !IsSpace(t[|t| - 1]) then t else RStrip(t[..|t| - 1])
  }

  function Strip(t: string): string {
    RStrip(LStrip(t))
  }

  lemma {:induction false} LStripCuts(t: string) returns (lead: nat)
    ensures lead <= |t| && LStrip(t) == t[lead..] && AllSpace(t[..lead])
  {
    if t == "" || !IsSpace(t[0]) {
      lead := 0;
    } else {
      var n := LStripCuts(t[1..]);
      lead := n + 1;
      assert t[..lead] == [t[0]] + t[1..][..n];
      InkConcat([t[0]], t[1..][..n]);
      assert Ink([t[0]]) == Ink([t[0]][..0]) + "";
    }
  }

  lemma {:induction false} RStripCuts(t: string)
    ensures |RStrip(t)| <= |t| && RStrip(t) == t[..|RStrip(t)|] && AllSpace(t[|RStrip(t)|..])
  {
    if t != "" && IsSpace(t[|t| - 1]) {
      var u := t[..|t| - 1];
      RStripCuts(u);
      var n := |RStrip(u)|;
      assert t[n..][..|t[n..]| - 1] == u[n..];
    }
  }

  lemma TrimInk(t: string, i: nat, j: nat)
    requires i <= j <= |t| && AllSpace(t[..i]) && AllSpace(t[j..])
    ensures Ink(t[i..j]) == Ink(t)
  {
    hide Ink;
    assert t == t[..i] + t[i..j] + t[j..];
    InkBetween(t[..i], t[i..j], t[j..]);
  }

  lemma InkBetween(a: string, b: string, c: string)
    requires AllSpace(a) && AllSpace(c)
    ensures Ink(a + b + c) == Ink(b)
  {
    hide Ink;
    InkConcat(a + b, c);
    InkConcat(a, b);
  }

  lemma CutTwice(t: string, lead: nat, n: nat)
    requires lead <= |t| && n <= |t| - lead
    ensures t[lead..][..n] == t[lead..lead + n] && t[lead..][n..] == t[lead + n..]
  {
  }

  /** Stripping cuts whitespace off both ends and nothing else; it leaves nothing exactly when
      there was nothing but whitespace. */
  lemma StripCuts(t: string) returns (lead: nat)
    ensures lead + |Strip(t)| <= |t|
    ensures Strip(t) == t[lead..lead + |Strip(t)|]
    ensures AllSpace(t[..lead]) && AllSpace(t[lead + |Strip(t)|..])
    ensures Strip(t) == "" <==> AllSpace(t)
    ensures Ink(Strip(t)) == Ink(t)
  {
    lead := LStripCuts(t);
    RStripCuts(t[lead..]);
    CutTwice(t, lead, |Strip(t)|);
    TrimInk(t, lead, lead + |Strip(t)|);
  }

  lemma {:induction false} LStripStarts(t: string)
    ensures LStrip(t) != "" ==> !IsSpace(LStrip(t)[0])
  {
    if t != "" && IsSpace(t[0]) {
      LStripStarts(t[1..]);
    }
  }

  /** What is stripped neither starts nor ends with whitespace. */
  lemma StripIsTight(t: string)
    ensures Strip(t) != "" ==> !IsSpace(Strip(t)[0]) && !IsSpace(Strip(t)[|Strip(t)| - 1])
  {
    LStripStarts(t);
    RStripCuts(LStrip(t));
  }

  lemma StripHolds(t: string, c: char)
    requires c !in t
    ensures c !in Strip(t)
  {
    var lead := StripCuts(t);
  }

  // ----- lines -----

  function Flatten(parts: seq<string>): string {
    if parts == [] then "" else Flatten(parts[..|parts| - 1]) + parts[|parts| - 1]
  }

  lemma {:induction false} FlattenConcat(a: seq<string>, b: seq<string>)
    ensures Flatten(a + b) == Flatten(a) + Flatten(b)
  {
    if b == [] {
      assert a + b == a;
    } else {
      FlattenConcat(a, b[..|b| - 1]);
      assert (a + b)[..|a + b| - 1] == a + b[..|b| - 1];
    }
  }

  /** The length of the first line of `t`, its line break included; "\r\n" is one break. */
  function FirstLine(t: string): (n: nat)
    requires t != ""
    ensures 1 <= n <= |t|
  {
    if t[0] == '\r' && |t| > 1 && t[1] == '\n' then 2
    else if IsLineBreak(t[0]) || |t| == 1 then 1
    else 1 + FirstLine(t[1..])
  }

  /** `t.splitlines(keepends=True)`. */
  function Lines(t: string): (lines: seq<string>)
    ensures t == "" <==> lines == []
    ensures forall i :: 0 <= i < |lines| ==> lines[i] != ""
  {
    if t == "" then [] else [t[..FirstLine(t)]] + Lines(t[FirstLine(t)..])
  }

  lemma {:induction false} LinesCoverText(t: string)
    ensures Flatten(Lines(t)) == t
  {
    if t != "" {
      var n := FirstLine(t);
      LinesCoverText(t[n..]);
      FirstThenRest(t[..n], Lines(t[n..]));
      assert t[..n] + t[n..] == t;
    }
  }

  lemma FirstThenRest(first: string, rest: seq<string>)
    ensures Flatten([first] + rest) == first + Flatten(rest)
  {
    FlattenConcat([first], rest);
    assert Flatten([first]) == Flatten([]) + first;
  }

  /** No line break but at the end, where "\r\n" is one. */
  predicate BreaksAtEnd(z: string) {
    forall k :: 0 <= k < |z| - 1 && IsLineBreak(z[k]) ==> k == |z| - 2 && z[k] == '\r' && z[k + 1] == '\n'
  }

  /** A line break stands at the end of its line only, and every line but the last has one. */
  lemma {:induction false} LinesAreLines(t: string, i: nat)
    requires i < |Lines(t)|
    ensures var z := Lines(t)[i]; BreaksAtEnd(z) && (i < |Lines(t)| - 1 ==> IsLineBreak(z[|z| - 1]))
    decreases |t|
  {
    var n := FirstLine(t);
    FirstLineIsLine(t);
    if i > 0 {
      LinesAreLines(t[n..], i - 1);
      assert Lines(t) == [t[..n]] + Lines(t[n..]);
    } else {
      var z := t[..n];
      assert Lines(t)[0] == z;
      forall k | 0 <= k < n - 1 && IsLineBreak(z[k]) ensures k == n - 2 && z[k] == '\r' && z[k + 1] == '\n' {
        assert z[k] == t[k] && z[k + 1] == t[k + 1];
      }
    }
  }

  /** The first line runs to the first line break, or to the end of the text. */
  lemma {:induction false} FirstLineIsLine(t: string)
    requires t != ""
    ensures var n := FirstLine(t);
      && (forall k :: 0 <= k < n - 1 ==> IsLineBreak(t[k]) ==> k == n - 2 && t[k] == '\r' && t[k + 1] == '\n')
      && (n < |t| ==> IsLineBreak(t[n - 1]) && !(t[n - 1] == '\r' && t[n] == '\n'))
    decreases |t|
  {
    if !(t[0] == '\r' && |t| > 1 && t[1] == '\n') && !(IsLineBreak(t[0]) || |t| == 1) {
      FirstLineIsLine(t[1..]);
      var n := FirstLine(t);
      forall k | 0 <= k < n - 1 && IsLineBreak(t[k]) ensures k == n - 2 && t[k] == '\r' && t[k + 1] == '\n' {
        assert t[1..][k - 1] == t[k] && t[1..][k] == t[k + 1];
      }
    }
  }

  /** A line without its line break, as `splitlines()` returns it. */
  function Chomp(line: string): string {
    if line == "" || !IsLineBreak(line[|line| - 1]) then line
    else if |line| > 1 && line[|line| - 2] == '\r' && line[|line| - 1] == '\n' then line[..|line| - 2]
    else line[..|line| - 1]
  }

  /** Of a line its break is taken off, and nothing else; "\r\n" goes as a whole. */
  lemma ChompCuts(line: string)
    requires BreaksAtEnd(line)
    ensures line == Chomp(line) || line == Chomp(line) + "\r\n" || (line == Chomp(line) + [line[|line| - 1]])
    ensures forall k :: 0 <= k < |Chomp(line)| ==> !IsLineBreak(Chomp(line)[k])
  {
    if line != "" && IsLineBreak(line[|line| - 1]) {
      var n := |line|;
      assert line == line[..n - 1] + [line[n - 1]];
      if n > 1 && line[n - 2] == '\r' && line[n - 1] == '\n' {
        assert line == line[..n - 2] + "\r\n";
      }
    }
  }

  function Join(sep: string, parts: seq<string>): string {
    if parts == [] then ""
    else if |parts| == 1 then parts[0]
    else Join(sep, parts[..|parts| - 1]) + sep + parts[|parts| - 1]
  }

  /** A Python slice index: negative counts from the end, and out of range is clamped. */
  function SliceIndex(i: int, n: nat): (r: nat)
    ensures r <= n
  {
    if i < 0 then (if n + i < 0 then 0 else n + i) else if i > n then n else i
  }

  function Slice<T>(s: seq<T>, lo: int, hi: int): seq<T> {
    var a, b := SliceIndex(lo, |s|), SliceIndex(hi, |s|);
    if a <= b then s[a..b] else []
  }
}
