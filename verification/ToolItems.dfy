/** Tool observations in a prompt: a header `[name] status:` that truncating keeps, and a body that
    it cuts. */
module ToolItems {
  import opened Basics
  import opened PyText

  /** The parts of `[name] status: body`, status and body stripped. */
  datatype Parts = Parts(name: string, status: string, body: string)

  /** Where the first `c` is, or the length of the text. */
  function IndexOf(t: string, c: char): (r: nat)
    ensures r <= |t| && (r < |t| ==> t[r] == c)
  {
    if t == "" || t[0] == c then 0 else 1 + IndexOf(t[1..], c)
  }

  /** The match of the header pattern: optional whitespace, a non-empty name in brackets, some text
      without a colon, a colon, and the rest. */
  function Parse(text: string): Option<Parts> {
    var t := LStrip(text);
    if t == "" || t[0] != '[' then None
    else
      var name := t[1..][..IndexOf(t[1..], ']')];
      if name == "" || 1 + |name| == |t| then None
      else ParseRest(name, t[2 + |name|..])
  }

  function ParseRest(name: string, rest: string): Option<Parts> {
    var p := IndexOf(rest, ':');
    if p == 0 || p == |rest| then None
    else Some(Parts(name, Strip(rest[..p]), Strip(rest[p + 1..])))
  }

  function Render(h: Parts, body: string): string { "[" + h.name + "] " + h.status + ": " + body }

  type Cutter = (string, int) -> string

  function BodyBudget(maxTokens: int): nat { Max(40, maxTokens * 3) }

  function TailBudget(maxTokens: int): nat { Max(80, maxTokens * 4) }

  /** `_compress_tool_item`: the text it leaves. */
  function ClipTool(cut: Cutter, text: string, maxTokens: int): string {
    match Parse(text)
    case Some(h) =>
      Render(h, if |h.body| > BodyBudget(maxTokens) then cut(h.body, BodyBudget(maxTokens)) else h.body)
    case None =>
      RStrip(if |text| <= TailBudget(maxTokens) then text else text[..TailBudget(maxTokens)]) + "\U{2026}"
  }

  /** A body of at most three characters to a token, or 40, stays; a longer one is cut there. A text without a
      header keeps four characters to a token, or 80, without whitespace at the end, and gets an
      ellipsis even if it is shorter. */
  lemma ClippedTo(cut: Cutter, text: string, m: int)
    ensures var n, tail := if 3 * m > 40 then 3 * m else 40, if 4 * m > 80 then 4 * m else 80;
      match Parse(text)
      case Some(h) =>
        ClipTool(cut, text, m) == "[" + h.name + "] " + h.status + ": " + if |h.body| <= n then h.body else cut(h.body, n)
      case None =>
        var kept := if |text| <= tail then text else text[..tail];
        var r := ClipTool(cut, text, m);
        && |r| <= |kept| + 1 && r[|r| - 1] == '\U{2026}' && r[..|r| - 1] == kept[..|r| - 1]
        && (|r| > 1 ==> !IsSpace(r[|r| - 2])) && forall k :: |r| - 1 <= k < |kept| ==> IsSpace(kept[k])
  {
    hide Parse, Strip;
    var tail := if 4 * m > 80 then 4 * m else 80;
    var kept := if |text| <= tail then text else text[..tail];
    RStripCuts(kept);
    AllSpaceIff(kept[|RStrip(kept)|..]);
    forall k | |RStrip(kept)| <= k < |kept| ensures IsSpace(kept[k]) {
      assert kept[k] == kept[|RStrip(kept)|..][k - |RStrip(kept)|];
    }
  }

  // ----- the header survives -----

  lemma {:induction false} IndexOfPrefix(a: string, c: char, b: string)
    requires c !in a
    ensures IndexOf(a + [c] + b, c) == |a|
  {
    if a != "" {
      assert a[0] in a;
      IndexOfPrefix(a[1..], c, b);
      assert (a + [c] + b)[1..] == a[1..] + [c] + b;
    }
  }

  lemma {:induction false} IndexOfFirst(t: string, c: char)
    ensures c !in t[..IndexOf(t, c)]
  {
    if t != "" && t[0] != c {
      IndexOfFirst(t[1..], c);
      assert t[..IndexOf(t, c)] == [t[0]] + t[1..][..IndexOf(t[1..], c)];
    }
  }

  lemma TightIsStripped(t: string)
    requires t != "" ==> !IsSpace(t[0]) && !IsSpace(t[|t| - 1])
    ensures Strip(t) == t
  {
  }

  lemma StripTwice(t: string)
    ensures Strip(Strip(t)) == Strip(t)
  {
    StripIsTight(t);
    TightIsStripped(Strip(t));
  }

  lemma StripSpaced(t: string)
    ensures Strip(" " + t) == Strip(t)
  {
    assert (" " + t)[1..] == t;
  }

  ghost predicate WellFormed(h: Parts) {
    h.name != "" && ']' !in h.name && ':' !in h.status && Strip(h.status) == h.status && Strip(h.body) == h.body
  }

  lemma ParseIsWellFormed(text: string)
    ensures Parse(text).Some? ==> WellFormed(Parse(text).value)
  {
    var t := LStrip(text);
    if Parse(text).Some? {
      var n := IndexOf(t[1..], ']');
      IndexOfFirst(t[1..], ']');
      var rest := t[2 + n..];
      var p := IndexOf(rest, ':');
      IndexOfFirst(rest, ':');
      StripHolds(rest[..p], ':');
      StripTwice(rest[..p]);
      StripTwice(rest[p + 1..]);
    }
  }

  lemma ParseRestRendered(h: Parts, body: string)
    requires WellFormed(h)
    ensures ParseRest(h.name, " " + h.status + ": " + body) == Some(h.(body := Strip(body)))
  {
    hide Strip;
    var front, back := " " + h.status, " " + body;
    var rest := front + ": " + body;
    assert rest == front + ":" + back;
    IndexOfPrefix(front, ':', back);
    assert rest[..|front|] == front && rest[|front| + 1..] == back;
    StripSpaced(h.status);
    StripSpaced(body);
  }

  lemma BracketsRendered(name: string, rest: string)
    requires ']' !in name
    ensures var t := "[" + name + "]" + rest;
      t[1..][..IndexOf(t[1..], ']')] == name && t[2 + |name|..] == rest && LStrip(t) == t
  {
    var t := "[" + name + "]" + rest;
    assert t[1..] == name + "]" + rest;
    IndexOfPrefix(name, ']', rest);
  }

  /** A rendered item has the header it was rendered with. */
  lemma ParseRender(h: Parts, body: string)
    requires WellFormed(h)
    ensures Parse(Render(h, body)) == Some(h.(body := Strip(body)))
  {
    hide Strip, LStrip, IndexOf, ParseRest;
    var rest := " " + h.status + ": " + body;
    assert Render(h, body) == "[" + h.name + "]" + rest;
    BracketsRendered(h.name, rest);
    ParseRestRendered(h, body);
    assert rest != "";
  }

  /** Cutting the cut body of this text again changes nothing. */
  predicate BodySettles(cut: Cutter, text: string, maxTokens: int) {
    match Parse(text)
    case None => true
    case Some(h) =>
      var n := BodyBudget(maxTokens);
      |h.body| > n ==>
        var e := cut(h.body, n);
        Strip(e) == e && (|e| <= n || cut(e, n) == e)
  }

  /** The plain cut, with an ellipsis. */
  function PlainCut(body: string, n: int): string {
    if 0 <= n < |body| then body[..n] + "\U{2026}" else body
  }

  lemma PlainCutSettles(text: string, maxTokens: int)
    ensures BodySettles(PlainCut, text, maxTokens)
  {
    hide Parse, Strip;
    if Parse(text).Some? {
      ParseIsWellFormed(text);
      PlainCutTwice(Parse(text).value.body, BodyBudget(maxTokens));
    }
  }

  lemma PlainCutTwice(body: string, n: nat)
    requires n > 0 && Strip(body) == body
    ensures |body| > n ==> Strip(PlainCut(body, n)) == PlainCut(body, n) && PlainCut(PlainCut(body, n), n) == PlainCut(body, n)
  {
    if |body| > n {
      var e := PlainCut(body, n);
      StripIsTight(body);
      assert e[0] == body[0] && e[|e| - 1] == '\U{2026}';
      TightIsStripped(e);
      assert e[..n] == body[..n];
    }
  }

  /** Clipping a clipped tool item with a header changes nothing. */
  lemma ClipSettles(cut: Cutter, text: string, maxTokens: int)
    requires BodySettles(cut, text, maxTokens) && Parse(text).Some?
    ensures var clipped := ClipTool(cut, text, maxTokens);
      Parse(clipped).Some? && ClipTool(cut, clipped, maxTokens) == clipped
  {
    hide Parse, Strip, Render;
    var h := Parse(text).value;
    ParseIsWellFormed(text);
    var n := BodyBudget(maxTokens);
    var body := if |h.body| > n then cut(h.body, n) else h.body;
    ParseRender(h, body);
    RenderIgnoresBody(h, body);
  }

  lemma RenderIgnoresBody(h: Parts, body: string)
    ensures forall b :: Render(h.(body := body), b) == Render(h, b)
  {
  }

  /** The header stays in every clipping, however small the target. */
  lemma ClipKeepsHeader(cut: Cutter, text: string, maxTokens: int)
    requires Parse(text).Some?
    ensures var h, clipped := Parse(text).value, ClipTool(cut, text, maxTokens);
      |clipped| >= |Render(h, "")| && Parse(clipped).Some? && Render(Parse(clipped).value, "") == Render(h, "")
  {
    hide Parse, Strip;
    var h := Parse(text).value;
    ParseIsWellFormed(text);
    ParseRender(h, if |h.body| > BodyBudget(maxTokens) then cut(h.body, BodyBudget(maxTokens)) else h.body);
  }

  lemma HeaderlessFits(cut: Cutter, text: string, maxTokens: int)
    requires Parse(text).None?
    ensures |ClipTool(cut, text, maxTokens)| <= TailBudget(maxTokens) + 1
  {
    RStripCuts(if |text| <= TailBudget(maxTokens) then text else text[..TailBudget(maxTokens)]);
  }
}
