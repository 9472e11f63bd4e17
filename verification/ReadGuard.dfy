/** Capping repeated reads of one artifact: which rows count as reads of a file, and what a guarded
    read is answered with. */
module ReadGuard {
  import opened Basics
  import opened PyText

  // ----- names -----

  function Split(path: string): (parts: seq<string>)
    ensures parts != []
  {
    if path == "" then [""]
    else
      var rest := Split(path[1..]);
      if path[0] == '/' then [""] + rest else [[path[0]] + rest[0]] + rest[1..]
  }

  function Parts(path: string, dropped: set<string>): seq<string> { Without(Split(path), dropped) }

  function Without(parts: seq<string>, dropped: set<string>): seq<string> {
    if parts == [] then []
    else
      var n := |parts| - 1;
      Without(parts[..n], dropped) + if parts[n] in dropped then [] else [parts[n]]
  }

  /** `Path(filename).name.strip()`. */
  function Basename(filename: string): string {
    var parts := Parts(filename, {"", "."});
    if parts == [] then "" else Strip(parts[|parts| - 1])
  }

  function Unslash(text: string): string {
    if text == "" then "" else Unslash(text[..|text| - 1]) + [if text[|text| - 1] == '\\' then '/' else text[|text| - 1]]
  }

  /** The artifact path a handler makes of a requested file name: at most one directory, and an
      extension that is allowed. */
  function SafeName(allowed: string -> bool, filename: string): Option<string> {
    var parts := Parts(Strip(Unslash(filename)), {"", ".", ".."});
    if parts == [] || |parts| > 2 || !allowed(parts[|parts| - 1]) then None
    else if |parts| == 1 then Some(parts[0])
    else Some(parts[0] + "/" + parts[1])
  }

  /** A request whose reads the guard can see: the name it looks for is the name that reading the
      file will record. */
  predicate Tracked(allowed: string -> bool, filename: string) {
    var safe := SafeName(allowed, filename);
    safe.Some? && Basename(filename) != "" && Basename(safe.value) == Basename(filename)
  }

  predicate NoSlash(text: string) { '/' !in text && '\\' !in text }

  predicate Plain(name: string) {
    NoSlash(name) && name !in {"", ".", ".."} && !IsSpace(name[0]) && !IsSpace(name[|name| - 1])
  }

  lemma {:induction false} UnslashPlain(text: string)
    requires '\\' !in text
    ensures Unslash(text) == text
  {
    if text != "" {
      UnslashPlain(text[..|text| - 1]);
      assert text[|text| - 1] in text;
    }
  }

  lemma {:induction false} SplitPlain(name: string)
    requires '/' !in name
    ensures Split(name) == [name]
  {
    if name != "" {
      SplitPlain(name[1..]);
      assert name[0] in name;
      assert [name[0]] + name[1..] == name;
    }
  }

  lemma {:induction false} SplitPair(dir: string, name: string)
    requires '/' !in dir && '/' !in name
    ensures Split(dir + "/" + name) == [dir, name]
  {
    var path := dir + "/" + name;
    if dir == "" {
      assert path[1..] == name;
      SplitPlain(name);
    } else {
      assert path[1..] == dir[1..] + "/" + name;
      SplitPair(dir[1..], name);
      assert dir[0] in dir;
      assert [dir[0]] + dir[1..] == dir;
    }
  }

  lemma StripPlain(text: string)
    requires text != "" && !IsSpace(text[0]) && !IsSpace(text[|text| - 1])
    ensures Strip(text) == text
  {
  }

  lemma WithoutPair(a: string, b: string, dropped: set<string>)
    requires a !in dropped && b !in dropped
    ensures Without([a], dropped) == [a] && Without([a, b], dropped) == [a, b]
  {
    assert [a, b][..1] == [a];
    assert [a][..0] == [];
  }

  lemma PlainBasename(dir: string, name: string)
    requires Plain(dir) && Plain(name)
    ensures Basename(name) == name && Basename(dir + "/" + name) == name
  {
    SplitPlain(name);
    SplitPair(dir, name);
    WithoutPair(name, name, {"", "."});
    WithoutPair(dir, name, {"", "."});
    StripPlain(name);
  }

  lemma PlainSafeName(allowed: string -> bool, dir: string, name: string)
    requires Plain(dir) && Plain(name) && allowed(name)
    ensures SafeName(allowed, name) == Some(name) && SafeName(allowed, dir + "/" + name) == Some(dir + "/" + name)
  {
    hide Split, Without, Strip, Unslash;
    UnslashPlain(name);
    UnslashPlain(dir + "/" + name);
    StripPlain(name);
    StripPlain(dir + "/" + name);
    SplitPlain(name);
    SplitPair(dir, name);
    WithoutPair(name, name, {"", ".", ".."});
    WithoutPair(dir, name, {"", ".", ".."});
  }

  /** Ordinary names, alone or in one directory, are tracked. */
  lemma PlainPathsAreTracked(allowed: string -> bool, dir: string, name: string)
    requires Plain(dir) && Plain(name) && allowed(name)
    ensures Tracked(allowed, name) && Tracked(allowed, dir + "/" + name)
  {
    hide SafeName, Basename;
    PlainBasename(dir, name);
    PlainSafeName(allowed, dir, name);
  }

  /** A backslash in the request, which the handler reads as a slash, hides the read. */
  lemma BackslashIsUntracked(allowed: string -> bool, dir: string, name: string)
    requires Plain(dir) && Plain(name) && allowed(name)
    ensures SafeName(allowed, dir + "\\" + name) == Some(dir + "/" + name)
    ensures !Tracked(allowed, dir + "\\" + name)
  {
    var path := dir + "\\" + name;
    PlainBasename(dir, name);
    SplitPlain(path);
    WithoutPair(path, path, {"", "."});
    StripPlain(path);
    UnslashOne(dir, name);
    StripPlain(dir + "/" + name);
    SplitPair(dir, name);
    WithoutPair(dir, name, {"", ".", ".."});
    assert |Basename(path)| > |name|;
  }

  lemma {:induction false} UnslashOne(dir: string, name: string)
    requires '\\' !in dir && '\\' !in name
    ensures Unslash(dir + "\\" + name) == dir + "/" + name
  {
    var path := dir + "\\" + name;
    if name == "" {
      assert path[..|path| - 1] == dir;
      UnslashPlain(dir);
    } else {
      var n := |name| - 1;
      UnslashOne(dir, name[..n]);
      assert path[..|path| - 1] == dir + "\\" + name[..n];
      assert name[n] in name;
    }
  }

  // ----- rows -----

  datatype Tool = ReadText | WriteText | EditText | AppendText | Unparsed | Unnamed | OtherTool(name: string)

  datatype RowStatus = RowOk | RowCached | RowBlocked | RowError

  datatype Kind = ReadKind | WriteKind | EditKind | ToolKind | CodeKind | AnswerKind | RetrieveKind | InvalidKind

  /** `ok` is a result status of "ok". An empty name stands for a missing one. */
  datatype Result = Result(filename: string, path: string, content: Option<string>, ok: bool, replacements: int)

  datatype Row = Row(tool: Tool, status: RowStatus, kind: Kind, filename: string, path: string,
                     paramFilename: string, result: Option<Result>)

  function FirstSet(a: string, b: string): string { if a != "" then a else b }

  function RowFile(row: Row): string {
    var inner := if row.result.Some? then row.result.value else Result("", "", None, false, 0);
    var named := FirstSet(FirstSet(inner.filename, row.filename), FirstSet(inner.path, row.path));
    Basename(FirstSet(named, row.paramFilename))
  }

  /** A row that counts as a read of this file. */
  predicate ReadOf(row: Row, target: string) {
    row.tool == ReadText && row.status in {RowOk, RowCached} && RowFile(row) == target
  }

  function CountRows(rows: seq<Row>, target: string): nat {
    if rows == [] then 0
    else CountRows(rows[..|rows| - 1], target) + if ReadOf(rows[|rows| - 1], target) then 1 else 0
  }

  function CountReads(rows: seq<Row>, filename: string): nat {
    if Basename(filename) == "" then 0 else CountRows(rows, Basename(filename))
  }

  method CountArtifactReads(rows: seq<Row>, filename: string) returns (count: nat)
    ensures count == CountReads(rows, filename)
  {
    var target := Basename(filename);
    if target == "" { return 0; }
    count := 0;
    for i := 0 to |rows|
      invariant count == CountRows(rows[..i], target)
    {
      assert rows[..i + 1][..i] == rows[..i];
      if rows[i].tool != ReadText { continue; }
      if rows[i].status !in {RowOk, RowCached} { continue; }
      if RowFile(rows[i]) == target { count := count + 1; }
    }
    assert rows[..|rows|] == rows;
  }

  predicate HasContent(row: Row) { row.result.Some? && row.result.value.content.Some? }

  function LastRead(rows: seq<Row>, target: string): Option<Result> {
    if target == "" || rows == [] then None
    else
      var n := |rows| - 1;
      if ReadOf(rows[n], target) && HasContent(rows[n]) then rows[n].result else LastRead(rows[..n], target)
  }

  method FindLastArtifactRead(rows: seq<Row>, filename: string) returns (r: Option<Result>)
    ensures r == LastRead(rows, Basename(filename))
  {
    hide ReadOf, HasContent, Basename;
    var target := Basename(filename);
    if target == "" { return None; }
    var i := |rows|;
    assert rows[..|rows|] == rows;
    while i > 0
      invariant 0 <= i <= |rows|
      invariant LastRead(rows[..i], target) == LastRead(rows, target)
    {
      i := i - 1;
      assert rows[..i + 1][..i] == rows[..i];
      if ReadOf(rows[i], target) && HasContent(rows[i]) { return rows[i].result; }
    }
    return None;
  }

  /** It is the latest read of the file that has content. */
  lemma {:induction false} LastReadIsLatest(rows: seq<Row>, target: string) returns (i: nat)
    requires target != ""
    ensures LastRead(rows, target).Some? ==>
      && i < |rows| && ReadOf(rows[i], target) && HasContent(rows[i]) && LastRead(rows, target) == rows[i].result
      && (forall j :: i < j < |rows| ==> !(ReadOf(rows[j], target) && HasContent(rows[j])))
    ensures LastRead(rows, target).None? ==> forall j :: 0 <= j < |rows| ==> !(ReadOf(rows[j], target) && HasContent(rows[j]))
  {
    hide ReadOf;
    i := 0;
    if rows != [] {
      var n := |rows| - 1;
      if ReadOf(rows[n], target) && HasContent(rows[n]) { i := n; } else { i := LastReadIsLatest(rows[..n], target); }
    }
  }

  // ----- the guard -----

  datatype Block = Proceed | Reuse(last: Result) | Refuse

  function Limit(setting: int): nat { if setting < 1 then 1 else setting }

  function BlockRepeat(setting: int, rows: seq<Row>, filename: string): Block {
    if CountReads(rows, filename) < Limit(setting) then Proceed
    else match LastRead(rows, Basename(filename)) case Some(last) => Reuse(last) case None => Refuse
  }

  method BlockRepeatArtifactRead(setting: int, rows: seq<Row>, filename: string) returns (b: Block)
    ensures b == BlockRepeat(setting, rows, filename)
  {
    var count := CountArtifactReads(rows, filename);
    if count < Limit(setting) { return Proceed; }
    var last := FindLastArtifactRead(rows, filename);
    match last
    case Some(result) => return Reuse(result);
    case None => return Refuse;
  }

  lemma {:induction false} CountConcat(a: seq<Row>, b: seq<Row>, target: string)
    ensures CountRows(a + b, target) == CountRows(a, target) + CountRows(b, target)
  {
    if b == [] {
      assert a + b == a;
    } else {
      CountConcat(a, b[..|b| - 1], target);
      assert (a + b)[..|a + b| - 1] == a + b[..|b| - 1];
    }
  }
}
