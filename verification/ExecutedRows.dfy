/** What the rows of a batch of actions say: which reads are let through, repeated or refused, what the
    other actions leave, and which actions leave a row. */
module ExecutedRows {
  import opened Basics
  import opened PyText
  import opened ReadGuard
  import opened ActionExecutor

  // ----- reads -----

  ghost function ReadsAt(rows: seq<Row>, target: string): set<int> {
    set i | 0 <= i < |rows| && ReadOf(rows[i], target)
  }

  lemma {:induction false} CountIsOfReads(rows: seq<Row>, target: string)
    ensures CountRows(rows, target) == |ReadsAt(rows, target)|
  {
    hide ReadOf;
    if rows != [] {
      var n := |rows| - 1;
      CountIsOfReads(rows[..n], target);
      assert ReadsAt(rows, target) == ReadsAt(rows[..n], target) + if ReadOf(rows[n], target) then {n} else {};
    }
  }

  /** The name that a row's file is taken from: of the result before the row, a file name before a path,
      and the requested name last. */
  lemma RowFileFrom(row: Row)
    ensures var r := if row.result.Some? then row.result.value else Result("", "", None, false, 0);
      && (r.filename != "" ==> RowFile(row) == Basename(r.filename))
      && (r.filename == "" && row.filename != "" ==> RowFile(row) == Basename(row.filename))
      && (r.filename == "" && row.filename == "" && r.path != "" ==> RowFile(row) == Basename(r.path))
      && (r.filename == "" && row.filename == "" && r.path == "" && row.path != "" ==> RowFile(row) == Basename(row.path))
      && (r.filename == "" && row.filename == "" && r.path == "" && row.path == "" ==>
            RowFile(row) == Basename(row.paramFilename))
  {
    hide Basename;
  }

  /** The latest row that is a read of the file and has content. */
  ghost predicate LatestContent(rows: seq<Row>, target: string, i: int) {
    && 0 <= i < |rows| && ReadOf(rows[i], target) && HasContent(rows[i])
    && forall j :: i < j < |rows| ==> !(ReadOf(rows[j], target) && HasContent(rows[j]))
  }

  lemma LatestIsReused(rows: seq<Row>, target: string, i: int)
    requires target != "" && LatestContent(rows, target, i)
    ensures LastRead(rows, target) == rows[i].result
  {
    hide ReadOf, HasContent;
    var k := LastReadIsLatest(rows, target);
  }

  lemma ReusedIsLatest(rows: seq<Row>, target: string) returns (i: nat)
    requires target != "" && LastRead(rows, target).Some?
    ensures LatestContent(rows, target, i)
  {
    hide ReadOf, HasContent;
    i := LastReadIsLatest(rows, target);
  }

  lemma NothingReused(rows: seq<Row>, target: string)
    requires target == "" || forall i :: !LatestContent(rows, target, i)
    ensures LastRead(rows, target).None?
  {
    if target != "" && LastRead(rows, target).Some? {
      var i := ReusedIsLatest(rows, target);
    }
  }

  /** A read is carried out exactly if the rows hold fewer reads of the file than the limit, which is at
      least one; its row is then an error, or has the text that was found. At the limit the row repeats
      the content of the latest read that has any, or else is refused. */
  lemma ReadRowSays(c: Config, seen: seq<Row>, filename: string, found: Found, row: Row)
    requires row == ReadRow(c, seen, filename, found)
    ensures row.kind == ReadKind && row.tool == ReadText && row.result.Some?
    ensures var target, limit, safe := Basename(filename), if c.setting < 1 then 1 else c.setting, SafeName(c.allowed, filename);
      var full := target != "" && |ReadsAt(seen, target)| >= limit;
      && (row.status == RowOk <==> !full && safe.Some? && found.Text?)
      && (row.status == RowError <==> !full && (safe.None? || !found.Text?))
      && (row.status == RowOk ==>
            row.result.value.content == Some(found.text) && row.result.value.ok && row.result.value.filename == safe.value)
      && (row.status == RowCached <==> full && exists i :: LatestContent(seen, target, i))
      && (forall i :: full && LatestContent(seen, target, i) ==>
            row.result.value.content == seen[i].result.value.content
            && row.result.value.filename == seen[i].result.value.filename)
      && (row.status == RowBlocked <==> full && forall i :: !LatestContent(seen, target, i))
    ensures row.status in {RowError, RowBlocked} ==> row.result.value.content.None?
    ensures row.result.value.ok <==> row.status == RowOk
    ensures row.status != RowCached ==> row.result.value.replacements == 0
  {
    hide Basename, SafeName, CountRows, LastRead, ReadsAt;
    var target := Basename(filename);
    CountIsOfReads(seen, target);
    if i :| LatestContent(seen, target, i) {
      if target != "" { LatestIsReused(seen, target, i); }
    } else {
      NothingReused(seen, target);
    }
    forall i | target != "" && LatestContent(seen, target, i) ensures LastRead(seen, target) == seen[i].result {
      LatestIsReused(seen, target, i);
    }
  }

  // ----- the other actions -----

  /** Whether the handler of an action succeeded. */
  predicate Succeeds(a: Action) {
    match a
    case RunTool(name, invocation) => name != "" && invocation.Invoked?
    case WriteFile(_, outcome) => outcome.Done?
    case EditFile(_, outcome) => outcome.Done?
    case _ => false
  }

  /** The row of any other action has status ok exactly if its handler succeeded, and is an error row with
      nothing in it otherwise. A write or edit names the file; only an edit with a target carries
      the number of replacements, and one without is a write by its tool's name, if it succeeds. */
  lemma ActionRowSays(c: Config, seen: seq<Row>, a: Action, row: Row)
    requires a.Invalid? || a.RunTool? || a.WriteFile? || a.EditFile?
    requires row == Entry(c, seen, a)
    ensures if Succeeds(a) then row.status == RowOk
            else row.status == RowError && row.result == Some(Result("", "", None, false, 0))
    ensures a.RunTool? && Succeeds(a) ==> row == a.invocation.row.(status := RowOk, kind := ToolKind)
    ensures (a.WriteFile? || a.EditFile?) && Succeeds(a) ==>
      row.result == Some(Result(a.outcome.file, a.outcome.file, None, true,
                                if a.EditFile? && a.targeted then a.outcome.replacements else 0))
    ensures a.Invalid? ==> row.tool == Unparsed && row.kind == InvalidKind
    ensures a.RunTool? ==>
      row.kind == ToolKind && (!Succeeds(a) ==> row.tool == if a.name == "" then Unnamed else OtherTool(a.name))
    ensures a.WriteFile? ==> row.tool == (if a.appends then AppendText else WriteText) && row.kind == WriteKind
    ensures a.EditFile? ==>
      row.tool == (if a.outcome.Done? && !a.targeted then WriteText else EditText) && row.kind == EditKind
    ensures a.EditFile? ==> (Applied(row) <==> a.outcome.Done? && a.targeted && a.outcome.replacements >= 1)
    ensures row.tool == ReadText ==> a.RunTool? && Succeeds(a) && a.invocation.row.tool == ReadText
  {
  }

  // ----- a batch -----

  /** Answers and retrievals are deferred to other nodes; engineering runs append no row here. */
  predicate IsDeferred(a: Action) { a in {AnswerAction, Retrieve} }

  function RowActions(actions: seq<Action>): nat {
    if actions == [] then 0
    else RowActions(actions[..|actions| - 1])
         + if IsDeferred(actions[|actions| - 1]) || actions[|actions| - 1].RunCode? then 0 else 1
  }

  /** The log entry of an action whose row, if it leaves one, is the given one. */
  predicate LogsAs(a: Action, x: Executed, row: Row) {
    match a
    case AnswerAction => x == Deferred(AnswerKind)
    case Retrieve => x == Deferred(RetrieveKind)
    case RunCode(status) => x == Ran(CodeKind, status)
    case _ => x == Ran(row.kind, row.status)
  }

  /** A log entry that says what became of its action: of those that leave a row, the next row. */
  ghost predicate LoggedAt(actions: seq<Action>, e: Exec, first: nat, i: nat)
    requires i < |actions|
  {
    var at := first + RowActions(actions[..i]);
    && i < |e.executed| && (IsDeferred(actions[i]) || actions[i].RunCode? || at < |e.results|)
    && LogsAs(actions[i], e.executed[i], if at < |e.results| then e.results[at] else ErrorRow(Unparsed, InvalidKind))
  }

  /** Each action is logged in its place, a deferred one as deferred and an engineering run with the
      status it ends with; every other action appends one row, whose status is logged. */
  lemma {:induction false} BatchLogs(c: Config, t: Turn, actions: seq<Action>, e: Exec)
    requires e == DoAll(c, t.nested, Start(t), actions)
    ensures |e.executed| == |actions| && |e.results| == |t.results| + RowActions(actions)
    ensures forall i :: 0 <= i < |actions| ==> LoggedAt(actions, e, |t.results|, i)
  {
    hide Do, LoggedAt;
    if actions != [] {
      var n := |actions| - 1;
      var d := DoAll(c, t.nested, Start(t), actions[..n]);
      BatchLogs(c, t, actions[..n], d);
      OneMoreLogged(c, t.nested, actions[n], d, e);
      forall i | 0 <= i < n ensures LoggedAt(actions, e, |t.results|, i) {
        StaysLogged(actions, d, e, |t.results|, i);
      }
      LastLogged(actions, d, e, |t.results|);
    }
  }

  ghost predicate OneMore(a: Action, d: Exec, e: Exec) {
    && |e.executed| == |d.executed| + 1 && d.executed <= e.executed && d.results <= e.results
    && |e.results| == |d.results| + (if IsDeferred(a) || a.RunCode? then 0 else 1)
    && LogsAs(a, e.executed[|d.executed|], if e.results == [] then ErrorRow(Unparsed, InvalidKind) else e.results[|e.results| - 1])
  }

  lemma OneMoreLogged(c: Config, nested: seq<Row>, a: Action, d: Exec, e: Exec)
    requires e == Do(c, nested, d, a)
    ensures OneMore(a, d, e)
  {
    hide Entry;
    EntryKind(c, d.seen, a);
  }

  lemma StaysLogged(actions: seq<Action>, d: Exec, e: Exec, first: nat, i: nat)
    requires actions != [] && i < |actions| - 1 && OneMore(actions[|actions| - 1], d, e)
    requires LoggedAt(actions[..|actions| - 1], d, first, i)
    ensures LoggedAt(actions, e, first, i)
  {
    hide RowActions;
    assert actions[..|actions| - 1][..i] == actions[..i];
  }

  lemma LastLogged(actions: seq<Action>, d: Exec, e: Exec, first: nat)
    requires actions != [] && OneMore(actions[|actions| - 1], d, e) && |d.executed| == |actions| - 1
    requires |d.results| == first + RowActions(actions[..|actions| - 1])
    ensures LoggedAt(actions, e, first, |actions| - 1)
  {
  }

  /** What a batch leaves of a turn: these rows and this log; an empty one leaves everything. */
  lemma BatchLeaves(c: Config, t: Turn, actions: seq<Action>)
    ensures var u, e := Execute(c, t, actions), DoAll(c, t.nested, Start(t), actions);
      && u.results == e.results && u.nested == t.nested
      && (actions == [] ==> u == t)
      && (actions != [] ==> u.facts.executed == e.executed)
      && (e.attempted == 0 ==> u.facts.attempted == t.facts.attempted && u.facts.applied == t.facts.applied)
      && (e.attempted > 0 ==> u.facts.attempted == e.attempted && u.facts.applied == e.applied)
  {
  }

  // ----- artifact paths -----

  lemma {:induction false} PartsOf(path: string, dropped: set<string>)
    ensures forall x :: x in Parts(path, dropped) ==> x !in dropped && '/' !in x && (forall c :: c in x ==> c in path)
  {
    hide Split, Without;
    SplitParts(path);
    WithoutKeeps(Split(path), dropped);
  }

  lemma {:induction false} SplitParts(path: string)
    ensures forall x :: x in Split(path) ==> '/' !in x && forall c :: c in x ==> c in path
  {
    if path != "" {
      SplitParts(path[1..]);
      var rest := Split(path[1..]);
      assert rest[0] in rest;
      assert forall x :: x in rest[1..] ==> x in rest;
      assert forall c :: c in path[1..] ==> c in path;
    }
  }

  lemma {:induction false} WithoutKeeps(parts: seq<string>, dropped: set<string>)
    ensures forall x :: x in Without(parts, dropped) <==> x in parts && x !in dropped
  {
    if parts != [] {
      var n := |parts| - 1;
      WithoutKeeps(parts[..n], dropped);
      assert parts == parts[..n] + [parts[n]];
    }
  }

  lemma {:induction false} UnslashedHasNone(text: string)
    ensures '\\' !in Unslash(text)
  {
    if text != "" {
      UnslashedHasNone(text[..|text| - 1]);
    }
  }

  /** A safe name stays inside its directory: it is an allowed file name, in at most one directory, and
      neither is a dot or two or holds a slash or a backslash. */
  lemma SafeNameStaysInside(allowed: string -> bool, filename: string) returns (dir: string, name: string)
    requires SafeName(allowed, filename).Some?
    ensures SafeName(allowed, filename).value == if dir == "" then name else dir + "/" + name
    ensures allowed(name) && NoSlash(name) && NoSlash(dir) && name !in {"", ".", ".."} && dir !in {".", ".."}
  {
    hide Split, Without, Strip, Unslash;
    var path := Strip(Unslash(filename));
    var parts := Parts(path, {"", ".", ".."});
    PartsOf(path, {"", ".", ".."});
    UnslashedHasNone(filename);
    StripHolds(Unslash(filename), '\\');
    name := parts[|parts| - 1];
    dir := if |parts| == 1 then "" else parts[0];
    assert name in parts && parts[0] in parts;
  }

  /** Two directories are one too many, and a name that is not allowed is refused wherever it is. */
  lemma RefusedPaths(allowed: string -> bool, a: string, b: string, name: string)
    requires Plain(a) && Plain(b) && Plain(name)
    ensures SafeName(allowed, a + "/" + b + "/" + name).None?
    ensures !allowed(name) ==> SafeName(allowed, name).None? && SafeName(allowed, a + "/" + name).None?
  {
    hide Split, Without, Strip, Unslash;
    var path := a + "/" + b + "/" + name;
    UnslashPlain(path);
    UnslashPlain(name);
    UnslashPlain(a + "/" + name);
    StripPlain(path);
    StripPlain(name);
    StripPlain(a + "/" + name);
    SplitThree(a, b, name);
    SplitPlain(name);
    SplitPair(a, name);
    WithoutPair(a, name, {"", ".", ".."});
    WithoutPair(name, name, {"", ".", ".."});
    WithoutThree(a, b, name, {"", ".", ".."});
  }

  lemma {:induction false} SplitThree(a: string, b: string, name: string)
    requires '/' !in a && '/' !in b && '/' !in name
    ensures Split(a + "/" + b + "/" + name) == [a, b, name]
  {
    var path := a + "/" + b + "/" + name;
    if a == "" {
      assert path[1..] == b + "/" + name;
      SplitPair(b, name);
    } else {
      assert path[1..] == a[1..] + "/" + b + "/" + name;
      SplitThree(a[1..], b, name);
      assert a[0] in a;
      assert [a[0]] + a[1..] == a;
    }
  }

  lemma WithoutThree(a: string, b: string, d: string, dropped: set<string>)
    requires a !in dropped && b !in dropped && d !in dropped
    ensures Without([a, b, d], dropped) == [a, b, d]
  {
    WithoutPair(a, b, dropped);
    assert [a, b, d][..2] == [a, b];
  }
}
