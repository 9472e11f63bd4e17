/** Executing a batch of planned actions: the rows it appends, what the read guard lets through over
    many batches, and when a batch may claim that its edits were applied. */
module ActionExecutor {
  import opened Basics
  import opened PyText
  import opened ReadGuard

  // ----- actions and what the handlers answer -----

  /** A file's text as the read handler finds it. */
  datatype Found = Missing | Unreadable | Text(text: string)

  datatype Answer = Done(file: string, replacements: int) | NotFound | BadValue | Crashed

  datatype Invocation = Invoked(row: Row) | ToolFailed

  /** A planned action together with what the services it calls answer. `RunCode` carries the status
      that the engineering run ends with, the one thing of it that is kept here. */
  datatype Action =
    | Invalid
    | AnswerAction
    | Retrieve
    | RunCode(status: RowStatus)
    | RunTool(name: string, invocation: Invocation)
    | ReadFile(filename: string, found: Found)
    | WriteFile(appends: bool, outcome: Answer)
    | EditFile(targeted: bool, outcome: Answer)

  datatype Executed = Deferred(kind: Kind) | Ran(kind: Kind, status: RowStatus)

  datatype Facts = Facts(executed: seq<Executed>, attempted: int, applied: int, editApplied: Option<bool>)

  /** The part of a turn's state that executing actions reads and writes; `nested` are the rows
      inside its observations. */
  datatype Turn = Turn(results: seq<Row>, nested: seq<Row>, facts: Facts)

  datatype Config = Config(setting: int, allowed: string -> bool)

  function KindOf(a: Action): Kind {
    match a
    case Invalid => InvalidKind
    case AnswerAction => AnswerKind
    case Retrieve => RetrieveKind
    case RunCode(_) => CodeKind
    case RunTool(_, _) => ToolKind
    case ReadFile(_, _) => ReadKind
    case WriteFile(_, _) => WriteKind
    case EditFile(_, _) => EditKind
  }

  // ----- one row -----

  function ErrorRow(tool: Tool, kind: Kind): Row {
    Row(tool, RowError, kind, "", "", "", Some(Result("", "", None, false, 0)))
  }

  function HandlerRow(tool: Tool, kind: Kind, outcome: Answer, failed: Tool): Row {
    match outcome
    case Done(file, n) => Row(tool, RowOk, kind, "", "", "", Some(Result(file, file, None, true, n)))
    case _ => ErrorRow(failed, kind)
  }

  function ReadRow(c: Config, seen: seq<Row>, filename: string, found: Found): Row {
    match BlockRepeat(c.setting, seen, filename)
    case Reuse(last) => Row(ReadText, RowCached, ReadKind, "", "", "", Some(last.(ok := false)))
    case Refuse => Row(ReadText, RowBlocked, ReadKind, "", "", "", Some(Result(Basename(filename), "", None, false, 0)))
    case Proceed =>
      match SafeName(c.allowed, filename)
      case None => ErrorRow(ReadText, ReadKind)
      case Some(safe) =>
        if found.Text? then Row(ReadText, RowOk, ReadKind, "", "", "", Some(Result(safe, safe, Some(found.text), true, 0)))
        else ErrorRow(ReadText, ReadKind)
  }

  /** A write result has no count of replacements, so it counts none. */
  function Uncounted(outcome: Answer): Answer { if outcome.Done? then outcome.(replacements := 0) else outcome }

  /** The row an action leaves; `seen` is what the guard looks at. An edit without a target is
      carried out as a write. */
  function Entry(c: Config, seen: seq<Row>, a: Action): Row {
    match a
    case Invalid => ErrorRow(Unparsed, InvalidKind)
    case RunTool(name, invocation) =>
      if name == "" then ErrorRow(Unnamed, ToolKind)
      else if invocation.Invoked? then invocation.row.(status := RowOk, kind := ToolKind)
      else ErrorRow(OtherTool(name), ToolKind)
    case ReadFile(filename, found) => ReadRow(c, seen, filename, found)
    case WriteFile(appends, outcome) =>
      var tool := if appends then AppendText else WriteText;
      HandlerRow(tool, WriteKind, Uncounted(outcome), tool)
    case EditFile(targeted, outcome) =>
      HandlerRow(if targeted then EditText else WriteText, EditKind,
                 if targeted then outcome else Uncounted(outcome), EditText)
    case _ => ErrorRow(Unparsed, KindOf(a))
  }

  predicate LeavesRow(a: Action) { a.Invalid? || a.RunTool? || a.ReadFile? || a.WriteFile? || a.EditFile? }

  /** `is_edit_applied`. */
  predicate Applied(row: Row) { row.result.Some? && row.result.value.ok && row.result.value.replacements >= 1 }

  // ----- a batch -----

  /** The local variables of a batch; `seen` is the state the handlers are given. */
  datatype Exec = Exec(results: seq<Row>, seen: seq<Row>, executed: seq<Executed>, attempted: nat, applied: nat)

  function Log(a: Action, row: Row): Executed {
    match a
    case AnswerAction => Deferred(AnswerKind)
    case Retrieve => Deferred(RetrieveKind)
    case RunCode(status) => Ran(CodeKind, status)
    case _ => Ran(KindOf(a), row.status)
  }

  function Do(c: Config, nested: seq<Row>, e: Exec, a: Action): Exec {
    var row := Entry(c, e.seen, a);
    Exec(if LeavesRow(a) then e.results + [row] else e.results,
         if a.RunCode? then e.results + nested else e.seen,
         e.executed + [Log(a, row)],
         if a.EditFile? then e.attempted + 1 else e.attempted,
         if a.EditFile? && Applied(row) then e.applied + 1 else e.applied)
  }

  function DoAll(c: Config, nested: seq<Row>, e: Exec, actions: seq<Action>): Exec {
    if actions == [] then e
    else Do(c, nested, DoAll(c, nested, e, actions[..|actions| - 1]), actions[|actions| - 1])
  }

  function Start(t: Turn): Exec { Exec(t.results, t.results + t.nested, [], 0, 0) }

  function Finish(t: Turn, e: Exec): Turn {
    Turn(e.results, t.nested,
         if e.attempted == 0 then t.facts.(executed := e.executed)
         else Facts(e.executed, e.attempted, e.applied, Some(e.applied == e.attempted)))
  }

  function Execute(c: Config, t: Turn, actions: seq<Action>): Turn {
    if actions == [] then t else Finish(t, DoAll(c, t.nested, Start(t), actions))
  }

  method ExecuteArtifactRead(c: Config, seen: seq<Row>, filename: string, found: Found) returns (row: Row)
    ensures row == ReadRow(c, seen, filename, found)
  {
    var block := BlockRepeatArtifactRead(c.setting, seen, filename);
    match block {
      case Reuse(last) =>
        return Row(ReadText, RowCached, ReadKind, "", "", "", Some(last.(ok := false)));
      case Refuse =>
        return Row(ReadText, RowBlocked, ReadKind, "", "", "", Some(Result(Basename(filename), "", None, false, 0)));
      case Proceed =>
    }
    var safe := SafeName(c.allowed, filename);
    if safe.None? || !found.Text? { return ErrorRow(ReadText, ReadKind); }
    return Row(ReadText, RowOk, ReadKind, "", "", "", Some(Result(safe.value, safe.value, Some(found.text), true, 0)));
  }

  method ExecuteActions(c: Config, t: Turn, actions: seq<Action>) returns (u: Turn)
    ensures u == Execute(c, t, actions)
  {
    hide Entry, Applied;
    if actions == [] { return t; }
    var results, seen := t.results, t.results + t.nested;
    var executed: seq<Executed> := [];
    var attempted: nat, applied: nat := 0, 0;
    for i := 0 to |actions|
      invariant DoAll(c, t.nested, Start(t), actions[..i]) == Exec(results, seen, executed, attempted, applied)
    {
      assert actions[..i + 1][..i] == actions[..i];
      var a := actions[i];
      if a.AnswerAction? || a.Retrieve? {
        executed := executed + [Deferred(KindOf(a))];
        continue;
      }
      if a.RunCode? {
        seen := results + t.nested;
        executed := executed + [Ran(CodeKind, a.status)];
        continue;
      }
      var row := Entry(c, seen, a);
      results := results + [row];
      executed := executed + [Ran(KindOf(a), row.status)];
      if a.EditFile? {
        attempted := attempted + 1;
        if Applied(row) { applied := applied + 1; }
      }
    }
    assert actions[..|actions|] == actions;
    u := Finish(t, Exec(results, seen, executed, attempted, applied));
  }

  // ----- earlier results stay -----

  lemma {:induction false} DoAllExtends(c: Config, nested: seq<Row>, e: Exec, actions: seq<Action>)
    ensures e.results <= DoAll(c, nested, e, actions).results
    ensures |DoAll(c, nested, e, actions).executed| == |e.executed| + |actions|
  {
    if actions != [] {
      DoAllExtends(c, nested, e, actions[..|actions| - 1]);
    }
  }

  // ----- edit honesty -----

  predicate EditRow(row: Row) { row.kind == EditKind }

  function EditRows(rows: seq<Row>): nat {
    if rows == [] then 0 else EditRows(rows[..|rows| - 1]) + if EditRow(rows[|rows| - 1]) then 1 else 0
  }

  function AppliedRows(rows: seq<Row>): nat {
    if rows == [] then 0
    else AppliedRows(rows[..|rows| - 1])
         + if EditRow(rows[|rows| - 1]) && Applied(rows[|rows| - 1]) then 1 else 0
  }

  function EditActions(actions: seq<Action>): nat {
    if actions == [] then 0 else EditActions(actions[..|actions| - 1]) + if actions[|actions| - 1].EditFile? then 1 else 0
  }

  lemma RowsOneMore(rows: seq<Row>, row: Row)
    ensures EditRows(rows + [row]) == EditRows(rows) + if EditRow(row) then 1 else 0
    ensures AppliedRows(rows + [row]) == AppliedRows(rows) + if EditRow(row) && Applied(row) then 1 else 0
  {
    assert (rows + [row])[..|rows|] == rows;
  }

  lemma {:induction false} AppliedAtMostEdits(rows: seq<Row>)
    ensures AppliedRows(rows) <= EditRows(rows)
    ensures AppliedRows(rows) == EditRows(rows) <==>
      forall i :: 0 <= i < |rows| && EditRow(rows[i]) ==> Applied(rows[i])
  {
    if rows != [] {
      AppliedAtMostEdits(rows[..|rows| - 1]);
    }
  }

  lemma EntryKind(c: Config, seen: seq<Row>, a: Action)
    ensures Entry(c, seen, a).kind == KindOf(a)
    ensures EditRow(Entry(c, seen, a)) <==> a.EditFile?
  {
  }

  lemma StepCounters(c: Config, nested: seq<Row>, e: Exec, a: Action, from: nat)
    requires from <= |e.results|
    ensures var f := Do(c, nested, e, a);
      && from <= |f.results|
      && EditRows(f.results[from..]) - EditRows(e.results[from..]) == f.attempted - e.attempted
      && AppliedRows(f.results[from..]) - AppliedRows(e.results[from..]) == f.applied - e.applied
      && f.attempted == e.attempted + if a.EditFile? then 1 else 0
  {
    hide Entry, EditRows, AppliedRows, Applied, EditRow;
    var row := Entry(c, e.seen, a);
    EntryKind(c, e.seen, a);
    RowsOneMore(e.results[from..], row);
    assert (e.results + [row])[from..] == e.results[from..] + [row];
  }

  /** The counters of a batch are those of the rows it has appended. */
  lemma {:induction false} CountersMatchRows(c: Config, t: Turn, actions: seq<Action>)
    ensures var e := DoAll(c, t.nested, Start(t), actions);
      && |t.results| <= |e.results|
      && e.attempted == EditRows(e.results[|t.results|..]) == EditActions(actions)
      && e.applied == AppliedRows(e.results[|t.results|..])
  {
    hide Do;
    if actions != [] {
      CountersMatchRows(c, t, actions[..|actions| - 1]);
      StepCounters(c, t.nested, DoAll(c, t.nested, Start(t), actions[..|actions| - 1]), actions[|actions| - 1], |t.results|);
    }
  }

  /** A batch keeps all earlier rows in front of its own, and claims that its edits were applied
      exactly if every edit it attempted reports at least one replacement; a batch without edits
      leaves the earlier claim standing. */
  lemma EditsAppliedIff(c: Config, t: Turn, actions: seq<Action>)
    ensures var u := Execute(c, t, actions);
      && t.results <= u.results
      && (EditActions(actions) > 0 ==>
            && u.facts.attempted == EditActions(actions)
            && u.facts.editApplied == Some(forall i :: |t.results| <= i < |u.results| && EditRow(u.results[i]) ==>
                                             Applied(u.results[i])))
      && (EditActions(actions) == 0 ==> u.facts.editApplied == t.facts.editApplied)
  {
    hide DoAll;
    if actions != [] {
      var e := DoAll(c, t.nested, Start(t), actions);
      DoAllExtends(c, t.nested, Start(t), actions);
      var added := e.results[|t.results|..];
      assert e.results == t.results + added;
      CountersMatchRows(c, t, actions);
      AppliedAtMostEdits(added);
      assert forall i :: |t.results| <= i < |e.results| ==> e.results[i] == added[i - |t.results|];
      assert forall i :: 0 <= i < |added| ==> added[i] == e.results[i + |t.results|];
    }
  }

  /** An edit without a target is written as a whole file, and never counts as applied. */
  lemma {:induction false} UntargetedEditIsNotApplied(c: Config, t: Turn, actions: seq<Action>, k: nat)
    requires k < |actions| && actions[k].EditFile? && !actions[k].targeted
    ensures DoAll(c, t.nested, Start(t), actions).applied < DoAll(c, t.nested, Start(t), actions).attempted
    ensures Execute(c, t, actions).facts.editApplied == Some(false)
    decreases |actions|
  {
    var n := |actions| - 1;
    if k < n {
      UntargetedEditIsNotApplied(c, t, actions[..n], k);
    } else {
      AppliedNeverExceeds(c, t, actions[..n]);
    }
  }

  lemma {:induction false} AppliedNeverExceeds(c: Config, t: Turn, actions: seq<Action>)
    ensures DoAll(c, t.nested, Start(t), actions).applied <= DoAll(c, t.nested, Start(t), actions).attempted
  {
    if actions != [] {
      AppliedNeverExceeds(c, t, actions[..|actions| - 1]);
    }
  }

  // ----- the cap on reads -----

  /** A row of a guarded read that the guard let through to the handler, and that succeeded. */
  predicate LetThrough(row: Row, target: string) {
    row.kind == ReadKind && row.status == RowOk && ReadOf(row, target)
  }

  function ReadsThrough(rows: seq<Row>, target: string): nat {
    if rows == [] then 0
    else ReadsThrough(rows[..|rows| - 1], target) + if LetThrough(rows[|rows| - 1], target) then 1 else 0
  }

  lemma {:induction false} ReadsThroughConcat(a: seq<Row>, b: seq<Row>, target: string)
    ensures ReadsThrough(a + b, target) == ReadsThrough(a, target) + ReadsThrough(b, target)
  {
    if b == [] {
      assert a + b == a;
    } else {
      ReadsThroughConcat(a, b[..|b| - 1], target);
      assert (a + b)[..|a + b| - 1] == a + b[..|b| - 1];
    }
  }

  lemma {:induction false} ReadsThroughAreCounted(rows: seq<Row>, target: string)
    ensures ReadsThrough(rows, target) <= CountRows(rows, target)
  {
    if rows != [] {
      ReadsThroughAreCounted(rows[..|rows| - 1], target);
    }
  }

  /** Reading this request records this file. */
  predicate Records(c: Config, filename: string, target: string) {
    SafeName(c.allowed, filename).Some? && Basename(SafeName(c.allowed, filename).value) == target
  }

  /** All reads that would record the file ask for it by a name the guard matches with it. */
  predicate AsksFor(c: Config, a: Action, target: string) {
    a.ReadFile? && Records(c, a.filename, target) ==> Basename(a.filename) == target
  }

  function Asked(c: Config, actions: seq<Action>, target: string): nat {
    if actions == [] then 0
    else
      var a := actions[|actions| - 1];
      Asked(c, actions[..|actions| - 1], target) + if a.ReadFile? && Records(c, a.filename, target) then 1 else 0
  }

  /** Once the rows the guard sees hold as many reads of the file as the limit, no read of it
      is let through. */
  lemma EntryLetThrough(c: Config, seen: seq<Row>, a: Action, target: string)
    requires target != "" && AsksFor(c, a, target)
    ensures LetThrough(Entry(c, seen, a), target) ==>
      a.ReadFile? && Records(c, a.filename, target) && CountRows(seen, target) < Limit(c.setting)
  {
    hide Basename, SafeName, CountRows, LastRead;
  }

  lemma StepLetThrough(c: Config, nested: seq<Row>, e: Exec, a: Action, target: string)
    requires target != "" && AsksFor(c, a, target)
    ensures var f := Do(c, nested, e, a);
      ReadsThrough(f.results, target) <= ReadsThrough(e.results, target)
        + (if a.ReadFile? && Records(c, a.filename, target) && CountRows(e.seen, target) < Limit(c.setting) then 1 else 0)
  {
    hide Entry, Records;
    EntryLetThrough(c, e.seen, a, target);
    var row := Entry(c, e.seen, a);
    assert (e.results + [row])[..|e.results|] == e.results;
  }

  /** What the guard sees during a batch never counts fewer reads than were let through before
      the batch. */
  lemma {:induction false} SeenNeverShrinks(c: Config, t: Turn, actions: seq<Action>, target: string)
    ensures CountRows(DoAll(c, t.nested, Start(t), actions).seen, target) >= ReadsThrough(t.results, target)
  {
    hide Entry;
    var e := DoAll(c, t.nested, Start(t), actions);
    ReadsThroughAreCounted(t.results, target);
    if actions == [] {
      CountConcat(t.results, t.nested, target);
    } else {
      var n := |actions| - 1;
      SeenNeverShrinks(c, t, actions[..n], target);
      if actions[n].RunCode? {
        var before := DoAll(c, t.nested, Start(t), actions[..n]);
        DoAllExtends(c, t.nested, Start(t), actions[..n]);
        var added := before.results[|t.results|..];
        assert before.results == t.results + added;
        CountConcat(t.results, added, target);
        CountConcat(before.results, t.nested, target);
      }
    }
  }

  /** One batch: a file at its limit is not read again, and any other by as many reads as ask for
      it. */
  lemma {:induction false} BatchReads(c: Config, t: Turn, actions: seq<Action>, target: string)
    requires target != "" && forall i :: 0 <= i < |actions| ==> AsksFor(c, actions[i], target)
    ensures var after := ReadsThrough(DoAll(c, t.nested, Start(t), actions).results, target);
      after <= ReadsThrough(t.results, target)
        + if ReadsThrough(t.results, target) < Limit(c.setting) then Asked(c, actions, target) else 0
  {
    hide Do;
    if actions != [] {
      var n := |actions| - 1;
      BatchReads(c, t, actions[..n], target);
      SeenNeverShrinks(c, t, actions[..n], target);
      StepLetThrough(c, t.nested, DoAll(c, t.nested, Start(t), actions[..n]), actions[n], target);
    }
  }

  /** One batch of a run: before it, other nodes may append rows of their own and replace the
      observations. */
  datatype Batch = Batch(others: seq<Row>, nested: seq<Row>, actions: seq<Action>)

  predicate Foreign(rows: seq<Row>) { forall r :: r in rows ==> r.kind != ReadKind }

  function RunBatches(c: Config, t: Turn, batches: seq<Batch>): Turn {
    if batches == [] then t
    else
      var n := |batches| - 1;
      var u := RunBatches(c, t, batches[..n]);
      Execute(c, Turn(u.results + batches[n].others, batches[n].nested, u.facts), batches[n].actions)
  }

  lemma {:induction false} ForeignReads(rows: seq<Row>, target: string)
    requires Foreign(rows)
    ensures ReadsThrough(rows, target) == 0
  {
    if rows != [] {
      ForeignReads(rows[..|rows| - 1], target);
      assert rows[|rows| - 1] in rows;
    }
  }

  predicate AsksInBatch(c: Config, b: Batch, target: string, most: nat) {
    && Foreign(b.others) && Asked(c, b.actions, target) <= most
    && (forall i :: 0 <= i < |b.actions| ==> AsksFor(c, b.actions[i], target))
  }

  /** Over any run of batches, the guarded reads of one file that are let through are at most
      limit - 1 plus the most that one batch asks for: the guard sees where the batch started. */
  lemma {:induction false} ReadsAreCapped(c: Config, t: Turn, batches: seq<Batch>, target: string, most: nat)
    requires target != "" && forall i :: 0 <= i < |batches| ==> AsksInBatch(c, batches[i], target, most)
    ensures ReadsThrough(RunBatches(c, t, batches).results, target)
         <= Max(ReadsThrough(t.results, target), Limit(c.setting) - 1 + most)
  {
    hide AsksFor;
    if batches != [] {
      var n := |batches| - 1;
      ReadsAreCapped(c, t, batches[..n], target, most);
      var u := RunBatches(c, t, batches[..n]);
      var b := batches[n];
      assert AsksInBatch(c, b, target, most);
      ForeignReads(b.others, target);
      ReadsThroughConcat(u.results, b.others, target);
      BatchReads(c, Turn(u.results + b.others, b.nested, u.facts), b.actions, target);
    }
  }

  // ----- the cap is exact -----

  function Repeat<T>(x: T, n: nat): seq<T> { if n == 0 then [] else Repeat(x, n - 1) + [x] }

  function NewTurn(): Turn { Turn([], [], Facts([], 0, 0, None)) }

  lemma OneReadBatch(c: Config, t: Turn, filename: string, text: string)
    requires t.nested == []
    ensures Execute(c, t, [ReadFile(filename, Text(text))]).results
         == t.results + [ReadRow(c, t.results, filename, Text(text))]
  {
    var a := ReadFile(filename, Text(text));
    assert [a][..0] == [];
    assert t.results + [] == t.results;
    assert DoAll(c, [], Start(t), [a]) == Do(c, [], Start(t), a);
  }

  lemma SafeNameIsSet(allowed: string -> bool, filename: string)
    requires SafeName(allowed, filename).Some?
    ensures SafeName(allowed, filename).value != ""
  {
    WithoutDrops(Split(Strip(Unslash(filename))), {"", ".", ".."});
  }

  lemma {:induction false} WithoutDrops(parts: seq<string>, dropped: set<string>)
    ensures forall i :: 0 <= i < |Without(parts, dropped)| ==> Without(parts, dropped)[i] !in dropped
  {
    if parts != [] {
      WithoutDrops(parts[..|parts| - 1], dropped);
    }
  }

  /** A read of this file with content, let through or repeated. */
  predicate SameRead(row: Row, safe: string) {
    && row.tool == ReadText && row.status in {RowOk, RowCached} && row.kind == ReadKind
    && row.result.Some? && row.result.value.content.Some? && row.result.value.filename == safe
  }

  predicate AllSame(rows: seq<Row>, safe: string) { forall i :: 0 <= i < |rows| ==> SameRead(rows[i], safe) }

  lemma SameReadFile(row: Row, safe: string)
    requires SameRead(row, safe) && safe != ""
    ensures RowFile(row) == Basename(safe) && HasContent(row)
    ensures LetThrough(row, Basename(safe)) <==> row.status == RowOk
  {
    hide Basename;
  }

  lemma {:induction false} AllSameCounts(rows: seq<Row>, safe: string, target: string)
    requires AllSame(rows, safe) && safe != ""
    ensures CountRows(rows, target) == if target == Basename(safe) then |rows| else 0
    ensures target == Basename(safe) != "" && rows != [] ==>
      LastRead(rows, target).Some? && LastRead(rows, target) == rows[|rows| - 1].result
  {
    hide Basename, RowFile;
    if rows != [] {
      AllSameCounts(rows[..|rows| - 1], safe, target);
      SameReadFile(rows[|rows| - 1], safe);
    }
  }

  lemma OneMoreRead(c: Config, rows: seq<Row>, filename: string, text: string, safe: string)
    requires SafeName(c.allowed, filename) == Some(safe) && AllSame(rows, safe)
    ensures var row := ReadRow(c, rows, filename, Text(text));
      && SameRead(row, safe)
      && (row.status == RowOk <==> !Tracked(c.allowed, filename) || |rows| < Limit(c.setting))
  {
    hide Basename, SafeName, CountRows, LastRead;
    SafeNameIsSet(c.allowed, filename);
    AllSameCounts(rows, safe, Basename(filename));
  }

  /** A turn in which one file is asked for again and again, one read to a batch. */
  function Rereads(c: Config, filename: string, text: string, n: nat): Turn {
    RunBatches(c, NewTurn(), Repeat(Batch([], [], [ReadFile(filename, Text(text))]), n))
  }

  lemma RereadsOnce(c: Config, filename: string, text: string, n: nat)
    requires n > 0
    ensures Rereads(c, filename, text, n).results
         == Rereads(c, filename, text, n - 1).results
            + [ReadRow(c, Rereads(c, filename, text, n - 1).results, filename, Text(text))]
  {
    hide Execute;
    var b := Batch([], [], [ReadFile(filename, Text(text))]);
    RepeatLength(b, n - 1);
    var batches := Repeat(b, n);
    assert batches[..|batches| - 1] == Repeat(b, n - 1);
    var u := RunBatches(c, NewTurn(), Repeat(b, n - 1));
    assert u.results + [] == u.results;
    OneReadBatch(c, Turn(u.results, [], u.facts), filename, text);
  }

  lemma {:induction false} RepeatLength<T>(x: T, n: nat)
    ensures |Repeat(x, n)| == n
  {
    if n > 0 {
      RepeatLength(x, n - 1);
    }
  }

  /** Rereading a file that is there, one read to a batch, is let through until the limit exactly
      if the request is tracked, and every time if it is not. */
  lemma {:induction false} RereadsLetThrough(c: Config, filename: string, text: string, n: nat, safe: string)
    requires SafeName(c.allowed, filename) == Some(safe)
    ensures var rows := Rereads(c, filename, text, n).results;
      && |rows| == n && AllSame(rows, safe)
      && ReadsThrough(rows, Basename(safe))
         == if Tracked(c.allowed, filename) && Limit(c.setting) < n then Limit(c.setting) else n
  {
    hide Basename, SafeName, Tracked, Rereads, ReadRow, LetThrough, SameRead;
    SafeNameIsSet(c.allowed, filename);
    if n == 0 {
      assert Rereads(c, filename, text, 0).results == [] by { NoRereads(c, filename, text); }
    } else {
      RereadsLetThrough(c, filename, text, n - 1, safe);
      RereadsOnce(c, filename, text, n);
      var rows := Rereads(c, filename, text, n - 1).results;
      var row := ReadRow(c, rows, filename, Text(text));
      OneMoreRead(c, rows, filename, text, safe);
      SameReadFile(row, safe);
      assert (rows + [row])[..|rows|] == rows;
    }
  }

  lemma NoRereads(c: Config, filename: string, text: string)
    ensures Rereads(c, filename, text, 0).results == []
  {
  }

  /** Below the limit, one batch may ask for the file as often as it likes: every read is let
      through, because the guard does not see the batch's own reads. */
  lemma {:induction false} BatchOfReads(c: Config, t: Turn, filename: string, text: string, safe: string, m: nat)
    requires SafeName(c.allowed, filename) == Some(safe)
    requires CountReads(t.results + t.nested, filename) < Limit(c.setting)
    ensures var e := DoAll(c, t.nested, Start(t), Repeat(ReadFile(filename, Text(text)), m));
      e.seen == t.results + t.nested && ReadsThrough(e.results, Basename(safe)) == ReadsThrough(t.results, Basename(safe)) + m
  {
    hide Do, ReadsThrough, Basename, SafeName, CountReads;
    if m > 0 {
      var a := ReadFile(filename, Text(text));
      BatchOfReads(c, t, filename, text, safe, m - 1);
      RepeatLength(a, m - 1);
      assert Repeat(a, m)[..|Repeat(a, m)| - 1] == Repeat(a, m - 1);
      ReadProceeds(c, t.nested, DoAll(c, t.nested, Start(t), Repeat(a, m - 1)), filename, text, safe);
    }
  }

  lemma ReadProceeds(c: Config, nested: seq<Row>, e: Exec, filename: string, text: string, safe: string)
    requires SafeName(c.allowed, filename) == Some(safe) && CountReads(e.seen, filename) < Limit(c.setting)
    ensures var f := Do(c, nested, e, ReadFile(filename, Text(text)));
      f.seen == e.seen && ReadsThrough(f.results, Basename(safe)) == ReadsThrough(e.results, Basename(safe)) + 1
  {
    hide Basename, SafeName, ReadRow, LetThrough;
    var row := ReadRow(c, e.seen, filename, Text(text));
    ReadIsLetThrough(c, e.seen, filename, text, safe);
    assert (e.results + [row])[..|e.results|] == e.results;
  }

  lemma ReadIsLetThrough(c: Config, seen: seq<Row>, filename: string, text: string, safe: string)
    requires SafeName(c.allowed, filename) == Some(safe) && CountReads(seen, filename) < Limit(c.setting)
    ensures LetThrough(ReadRow(c, seen, filename, Text(text)), Basename(safe))
  {
    hide Basename, SafeName, CountReads, LastRead, RowFile, ReadOf, LetThrough;
    SafeNameIsSet(c.allowed, filename);
    SameReadFile(ReadRow(c, seen, filename, Text(text)), safe);
  }

  lemma {:induction false} AllAsk(c: Config, filename: string, found: Found, safe: string, m: nat)
    requires SafeName(c.allowed, filename) == Some(safe)
    ensures Asked(c, Repeat(ReadFile(filename, found), m), Basename(safe)) == m
  {
    hide Basename, SafeName;
    if m > 0 {
      var a := ReadFile(filename, found);
      AllAsk(c, filename, found, safe, m - 1);
      assert Repeat(a, m)[..|Repeat(a, m)| - 1] == Repeat(a, m - 1);
    }
  }

  /** So the bound is reached: limit - 1 reads one by one, then m in one batch. */
  lemma BoundIsReached(c: Config, filename: string, text: string, safe: string, m: nat)
    requires SafeName(c.allowed, filename) == Some(safe) && Tracked(c.allowed, filename) && m > 0
    ensures var t := Rereads(c, filename, text, Limit(c.setting) - 1);
      ReadsThrough(Execute(c, t.(nested := []), Repeat(ReadFile(filename, Text(text)), m)).results, Basename(safe))
        == Limit(c.setting) - 1 + m
    ensures Asked(c, Repeat(ReadFile(filename, Text(text)), m), Basename(safe)) == m
  {
    hide Basename, SafeName, Asked, Rereads, RunBatches, DoAll, LastRead;
    var t := Rereads(c, filename, text, Limit(c.setting) - 1);
    RereadsLetThrough(c, filename, text, Limit(c.setting) - 1, safe);
    SafeNameIsSet(c.allowed, filename);
    AllSameCounts(t.results, safe, Basename(filename));
    assert t.results + [] == t.results;
    BatchOfReads(c, t.(nested := []), filename, text, safe, m);
    RepeatLength(ReadFile(filename, Text(text)), m);
    AllAsk(c, filename, Text(text), safe, m);
  }
}
