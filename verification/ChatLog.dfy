/** The chat event log of a task and the cached message row that is flushed from it now and then.

    This module gives the meaning of the two tables and of the service's operations on them; the classes
    in `ChatService` carry the same operations out on mutable fields. */
module ChatLog {
  import opened Basics

  type Blocks = seq<string>

  datatype Status = Streaming | Completed | Failed | Interrupted

  datatype Event = Event(messageId: string, taskId: string, seqNo: int, kind: string, delta: string, meta: string)

  datatype Row = Row(status: Status, content: string, blocks: Blocks)

  /** The per-stream context object. */
  datatype Ctx = Ctx(taskId: string, messageId: Option<string>, nextSeq: int, blocks: Blocks, answer: string,
                     lastPersistAt: real, lastPersistSeq: int)

  /** Both tables and one stream's context. */
  datatype Sys = Sys(events: seq<Event>, messages: map<string, Row>, ctx: Ctx)

  /** Settings, and the block projection, which is not part of this model. */
  datatype Config = Config(
    interval: real, minEvents: int,
    apply: (Blocks, Event) -> Blocks,             // apply_event_to_blocks
    project: seq<Event> -> Blocks,                // project_events_to_blocks
    finish: Blocks -> Blocks,                     // finalize_blocks
    display: Blocks -> Blocks,                    // sort_blocks_for_display
    withAnswer: (Blocks, string) -> Blocks,       // ensure_answer_in_blocks
    withThinking: (Blocks, string) -> Blocks)     // ensure_thinking_in_blocks

  predicate IsTelemetry(kind: string) {
    kind in {"ui_task_created", "ui_progress", "ui_node", "ui_plan", "ui_ack"}
  }

  predicate IsAnswer(kind: string) { kind == "answer_delta" || kind == "answer_preview" }

  predicate IsThinking(kind: string) { kind == "thinking_delta" || kind == "thinking_snapshot" }

  // ----- the event table -----

  predicate Clash(x: Event, e: Event) { x.taskId == e.taskId && x.seqNo == e.seqNo }

  /** The uniqueness constraint lets `e` in. */
  predicate Appendable(events: seq<Event>, e: Event) {
    forall i :: 0 <= i < |events| ==> !Clash(events[i], e)
  }

  ghost predicate Unique(events: seq<Event>) {
    forall i, j :: 0 <= i < j < |events| ==> !Clash(events[i], events[j])
  }

  function Insert(sorted: seq<Event>, e: Event): seq<Event> {
    if sorted == [] || e.seqNo <= sorted[0].seqNo then [e] + sorted
    else [sorted[0]] + Insert(sorted[1..], e)
  }

  /** The rows of a task after a sequence number, in sequence order. */
  function Select(events: seq<Event>, taskId: string, after: int): seq<Event> {
    if events == [] then []
    else
      var n := |events| - 1;
      var rest := Select(events[..n], taskId, after);
      if events[n].taskId == taskId && events[n].seqNo > after then Insert(rest, events[n]) else rest
  }

  /** `list_events`: at most `limit` of them. */
  function Page(events: seq<Event>, taskId: string, after: int, limit: nat): seq<Event> {
    var all := Select(events, taskId, after);
    if |all| <= limit then all else all[..limit]
  }

  ghost predicate Ascending(s: seq<Event>) {
    forall i, j :: 0 <= i < j < |s| ==> s[i].seqNo < s[j].seqNo
  }

  lemma {:induction false} InsertAdds(s: seq<Event>, e: Event)
    ensures multiset(Insert(s, e)) == multiset(s) + multiset{e}
  {
    if s != [] {
      assert s == [s[0]] + s[1..];
      InsertAdds(s[1..], e);
    }
  }

  lemma ConsAscending(x: Event, t: seq<Event>)
    requires Ascending(t) && forall y :: y in t ==> x.seqNo < y.seqNo
    ensures Ascending([x] + t)
  {
  }

  lemma {:induction false} InsertAscending(s: seq<Event>, e: Event)
    requires Ascending(s) && forall x :: x in s ==> x.seqNo != e.seqNo
    ensures Ascending(Insert(s, e))
  {
    if s == [] {
    } else if e.seqNo <= s[0].seqNo {
      ConsAscending(e, s);
    } else {
      InsertAscending(s[1..], e);
      InsertAdds(s[1..], e);
      forall x | x in Insert(s[1..], e) ensures s[0].seqNo < x.seqNo {
        assert x in multiset(Insert(s[1..], e));
      }
      ConsAscending(s[0], Insert(s[1..], e));
    }
  }

  /** The rows of a task that come after a sequence number, in table order. */
  function Matching(events: seq<Event>, taskId: string, after: int): seq<Event> {
    if events == [] then []
    else
      var n := |events| - 1;
      Matching(events[..n], taskId, after)
      + if events[n].taskId == taskId && events[n].seqNo > after then [events[n]] else []
  }

  lemma {:induction false} MatchingMembers(events: seq<Event>, taskId: string, after: int, x: Event)
    ensures x in Matching(events, taskId, after) <==> x in events && x.taskId == taskId && x.seqNo > after
  {
    if events != [] {
      var n := |events| - 1;
      MatchingMembers(events[..n], taskId, after, x);
      assert events == events[..n] + [events[n]];
    }
  }

  /** Selecting keeps every matching row once, in strictly ascending order. */
  lemma {:induction false} SelectIsSorted(events: seq<Event>, taskId: string, after: int)
    requires Unique(events)
    ensures Ascending(Select(events, taskId, after))
    ensures multiset(Select(events, taskId, after)) == multiset(Matching(events, taskId, after))
  {
    if events != [] {
      var n := |events| - 1;
      var e := events[n];
      SelectIsSorted(events[..n], taskId, after);
      if e.taskId == taskId && e.seqNo > after {
        var rest := Select(events[..n], taskId, after);
        forall x | x in rest ensures x.seqNo != e.seqNo {
          assert x in multiset(rest);
          MatchingMembers(events[..n], taskId, after, x);
          var i :| 0 <= i < n && events[i] == x;
          assert !Clash(events[i], events[n]);
        }
        InsertAscending(rest, e);
        InsertAdds(rest, e);
      }
    }
  }

  // ----- paging -----

  function Above(s: seq<Event>, after: int): seq<Event> {
    if s == [] then [] else (if s[0].seqNo > after then [s[0]] else []) + Above(s[1..], after)
  }

  lemma {:induction false} AboveInsert(s: seq<Event>, e: Event, after: int)
    requires Ascending(s)
    ensures Above(Insert(s, e), after) == if e.seqNo > after then Insert(Above(s, after), e) else Above(s, after)
  {
    if s == [] || e.seqNo <= s[0].seqNo {
      assert Insert(s, e)[1..] == s;
      if s != [] && e.seqNo > after {
        assert Above(s, after)[0] == s[0];
      }
    } else {
      AboveInsert(s[1..], e, after);
      assert Insert(s, e)[1..] == Insert(s[1..], e);
      if s[0].seqNo > after {
        assert Above(s, after)[0] == s[0] && Above(s, after)[1..] == Above(s[1..], after);
      } else {
        assert [] + Above(s[1..], after) == Above(s[1..], after);
        assert [] + Above(Insert(s[1..], e), after) == Above(Insert(s[1..], e), after);
      }
    }
  }

  lemma {:induction false} SelectAbove(events: seq<Event>, taskId: string, lo: int, hi: int)
    requires Unique(events) && lo <= hi
    ensures Select(events, taskId, hi) == Above(Select(events, taskId, lo), hi)
  {
    if events != [] {
      var n := |events| - 1;
      SelectAbove(events[..n], taskId, lo, hi);
      SelectIsSorted(events[..n], taskId, lo);
      if events[n].taskId == taskId && events[n].seqNo > lo {
        AboveInsert(Select(events[..n], taskId, lo), events[n], hi);
      }
    }
  }

  lemma {:induction false} AboveSuffix(s: seq<Event>, k: nat)
    requires Ascending(s) && 0 < k <= |s|
    ensures Above(s, s[k - 1].seqNo) == s[k..]
  {
    if k == 1 {
      AllAbove(s[1..], s[0].seqNo);
    } else {
      AboveSuffix(s[1..], k - 1);
      assert s[1..][k - 1..] == s[k..];
    }
  }

  lemma {:induction false} AllAbove(s: seq<Event>, after: int)
    requires forall x :: x in s ==> x.seqNo > after
    ensures Above(s, after) == s
  {
    if s != [] {
      AllAbove(s[1..], after);
    }
  }

  /** Reading on after the last row of a page yields exactly the rows the page left out. */
  lemma NextPage(events: seq<Event>, taskId: string, after: int, k: nat)
    requires Unique(events) && 0 < k <= |Select(events, taskId, after)|
    ensures var s := Select(events, taskId, after);
      Select(events, taskId, s[k - 1].seqNo) == s[k..]
  {
    var s := Select(events, taskId, after);
    SelectIsSorted(events, taskId, after);
    assert s[k - 1] in multiset(s);
    MatchingMembers(events, taskId, after, s[k - 1]);
    SelectAbove(events, taskId, after, s[k - 1].seqNo);
    AboveSuffix(s, k);
  }

  /** A full page and what is read after it make up what there was; a shorter page is all of it. */
  lemma PageThenRest(events: seq<Event>, taskId: string, after: int, limit: nat)
    requires Unique(events) && limit > 0
    ensures var p, s := Page(events, taskId, after, limit), Select(events, taskId, after);
      && (|p| < limit ==> p == s)
      && (|p| >= limit ==> p + Select(events, taskId, p[|p| - 1].seqNo) == s)
  {
    hide Unique, Select;
    var p, s := Page(events, taskId, after, limit), Select(events, taskId, after);
    if |p| >= limit {
      NextPage(events, taskId, after, |p|);
      assert p == s[..|p|];
    }
  }

  /** What a page holds: matching rows in ascending order, at most `limit`, and fewer only if
      there are no more; every matching row it leaves out comes after it. */
  ghost predicate PageOf(events: seq<Event>, taskId: string, after: int, limit: nat, page: seq<Event>) {
    && |page| <= limit && Ascending(page)
    && (forall e :: e in page ==> e in events && e.taskId == taskId && e.seqNo > after)
    && (forall e :: e in events && e.taskId == taskId && e.seqNo > after && e !in page ==>
          |page| == limit && (forall x :: x in page ==> x.seqNo < e.seqNo))
  }

  lemma PageIsExact(events: seq<Event>, taskId: string, after: int, limit: nat)
    requires Unique(events)
    ensures PageOf(events, taskId, after, limit, Page(events, taskId, after, limit))
  {
    hide Unique, Select, Ascending, Page;
    var s, page := Select(events, taskId, after), Page(events, taskId, after, limit);
    SelectIsSorted(events, taskId, after);
    PageIsPrefix(events, taskId, after, limit);
    AscendingPrefix(s, |page|);
    forall e | e in page ensures e in events && e.taskId == taskId && e.seqNo > after {
      SelectedIff(events, taskId, after, e);
    }
    forall e | e in events && e.taskId == taskId && e.seqNo > after && e !in page
      ensures |page| == limit && (forall x :: x in page ==> x.seqNo < e.seqNo)
    {
      SelectedIff(events, taskId, after, e);
    }
  }

  lemma PageIsPrefix(events: seq<Event>, taskId: string, after: int, limit: nat)
    ensures var s, page := Select(events, taskId, after), Page(events, taskId, after, limit);
      |page| <= limit && |page| <= |s| && page == s[..|page|] && (|page| < limit ==> page == s)
  {
    hide Select;
  }

  lemma AscendingPrefix(s: seq<Event>, n: nat)
    requires Ascending(s) && n <= |s|
    ensures Ascending(s[..n]) && forall e :: e in s[..n] ==> e in s
    ensures forall e, x :: e in s && e !in s[..n] && x in s[..n] ==> x.seqNo < e.seqNo
  {
    forall e, x | e in s && e !in s[..n] && x in s[..n] ensures x.seqNo < e.seqNo {
      var i :| 0 <= i < n && s[..n][i] == x;
      var j :| 0 <= j < |s| && s[j] == e;
      InPrefix(s, j, n);
    }
  }

  lemma InPrefix(s: seq<Event>, j: nat, n: nat)
    requires j < |s| && n <= |s|
    ensures j < n ==> s[j] in s[..n]
  {
    assert j < n ==> s[..n][j] == s[j];
  }

  lemma SelectedIff(events: seq<Event>, taskId: string, after: int, e: Event)
    requires Unique(events)
    ensures e in Select(events, taskId, after) <==> e in events && e.taskId == taskId && e.seqNo > after
  {
    hide Unique, Select;
    SelectIsSorted(events, taskId, after);
    MatchingMembers(events, taskId, after, e);
    assert e in multiset(Select(events, taskId, after)) <==> e in multiset(Matching(events, taskId, after));
  }

  // ----- the service's operations -----

  /** What the answer deltas of a message add up to, up to a sequence number. */
  function AnswerUpTo(events: seq<Event>, messageId: string, last: int): string {
    if events == [] then ""
    else
      var n := |events| - 1;
      var e := events[n];
      AnswerUpTo(events[..n], messageId, last)
      + if e.messageId == messageId && e.seqNo <= last && IsAnswer(e.kind) then e.delta else ""
  }

  /** How many events of a message are logged after a sequence number. */
  function LoggedAfter(events: seq<Event>, messageId: string, last: int): nat {
    if events == [] then 0
    else
      var n := |events| - 1;
      LoggedAfter(events[..n], messageId, last)
      + if events[n].messageId == messageId && events[n].seqNo > last then 1 else 0
  }

  function Begin(s: Sys, newId: string): Sys {
    if s.ctx.messageId.Some? then s
    else s.(messages := s.messages[newId := Row(Streaming, "", [])],
            ctx := s.ctx.(messageId := Some(newId), blocks := [], answer := ""))
  }

  /** The message row takes over the context, up to the last sequence number handed out. */
  function Flush(s: Sys, now: real): Sys
    requires s.ctx.messageId.Some?
  {
    var id := s.ctx.messageId.value;
    s.(messages := if id in s.messages
                   then s.messages[id := s.messages[id].(content := s.ctx.answer, blocks := s.ctx.blocks)]
                   else s.messages,
       ctx := s.ctx.(lastPersistAt := now, lastPersistSeq := s.ctx.nextSeq - 1))
  }

  predicate Due(cfg: Config, c: Ctx, now: real) {
    !(c.lastPersistAt > 0.0 && now - c.lastPersistAt < cfg.interval
      && c.nextSeq - 1 - c.lastPersistSeq < cfg.minEvents)
  }

  function NewEvent(c: Ctx, kind: string, delta: string, meta: string): Event
    requires c.messageId.Some?
  {
    Event(c.messageId.value, c.taskId, c.nextSeq, kind, delta, meta)
  }

  /** The context after a logged event, before any flush. */
  function Absorb(cfg: Config, c: Ctx, e: Event): Ctx {
    c.(nextSeq := c.nextSeq + 1,
       blocks := if IsTelemetry(e.kind) then c.blocks else cfg.apply(c.blocks, e),
       answer := if IsAnswer(e.kind) then c.answer + e.delta else c.answer)
  }

  /** `record_stream_event`. A clash of sequence numbers raises after the number is used up. */
  function Record(cfg: Config, s0: Sys, newId: string, kind: string, delta: string, meta: string, now: real): Sys {
    var s := Begin(s0, newId);
    var e := NewEvent(s.ctx, kind, delta, meta);
    if !Appendable(s.events, e) then s.(ctx := s.ctx.(nextSeq := s.ctx.nextSeq + 1))
    else
      var t := s.(events := s.events + [e], ctx := Absorb(cfg, s.ctx, e));
      if IsThinking(kind) || Due(cfg, t.ctx, now) then Flush(t, now) else t
  }

  /** `sync_thinking_text` without a snapshot event. */
  function Sync(cfg: Config, s: Sys, text: string): Sys {
    if s.ctx.messageId.None? || text == "" then s
    else
      var id := s.ctx.messageId.value;
      var blocks := cfg.withThinking(s.ctx.blocks, text);
      s.(ctx := s.ctx.(blocks := blocks),
         messages := if id in s.messages then s.messages[id := s.messages[id].(blocks := blocks)] else s.messages)
  }

  function OwnEvents(events: seq<Event>, messageId: string): seq<Event> {
    if events == [] then []
    else (if events[0].messageId == messageId then [events[0]] else []) + OwnEvents(events[1..], messageId)
  }

  function FinalBlocks(cfg: Config, msgEvents: seq<Event>, ctxBlocks: Blocks, content: string, thinking: Option<string>): Blocks {
    var raw := if msgEvents != [] then cfg.project(msgEvents) else cfg.finish(ctxBlocks);
    var shown := cfg.withAnswer(cfg.display(cfg.finish(raw)), content);
    if thinking.Some? && thinking.value != "" then cfg.withThinking(shown, thinking.value) else shown
  }

  /** `finalize_assistant_message`. */
  function Finalize(cfg: Config, s: Sys, status: Status, content: Option<string>, thinking: Option<string>): Sys {
    if s.ctx.messageId.None? then s
    else
      var id := s.ctx.messageId.value;
      var text := if content.Some? then content.value else s.ctx.answer;
      var msgEvents := OwnEvents(Select(s.events, s.ctx.taskId, 0), id);
      s.(messages := if id in s.messages
                     then s.messages[id := Row(status, text, FinalBlocks(cfg, msgEvents, s.ctx.blocks, text, thinking))]
                     else s.messages)
  }

  // ----- what a recorded event and a finalization leave -----

  /** What an event that is let in leaves: it is the last one of the log, under the next number; an
      answer delta is added to the answer. The row takes over the context exactly if the event is a
      thinking event, nothing was persisted yet, the interval is over, or enough events have come in;
      otherwise nothing is persisted. */
  lemma RecordLeaves(cfg: Config, s: Sys, newId: string, kind: string, delta: string, meta: string, now: real,
                     id: string, e: Event, t: Sys)
    requires id == (if s.ctx.messageId.Some? then s.ctx.messageId.value else newId)
    requires e == Event(id, s.ctx.taskId, s.ctx.nextSeq, kind, delta, meta) && Appendable(s.events, e)
    requires t == Record(cfg, s, newId, kind, delta, meta, now)
    ensures t.events == s.events + [e] && t.ctx.nextSeq == s.ctx.nextSeq + 1 && t.ctx.messageId == Some(id)
    ensures t.ctx.answer == (if s.ctx.messageId.Some? then s.ctx.answer else "")
                            + if kind in {"answer_delta", "answer_preview"} then delta else ""
    ensures var blocks := if s.ctx.messageId.Some? then s.ctx.blocks else [];
      t.ctx.blocks == if kind in {"ui_task_created", "ui_progress", "ui_node", "ui_plan", "ui_ack"} then blocks
                      else cfg.apply(blocks, e)
    ensures var due := || kind in {"thinking_delta", "thinking_snapshot"} || s.ctx.lastPersistAt <= 0.0
                       || now - s.ctx.lastPersistAt >= cfg.interval || s.ctx.nextSeq - s.ctx.lastPersistSeq >= cfg.minEvents;
      if due then
        && t.ctx.lastPersistAt == now && t.ctx.lastPersistSeq == s.ctx.nextSeq
        && (id in t.messages ==> t.messages[id].content == t.ctx.answer && t.messages[id].blocks == t.ctx.blocks)
        && forall other :: other != id && other in s.messages ==> other in t.messages && t.messages[other] == s.messages[other]
      else
        && t.ctx.lastPersistAt == s.ctx.lastPersistAt && t.ctx.lastPersistSeq == s.ctx.lastPersistSeq
        && t.messages == if s.ctx.messageId.Some? then s.messages else s.messages[id := Row(Streaming, "", [])]
  {
  }

  /** The uniqueness constraint: a task has one event to a number. */
  lemma AppendableIff(events: seq<Event>, e: Event)
    ensures Appendable(events, e) <==> forall x :: x in events ==> x.taskId != e.taskId || x.seqNo != e.seqNo
  {
    if Appendable(events, e) {
      forall x | x in events ensures x.taskId != e.taskId || x.seqNo != e.seqNo {
        var i :| 0 <= i < |events| && events[i] == x;
        assert !Clash(events[i], e);
      }
    }
  }

  /** An event of someone else is only added to the log, and one whose number is taken changes nothing. */
  lemma ForeignLeaves(cfg: Config, s: Sys, newId: string, e: Event)
    ensures var t := Do(cfg, s, newId, Foreign(e));
      && t.messages == s.messages && t.ctx == s.ctx
      && t.events == if exists x :: x in s.events && x.taskId == e.taskId && x.seqNo == e.seqNo then s.events else s.events + [e]
  {
    AppendableIff(s.events, e);
  }

  /** A thinking text that is not empty is shown in the context's blocks and by the row alike, whatever the
      projection does to show it; without one, or before the message, nothing changes. */
  lemma SyncShows(cfg: Config, s: Sys, text: string, thinks: (Blocks, string) -> bool)
    requires forall b, t :: thinks(cfg.withThinking(b, t), t)
    ensures var t := Sync(cfg, s, text);
      && t.events == s.events && t.ctx == s.ctx.(blocks := t.ctx.blocks) && t.messages.Keys == s.messages.Keys
      && (s.ctx.messageId.None? || text == "" ==> t == s)
      && (s.ctx.messageId.Some? && text != "" ==>
            && thinks(t.ctx.blocks, text)
            && forall id :: id in s.messages ==>
                 t.messages[id] == if id == s.ctx.messageId.value then s.messages[id].(blocks := t.ctx.blocks) else s.messages[id])
  {
  }

  /** Whatever the projection does: if adding an answer makes blocks show it, and adding a thinking text
      keeps what they show, then a finalized row shows its content, and its thinking text if there is one;
      and what sorting the finished blocks for display establishes, and the two additions keep, holds of
      the row. */
  lemma FinalRowShows(cfg: Config, s: Sys, status: Status, content: Option<string>, thinking: Option<string>,
                      shows: (Blocks, string) -> bool, thinks: (Blocks, string) -> bool, tidy: Blocks -> bool, row: Row)
    requires s.ctx.messageId.Some? && s.ctx.messageId.value in s.messages
    requires row == Finalize(cfg, s, status, content, thinking).messages[s.ctx.messageId.value]
    requires forall b, t :: shows(cfg.withAnswer(b, t), t)
    requires forall b, t, u :: shows(b, t) ==> shows(cfg.withThinking(b, u), t)
    requires forall b, t :: thinks(cfg.withThinking(b, t), t)
    requires forall b :: tidy(cfg.display(cfg.finish(b)))
    requires forall b, t :: tidy(b) ==> tidy(cfg.withAnswer(b, t)) && tidy(cfg.withThinking(b, t))
    ensures row.status == status && row.content == (if content.Some? then content.value else s.ctx.answer)
    ensures shows(row.blocks, row.content) && tidy(row.blocks)
    ensures thinking.Some? && thinking.value != "" ==> thinks(row.blocks, thinking.value)
  {
    hide Select, OwnEvents;
  }

  /** The final blocks are made of the message's logged events, or of the context's blocks if it has none. */
  lemma FinalRowStartsFrom(cfg: Config, s: Sys, status: Status, content: Option<string>, thinking: Option<string>, row: Row)
    returns (own: seq<Event>)
    requires Unique(s.events) && s.ctx.messageId.Some? && s.ctx.messageId.value in s.messages
    requires row == Finalize(cfg, s, status, content, thinking).messages[s.ctx.messageId.value]
    requires forall b :: cfg.finish(b) == b && cfg.display(b) == b
    requires forall b, t :: cfg.withAnswer(b, t) == b && cfg.withThinking(b, t) == b
    ensures forall e :: e in own <==>
      e in s.events && e.messageId == s.ctx.messageId.value && e.taskId == s.ctx.taskId && e.seqNo > 0
    ensures row.blocks == if own == [] then s.ctx.blocks else cfg.project(own)
  {
    hide Select, OwnEvents, Unique;
    var all := Select(s.events, s.ctx.taskId, 0);
    own := OwnEvents(all, s.ctx.messageId.value);
    forall e ensures e in own <==> e in s.events && e.messageId == s.ctx.messageId.value && e.taskId == s.ctx.taskId && e.seqNo > 0 {
      SelectedIff(s.events, s.ctx.taskId, 0, e);
      OwnMembers(all, s.ctx.messageId.value, e);
    }
  }

  lemma {:induction false} OwnMembers(events: seq<Event>, id: string, e: Event)
    ensures e in OwnEvents(events, id) <==> e in events && e.messageId == id
  {
    if events != [] {
      OwnMembers(events[1..], id, e);
    }
  }

  // ----- runs -----

  /** What can happen before finalization; `Foreign` is an event of another message, logged for
      any task by anyone else. */
  datatype Op =
    | RecordOp(kind: string, delta: string, meta: string, now: real)
    | SyncOp(text: string)
    | Foreign(event: Event)

  function Do(cfg: Config, s: Sys, newId: string, op: Op): Sys {
    match op
    case RecordOp(kind, delta, meta, now) => Record(cfg, s, newId, kind, delta, meta, now)
    case SyncOp(text) => Sync(cfg, s, text)
    case Foreign(e) => if Appendable(s.events, e) then s.(events := s.events + [e]) else s
  }

  function Run(cfg: Config, s: Sys, newId: string, ops: seq<Op>): Sys {
    if ops == [] then s else Do(cfg, Run(cfg, s, newId, ops[..|ops| - 1]), newId, ops[|ops| - 1])
  }

  ghost predicate Legal(newId: string, op: Op) { op.Foreign? ==> op.event.messageId != newId }

  ghost predicate LegalOps(newId: string, ops: seq<Op>) {
    forall i :: 0 <= i < |ops| ==> Legal(newId, ops[i])
  }

  /** A stream about to begin: its message id is new and its numbers start above zero. */
  ghost predicate Starting(s: Sys, newId: string) {
    && Unique(s.events) && newId !in s.messages
    && (forall i :: 0 <= i < |s.events| ==> s.events[i].messageId != newId)
    && s.ctx.messageId == None && s.ctx.answer == "" && s.ctx.nextSeq >= 1 && s.ctx.lastPersistSeq == 0
  }

  ghost predicate OwnInRange(events: seq<Event>, id: string, c: Ctx) {
    forall i :: 0 <= i < |events| && events[i].messageId == id ==>
      events[i].taskId == c.taskId && 0 < events[i].seqNo < c.nextSeq
  }

  /** What every operation keeps until finalization. */
  ghost predicate Inv(cfg: Config, s: Sys, newId: string) {
    && Unique(s.events)
    && 0 <= s.ctx.lastPersistSeq < s.ctx.nextSeq
    && OwnInRange(s.events, newId, s.ctx)
    && s.ctx.answer == AnswerUpTo(s.events, newId, s.ctx.nextSeq - 1)
    && LoggedAfter(s.events, newId, s.ctx.lastPersistSeq) <= s.ctx.nextSeq - 1 - s.ctx.lastPersistSeq
    && (cfg.minEvents >= 1 ==> LoggedAfter(s.events, newId, s.ctx.lastPersistSeq) < cfg.minEvents)
    && (cfg.minEvents < 1 ==> LoggedAfter(s.events, newId, s.ctx.lastPersistSeq) == 0)
    && match s.ctx.messageId
       case None =>
         newId !in s.messages && LoggedAfter(s.events, newId, 0) == 0 && s.ctx.lastPersistSeq == 0
       case Some(id) =>
         id == newId && newId in s.messages
         && s.messages[newId].status == Streaming
         && s.messages[newId].content == AnswerUpTo(s.events, newId, s.ctx.lastPersistSeq)
  }

  lemma {:induction false} NoOwnEvents(events: seq<Event>, id: string, last: int)
    requires forall i :: 0 <= i < |events| ==> events[i].messageId != id
    ensures AnswerUpTo(events, id, last) == "" && LoggedAfter(events, id, last) == 0
  {
    if events != [] {
      NoOwnEvents(events[..|events| - 1], id, last);
    }
  }

  lemma {:induction false} NoneLoggedAfter(events: seq<Event>, id: string, last: int)
    requires LoggedAfter(events, id, last) == 0
    ensures forall i :: 0 <= i < |events| && events[i].messageId == id ==> events[i].seqNo <= last
  {
    if events != [] {
      NoneLoggedAfter(events[..|events| - 1], id, last);
    }
  }

  /** Past the last own number nothing changes. */
  lemma {:induction false} AllUpTo(events: seq<Event>, id: string, c: Ctx, last: int)
    requires OwnInRange(events, id, c) && last >= c.nextSeq - 1
    ensures AnswerUpTo(events, id, last) == AnswerUpTo(events, id, c.nextSeq - 1)
    ensures LoggedAfter(events, id, last) == 0
  {
    if events != [] {
      AllUpTo(events[..|events| - 1], id, c, last);
    }
  }

  lemma AppendedEvent(events: seq<Event>, e: Event, id: string, last: int)
    ensures AnswerUpTo(events + [e], id, last)
         == AnswerUpTo(events, id, last)
            + if e.messageId == id && e.seqNo <= last && IsAnswer(e.kind) then e.delta else ""
    ensures LoggedAfter(events + [e], id, last)
         == LoggedAfter(events, id, last) + if e.messageId == id && e.seqNo > last then 1 else 0
  {
    assert (events + [e])[..|events|] == events;
  }

  lemma StartInv(cfg: Config, s: Sys, newId: string)
    requires Starting(s, newId)
    ensures Inv(cfg, s, newId)
  {
    NoOwnEvents(s.events, newId, s.ctx.nextSeq - 1);
    NoOwnEvents(s.events, newId, 0);
  }

  lemma BeginKeepsInv(cfg: Config, s: Sys, newId: string)
    requires Inv(cfg, s, newId)
    ensures Inv(cfg, Begin(s, newId), newId) && Begin(s, newId).ctx.messageId == Some(newId)
  {
    if s.ctx.messageId.None? {
      NoneLoggedAfter(s.events, newId, 0);
      forall i | 0 <= i < |s.events| ensures s.events[i].messageId != newId {}
      NoOwnEvents(s.events, newId, s.ctx.nextSeq - 1);
      NoOwnEvents(s.events, newId, 0);
    }
  }

  /** Logging an event, before the flush decision: everything but the bound on unflushed events. */
  lemma LogStep(cfg: Config, s: Sys, newId: string, e: Event, t: Sys)
    requires Inv(cfg, s, newId) && s.ctx.messageId == Some(newId)
    requires e.messageId == newId && e.taskId == s.ctx.taskId && e.seqNo == s.ctx.nextSeq && Appendable(s.events, e)
    requires t == s.(events := s.events + [e], ctx := Absorb(cfg, s.ctx, e))
    ensures Unique(t.events) && OwnInRange(t.events, newId, t.ctx)
    ensures t.ctx.answer == AnswerUpTo(t.events, newId, t.ctx.nextSeq - 1)
    ensures LoggedAfter(t.events, newId, t.ctx.lastPersistSeq) <= t.ctx.nextSeq - 1 - t.ctx.lastPersistSeq
    ensures AnswerUpTo(t.events, newId, s.ctx.lastPersistSeq) == AnswerUpTo(s.events, newId, s.ctx.lastPersistSeq)
  {
    AppendedEvent(s.events, e, newId, s.ctx.nextSeq);
    AppendedEvent(s.events, e, newId, s.ctx.lastPersistSeq);
    AllUpTo(s.events, newId, s.ctx, s.ctx.nextSeq);
  }

  lemma FlushKeepsInv(cfg: Config, t: Sys, newId: string, now: real)
    requires t.ctx.messageId == Some(newId) && newId in t.messages && t.messages[newId].status == Streaming
    requires Unique(t.events) && OwnInRange(t.events, newId, t.ctx) && t.ctx.nextSeq >= 1
    requires t.ctx.answer == AnswerUpTo(t.events, newId, t.ctx.nextSeq - 1)
    ensures Inv(cfg, Flush(t, now), newId)
  {
    AllUpTo(t.events, newId, t.ctx, t.ctx.nextSeq - 1);
  }

  lemma LogOnlyKeepsInv(cfg: Config, s: Sys, newId: string, e: Event, t: Sys, now: real)
    requires Inv(cfg, s, newId) && s.ctx.messageId == Some(newId)
    requires e.messageId == newId && e.taskId == s.ctx.taskId && e.seqNo == s.ctx.nextSeq && Appendable(s.events, e)
    requires t == s.(events := s.events + [e], ctx := Absorb(cfg, s.ctx, e)) && !Due(cfg, t.ctx, now)
    ensures Inv(cfg, t, newId)
  {
    LogStep(cfg, s, newId, e, t);
  }

  lemma SkippedNumberKeepsInv(cfg: Config, s: Sys, newId: string)
    requires Inv(cfg, s, newId)
    ensures Inv(cfg, s.(ctx := s.ctx.(nextSeq := s.ctx.nextSeq + 1)), newId)
  {
    AllUpTo(s.events, newId, s.ctx, s.ctx.nextSeq);
  }

  lemma RecordKeepsInv(cfg: Config, s0: Sys, newId: string, kind: string, delta: string, meta: string, now: real)
    requires Inv(cfg, s0, newId)
    ensures Inv(cfg, Record(cfg, s0, newId, kind, delta, meta, now), newId)
  {
    BeginKeepsInv(cfg, s0, newId);
    var s := Begin(s0, newId);
    var e := NewEvent(s.ctx, kind, delta, meta);
    if !Appendable(s.events, e) {
      SkippedNumberKeepsInv(cfg, s, newId);
    } else {
      var t := s.(events := s.events + [e], ctx := Absorb(cfg, s.ctx, e));
      if IsThinking(kind) || Due(cfg, t.ctx, now) {
        LogStep(cfg, s, newId, e, t);
        FlushKeepsInv(cfg, t, newId, now);
      } else {
        LogOnlyKeepsInv(cfg, s, newId, e, t, now);
      }
    }
  }

  lemma ForeignFits(events: seq<Event>, id: string, c: Ctx, e: Event)
    requires Unique(events) && OwnInRange(events, id, c) && e.messageId != id && Appendable(events, e)
    ensures Unique(events + [e]) && OwnInRange(events + [e], id, c)
  {
  }

  lemma ForeignKeepsInv(cfg: Config, s: Sys, newId: string, e: Event)
    requires Inv(cfg, s, newId) && e.messageId != newId && Appendable(s.events, e)
    ensures Inv(cfg, s.(events := s.events + [e]), newId)
  {
    hide Unique, OwnInRange, Appendable, AnswerUpTo, LoggedAfter;
    ForeignFits(s.events, newId, s.ctx, e);
    AppendedEvent(s.events, e, newId, s.ctx.nextSeq - 1);
    AppendedEvent(s.events, e, newId, s.ctx.lastPersistSeq);
    AppendedEvent(s.events, e, newId, 0);
  }

  /** In every run the stored content equals the answer deltas up to the last persisted number and
      at most `min_events - 1` of the message's logged events are not yet reflected in it. */
  lemma {:induction false} RunKeepsInv(cfg: Config, s: Sys, newId: string, ops: seq<Op>)
    requires Starting(s, newId) && LegalOps(newId, ops)
    ensures Inv(cfg, Run(cfg, s, newId, ops), newId)
  {
    if ops == [] {
      StartInv(cfg, s, newId);
    } else {
      var n := |ops| - 1;
      RunKeepsInv(cfg, s, newId, ops[..n]);
      assert Legal(newId, ops[n]);
      hide Inv, Do;
      DoKeepsInv(cfg, Run(cfg, s, newId, ops[..n]), newId, ops[n]);
    }
  }

  lemma DoKeepsInv(cfg: Config, s: Sys, newId: string, op: Op)
    requires Inv(cfg, s, newId) && Legal(newId, op)
    ensures Inv(cfg, Do(cfg, s, newId, op), newId)
  {
    match op {
      case RecordOp(kind, delta, meta, now) => RecordKeepsInv(cfg, s, newId, kind, delta, meta, now);
      case SyncOp(_) => hide Unique, OwnInRange, AnswerUpTo, LoggedAfter;
      case Foreign(e) => if Appendable(s.events, e) { ForeignKeepsInv(cfg, s, newId, e); }
    }
  }

  // ----- flush timing -----

  /** The same operations at possibly different times. */
  ghost predicate SameButClock(a: seq<Op>, b: seq<Op>) {
    && |a| == |b|
    && forall i :: 0 <= i < |a| ==>
         match a[i]
         case RecordOp(kind, delta, meta, _) => b[i].RecordOp? && b[i] == RecordOp(kind, delta, meta, b[i].now)
         case _ => a[i] == b[i]
  }

  /** All that is left of a state when the flushes are disregarded. */
  ghost predicate SameButFlushes(a: Sys, b: Sys) {
    && a.events == b.events && a.messages.Keys == b.messages.Keys
    && a.ctx.(lastPersistAt := b.ctx.lastPersistAt, lastPersistSeq := b.ctx.lastPersistSeq) == b.ctx
  }

  /** `Record` before its flush decision. */
  function Logged(cfg: Config, s0: Sys, newId: string, kind: string, delta: string, meta: string): Sys {
    var s := Begin(s0, newId);
    var e := NewEvent(s.ctx, kind, delta, meta);
    if !Appendable(s.events, e) then s.(ctx := s.ctx.(nextSeq := s.ctx.nextSeq + 1))
    else s.(events := s.events + [e], ctx := Absorb(cfg, s.ctx, e))
  }

  lemma LoggedSame(cfg: Config, x: Sys, y: Sys, newId: string, kind: string, delta: string, meta: string)
    requires SameButFlushes(x, y)
    ensures SameButFlushes(Logged(cfg, x, newId, kind, delta, meta), Logged(cfg, y, newId, kind, delta, meta))
  {
    var a, b := Begin(x, newId), Begin(y, newId);
    assert SameButFlushes(a, b);
    assert NewEvent(a.ctx, kind, delta, meta) == NewEvent(b.ctx, kind, delta, meta);
  }

  lemma RecordIsLogged(cfg: Config, x: Sys, newId: string, kind: string, delta: string, meta: string, now: real)
    ensures SameButFlushes(Logged(cfg, x, newId, kind, delta, meta), Record(cfg, x, newId, kind, delta, meta, now))
  {
  }

  lemma SameTransitive(a: Sys, a': Sys, b: Sys, b': Sys)
    requires SameButFlushes(a, a') && SameButFlushes(b, b') && SameButFlushes(a, b)
    ensures SameButFlushes(a', b')
  {
  }

  lemma RecordMovesFlushes(cfg: Config, x: Sys, y: Sys, newId: string, kind: string, delta: string, meta: string, t1: real, t2: real)
    requires SameButFlushes(x, y)
    ensures SameButFlushes(Record(cfg, x, newId, kind, delta, meta, t1), Record(cfg, y, newId, kind, delta, meta, t2))
  {
    LoggedSame(cfg, x, y, newId, kind, delta, meta);
    RecordIsLogged(cfg, x, newId, kind, delta, meta, t1);
    RecordIsLogged(cfg, y, newId, kind, delta, meta, t2);
    hide Record;
    hide Logged;
    SameTransitive(Logged(cfg, x, newId, kind, delta, meta), Record(cfg, x, newId, kind, delta, meta, t1),
                   Logged(cfg, y, newId, kind, delta, meta), Record(cfg, y, newId, kind, delta, meta, t2));
  }

  lemma {:induction false} ClockOnlyMovesFlushes(cfg: Config, s: Sys, newId: string, a: seq<Op>, b: seq<Op>)
    requires SameButClock(a, b)
    ensures SameButFlushes(Run(cfg, s, newId, a), Run(cfg, s, newId, b))
  {
    if a != [] {
      var n := |a| - 1;
      var x, y := Run(cfg, s, newId, a[..n]), Run(cfg, s, newId, b[..n]);
      ClockOnlyMovesFlushes(cfg, s, newId, a[..n], b[..n]);
      match a[n] {
        case RecordOp(kind, delta, meta, now) =>
          RecordMovesFlushes(cfg, x, y, newId, kind, delta, meta, now, b[n].now);
        case SyncOp(_) =>
        case Foreign(_) =>
      }
    }
  }

  /** The finalized row does not depend on when the flushes happened. */
  lemma FinalRowIgnoresFlushTiming(cfg: Config, s: Sys, newId: string, a: seq<Op>, b: seq<Op>,
                                   status: Status, content: Option<string>, thinking: Option<string>)
    requires Starting(s, newId) && LegalOps(newId, a) && LegalOps(newId, b) && SameButClock(a, b)
    ensures var x := Finalize(cfg, Run(cfg, s, newId, a), status, content, thinking).messages;
            var y := Finalize(cfg, Run(cfg, s, newId, b), status, content, thinking).messages;
      (newId in x <==> newId in y) && (newId in x ==> x[newId] == y[newId])
  {
    ClockOnlyMovesFlushes(cfg, s, newId, a, b);
    RunKeepsInv(cfg, s, newId, a);
    RunKeepsInv(cfg, s, newId, b);
  }

  /** Once the message has logged an event, its finalized row is a function of the log alone. */
  lemma FinalRowFromLog(cfg: Config, s: Sys, newId: string, ops: seq<Op>, end: Sys, own: seq<Event>, text: string,
                        status: Status, content: Option<string>, thinking: Option<string>)
    requires Starting(s, newId) && LegalOps(newId, ops) && end == Run(cfg, s, newId, ops)
    requires end.ctx.messageId.Some? && own == OwnEvents(Select(end.events, end.ctx.taskId, 0), newId) && own != []
    requires text == if content.Some? then content.value else AnswerUpTo(end.events, newId, end.ctx.nextSeq - 1)
    ensures var rows := Finalize(cfg, end, status, content, thinking).messages;
      newId in rows && rows[newId] == Row(status, text, FinalBlocks(cfg, own, [], text, thinking))
  {
    hide Unique, OwnInRange, Run, Select, OwnEvents, LoggedAfter, AnswerUpTo, Starting, LegalOps;
    RunKeepsInv(cfg, s, newId, ops);
  }
}
