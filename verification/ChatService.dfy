/** The chat store and service on mutable fields, each method tied to its meaning in `ChatLog`. */
module ChatService {
  import opened Basics
  import opened ChatLog

  /** The two tables. */
  class ChatMessageStore {
    var events: seq<Event>
    var messages: map<string, Row>

    constructor ()
      ensures events == [] && messages == map[]
    {
      events, messages := [], map[];
    }

    /** False stands for the integrity error of the uniqueness constraint. */
    method AppendEvent(e: Event) returns (ok: bool)
      modifies `events
      ensures ok <==> Appendable(old(events), e)
      ensures events == if ok then old(events) + [e] else old(events)
      ensures Unique(old(events)) ==> Unique(events)
    {
      ok := true;
      for i := 0 to |events|
        invariant ok <==> forall j :: 0 <= j < i ==> !Clash(events[j], e)
      {
        if Clash(events[i], e) { ok := false; break; }
      }
      if ok { events := events + [e]; }
    }

    method ListEvents(taskId: string, after: int, limit: nat) returns (page: seq<Event>)
      ensures page == Page(events, taskId, after, limit)
      ensures Unique(events) ==> PageOf(events, taskId, after, limit, page)
    {
      if Unique(events) { PageIsExact(events, taskId, after, limit); }
      page := Page(events, taskId, after, limit);
    }

    /** One more than the largest number used under a task id, at least one. */
    method NextEventSeq(taskId: string) returns (next: int)
      ensures next >= 1
      ensures forall i :: 0 <= i < |events| && events[i].taskId == taskId ==> events[i].seqNo < next
      ensures next == 1 || exists i :: 0 <= i < |events| && events[i].taskId == taskId && events[i].seqNo == next - 1
    {
      next := 1;
      for i := 0 to |events|
        invariant next >= 1
        invariant forall j :: 0 <= j < i && events[j].taskId == taskId ==> events[j].seqNo < next
        invariant next == 1 || exists j :: 0 <= j < i && events[j].taskId == taskId && events[j].seqNo == next - 1
      {
        if events[i].taskId == taskId && events[i].seqNo >= next { next := events[i].seqNo + 1; }
      }
    }

    method UpdateMessage(id: string, status: Option<Status>, content: Option<string>, blocks: Option<Blocks>)
      modifies `messages
      ensures messages == if id !in old(messages) then old(messages)
        else var row := old(messages)[id];
          old(messages)[id := Row(if status.Some? then status.value else row.status,
                                  if content.Some? then content.value else row.content,
                                  if blocks.Some? then blocks.value else row.blocks)]
    {
      if id in messages {
        var row := messages[id];
        messages := messages[id := Row(if status.Some? then status.value else row.status,
                                       if content.Some? then content.value else row.content,
                                       if blocks.Some? then blocks.value else row.blocks)];
      }
    }
  }

  /** The context of one stream. */
  class StreamMessagePersistCtx {
    var taskId: string
    var messageId: Option<string>
    var nextSeq: int
    var blocks: Blocks
    var answer: string
    var lastPersistAt: real
    var lastPersistSeq: int

    constructor (taskId: string, nextSeq: int)
      ensures State() == Ctx(taskId, None, nextSeq, [], "", 0.0, 0)
    {
      this.taskId, messageId, this.nextSeq := taskId, None, nextSeq;
      blocks, answer, lastPersistAt, lastPersistSeq := [], "", 0.0, 0;
    }

    function State(): Ctx
      reads this
    {
      Ctx(taskId, messageId, nextSeq, blocks, answer, lastPersistAt, lastPersistSeq)
    }
  }

  class ChatMessageService {
    const store: ChatMessageStore
    const cfg: Config

    constructor (store: ChatMessageStore, cfg: Config)
      ensures this.store == store && this.cfg == cfg
    {
      this.store, this.cfg := store, cfg;
    }

    function State(ctx: StreamMessagePersistCtx): Sys
      reads store, ctx
    {
      Sys(store.events, store.messages, ctx.State())
    }

    method BeginAssistantMessage(ctx: StreamMessagePersistCtx, newId: string)
      modifies store`messages, ctx
      ensures State(ctx) == Begin(old(State(ctx)), newId)
    {
      if ctx.messageId.Some? { return; }
      store.messages := store.messages[newId := Row(Streaming, "", [])];
      ctx.messageId := Some(newId);
      ctx.blocks := [];
      ctx.answer := "";
    }

    method ForceFlush(ctx: StreamMessagePersistCtx, now: real)
      requires ctx.messageId.Some?
      modifies store`messages, ctx
      ensures State(ctx) == Flush(old(State(ctx)), now)
    {
      store.UpdateMessage(ctx.messageId.value, None, Some(ctx.answer), Some(ctx.blocks));
      ctx.lastPersistAt := now;
      ctx.lastPersistSeq := ctx.nextSeq - 1;
    }

    method MaybeFlush(ctx: StreamMessagePersistCtx, now: real)
      requires ctx.messageId.Some?
      modifies store`messages, ctx
      ensures State(ctx) == if Due(cfg, old(ctx.State()), now) then Flush(old(State(ctx)), now) else old(State(ctx))
    {
      var eventsSince := ctx.nextSeq - 1 - ctx.lastPersistSeq;
      if ctx.lastPersistAt > 0.0 && now - ctx.lastPersistAt < cfg.interval && eventsSince < cfg.minEvents {
        return;
      }
      ForceFlush(ctx, now);
    }

    /** Returns the sequence number, or None where the store raises. */
    method RecordStreamEvent(ctx: StreamMessagePersistCtx, newId: string, kind: string, delta: string, meta: string, now: real)
      returns (r: Option<int>)
      modifies store, ctx
      ensures State(ctx) == Record(cfg, old(State(ctx)), newId, kind, delta, meta, now)
      ensures r.Some? ==> r.value == old(ctx.nextSeq) && |store.events| == old(|store.events|) + 1
      ensures r.None? ==> store.events == old(store.events)
    {
      BeginAssistantMessage(ctx, newId);
      var seqNo := ctx.nextSeq;
      ctx.nextSeq := ctx.nextSeq + 1;
      var e := Event(ctx.messageId.value, ctx.taskId, seqNo, kind, delta, meta);
      var ok := store.AppendEvent(e);
      if !ok { return None; }
      if !IsTelemetry(kind) { ctx.blocks := cfg.apply(ctx.blocks, e); }
      if IsAnswer(kind) { ctx.answer := ctx.answer + delta; }
      if IsThinking(kind) {
        ForceFlush(ctx, now);
      } else {
        MaybeFlush(ctx, now);
      }
      return Some(seqNo);
    }

    /** `text` is the canonical thinking text, already stripped. */
    method SyncThinkingText(ctx: StreamMessagePersistCtx, text: string)
      modifies store`messages, ctx`blocks
      ensures State(ctx) == Sync(cfg, old(State(ctx)), text)
    {
      if ctx.messageId.None? || text == "" { return; }
      var blocks := cfg.withThinking(ctx.blocks, text);
      ctx.blocks := blocks;
      store.UpdateMessage(ctx.messageId.value, None, None, Some(blocks));
    }

    /** The paging loop: every event of a task id above zero, once, in ascending order. */
    method ReadAllEvents(taskId: string, limit: nat) returns (all: seq<Event>)
      requires Unique(store.events) && limit > 0
      ensures all == Select(store.events, taskId, 0)
      ensures Ascending(all)
      ensures multiset(all) == multiset(Matching(store.events, taskId, 0))
    {
      hide Unique, Select, Page, PageOf;
      all := [];
      var after := 0;
      SelectIsSorted(store.events, taskId, 0);
      ghost var goal := Select(store.events, taskId, 0);
      while true
        invariant all + Select(store.events, taskId, after) == goal
        decreases |Select(store.events, taskId, after)|
      {
        var batch := store.ListEvents(taskId, after, limit);
        PageThenRest(store.events, taskId, after, limit);
        if batch == [] { break; }
        all := all + batch;
        if |batch| < limit { break; }
        after := batch[|batch| - 1].seqNo;
      }
    }

    method FinalizeAssistantMessage(ctx: StreamMessagePersistCtx, status: Status, content: Option<string>, thinking: Option<string>)
      requires Unique(store.events)
      modifies store`messages
      ensures State(ctx) == Finalize(cfg, old(State(ctx)), status, content, thinking)
    {
      if ctx.messageId.None? { return; }
      var id := ctx.messageId.value;
      var text := if content.Some? then content.value else ctx.answer;
      var all := ReadAllEvents(ctx.taskId, 5000);
      var msgEvents := OwnEvents(all, id);
      var blocks := FinalBlocks(cfg, msgEvents, ctx.blocks, text, thinking);
      store.UpdateMessage(id, Some(status), Some(text), Some(blocks));
    }
  }
}
