/** The graph that runs one agent turn: its nodes' effects on the fields that decide the route, its
    routers, and what holds over every run. Services the nodes call are free choices. */
module TurnGraph {
  import opened Basics

  // ----- state -----

  datatype Status =
    | New | Planned | Retrieved | ToolExecuted | Reasoned | PolicyChecked | WaitingReview | ReviewResolved
    | Completed | Running | Paused | RejectedStatus | Failed | ToolFailed | ReasonFailed | DeadLettered
    | Abandoned | Cancelled | TimedOut

  datatype Verdict = Continue | Review | Escalate | Reject

  datatype Feedback = RejectIt | ApproveIt

  datatype Decision = Submit | Degrade | AskHuman | Refuse

  /** The output guard's result: absent, an empty record, or a record with its `passed` flag. `about`
      is the number of the answer that was looked at. */
  datatype Guard = NoGuard | EmptyGuard | Checked(passed: bool, about: nat)

  datatype Risk = LowRisk | MediumRisk | HighRisk | CriticalRisk | UnknownRisk | OtherRisk

  /** What the policy engine looks at: the reasoning result, the risks of the tools that ran, and
      whether the user is a guest. */
  datatype Facts = Facts(
    reasoned: bool, risk: Option<Risk>, confidence: Option<real>, parserRecovered: bool,
    codeFailed: bool, codeVerified: bool, codeDegraded: bool, toolRisks: seq<Risk>, guest: bool)

  datatype Settings = Settings(maxRetry: int, autoReject: Risk, requireReview: Risk)

  /** `answer` counts the answers of reasoning_or_writing; the present one has that number. */
  datatype State = State(
    status: Status, guard: Guard, policy: Option<Verdict>, reviewRequired: bool, feedback: Option<Feedback>,
    decision: Option<Decision>, retry: int, facts: Facts, answer: nat)

  datatype Node =
    | EventClassification | Acknowledge | InterruptControl | IncrementalPlanning | EngineeringExecution
    | Retrieval | ToolExecution | ContextGovernance | ReasoningOrWriting | Verification | PolicyNode
    | HumanReview | Rejected | DeadLetter | Output | End

  predicate EndsFailed(status: Status) { status in {Failed, ToolFailed, ReasonFailed} }

  // ----- what the environment chooses -----

  datatype Converge = Finalize | ForceWrite | Replan | GoOn

  /** What the routers ask of services and of fields that are not part of the state here. */
  datatype Signals = Signals(
    aborted: bool, fatalError: bool, toolsSelected: bool, contractTools: bool, sideEffects: bool,
    writingAllowed: bool, writingIntent: bool, batchReady: bool, lastToolFailed: bool, nonRetryable: bool,
    converge: Converge, converged: bool, canReplan: bool, sourceInquiry: bool, replanNeeded: bool,
    degradable: bool, executionRoute: bool, afterTool: bool, engineering: bool, skipRetrieval: bool,
    retrievalWanted: bool, memoryWanted: bool, plansRetrieval: bool, skipWithoutTools: bool,
    pendingActions: bool, contractFulfilled: bool, narrateReady: bool, blocked: bool)

  /** How a visit to the reasoning node ends. */
  datatype Exit =
    | Answered | PauseAsked | CancelAsked | StreamBlocked(passed: bool) | OverBudget | Raised

  /** All free choices of one visit; each node uses those that concern it. `after` is what a node
      without a body here leaves; `throws` is an exception inside the node's own handler;
      `submitted` is feedback that arrives while the run waits before the review node. */
  datatype Choice = Choice(
    after: State, signals: Signals, exit: Exit, facts: Facts, guardPasses: bool, guardEnabled: bool,
    throws: bool, submitted: Option<Feedback>)

  // ----- nodes -----

  predicate GuardBlocks(g: Guard) { g.Checked? && !g.passed }

  /** `apply_post_generation_guard`: checks once; a result that is already there is kept. */
  function PostGuard(s: State, ch: Choice): State {
    if EndsFailed(s.status) || s.status == DeadLettered then s
    else if s.guard != NoGuard then (if GuardBlocks(s.guard) then s.(status := RejectedStatus) else s)
    else if ch.guardPasses then s.(guard := Checked(true, s.answer))
    else s.(guard := Checked(false, s.answer), status := RejectedStatus,
            policy := if ch.guardEnabled then Some(Reject) else s.policy)
  }

  function ReasoningNode(s: State, ch: Choice): State {
    match ch.exit
    case Answered => PostGuard(s.(status := Reasoned, facts := ch.facts, answer := s.answer + 1), ch)
    case PauseAsked => s.(status := Paused)
    case CancelAsked => s.(status := Cancelled)
    case StreamBlocked(passed) =>
      s.(status := RejectedStatus, guard := Checked(passed, s.answer + 1), policy := Some(Reject), facts := ch.facts,
         answer := s.answer + 1)
    case OverBudget => s.(status := ReasonFailed)
    case Raised => s.(status := ReasonFailed, retry := s.retry + 1)
  }

  function ReasoningOrWritingNode(s: State, ch: Choice): State { PostGuard(ReasoningNode(s, ch), ch) }

  function SubmissionDecision(s: State): Decision {
    if s.status == RejectedStatus || s.policy == Some(Reject) then Refuse
    else if s.reviewRequired || s.policy == Some(Review) then AskHuman
    else if GuardBlocks(s.guard) then Degrade
    else Submit
  }

  function VerificationNode(s: State): State { s.(decision := Some(SubmissionDecision(s))) }

  predicate Elevated(risk: Risk) { risk in {HighRisk, CriticalRisk} }

  function FirstElevated(risks: seq<Risk>): Risk {
    if risks == [] then LowRisk else if Elevated(risks[0]) then risks[0] else FirstElevated(risks[1..])
  }

  function InferredRisk(f: Facts): Risk { if f.risk.Some? then f.risk.value else FirstElevated(f.toolRisks) }

  function Confidence(f: Facts): real {
    if !f.reasoned then 1.0 else if f.confidence.Some? then f.confidence.value else 0.8
  }

  /** What the policy engine answers when no review is flagged. */
  function VerdictOf(cfg: Settings, f: Facts): Verdict {
    var risk := InferredRisk(f);
    if risk == cfg.autoReject then Reject
    else if risk == UnknownRisk then Escalate
    else if risk == cfg.requireReview then Review
    else if f.reasoned && f.parserRecovered then Continue
    else if f.codeFailed && !f.codeVerified then if f.codeDegraded then Continue else Review
    else if Confidence(f) < 0.5 then Review
    else if f.guest && Elevated(FirstElevated(f.toolRisks)) then Reject
    else Continue
  }

  function Evaluate(cfg: Settings, s: State): Verdict { if s.reviewRequired then Review else VerdictOf(cfg, s.facts) }

  function RunPolicy(cfg: Settings, s: State, ch: Choice): State {
    if ch.throws then s.(status := Failed, retry := s.retry + 1)
    else
      var verdict := Evaluate(cfg, s);
      s.(policy := Some(verdict), reviewRequired := verdict in {Review, Escalate}, status := PolicyChecked)
  }

  function FeedbackSeen(s: State, ch: Choice): Option<Feedback> {
    if ch.submitted.Some? then ch.submitted else s.feedback
  }

  function RunHumanReview(s0: State, ch: Choice): State {
    var s := s0.(feedback := FeedbackSeen(s0, ch));
    if ch.throws then s.(status := Failed, retry := s.retry + 1)
    else match s.feedback
      case None => s.(reviewRequired := true, status := WaitingReview)
      case Some(RejectIt) => s.(policy := Some(Reject), reviewRequired := false, status := RejectedStatus)
      case Some(ApproveIt) => s.(policy := Some(Continue), reviewRequired := false, status := ReviewResolved)
  }

  function RunOutput(s: State, ch: Choice): State {
    if ch.throws then s.(status := Failed, retry := s.retry + 1)
    else if ch.signals.sideEffects && !ch.signals.contractFulfilled then s.(status := Paused)
    else if s.status in {RejectedStatus, Paused} then s
    else s.(status := Completed)
  }

  // ----- routers -----

  function FailedRoute(cfg: Settings, s: State, again: Node): Node { if s.retry >= cfg.maxRetry then DeadLetter else again }

  function AfterPlanning(cfg: Settings, s: State, g: Signals): Node {
    var tools := g.toolsSelected || g.contractTools;
    var needsRetrieval := g.plansRetrieval || (g.writingIntent && !g.skipRetrieval);
    if g.sourceInquiry then Retrieval
    else if g.replanNeeded && (g.canReplan || g.degradable) then IncrementalPlanning
    else if g.fatalError then FailedRoute(cfg, s, IncrementalPlanning)
    else if g.executionRoute then
      if tools then ToolExecution else if g.writingAllowed then ContextGovernance else ToolExecution
    else if g.lastToolFailed && g.afterTool && g.nonRetryable then ContextGovernance
    else if g.lastToolFailed && g.afterTool && s.retry >= cfg.maxRetry then DeadLetter
    else if g.engineering then EngineeringExecution
    else if g.writingAllowed && !tools && g.skipRetrieval then ContextGovernance
    else if g.skipRetrieval && !g.retrievalWanted then
      if tools then ToolExecution
      else if g.writingAllowed then ContextGovernance
      else if g.sideEffects && g.contractTools then ToolExecution
      else ContextGovernance
    else if g.memoryWanted && !tools && !g.writingIntent then Retrieval
    else if g.skipWithoutTools && !tools && !needsRetrieval && !g.writingIntent then ContextGovernance
    else if needsRetrieval then Retrieval
    else if tools then ToolExecution
    else if g.writingAllowed then ContextGovernance
    else if g.sideEffects && g.contractTools then ToolExecution
    else ContextGovernance
  }

  function AfterRetrieval(cfg: Settings, s: State, g: Signals): Node {
    if g.fatalError then FailedRoute(cfg, s, Retrieval)
    else if g.toolsSelected then ToolExecution
    else if g.writingAllowed then ContextGovernance
    else if g.sideEffects && g.contractTools then ToolExecution
    else ContextGovernance
  }

  function AfterTool(cfg: Settings, s: State, g: Signals): Node {
    if !g.lastToolFailed && g.batchReady then ToolExecution
    else if !g.lastToolFailed && g.converge == ForceWrite then IncrementalPlanning
    else if !g.lastToolFailed && g.converge == Replan && g.canReplan then IncrementalPlanning
    else if g.lastToolFailed then
      if g.nonRetryable then ContextGovernance
      else if s.retry >= cfg.maxRetry then DeadLetter
      else ToolExecution
    else if g.converged || g.converge == Finalize then ContextGovernance
    else if g.writingAllowed then ContextGovernance
    else if g.sideEffects && g.contractTools && g.pendingActions && !g.contractFulfilled then ToolExecution
    else ContextGovernance
  }

  predicate GuardFailed(s: State) { s.status == RejectedStatus || GuardBlocks(s.guard) }

  function AfterReasoning(cfg: Settings, s: State, g: Signals): Node {
    if GuardFailed(s) then Rejected
    else if s.status in {Failed, ReasonFailed} then
      if s.retry >= cfg.maxRetry then DeadLetter else ReasoningOrWriting
    else if EndsFailed(s.status) || s.status == DeadLettered then DeadLetter
    else if g.narrateReady then Verification
    else if g.blocked && g.canReplan then IncrementalPlanning
    else if g.converge == ForceWrite then IncrementalPlanning
    else if g.converge == Replan && g.canReplan then IncrementalPlanning
    else Verification
  }

  function AfterVerification(s: State): Node {
    match s.decision
    case Some(Refuse) => Rejected
    case Some(AskHuman) => HumanReview
    case _ => PolicyNode
  }

  function AfterPolicy(s: State): Node {
    match s.policy
    case None => Output
    case Some(Continue) => Output
    case Some(Reject) => Rejected
    case Some(_) => HumanReview
  }

  // ----- the graph -----

  /** The edge table as declared. */
  function Edges(n: Node): set<Node> {
    match n
    case EventClassification => {Acknowledge}
    case Acknowledge => {InterruptControl}
    case InterruptControl => {IncrementalPlanning, End}
    case IncrementalPlanning =>
      {Retrieval, ToolExecution, ContextGovernance, ReasoningOrWriting, EngineeringExecution, IncrementalPlanning,
       DeadLetter, End}
    case EngineeringExecution => {PolicyNode, EngineeringExecution, DeadLetter}
    case Retrieval => {ToolExecution, ContextGovernance, Retrieval, DeadLetter}
    case ToolExecution => {ToolExecution, ContextGovernance, IncrementalPlanning, DeadLetter}
    case ContextGovernance => {ReasoningOrWriting}
    case ReasoningOrWriting => {ReasoningOrWriting, IncrementalPlanning, Verification, Rejected, DeadLetter}
    case Verification => {PolicyNode, HumanReview, Rejected}
    case PolicyNode => {Output, HumanReview, Rejected}
    case Rejected => {End}
    case DeadLetter => {End}
    case HumanReview => {Verification}
    case Output => {End}
    case End => {}
  }

  function Effect(cfg: Settings, n: Node, s: State, ch: Choice): State {
    match n
    case ReasoningOrWriting => ReasoningOrWritingNode(s, ch)
    case Verification => VerificationNode(s)
    case PolicyNode => RunPolicy(cfg, s, ch)
    case HumanReview => RunHumanReview(s, ch)
    case Rejected => s.(status := RejectedStatus)
    case DeadLetter => s.(status := DeadLettered)
    case Output => RunOutput(s, ch)
    case End => s
    case _ => ch.after
  }

  function Route(cfg: Settings, n: Node, s: State, g: Signals): Node {
    match n
    case EventClassification => Acknowledge
    case Acknowledge => InterruptControl
    case InterruptControl => if g.aborted then End else IncrementalPlanning
    case IncrementalPlanning => AfterPlanning(cfg, s, g)
    case EngineeringExecution => if g.fatalError then FailedRoute(cfg, s, EngineeringExecution) else PolicyNode
    case Retrieval => AfterRetrieval(cfg, s, g)
    case ToolExecution => AfterTool(cfg, s, g)
    case ContextGovernance => ReasoningOrWriting
    case ReasoningOrWriting => AfterReasoning(cfg, s, g)
    case Verification => AfterVerification(s)
    case PolicyNode => AfterPolicy(s)
    case HumanReview => Verification
    case _ => End
  }

  /** Where a run is: the node to visit next, the state, and which node produced the latest answer. */
  datatype Config = Config(node: Node, state: State, generator: Option<Node>)

  function Visit(cfg: Settings, c: Config, ch: Choice): Config {
    var s := Effect(cfg, c.node, c.state, ch);
    Config(Route(cfg, c.node, s, ch.signals), s,
           if c.node in {ReasoningOrWriting, EngineeringExecution} then Some(c.node) else c.generator)
  }

  function Enter(s: State): Config { Config(EventClassification, s, None) }

  function After(cfg: Settings, c: Config, run: seq<Choice>): Config {
    if run == [] then c else Visit(cfg, After(cfg, c, run[..|run| - 1]), run[|run| - 1])
  }

  /** The i-th node a run visits and the state it leaves. */
  function Visited(cfg: Settings, c: Config, run: seq<Choice>, i: nat): (Node, State)
    requires i < |run|
  {
    (After(cfg, c, run[..i]).node, After(cfg, c, run[..i + 1]).state)
  }

  lemma AfterNext(cfg: Settings, c: Config, run: seq<Choice>, i: nat)
    requires i < |run|
    ensures After(cfg, c, run[..i + 1]) == Visit(cfg, After(cfg, c, run[..i]), run[i])
  {
    assert run[..i + 1][..i] == run[..i];
  }

  /** Running a graph and collecting each visited node with the state it left, until the end. */
  method StreamGraph(cfg: Settings, start: State, run: seq<Choice>) returns (visited: seq<(Node, State)>, last: Config)
    ensures |visited| <= |run| && last == After(cfg, Enter(start), run[..|visited|])
    ensures last.node == End || |visited| == |run|
    ensures forall i :: 0 <= i < |visited| ==> visited[i] == Visited(cfg, Enter(start), run, i)
  {
    hide Visit, After;
    last := Enter(start);
    visited := [];
    AfterNone(cfg, last);
    var i := 0;
    while i < |run| && last.node != End
      invariant |visited| == i <= |run| && last == After(cfg, Enter(start), run[..i])
      invariant forall j :: 0 <= j < i ==> visited[j] == Visited(cfg, Enter(start), run, j)
    {
      AfterNext(cfg, Enter(start), run, i);
      var node := last.node;
      last := Visit(cfg, last, run[i]);
      visited := visited + [(node, last.state)];
      i := i + 1;
    }
  }

  lemma AfterNone(cfg: Settings, c: Config)
    ensures After(cfg, c, []) == c
  {
  }

  lemma {:induction false} AfterConcat(cfg: Settings, c: Config, a: seq<Choice>, b: seq<Choice>)
    ensures After(cfg, c, a + b) == After(cfg, After(cfg, c, a), b)
  {
    if b == [] {
      assert a + b == a;
    } else {
      AfterConcat(cfg, c, a, b[..|b| - 1]);
      assert (a + b)[..|a + b| - 1] == a + b[..|b| - 1];
    }
  }

  lemma AfterMore(cfg: Settings, c: Config, run: seq<Choice>, ch: Choice)
    ensures After(cfg, c, run + [ch]) == Visit(cfg, After(cfg, c, run), ch)
  {
    assert (run + [ch])[..|run|] == run;
  }

  /** Every router answers with a target its edge table has, whatever the services say; planning
      never ends the turn or skips context governance, though the table would let it. */
  lemma RoutersStayInTheTable(cfg: Settings, n: Node, s: State, g: Signals)
    requires n != End
    ensures Route(cfg, n, s, g) in Edges(n)
    ensures n == IncrementalPlanning ==> Route(cfg, n, s, g) !in {End, ReasoningOrWriting}
  {
  }

  // ----- where each router leads -----

  /** A fatal error: back to the node while retries are left, to the dead letter once there are none;
      otherwise engineering goes to the policy, and retrieval to the tools exactly if some are selected,
      or the turn owes side effects to tools of its contract and may not write. */
  lemma FatalErrorsRetry(cfg: Settings, n: Node, s: State, g: Signals)
    requires n in {Retrieval, EngineeringExecution}
    ensures Route(cfg, n, s, g) == DeadLetter <==> g.fatalError && s.retry >= cfg.maxRetry
    ensures Route(cfg, n, s, g) == n <==> g.fatalError && s.retry < cfg.maxRetry
    ensures n == EngineeringExecution && !g.fatalError ==> Route(cfg, n, s, g) == PolicyNode
    ensures n == Retrieval && !g.fatalError ==>
      Route(cfg, n, s, g) ==
        if g.toolsSelected || (g.sideEffects && g.contractTools && !g.writingAllowed) then ToolExecution else ContextGovernance
  {
  }

  /** After the tools: a failure is retried while retries are left, is given up for dead once there are
      none, and goes on to an answer if it must not be retried. Without a failure the turn is planned
      again exactly if no batch is to be continued and the gate asks for it; it stays with the tools
      exactly for a batch, or for planned actions that an unfulfilled contract still owes. */
  lemma ToolsLeadTo(cfg: Settings, s: State, g: Signals)
    ensures var d := Route(cfg, ToolExecution, s, g);
      && (d == DeadLetter <==> g.lastToolFailed && !g.nonRetryable && s.retry >= cfg.maxRetry)
      && (g.lastToolFailed ==>
            (d == ToolExecution <==> !g.nonRetryable && s.retry < cfg.maxRetry)
            && (d == ContextGovernance <==> g.nonRetryable))
      && (d == IncrementalPlanning <==>
            !g.lastToolFailed && !g.batchReady && (g.converge == ForceWrite || (g.converge == Replan && g.canReplan)))
      && (!g.lastToolFailed ==>
            (d == ToolExecution <==>
               g.batchReady
               || (!g.converged && !g.writingAllowed && g.sideEffects && g.contractTools && g.pendingActions
                   && !g.contractFulfilled && (g.converge == GoOn || (g.converge == Replan && !g.canReplan)))))
  {
  }

  predicate PlansAgain(g: Signals) { g.replanNeeded && (g.canReplan || g.degradable) }

  /** No source inquiry, no new planning, no fatal error, no route the contract demands, and no tool
      failure that must not or can no longer be retried. */
  predicate Unforced(cfg: Settings, s: State, g: Signals) {
    && !g.sourceInquiry && !PlansAgain(g) && !g.fatalError && !g.executionRoute
    && !(g.lastToolFailed && g.afterTool && (g.nonRetryable || s.retry >= cfg.maxRetry))
  }

  /** The exits of planning that are forced, each with its exact condition. A turn whose contract demands
      execution goes to the tools, unless it has none and may write. */
  lemma PlanningForced(cfg: Settings, s: State, g: Signals)
    ensures var d := Route(cfg, IncrementalPlanning, s, g);
      && (g.sourceInquiry ==> d == Retrieval)
      && (d == IncrementalPlanning <==> !g.sourceInquiry && (PlansAgain(g) || (g.fatalError && s.retry < cfg.maxRetry)))
      && (d == DeadLetter <==>
            && !g.sourceInquiry && !PlansAgain(g) && s.retry >= cfg.maxRetry
            && (g.fatalError || (!g.executionRoute && g.lastToolFailed && g.afterTool && !g.nonRetryable)))
      && (d == EngineeringExecution <==> g.engineering && Unforced(cfg, s, g))
      && (!g.sourceInquiry && !PlansAgain(g) && !g.fatalError ==>
            && (g.executionRoute ==>
                  d == if g.writingAllowed && !g.toolsSelected && !g.contractTools then ContextGovernance else ToolExecution)
            && (!g.executionRoute && g.lastToolFailed && g.afterTool && g.nonRetryable ==> d == ContextGovernance))
  {
  }

  /** After planning, when nothing is forced: retrieval exactly if it is not to be skipped and memory
      without tools, the plan or writing asks for it; else the tools exactly if there are some. */
  lemma PlanningFree(cfg: Settings, s: State, g: Signals)
    requires Unforced(cfg, s, g) && !g.engineering
    ensures var d, tools := Route(cfg, IncrementalPlanning, s, g), g.toolsSelected || g.contractTools;
      var skipped := g.skipRetrieval && (!g.retrievalWanted || (g.writingAllowed && !tools));
      var asked := (g.memoryWanted && !tools && !g.writingIntent) || g.plansRetrieval || (g.writingIntent && !g.skipRetrieval);
      d == if !skipped && asked then Retrieval else if tools then ToolExecution else ContextGovernance
  {
  }

  /** After reasoning: a rejected or blocked answer is rejected; a failed visit is retried while retries
      are left; any other failure is dead; and of the others exactly those go on to verification that the
      gates do not send back to planning. */
  lemma ReasoningLeadsTo(cfg: Settings, s: State, g: Signals)
    ensures var d := Route(cfg, ReasoningOrWriting, s, g);
      && (d == Rejected <==> s.status == RejectedStatus || GuardBlocks(s.guard))
      && (d != Rejected ==>
            && (d == ReasoningOrWriting <==> s.status in {Failed, ReasonFailed} && s.retry < cfg.maxRetry)
            && (d == DeadLetter <==>
                  s.status in {ToolFailed, DeadLettered} || (s.status in {Failed, ReasonFailed} && s.retry >= cfg.maxRetry))
            && (d == Verification <==> s.status !in {Failed, ReasonFailed, ToolFailed, DeadLettered} && GoesOn(g)))
  {
  }

  /** After verification: refused, before a human, or on to the policy. */
  lemma VerificationLeadsTo(cfg: Settings, c: Config, ch: Choice)
    requires c.node == Verification
    ensures var d := Visit(cfg, c, ch);
      && (d.node == Rejected <==> c.state.status == RejectedStatus || c.state.policy == Some(Reject))
      && (d.node == HumanReview <==>
            c.state.status != RejectedStatus && c.state.policy != Some(Reject)
            && (c.state.reviewRequired || c.state.policy == Some(Review)))
      && d.node in {Rejected, HumanReview, PolicyNode}
      && (d.node == PolicyNode ==> (d.state.decision == Some(Degrade) <==> GuardBlocks(c.state.guard)))
      && d.state == c.state.(decision := d.state.decision)
  {
  }

  // ----- what each visit leaves -----

  /** An answer is looked at by the guard unless a result is there already: it is then refused exactly if it does
      not pass, or if the earlier result is a failed one; a guard that is switched on also refuses it on
      behalf of the policy. */
  lemma AnswerLeaves(cfg: Settings, c: Config, ch: Choice)
    requires c.node == ReasoningOrWriting && ch.exit.Answered?
    ensures var s, t := c.state, Visit(cfg, c, ch).state;
      && t.facts == ch.facts && t.answer == s.answer + 1 && t.retry == s.retry && t.reviewRequired == s.reviewRequired
      && (s.guard == NoGuard ==>
            && t.guard == Checked(ch.guardPasses, t.answer)
            && t.status == (if ch.guardPasses then Reasoned else RejectedStatus)
            && t.policy == (if !ch.guardPasses && ch.guardEnabled then Some(Reject) else s.policy))
      && (s.guard != NoGuard ==>
            && t.guard == s.guard && t.policy == s.policy
            && t.status == if s.guard.Checked? && !s.guard.passed then RejectedStatus else Reasoned)
  {
  }

  /** The guard looks at nothing that failed, whatever result is there. */
  lemma FailedIsNotChecked(s: State, ch: Choice)
    ensures s.status in {Failed, ToolFailed, ReasonFailed, DeadLettered} ==> PostGuard(s, ch) == s
  {
  }

  /** An answer blocked while it streams is refused by guard and policy, and a turn that is paused or cancelled
      stays so unless the guard refuses what was there. */
  lemma BrokenOffLeaves(cfg: Settings, c: Config, ch: Choice)
    requires c.node == ReasoningOrWriting && (ch.exit.StreamBlocked? || ch.exit.PauseAsked? || ch.exit.CancelAsked?)
    ensures var s, d := c.state, Visit(cfg, c, ch);
      var refused := if s.guard == NoGuard then !ch.guardPasses else s.guard.Checked? && !s.guard.passed;
      && (ch.exit.StreamBlocked? ==>
            && d.state == s.(status := RejectedStatus, policy := Some(Reject), facts := ch.facts, answer := s.answer + 1,
                             guard := Checked(ch.exit.passed, s.answer + 1))
            && d.node == Rejected)
      && (ch.exit.PauseAsked? ==> d.state.status == if refused then RejectedStatus else Paused)
      && (ch.exit.CancelAsked? ==> d.state.status == if refused then RejectedStatus else Cancelled)
      && (!ch.exit.StreamBlocked? ==> d.state.answer == s.answer && d.state.facts == s.facts && d.state.retry == s.retry)
  {
  }

  /** The risk a tool list stands for is that of its first high or critical tool, and low without one. */
  lemma {:induction false} FirstElevatedIs(risks: seq<Risk>) returns (i: nat)
    ensures if i < |risks| then risks[i] in {HighRisk, CriticalRisk} && FirstElevated(risks) == risks[i]
            else FirstElevated(risks) == LowRisk
    ensures forall j :: 0 <= j < i && j < |risks| ==> risks[j] !in {HighRisk, CriticalRisk}
  {
    if risks == [] || Elevated(risks[0]) {
      i := 0;
    } else {
      i := FirstElevatedIs(risks[1..]);
      i := i + 1;
    }
  }

  /** Below the two risks that decide by themselves: review for undeliverable failed code or little confidence, and
      a refusal for a guest whose tools are high or critical; everything else goes on. */
  lemma VerdictIs(cfg: Settings, f: Facts, risk: Risk)
    requires risk == if f.risk.Some? then f.risk.value else FirstElevated(f.toolRisks)
    ensures risk == cfg.autoReject ==> VerdictOf(cfg, f) == Reject
    ensures risk != cfg.autoReject ==>
      && (risk == UnknownRisk <==> VerdictOf(cfg, f) == Escalate)
      && (risk == cfg.requireReview != UnknownRisk ==> VerdictOf(cfg, f) == Review)
    ensures risk !in {cfg.autoReject, UnknownRisk, cfg.requireReview} ==>
      var repaired := f.reasoned && f.parserRecovered;
      var failed := f.codeFailed && !f.codeVerified;
      var unsure := f.reasoned && f.confidence.Some? && f.confidence.value < 0.5;
      && (VerdictOf(cfg, f) == Review <==> !repaired && (if failed then !f.codeDegraded else unsure))
      && (VerdictOf(cfg, f) == Reject <==>
            !repaired && !failed && !unsure && f.guest && exists i :: 0 <= i < |f.toolRisks| && f.toolRisks[i] in {HighRisk, CriticalRisk})
  {
    var i := FirstElevatedIs(f.toolRisks);
  }

  /** The policy node asks for review exactly if it says REVIEW or ESCALATE, and a flagged turn is always one of
      these; when it throws it leaves all but the status and the retry count as they were. */
  lemma PolicyLeaves(cfg: Settings, c: Config, ch: Choice)
    requires c.node == PolicyNode
    ensures var s, t := c.state, Visit(cfg, c, ch).state;
      if ch.throws then t == s.(status := Failed, retry := s.retry + 1)
      else
        && t == s.(policy := t.policy, reviewRequired := t.reviewRequired, status := PolicyChecked)
        && t.policy == Some(if s.reviewRequired then Review else VerdictOf(cfg, s.facts))
        && (t.reviewRequired <==> t.policy == Some(Review) || t.policy == Some(Escalate))
  {
    hide VerdictOf;
  }

  /** The review node waits without feedback, and settles the review with it. */
  lemma ReviewLeaves(cfg: Settings, c: Config, ch: Choice)
    requires c.node == HumanReview
    ensures var s, t := c.state, Visit(cfg, c, ch).state;
      var seen := if ch.submitted.Some? then ch.submitted else s.feedback;
      && t.feedback == seen && t.guard == s.guard && t.facts == s.facts && t.answer == s.answer
      && (ch.throws ==> t.status == Failed && t.retry == s.retry + 1 && t.policy == s.policy && t.reviewRequired == s.reviewRequired)
      && (!ch.throws ==> t.retry == s.retry && (t.reviewRequired <==> seen.None?))
      && (!ch.throws && seen.None? ==> t.status == WaitingReview && t.policy == s.policy)
      && (!ch.throws && seen == Some(RejectIt) ==> t.status == RejectedStatus && t.policy == Some(Reject))
      && (!ch.throws && seen == Some(ApproveIt) ==> t.status == ReviewResolved && t.policy == Some(Continue))
  {
  }

  /** Output completes the turn unless it throws, side effects are still owed, or the turn is rejected or paused; it
      pauses a turn that owes side effects. */
  lemma OutputLeaves(cfg: Settings, c: Config, ch: Choice)
    requires c.node == Output
    ensures var s, t := c.state, Visit(cfg, c, ch).state; var owes := ch.signals.sideEffects && !ch.signals.contractFulfilled;
      && t == s.(status := t.status, retry := if ch.throws then s.retry + 1 else s.retry)
      && (ch.throws ==> t.status == Failed)
      && (!ch.throws && owes ==> t.status == Paused)
      && (!ch.throws && !owes ==> t.status == if s.status == RejectedStatus || s.status == Paused then s.status else Completed)
  {
  }

  /** The last nodes name their status, and an interrupt ends the turn exactly if it asks to abort. */
  lemma EndsLeave(cfg: Settings, c: Config, ch: Choice)
    ensures var d := Visit(cfg, c, ch);
      && (c.node == Rejected ==> d.state == c.state.(status := RejectedStatus) && d.node == End)
      && (c.node == DeadLetter ==> d.state == c.state.(status := DeadLettered) && d.node == End)
      && (c.node == InterruptControl ==> d.node == if ch.signals.aborted then End else IncrementalPlanning)
      && (c.node == EventClassification ==> d.node == Acknowledge) && (c.node == Acknowledge ==> d.node == InterruptControl)
      && d.generator == if c.node == ReasoningOrWriting || c.node == EngineeringExecution then Some(c.node) else c.generator
    ensures forall s :: Enter(s).node == EventClassification && Enter(s).state == s && Enter(s).generator.None?
  {
    hide AfterPlanning, AfterTool, AfterRetrieval, AfterReasoning, ReasoningOrWritingNode, RunOutput, RunPolicy;
  }

  // ----- safety over every run -----

  /** What holds at each node of a run. */
  ghost predicate Inv(c: Config) {
    && (c.node in {Verification, PolicyNode, HumanReview, Output} && c.generator == Some(ReasoningOrWriting)
        ==> !GuardBlocks(c.state.guard))
    && (c.node == Output ==> c.state.policy in {None, Some(Continue)} && c.state.status in {PolicyChecked, Failed})
    && (c.node == HumanReview ==> c.state.policy != Some(Reject) && c.state.status != RejectedStatus)
  }

  lemma VisitKeepsInv(cfg: Settings, c: Config, ch: Choice)
    requires Inv(c)
    ensures Inv(Visit(cfg, c, ch))
  {
    WhereFrom(cfg, c.node, Effect(cfg, c.node, c.state, ch), ch.signals);
    match c.node
    case ReasoningOrWriting => AfterReasoningBlocks(cfg, Effect(cfg, c.node, c.state, ch), ch.signals);
    case Verification => {}
    case PolicyNode => PolicyEffect(cfg, c.state, ch);
    case HumanReview => {}
    case _ => { hide Effect, Route; }
  }

  lemma PolicyEffect(cfg: Settings, s: State, ch: Choice)
    ensures var u := RunPolicy(cfg, s, ch);
      && u.guard == s.guard && u.status in {PolicyChecked, Failed}
      && AfterPolicy(u) in {Output, HumanReview, Rejected}
      && (AfterPolicy(u) == Output ==> u.policy in {None, Some(Continue)})
      && (AfterPolicy(u) == HumanReview ==> u.policy != Some(Reject))
  {
  }

  lemma WhereFrom(cfg: Settings, n: Node, s: State, g: Signals)
    ensures Route(cfg, n, s, g) == Output ==> n == PolicyNode
    ensures Route(cfg, n, s, g) == HumanReview ==> n in {Verification, PolicyNode}
    ensures Route(cfg, n, s, g) == PolicyNode ==> n in {Verification, EngineeringExecution}
    ensures Route(cfg, n, s, g) == Verification ==> n in {ReasoningOrWriting, HumanReview}
  {
  }

  lemma AfterReasoningBlocks(cfg: Settings, s: State, g: Signals)
    ensures GuardBlocks(s.guard) ==> AfterReasoning(cfg, s, g) == Rejected
    ensures AfterReasoning(cfg, s, g) !in {HumanReview, Output}
  {
  }

  lemma {:induction false} RunKeepsInv(cfg: Settings, start: State, run: seq<Choice>)
    ensures Inv(After(cfg, Enter(start), run))
  {
    if run != [] {
      RunKeepsInv(cfg, start, run[..|run| - 1]);
      VisitKeepsInv(cfg, After(cfg, Enter(start), run[..|run| - 1]), run[|run| - 1]);
    }
  }

  /** Whatever a run did before, when it is about to deliver output then the policy said CONTINUE or
      nothing, an answer from reasoning_or_writing was not blocked by the guard, and the state is not
      a rejected one, so that the rejection notice in the output node is never composed. */
  lemma OutputIsCleared(cfg: Settings, start: State, run: seq<Choice>)
    requires After(cfg, Enter(start), run).node == Output
    ensures var c := After(cfg, Enter(start), run);
      && c.state.policy in {None, Some(Continue)}
      && (c.generator == Some(ReasoningOrWriting) ==> !GuardBlocks(c.state.guard))
      && c.state.status in {PolicyChecked, Failed}
  {
    RunKeepsInv(cfg, start, run);
  }

  /** A visit to the review node that applies a REJECT. */
  predicate AppliesReject(c: Config, ch: Choice) {
    c.node == HumanReview && !ch.throws && FeedbackSeen(c.state, ch) == Some(RejectIt)
  }

  lemma RejectSteps(cfg: Settings, c: Config, ch: Choice, next: Choice, last: Choice)
    requires AppliesReject(c, ch)
    ensures var d := Visit(cfg, c, ch);
      && d.node == Verification && Visit(cfg, d, next).node == Rejected
      && Visit(cfg, Visit(cfg, d, next), last).node == End
  {
    hide AfterPlanning, AfterTool, AfterRetrieval, AfterReasoning, ReasoningOrWritingNode, RunOutput, RunPolicy;
  }

  /** A human REJECT that is applied is followed by verification, rejected and the end. */
  lemma {:induction false} RejectIsFinal(cfg: Settings, c: Config, ch: Choice, rest: seq<Choice>)
    requires AppliesReject(c, ch)
    ensures After(cfg, c, [ch] + rest).node == match |rest| case 0 => Verification case 1 => Rejected case _ => End
  {
    hide Visit;
    RejectSteps(cfg, c, ch, ch, ch);
    AfterOne(cfg, c, ch);
    var n := |rest| - 1;
    if n < 0 {
      assert [ch] + rest == [ch];
    } else {
      assert [ch] + rest == [ch] + rest[..n] + [rest[n]];
      AfterMore(cfg, c, [ch] + rest[..n], rest[n]);
      if n == 0 {
        RejectSteps(cfg, c, ch, rest[0], rest[0]);
        assert [ch] + rest[..0] == [ch];
      } else if n == 1 {
        RejectSteps(cfg, c, ch, rest[0], rest[1]);
        AfterMore(cfg, c, [ch], rest[0]);
        assert [ch] + rest[..1] == [ch] + [rest[0]];
      } else {
        RejectIsFinal(cfg, c, ch, rest[..n]);
        EndStays(cfg, After(cfg, c, [ch] + rest[..n]), rest[n]);
      }
    }
  }

  lemma EndStays(cfg: Settings, c: Config, ch: Choice)
    requires c.node == End
    ensures Visit(cfg, c, ch) == c
  {
  }

  lemma AfterOne(cfg: Settings, c: Config, ch: Choice)
    ensures After(cfg, c, [ch]) == Visit(cfg, c, ch)
  {
    AfterMore(cfg, c, [], ch);
    assert [] + [ch] == [ch];
  }

  /** In every run: once a REJECT was applied, no later node is the output. */
  lemma NoOutputAfterReject(cfg: Settings, start: State, before: seq<Choice>, ch: Choice, rest: seq<Choice>)
    requires AppliesReject(After(cfg, Enter(start), before), ch)
    ensures After(cfg, Enter(start), before + [ch] + rest).node in {Verification, Rejected, End}
  {
    RejectIsFinal(cfg, After(cfg, Enter(start), before), ch, rest);
    AfterConcat(cfg, Enter(start), before, [ch] + rest);
    assert before + ([ch] + rest) == before + [ch] + rest;
  }

  /** Where a visit to the review node leads, two visits later: an applied REJECT is refused and an
      approval goes on to the policy; waiting comes back; and a review that threw comes back exactly
      if the review was flagged or the policy had said REVIEW, and otherwise goes on to the policy,
      so that a REJECT that could not be saved is lost. */
  lemma ReviewLeadsTo(cfg: Settings, start: State, before: seq<Choice>, ch: Choice, next: Choice)
    requires After(cfg, Enter(start), before).node == HumanReview
    ensures var c := After(cfg, Enter(start), before);
      After(cfg, Enter(start), before + [ch] + [next]).node ==
        if ch.throws then
          if c.state.reviewRequired || c.state.policy == Some(Review) then HumanReview else PolicyNode
        else match FeedbackSeen(c.state, ch)
          case None => HumanReview
          case Some(RejectIt) => Rejected
          case Some(ApproveIt) => PolicyNode
  {
    RunKeepsInv(cfg, start, before);
    AfterMore(cfg, Enter(start), before, ch);
    AfterMore(cfg, Enter(start), before + [ch], next);
  }

  // ----- approval and the policy -----

  /** A visit to the review node, to verification and to the policy, with the approval still there
      and nothing throwing. */
  predicate ApprovalRound(s: State, review: Choice, policy: Choice) {
    FeedbackSeen(s, review) == Some(ApproveIt) && !review.throws && !policy.throws
  }

  /** An approved turn is delivered exactly if the policy engine, asked again without the review
      flag, says CONTINUE; if it says REVIEW or ESCALATE, the turn is back in human review. */
  lemma ApprovalDeliversIff(cfg: Settings, c: Config, review: Choice, verify: Choice, policy: Choice)
    requires c.node == HumanReview && ApprovalRound(c.state, review, policy)
    ensures var d := After(cfg, c, [review, verify, policy]);
      && d.node == (match VerdictOf(cfg, c.state.facts) case Continue => Output case Reject => Rejected case _ => HumanReview)
      && d.state.facts == c.state.facts && d.state.feedback == Some(ApproveIt)
  {
    AfterThree(cfg, c, review, verify, policy);
  }

  lemma AfterThree(cfg: Settings, c: Config, a: Choice, b: Choice, d: Choice)
    ensures After(cfg, c, [a, b, d]) == Visit(cfg, Visit(cfg, Visit(cfg, c, a), b), d)
  {
    hide Visit;
    AfterOne(cfg, c, a);
    AfterMore(cfg, c, [a], b);
    AfterMore(cfg, c, [a, b], d);
    assert [a] + [b] == [a, b];
    assert [a, b] + [d] == [a, b, d];
  }

  function Rounds(review: Choice, verify: Choice, policy: Choice, n: nat): seq<Choice> {
    if n == 0 then [] else Rounds(review, verify, policy, n - 1) + [review, verify, policy]
  }

  /** So an approval never gets a turn past an engine that keeps asking for a review: after any
      number of rounds of approving, the run is in human review again. */
  lemma {:induction false} ApprovalCanLoopForever(cfg: Settings, c: Config, review: Choice, verify: Choice,
                                                  policy: Choice, n: nat)
    requires c.node == HumanReview && VerdictOf(cfg, c.state.facts) in {Review, Escalate}
    requires review.submitted == Some(ApproveIt) && !review.throws && !policy.throws
    ensures var d := After(cfg, c, Rounds(review, verify, policy, n));
      d.node == HumanReview && d.state.facts == c.state.facts
  {
    hide Visit;
    if n > 0 {
      ApprovalCanLoopForever(cfg, c, review, verify, policy, n - 1);
      var so := Rounds(review, verify, policy, n - 1);
      AfterConcat(cfg, c, so, [review, verify, policy]);
      ApprovalDeliversIff(cfg, After(cfg, c, so), review, verify, policy);
    }
  }

  /** Which turns no approval delivers, where the level that rejects and the one that asks for review
      differ: unknown or review-level risk, and, below that and unless the parser repaired the answer,
      failed code that may not be delivered degraded or a confidence under one half. */
  lemma QuestionedIff(cfg: Settings, f: Facts)
    requires cfg.autoReject != cfg.requireReview && cfg.autoReject != UnknownRisk
    ensures VerdictOf(cfg, f) in {Review, Escalate} <==>
      || InferredRisk(f) in {UnknownRisk, cfg.requireReview}
      || (InferredRisk(f) != cfg.autoReject && !(f.reasoned && f.parserRecovered)
          && if f.codeFailed && !f.codeVerified then !f.codeDegraded else Confidence(f) < 0.5)
  {
  }

  /** So a turn with an unrepaired answer of confidence under one half is in human review again
      after any number of approvals. */
  lemma LowConfidenceIsNeverDelivered(cfg: Settings, c: Config, review: Choice, verify: Choice, policy: Choice, n: nat)
    requires cfg.autoReject != cfg.requireReview && cfg.autoReject != UnknownRisk
    requires c.node == HumanReview && review.submitted == Some(ApproveIt) && !review.throws && !policy.throws
    requires var f := c.state.facts;
      && f.reasoned && f.confidence.Some? && f.confidence.value < 0.5 && !f.parserRecovered && !f.codeFailed
      && InferredRisk(f) != cfg.autoReject
    ensures After(cfg, c, Rounds(review, verify, policy, n)).node == HumanReview
  {
    QuestionedIff(cfg, c.state.facts);
    ApprovalCanLoopForever(cfg, c, review, verify, policy, n);
  }

  /** A policy node that throws fails open exactly if no verdict, or CONTINUE, was there before. */
  lemma PolicyFailsOpenIff(cfg: Settings, c: Config, ch: Choice)
    requires c.node == PolicyNode && ch.throws
    ensures Visit(cfg, c, ch).node == Output <==> c.state.policy in {None, Some(Continue)}
    ensures Visit(cfg, c, ch).state.policy == c.state.policy
  {
  }

  /** Whether the routers let an unfailed reasoning visit go on to verification. */
  predicate GoesOn(g: Signals) {
    g.narrateReady || !((g.blocked && g.canReplan) || g.converge == ForceWrite || (g.converge == Replan && g.canReplan))
  }

  /** Exactly when a visit that ends with a pause asked for is followed, within the graph, by
      verification, the policy and then the output; the pause has left the status by then, and is
      settled only when the runner ends the turn. */
  lemma PauseReachesOutputIff(cfg: Settings, c: Config, pause: Choice, verify: Choice, policy: Choice)
    requires c.node == ReasoningOrWriting && pause.exit == PauseAsked
    ensures var d := After(cfg, c, [pause, verify, policy]);
      (d.node == Output <==>
        && (if c.state.guard == NoGuard then pause.guardPasses else !GuardBlocks(c.state.guard))
        && GoesOn(pause.signals)
        && !c.state.reviewRequired && c.state.policy != Some(Review) && c.state.policy != Some(Reject)
        && (if policy.throws then c.state.policy in {None, Some(Continue)} else VerdictOf(cfg, c.state.facts) == Continue))
      && (d.node == Output ==> d.state.status != Paused)
  {
    AfterThree(cfg, c, pause, verify, policy);
    PausedVisit(cfg, c, pause);
    var d := Visit(cfg, c, pause);
    if d.node == Verification {
      PausedOn(cfg, d, verify, policy);
    } else {
      NotOutputSoon(cfg, d, verify, policy);
    }
  }

  /** A paused visit goes on to verification unless the guard or the routers turn it away. */
  lemma PausedVisit(cfg: Settings, c: Config, ch: Choice)
    requires c.node == ReasoningOrWriting && ch.exit == PauseAsked
    ensures var d := Visit(cfg, c, ch);
      var clear := if c.state.guard == NoGuard then ch.guardPasses else !GuardBlocks(c.state.guard);
      && (d.node == Verification <==> clear && GoesOn(ch.signals))
      && d.node in {Verification, Rejected, IncrementalPlanning}
      && (clear ==> d.state == c.state.(status := Paused, guard := d.state.guard) && !GuardBlocks(d.state.guard))
  {
  }

  lemma PausedOn(cfg: Settings, c: Config, verify: Choice, policy: Choice)
    requires c.node == Verification && c.state.status == Paused && !GuardBlocks(c.state.guard)
    ensures var d := Visit(cfg, Visit(cfg, c, verify), policy);
      (d.node == Output <==>
        && !c.state.reviewRequired && c.state.policy != Some(Review) && c.state.policy != Some(Reject)
        && (if policy.throws then c.state.policy in {None, Some(Continue)} else VerdictOf(cfg, c.state.facts) == Continue))
      && (d.node == Output ==> d.state.status != Paused)
  {
    var v := Visit(cfg, c, verify);
    if v.node == PolicyNode {
      PolicyLeadsTo(cfg, v, policy);
    }
  }

  /** What the policy node says, and where it leads. */
  lemma PolicyLeadsTo(cfg: Settings, c: Config, ch: Choice)
    requires c.node == PolicyNode && !c.state.reviewRequired
    ensures var d := Visit(cfg, c, ch);
      && d.state.status in {PolicyChecked, Failed}
      && (d.node == Output <==> if ch.throws then c.state.policy in {None, Some(Continue)} else VerdictOf(cfg, c.state.facts) == Continue)
  {
  }

  lemma NotOutputSoon(cfg: Settings, c: Config, first: Choice, second: Choice)
    requires c.node in {Rejected, IncrementalPlanning}
    ensures Visit(cfg, Visit(cfg, c, first), second).node != Output
  {
    hide Effect, Route;
    var d := Visit(cfg, c, first);
    RoutersStayInTheTable(cfg, c.node, Effect(cfg, c.node, c.state, first), first.signals);
    WhereFrom(cfg, d.node, Effect(cfg, d.node, d.state, second), second.signals);
    assert d.node != PolicyNode;
  }

  // ----- which answer the guard looked at -----

  predicate Hidden(n: Node) {
    n in {EventClassification, Acknowledge, InterruptControl, IncrementalPlanning, EngineeringExecution, Retrieval,
          ToolExecution, ContextGovernance}
  }

  /** No node without a body here resets the guard's result, and no stream is blocked. */
  ghost predicate LeavesGuard(cfg: Settings, c: Config, run: seq<Choice>) {
    forall i :: 0 <= i < |run| ==>
      var at := After(cfg, c, run[..i]);
      !run[i].exit.StreamBlocked? && (Hidden(at.node) ==> run[i].after.guard == at.state.guard)
  }

  /** A guard result that is there stays, through every run: whatever is answered later is not looked
      at again. */
  lemma {:induction false} GuardIsKept(cfg: Settings, c: Config, run: seq<Choice>)
    requires c.state.guard != NoGuard && LeavesGuard(cfg, c, run)
    ensures After(cfg, c, run).state.guard == c.state.guard
  {
    if run != [] {
      var n := |run| - 1;
      assert forall i :: 0 <= i < n ==> run[..n][..i] == run[..i];
      GuardIsKept(cfg, c, run[..n]);
      assert run[..n] == run[..n][..n];
      hide VerdictOf;
      VisitKeepsGuard(cfg, After(cfg, c, run[..n]), run[n]);
    }
  }

  lemma VisitKeepsGuard(cfg: Settings, c: Config, ch: Choice)
    requires c.state.guard != NoGuard && !ch.exit.StreamBlocked? && (Hidden(c.node) ==> ch.after.guard == c.state.guard)
    ensures Visit(cfg, c, ch).state.guard == c.state.guard
  {
    hide VerdictOf, Route;
  }

  /** A guard result is about an answer there has been. */
  predicate Stamped(s: State) { s.guard.Checked? ==> s.guard.about <= s.answer }

  /** Between an answer and its delivery only verification, the policy and the review are visited. */
  ghost predicate UnderReview(cfg: Settings, c: Config, run: seq<Choice>) {
    forall i :: 0 <= i < |run| ==> After(cfg, c, run[..i]).node in {Verification, PolicyNode, HumanReview}
  }

  lemma {:induction false} ReviewKeepsAnswer(cfg: Settings, c: Config, run: seq<Choice>)
    requires UnderReview(cfg, c, run)
    ensures After(cfg, c, run).state.guard == c.state.guard && After(cfg, c, run).state.answer == c.state.answer
  {
    if run != [] {
      var n := |run| - 1;
      assert forall i :: 0 <= i < n ==> run[..n][..i] == run[..i];
      ReviewKeepsAnswer(cfg, c, run[..n]);
      hide Visit;
      VisitKeepsAnswer(cfg, After(cfg, c, run[..n]), run[n]);
    }
  }

  lemma VisitKeepsAnswer(cfg: Settings, c: Config, ch: Choice)
    requires c.node in {Verification, PolicyNode, HumanReview}
    ensures Visit(cfg, c, ch).state.guard == c.state.guard && Visit(cfg, c, ch).state.answer == c.state.answer
  {
    hide VerdictOf, Route;
  }

  /** The answer that is delivered was itself looked at by the guard, and passed, exactly if there was
      no guard result when the visit that made it began. */
  lemma DeliveredAnswerCheckedIff(cfg: Settings, c: Config, ch: Choice, rest: seq<Choice>)
    requires c.node == ReasoningOrWriting && ch.exit == Answered && Stamped(c.state)
    requires UnderReview(cfg, Visit(cfg, c, ch), rest) && After(cfg, c, [ch] + rest).node == Output
    ensures var d := After(cfg, c, [ch] + rest);
      d.state.guard == Checked(true, d.state.answer) <==> c.state.guard == NoGuard
  {
    AfterOne(cfg, c, ch);
    AfterConcat(cfg, c, [ch], rest);
    var v := Visit(cfg, c, ch);
    ReviewKeepsAnswer(cfg, v, rest);
    AfterReasoningBlocks(cfg, Effect(cfg, c.node, c.state, ch), ch.signals);
    AfterNone(cfg, v);
    if rest != [] {
      assert rest[..0] == [] && v.node in {Verification, PolicyNode, HumanReview};
    }
    AnswerStamped(c.state, ch);
  }

  /** What a visit that answers leaves of the guard. */
  lemma AnswerStamped(s: State, ch: Choice)
    requires ch.exit == Answered
    ensures var u := ReasoningOrWritingNode(s, ch);
      && u.answer == s.answer + 1
      && (s.guard != NoGuard ==> u.guard == s.guard)
      && (s.guard == NoGuard ==> u.guard == Checked(ch.guardPasses, u.answer))
  {
  }

  // ----- retries -----

  predicate AllFail(run: seq<Choice>) { forall i :: 0 <= i < |run| ==> run[i].exit in {OverBudget, Raised} }

  function RaisedCount(run: seq<Choice>): nat {
    if run == [] then 0 else RaisedCount(run[..|run| - 1]) + if run[|run| - 1].exit == Raised then 1 else 0
  }

  lemma {:induction false} RaisedCountBounds(run: seq<Choice>)
    ensures RaisedCount(run) <= |run|
    ensures (forall i :: 0 <= i < |run| ==> run[i].exit == Raised) ==> RaisedCount(run) == |run|
    ensures (forall i :: 0 <= i < |run| ==> run[i].exit == OverBudget) ==> RaisedCount(run) == 0
  {
    if run != [] {
      RaisedCountBounds(run[..|run| - 1]);
    }
  }

  /** However failing visits are mixed, the run is still retrying exactly while the ordinary failures
      leave the retry count below the limit; after that it is in the dead letter or over. */
  lemma {:induction false} StillRetryingIff(cfg: Settings, c: Config, run: seq<Choice>)
    requires c.node == ReasoningOrWriting && !GuardBlocks(c.state.guard) && AllFail(run) && run != []
    ensures var d := After(cfg, c, run);
      && (d.node == ReasoningOrWriting <==> c.state.retry + RaisedCount(run) < cfg.maxRetry)
      && d.node in {ReasoningOrWriting, DeadLetter, End} && d.state.guard == c.state.guard
      && (d.node == ReasoningOrWriting ==> d.state.retry == c.state.retry + RaisedCount(run))
      && (d.node == DeadLetter ==>
            |run| == 1 || c.state.retry + RaisedCount(run[..|run| - 1]) < cfg.maxRetry)
  {
    hide Visit;
    var n := |run| - 1;
    if n == 0 {
      assert run[..0] == [];
      FailingVisit(cfg, c, run[0]);
    } else {
      StillRetryingIff(cfg, c, run[..n]);
      var before := After(cfg, c, run[..n]);
      if before.node == ReasoningOrWriting {
        FailingVisit(cfg, before, run[n]);
      } else {
        DeadEnds(cfg, before, run[n]);
      }
    }
  }

  lemma FailingVisit(cfg: Settings, c: Config, ch: Choice)
    requires c.node == ReasoningOrWriting && !GuardBlocks(c.state.guard) && ch.exit in {OverBudget, Raised}
    ensures var d := Visit(cfg, c, ch);
      && d.state == c.state.(status := ReasonFailed, retry := d.state.retry)
      && d.state.retry == c.state.retry + (if ch.exit == Raised then 1 else 0)
      && d.node == if d.state.retry >= cfg.maxRetry then DeadLetter else ReasoningOrWriting
  {
  }

  lemma DeadEnds(cfg: Settings, c: Config, ch: Choice)
    requires c.node in {DeadLetter, End}
    ensures Visit(cfg, c, ch).node == End && Visit(cfg, c, ch).state.guard == c.state.guard
  {
  }

  /** Ordinary failures alone: max(1, limit - retries) visits reach the dead letter, no sooner. */
  lemma {:induction false} RetriesAreExact(cfg: Settings, c: Config, run: seq<Choice>)
    requires c.node == ReasoningOrWriting && !GuardBlocks(c.state.guard) && run != []
    requires forall i :: 0 <= i < |run| ==> run[i].exit == Raised
    ensures var d, visits := After(cfg, c, run), Max(1, cfg.maxRetry - c.state.retry);
      && d.node == (if |run| < visits then ReasoningOrWriting else if |run| == visits then DeadLetter else End)
      && (|run| < visits ==> d.state.retry == c.state.retry + |run| && d.state.guard == c.state.guard)
  {
    hide Visit;
    var n := |run| - 1;
    if n == 0 {
      assert run[..0] == [];
      FailingVisit(cfg, c, run[0]);
    } else {
      RetriesAreExact(cfg, c, run[..n]);
      var before := After(cfg, c, run[..n]);
      if before.node == ReasoningOrWriting {
        FailingVisit(cfg, before, run[n]);
      } else {
        DeadEnds(cfg, before, run[n]);
      }
    }
  }

  /** Visits that run over budget never use up the retries: within the graph they go on forever below
      the limit, and at the limit the first one is dead. */
  lemma OverBudgetNeverEnds(cfg: Settings, c: Config, run: seq<Choice>)
    requires c.node == ReasoningOrWriting && !GuardBlocks(c.state.guard) && run != []
    requires forall i :: 0 <= i < |run| ==> run[i].exit == OverBudget
    ensures After(cfg, c, run).node == ReasoningOrWriting <==> c.state.retry < cfg.maxRetry
    ensures c.state.retry < cfg.maxRetry ==> After(cfg, c, run).state == c.state.(status := ReasonFailed)
  {
    hide Visit;
    RaisedCountBounds(run);
    StillRetryingIff(cfg, c, run);
    var n := |run| - 1;
    if c.state.retry < cfg.maxRetry {
      if n > 0 {
        OverBudgetNeverEnds(cfg, c, run[..n]);
      }
      FailingVisit(cfg, After(cfg, c, run[..n]), run[n]);
    }
  }

  /** A blocked guard cuts the retries short: a failing visit goes to rejected at once. */
  lemma BlockedIsNotRetried(cfg: Settings, c: Config, ch: Choice)
    requires c.node == ReasoningOrWriting && ch.exit in {OverBudget, Raised}
    ensures Visit(cfg, c, ch).node == Rejected <==> GuardBlocks(c.state.guard)
  {
  }
}
