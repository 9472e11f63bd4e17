/** The circuit breaker in front of the language model: a timed three-state machine whose
    fields are shown to be a function of the history of events it has seen.

    An event is one critical section of the lock, stamped with the monotonic clock. A history
    is any sequence of events with non-decreasing stamps, so every interleaving of concurrent
    callers is covered, including outcomes that arrive long after the call was admitted. */
module CircuitBreakers {
  import opened Basics

  datatype CircuitState = Closed | Open | HalfOpen

  datatype Config = Config(failureThreshold: int, recoveryTimeout: real, halfOpenMaxCalls: int)

  datatype Fields = Fields(
    state: CircuitState, failureCount: int, lastFailureTime: real, halfOpenCalls: int)

  datatype Event = Allow(at: real) | Success(at: real) | Failure(at: real)

  const INITIAL := Fields(Closed, 0, 0.0, 0)

  // ----- what the methods do to the fields -----

  /** The lazy move from open to half-open once the recovery timeout has passed. */
  function Transitioned(cfg: Config, f: Fields, now: real): Fields {
    if f.state == Open && now - f.lastFailureTime >= cfg.recoveryTimeout
    then f.(state := HalfOpen, halfOpenCalls := 0)
    else f
  }

  /** Whether `allow_call` returns instead of raising. */
  predicate Admits(cfg: Config, f: Fields, now: real) {
    var g := Transitioned(cfg, f, now);
    g.state == Closed || (g.state == HalfOpen && g.halfOpenCalls < cfg.halfOpenMaxCalls)
  }

  function Step(cfg: Config, f: Fields, e: Event): Fields {
    match e
    case Allow(now) =>
      var g := Transitioned(cfg, f, now);
      if g.state == HalfOpen && g.halfOpenCalls < cfg.halfOpenMaxCalls
      then g.(halfOpenCalls := g.halfOpenCalls + 1)
      else g
    case Success(_) =>
      f.(state := Closed, failureCount := 0, halfOpenCalls := 0)
    case Failure(now) =>
      var count := f.failureCount + 1;
      f.(state := if f.state == HalfOpen || count >= cfg.failureThreshold then Open else f.state,
         failureCount := count,
         lastFailureTime := now)
  }

  function Run(cfg: Config, h: seq<Event>): Fields {
    if h == [] then INITIAL else Step(cfg, Run(cfg, h[..|h| - 1]), h[|h| - 1])
  }

  // ----- the same facts read off the history alone -----

  ghost predicate Monotone(h: seq<Event>) {
    forall i, j :: 0 <= i < j < |h| ==> h[i].at <= h[j].at
  }

  function FailuresSinceSuccess(h: seq<Event>): nat {
    if h == [] then 0
    else match h[|h| - 1]
      case Success(_) => 0
      case Failure(_) => FailuresSinceSuccess(h[..|h| - 1]) + 1
      case Allow(_) => FailuresSinceSuccess(h[..|h| - 1])
  }

  function LatestFailure(h: seq<Event>): real {
    if h == [] then 0.0
    else if h[|h| - 1].Failure? then h[|h| - 1].at
    else LatestFailure(h[..|h| - 1])
  }

  /** Enough failures in a row, counting from the last success, to keep the circuit from closing. */
  predicate Tripped(cfg: Config, h: seq<Event>) {
    FailuresSinceSuccess(h) >= Max(1, cfg.failureThreshold)
  }

  /** The admission rule without any reference to the breaker's fields. */
  predicate MayCall(cfg: Config, h: seq<Event>, now: real)
    decreases |h|, 1
  {
    Tripped(cfg, h) ==>
      && now - LatestFailure(h) >= cfg.recoveryTimeout
      && AdmittedSinceOutcome(cfg, h) < cfg.halfOpenMaxCalls
  }

  /** How many calls the rule has let through since the last reported outcome. */
  function AdmittedSinceOutcome(cfg: Config, h: seq<Event>): nat
    decreases |h|, 0
  {
    if h == [] || !h[|h| - 1].Allow? then 0
    else
      var before := h[..|h| - 1];
      AdmittedSinceOutcome(cfg, before) + if MayCall(cfg, before, h[|h| - 1].at) then 1 else 0
  }

  /** Everything the fields say, in terms of the history. */
  ghost predicate Reflects(cfg: Config, h: seq<Event>, f: Fields) {
    && f.failureCount == FailuresSinceSuccess(h)
    && f.lastFailureTime == LatestFailure(h)
    && (f.state == Closed <==> !Tripped(cfg, h))
    && (f.state == Closed ==> f.halfOpenCalls == 0)
    && (f.state == Open ==> AdmittedSinceOutcome(cfg, h) == 0)
    && (f.state == HalfOpen ==>
          && f.halfOpenCalls == AdmittedSinceOutcome(cfg, h)
          && f.halfOpenCalls <= Max(0, cfg.halfOpenMaxCalls)
          && h != []
          && h[|h| - 1].at - LatestFailure(h) >= cfg.recoveryTimeout)
  }

  /** The breaker's fields equal a function of its event history, for every interleaving. */
  lemma {:induction false} FieldsReflectHistory(cfg: Config, h: seq<Event>)
    requires Monotone(h)
    ensures Reflects(cfg, h, Run(cfg, h))
  {
    if h != [] {
      FieldsReflectHistory(cfg, h[..|h| - 1]);
    }
  }

  /** `allow_call` admits exactly the calls the history rule admits. */
  lemma AdmissionIsExact(cfg: Config, h: seq<Event>, now: real)
    requires Monotone(h + [Allow(now)])
    ensures Admits(cfg, Run(cfg, h), now) <==> MayCall(cfg, h, now)
  {
    assert (h + [Allow(now)])[..|h|] == h;
    assert h != [] ==> (h + [Allow(now)])[|h| - 1].at <= (h + [Allow(now)])[|h|].at;
    assert Monotone(h) by {
      assert forall i :: 0 <= i < |h| ==> h[i] == (h + [Allow(now)])[i];
    }
    FieldsReflectHistory(cfg, h);
  }

  /** A tripped breaker admits nothing within the recovery timeout of its latest failure. */
  lemma NoCallDuringRecovery(cfg: Config, h: seq<Event>, now: real)
    requires Monotone(h + [Allow(now)])
    requires Run(cfg, h).state != Closed && now - LatestFailure(h) < cfg.recoveryTimeout
    ensures !Admits(cfg, Run(cfg, h), now)
  {
    AdmissionIsExact(cfg, h, now);
    assert Monotone(h) by {
      assert forall i :: 0 <= i < |h| ==> h[i] == (h + [Allow(now)])[i];
    }
    FieldsReflectHistory(cfg, h);
  }

  /** Calls the breaker itself admits among `h[lo..hi]`, replaying it from the start. */
  function AdmittedBetween(cfg: Config, h: seq<Event>, lo: nat, hi: nat): nat
    requires lo <= hi <= |h|
  {
    if lo == hi then 0
    else
      var e := h[hi - 1];
      AdmittedBetween(cfg, h, lo, hi - 1)
      + if e.Allow? && Admits(cfg, Run(cfg, h[..hi - 1]), e.at) then 1 else 0
  }

  /** Between two outcomes a breaker that is not closed lets through at most
      `half_open_max_calls` calls, whatever the clock does. */
  lemma {:induction false} AtMostHalfOpenCalls(cfg: Config, h: seq<Event>, lo: nat, hi: nat)
    requires Monotone(h) && lo <= hi <= |h|
    requires forall k :: lo <= k < hi ==> h[k].Allow?
    requires Run(cfg, h[..lo]).state != Closed
    ensures AdmittedBetween(cfg, h, lo, hi) <= Max(0, cfg.halfOpenMaxCalls)
  {
    FieldsReflectHistory(cfg, h[..lo]);
    AdmittedCounted(cfg, h, lo, hi);
    FieldsReflectHistory(cfg, h[..hi]);
  }

  /** Over a stretch of calls only, the breaker's admissions add up to the history's count
      and the verdict "tripped" does not move. */
  lemma {:induction false} AdmittedCounted(cfg: Config, h: seq<Event>, lo: nat, hi: nat)
    requires Monotone(h) && lo <= hi <= |h|
    requires forall k :: lo <= k < hi ==> h[k].Allow?
    ensures AdmittedSinceOutcome(cfg, h[..hi])
         == AdmittedSinceOutcome(cfg, h[..lo]) + AdmittedBetween(cfg, h, lo, hi)
    ensures Tripped(cfg, h[..hi]) == Tripped(cfg, h[..lo])
  {
    hide Run, MayCall, Tripped, AdmittedSinceOutcome, Admits;
    if lo < hi {
      AdmittedCounted(cfg, h, lo, hi - 1);
      CallCounted(cfg, h, hi - 1);
    }
  }

  lemma CallCounted(cfg: Config, h: seq<Event>, n: nat)
    requires Monotone(h) && n < |h| && h[n].Allow?
    ensures AdmittedSinceOutcome(cfg, h[..n + 1])
         == AdmittedSinceOutcome(cfg, h[..n]) + if Admits(cfg, Run(cfg, h[..n]), h[n].at) then 1 else 0
    ensures Tripped(cfg, h[..n + 1]) == Tripped(cfg, h[..n])
  {
    hide Run, MayCall, Admits;
    var before, now := h[..n], h[n].at;
    assert h[..n + 1] == before + [Allow(now)];
    MonotonePrefix(h, n + 1);
    AdmissionIsExact(cfg, before, now);
    CallOnly(cfg, before, now);
  }

  /** A call, admitted or not, changes what the history says only by being counted. */
  lemma CallOnly(cfg: Config, h: seq<Event>, now: real)
    ensures AdmittedSinceOutcome(cfg, h + [Allow(now)])
         == AdmittedSinceOutcome(cfg, h) + if MayCall(cfg, h, now) then 1 else 0
    ensures Tripped(cfg, h + [Allow(now)]) == Tripped(cfg, h)
  {
    hide MayCall;
    assert (h + [Allow(now)])[..|h|] == h;
  }

  lemma MonotonePrefix(h: seq<Event>, n: nat)
    requires Monotone(h) && n <= |h|
    ensures Monotone(h[..n])
  {
  }

  /** The breaker object. `history` is specification only. */
  class CircuitBreaker {
    const cfg: Config
    var state: CircuitState
    var failureCount: int
    var lastFailureTime: real
    var halfOpenCalls: int
    ghost var history: seq<Event>

    ghost predicate Valid()
      reads this
    {
      Monotone(history)
      && Run(cfg, history) == Fields(state, failureCount, lastFailureTime, halfOpenCalls)
    }

    ghost predicate InOrder(now: real)
      reads this
    {
      forall i :: 0 <= i < |history| ==> history[i].at <= now
    }

    constructor (cfg: Config)
      ensures Valid() && this.cfg == cfg && history == []
    {
      this.cfg := cfg;
      state, failureCount, lastFailureTime, halfOpenCalls := Closed, 0, 0.0, 0;
      history := [];
    }

    method MaybeTransition(now: real)
      modifies `state, `halfOpenCalls
      ensures Fields(state, failureCount, lastFailureTime, halfOpenCalls)
           == Transitioned(cfg, old(Fields(state, failureCount, lastFailureTime, halfOpenCalls)), now)
    {
      if state != Open { return; }
      if now - lastFailureTime >= cfg.recoveryTimeout {
        state := HalfOpen;
        halfOpenCalls := 0;
      }
    }

    method RecordSuccess(ghost now: real)
      requires Valid() && InOrder(now)
      modifies this
      ensures Valid() && history == old(history) + [Success(now)]
      ensures state == Closed
    {
      failureCount := 0;
      state := Closed;
      halfOpenCalls := 0;
      history := history + [Success(now)];
    }

    method RecordFailure(now: real)
      requires Valid() && InOrder(now)
      modifies this
      ensures Valid() && history == old(history) + [Failure(now)]
      ensures state == Closed <==> old(FailuresSinceSuccess(history)) + 1 < Max(1, cfg.failureThreshold)
    {
      hide MayCall;
      FieldsReflectHistory(cfg, history);
      assert (history + [Failure(now)])[..|history|] == history;
      failureCount := failureCount + 1;
      lastFailureTime := now;
      if state == HalfOpen {
        state := Open;
      } else if failureCount >= cfg.failureThreshold {
        state := Open;
      }
      history := history + [Failure(now)];
    }

    /** Returns whether the call may go ahead; false stands for CircuitOpenError. */
    method AllowCall(now: real) returns (ok: bool)
      requires Valid() && InOrder(now)
      modifies this
      ensures Valid() && history == old(history) + [Allow(now)]
      ensures ok <==> MayCall(cfg, old(history), now)
    {
      hide MayCall;
      AdmissionIsExact(cfg, history, now);
      assert (history + [Allow(now)])[..|history|] == history;
      history := history + [Allow(now)];
      MaybeTransition(now);
      if state == Open { return false; }
      if state == HalfOpen {
        if halfOpenCalls >= cfg.halfOpenMaxCalls { return false; }
        halfOpenCalls := halfOpenCalls + 1;
      }
      return true;
    }

    /** `call` around a function that ends at `finish` and succeeds or raises. A refused call
        runs nothing and reports no outcome. */
    method Call(start: real, finish: real, succeeds: bool) returns (ran: bool)
      requires Valid() && InOrder(start) && start <= finish
      modifies this
      ensures Valid()
      ensures ran <==> MayCall(cfg, old(history), start)
      ensures history == old(history) + [Allow(start)]
        + if !ran then [] else if succeeds then [Success(finish)] else [Failure(finish)]
    {
      ran := AllowCall(start);
      if ran {
        if succeeds { RecordSuccess(finish); } else { RecordFailure(finish); }
      }
    }
  }
}
