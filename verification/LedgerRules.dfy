/**
 * What each event does to the shared state, field by field: the order of an invocation's checks, what an admission
 * takes, what a charge, a reservation and a completion change
 * (dispatcher/claude-agent-sdk/src/componentInvocation.ts, `charge`, `reserveRootStep` and `invoke`).
 */
module LedgerRules {
  import opened AliasTable
  import opened Prelude
  import opened StepExecution
  import opened Ledger

  // ---- limits --------------------------------------------------------------------------------

  /** A limit is the supplied integer, and the default when none is supplied. */
  predicate Supplied(value: Option<Numeric>, fallback: nat, limit: nat) {
    if value.Some? then value.value == Integer(limit) else limit == fallback
  }

  /** Every limit is the supplied one or its default, and the deadline is the supplied one or none. */
  lemma {:induction false} LimitsAsSupplied(input: LimitsInput)
    requires ResolveLimits(input).Some?
    ensures var l := ResolveLimits(input).value;
            && Supplied(input.maxDepth, 8, l.maxDepth) && Supplied(input.maxAttempts, 32, l.maxAttempts)
            && Supplied(input.maxRequestBytes, 65536, l.maxRequestBytes)
            && Supplied(input.maxResultBytes, 1048576, l.maxResultBytes)
            && Supplied(input.maxTurns, 40, l.maxTurns) && Supplied(input.maxTurnsPerChild, 12, l.maxTurnsPerChild)
            && (match input.deadlineAt
                case None => l.deadlineAt == None
                case Some(Finite(at)) => l.deadlineAt == Some(at)
                case Some(NotFinite) => false)
  {
  }

  // ---- cancellation --------------------------------------------------------------------------

  /** The deadline is set and has come. */
  predicate Late(cfg: Config, now: int) {
    match cfg.limits.deadlineAt case None => false case Some(at) => at <= now
  }

  /** The flag keeps its first time. */
  function FirstCancel(s: State, now: int): Option<int> {
    match s.cancelledAt case None => Some(now) case Some(at) => Some(at)
  }

  /** A cancellation sets the flag and nothing else; a check sets it only past the deadline, and then throws. */
  lemma {:induction false} CancelRules(cfg: Config, s: State, now: int)
    requires now >= s.clock
    ensures Apply(cfg, s, CancelEvent(now)).0 == s.(clock := now, cancelledAt := FirstCancel(s, now))
    ensures Apply(cfg, s, CheckEvent(now)) ==
            if s.cancelledAt.Some? || Late(cfg, now)
            then (s.(clock := now, cancelledAt := FirstCancel(s, now)), Raises(Dispatch(Cancelled)))
            else (s.(clock := now), Done)
  {
  }

  // ---- turns ---------------------------------------------------------------------------------

  /** Of `turns` in the pool, `depth` child allowances stay back, but at least one turn is left to take. */
  function LeftToTake(cfg: Config, turns: int, depth: nat): int {
    if turns < 1 then turns
    else if depth * cfg.limits.maxTurnsPerChild <= turns - 1 then turns - depth * cfg.limits.maxTurnsPerChild
    else 1
  }

  /** A root step takes all of that into a new account of its own, or throws on an empty pool. */
  lemma {:induction false} ReserveRules(cfg: Config, s: State, depth: nat)
    ensures var r := Apply(cfg, s, ReserveEvent(depth));
            if s.available < 1 then r == (s, Raises(Dispatch(BudgetExhausted)))
            else
              var taken := LeftToTake(cfg, s.available, depth);
              && r.1 == Reserved(|s.reservations|)
              && r.0 == s.(available := s.available - taken,
                           reservations := s.reservations + [Reservation(taken, true, None)])
  {
  }

  /**
   * A charge on an account: a malformed report changes nothing and throws; an excessive one is counted in full,
   * empties the account and throws; any other is counted and drawn.
   */
  lemma {:induction false} ChargeRules(cfg: Config, s: State, account: nat, telemetry: Telemetry)
    requires account < |s.reservations| && s.reservations[account].open && s.reservations[account].remaining >= 0
    ensures var r, held := Apply(cfg, s, ChargeEvent(Some(account), telemetry)), s.reservations[account].remaining;
            if !telemetry.wellFormed || telemetry.turns < 0 then r == (s, Raises(Dispatch(OtherPrefix)))
            else if telemetry.turns > held then
              && r.1 == Raises(Dispatch(BudgetExhausted))
              && r.0 == s.(observed := s.observed + telemetry.turns, charged := s.charged + held,
                           reservations := s.reservations[account := s.reservations[account].(remaining := 0)])
            else
              && r.1 == Done
              && r.0 == s.(observed := s.observed + telemetry.turns, charged := s.charged + telemetry.turns,
                           reservations := s.reservations[account :=
                               s.reservations[account].(remaining := held - telemetry.turns)])
  {
  }

  // ---- invocations ---------------------------------------------------------------------------

  /** The turns an admission grants: what is left to take, at most one child allowance. */
  function Grant(cfg: Config, s: State, depth: nat): int {
    var left := LeftToTake(cfg, s.available, depth);
    if left <= cfg.limits.maxTurnsPerChild then left else cfg.limits.maxTurnsPerChild
  }

  /** The calls a step of a component may look up. */
  function LookedUp(cfg: Config, e: Event): map<string, string>
    requires e.InvokeEvent?
  {
    AliasesFor(cfg.dependencies, e.frame.component, e.step)
  }

  /** The checks before admission, in their order. */
  datatype Verdict = IsCancelled | UnknownAlias | BadRequest | OverLimit | Reentered | OutOfTurns | Passed

  function VerdictOn(cfg: Config, s: State, e: Event): Verdict
    requires e.InvokeEvent?
  {
    if s.cancelledAt.Some? || Late(cfg, e.now) then IsCancelled
    else if e.alias !in LookedUp(cfg, e) then UnknownAlias
    else if !e.requestOk then BadRequest
    else if e.frame.depth >= cfg.limits.maxDepth || s.attempts >= cfg.limits.maxAttempts then OverLimit
    else if LookedUp(cfg, e)[e.alias] in e.frame.ancestry then Reentered
    else if Grant(cfg, s, e.depth) < 1 then OutOfTurns
    else Passed
  }

  /** What each verdict does: only a passed invocation takes anything; three verdicts leave the run cancelled. */
  lemma {:induction false} InvocationRules(cfg: Config, s: State, e: Event)
    requires e.InvokeEvent? && Enabled(cfg, s, e)
    ensures var r := Apply(cfg, s, e);
            match VerdictOn(cfg, s, e)
            case IsCancelled =>
              r == (s.(clock := e.now, cancelledAt := FirstCancel(s, e.now)), Raises(Dispatch(Cancelled)))
            case UnknownAlias | Reentered =>
              r == (s.(clock := e.now, cancelledAt := Some(e.now)), Raises(Dispatch(UnauthorizedCall)))
            case BadRequest => r == (s.(clock := e.now), Delivered(ResultError(InvalidRequest)))
            case OverLimit | OutOfTurns => r == (s.(clock := e.now), Delivered(ResultError(BudgetCode)))
            case Passed => Admits(cfg, s, e, r.0, r.1)
  {
  }

  /** What the caller hears of each verdict. */
  predicate ReplyTo(verdict: Verdict, reply: Reply) {
    match verdict
    case IsCancelled => reply == Raises(Dispatch(Cancelled))
    case UnknownAlias | Reentered => reply == Raises(Dispatch(UnauthorizedCall))
    case BadRequest => reply == Delivered(ResultError(InvalidRequest))
    case OverLimit | OutOfTurns => reply == Delivered(ResultError(BudgetCode))
    case Passed => reply.Admitted?
  }

  lemma {:induction false} VerdictIsReplied(cfg: Config, s: State, e: Event)
    requires e.InvokeEvent? && Enabled(cfg, s, e)
    ensures ReplyTo(VerdictOn(cfg, s, e), Apply(cfg, s, e).1)
  {
    InvocationRules(cfg, s, e);
  }

  /** What the calling step is handed: an error, or the value of a call, discarded if the run is cancelled. */
  predicate CallAnswer(verdict: Verdict, r: Result<CallResult, Thrown>, cancelled: bool) {
    match verdict
    case IsCancelled => r == Err(Dispatch(Cancelled))
    case UnknownAlias | Reentered => r == Err(Dispatch(UnauthorizedCall))
    case BadRequest => r == Ok(ResultError(InvalidRequest))
    case OverLimit | OutOfTurns => r == Ok(ResultError(BudgetCode))
    case Passed => r.Ok? && (cancelled ==> r.value == ResultError(CancelledCode))
  }

  /** The trace entry of an admitted invocation. */
  function EntryFor(cfg: Config, s: State, e: Event): CallEntry
    requires e.InvokeEvent? && e.alias in LookedUp(cfg, e)
  {
    CallEntry(e.frame.callId, e.frame.component, e.step, e.alias, LookedUp(cfg, e)[e.alias], s.attempts + 1,
              e.frame.depth + 1, e.now)
  }

  /** An admission: one attempt, the granted turns, a trace entry that starts as an error, and the callee's frame. */
  predicate Admits(cfg: Config, s: State, e: Event, s': State, reply: Reply)
    requires e.InvokeEvent? && e.alias in LookedUp(cfg, e)
  {
    var callee, turns := LookedUp(cfg, e)[e.alias], Grant(cfg, s, e.depth);
    && s' == s.(clock := e.now, attempts := s.attempts + 1, available := s.available - turns,
                reservations := s.reservations + [Reservation(turns, true, Some(|s.calls|))],
                calls := s.calls + [EntryFor(cfg, s, e)],
                ends := s.ends + [CallEnd(StatusError, e.now)])
    && reply == Admitted(Frame(callee, Some(|s.calls|), e.frame.ancestry + [callee], e.frame.depth + 1,
        Some(|s.reservations|)))
  }

  /**
   * A malformed request is never admitted and takes nothing. While the run goes on and the alias is looked up, its
   * reply is the invalid-request error, and it does not cancel the run.
   */
  lemma {:induction false} MalformedRequestTakesNothing(cfg: Config, s: State, e: Event)
    requires e.InvokeEvent? && Enabled(cfg, s, e) && !e.requestOk
    ensures var r := Apply(cfg, s, e);
            && !r.1.Admitted?
            && r.0.calls == s.calls && r.0.ends == s.ends && r.0.attempts == s.attempts
            && r.0.available == s.available && r.0.reservations == s.reservations
            && (s.cancelledAt.None? && !Late(cfg, e.now)
                && e.alias in AliasesFor(cfg.dependencies, e.frame.component, e.step) ==>
                  r.1 == Delivered(ResultError(InvalidRequest)) && r.0.cancelledAt.None?)
  {
    InvocationRules(cfg, s, e);
  }

  // ---- completions ---------------------------------------------------------------------------

  /** The value a child's ending calls for. */
  predicate ValueOf(outcome: ChildOutcome, result: CallResult) {
    match outcome
    case ChildReturned(given) => result == given
    case ChildThrew(Foreign) => result == ResultError(TransientTransport)
    case ChildThrew(Dispatch(prefix)) =>
      result == ResultError(if prefix == BudgetExhausted then BudgetCode else CalleeFailed)
    case ChildThrew(StepError(prefix, retryable)) =>
      result == ResultError(if prefix == BudgetExhausted then BudgetCode
          else if retryable then TransientTransport else CalleeFailed)
  }

  predicate EndedAs(result: CallResult, status: CallStatus) {
    match status
    case StatusOk => result.ResultOk?
    case StatusRefused => result.ResultRefused?
    case StatusError => result.ResultError?
    case LateDiscarded => false
  }

  /**
   * A completion refunds the account and writes the call's ending: discarded as late if the run was cancelled by
   * then, and otherwise the ending of the value the child's outcome calls for.
   */
  lemma {:induction false} FinishRules(cfg: Config, s: State, now: int, call: nat, r: nat, outcome: ChildOutcome)
    requires Enabled(cfg, s, FinishEvent(now, call, r, outcome))
    ensures var done := Apply(cfg, s, FinishEvent(now, call, r, outcome));
            && done.1.Delivered? && |done.0.ends| == |s.ends| && done.0.ends[call].completedAt == now
            && done.0 == s.(clock := now, available := s.available + s.reservations[r].remaining,
                            reservations := s.reservations[r := s.reservations[r].(open := false)],
                            ends := s.ends[call := done.0.ends[call]])
            && (if s.cancelledAt.Some? && s.cancelledAt.value <= now
                then done.1 == Delivered(ResultError(CancelledCode)) && done.0.ends[call].status == LateDiscarded
                else ValueOf(outcome, done.1.result) && EndedAs(done.1.result, done.0.ends[call].status))
  {
  }

  /** A root step's account goes back to the pool. */
  lemma {:induction false} ReleaseRules(cfg: Config, s: State, r: nat)
    requires Enabled(cfg, s, ReleaseEvent(r))
    ensures Apply(cfg, s, ReleaseEvent(r)).0 ==
            s.(available := s.available + s.reservations[r].remaining,
               reservations := s.reservations[r := s.reservations[r].(open := false)])
  {
  }
}
