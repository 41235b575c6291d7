/**
 * The shared state of one root run and its atomic transitions
 * (dispatcher/claude-agent-sdk/src/componentInvocation.ts, `ComponentInvocationRuntime`): the turn
 * pool and its reservations, the attempt counter, the cancellation flag and the call trace.
 * JavaScript runs the code between two awaits without interruption, so each such stretch is one
 * event here, and a run is any sequence of events in any order the environment chooses.
 */
module Ledger {
  import opened AliasTable
  import opened Prelude
  import opened Declarations
  import opened StepExecution

  // ---- limits --------------------------------------------------------------------------------

  datatype Limits = Limits(
    maxDepth: nat, maxAttempts: nat, maxRequestBytes: nat, maxResultBytes: nat, maxTurns: nat, maxTurnsPerChild: nat,
    deadlineAt: Option<int>)

  /** A number a host may pass where an integer is wanted. */
  datatype Numeric = Integer(value: int) | NotAnInteger

  datatype Instant = Finite(at: int) | NotFinite

  datatype LimitsInput = LimitsInput(
    maxDepth: Option<Numeric>, maxAttempts: Option<Numeric>, maxRequestBytes: Option<Numeric>,
    maxResultBytes: Option<Numeric>, maxTurns: Option<Numeric>, maxTurnsPerChild: Option<Numeric>,
    maxCostUsd: Option<real>, deadlineAt: Option<Instant>)

  const DEFAULTS := Limits(8, 32, 65536, 1048576, 40, 12, None)

  /** The supplied number when it is an integer from 1 to the default, and the default when none is supplied. */
  function PositiveInteger(value: Option<Numeric>, fallback: nat): (r: Option<nat>)
    ensures r.Some? && value.Some? ==> value.value == Integer(r.value)
    ensures r.Some? ==> r.value <= fallback && (fallback >= 1 ==> r.value >= 1)
    ensures r.None? ==> value.Some? && (value.value.NotAnInteger? || !(1 <= value.value.value <= fallback))
  {
    match value
    case None => Some(fallback)
    case Some(Integer(v)) => if 1 <= v <= fallback then Some(v) else None
    case Some(NotAnInteger) => None
  }

  predicate LimitsOk(limits: Limits) {
    1 <= limits.maxDepth && 1 <= limits.maxAttempts && 1 <= limits.maxTurns && 1 <= limits.maxTurnsPerChild
  }

  predicate MayBe(value: Option<Numeric>, fallback: nat) {
    value.Some? ==> value.value.Integer? && 1 <= value.value.value <= fallback
  }

  /**
   * A host may only lower the defaults, and may not ask for a dollar cap: the input is accepted exactly when
   * every supplied limit is an integer from 1 to its default and a supplied deadline is finite.
   */
  function ResolveLimits(input: LimitsInput): (r: Option<Limits>)
    ensures r.Some? <==>
              && input.maxCostUsd.None? && (input.deadlineAt.Some? ==> input.deadlineAt.value.Finite?)
              && MayBe(input.maxDepth, DEFAULTS.maxDepth) && MayBe(input.maxAttempts, DEFAULTS.maxAttempts)
              && MayBe(input.maxRequestBytes, DEFAULTS.maxRequestBytes)
              && MayBe(input.maxResultBytes, DEFAULTS.maxResultBytes)
              && MayBe(input.maxTurns, DEFAULTS.maxTurns) && MayBe(input.maxTurnsPerChild, DEFAULTS.maxTurnsPerChild)
    ensures r.Some? ==>
              && LimitsOk(r.value) && r.value.maxRequestBytes >= 1 && r.value.maxResultBytes >= 1
              && r.value.maxDepth <= DEFAULTS.maxDepth && r.value.maxAttempts <= DEFAULTS.maxAttempts
              && r.value.maxTurns <= DEFAULTS.maxTurns && r.value.maxTurnsPerChild <= DEFAULTS.maxTurnsPerChild
    ensures r.Some? && input.maxTurns.Some? ==> input.maxTurns.value == Integer(r.value.maxTurns)
    ensures r.Some? && input.maxDepth.Some? ==> input.maxDepth.value == Integer(r.value.maxDepth)
    ensures r.Some? && input.maxAttempts.Some? ==> input.maxAttempts.value == Integer(r.value.maxAttempts)
    ensures r.Some? && input.maxTurnsPerChild.Some? ==>
              input.maxTurnsPerChild.value == Integer(r.value.maxTurnsPerChild)
  {
    var depth := PositiveInteger(input.maxDepth, DEFAULTS.maxDepth);
    var attempts := PositiveInteger(input.maxAttempts, DEFAULTS.maxAttempts);
    var requestBytes := PositiveInteger(input.maxRequestBytes, DEFAULTS.maxRequestBytes);
    var resultBytes := PositiveInteger(input.maxResultBytes, DEFAULTS.maxResultBytes);
    var turns := PositiveInteger(input.maxTurns, DEFAULTS.maxTurns);
    var perChild := PositiveInteger(input.maxTurnsPerChild, DEFAULTS.maxTurnsPerChild);
    if input.maxCostUsd.Some? || (input.deadlineAt.Some? && input.deadlineAt.value.NotFinite?) then None
    else if depth.None? || attempts.None? || requestBytes.None? || resultBytes.None? then None
    else if turns.None? || perChild.None? then None
    else
      var deadline := match input.deadlineAt case Some(Finite(at)) => Some(at) case _ => None;
      Some(Limits(depth.value, attempts.value, requestBytes.value, resultBytes.value, turns.value, perChild.value,
          deadline))
  }

  // ---- state ---------------------------------------------------------------------------------

  /**
   * The prepared run: its limits, the closure's dependencies, the steps of the prepared components by component id
   * and step name, and the root component.
   */
  datatype Config = Config(
    limits: Limits, dependencies: seq<Dependency>, steps: set<(string, string)>, root: string)

  /** `owner` is the call a child reservation belongs to; a root step's reservation has none. */
  datatype Reservation = Reservation(remaining: int, open: bool, owner: Option<nat>)

  /** What admission fixes in a trace entry. Call ids are positions in the trace. */
  datatype CallEntry = CallEntry(
    parent: Option<nat>, caller: string, step: string, alias: string, callee: string,
    attempt: nat, depth: nat, admittedAt: int)

  datatype CallStatus = StatusOk | StatusRefused | StatusError | LateDiscarded

  /** What completion fills in. */
  datatype CallEnd = CallEnd(status: CallStatus, completedAt: int)

  /** `charged` is history: every charge, capped at what its account held. */
  datatype State = State(
    available: int,
    observed: nat,
    attempts: nat,
    cancelledAt: Option<int>,
    calls: seq<CallEntry>,
    ends: seq<CallEnd>,
    reservations: seq<Reservation>,
    clock: int,
    charged: nat)

  datatype Frame = Frame(component: string, callId: Option<nat>, ancestry: seq<string>, depth: nat,
      reservation: Option<nat>)

  datatype Telemetry = Telemetry(turns: int, wellFormed: bool)

  datatype ErrorCode = InvalidRequest | InvalidResult | BudgetCode | CancelledCode | TransientTransport | CalleeFailed

  /** The value an invocation hands back to the calling step. */
  datatype CallResult = ResultOk | ResultRefused | ResultError(code: ErrorCode)

  datatype ChildOutcome = ChildReturned(result: CallResult) | ChildThrew(error: Thrown)

  datatype Reply =
    | Done
    | Raises(error: Thrown)
    | Reserved(reservation: nat)
    | Admitted(frame: Frame)
    | Delivered(result: CallResult)

  function Initial(cfg: Config, clock: int): State {
    State(cfg.limits.maxTurns, 0, 0, None, [], [], [], clock, 0)
  }

  // ---- the transitions -----------------------------------------------------------------------

  function CancelAt(s: State, now: int): State {
    if s.cancelledAt.Some? then s else s.(cancelledAt := Some(now))
  }

  predicate DeadlinePassed(cfg: Config, now: int) {
    cfg.limits.deadlineAt.Some? && now >= cfg.limits.deadlineAt.value
  }

  /** `throwIfCancelled`. */
  function CheckCancelled(cfg: Config, s: State, now: int): (State, Reply) {
    if s.cancelledAt.Some? then (s, Raises(Dispatch(Cancelled)))
    else if DeadlinePassed(cfg, now) then (CancelAt(s, now), Raises(Dispatch(Cancelled)))
    else (s, Done)
  }

  /** Turns held back so that a chain of `depth` further descendants can still be admitted. */
  function HeldForDescendants(cfg: Config, depth: nat, available: int): int {
    Min(depth * cfg.limits.maxTurnsPerChild, Max(0, available - 1))
  }

  function ReserveRootStep(cfg: Config, s: State, depth: nat): (State, Reply) {
    if s.available < 1 then (s, Raises(Dispatch(BudgetExhausted)))
    else
      var reserved := s.available - HeldForDescendants(cfg, depth, s.available);
      (s.(available := s.available - reserved, reservations := s.reservations + [Reservation(reserved, true, None)]),
       Reserved(|s.reservations|))
  }

  predicate Open(s: State, account: Option<nat>) {
    account.Some? ==> account.value < |s.reservations| && s.reservations[account.value].open
  }

  /** `frame.reservation?.remainingTurns ?? this.availableTurns`. */
  function AvailableFor(s: State, account: Option<nat>): int
    requires Open(s, account)
  {
    if account.Some? then s.reservations[account.value].remaining else s.available
  }

  function WithAvailable(s: State, account: Option<nat>, turns: int): State
    requires Open(s, account)
  {
    if account.Some?
    then s.(reservations := s.reservations[account.value := s.reservations[account.value].(remaining := turns)])
    else s.(available := turns)
  }

  function Charge(s: State, account: Option<nat>, telemetry: Telemetry): (State, Reply)
    requires Open(s, account)
  {
    if !telemetry.wellFormed || telemetry.turns < 0 then (s, Raises(Dispatch(OtherPrefix)))
    else
      var held := AvailableFor(s, account);
      var seen := s.(observed := s.observed + telemetry.turns,
          charged := s.charged + Max(0, Min(telemetry.turns, held)));
      if telemetry.turns > held then (WithAvailable(seen, account, 0), Raises(Dispatch(BudgetExhausted)))
      else (WithAvailable(seen, account, held - telemetry.turns), Done)
  }

  /** Turns `invoke` would reserve for a callee whose descendants reach `depth` further. */
  function Allowance(cfg: Config, s: State, depth: nat): int {
    Min(s.available - HeldForDescendants(cfg, depth, s.available), cfg.limits.maxTurnsPerChild)
  }

  function ChildFrame(frame: Frame, s: State, callee: string): Frame {
    Frame(callee, Some(|s.calls|), frame.ancestry + [callee], frame.depth + 1, Some(|s.reservations|))
  }

  /** The checks `invoke` makes before it admits a call, in order; `None` when all of them pass. */
  function Refusal(cfg: Config, s: State, now: int, frame: Frame, step: string, alias: string, requestOk: bool,
                   depth: nat)
    : Option<(State, Reply)>
  {
    var checked := CheckCancelled(cfg, s, now);
    var aliases := AliasesFor(cfg.dependencies, frame.component, step);
    if checked.1.Raises? then Some(checked)
    else if alias !in aliases then Some((CancelAt(s, now), Raises(Dispatch(UnauthorizedCall))))
    else if !requestOk then Some((s, Delivered(ResultError(InvalidRequest))))
    else if frame.depth + 1 > cfg.limits.maxDepth || s.attempts >= cfg.limits.maxAttempts
    then Some((s, Delivered(ResultError(BudgetCode))))
    else if aliases[alias] in frame.ancestry then Some((CancelAt(s, now), Raises(Dispatch(UnauthorizedCall))))
    else if Allowance(cfg, s, depth) < 1 then Some((s, Delivered(ResultError(BudgetCode))))
    else None
  }

  /** The admission: one attempt, the allowance out of the pool, a trace entry and the child's frame. */
  function Admission(s: State, now: int, frame: Frame, step: string, alias: string, callee: string, turns: int)
    : (State, Reply)
  {
    (s.(attempts := s.attempts + 1,
        available := s.available - turns,
        reservations := s.reservations + [Reservation(turns, true, Some(|s.calls|))],
        calls := s.calls + [CallEntry(frame.callId, frame.component, step, alias, callee, s.attempts + 1,
            frame.depth + 1, now)],
        ends := s.ends + [CallEnd(StatusError, now)]),
     Admitted(ChildFrame(frame, s, callee)))
  }

  /** `invoke` up to the child's execution. `depth` is the callee's descendant depth. */
  function Invoke(cfg: Config, s: State, now: int, frame: Frame, step: string, alias: string, requestOk: bool,
                  depth: nat)
    : (State, Reply)
  {
    match Refusal(cfg, s, now, frame, step, alias, requestOk, depth)
    case Some(refused) => refused
    case None =>
      Admission(s, now, frame, step, alias, AliasesFor(cfg.dependencies, frame.component, step)[alias],
          Allowance(cfg, s, depth))
  }

  function ResultFor(outcome: ChildOutcome): CallResult {
    match outcome
    case ChildReturned(result) => result
    case ChildThrew(error) =>
      if !error.Foreign? && error.prefix.BudgetExhausted? then ResultError(BudgetCode)
      else if error.StepError? && error.retryable then ResultError(TransientTransport)
      else if !error.Foreign? then ResultError(CalleeFailed)
      else ResultError(TransientTransport)
  }

  function StatusFor(result: CallResult): CallStatus {
    match result case ResultOk => StatusOk case ResultRefused => StatusRefused case ResultError(_) => StatusError
  }

  /** Closes a reservation and returns what is left of it to the pool: both `finally` blocks. */
  function Refund(s: State, r: nat): State
    requires r < |s.reservations|
  {
    s.(available := s.available + s.reservations[r].remaining,
       reservations := s.reservations[r := s.reservations[r].(open := false)])
  }

  /** `invoke` after the child's execution, its `finally` included. */
  function Finish(s: State, now: int, call: nat, r: nat, outcome: ChildOutcome): (State, Reply)
    requires call < |s.ends| && r < |s.reservations|
  {
    var late := s.cancelledAt.Some? && now >= s.cancelledAt.value;
    var result := if late then ResultError(CancelledCode) else ResultFor(outcome);
    var status := if late then LateDiscarded else StatusFor(result);
    (Refund(s, r).(ends := s.ends[call := CallEnd(status, now)]), Delivered(result))
  }

  // ---- events and runs -----------------------------------------------------------------------

  datatype Event =
    | CancelEvent(now: int)
    | CheckEvent(now: int)
    | ReserveEvent(depth: nat)
    | ChargeEvent(account: Option<nat>, telemetry: Telemetry)
    | InvokeEvent(now: int, frame: Frame, step: string, alias: string, requestOk: bool, depth: nat)
    | FinishEvent(now: int, call: nat, reservation: nat, outcome: ChildOutcome)
    | ReleaseEvent(reservation: nat)

  /** The component ids from the root down to call `c`. */
  function Ancestry(root: string, calls: seq<CallEntry>, c: nat): seq<string>
    requires c < |calls|
  {
    match calls[c].parent
    case None => [root, calls[c].callee]
    case Some(p) => if p < c then Ancestry(root, calls, p) + [calls[c].callee] else [calls[c].callee]
  }

  /** Frames are created only for the root and for admitted calls, and never change. */
  predicate FrameOk(cfg: Config, s: State, frame: Frame) {
    match frame.callId
    case None => frame.component == cfg.root && frame.ancestry == [cfg.root] && frame.depth == 0
    case Some(c) =>
      && c < |s.calls|
      && frame.component == s.calls[c].callee && frame.depth == s.calls[c].depth
      && frame.ancestry == Ancestry(cfg.root, s.calls, c)
  }

  predicate Enabled(cfg: Config, s: State, e: Event) {
    match e
    case CancelEvent(now) => now >= s.clock
    case CheckEvent(now) => now >= s.clock
    case ReserveEvent(_) => true
    case ChargeEvent(account, _) => Open(s, account)
    case InvokeEvent(now, frame, step, _, _, _) =>
      now >= s.clock && FrameOk(cfg, s, frame) && (frame.component, step) in cfg.steps
    case FinishEvent(now, call, r, _) =>
      now >= s.clock && call < |s.ends| && r < |s.reservations| && s.reservations[r].open
          && s.reservations[r].owner == Some(call)
    case ReleaseEvent(r) => r < |s.reservations| && s.reservations[r].open && s.reservations[r].owner.None?
  }

  function At(s: State, now: int): State { s.(clock := now) }

  /** One event; an event that cannot happen changes nothing. */
  function Apply(cfg: Config, s: State, e: Event): (State, Reply) {
    if !Enabled(cfg, s, e) then (s, Done)
    else
      match e
      case CancelEvent(now) => (CancelAt(At(s, now), now), Done)
      case CheckEvent(now) => CheckCancelled(cfg, At(s, now), now)
      case ReserveEvent(depth) => ReserveRootStep(cfg, s, depth)
      case ChargeEvent(account, telemetry) => Charge(s, account, telemetry)
      case InvokeEvent(now, frame, step, alias, requestOk, depth) =>
        Invoke(cfg, At(s, now), now, frame, step, alias, requestOk, depth)
      case FinishEvent(now, call, r, outcome) => Finish(At(s, now), now, call, r, outcome)
      case ReleaseEvent(r) => (Refund(s, r), Done)
  }

  /** The state after a sequence of events. */
  function After(cfg: Config, start: State, events: seq<Event>): State {
    if events == [] then start else Apply(cfg, After(cfg, start, events[..|events| - 1]), events[|events| - 1]).0
  }
}
