/**
 * `ComponentInvocationRuntime` as the object it is
 * (dispatcher/claude-agent-sdk/src/componentInvocation.ts). Its fields are exactly the ledger's
 * state; each stretch of code between awaits appends one event to a ghost history, so every state
 * the object can be in is a state of the ledger's transition system. The model step, `runStep`, is
 * an arbitrary environment: it may cancel, invoke any aliases any number of times, and then return,
 * fail with telemetry or throw whatever it likes.
 */
module InvocationRuntime {
  import opened AliasTable
  import opened Prelude
  import opened Graphs
  import opened JsObject
  import opened Profile
  import opened ClosureProperties
  import opened Conditional
  import opened StepExecution
  import opened StepReports
  import opened StepTurns
  import opened Ledger
  import opened LedgerProperties
  import opened LedgerRules
  import opened ReservationChain

  /** The turns a report's telemetry asks to be charged for; malformed telemetry asks for nothing. */
  function ReportedTurns(report: StepReport): nat {
    match report
    case Returned(_, telemetry) => TelemetryTurns(telemetry)
    case FailedStep(_, _, _, telemetry) => TelemetryTurns(telemetry)
    case Crashed(_, _) => 0
  }

  function TelemetryTurns(telemetry: Telemetry): nat {
    if telemetry.wellFormed && telemetry.turns >= 0 then telemetry.turns else 0
  }

  /** The steps of the prepared components. */
  function StepsOf(components: map<string, seq<LlmStep>>): set<(string, string)> {
    set id, i | id in components && 0 <= i < |components[id]| :: (id, components[id][i].name)
  }

  /** At most this many executions of one step in one frame. */
  const RUNS_PER_STEP: nat := if DEFAULT_MAX_REPAIR_ATTEMPTS > 1 then DEFAULT_MAX_REPAIR_ATTEMPTS else 1

  /** At most this many executions of steps in a root run: a frame for the root and one for each attempt. */
  function MostRuns(limits: Limits, mostSteps: nat): nat { (1 + limits.maxAttempts) * mostSteps }

  /** A component's run fails as cancelled, or with the error its steps' answers end in. */
  predicate FailsAs(steps: seq<LlmStep>, parse: Parser, answers: seq<Answer>, error: Thrown, cancelled: bool)
    requires |answers| <= |steps|
  {
    (cancelled && error == Dispatch(Cancelled)) || RunSteps(steps, parse, answers) == Err(error)
  }

  /** A non-empty walk leads from `a` to `b`. */
  ghost predicate Precedes(E: set<(string, string)>, a: string, b: string) {
    exists c :: (a, c) in E && Reaches(E, c, b)
  }

  lemma {:induction false} PrecedesAlongEdge(E: set<(string, string)>, a: string, b: string, c: string)
    requires (b, c) in E && (a == b || Precedes(E, a, b))
    ensures Precedes(E, a, c)
  {
    if a == b {
      ReachesSelf(E, c);
    } else {
      var d :| (a, d) in E && Reaches(E, d, b);
      EdgeReaches(E, b, c);
      ReachesTransitive(E, d, b, c);
    }
  }

  lemma {:induction false} NothingPrecedesItself(E: set<(string, string)>, a: string)
    requires Precedes(E, a, a)
    ensures !Acyclic(E)
  {
    var c :| (a, c) in E && Reaches(E, c, a);
    BackEdgeCycle(E, c, a);
  }

  /** Where things stood when a frame began: the state, the model steps run, the turns owed, and the reports. */
  datatype FrameStart = FrameStart(state: State, runs: nat, owed: int, log: seq<Reported>)

  class ComponentInvocationRuntime {
    const cfg: Config
    const components: map<string, seq<LlmStep>>
    const parse: Parser
    const edgeByStep: Table
    var descendantDepth: map<string, nat>
    var availableTurns: int
    var totalTurnsObserved: nat
    var attempts: nat
    var cancelledAt: Option<int>
    var componentCalls: seq<CallEntry>
    var callEnds: seq<CallEnd>
    var reservations: seq<Reservation>
    var clock: int
    ghost var charged: nat
    ghost const startClock: int
    ghost var history: seq<Event>
    /** How many times `runStep` was called. */
    ghost var stepRuns: nat
    /** What every `runStep` so far has reported, and to which frame. */
    ghost var reports: seq<Reported>
    /** The turns every `runStep` so far has reported. */
    ghost var reported: nat
    ghost const maxSteps: nat
    /** Whether the environment promises to report at most the turns it was handed. */
    const honest: bool

    ghost function Snapshot(): State
      reads this
    {
      State(availableTurns, totalTurnsObserved, attempts, cancelledAt, componentCalls, callEnds, reservations, clock,
          charged)
    }

    /** The run is cancelled, or the deadline had passed when the clock was last read. */
    ghost predicate Stopped()
      reads this
    {
      cancelledAt.Some? || Late(cfg, clock)
    }

    /** Turns reported and not yet counted: zero between steps, however they end. */
    ghost function Owed(): int
      reads this
    {
      reported - totalTurnsObserved
    }

    ghost function Calls(): set<(string, string)> {
      DependencyEdges(cfg.dependencies)
    }

    /** The memo is exact: it records longest-walk lengths and nothing else. */
    ghost predicate DepthsExact()
      reads this
    {
      forall id :: id in descendantDepth ==> IsLongest(Calls(), id, descendantDepth[id])
    }

    ghost predicate Registered() {
      && LimitsOk(cfg.limits) && cfg.root in components && cfg.steps == StepsOf(components)
      && Indexed(edgeByStep, cfg.dependencies)
      && (forall d :: d in cfg.dependencies ==> d.component in components)
      && (forall id :: id in components ==> |components[id]| <= maxSteps)
    }

    /** The object's state is the ledger's state after the recorded events. */
    ghost predicate Valid()
      reads this
    {
      && Registered()
      && Snapshot() == After(cfg, Initial(cfg, startClock), history)
      && (honest ==> Honest(cfg, Initial(cfg, startClock), history))
      && (Acyclic(Calls()) ==> DepthsExact())
    }

    /** One more event happened, and nothing else. */
    twostate predicate Stepped(e: Event)
      reads this
    {
      && Valid() && history == old(history) + [e]
      && Snapshot() == Apply(cfg, old(Snapshot()), e).0
      && descendantDepth == old(descendantDepth) && stepRuns == old(stepRuns) && reports == old(reports)
      && reported == old(reported)
    }

    lemma {:induction false} RunExtends(events: seq<Event>, e: Event)
      ensures After(cfg, Initial(cfg, startClock), events + [e]) ==
          Apply(cfg, After(cfg, Initial(cfg, startClock), events), e).0
      ensures (Honest(cfg, Initial(cfg, startClock), events)
               && HonestCharge(cfg, After(cfg, Initial(cfg, startClock), events), e)) ==>
                Honest(cfg, Initial(cfg, startClock), events + [e])
    {
      assert (events + [e])[..|events|] == events;
    }

    /** Every valid object is balanced and has a trace of looked-up calls, authorised if no alias key clashes. */
    lemma {:induction false} ValidState()
      requires Valid()
      ensures Balanced(cfg, Snapshot()) && TraceShaped(cfg, Snapshot()) && ClockOk(Snapshot())
      ensures KeysApart(cfg) ==> TraceOk(cfg, Snapshot())
    {
      TurnsConserved(cfg, startClock, history);
      TraceIsAuthorisedForest(cfg, startClock, history);
      ClockNeverAhead(cfg, startClock, history);
    }

    // ---- atomic stretches ----------------------------------------------------------------------

    /** `Date.now`: never earlier than the last reading. */
    method Now() returns (now: int)
      ensures now >= clock
    {
      var elapsed: int := *;
      now := clock + Max(0, elapsed);
    }

    method Cancel() returns (ghost now: int)
      requires Valid()
      modifies this
      ensures now >= old(clock) && Stepped(CancelEvent(now))
    {
      var read := Now();
      now := read;
      RunExtends(history, CancelEvent(now));
      clock := read;
      if cancelledAt.None? { cancelledAt := Some(read); }
      history := history + [CancelEvent(now)];
    }

    method ThrowIfCancelled() returns (thrown: Option<Thrown>, ghost now: int)
      requires Valid()
      modifies this
      ensures now >= old(clock) && Stepped(CheckEvent(now))
      ensures thrown.Some? <==> Apply(cfg, old(Snapshot()), CheckEvent(now)).1.Raises?
      ensures thrown.Some? ==> thrown.value == Dispatch(Cancelled) && cancelledAt.Some?
      ensures thrown.None? ==> !Stopped()
    {
      var read := Now();
      now := read;
      RunExtends(history, CheckEvent(now));
      clock := read;
      thrown := None;
      if cancelledAt.Some? {
        thrown := Some(Dispatch(Cancelled));
      } else if cfg.limits.deadlineAt.Some? && read >= cfg.limits.deadlineAt.value {
        cancelledAt := Some(read);
        thrown := Some(Dispatch(Cancelled));
      }
      history := history + [CheckEvent(now)];
    }

    method ChargeTurns(account: nat, telemetry: Telemetry) returns (thrown: Option<Thrown>)
      requires Valid() && Open(Snapshot(), Some(account))
      requires honest && telemetry.wellFormed ==> telemetry.turns <= reservations[account].remaining
      modifies this
      ensures Stepped(ChargeEvent(Some(account), telemetry))
      ensures thrown.None? <==> Apply(cfg, old(Snapshot()), ChargeEvent(Some(account), telemetry)).1.Done?
      ensures thrown.Some? ==>
          Apply(cfg, old(Snapshot()), ChargeEvent(Some(account), telemetry)).1 == Raises(thrown.value)
    {
      ghost var e := ChargeEvent(Some(account), telemetry);
      RunExtends(history, e);
      thrown := None;
      if !telemetry.wellFormed || telemetry.turns < 0 {
        thrown := Some(Dispatch(OtherPrefix));
      } else {
        totalTurnsObserved := totalTurnsObserved + telemetry.turns;
        var held := reservations[account].remaining;
        charged := charged + Max(0, Min(telemetry.turns, held));
        if telemetry.turns > held {
          reservations := reservations[account := reservations[account].(remaining := 0)];
          thrown := Some(Dispatch(BudgetExhausted));
        } else {
          reservations := reservations[account := reservations[account].(remaining := held - telemetry.turns)];
        }
      }
      history := history + [e];
    }

    method ReserveRootStep(depth: nat) returns (r: Result<nat, Thrown>)
      requires Valid()
      modifies this
      ensures Stepped(ReserveEvent(depth))
      ensures r.Ok? ==> r.value == old(|reservations|) && |reservations| == r.value + 1
                        && Open(Snapshot(), Some(r.value)) && reservations[r.value].owner.None?
                        && reservations[..r.value] == old(reservations)
      ensures r.Err? ==> r.error == Dispatch(BudgetExhausted) && Snapshot() == old(Snapshot())
    {
      RunExtends(history, ReserveEvent(depth));
      if availableTurns < 1 {
        r := Err(Dispatch(BudgetExhausted));
      } else {
        var desired := depth * cfg.limits.maxTurnsPerChild;
        var held := Min(desired, Max(0, availableTurns - 1));
        var reserved := availableTurns - held;
        availableTurns := availableTurns - reserved;
        r := Ok(|reservations|);
        reservations := reservations + [Reservation(reserved, true, None)];
      }
      history := history + [ReserveEvent(depth)];
    }

    /** The root step's `finally`. */
    method ReleaseRootStep(r: nat)
      requires Valid() && Open(Snapshot(), Some(r)) && reservations[r].owner.None?
      modifies this
      ensures Stepped(ReleaseEvent(r))
    {
      RunExtends(history, ReleaseEvent(r));
      availableTurns := availableTurns + reservations[r].remaining;
      reservations := reservations[r := reservations[r].(open := false)];
      history := history + [ReleaseEvent(r)];
    }

    /** The aliases the constructor indexed under this caller and step. */
    function AliasesOf(caller: string, step: string): map<string, string> {
      Lookup(edgeByStep, caller, step)
    }

    function ChildAllowance(depth: nat): int
      reads this
    {
      Min(availableTurns - Min(depth * cfg.limits.maxTurnsPerChild, Max(0, availableTurns - 1)),
          cfg.limits.maxTurnsPerChild)
    }

    /** The checks of `invoke`, in order. */
    method Refuse(now: int, frame: Frame, ghost step: string, aliases: map<string, string>, alias: string,
                  requestOk: bool, depth: nat)
      returns (refused: Option<Reply>)
      requires aliases == AliasesFor(cfg.dependencies, frame.component, step)
      modifies this`cancelledAt
      ensures var r := Refusal(cfg, old(Snapshot()), now, frame, step, alias, requestOk, depth);
              && (refused.None? <==> r.None?)
              && (r.None? ==> Snapshot() == old(Snapshot()))
              && (r.Some? ==> (Snapshot(), refused.value) == r.value)
    {
      refused := None;
      if cancelledAt.Some? || (cfg.limits.deadlineAt.Some? && now >= cfg.limits.deadlineAt.value) {
        if cancelledAt.None? { cancelledAt := Some(now); }
        refused := Some(Raises(Dispatch(Cancelled)));
      } else if alias !in aliases {
        cancelledAt := Some(now);
        refused := Some(Raises(Dispatch(UnauthorizedCall)));
      } else if !requestOk {
        refused := Some(Delivered(ResultError(InvalidRequest)));
      } else if frame.depth + 1 > cfg.limits.maxDepth || attempts >= cfg.limits.maxAttempts {
        refused := Some(Delivered(ResultError(BudgetCode)));
      } else if aliases[alias] in frame.ancestry {
        cancelledAt := Some(now);
        refused := Some(Raises(Dispatch(UnauthorizedCall)));
      } else if ChildAllowance(depth) < 1 {
        refused := Some(Delivered(ResultError(BudgetCode)));
      }
    }

    /** The admission of `invoke`. */
    method AdmitChild(now: int, frame: Frame, step: string, alias: string, callee: string, turns: int)
      returns (reply: Reply)
      modifies this`attempts, this`availableTurns, this`reservations, this`componentCalls, this`callEnds
      ensures (Snapshot(), reply) == Admission(old(Snapshot()), now, frame, step, alias, callee, turns)
    {
      reply := Admitted(Frame(callee, Some(|componentCalls|), frame.ancestry + [callee], frame.depth + 1,
          Some(|reservations|)));
      attempts := attempts + 1;
      availableTurns := availableTurns - turns;
      reservations := reservations + [Reservation(turns, true, Some(|componentCalls|))];
      componentCalls := componentCalls +
          [CallEntry(frame.callId, frame.component, step, alias, callee, attempts, frame.depth + 1, now)];
      callEnds := callEnds + [CallEnd(StatusError, now)];
    }

    /** `invoke` up to the child's execution. */
    method AdmitAt(now: int, frame: Frame, step: string, aliases: map<string, string>, alias: string, requestOk: bool,
                   depth: nat)
      returns (reply: Reply)
      requires FrameOk(cfg, Snapshot(), frame) && now >= clock
      requires (frame.component, step) in cfg.steps
      requires aliases == AliasesFor(cfg.dependencies, frame.component, step)
      modifies this
      ensures (Snapshot(), reply) == Apply(cfg, old(Snapshot()), InvokeEvent(now, frame, step, alias, requestOk, depth))
      ensures history == old(history) && descendantDepth == old(descendantDepth)
      ensures stepRuns == old(stepRuns) && reports == old(reports) && reported == old(reported)
      ensures reply.Admitted? ==> alias in aliases && reply.frame.component == aliases[alias]
    {
      clock := now;
      assert Snapshot() == At(old(Snapshot()), now);
      var refused := Refuse(now, frame, step, aliases, alias, requestOk, depth);
      if refused.Some? { return refused.value; }
      reply := AdmitChild(now, frame, step, alias, aliases[alias], ChildAllowance(depth));
    }

    method CalleeDepth(aliases: map<string, string>, alias: string) returns (depth: nat)
      requires Registered() && (Acyclic(Calls()) ==> DepthsExact())
      modifies this`descendantDepth
      ensures Acyclic(Calls()) ==> DepthsExact() && (alias in aliases ==> IsLongest(Calls(), aliases[alias], depth))
    {
      depth := 0;
      if alias in aliases { depth := MaxDescendantDepth(aliases[alias], {}, DepthUniverse(aliases[alias])); }
    }

    /** Looks up the callee's exact descendant depth and admits the call, or says why not. */
    method Admit(frame: Frame, step: string, alias: string, requestOk: bool) returns (reply: Reply, ghost e: Event)
      requires Valid() && FrameOk(cfg, Snapshot(), frame)
      requires (frame.component, step) in cfg.steps
      modifies this
      ensures Valid() && history == old(history) + [e] && Snapshot() == Apply(cfg, old(Snapshot()), e).0
      ensures e.InvokeEvent? && Enabled(cfg, old(Snapshot()), e) && e.frame == frame && e.step == step
          && e.alias == alias && e.requestOk == requestOk
      ensures reply == Apply(cfg, old(Snapshot()), e).1 && stepRuns == old(stepRuns) && reports == old(reports)
          && Owed() == old(Owed())
      ensures Acyclic(Calls()) && reply.Admitted? ==> IsLongest(Calls(), reply.frame.component, e.depth)
    {
      var now := Now();
      var aliases := AliasesOf(frame.component, step);
      var depth := CalleeDepth(aliases, alias);
      e := InvokeEvent(now, frame, step, alias, requestOk, depth);
      RunExtends(history, e);
      reply := AdmitAt(now, frame, step, aliases, alias, requestOk, depth);
      history := history + [e];
    }

    /** The trace ending and the refund of a finished call. */
    method Close(call: nat, r: nat, end: CallEnd)
      requires call < |callEnds| && r < |reservations|
      modifies this`callEnds, this`availableTurns, this`reservations
      ensures Snapshot() == Refund(old(Snapshot()), r).(ends := old(callEnds)[call := end])
    {
      callEnds := callEnds[call := end];
      availableTurns := availableTurns + reservations[r].remaining;
      reservations := reservations[r := reservations[r].(open := false)];
    }

    /** `invoke` after the child's execution: the trace ending, the value delivered, the refund. */
    method Complete(call: nat, r: nat, outcome: ChildOutcome) returns (result: CallResult, ghost now: int)
      requires Valid() && call < |callEnds| && Open(Snapshot(), Some(r)) && reservations[r].owner == Some(call)
      modifies this
      ensures now >= old(clock) && Stepped(FinishEvent(now, call, r, outcome))
      ensures Apply(cfg, old(Snapshot()), FinishEvent(now, call, r, outcome)).1 == Delivered(result)
    {
      var completedAt := Now();
      now := completedAt;
      ghost var e := FinishEvent(now, call, r, outcome);
      RunExtends(history, e);
      var late := cancelledAt.Some? && completedAt >= cancelledAt.value;
      result := if late then ResultError(CancelledCode) else ResultFor(outcome);
      clock := completedAt;
      assert Snapshot() == At(old(Snapshot()), now);
      Close(call, r, CallEnd(if late then LateDiscarded else StatusFor(result), completedAt));
      assert (Snapshot(), Delivered(result)) == Finish(At(old(Snapshot()), now), now, call, r, outcome);
      history := history + [e];
    }

    // ---- descendant depth ----------------------------------------------------------------------

    ghost function DepthUniverse(id: string): set<string> {
      {id} + set d | d in cfg.dependencies :: d.component
    }

    /**
     * The memoised longest path. On an acyclic call graph the answer and every cached value are
     * exact, for any order of queries, and the `visiting` fallback is never taken.
     */
    method MaxDescendantDepth(id: string, visiting: set<string>, ghost universe: set<string>) returns (depth: nat)
      requires Registered() && (Acyclic(Calls()) ==> DepthsExact())
      requires id in universe && forall d :: d in cfg.dependencies ==> d.component in universe
      requires forall v :: v in visiting ==> Precedes(Calls(), v, id)
      modifies this`descendantDepth
      ensures Acyclic(Calls()) ==> DepthsExact() && IsLongest(Calls(), id, depth)
      decreases universe - visiting
    {
      if id in descendantDepth { return descendantDepth[id]; }
      if id in visiting {
        NothingPrecedesItself(Calls(), id);
        return cfg.limits.maxDepth;
      }
      depth := 0;
      var i := 0;
      while i < |cfg.dependencies|
        invariant 0 <= i <= |cfg.dependencies|
        invariant Acyclic(Calls()) ==> DepthsExact()
        invariant Acyclic(Calls()) ==> depth == 0 || exists b :: (id, b) in Calls() && IsLongest(Calls(), b, depth - 1)
        invariant Acyclic(Calls()) ==>
                    forall j :: 0 <= j < i && cfg.dependencies[j].caller == id ==>
                                  Within(cfg.dependencies[j].component, depth)
      {
        var dependency := cfg.dependencies[i];
        if dependency.caller == id {
          assert (id, dependency.component) in Calls();
          forall v | v in visiting + {id} ensures Precedes(Calls(), v, dependency.component) {
            PrecedesAlongEdge(Calls(), v, id, dependency.component);
          }
          var below := MaxDescendantDepth(dependency.component, visiting + {id}, universe);
          if Acyclic(Calls()) {
            assert Within(dependency.component, 1 + below);
          }
          depth := Max(depth, 1 + below);
        }
        i := i + 1;
      }
      if Acyclic(Calls()) {
        forall b | (id, b) in Calls() ensures exists k: nat :: k < depth && IsLongest(Calls(), b, k) {
          var d :| d in cfg.dependencies && (d.caller, d.component) == (id, b);
          var j :| 0 <= j < |cfg.dependencies| && cfg.dependencies[j] == d;
          assert Within(b, depth);
        }
        LongestFromSuccessors(Calls(), id, depth);
      }
      descendantDepth := descendantDepth[id := depth];
    }

    /** The longest walk from `b` is shorter than `depth`. */
    ghost predicate Within(b: string, depth: nat) {
      exists k: nat :: k < depth && IsLongest(Calls(), b, k)
    }

    /** `depth` is one more than the longest walk from any alias of the step, or zero without aliases. */
    ghost predicate IsDepthForStep(caller: string, step: string, depth: nat) {
      && (forall a :: a in AliasesOf(caller, step) ==> Within(AliasesOf(caller, step)[a], depth))
      && (depth > 0 ==> exists a ::
          a in AliasesOf(caller, step) && IsLongest(Calls(), AliasesOf(caller, step)[a], depth - 1))
    }

    /** The depth computed for a root step is the one the reservation guarantees are stated for. */
    lemma {:induction false} StepDepthAgrees(caller: string, step: string, depth: nat, depthOf: string -> nat)
      requires Registered() && IsDepthForStep(caller, step, depth) && ExactDepths(cfg, depthOf)
      ensures IsStepDepth(cfg, caller, step, depthOf, depth)
    {
      var aliases := AliasesOf(caller, step);
      assert aliases == AliasesFor(cfg.dependencies, caller, step);
      forall a | a in aliases ensures 1 + depthOf(aliases[a]) <= depth {
        var k: nat :| k < depth && IsLongest(Calls(), aliases[a], k);
        LongestUnique(Calls(), aliases[a], k, depthOf(aliases[a]));
      }
      if depth > 0 {
        var a :| a in aliases && IsLongest(Calls(), aliases[a], depth - 1);
        LongestUnique(Calls(), aliases[a], depth - 1, depthOf(aliases[a]));
      }
    }

    /** The deepest chain any alias of a root step can open. */
    method DescendantDepthForStep(caller: string, step: string) returns (depth: nat)
      requires Registered() && (Acyclic(Calls()) ==> DepthsExact())
      modifies this`descendantDepth
      ensures Acyclic(Calls()) ==> DepthsExact() && IsDepthForStep(caller, step, depth)
    {
      var aliases := AliasesOf(caller, step);
      var pending := aliases.Keys;
      depth := 0;
      while pending != {}
        invariant pending <= aliases.Keys
        invariant Acyclic(Calls()) ==> DepthsExact()
        invariant Acyclic(Calls()) ==> forall a :: a in aliases.Keys - pending ==> Within(aliases[a], depth)
        invariant Acyclic(Calls()) && depth > 0 ==>
            exists a :: a in aliases && IsLongest(Calls(), aliases[a], depth - 1)
        decreases pending
      {
        var a :| a in pending;
        var below := CalleeDepth(aliases, a);
        if Acyclic(Calls()) { assert Within(aliases[a], 1 + below); }
        depth := Max(depth, 1 + below);
        pending := pending - {a};
      }
    }

    // ---- the same stretches, as the executor sees them -----------------------------------------

    /** A checkpoint: throws the cancelled error exactly when the run is now cancelled. */
    method Checkpoint() returns (thrown: Option<Thrown>)
      requires Valid()
      modifies this
      ensures Valid() && Progress(old(Snapshot()), Snapshot(), None) && stepRuns == old(stepRuns)
          && reports == old(reports)
          && attempts == old(attempts)
      ensures thrown == if cancelledAt.Some? then Some(Dispatch(Cancelled)) else None
      ensures cancelledAt.None? ==> !Stopped()
      ensures reservations == old(reservations) && Owed() == old(Owed())
    {
      ghost var s := Snapshot();
      var t, now := ThrowIfCancelled();
      CheckProgresses(cfg, s, now);
      thrown := t;
    }

    method Interrupt()
      requires Valid()
      modifies this
      ensures Valid() && Progress(old(Snapshot()), Snapshot(), None) && stepRuns == old(stepRuns)
          && reports == old(reports)
          && attempts == old(attempts)
      ensures cancelledAt.Some? && Owed() == old(Owed())
    {
      ghost var s := Snapshot();
      ghost var now := Cancel();
      CheckProgresses(cfg, s, now);
    }

    method Account(account: nat, telemetry: Telemetry) returns (thrown: Option<Thrown>)
      requires Valid() && Open(Snapshot(), Some(account))
      requires honest && telemetry.wellFormed ==> telemetry.turns <= reservations[account].remaining
      modifies this
      ensures Valid() && Progress(old(Snapshot()), Snapshot(), Some(account)) && stepRuns == old(stepRuns)
          && reports == old(reports)
          && attempts == old(attempts)
      ensures Owed() == old(Owed()) - TelemetryTurns(telemetry)
      ensures thrown == ChargeError(telemetry, old(reservations[account].remaining))
    {
      ChargeProgresses(cfg, Snapshot(), account, telemetry);
      thrown := ChargeTurns(account, telemetry);
    }

    /** What charging against `held` turns throws, if anything. */
    static function ChargeError(telemetry: Telemetry, held: int): Option<Thrown> {
      if !telemetry.wellFormed || telemetry.turns < 0 then Some(Dispatch(OtherPrefix))
      else if telemetry.turns > held then Some(Dispatch(BudgetExhausted))
      else None
    }

    /** `reserveRootStep`, with the exact depth of what the step can call. */
    method EnterRootStep(caller: string, step: string) returns (r: Result<nat, Thrown>, ghost depth: nat)
      requires Valid()
      modifies this
      ensures Snapshot() == Apply(cfg, old(Snapshot()), ReserveEvent(depth)).0
      ensures Acyclic(Calls()) ==> IsDepthForStep(caller, step, depth)
      ensures Valid() && stepRuns == old(stepRuns) && reports == old(reports) && attempts == old(attempts)
          && Owed() == old(Owed())
      ensures r.Ok? ==> r.value == |old(Snapshot()).reservations| && Opens(old(Snapshot()), Snapshot())
                        && Open(Snapshot(), Some(r.value)) && reservations[r.value].owner.None?
      ensures r.Err? ==> r.error == Dispatch(BudgetExhausted) && Progress(old(Snapshot()), Snapshot(), None)
    {
      var exact := DescendantDepthForStep(caller, step);
      depth := exact;
      r := ReserveRootStep(exact);
    }

    method LeaveRootStep(r: nat)
      requires Valid() && Open(Snapshot(), Some(r)) && reservations[r].owner.None?
      modifies this
      ensures Valid() && Closing(old(Snapshot()), Snapshot(), r) && stepRuns == old(stepRuns) && reports == old(reports)
          && attempts == old(attempts) && clock == old(clock)
      ensures Owed() == old(Owed())
    {
      ReleaseRootStep(r);
    }

    /** A child frame ready to execute: registered, placed in the trace, with its own open account. */
    ghost predicate ChildReady(s: State, child: Frame)
      reads this
    {
      && child.component in components && FrameOk(cfg, Snapshot(), child) && child.depth <= cfg.limits.maxDepth
      && child.callId.Some? && |s.calls| <= child.callId.value < |componentCalls|
      && child.reservation == Some(|s.reservations|) && Open(Snapshot(), child.reservation)
      && reservations[|s.reservations|].owner == child.callId
    }

    /** A malformed request takes nothing, and is answered as invalid unless the run is cancelled. */
    lemma {:induction false} MalformedRequestRefused(s: State, e: Event)
      requires Registered() && e.InvokeEvent? && Enabled(cfg, s, e) && !e.requestOk
      ensures !Apply(cfg, s, e).1.Admitted? && Apply(cfg, s, e).0.available == s.available
      ensures Apply(cfg, s, e).0.cancelledAt.None? && e.alias in AliasesOf(e.frame.component, e.step) ==>
                Apply(cfg, s, e).1 == Delivered(ResultError(InvalidRequest))
    {
      MalformedRequestTakesNothing(cfg, s, e);
      InvocationRules(cfg, s, e);
    }

    method EnterCall(frame: Frame, step: string, alias: string, requestOk: bool) returns (reply: Reply, ghost e: Event)
      requires Valid() && FrameOk(cfg, Snapshot(), frame)
      requires (frame.component, step) in cfg.steps
      modifies this
      ensures Valid() && stepRuns == old(stepRuns) && reports == old(reports) && Owed() == old(Owed())
      ensures reply.Raises? || reply.Delivered? || reply.Admitted?
      ensures reply.Admitted? ==>
                && ChildReady(old(Snapshot()), reply.frame) && reply.frame.depth == frame.depth + 1
                && Opens(old(Snapshot()), Snapshot()) && attempts == old(attempts) + 1
      ensures reply.Raises? ==> cancelledAt.Some?
      ensures !reply.Admitted? ==> Progress(old(Snapshot()), Snapshot(), None) && attempts == old(attempts)
                                   && componentCalls == old(componentCalls)
      ensures e.InvokeEvent? && e == InvokeEvent(e.now, frame, step, alias, requestOk, e.depth)
          && e.now >= old(clock)
      ensures ReplyTo(VerdictOn(cfg, old(Snapshot()), e), reply)
      ensures reply.Admitted? ==> componentCalls == old(componentCalls) + [EntryFor(cfg, old(Snapshot()), e)]
                                  && reply.frame.component == LookedUp(cfg, e)[alias]
      ensures old(Stopped()) ==> availableTurns == old(availableTurns)
      ensures reply.Admitted? ==> Acyclic(Calls()) ==> IsLongest(Calls(), reply.frame.component, e.depth)
      ensures !requestOk ==> !reply.Admitted? && availableTurns == old(availableTurns)
      ensures !requestOk && cancelledAt.None? && alias in AliasesOf(frame.component, step) ==>
                reply == Delivered(ResultError(InvalidRequest))
    {
      ghost var s := Snapshot();
      ValidState();
      reply, e := Admit(frame, step, alias, requestOk);
      VerdictIsReplied(cfg, s, e);
      InvocationRules(cfg, s, e);
      AdmitEffect(cfg, s, e);
      if !requestOk { MalformedRequestRefused(s, e); }
      if reply.Admitted? { ghost var i := LookedUpFrom(cfg.dependencies, frame.component, step, alias); }
    }

    method LeaveCall(call: nat, r: nat, outcome: ChildOutcome) returns (result: CallResult)
      requires Valid() && call < |componentCalls| && Open(Snapshot(), Some(r)) && reservations[r].owner == Some(call)
      modifies this
      ensures Valid() && Closing(old(Snapshot()), Snapshot(), r) && stepRuns == old(stepRuns) && reports == old(reports)
          && attempts == old(attempts)
      ensures call < |callEnds| && Owed() == old(Owed())
      ensures cancelledAt.Some? ==> result == ResultError(CancelledCode) && callEnds[call].status.LateDiscarded?
      ensures cancelledAt.None? ==> ValueOf(outcome, result) && EndedAs(result, callEnds[call].status)
    {
      ValidState();
      ghost var now;
      result, now := Complete(call, r, outcome);
    }

    // ---- execution -----------------------------------------------------------------------------

    /** `runStep` calls one whole frame can make, not counting its descendants'. */
    ghost function PerFrame(): nat { RUNS_PER_STEP * maxSteps }

    /** `own` calls of `runStep` and a full frame's worth for every attempt admitted meanwhile. */
    ghost predicate Spent(runs: nat, tries: nat, runs': nat, tries': nat, own: nat) {
      runs' <= runs + own + (tries' - tries) * PerFrame()
    }

    lemma {:induction false} SpentAdds(r0: nat, t0: nat, r1: nat, t1: nat, r2: nat, t2: nat, a: nat, b: nat)
      requires Spent(r0, t0, r1, t1, a) && Spent(r1, t1, r2, t2, b)
      ensures Spent(r0, t0, r2, t2, a + b)
    {
      assert (t1 - t0) * PerFrame() + (t2 - t1) * PerFrame() == (t2 - t0) * PerFrame();
    }

    /** A frame's own calls are covered by the attempt that admitted it. */
    lemma {:induction false} SpentOnAttempt(runs: nat, tries: nat, runs': nat, tries': nat)
      requires Spent(runs, tries + 1, runs', tries', PerFrame())
      ensures Spent(runs, tries, runs', tries', 0)
    {
      assert (tries' - (tries + 1)) * PerFrame() + PerFrame() == (tries' - tries) * PerFrame();
    }

    /** Chooses how the model step ends; an honest environment stays within its allowance. */
    method AnyReport(maxTurns: int) returns (report: StepReport)
      ensures honest && !report.Crashed? && report.telemetry.wellFormed ==> report.telemetry.turns <= maxTurns
    {
      var text: string := *;
      var turns: int := *;
      var wellFormed: bool := *;
      if honest && turns > maxTurns { turns := maxTurns; }
      if * {
        report := Returned(text, Telemetry(turns, wellFormed));
      } else if * {
        var prefix := AnyPrefix();
        var retryable: bool := *;
        report := FailedStep(prefix, retryable, text, Telemetry(turns, wellFormed));
      } else {
        var prefix := AnyPrefix();
        if * { report := Crashed(Foreign, text); } else { report := Crashed(Dispatch(prefix), text); }
      }
    }

    method AnyPrefix() returns (prefix: Prefix)
    {
      if * { prefix := BudgetExhausted; } else if * { prefix := Cancelled; }
      else if * { prefix := UnauthorizedCall; } else { prefix := OtherPrefix; }
    }

    /** Any value `normalizeComponentResult` can produce. */
    method AnyResult() returns (result: CallResult)
      ensures result.ResultOk? || result.ResultRefused? || result == ResultError(InvalidResult)
    {
      if * { result := ResultOk; } else if * { result := ResultRefused; } else { result := ResultError(InvalidResult); }
    }

    /** The environment: the model runs with `maxTurns`, may cancel and invoke, and ends somehow. */
    method RunStep(frame: Frame, step: string, maxTurns: int) returns (report: StepReport)
      requires Valid() && FrameOk(cfg, Snapshot(), frame) && frame.depth <= cfg.limits.maxDepth
      requires (frame.component, step) in cfg.steps
      requires cancelledAt.None? && maxTurns >= 1
      modifies this
      ensures Valid() && Progress(old(Snapshot()), Snapshot(), None)
      ensures Spent(old(stepRuns), old(attempts), stepRuns, attempts, 0)
      ensures honest && !report.Crashed? && report.telemetry.wellFormed ==> report.telemetry.turns <= maxTurns
      ensures Owed() == old(Owed()) + ReportedTurns(report)
      ensures Grew(old(reports), reports, |old(componentCalls)|, frame.callId, [Reported(frame.callId, step, report)])
      decreases cfg.limits.maxDepth - frame.depth, 2
    {
      ghost var s0, log := Snapshot(), reports;
      var events: int := *;
      while events > 0
        invariant Valid() && Progress(s0, Snapshot(), None)
        invariant Spent(old(stepRuns), old(attempts), stepRuns, attempts, 0)
        invariant Owed() == old(Owed())
        invariant Grew(log, reports, |s0.calls|, frame.callId, [])
      {
        ghost var s1, log1 := Snapshot(), reports;
        ghost var runs := stepRuns;
        FrameStable(cfg, s0, s1, frame);
        if * {
          Interrupt();
        } else {
          var alias: string := *;
          var requestOk: bool := *;
          var result, _ := InvokeCall(frame, step, alias, requestOk);
          SpentAdds(old(stepRuns), old(attempts), runs, s1.attempts, stepRuns, attempts, 0, 0);
          GrewTwice(log, log1, reports, |s0.calls|, |s1.calls|, frame.callId, [], []);
        }
        ProgressTransitive(s0, s1, Snapshot(), None);
        events := events - 1;
      }
      report := AnyReport(maxTurns);
      reported := reported + ReportedTurns(report);
      GrewByOne(reports, |s0.calls|, frame.callId, step, report);
      GrewTwice(log, reports, reports + [Reported(frame.callId, step, report)], |s0.calls|, |s0.calls|, frame.callId,
          [],
                [Reported(frame.callId, step, report)]);
      reports := reports + [Reported(frame.callId, step, report)];
    }

    /** `invoke`: admission, the child's execution, completion. */
    method InvokeCall(frame: Frame, step: string, alias: string, requestOk: bool)
      returns (r: Result<CallResult, Thrown>, ghost e: Event)
      requires Valid() && FrameOk(cfg, Snapshot(), frame) && frame.depth <= cfg.limits.maxDepth
      requires (frame.component, step) in cfg.steps
      modifies this
      ensures Valid() && Progress(old(Snapshot()), Snapshot(), None)
      ensures Spent(old(stepRuns), old(attempts), stepRuns, attempts, 0)
      ensures e.InvokeEvent? && e == InvokeEvent(e.now, frame, step, alias, requestOk, e.depth)
          && e.now >= old(clock)
      ensures CallAnswer(VerdictOn(cfg, old(Snapshot()), e), r, cancelledAt.Some?)
      ensures VerdictOn(cfg, old(Snapshot()), e).Passed? ==>
                && |componentCalls| > |old(componentCalls)| && attempts > old(attempts)
                && componentCalls[|old(componentCalls)|] == EntryFor(cfg, old(Snapshot()), e)
                && (Acyclic(Calls()) ==> IsLongest(Calls(), LookedUp(cfg, e)[alias], e.depth))
      ensures !VerdictOn(cfg, old(Snapshot()), e).Passed? ==>
                componentCalls == old(componentCalls) && attempts == old(attempts)
      ensures old(Stopped()) ==> r == Err(Dispatch(Cancelled)) && availableTurns == old(availableTurns)
      ensures !requestOk ==> componentCalls == old(componentCalls) && attempts == old(attempts)
                             && availableTurns == old(availableTurns)
      ensures !requestOk && cancelledAt.None? && alias in AliasesOf(frame.component, step) ==>
                r == Ok(ResultError(InvalidRequest))
      ensures r.Err? ==> cancelledAt.Some?
      ensures Owed() == old(Owed())
      ensures Grew(old(reports), reports, |old(componentCalls)|, frame.callId, [])
      decreases cfg.limits.maxDepth - frame.depth, 1
    {
      GrewNothing(reports, |componentCalls|, frame.callId);
      var reply;
      reply, e := EnterCall(frame, step, alias, requestOk);
      match reply {
        case Raises(error) => r := Err(error);
        case Delivered(result) => r := Ok(result);
        case Admitted(child) =>
          var result, _ := RunChild(old(Snapshot()), child, frame.depth, frame.callId);
          r := Ok(result);
      }
    }

    /** `invoke` from the admitted frame to the delivered result. */
    method RunChild(ghost s0: State, child: Frame, depth: nat, ghost caller: Option<nat>)
      returns (result: CallResult, ghost run: Result<string, Thrown>)
      requires Valid() && ChildReady(s0, child) && Opens(s0, Snapshot()) && child.depth == depth + 1
      requires attempts == s0.attempts + 1 && |s0.calls| <= child.callId.value
      modifies this
      ensures Valid() && Progress(s0, Snapshot(), None)
      ensures Grew(old(reports), reports, |s0.calls|, caller, []) && old(componentCalls) <= componentCalls
          && old(attempts) <= attempts
      ensures Spent(old(stepRuns), s0.attempts, stepRuns, attempts, 0)
      ensures cancelledAt.Some? ==> result == ResultError(CancelledCode)
      ensures cancelledAt.None? && run.Err? ==> ValueOf(ChildThrew(run.error), result)
      ensures cancelledAt.None? && run.Ok? ==>
          result.ResultOk? || result.ResultRefused? || result == ResultError(InvalidResult)
      ensures Owed() == old(Owed())
      decreases cfg.limits.maxDepth - depth, 0
    {
      ghost var s1 := Snapshot();
      var ended, _, own := ExecuteComponent(child);
      run := ended;
      ghost var s2 := Snapshot();
      GrewElsewhere(old(reports), reports, |s0.calls|, |s1.calls|, child.callId, own, caller);
      SpentOnAttempt(old(stepRuns), s0.attempts, stepRuns, attempts);
      AccountSurvives(s1, s2, child.reservation, child.reservation.value);
      var outcome;
      if ended.Ok? {
        var normalized := AnyResult();
        outcome := ChildReturned(normalized);
      } else {
        outcome := ChildThrew(ended.error);
      }
      result := LeaveCall(child.callId.value, child.reservation.value, outcome);
      BracketProgresses(s0, s1, s2, Snapshot());
    }

    /**
     * One `runStep` with its accounting. It does not start once the run is cancelled or without a
     * turn to give; otherwise its report is charged in full and decides the answer.
     */
    method Attempt(frame: Frame, step: string, account: nat) returns (answer: Answer, ghost report: Option<StepReport>)
      requires Valid() && FrameOk(cfg, Snapshot(), frame) && frame.depth <= cfg.limits.maxDepth
      requires (frame.component, step) in cfg.steps
      requires Open(Snapshot(), Some(account))
      modifies this
      ensures Valid() && Progress(old(Snapshot()), Snapshot(), Some(account))
      ensures Spent(old(stepRuns), old(attempts), stepRuns, attempts, 1)
      ensures Owed() == old(Owed())
      ensures report.None? ==> stepRuns == old(stepRuns) && answer.Raised?
      ensures old(Stopped()) ==> report.None?
      ensures Grew(old(reports), reports, |old(componentCalls)|, frame.callId, Logged(frame.callId, step, report))
      ensures report.None? && cancelledAt.Some? ==> answer.error == Dispatch(Cancelled)
      ensures report.None? && cancelledAt.None? ==>
                old(reservations[account].remaining) < 1 && answer.error == Dispatch(BudgetExhausted)
      ensures report.Some? ==> old(reservations[account].remaining) >= 1
                               && Settles(report.value, old(reservations[account].remaining), cancelledAt.Some?, answer)
      ensures answer.Answered? ==>
                && !Stopped() && report.Some? && report.value.Returned? && report.value.telemetry.wellFormed
                && 0 <= report.value.telemetry.turns <= old(reservations[account].remaining)
      decreases cfg.limits.maxDepth - frame.depth, 4
    {
      ghost var s0 := Snapshot();
      var note: string := *;
      var cancelled := Checkpoint();
      ghost var s1 := Snapshot();
      GrewNothing(reports, |s0.calls|, frame.callId);
      ProgressWeakens(s0, s1, Some(account));
      if cancelled.Some? { return Raised(cancelled.value, note), None; }
      var maxTurns := reservations[account].remaining;
      if maxTurns < 1 { return Raised(Dispatch(BudgetExhausted), note), None; }
      stepRuns := stepRuns + 1;
      FrameStable(cfg, s0, s1, frame);
      var ended, r := RunAndSettle(frame, step, account);
      ProgressTransitive(s0, s1, Snapshot(), Some(account));
      answer, report := ended, Some(r);
    }

    /** The model step with the account's turns, and the settlement of its report. */
    method RunAndSettle(frame: Frame, step: string, account: nat) returns (answer: Answer, ghost report: StepReport)
      requires Valid() && FrameOk(cfg, Snapshot(), frame) && frame.depth <= cfg.limits.maxDepth
      requires (frame.component, step) in cfg.steps
      requires Open(Snapshot(), Some(account)) && cancelledAt.None? && reservations[account].remaining >= 1
      modifies this
      ensures Valid() && Progress(old(Snapshot()), Snapshot(), Some(account))
      ensures Spent(old(stepRuns), old(attempts), stepRuns, attempts, 0) && Owed() == old(Owed())
      ensures Settles(report, old(reservations[account].remaining), cancelledAt.Some?, answer)
      ensures answer.Answered? ==> !Stopped()
      ensures Grew(old(reports), reports, |old(componentCalls)|, frame.callId, [Reported(frame.callId, step, report)])
      decreases cfg.limits.maxDepth - frame.depth, 3
    {
      ghost var s1 := Snapshot();
      var ended := RunStep(frame, step, reservations[account].remaining);
      ghost var s2 := Snapshot();
      AccountSurvives(s1, s2, None, account);
      ProgressWeakens(s1, s2, Some(account));
      answer := Settle(account, ended);
      ProgressTransitive(s1, s2, Snapshot(), Some(account));
      report := ended;
    }

    /**
     * `answer` is what a report amounts to, charged against `held` turns. An error the runtime itself throws
     * carries a message of its own, which is not part of the model.
     */
    static predicate Settles(report: StepReport, held: int, cancelled: bool, answer: Answer) {
      match report
      case Crashed(error, message) => answer == Raised(error, message)
      case FailedStep(prefix, retryable, message, telemetry) =>
        (match ChargeError(telemetry, held)
         case Some(error) => answer.Raised? && answer.error == error
         case None => answer == Raised(StepError(prefix, retryable), message))
      case Returned(text, telemetry) =>
        match ChargeError(telemetry, held)
        case Some(error) => answer.Raised? && answer.error == error
        case None => if cancelled then answer.Raised? && answer.error == Dispatch(Cancelled)
            else answer == Answered(text)
    }

    /** What happens to a report: it is charged, and only a charged, uncancelled answer counts. */
    method Settle(account: nat, report: StepReport) returns (answer: Answer)
      requires Valid() && Open(Snapshot(), Some(account))
      requires honest && !report.Crashed? && report.telemetry.wellFormed ==>
          report.telemetry.turns <= reservations[account].remaining
      modifies this
      ensures Valid() && Progress(old(Snapshot()), Snapshot(), Some(account)) && stepRuns == old(stepRuns)
          && reports == old(reports)
          && attempts == old(attempts)
      ensures Settles(report, old(reservations[account].remaining), cancelledAt.Some?, answer)
      ensures answer.Answered? ==> !Stopped()
      ensures Owed() == old(Owed()) - ReportedTurns(report)
    {
      ghost var s2 := Snapshot();
      var note: string := *;
      match report {
        case Crashed(error, message) => answer := Raised(error, message);
        case FailedStep(prefix, retryable, message, telemetry) =>
          var chargeError := Account(account, telemetry);
          answer := if chargeError.Some? then Raised(chargeError.value, note)
                    else Raised(StepError(prefix, retryable), message);
        case Returned(text, telemetry) =>
          var chargeError := Account(account, telemetry);
          if chargeError.Some? { return Raised(chargeError.value, note); }
          ghost var s3 := Snapshot();
          var late := Checkpoint();
          ProgressWeakens(s3, Snapshot(), Some(account));
          ProgressTransitive(s2, s3, Snapshot(), Some(account));
          answer := if late.Some? then Raised(late.value, note) else Answered(text);
      }
    }

    /** How `execute` ends on an answer: a failure is returned only if it is ordinary and may be tolerated. */
    static predicate EndsAs(answer: Answer, tolerant: bool, r: Result<(StepOutcome, string), Thrown>) {
      match answer
      case Answered(text) => r == Ok((Success, text))
      case Raised(error, message) =>
        if tolerant && !EndsEveryRun(error) then r == Ok((Failure, message)) else r == Err(error)
    }

    /**
     * `execute`: a root step brackets its attempt with its own reservation; a child's step draws on
     * the reservation its call was admitted with.
     */
    method ExecuteStep(frame: Frame, step: string, tolerant: bool)
      returns (r: Result<(StepOutcome, string), Thrown>, ghost answer: Answer, ghost report: Option<StepReport>)
      requires Valid() && FrameOk(cfg, Snapshot(), frame) && frame.depth <= cfg.limits.maxDepth
      requires (frame.component, step) in cfg.steps
      requires Open(Snapshot(), frame.reservation)
      modifies this
      ensures Valid() && Progress(old(Snapshot()), Snapshot(), frame.reservation)
      ensures Spent(old(stepRuns), old(attempts), stepRuns, attempts, 1)
      ensures EndsAs(answer, tolerant, r)
      ensures Owed() == old(Owed())
      ensures Grew(old(reports), reports, |old(componentCalls)|, frame.callId, Logged(frame.callId, step, report))
      ensures AnswerTo(report, answer) && (answer.Answered? ==> !Stopped())
      decreases cfg.limits.maxDepth - frame.depth, 6
    {
      var ended: Answer;
      if frame.reservation.Some? {
        ended, report := Attempt(frame, step, frame.reservation.value);
      } else {
        ended, report := RootAttempt(frame, step);
      }
      answer := ended;
      if ended.Answered? {
        r := Ok((Success, ended.text));
      } else if !tolerant || Terminal(ended.error) {
        r := Err(ended.error);
      } else {
        r := Ok((Failure, ended.message));
      }
    }

    method RootAttempt(frame: Frame, step: string) returns (answer: Answer, ghost report: Option<StepReport>)
      requires Valid() && FrameOk(cfg, Snapshot(), frame) && frame.depth <= cfg.limits.maxDepth
      requires (frame.component, step) in cfg.steps
      modifies this
      ensures Valid() && Progress(old(Snapshot()), Snapshot(), None)
      ensures Spent(old(stepRuns), old(attempts), stepRuns, attempts, 1)
      ensures Owed() == old(Owed())
      ensures Grew(old(reports), reports, |old(componentCalls)|, frame.callId, Logged(frame.callId, step, report))
      ensures AnswerTo(report, answer) && (answer.Answered? ==> !Stopped())
      decreases cfg.limits.maxDepth - frame.depth, 5
    {
      ghost var s0 := Snapshot();
      GrewNothing(reports, |s0.calls|, frame.callId);
      var reserved, _ := EnterRootStep(frame.component, step);
      var note: string := *;
      if reserved.Err? { return Raised(reserved.error, note), None; }
      ghost var s1 := Snapshot();
      FrameStable(cfg, s0, s1, frame);
      answer, report := Attempt(frame, step, reserved.value);
      ghost var s2 := Snapshot();
      AccountSurvives(s1, s2, Some(reserved.value), reserved.value);
      LeaveRootStep(reserved.value);
      BracketProgresses(s0, s1, s2, Snapshot());
    }

    /** The bounded repair loop around `execute`; with a bound of one, its one attempt decides. */
    method RepairStep(frame: Frame, step: string)
      returns (r: Result<(StepOutcome, string), Thrown>, ghost answer: Answer, ghost report: Option<StepReport>)
      requires Valid() && FrameOk(cfg, Snapshot(), frame) && frame.depth <= cfg.limits.maxDepth
      requires (frame.component, step) in cfg.steps
      requires Open(Snapshot(), frame.reservation)
      modifies this
      ensures Valid() && Progress(old(Snapshot()), Snapshot(), frame.reservation)
      ensures Spent(old(stepRuns), old(attempts), stepRuns, attempts, RUNS_PER_STEP)
      ensures EndsAs(answer, true, r)
      ensures Owed() == old(Owed())
      ensures Grew(old(reports), reports, |old(componentCalls)|, frame.callId, Logged(frame.callId, step, report))
      ensures AnswerTo(report, answer)
      decreases cfg.limits.maxDepth - frame.depth, 7
    {
      var attempt := 1;
      r, answer, report := Ok((Failure, "")), Raised(Foreign, ""), None;
      while attempt <= DEFAULT_MAX_REPAIR_ATTEMPTS
        invariant 1 <= attempt <= 2
        invariant attempt == 1 ==> Snapshot() == old(Snapshot()) && stepRuns == old(stepRuns) && reports == old(reports)
        invariant Valid() && Progress(old(Snapshot()), Snapshot(), frame.reservation)
        invariant Spent(old(stepRuns), old(attempts), stepRuns, attempts, attempt - 1)
        invariant Owed() == old(Owed())
        invariant EndsAs(answer, true, r)
        invariant attempt == 2 ==> AnswerTo(report, answer)
        invariant attempt == 2 ==>
            Grew(old(reports), reports, |old(componentCalls)|, frame.callId, Logged(frame.callId, step, report))
      {
        r, answer, report := ExecuteStep(frame, step, true);
        if r.Err? || r.value.0.Success? { return; }
        attempt := attempt + 1;
      }
    }

    lemma {:induction false} SpentBelow(runs: nat, tries: nat, runs': nat, tries': nat, k: nat, component: string)
      requires Registered() && component in components && k <= |components[component]|
      requires Spent(runs, tries, runs', tries', RUNS_PER_STEP * k)
      ensures Spent(runs, tries, runs', tries', PerFrame())
    {
    }

    /** One turn of the step loop, in step with the executor's specification. */
    method TakeTurn(frame: Frame, steps: seq<LlmStep>, i: nat, artifacts: map<string, string>,
                    outcomes: map<string, StepOutcome>, finalText: string, failureTargets: set<string>,
                    ghost st: ExecState)
      returns (r: Result<(map<string, string>, map<string, StepOutcome>, string), Thrown>, ghost answer: Answer,
          ghost own: seq<Reported>)
      requires Valid() && FrameOk(cfg, Snapshot(), frame) && frame.depth <= cfg.limits.maxDepth
      requires Open(Snapshot(), frame.reservation)
      requires i < |steps| && failureTargets == FailureTargets(steps)
      requires (frame.component, steps[i].name) in cfg.steps
      requires st.artifacts == artifacts && st.outcomes == outcomes && st.finalText == finalText
      modifies this
      ensures Valid() && Progress(old(Snapshot()), Snapshot(), frame.reservation)
      ensures Spent(old(stepRuns), old(attempts), stepRuns, attempts, RUNS_PER_STEP)
      ensures match Advance(steps, parse, i, st, answer)
              case Err(e) => r == Err(e)
              case Ok(next) => r == Ok((next.artifacts, next.outcomes, next.finalText))
      ensures Owed() == old(Owed())
      ensures Grew(old(reports), reports, |old(componentCalls)|, frame.callId, own)
      ensures TurnReports(steps, parse, i, st, answer, frame.callId, own)
      decreases cfg.limits.maxDepth - frame.depth, 8
    {
      var call := steps[i];
      answer, own := Answered(""), [];
      GrewNothing(reports, |componentCalls|, frame.callId);
      var decision := DecisionAt(steps, parse, i, artifacts, outcomes);
      if decision.UnknownGuard? { return Err(Dispatch(OtherPrefix)), answer, own; }
      if decision.Skip? { return Ok((artifacts, outcomes, finalText)), answer, own; }
      var attempt;
      ghost var report;
      if decision.Repair? {
        attempt, answer, report := RepairStep(frame, call.name);
      } else {
        attempt, answer, report := ExecuteStep(frame, call.name, call.name in failureTargets);
      }
      own := Logged(frame.callId, call.name, report);
      if attempt.Err? { return Err(attempt.error), answer, own; }
      if decision.Repair? && attempt.value.0.Failure? {
        return Err(Unrecovered(steps, i, Put(artifacts, ArtifactKey(call), attempt.value.1))), answer, own;
      }
      r := Ok((Put(artifacts, ArtifactKey(call), attempt.value.1), Put(outcomes, call.name, attempt.value.0),
               if attempt.value.0.Success? then attempt.value.1 else finalText));
    }

    /** Since the start of the frame: its turns so far, what they cost, and what was reported to it. */
    ghost predicate Since(start: FrameStart, frame: Frame, steps: seq<LlmStep>, answers: seq<Answer>,
                          own: seq<Reported>)
      reads this
    {
      && Valid() && Progress(start.state, Snapshot(), frame.reservation) && Owed() == start.owed
      && Spent(start.runs, start.state.attempts, stepRuns, attempts, RUNS_PER_STEP * |answers|)
      && |answers| <= |steps| && Grew(start.log, reports, |start.state.calls|, frame.callId, own)
      && RunReports(steps, parse, answers, frame.callId, own)
    }

    /** The executor's variables are those of its specification after these answers. */
    ghost predicate InStep(steps: seq<LlmStep>, answers: seq<Answer>, artifacts: map<string, string>,
                           outcomes: map<string, StepOutcome>, finalText: string)
    {
      && |answers| <= |steps| && RunSteps(steps, parse, answers).Ok?
      && var st := RunSteps(steps, parse, answers).value;
         st.artifacts == artifacts && st.outcomes == outcomes && st.finalText == finalText
    }

    /** The next turn, accounted for from the start of the frame. */
    method NextTurn(ghost start: FrameStart, frame: Frame, steps: seq<LlmStep>, i: nat,
                    artifacts: map<string, string>, outcomes: map<string, StepOutcome>, finalText: string,
                    failureTargets: set<string>, ghost answers: seq<Answer>, ghost own: seq<Reported>)
      returns (r: Result<(map<string, string>, map<string, StepOutcome>, string), Thrown>, ghost answer: Answer,
          ghost more: seq<Reported>)
      requires Since(start, frame, steps, answers, own) && InStep(steps, answers, artifacts, outcomes, finalText)
      requires FrameOk(cfg, start.state, frame) && frame.depth <= cfg.limits.maxDepth
      requires Open(start.state, frame.reservation)
      requires i == |answers| < |steps| && failureTargets == FailureTargets(steps)
      requires (frame.component, steps[i].name) in cfg.steps
      modifies this
      ensures Since(start, frame, steps, answers + [answer], own + more)
      ensures r.Ok? ==> InStep(steps, answers + [answer], r.value.0, r.value.1, r.value.2)
      ensures r.Err? ==> RunSteps(steps, parse, answers + [answer]) == Err(r.error)
      decreases cfg.limits.maxDepth - frame.depth, 9
    {
      ghost var s0, s1, runs, log1 := start.state, Snapshot(), stepRuns, reports;
      ghost var st := RunSteps(steps, parse, answers).value;
      FrameStable(cfg, s0, s1, frame);
      if frame.reservation.Some? { AccountSurvives(s0, s1, frame.reservation, frame.reservation.value); }
      r, answer, more := TakeTurn(frame, steps, i, artifacts, outcomes, finalText, failureTargets, st);
      GrewTwice(start.log, log1, reports, |s0.calls|, |s1.calls|, frame.callId, own, more);
      ProgressTransitive(s0, s1, Snapshot(), frame.reservation);
      SpentAdds(start.runs, s0.attempts, runs, s1.attempts, stepRuns, attempts, RUNS_PER_STEP * i, RUNS_PER_STEP);
      RunReportsSnoc(steps, parse, answers, answer, frame.callId, own, more);
    }

    /**
     * `executeComponent`: the step loop. Whatever the environment does, the loop's decisions are the
     * ones `RunSteps` makes on the answers it received, and the text returned is that run's final text.
     */
    method ExecuteComponent(frame: Frame)
      returns (r: Result<string, Thrown>, ghost answers: seq<Answer>, ghost own: seq<Reported>)
      requires Valid() && FrameOk(cfg, Snapshot(), frame) && frame.depth <= cfg.limits.maxDepth
      requires frame.component in components && Open(Snapshot(), frame.reservation)
      modifies this
      ensures Valid() && Progress(old(Snapshot()), Snapshot(), frame.reservation)
      ensures Spent(old(stepRuns), old(attempts), stepRuns, attempts, PerFrame())
      ensures |answers| <= |components[frame.component]|
      ensures r.Ok? ==> |answers| == |components[frame.component]|
                        && RunSteps(components[frame.component], parse, answers).Ok?
                        && r.value == RunSteps(components[frame.component], parse, answers).value.finalText
                        && OnlyTolerated(components[frame.component],
                            RunSteps(components[frame.component], parse, answers).value.ran, answers)
      ensures r.Err? ==> FailsAs(components[frame.component], parse, answers, r.error, cancelledAt.Some?)
      ensures old(Stopped()) ==>
                r == Err(Dispatch(Cancelled)) && answers == [] && own == [] && stepRuns == old(stepRuns)
      ensures Owed() == old(Owed())
      ensures Grew(old(reports), reports, |old(componentCalls)|, frame.callId, own)
      ensures RunReports(components[frame.component], parse, answers, frame.callId, own)
      decreases cfg.limits.maxDepth - frame.depth, 11
    {
      ghost var s0 := Snapshot();
      GrewNothing(reports, |s0.calls|, frame.callId);
      var cancelled := Checkpoint();
      ghost var s1 := Snapshot();
      ProgressWeakens(s0, s1, frame.reservation);
      if cancelled.Some? { return Err(cancelled.value), [], []; }
      FrameStable(cfg, s0, s1, frame);
      r, answers, own := ExecuteSteps(frame, components[frame.component]);
      if r.Ok? { ReturningRunTolerates(components[frame.component], parse, answers); }
      ProgressTransitive(s0, s1, Snapshot(), frame.reservation);
    }

    lemma {:induction false} StepRegistered(id: string, i: nat)
      requires Registered() && id in components && i < |components[id]|
      ensures (id, components[id][i].name) in cfg.steps
    {
    }

    /** The step loop. */
    method ExecuteSteps(frame: Frame, steps: seq<LlmStep>)
      returns (r: Result<string, Thrown>, ghost answers: seq<Answer>, ghost own: seq<Reported>)
      requires Valid() && FrameOk(cfg, Snapshot(), frame) && frame.depth <= cfg.limits.maxDepth
      requires frame.component in components && steps == components[frame.component]
          && Open(Snapshot(), frame.reservation)
      modifies this
      ensures Valid() && Progress(old(Snapshot()), Snapshot(), frame.reservation)
      ensures Spent(old(stepRuns), old(attempts), stepRuns, attempts, PerFrame()) && Owed() == old(Owed())
      ensures |answers| <= |steps|
      ensures r.Ok? ==> |answers| == |steps| && RunSteps(steps, parse, answers).Ok?
                        && r.value == RunSteps(steps, parse, answers).value.finalText
      ensures r.Err? ==> RunSteps(steps, parse, answers) == Err(r.error)
      ensures Grew(old(reports), reports, |old(componentCalls)|, frame.callId, own)
      ensures RunReports(steps, parse, answers, frame.callId, own)
      decreases cfg.limits.maxDepth - frame.depth, 10
    {
      ghost var start := FrameStart(Snapshot(), stepRuns, Owed(), reports);
      answers, own := [], [];
      GrewNothing(reports, |componentCalls|, frame.callId);
      var artifacts: map<string, string> := map[];
      var outcomes: map<string, StepOutcome> := map[];
      var finalText := "";
      var failureTargets := FailureTargets(steps);
      var i := 0;
      while i < |steps|
        invariant 0 <= i <= |steps| && |answers| == i
        invariant Since(start, frame, steps, answers, own) && InStep(steps, answers, artifacts, outcomes, finalText)
      {
        StepRegistered(frame.component, i);
        var turn, answer, more := NextTurn(start, frame, steps, i, artifacts, outcomes, finalText, failureTargets,
                                           answers, own);
        answers, own := answers + [answer], own + more;
        i := i + 1;
        if turn.Err? {
          SpentBelow(start.runs, start.state.attempts, stepRuns, attempts, i, frame.component);
          return Err(turn.error), answers, own;
        }
        artifacts, outcomes, finalText := turn.value.0, turn.value.1, turn.value.2;
      }
      SpentBelow(start.runs, start.state.attempts, stepRuns, attempts, i, frame.component);
      r := Ok(finalText);
    }

    // ---- the root run --------------------------------------------------------------------------

    /**
     * `runRoot`. Every reservation opened during the run is refunded, so the pool and the charges
     * account for the whole limit; an honest environment never overspends it; a cancelled run never
     * returns a result; and the work done is bounded by the attempts admitted.
     */
    method RunRoot(requestOk: bool) returns (r: Result<RootResult, Thrown>, ghost answers: seq<Answer>)
      requires Valid() && AllClosed(Snapshot())
      modifies this
      ensures Valid() && AllClosed(Snapshot())
      ensures availableTurns >= 0 && availableTurns + charged == cfg.limits.maxTurns
      ensures honest ==> totalTurnsObserved <= cfg.limits.maxTurns
                         && availableTurns == cfg.limits.maxTurns - totalTurnsObserved
      ensures attempts == |componentCalls| <= cfg.limits.maxAttempts
      ensures forall i :: 0 <= i < |componentCalls| ==> EntryPlaced(cfg, componentCalls, i)
      ensures KeysApart(cfg) ==> forall i :: 0 <= i < |componentCalls| ==> EntryOk(cfg, componentCalls, i)
      ensures old(cancelledAt).Some? ==> cancelledAt == old(cancelledAt)
      ensures !requestOk ==> r == Err(Dispatch(OtherPrefix)) && Snapshot() == old(Snapshot()) && answers == []
                             && stepRuns == old(stepRuns) && reports == old(reports)
      ensures r.Ok? ==> !Stopped()
      ensures requestOk && old(Stopped()) ==>
                r == Err(Dispatch(Cancelled)) && answers == [] && stepRuns == old(stepRuns)
      ensures (requestOk && r.Err?) ==>
                && |answers| <= |components[cfg.root]|
                && FailsAs(components[cfg.root], parse, answers, r.error, cancelledAt.Some?)
      ensures r.Ok? ==> |answers| == |components[cfg.root]| && RunSteps(components[cfg.root], parse, answers).Ok?
                        && r.value.finalText == RunSteps(components[cfg.root], parse, answers).value.finalText
                        && r.value.turns == totalTurnsObserved && r.value.componentCalls == componentCalls
                        && OnlyTolerated(components[cfg.root], RunSteps(components[cfg.root], parse, answers).value.ran,
                                         answers)
      ensures stepRuns <= old(stepRuns) + MostRuns(cfg.limits, maxSteps)
      ensures totalTurnsObserved - old(totalTurnsObserved) == reported - old(reported)
      ensures cfg.root in components && |answers| <= |components[cfg.root]|
      ensures Made(old(reports), None) <= Made(reports, None)
      ensures RunReports(components[cfg.root], parse, answers, None, Made(reports, None)[|Made(old(reports), None)|..])
    {
      answers := [];
      if !requestOk {
        ValidState();
        AllAccountedFor();
          return Err(Dispatch(OtherPrefix)), answers;
      }
      ghost var s0 := Snapshot();
      ghost var own, made := [], Made(reports, None);
      r, answers, own := RunToEnd(Frame(cfg.root, None, [cfg.root], 0, None));
      ClosedAfter(s0, Snapshot());
      ValidState();
      AllAccountedFor();
      WithinAttempts(old(stepRuns), s0.attempts);
      assert (made + own)[|made|..] == own;
    }

    /** The root frame's execution and the check after it. */
    method RunToEnd(frame: Frame)
      returns (r: Result<RootResult, Thrown>, ghost answers: seq<Answer>, ghost own: seq<Reported>)
      requires Valid() && frame == Frame(cfg.root, None, [cfg.root], 0, None)
      modifies this
      ensures Valid() && Progress(old(Snapshot()), Snapshot(), None)
      ensures Spent(old(stepRuns), old(attempts), stepRuns, attempts, PerFrame()) && Owed() == old(Owed())
      ensures r.Ok? ==> !Stopped()
      ensures old(Stopped()) ==>
                r == Err(Dispatch(Cancelled)) && answers == [] && own == [] && stepRuns == old(stepRuns)
      ensures r.Err? ==> |answers| <= |components[cfg.root]|
                         && FailsAs(components[cfg.root], parse, answers, r.error, cancelledAt.Some?)
      ensures r.Ok? ==> |answers| == |components[cfg.root]| && RunSteps(components[cfg.root], parse, answers).Ok?
                        && r.value == RootResult(RunSteps(components[cfg.root], parse, answers).value.finalText,
                                                 totalTurnsObserved, componentCalls)
                        && OnlyTolerated(components[cfg.root], RunSteps(components[cfg.root], parse, answers).value.ran,
                                         answers)
      ensures cfg.root in components && |answers| <= |components[cfg.root]|
      ensures Made(reports, None) == Made(old(reports), None) + own
      ensures RunReports(components[cfg.root], parse, answers, None, own)
    {
      ghost var s0 := Snapshot();
      var run;
      run, answers, own := ExecuteComponent(frame);
      assert Known(None, |s0.calls|);
      if run.Err? { return Err(run.error), answers, own; }
      ghost var s1 := Snapshot();
      var cancelled := Checkpoint();
      ProgressTransitive(s0, s1, Snapshot(), None);
      r := if cancelled.Some? then Err(cancelled.value)
          else Ok(RootResult(run.value, totalTurnsObserved, componentCalls));
    }

    lemma {:induction false} ClosedAfter(s: State, s': State)
      requires AllClosed(s) && Progress(s, s', None)
      ensures AllClosed(s')
    {
      forall r | 0 <= r < |s'.reservations| ensures !s'.reservations[r].open {
        if r < |s.reservations| { assert SameAccount(s.reservations[r], s'.reservations[r], false); }
      }
    }

    lemma {:induction false} AllAccountedFor()
      requires Valid() && AllClosed(Snapshot())
      ensures availableTurns >= 0 && availableTurns + charged == cfg.limits.maxTurns
      ensures honest ==> totalTurnsObserved <= cfg.limits.maxTurns
      ensures honest ==> availableTurns == cfg.limits.maxTurns - totalTurnsObserved
    {
      ValidState();
      LiveTurnsBound(reservations);
      if honest { HonestRunsStayWithinLimit(cfg, startClock, history); }
    }

    lemma {:induction false} WithinAttempts(runs: nat, tries: nat)
      requires Spent(runs, tries, stepRuns, attempts, PerFrame()) && tries <= attempts <= cfg.limits.maxAttempts
      ensures stepRuns <= runs + MostRuns(cfg.limits, maxSteps)
    {
      assert (attempts - tries) * PerFrame() <= cfg.limits.maxAttempts * PerFrame();
      assert (1 + cfg.limits.maxAttempts) * PerFrame() == PerFrame() + cfg.limits.maxAttempts * PerFrame();
    }

    // ---- construction --------------------------------------------------------------------------

    constructor (cfg: Config, components: map<string, seq<LlmStep>>,
                 edgeByStep: Table,
                 parse: Parser, clock: int, honest: bool, ghost maxSteps: nat)
      requires LimitsOk(cfg.limits) && cfg.root in components && cfg.steps == StepsOf(components)
      requires Indexed(edgeByStep, cfg.dependencies) && forall d :: d in cfg.dependencies ==> d.component in components
      requires forall id :: id in components ==> |components[id]| <= maxSteps
      ensures Valid() && AllClosed(Snapshot()) && Snapshot() == Initial(cfg, clock) && stepRuns == 0 && reported == 0
          && reports == []
      ensures this.cfg == cfg && this.components == components && this.parse == parse && this.honest == honest
      ensures startClock == clock && this.maxSteps == maxSteps
    {
      this.cfg := cfg;
      this.components := components;
      this.edgeByStep := edgeByStep;
      this.parse := parse;
      this.honest := honest;
      this.maxSteps := maxSteps;
      this.clock := clock;
      startClock := clock;
      descendantDepth := map[];
      availableTurns := cfg.limits.maxTurns;
      totalTurnsObserved, attempts, cancelledAt := 0, 0, None;
      componentCalls, callEnds, reservations := [], [], [];
      charged, history, stepRuns, reported, reports := 0, [], 0, 0, [];
    }
  }

  datatype RootResult = RootResult(finalText: string, turns: nat, componentCalls: seq<CallEntry>)
}
