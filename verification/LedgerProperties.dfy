/**
 * What holds in every state of every run of the ledger, for any interleaving of its events: turns
 * are conserved, the call trace is a forest of looked-up calls, and cancellation is final.
 */
module LedgerProperties {
  import opened AliasTable
  import opened Prelude
  import opened Graphs
  import opened Declarations
  import opened ClosureProperties
  import opened StepExecution
  import opened Ledger

  // ---- turn conservation ---------------------------------------------------------------------

  function Live(r: Reservation): int { if r.open then r.remaining else 0 }

  /** Turns held by reservations that have not been refunded. */
  function LiveTurns(rs: seq<Reservation>): int {
    if rs == [] then 0 else LiveTurns(rs[..|rs| - 1]) + Live(rs[|rs| - 1])
  }

  lemma {:induction false} LiveTurnsUpdated(rs: seq<Reservation>, i: nat, r: Reservation)
    requires i < |rs|
    ensures LiveTurns(rs[i := r]) == LiveTurns(rs) - Live(rs[i]) + Live(r)
  {
    var n := |rs| - 1;
    if i == n {
      assert rs[i := r][..n] == rs[..n];
    } else {
      assert rs[i := r][..n] == rs[..n][i := r];
      LiveTurnsUpdated(rs[..n], i, r);
    }
  }

  /** Pool, live reservations and everything charged always add up to the limit. */
  predicate Balanced(cfg: Config, s: State) {
    && s.available >= 0
    && (forall i :: 0 <= i < |s.reservations| ==> s.reservations[i].remaining >= 0)
    && s.available + LiveTurns(s.reservations) + s.charged == cfg.limits.maxTurns
    && s.charged <= s.observed
  }

  lemma {:induction false} RefundKeepsBalance(cfg: Config, s: State, r: nat)
    requires Balanced(cfg, s) && r < |s.reservations| && s.reservations[r].open
    ensures Balanced(cfg, Refund(s, r))
  {
    LiveTurnsUpdated(s.reservations, r, s.reservations[r].(open := false));
  }

  lemma {:induction false} ChargeKeepsBalance(cfg: Config, s: State, account: Option<nat>, telemetry: Telemetry)
    requires Balanced(cfg, s) && Open(s, account)
    ensures Balanced(cfg, Charge(s, account, telemetry).0)
  {
    if account.Some? {
      var i := account.value;
      var held := s.reservations[i].remaining;
      LiveTurnsUpdated(s.reservations, i, s.reservations[i].(remaining := 0));
      LiveTurnsUpdated(s.reservations, i, s.reservations[i].(remaining := held - telemetry.turns));
    }
  }

  lemma {:induction false} ReserveKeepsBalance(cfg: Config, s: State, depth: nat)
    requires Balanced(cfg, s) && LimitsOk(cfg.limits)
    ensures Balanced(cfg, ReserveRootStep(cfg, s, depth).0)
  {
    HeldBounds(cfg, depth, s.available);
    var s' := ReserveRootStep(cfg, s, depth).0;
    if s' != s { assert s'.reservations[..|s.reservations|] == s.reservations; }
  }

  lemma {:induction false} HeldBounds(cfg: Config, depth: nat, available: int)
    ensures 0 <= HeldForDescendants(cfg, depth, available) <= Max(0, available - 1)
    ensures HeldForDescendants(cfg, depth, available) <= depth * cfg.limits.maxTurnsPerChild
  {
  }

  lemma {:induction false} InvokeKeepsBalance(cfg: Config, s: State, now: int, frame: Frame, step: string,
                                              alias: string, requestOk: bool, depth: nat)
    requires Balanced(cfg, s) && LimitsOk(cfg.limits)
    ensures Balanced(cfg, Invoke(cfg, s, now, frame, step, alias, requestOk, depth).0)
  {
    HeldBounds(cfg, depth, s.available);
    var s' := Invoke(cfg, s, now, frame, step, alias, requestOk, depth).0;
    if |s'.reservations| > |s.reservations| { assert s'.reservations[..|s.reservations|] == s.reservations; }
  }

  lemma {:induction false} ApplyKeepsBalance(cfg: Config, s: State, e: Event)
    requires Balanced(cfg, s) && LimitsOk(cfg.limits)
    ensures Balanced(cfg, Apply(cfg, s, e).0)
  {
    if Enabled(cfg, s, e) {
      match e
      case CancelEvent(now) =>
      case CheckEvent(now) =>
      case ReserveEvent(depth) => ReserveKeepsBalance(cfg, s, depth);
      case ChargeEvent(account, telemetry) => ChargeKeepsBalance(cfg, s, account, telemetry);
      case InvokeEvent(now, frame, step, alias, requestOk, depth) =>
        InvokeKeepsBalance(cfg, At(s, now), now, frame, step, alias, requestOk, depth);
      case FinishEvent(now, call, r, outcome) => RefundKeepsBalance(cfg, At(s, now), r);
      case ReleaseEvent(r) => RefundKeepsBalance(cfg, s, r);
    }
  }

  /**
   * Turns are conserved in every reachable state, whatever the environment reports, throws or
   * interleaves.
   */
  lemma {:induction false} TurnsConserved(cfg: Config, clock: int, events: seq<Event>)
    requires LimitsOk(cfg.limits)
    ensures Balanced(cfg, After(cfg, Initial(cfg, clock), events))
  {
    if events != [] {
      TurnsConserved(cfg, clock, events[..|events| - 1]);
      ApplyKeepsBalance(cfg, After(cfg, Initial(cfg, clock), events[..|events| - 1]), events[|events| - 1]);
    }
  }

  /** Every charge reports at most the turns its account held, the `maxTurns` the step was handed. */
  predicate HonestCharge(cfg: Config, s: State, e: Event) {
    (e.ChargeEvent? && Enabled(cfg, s, e) && e.telemetry.wellFormed && e.telemetry.turns >= 0) ==>
      e.telemetry.turns <= AvailableFor(s, e.account)
  }

  predicate Honest(cfg: Config, start: State, events: seq<Event>) {
    events == [] || (var n := |events| - 1;
                     Honest(cfg, start, events[..n]) && HonestCharge(cfg, After(cfg, start, events[..n]), events[n]))
  }

  lemma {:induction false} HonestStep(cfg: Config, s: State, e: Event)
    requires Balanced(cfg, s) && s.observed == s.charged && HonestCharge(cfg, s, e)
    ensures Apply(cfg, s, e).0.observed == Apply(cfg, s, e).0.charged
  {
  }

  /**
   * With honest reports nothing is overspent: the observed total stays within the limit, no charge
   * ever exhausts its account, and once every reservation is refunded the pool is exactly what is left.
   */
  lemma {:induction false} HonestRunsStayWithinLimit(cfg: Config, clock: int, events: seq<Event>)
    requires LimitsOk(cfg.limits) && Honest(cfg, Initial(cfg, clock), events)
    ensures var s := After(cfg, Initial(cfg, clock), events);
            && s.observed == s.charged && s.observed <= cfg.limits.maxTurns
            && (AllClosed(s) ==> s.available == cfg.limits.maxTurns - s.observed)
  {
    TurnsConserved(cfg, clock, events);
    var s := After(cfg, Initial(cfg, clock), events);
    LiveTurnsBound(s.reservations);
    if events != [] {
      var n := |events| - 1;
      HonestRunsStayWithinLimit(cfg, clock, events[..n]);
      TurnsConserved(cfg, clock, events[..n]);
      HonestStep(cfg, After(cfg, Initial(cfg, clock), events[..n]), events[n]);
    }
  }

  predicate AllClosed(s: State) {
    forall i :: 0 <= i < |s.reservations| ==> !s.reservations[i].open
  }

  lemma {:induction false} LiveTurnsBound(rs: seq<Reservation>)
    requires forall i :: 0 <= i < |rs| ==> rs[i].remaining >= 0
    ensures LiveTurns(rs) >= 0
    ensures (forall i :: 0 <= i < |rs| ==> !rs[i].open) ==> LiveTurns(rs) == 0
  {
    if rs != [] { LiveTurnsBound(rs[..|rs| - 1]); }
  }

  // ---- the call trace ------------------------------------------------------------------------

  lemma {:induction false} AncestryStable(root: string, calls: seq<CallEntry>, calls': seq<CallEntry>, c: nat)
    requires calls <= calls' && c < |calls|
    ensures Ancestry(root, calls, c) == Ancestry(root, calls', c)
  {
    if calls[c].parent.Some? && calls[c].parent.value < c {
      AncestryStable(root, calls, calls', calls[c].parent.value);
    }
  }

  /** Entry `i` is a call some prepared step looks up, placed one level below an earlier entry or the root. */
  predicate EntryPlaced(cfg: Config, calls: seq<CallEntry>, i: nat)
    requires i < |calls|
  {
    var e := calls[i];
    && e.attempt == i + 1
    && (e.caller, e.step) in cfg.steps && e.alias in AliasesFor(cfg.dependencies, e.caller, e.step)
    && e.callee == AliasesFor(cfg.dependencies, e.caller, e.step)[e.alias]
    && 1 <= e.depth <= cfg.limits.maxDepth
    && (e.depth == 1 <==> e.parent.None?)
    && (match e.parent
        case None => e.caller == cfg.root
        case Some(p) => p < i && e.depth == calls[p].depth + 1 && e.caller == calls[p].callee)
    && Distinct(Ancestry(cfg.root, calls, i))
  }

  /** Entry `i` is a placed call and one of its step's own declarations. */
  predicate EntryOk(cfg: Config, calls: seq<CallEntry>, i: nat)
    requires i < |calls|
  {
    && EntryPlaced(cfg, calls, i)
    && Dependency(calls[i].caller, calls[i].step, calls[i].alias, calls[i].callee) in cfg.dependencies
  }

  ghost predicate TraceShaped(cfg: Config, s: State) {
    && |s.calls| == |s.ends| == s.attempts
    && s.attempts <= cfg.limits.maxAttempts
    && forall i :: 0 <= i < |s.calls| ==> EntryPlaced(cfg, s.calls, i)
  }

  ghost predicate TraceOk(cfg: Config, s: State) {
    TraceShaped(cfg, s) && forall i :: 0 <= i < |s.calls| ==> EntryOk(cfg, s.calls, i)
  }

  /** Under no prepared step's key does a foreign declaration take effect. */
  predicate KeysApart(cfg: Config) {
    forall key :: key in cfg.steps ==> NoForeignAlias(cfg.dependencies, key.0, key.1)
  }

  lemma {:induction false} AliasIsDeclared(cfg: Config, caller: string, step: string, alias: string)
    requires KeysApart(cfg) && (caller, step) in cfg.steps && alias in AliasesFor(cfg.dependencies, caller, step)
    ensures Dependency(caller, step, alias, AliasesFor(cfg.dependencies, caller, step)[alias]) in cfg.dependencies
  {
    assert NoForeignAlias(cfg.dependencies, (caller, step).0, (caller, step).1);
    LooksUpOwnExactly(cfg.dependencies, caller, step);
  }

  /** When keys are apart, every trace of the right shape is authorised. */
  lemma {:induction false} ShapedIsAuthorised(cfg: Config, s: State)
    requires KeysApart(cfg) && TraceShaped(cfg, s)
    ensures TraceOk(cfg, s)
  {
    forall i | 0 <= i < |s.calls| ensures EntryOk(cfg, s.calls, i) {
      assert EntryPlaced(cfg, s.calls, i);
      AliasIsDeclared(cfg, s.calls[i].caller, s.calls[i].step, s.calls[i].alias);
    }
  }

  lemma {:induction false} AdmitKeepsTrace(cfg: Config, s: State, now: int, frame: Frame, step: string, alias: string,
                                           requestOk: bool, depth: nat)
    requires TraceShaped(cfg, s) && FrameOk(cfg, s, frame) && (frame.component, step) in cfg.steps
    requires Invoke(cfg, s, now, frame, step, alias, requestOk, depth).1.Admitted?
    ensures TraceShaped(cfg, Invoke(cfg, s, now, frame, step, alias, requestOk, depth).0)
    ensures FrameOk(cfg, Invoke(cfg, s, now, frame, step, alias, requestOk, depth).0,
                    Invoke(cfg, s, now, frame, step, alias, requestOk, depth).1.frame)
  {
    var s' := Invoke(cfg, s, now, frame, step, alias, requestOk, depth).0;
    var n := |s.calls|;
    assert s'.calls[..n] == s.calls;
    assert s'.calls[n].parent == frame.callId;
    if frame.callId.Some? {
      AncestryStable(cfg.root, s.calls, s'.calls, frame.callId.value);
      assert EntryPlaced(cfg, s.calls, frame.callId.value);
    }
    assert Ancestry(cfg.root, s'.calls, n) == frame.ancestry + [s'.calls[n].callee];
    assert Distinct(frame.ancestry);
    forall i | 0 <= i < n ensures EntryPlaced(cfg, s'.calls, i) {
      AncestryStable(cfg.root, s.calls, s'.calls, i);
      assert EntryPlaced(cfg, s.calls, i) && s'.calls[i] == s.calls[i];
      if s.calls[i].parent.Some? { assert s'.calls[s.calls[i].parent.value] == s.calls[s.calls[i].parent.value]; }
    }
  }

  /** Only an admission touches the recorded calls; completion rewrites its own ending only. */
  lemma {:induction false} ApplyKeepsTrace(cfg: Config, s: State, e: Event)
    requires TraceShaped(cfg, s)
    ensures TraceShaped(cfg, Apply(cfg, s, e).0)
    ensures s.calls <= Apply(cfg, s, e).0.calls
  {
    if Enabled(cfg, s, e) && e.InvokeEvent? && Apply(cfg, s, e).1.Admitted? {
      AdmitKeepsTrace(cfg, At(s, e.now), e.now, e.frame, e.step, e.alias, e.requestOk, e.depth);
    } else {
      assert Apply(cfg, s, e).0.calls == s.calls;
    }
  }

  lemma {:induction false} TraceKeepsShape(cfg: Config, clock: int, events: seq<Event>)
    ensures TraceShaped(cfg, After(cfg, Initial(cfg, clock), events))
  {
    if events != [] {
      TraceKeepsShape(cfg, clock, events[..|events| - 1]);
      ApplyKeepsTrace(cfg, After(cfg, Initial(cfg, clock), events[..|events| - 1]), events[|events| - 1]);
    }
  }

  /**
   * In every reachable state the trace is a forest of looked-up calls: entry `i` is attempt `i + 1` of at most
   * `maxAttempts`, at a permitted depth below its parent, and no component repeats on the path from the root. If
   * no key clashes, every entry is one of its caller step's own declarations.
   */
  lemma {:induction false} TraceIsAuthorisedForest(cfg: Config, clock: int, events: seq<Event>)
    ensures TraceShaped(cfg, After(cfg, Initial(cfg, clock), events))
    ensures KeysApart(cfg) ==> TraceOk(cfg, After(cfg, Initial(cfg, clock), events))
  {
    TraceKeepsShape(cfg, clock, events);
    if KeysApart(cfg) { ShapedIsAuthorised(cfg, After(cfg, Initial(cfg, clock), events)); }
  }

  /**
   * For the steps of the root the condition is necessary: if a foreign declaration takes effect under the key of
   * one of them, its first invocation either enters an undeclared call in the trace or fires the re-entry check.
   */
  lemma {:induction false} ClashEscapes(cfg: Config, clock: int, step: string) returns (e: Event)
    requires LimitsOk(cfg.limits) && !DeadlinePassed(cfg, clock)
    requires (cfg.root, step) in cfg.steps && !NoForeignAlias(cfg.dependencies, cfg.root, step)
    ensures e.InvokeEvent? && Enabled(cfg, Initial(cfg, clock), e)
    ensures e.alias in AliasesFor(cfg.dependencies, cfg.root, step)
    ensures var r := Apply(cfg, Initial(cfg, clock), e);
            if AliasesFor(cfg.dependencies, cfg.root, step)[e.alias] == cfg.root
            then r.1 == Raises(Dispatch(UnauthorizedCall))
            else !TraceOk(cfg, r.0)
  {
    LooksUpOwnExactly(cfg.dependencies, cfg.root, step);
    var aliases := AliasesFor(cfg.dependencies, cfg.root, step);
    var alias :| alias in aliases && Dependency(cfg.root, step, alias, aliases[alias]) !in cfg.dependencies;
    var frame := Frame(cfg.root, None, [cfg.root], 0, None);
    e := InvokeEvent(clock, frame, step, alias, true, 0);
    var r := Apply(cfg, Initial(cfg, clock), e);
    if aliases[alias] != cfg.root { assert !EntryOk(cfg, r.0.calls, 0); }
  }

  /** The path to a call is a walk along declared dependencies, one node longer than its depth. */
  lemma {:induction false} AncestryIsWalk(cfg: Config, calls: seq<CallEntry>, c: nat)
    requires c < |calls| && forall i :: 0 <= i < |calls| ==> EntryOk(cfg, calls, i)
    ensures var p := Ancestry(cfg.root, calls, c);
            && Walk(DependencyEdges(cfg.dependencies), p) && |p| == calls[c].depth + 1
            && p[0] == cfg.root && p[|p| - 1] == calls[c].callee
  {
    var E := DependencyEdges(cfg.dependencies);
    var e := calls[c];
    assert EntryOk(cfg, calls, c);
    assert (e.caller, e.callee) in E;
    match e.parent {
      case None =>
        assert [cfg.root, e.callee][1..] == [e.callee];
      case Some(p) =>
        AncestryIsWalk(cfg, calls, p);
        var path := Ancestry(cfg.root, calls, p);
        JoinWalks(E, path, [e.caller, e.callee]);
        assert [e.caller, e.callee][1..] == [e.callee];
    }
  }

  /** On an acyclic call graph where no alias key clashes, no alias a step looks up leads back into the active path. */
  lemma {:induction false} NoReentry(cfg: Config, s: State, frame: Frame, step: string, alias: string)
    requires TraceShaped(cfg, s) && FrameOk(cfg, s, frame) && Acyclic(DependencyEdges(cfg.dependencies))
    requires KeysApart(cfg) && (frame.component, step) in cfg.steps
    requires alias in AliasesFor(cfg.dependencies, frame.component, step)
    ensures AliasesFor(cfg.dependencies, frame.component, step)[alias] !in frame.ancestry
  {
    var E := DependencyEdges(cfg.dependencies);
    var callee := AliasesFor(cfg.dependencies, frame.component, step)[alias];
    AliasIsDeclared(cfg, frame.component, step, alias);
    ShapedIsAuthorised(cfg, s);
    assert (frame.component, callee) in E;
    if frame.callId.Some? { AncestryIsWalk(cfg, s.calls, frame.callId.value); }
    var path := frame.ancestry;
    if callee in path {
      var k :| 0 <= k < |path| && path[k] == callee;
      WalkSuffix(E, path, k);
      assert WalkBetween(E, callee, frame.component, path[k..]);
      BackEdgeCycle(E, callee, frame.component);
    }
  }

  /**
   * On an acyclic call graph whose keys are apart the runtime's re-entry check never fires: the only security
   * failure an enabled invocation can raise is an alias its step does not declare.
   */
  lemma {:induction false} ReentryBranchUnreachable(cfg: Config, clock: int, events: seq<Event>, e: Event)
    requires Acyclic(DependencyEdges(cfg.dependencies)) && KeysApart(cfg) && e.InvokeEvent?
    requires Enabled(cfg, After(cfg, Initial(cfg, clock), events), e)
    ensures Apply(cfg, After(cfg, Initial(cfg, clock), events), e).1 == Raises(Dispatch(UnauthorizedCall))
            ==> e.alias !in AliasesFor(cfg.dependencies, e.frame.component, e.step)
  {
    var s := After(cfg, Initial(cfg, clock), events);
    TraceIsAuthorisedForest(cfg, clock, events);
    if e.alias in AliasesFor(cfg.dependencies, e.frame.component, e.step) {
      NoReentry(cfg, s, e.frame, e.step, e.alias);
    }
  }

  // ---- cancellation --------------------------------------------------------------------------

  predicate ClockOk(s: State) {
    s.cancelledAt.Some? ==> s.cancelledAt.value <= s.clock
  }

  /** What one event does to a cancelled run. */
  predicate StaysCancelled(s: State, e: Event, s': State, reply: Reply) {
    && s'.cancelledAt == s.cancelledAt && s'.calls == s.calls && s'.attempts == s.attempts
    && (e.InvokeEvent? ==> s' == s.(clock := s'.clock))
    && (e.InvokeEvent? || e.CheckEvent? ==> reply.Done? || reply == Raises(Dispatch(Cancelled)))
    && (e.FinishEvent? && reply.Delivered? ==>
          && reply == Delivered(ResultError(CancelledCode))
          && e.call < |s'.ends| && s'.ends[e.call].status.LateDiscarded?)
  }

  lemma {:induction false} CancelledStep(cfg: Config, s: State, e: Event)
    requires s.cancelledAt.Some? && ClockOk(s)
    ensures StaysCancelled(s, e, Apply(cfg, s, e).0, Apply(cfg, s, e).1) && ClockOk(Apply(cfg, s, e).0)
    ensures Enabled(cfg, s, e) && (e.InvokeEvent? || e.CheckEvent?) ==>
        Apply(cfg, s, e).1 == Raises(Dispatch(Cancelled))
  {
  }

  lemma {:induction false} ClockNeverAhead(cfg: Config, clock: int, events: seq<Event>)
    ensures ClockOk(After(cfg, Initial(cfg, clock), events))
  {
    if events != [] { ClockNeverAhead(cfg, clock, events[..|events| - 1]); }
  }

  /**
   * Cancellation is absorbing. From the moment the flag is set it never changes, no invocation
   * adds a trace entry or takes turns or attempts, every check throws, and every call that
   * finishes is discarded as late and yields the cancelled error, through any further events.
   */
  lemma {:induction false} CancellationIsAbsorbing(cfg: Config, s: State, events: seq<Event>, k: nat)
    requires s.cancelledAt.Some? && ClockOk(s) && k < |events|
    ensures var before := After(cfg, s, events[..k]);
            && before.cancelledAt == s.cancelledAt && before.calls == s.calls && before.attempts == s.attempts
            && ClockOk(before)
            && StaysCancelled(before, events[k], Apply(cfg, before, events[k]).0, Apply(cfg, before, events[k]).1)
  {
    if k > 0 {
      CancellationIsAbsorbing(cfg, s, events, k - 1);
      assert events[..k][..k - 1] == events[..k - 1];
    }
    CancelledStep(cfg, After(cfg, s, events[..k]), events[k]);
  }

  // ---- what a nested stretch of a run may change ---------------------------------------------

  /** The account is untouched, or only drawn down by its own frame. */
  predicate SameAccount(a: Reservation, b: Reservation, own: bool) {
    if own then a.open == b.open && a.owner == b.owner else a == b
  }

  /**
   * Between `s` and `s'` the trace only grew, cancellation stayed, every reservation entered in
   * between was refunded, and of the earlier ones at most `mine` was drawn on.
   */
  predicate Progress(s: State, s': State, mine: Option<nat>) {
    && s.calls <= s'.calls && s.attempts <= s'.attempts && s.clock <= s'.clock
    && (s.cancelledAt.Some? ==> s'.cancelledAt == s.cancelledAt)
    && |s.reservations| <= |s'.reservations|
    && (forall r :: 0 <= r < |s.reservations| ==> SameAccount(s.reservations[r], s'.reservations[r], mine == Some(r)))
    && (forall r :: |s.reservations| <= r < |s'.reservations| ==> !s'.reservations[r].open)
  }

  lemma {:induction false} ProgressTransitive(a: State, b: State, c: State, mine: Option<nat>)
    requires Progress(a, b, mine) && Progress(b, c, mine)
    requires mine.Some? ==> mine.value < |a.reservations|
    ensures Progress(a, c, mine)
  {
    forall r | 0 <= r < |a.reservations| ensures SameAccount(a.reservations[r], c.reservations[r], mine == Some(r)) {
      assert SameAccount(a.reservations[r], b.reservations[r], mine == Some(r));
      assert SameAccount(b.reservations[r], c.reservations[r], mine == Some(r));
    }
    forall r | |a.reservations| <= r < |c.reservations| ensures !c.reservations[r].open {
      if r < |b.reservations| { assert SameAccount(b.reservations[r], c.reservations[r], mine == Some(r)); }
    }
  }

  /** A stretch that touches no earlier account may run inside any frame. */
  lemma {:induction false} ProgressWeakens(s: State, s': State, mine: Option<nat>)
    requires Progress(s, s', None)
    ensures Progress(s, s', mine)
  {
    forall r | 0 <= r < |s.reservations| ensures SameAccount(s.reservations[r], s'.reservations[r], mine == Some(r)) {
      assert SameAccount(s.reservations[r], s'.reservations[r], false);
    }
  }

  lemma {:induction false} CheckProgresses(cfg: Config, s: State, now: int)
    requires now >= s.clock
    ensures Progress(s, Apply(cfg, s, CheckEvent(now)).0, None) && Progress(s, Apply(cfg, s, CancelEvent(now)).0, None)
  {
  }

  /** A refused invocation opens nothing; an admitted one opens exactly the child's account. */
  lemma {:induction false} AdmitEffect(cfg: Config, s: State, e: Event)
    requires e.InvokeEvent? && Enabled(cfg, s, e) && TraceShaped(cfg, s)
    ensures var r := Apply(cfg, s, e);
            && (r.1.Raises? || r.1.Delivered? || r.1.Admitted?)
            && (r.1.Raises? ==> r.0.cancelledAt.Some?)
            && (!r.1.Admitted? ==> Progress(s, r.0, None) && r.0.calls == s.calls && r.0.attempts == s.attempts)
            && (r.1.Admitted? ==>
                  && r.1.frame.reservation == Some(|s.reservations|) && r.1.frame.callId == Some(|s.calls|)
                  && r.1.frame.depth == e.frame.depth + 1 <= cfg.limits.maxDepth && FrameOk(cfg, r.0, r.1.frame)
                  && r.0.attempts == s.attempts + 1 && |s.calls| < |r.0.calls| && Opens(s, r.0)
                  && r.0.reservations[|s.reservations|].owner == Some(|s.calls|))
            && (s.cancelledAt.Some? ==> r.1 == Raises(Dispatch(Cancelled)) && r.0 == s.(clock := r.0.clock))
  {
    if Apply(cfg, s, e).1.Admitted? {
      AdmitKeepsTrace(cfg, At(s, e.now), e.now, e.frame, e.step, e.alias, e.requestOk, e.depth);
    }
  }

  lemma {:induction false} ChargeProgresses(cfg: Config, s: State, r: nat, telemetry: Telemetry)
    requires Open(s, Some(r))
    ensures Progress(s, Apply(cfg, s, ChargeEvent(Some(r), telemetry)).0, Some(r))
  {
  }

  /** From `s` to `s'` exactly one account was opened, at the end of the list, and the trace only grew. */
  predicate Opens(s: State, s': State) {
    && s.calls <= s'.calls && s.attempts <= s'.attempts && s.clock <= s'.clock
    && (s.cancelledAt.Some? ==> s'.cancelledAt == s.cancelledAt)
    && |s'.reservations| == |s.reservations| + 1
    && (forall r :: 0 <= r < |s.reservations| ==> s'.reservations[r] == s.reservations[r])
    && s'.reservations[|s.reservations|].open
  }

  /** From `s` to `s'` account `r` was refunded and closed, and nothing else but endings and clock moved. */
  predicate Closing(s: State, s': State, r: nat) {
    && s'.calls == s.calls && s'.attempts == s.attempts && s'.cancelledAt == s.cancelledAt && s.clock <= s'.clock
    && r < |s.reservations| && s'.reservations == s.reservations[r := s.reservations[r].(open := false)]
  }

  /** Opening an account, a stretch that draws on it, and its refund, seen from outside. */
  lemma {:induction false} BracketProgresses(s: State, entered: State, used: State, closed: State)
    requires Opens(s, entered) && Progress(entered, used, Some(|s.reservations|))
        && Closing(used, closed, |s.reservations|)
    ensures Progress(s, closed, None)
  {
    var n := |s.reservations|;
    forall r | 0 <= r < n ensures SameAccount(s.reservations[r], closed.reservations[r], false) {
      assert SameAccount(entered.reservations[r], used.reservations[r], Some(n) == Some(r));
    }
  }

  /** An account a stretch does not own, or owns, is still open after it. */
  lemma {:induction false} AccountSurvives(s: State, s': State, mine: Option<nat>, r: nat)
    requires Progress(s, s', mine) && Open(s, Some(r))
    ensures Open(s', Some(r)) && s'.reservations[r].owner == s.reservations[r].owner
    ensures mine != Some(r) ==> s'.reservations[r] == s.reservations[r]
  {
    assert SameAccount(s.reservations[r], s'.reservations[r], mine == Some(r));
  }

  /** Frames outlive everything the run does later. */
  lemma {:induction false} FrameStable(cfg: Config, s: State, s': State, frame: Frame)
    requires FrameOk(cfg, s, frame) && s.calls <= s'.calls
    ensures FrameOk(cfg, s', frame)
  {
    if frame.callId.Some? { AncestryStable(cfg.root, s.calls, s'.calls, frame.callId.value); }
  }
}
