/**
 * The hierarchical reservation never starves the first nested chain: what `reserveRootStep` leaves
 * in the pool, and what each admission leaves behind, is enough for every call further down.
 */
module ReservationChain {
  import opened AliasTable
  import opened Prelude
  import opened Graphs
  import opened ClosureProperties
  import opened Ledger
  import opened LedgerProperties

  /**
   * One nested call: what happens in its component before it, the step that makes it, the alias it uses, and
   * the clock reading it is made at.
   */
  datatype Link = Link(before: seq<Event>, step: string, alias: string, now: int)

  datatype Descent = Descent(grants: seq<int>, refused: bool)

  function Callee(cfg: Config, component: string, link: Link): Option<string> {
    var aliases := AliasesFor(cfg.dependencies, component, link.step);
    if link.alias in aliases then Some(aliases[link.alias]) else None
  }

  /** Each link is a call looked up by a prepared step of the component the previous link reached. */
  predicate Authorised(cfg: Config, component: string, links: seq<Link>)
    decreases |links|
  {
    links == [] ||
    (&& (component, links[0].step) in cfg.steps && Callee(cfg, component, links[0]).Some?
     && Authorised(cfg, Callee(cfg, component, links[0]).value, links[1..]))
  }

  function LinkEvent(cfg: Config, frame: Frame, link: Link, depthOf: string -> nat): Event {
    var callee := Callee(cfg, frame.component, link);
    InvokeEvent(link.now, frame, link.step, link.alias, true, if callee.Some? then depthOf(callee.value) else 0)
  }

  /** Invokes the links one inside the other, collecting the turns each admission reserves. */
  function Descend(cfg: Config, s: State, frame: Frame, links: seq<Link>, depthOf: string -> nat): Descent
    decreases |links|
  {
    if links == [] then Descent([], false)
    else
      var reached := After(cfg, s, links[0].before);
      var r := Apply(cfg, reached, LinkEvent(cfg, frame, links[0], depthOf));
      if r.1.Admitted? then
        var rest := Descend(cfg, r.0, r.1.frame, links[1..], depthOf);
        Descent([reached.available - r.0.available] + rest.grants, rest.refused)
      else Descent([], true)
  }

  ghost predicate ExactDepths(cfg: Config, depthOf: string -> nat) {
    forall id :: IsLongest(DependencyEdges(cfg.dependencies), id, depthOf(id))
  }

  /** The pool, the attempts and the cancellation flag are as they were. */
  predicate Quiet(s: State, s': State) {
    s'.available == s.available && s'.attempts == s.attempts && s'.cancelledAt == s.cancelledAt
  }

  /** Whatever happens before each link leaves those three alone, and each link is made before the deadline. */
  predicate Undisturbed(cfg: Config, s: State, frame: Frame, links: seq<Link>, depthOf: string -> nat)
    decreases |links|
  {
    links == [] ||
    (var reached := After(cfg, s, links[0].before);
     && Quiet(s, reached) && links[0].now >= reached.clock && !DeadlinePassed(cfg, links[0].now)
     && var r := Apply(cfg, reached, LinkEvent(cfg, frame, links[0], depthOf));
        r.1.Admitted? ==> Undisturbed(cfg, r.0, r.1.frame, links[1..], depthOf))
  }

  /** A component's cancellation checks before the deadline, and charges on its own account, are such events. */
  predicate ChecksAndCharges(cfg: Config, events: seq<Event>) {
    forall i :: 0 <= i < |events| ==>
      || (events[i].CheckEvent? && !DeadlinePassed(cfg, events[i].now))
      || (events[i].ChargeEvent? && events[i].account.Some?)
  }

  lemma {:induction false} ChecksAndChargesAreQuiet(cfg: Config, s: State, events: seq<Event>)
    requires s.cancelledAt.None? && ChecksAndCharges(cfg, events)
    ensures Quiet(s, After(cfg, s, events))
  {
    if events != [] { ChecksAndChargesAreQuiet(cfg, s, events[..|events| - 1]); }
  }

  /** The state admits calls at all: not cancelled, within depth and attempts. */
  predicate Admits(cfg: Config, s: State, frame: Frame, count: nat) {
    && s.cancelledAt.None?
    && FrameOk(cfg, s, frame)
    && frame.depth + count <= cfg.limits.maxDepth
    && s.attempts + count <= cfg.limits.maxAttempts
  }

  /** Events only extend the trace, so a frame stays where it was. */
  lemma {:induction false} EventsKeepTrace(cfg: Config, s: State, events: seq<Event>)
    requires TraceShaped(cfg, s)
    ensures TraceShaped(cfg, After(cfg, s, events)) && s.calls <= After(cfg, s, events).calls
  {
    if events != [] {
      EventsKeepTrace(cfg, s, events[..|events| - 1]);
      ApplyKeepsTrace(cfg, After(cfg, s, events[..|events| - 1]), events[|events| - 1]);
    }
  }

  /** An authorised chain is a walk. */
  lemma {:induction false} ChainHasWalk(cfg: Config, component: string, links: seq<Link>, E: set<(string, string)>,
                                        k: nat)
    requires Authorised(cfg, component, links) && KeysApart(cfg) && E == DependencyEdges(cfg.dependencies)
    requires k == |links|
    ensures HasWalk(E, component, k)
    decreases k
  {
    if links != [] {
      var callee := FirstLinkEdge(cfg, component, links);
      ChainHasWalk(cfg, callee, links[1..], E, k - 1);
    }
  }

  lemma {:induction false} WalkBelowLongest(E: set<(string, string)>, b: string, d: nat, k: nat)
    requires IsLongest(E, b, d) && HasWalk(E, b, k)
    ensures k <= d
  {
    if d < k { ShorterWalk(E, b, d + 1, k); }
  }

  /** The longest walk bounds every chain. */
  lemma {:induction false} ChainBelowLongest(cfg: Config, b: string, rest: seq<Link>, E: set<(string, string)>, d: nat)
    requires Authorised(cfg, b, rest) && KeysApart(cfg) && E == DependencyEdges(cfg.dependencies) && IsLongest(E, b, d)
    ensures |rest| <= d
  {
    ChainHasWalk(cfg, b, rest, E, |rest|);
    WalkBelowLongest(E, b, d, |rest|);
  }

  lemma {:induction false} RestAuthorised(cfg: Config, component: string, links: seq<Link>)
    requires links != [] && Authorised(cfg, component, links)
    ensures Callee(cfg, component, links[0]).Some? && (component, links[0].step) in cfg.steps
    ensures Authorised(cfg, Callee(cfg, component, links[0]).value, links[1..])
  {
  }

  /** The first link is an edge, from whose end the others go on. */
  lemma {:induction false} FirstLinkEdge(cfg: Config, component: string, links: seq<Link>) returns (callee: string)
    requires links != [] && Authorised(cfg, component, links) && KeysApart(cfg)
    ensures Callee(cfg, component, links[0]) == Some(callee) && Authorised(cfg, callee, links[1..])
    ensures (component, callee) in DependencyEdges(cfg.dependencies)
  {
    RestAuthorised(cfg, component, links);
    callee := Callee(cfg, component, links[0]).value;
    AliasIsDeclared(cfg, component, links[0].step, links[0].alias);
  }

  /** Along an edge the longest walk gets shorter. */
  lemma {:induction false} ExactAlongEdge(cfg: Config, a: string, b: string, depthOf: string -> nat)
    requires ExactDepths(cfg, depthOf) && (a, b) in DependencyEdges(cfg.dependencies)
    ensures depthOf(b) < depthOf(a)
  {
    DepthFallsAlongEdge(DependencyEdges(cfg.dependencies), a, b, depthOf(a), depthOf(b));
  }

  lemma {:induction false} ExactAboveChain(cfg: Config, b: string, rest: seq<Link>, depthOf: string -> nat)
    requires ExactDepths(cfg, depthOf) && Authorised(cfg, b, rest) && KeysApart(cfg)
    ensures |rest| <= depthOf(b)
  {
    ChainBelowLongest(cfg, b, rest, DependencyEdges(cfg.dependencies), depthOf(b));
  }

  /** Depth of the callee: at least the calls still to come, and one less than its caller's. */
  lemma {:induction false} CalleeDepth(cfg: Config, component: string, links: seq<Link>, depthOf: string -> nat)
    requires links != [] && Authorised(cfg, component, links) && ExactDepths(cfg, depthOf) && KeysApart(cfg)
    ensures var callee := Callee(cfg, component, links[0]).value;
            |links| - 1 <= depthOf(callee) < depthOf(component)
  {
    var callee := FirstLinkEdge(cfg, component, links);
    ExactAboveChain(cfg, callee, links[1..], depthOf);
    ExactAlongEdge(cfg, component, callee, depthOf);
  }

  /** A pool of `p` turns, `p >= count`, grants at least one and leaves at least `count - 1`. */
  lemma {:induction false} OneStepFloor(m: int, depth: int, p: int, count: int)
    requires m >= 1 && count >= 1 && depth >= count - 1 && p >= count
    ensures var grant := Min(p - Min(depth * m, Max(0, p - 1)), m);
            grant >= 1 && p - grant >= count - 1
  {
    assert depth * m >= count - 1 by {
      assert depth * m >= depth * 1;
    }
  }

  /** A pool of at least `(depth + 1) * m` grants exactly `m`. */
  lemma {:induction false} OneStepFull(m: int, depth: int, p: int)
    requires m >= 1 && depth >= 0 && p >= (depth + 1) * m
    ensures Min(p - Min(depth * m, Max(0, p - 1)), m) == m && p - m >= depth * m
  {
    assert (depth + 1) * m == depth * m + m && depth * m >= 0;
  }

  /** What happens before a link leaves everything its admission depends on as it was. */
  lemma {:induction false} ReachesLink(cfg: Config, s: State, frame: Frame, links: seq<Link>, depthOf: string -> nat)
    returns (reached: State)
    requires TraceShaped(cfg, s) && links != [] && Admits(cfg, s, frame, |links|)
    requires Undisturbed(cfg, s, frame, links, depthOf)
    ensures reached == After(cfg, s, links[0].before) && reached.available == s.available
    ensures TraceShaped(cfg, reached) && Admits(cfg, reached, frame, |links|)
    ensures links[0].now >= reached.clock && !DeadlinePassed(cfg, links[0].now)
  {
    reached := After(cfg, s, links[0].before);
    EventsKeepTrace(cfg, s, links[0].before);
    FrameStable(cfg, s, reached, frame);
  }

  /** An admitted first link, and the rest of the chain from there. */
  lemma {:induction false} DescendsThrough(cfg: Config, s: State, frame: Frame, links: seq<Link>,
                                           depthOf: string -> nat, reached: State)
    requires links != [] && reached == After(cfg, s, links[0].before)
    requires Apply(cfg, reached, LinkEvent(cfg, frame, links[0], depthOf)).1.Admitted?
    ensures var r := Apply(cfg, reached, LinkEvent(cfg, frame, links[0], depthOf));
            var rest := Descend(cfg, r.0, r.1.frame, links[1..], depthOf);
            && Descend(cfg, s, frame, links, depthOf)
               == Descent([reached.available - r.0.available] + rest.grants, rest.refused)
            && (Undisturbed(cfg, s, frame, links, depthOf) ==>
                  Undisturbed(cfg, r.0, r.1.frame, links[1..], depthOf))
  {
  }

  /** The state a link is made in admits it. */
  lemma {:induction false} LinkAdmitted(cfg: Config, reached: State, frame: Frame, links: seq<Link>,
                                        depthOf: string -> nat)
    requires LimitsOk(cfg.limits) && TraceShaped(cfg, reached) && Acyclic(DependencyEdges(cfg.dependencies))
    requires KeysApart(cfg) && links != [] && Admits(cfg, reached, frame, |links|)
    requires Authorised(cfg, frame.component, links)
    requires reached.available >= |links| && ExactDepths(cfg, depthOf)
    requires links[0].now >= reached.clock && !DeadlinePassed(cfg, links[0].now)
    ensures var r := Apply(cfg, reached, LinkEvent(cfg, frame, links[0], depthOf));
            var callee := Callee(cfg, frame.component, links[0]).value;
            && r.1.Admitted? && r.1.frame.component == callee
            && TraceShaped(cfg, r.0) && Admits(cfg, r.0, r.1.frame, |links| - 1)
            && reached.available - r.0.available == Allowance(cfg, reached, depthOf(callee)) >= 1
            && r.0.available >= |links| - 1
  {
    var link := links[0];
    var callee := Callee(cfg, frame.component, link).value;
    CalleeDepth(cfg, frame.component, links, depthOf);
    NoReentry(cfg, reached, frame, link.step, link.alias);
    OneStepFloor(cfg.limits.maxTurnsPerChild, depthOf(callee), reached.available, |links|);
    AdmitKeepsTrace(cfg, At(reached, link.now), link.now, frame, link.step, link.alias, true, depthOf(callee));
  }

  /** One admission on the chain: the callee's frame, what it was granted, and what is left. */
  lemma {:induction false} AdmitsNext(cfg: Config, s: State, frame: Frame, links: seq<Link>, depthOf: string -> nat)
    returns (next: State, child: Frame)
    requires LimitsOk(cfg.limits) && TraceShaped(cfg, s) && Acyclic(DependencyEdges(cfg.dependencies)) && KeysApart(cfg)
    requires links != [] && Admits(cfg, s, frame, |links|) && Authorised(cfg, frame.component, links)
    requires s.available >= |links| && ExactDepths(cfg, depthOf) && Undisturbed(cfg, s, frame, links, depthOf)
    ensures var callee := Callee(cfg, frame.component, links[0]).value;
            && child.component == callee && TraceShaped(cfg, next) && Admits(cfg, next, child, |links| - 1)
            && s.available - next.available == Allowance(cfg, s, depthOf(callee)) >= 1
            && next.available >= |links| - 1 && Undisturbed(cfg, next, child, links[1..], depthOf)
    ensures var rest := Descend(cfg, next, child, links[1..], depthOf);
            Descend(cfg, s, frame, links, depthOf)
            == Descent([s.available - next.available] + rest.grants, rest.refused)
  {
    var reached := ReachesLink(cfg, s, frame, links, depthOf);
    LinkAdmitted(cfg, reached, frame, links, depthOf);
    DescendsThrough(cfg, s, frame, links, depthOf, reached);
    var r := Apply(cfg, reached, LinkEvent(cfg, frame, links[0], depthOf));
    next, child := r.0, r.1.frame;
  }

  /** A full allowance per level below `component` covers its next callee and everything below that. */
  lemma {:induction false} NextLevelFunded(cfg: Config, s: State, component: string, links: seq<Link>,
                                           depthOf: string -> nat)
    requires Authorised(cfg, component, links) && ExactDepths(cfg, depthOf) && KeysApart(cfg)
    requires s.available >= depthOf(component) * cfg.limits.maxTurnsPerChild
    ensures Funded(cfg, s, component, links, depthOf)
  {
    if links != [] {
      CalleeDepth(cfg, component, links, depthOf);
      MulMonotone(depthOf(Callee(cfg, component, links[0]).value) + 1, depthOf(component), cfg.limits.maxTurnsPerChild);
    }
  }

  /** From a pool of at least one turn per link, every call on the chain is admitted. */
  lemma {:induction false} ChainAdmitted(cfg: Config, s: State, frame: Frame, links: seq<Link>, depthOf: string -> nat)
    requires LimitsOk(cfg.limits) && TraceShaped(cfg, s) && Acyclic(DependencyEdges(cfg.dependencies)) && KeysApart(cfg)
    requires Admits(cfg, s, frame, |links|) && Authorised(cfg, frame.component, links)
    requires s.available >= |links| && ExactDepths(cfg, depthOf) && Undisturbed(cfg, s, frame, links, depthOf)
    ensures var d := Descend(cfg, s, frame, links, depthOf);
            !d.refused && |d.grants| == |links| && forall i :: 0 <= i < |links| ==> d.grants[i] >= 1
    decreases |links|
  {
    if links != [] {
      var next, child := AdmitsNext(cfg, s, frame, links, depthOf);
      ChainAdmitted(cfg, next, child, links[1..], depthOf);
    }
  }

  /** A funded admission grants the full allowance and leaves the next one funded. */
  lemma {:induction false} StaysFunded(cfg: Config, s: State, next: State, component: string, links: seq<Link>,
                                       depthOf: string -> nat)
    requires LimitsOk(cfg.limits) && links != [] && Authorised(cfg, component, links) && ExactDepths(cfg, depthOf)
    requires KeysApart(cfg)
    requires Funded(cfg, s, component, links, depthOf)
    requires s.available - next.available == Allowance(cfg, s, depthOf(Callee(cfg, component, links[0]).value))
    ensures s.available - next.available == cfg.limits.maxTurnsPerChild
    ensures Funded(cfg, next, Callee(cfg, component, links[0]).value, links[1..], depthOf)
  {
    var callee := Callee(cfg, component, links[0]).value;
    OneStepFull(cfg.limits.maxTurnsPerChild, depthOf(callee), s.available);
    NextLevelFunded(cfg, next, callee, links[1..], depthOf);
  }

  /** From a pool of a full allowance per level, every call on the chain gets the full allowance. */
  lemma {:induction false} ChainFullyFunded(cfg: Config, s: State, frame: Frame, links: seq<Link>,
                                            depthOf: string -> nat)
    requires LimitsOk(cfg.limits) && TraceShaped(cfg, s) && Acyclic(DependencyEdges(cfg.dependencies)) && KeysApart(cfg)
    requires Admits(cfg, s, frame, |links|) && Authorised(cfg, frame.component, links)
    requires s.available >= |links| && ExactDepths(cfg, depthOf) && Undisturbed(cfg, s, frame, links, depthOf)
    requires Funded(cfg, s, frame.component, links, depthOf)
    ensures forall g :: g in Descend(cfg, s, frame, links, depthOf).grants ==> g == cfg.limits.maxTurnsPerChild
    decreases |links|
  {
    if links != [] {
      var next, child := AdmitsNext(cfg, s, frame, links, depthOf);
      StaysFunded(cfg, s, next, frame.component, links, depthOf);
      ChainFullyFunded(cfg, next, child, links[1..], depthOf);
    }
  }

  /** The pool holds a full allowance for the next callee and for every level below it. */
  predicate Funded(cfg: Config, s: State, component: string, links: seq<Link>, depthOf: string -> nat)
    requires Authorised(cfg, component, links)
  {
    links != [] ==> s.available >= (depthOf(Callee(cfg, component, links[0]).value) + 1) * cfg.limits.maxTurnsPerChild
  }

  lemma {:induction false} MulMonotone(a: int, b: int, m: int)
    requires a <= b && m >= 0
    ensures a * m <= b * m
  {
  }

  /** `depth` is the most levels the aliases of one root step can open. */
  predicate IsStepDepth(cfg: Config, component: string, step: string, depthOf: string -> nat, depth: nat) {
    var aliases := AliasesFor(cfg.dependencies, component, step);
    && (forall a :: a in aliases ==> 1 + depthOf(aliases[a]) <= depth)
    && (depth > 0 ==> exists a :: a in aliases && 1 + depthOf(aliases[a]) == depth)
  }

  /** What `reserveRootStep` leaves for descendants, and that it changes nothing else that matters here. */
  lemma {:induction false} RootStepLeaves(cfg: Config, s: State, frame: Frame, count: nat, depth: nat)
    returns (entered: State)
    requires LimitsOk(cfg.limits) && TraceShaped(cfg, s) && Admits(cfg, s, frame, count)
    requires s.available >= count + 1 && depth >= count
    ensures Apply(cfg, s, ReserveEvent(depth)) == (entered, Reserved(|s.reservations|))
    ensures TraceShaped(cfg, entered) && Admits(cfg, entered, frame, count)
    ensures entered.available == Min(depth * cfg.limits.maxTurnsPerChild, s.available - 1) >= count
  {
    ApplyKeepsTrace(cfg, s, ReserveEvent(depth));
    entered := Apply(cfg, s, ReserveEvent(depth)).0;
    assert depth * cfg.limits.maxTurnsPerChild >= depth * 1;
  }

  /**
   * Entering a root step with one turn more than the chain is long lets every call of the first nested chain be
   * admitted with at least one turn; entering it with `maxTurnsPerChild` turns per level and one more gives every
   * call on the chain exactly `maxTurnsPerChild`. Before each call anything may happen that leaves the pool, the
   * attempts and the cancellation flag alone.
   */
  lemma {:induction false} FirstChainNeverStarves(cfg: Config, s: State, frame: Frame, links: seq<Link>,
                                                  depthOf: string -> nat, depth: nat)
    requires LimitsOk(cfg.limits) && TraceShaped(cfg, s) && Acyclic(DependencyEdges(cfg.dependencies)) && KeysApart(cfg)
    requires links != [] && frame.callId.None? && Admits(cfg, s, frame, |links|)
    requires Authorised(cfg, frame.component, links) && ExactDepths(cfg, depthOf)
    requires IsStepDepth(cfg, frame.component, links[0].step, depthOf, depth)
    requires s.available >= |links| + 1
    requires Undisturbed(cfg, Apply(cfg, s, ReserveEvent(depth)).0, frame, links, depthOf)
    ensures var entered := Apply(cfg, s, ReserveEvent(depth));
            var d := Descend(cfg, entered.0, frame, links, depthOf);
            && entered.1.Reserved?
            && !d.refused && |d.grants| == |links| && (forall i :: 0 <= i < |links| ==> d.grants[i] >= 1)
            && (s.available >= depth * cfg.limits.maxTurnsPerChild + 1 ==>
                  forall g :: g in d.grants ==> g == cfg.limits.maxTurnsPerChild)
  {
    StepDepthCovers(cfg, frame.component, links, depthOf, depth);
    var entered := RootStepLeaves(cfg, s, frame, |links|, depth);
    ChainAdmitted(cfg, entered, frame, links, depthOf);
    if s.available >= depth * cfg.limits.maxTurnsPerChild + 1 {
      RootStepFunds(cfg, entered, frame.component, links, depthOf, depth);
      ChainFullyFunded(cfg, entered, frame, links, depthOf);
    }
  }

  lemma {:induction false} StepDepthCovers(cfg: Config, component: string, links: seq<Link>,
                                           depthOf: string -> nat, depth: nat)
    requires links != [] && Authorised(cfg, component, links) && ExactDepths(cfg, depthOf) && KeysApart(cfg)
    requires IsStepDepth(cfg, component, links[0].step, depthOf, depth)
    ensures depthOf(Callee(cfg, component, links[0]).value) + 1 <= depth && |links| <= depth
  {
    CalleeDepth(cfg, component, links, depthOf);
  }

  lemma {:induction false} RootStepFunds(cfg: Config, s: State, component: string, links: seq<Link>,
                                         depthOf: string -> nat, depth: nat)
    requires links != [] && Authorised(cfg, component, links)
    requires depthOf(Callee(cfg, component, links[0]).value) + 1 <= depth
    requires s.available >= depth * cfg.limits.maxTurnsPerChild
    ensures Funded(cfg, s, component, links, depthOf)
  {
    MulMonotone(depthOf(Callee(cfg, component, links[0]).value) + 1, depth, cfg.limits.maxTurnsPerChild);
  }
}
