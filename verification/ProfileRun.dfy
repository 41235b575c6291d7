/**
 * The three programs in a row: a profile the compiler accepts is closed by the dispatcher and executed by the
 * runtime (core/src/compile.rs, `compile`; dispatcher/claude-agent-sdk/src/closure.ts and componentInvocation.ts).
 */
module ProfileRun {
  import opened AliasTable
  import opened Prelude
  import opened Graphs
  import opened Profile
  import opened Composition
  import opened Closure
  import opened ClosureProperties
  import opened CheckAgreement
  import opened Conditional
  import opened StepChecks
  import opened StepExecution
  import opened StepReports
  import opened StepTurns
  import opened Ledger
  import LedgerRules
  import opened LedgerProperties
  import opened InvocationRuntime

  // ---- compiling -----------------------------------------------------------------------------

  predicate StepsAccepted(mounts: seq<Mount>, components: map<string, ComponentFile>) {
    forall i :: 0 <= i < |mounts| ==> mounts[i].useId in components && Accepted(components[mounts[i].useId].steps)
  }

  /** The component files are loaded under their own ids. */
  predicate FiledById(components: map<string, ComponentFile>) {
    forall id :: id in components ==> components[id].id == id
  }

  /** The node of a mount: under its own id, open to entry as the mount says, with its component's steps. */
  ghost predicate EmittedAs(mount: Mount, component: ComponentFile, node: ComponentNode) {
    && node.id == mount.useId && node.entrypoint == mount.entrypoint && node.steps == component.steps
    && (forall c :: c in node.requiredCapabilities <==>
          c in component.requiredCapabilities
          || (c == "component_invocation" && exists s :: 0 <= s < |component.steps| && component.steps[s].calls != []))
  }

  /** The checks of `compile` that concern calls and steps, and the document it emits. */
  method CompileProfile(mounts: seq<Mount>, components: map<string, ComponentFile>)
    returns (r: Option<seq<ComponentNode>>)
    requires FiledById(components)
    ensures r.Some? <==> ComposesSafely(mounts, components) && StepsAccepted(mounts, components)
    ensures r.Some? ==> Compilable(mounts, components) && r.value == CompiledNodes(mounts, components)
    ensures r.Some? ==> |r.value| == |mounts| && forall i :: 0 <= i < |mounts| ==>
        EmittedAs(mounts[i], components[mounts[i].useId], r.value[i])
  {
    var composed := CheckComponentComposition(mounts, components);
    if composed.Fail? { return None; }
    var i := 0;
    while i < |mounts|
      invariant 0 <= i <= |mounts|
      invariant forall j :: 0 <= j < i ==> Accepted(components[mounts[j].useId].steps)
    {
      assert MountOk(UseIds(mounts), mounts[i].useId, components);
      var steps := components[mounts[i].useId].steps;
      var guards := CheckWhenGuards(steps);
      if guards.Fail? { return None; }
      var dataflow := CheckStepDataflow(steps);
      if dataflow.Fail? { return None; }
      i := i + 1;
    }
    r := Some(CompiledNodes(mounts, components));
  }

  // ---- preparing -----------------------------------------------------------------------------

  /** The components the runtime is given: the requested entries and every callee. */
  function Prepared(plan: ClosurePlan): seq<ComponentNode> { plan.roots + plan.callees }

  /** Those components by id, each with its own steps. */
  function PreparedSteps(plan: ClosurePlan, components: map<string, ComponentFile>): map<string, seq<LlmStep>> {
    map id | id in Ids(Prepared(plan)) && id in components :: components[id].steps
  }

  ghost function MostSteps(nodes: seq<ComponentNode>): (most: nat)
    ensures forall n :: n in nodes ==> |n.steps| <= most
    ensures most == 0 || exists n :: n in nodes && |n.steps| == most
  {
    if nodes == [] then 0
    else
      assert nodes == [nodes[0]] + nodes[1..];
      Max(|nodes[0].steps|, MostSteps(nodes[1..]))
  }

  /** The ids of a list are exactly those of its nodes. */
  lemma {:induction false} IdsOfNodes(nodes: seq<ComponentNode>)
    ensures forall n :: n in nodes ==> n.id in Ids(nodes)
    ensures forall id :: id in Ids(nodes) ==> exists n :: n in nodes && n.id == id
  {
    forall n | n in nodes ensures n.id in Ids(nodes) {
      var k :| 0 <= k < |nodes| && nodes[k] == n;
      assert Ids(nodes)[k] == n.id;
    }
    forall id | id in Ids(nodes) ensures exists n :: n in nodes && n.id == id {
      var k :| 0 <= k < |nodes| && Ids(nodes)[k] == id;
      assert nodes[k] in nodes;
    }
  }

  lemma {:induction false} RootsOfPlan(nodes: seq<ComponentNode>, roots: seq<string>)
    requires Preflight(nodes, roots) && Closes(nodes, roots)
    requires forall i :: 0 <= i < |roots| ==> roots[i] in Ids(nodes)
    ensures forall n :: n in PlanOf(nodes, roots).roots ==> n in nodes
    ensures Ids(PlanOf(nodes, roots).roots) == roots
  {
    forall i | 0 <= i < |roots| ensures NodeById(nodes, roots[i]) in nodes && NodeById(nodes, roots[i]).id == roots[i] {
      NodeByIdMember(nodes, roots[i]);
    }
  }

  lemma {:induction false} PreparedIds(plan: ClosurePlan)
    ensures Ids(Prepared(plan)) == Ids(plan.roots) + Ids(plan.callees)
  {
  }

  /** Every root and callee of a plan is a mount of the document, and the plan's dependencies call only these. */
  lemma {:induction false} PreparedIsMounted(nodes: seq<ComponentNode>, roots: seq<string>)
    requires Preflight(nodes, roots) && Closes(nodes, roots)
    requires forall i :: 0 <= i < |roots| ==> roots[i] in Ids(nodes)
    ensures var plan := PlanOf(nodes, roots);
            && (forall id :: id in Ids(Prepared(plan)) ==> id in Ids(nodes))
            && (forall i :: 0 <= i < |roots| ==> roots[i] in Ids(Prepared(plan)))
            && (forall d :: d in plan.dependencies ==> d.component in Ids(Prepared(plan)))
  {
    var plan := PlanOf(nodes, roots);
    CalleesAreTargets(nodes, roots);
    RootsOfPlan(nodes, roots);
    PreparedIds(plan);
    IdsOfNodes(nodes);
    IdsOfNodes(plan.callees);
  }

  /** The compiler's verdict, the limits and the choice of entries: nothing else can stop a run from starting. */
  ghost predicate Startable(mounts: seq<Mount>, components: map<string, ComponentFile>, roots: seq<string>,
                            limits: LimitsInput) {
    && ComposesSafely(mounts, components) && StepsAccepted(mounts, components) && Compilable(mounts, components)
    && ResolveLimits(limits).Some? && RootsAreEntrypoints(CompiledNodes(mounts, components), roots)
  }

  /** The closure exists, so its plan does. */
  ghost predicate Planned(nodes: seq<ComponentNode>, roots: seq<string>) {
    Closes(nodes, roots) && forall i :: 0 <= i < |roots| ==> roots[i] in Ids(nodes)
  }

  /** What the runtime of a startable run is built for. */
  ghost function RuntimeConfig(mounts: seq<Mount>, components: map<string, ComponentFile>, roots: seq<string>,
                               root: string, limits: LimitsInput): Config
    requires Startable(mounts, components, roots, limits) && Planned(CompiledNodes(mounts, components), roots)
  {
    var plan := PlanOf(CompiledNodes(mounts, components), roots);
    Config(ResolveLimits(limits).value, plan.dependencies, StepsOf(PreparedSteps(plan, components)), root)
  }

  /** The runtime is the one for this profile, and every component it was given passed the step checks. */
  ghost predicate BuiltFor(runtime: ComponentInvocationRuntime, mounts: seq<Mount>,
                           components: map<string, ComponentFile>, roots: seq<string>, root: string,
                           limits: LimitsInput, parse: Parser)
    requires Startable(mounts, components, roots, limits)
  {
    var nodes := CompiledNodes(mounts, components);
    && Planned(nodes, roots)
    && runtime.cfg == RuntimeConfig(mounts, components, roots, root, limits)
    && runtime.components == PreparedSteps(PlanOf(nodes, roots), components) && runtime.parse == parse
    && (forall id :: id in Ids(Prepared(PlanOf(nodes, roots))) ==>
          id in runtime.components && Accepted(runtime.components[id]))
    && runtime.maxSteps == MostSteps(nodes)
    && Acyclic(runtime.Calls())
  }

  /**
   * For a profile the compiler accepts, entries the dispatcher may select and limits the runtime accepts, the
   * closure and the constructor's index of callees cannot fail, and the runtime is built for exactly the plan's
   * dependencies, the plan's components with their own steps and the resolved limits.
   */
  method Prepare(mounts: seq<Mount>, components: map<string, ComponentFile>, roots: seq<string>, root: string,
                 limits: LimitsInput, parse: Parser, clock: int, honest: bool)
    returns (runtime: Option<ComponentInvocationRuntime>)
    requires FiledById(components) && root in roots
    ensures runtime.Some? <==> Startable(mounts, components, roots, limits)
    ensures runtime.Some? ==>
              && fresh(runtime.value) && runtime.value.Valid()
              && BuiltFor(runtime.value, mounts, components, roots, root, limits, parse)
              && runtime.value.Snapshot() == Initial(runtime.value.cfg, clock)
              && runtime.value.startClock == clock && runtime.value.honest == honest
              && runtime.value.stepRuns == 0 && runtime.value.reported == 0 && runtime.value.reports == []
  {
    var compiled := CompileProfile(mounts, components);
    if compiled.None? { return None; }
    var nodes := compiled.value;
    var closed := ResolveComponentClosure(nodes, Some(roots));
    if closed.Err? {
      if RootsAreEntrypoints(nodes, roots) { AcceptedProfileResolves(mounts, components, roots); }
      return None;
    }
    var plan := closed.value;
    PreparedIsMounted(nodes, roots);
    PlanDependenciesAcyclic(nodes, roots);
    var ids := Ids(Prepared(plan));
    var table := PreparedSteps(plan, components);
    forall id | id in ids ensures id in table && Accepted(table[id]) && |table[id]| <= MostSteps(nodes) {
      StepsOfMount(mounts, components, id);
    }
    var edges := IndexEdges(plan.dependencies, Elems(ids));
    var resolved := ResolveLimits(limits);
    if resolved.None? { return None; }
    var cfg := Config(resolved.value, plan.dependencies, StepsOf(table), root);
    var built := new ComponentInvocationRuntime(cfg, table, edges.value, parse, clock, honest, MostSteps(nodes));
    runtime := Some(built);
  }

  lemma {:induction false} StepsOfMount(mounts: seq<Mount>, components: map<string, ComponentFile>, id: string)
    requires FiledById(components) && Compilable(mounts, components) && StepsAccepted(mounts, components)
    requires id in Ids(CompiledNodes(mounts, components))
    ensures var node := NodeById(CompiledNodes(mounts, components), id);
            && node in CompiledNodes(mounts, components) && id in components
            && node.steps == components[id].steps && Accepted(node.steps)
  {
    var nodes := CompiledNodes(mounts, components);
    NodeByIdMember(nodes, id);
    var i :| 0 <= i < |nodes| && nodes[i] == NodeById(nodes, id);
    assert components[mounts[i].useId].id == mounts[i].useId;
  }

  // ---- running -------------------------------------------------------------------------------

  /** No invocation of the history was refused as a re-entry: every security failure is an undeclared alias. */
  ghost predicate NeverReenters(cfg: Config, clock: int, events: seq<Event>) {
    forall k :: 0 <= k < |events| && SecurityFailure(cfg, After(cfg, Initial(cfg, clock), events[..k]), events[k]) ==>
      events[k].alias !in AliasesFor(cfg.dependencies, events[k].frame.component, events[k].step)
  }

  predicate SecurityFailure(cfg: Config, s: State, e: Event) {
    e.InvokeEvent? && Apply(cfg, s, e).1 == Raises(Dispatch(UnauthorizedCall))
  }

  lemma {:induction false} AcyclicNeverReenters(cfg: Config, clock: int, events: seq<Event>)
    requires Acyclic(DependencyEdges(cfg.dependencies)) && KeysApart(cfg)
    ensures NeverReenters(cfg, clock, events)
  {
    forall k | 0 <= k < |events| && SecurityFailure(cfg, After(cfg, Initial(cfg, clock), events[..k]), events[k])
      ensures events[k].alias !in AliasesFor(cfg.dependencies, events[k].frame.component, events[k].step)
    {
      ReentryBranchUnreachable(cfg, clock, events[..k], events[k]);
    }
  }

  /** What holds of the runtime after a run, whatever the environment did. */
  ghost predicate Settled(runtime: ComponentInvocationRuntime, mounts: seq<Mount>,
                          components: map<string, ComponentFile>, limits: Limits)
    requires Compilable(mounts, components)
    reads runtime
  {
    var s := runtime.Snapshot();
    && runtime.Valid() && AllClosed(s) && TraceShaped(runtime.cfg, s)
    && (KeysApart(runtime.cfg) ==>
          TraceOk(runtime.cfg, s) && NeverReenters(runtime.cfg, runtime.startClock, runtime.history))
    && s.available >= 0 && s.available + s.charged == limits.maxTurns && s.observed == runtime.reported
    && (runtime.honest ==> s.observed <= limits.maxTurns && s.available == limits.maxTurns - s.observed)
    && runtime.stepRuns <= MostRuns(limits, MostSteps(CompiledNodes(mounts, components)))
  }

  /** A returned text is the root's own final text for the answers it received. */
  ghost predicate RootText(steps: seq<LlmStep>, parse: Parser, answers: seq<Answer>, text: string) {
    && |answers| == |steps| && RunSteps(steps, parse, answers).Ok?
    && var st := RunSteps(steps, parse, answers).value;
       && text == st.finalText && OnlyTolerated(steps, st.ran, answers)
       && (AllHandled(steps, st, answers) <==> EveryFailureSeen(steps, st.ran, answers))
  }

  lemma {:induction false} RunSettles(runtime: ComponentInvocationRuntime, mounts: seq<Mount>,
                                      components: map<string, ComponentFile>, limits: Limits)
    requires Compilable(mounts, components) && runtime.Valid() && AllClosed(runtime.Snapshot())
    requires Acyclic(runtime.Calls()) && runtime.cfg.limits == limits
    requires runtime.maxSteps == MostSteps(CompiledNodes(mounts, components))
    requires runtime.stepRuns <= MostRuns(limits, runtime.maxSteps)
    requires runtime.totalTurnsObserved == runtime.reported
    ensures Settled(runtime, mounts, components, limits)
  {
    runtime.ValidState();
    runtime.AllAccountedFor();
    if KeysApart(runtime.cfg) { AcyclicNeverReenters(runtime.cfg, runtime.startClock, runtime.history); }
  }

  /** The root is one of the prepared components. */
  lemma {:induction false} RootPrepared(nodes: seq<ComponentNode>, components: map<string, ComponentFile>,
                                        roots: seq<string>, root: string)
    requires Preflight(nodes, roots) && Planned(nodes, roots) && root in roots
    requires forall id :: id in Ids(Prepared(PlanOf(nodes, roots))) ==>
        id in PreparedSteps(PlanOf(nodes, roots), components)
    ensures root in components && root in PreparedSteps(PlanOf(nodes, roots), components)
    ensures PreparedSteps(PlanOf(nodes, roots), components)[root] == components[root].steps
  {
    PreparedIsMounted(nodes, roots);
  }

  /** Runs the runtime of an accepted profile. */
  method RunPrepared(built: ComponentInvocationRuntime, mounts: seq<Mount>, components: map<string, ComponentFile>,
                     limits: Limits, steps: seq<LlmStep>, requestOk: bool)
    returns (r: Result<RootResult, Thrown>, ghost answers: seq<Answer>)
    requires Compilable(mounts, components) && built.Valid() && AllClosed(built.Snapshot()) && Acyclic(built.Calls())
    requires built.cfg.limits == limits && built.maxSteps == MostSteps(CompiledNodes(mounts, components))
    requires built.stepRuns == built.reported == built.totalTurnsObserved == 0 && built.reports == []
    requires built.components[built.cfg.root] == steps && Accepted(steps)
    modifies built
    ensures Settled(built, mounts, components, limits)
    ensures r.Ok? ==> && RootText(steps, built.parse, answers, r.value.finalText) && !built.Stopped()
                      && r.value.turns == built.totalTurnsObserved && r.value.componentCalls == built.componentCalls
                      && RunReports(steps, built.parse, answers, None, Made(built.reports, None))
    ensures !requestOk ==> r == Err(Dispatch(OtherPrefix)) && built.Snapshot() == old(built.Snapshot())
                           && built.stepRuns == 0
    ensures requestOk && old(built.Stopped()) ==> r == Err(Dispatch(Cancelled)) && built.stepRuns == 0
    ensures requestOk && r.Err? ==>
              |answers| <= |steps| && FailsAs(steps, built.parse, answers, r.error, built.cancelledAt.Some?)
  {
    assert Made(built.reports, None) == [];
    r, answers := built.RunRoot(requestOk);
    assert Made(built.reports, None)[0..] == Made(built.reports, None);
    RunSettles(built, mounts, components, limits);
    if r.Ok? { NoSwallowedFailure(steps, built.parse, answers); }
  }

  /**
   * Compile, close, construct and run. Only the compiler's own verdict, the choice of entries and the limits can
   * stop a run from starting. Its runtime is the profile's own; the turns are accounted for and the work is
   * bounded; its trace is a forest of looked-up calls, which is authorised and never re-enters when no alias key
   * clashes; and a returned text is the root's own, with every failed step of the root handled if and only if no
   * step named `__proto__` failed.
   */
  method RunProfile(mounts: seq<Mount>, components: map<string, ComponentFile>, roots: seq<string>, root: string,
                    limits: LimitsInput, parse: Parser, clock: int, honest: bool, requestOk: bool)
    returns (r: Option<Result<RootResult, Thrown>>, ghost runtime: ComponentInvocationRuntime?,
        ghost answers: seq<Answer>)
    requires FiledById(components) && root in roots
    ensures r.Some? <==> Startable(mounts, components, roots, limits)
    ensures r.Some? ==>
              && runtime != null && BuiltFor(runtime, mounts, components, roots, root, limits, parse)
              && runtime.startClock == clock && runtime.honest == honest
              && Settled(runtime, mounts, components, ResolveLimits(limits).value)
    ensures r.Some? && r.value.Ok? ==>
              && root in components && RootText(components[root].steps, parse, answers, r.value.value.finalText)
              && RunReports(components[root].steps, parse, answers, None, Made(runtime.reports, None))
              && r.value.value.turns == runtime.totalTurnsObserved
              && r.value.value.componentCalls == runtime.componentCalls && !runtime.Stopped()
    ensures r.Some? && !requestOk ==>
              r.value == Err(Dispatch(OtherPrefix)) && runtime.Snapshot() == Initial(runtime.cfg, clock)
    ensures r.Some? && requestOk && r.value.Err? ==>
              && root in components && |answers| <= |components[root].steps|
              && FailsAs(components[root].steps, parse, answers, r.value.error, runtime.cancelledAt.Some?)
    ensures r.Some? && requestOk && LedgerRules.Late(runtime.cfg, clock) ==> r.value == Err(Dispatch(Cancelled))
  {
    var prepared := Prepare(mounts, components, roots, root, limits, parse, clock, honest);
    if prepared.None? { return None, null, []; }
    var built := prepared.value;
    ghost var nodes := CompiledNodes(mounts, components);
    AcceptedProfileResolves(mounts, components, roots);
    RootPrepared(nodes, components, roots, root);
    var run, given := RunPrepared(built, mounts, components, built.cfg.limits, components[root].steps, requestOk);
    r, runtime, answers := Some(run), built, given;
  }
}
