/**
 * The compiler's check of the component call graph
 * (core/src/compile.rs, `check_component_composition` and `effective_required_capabilities`).
 */
module Composition {
  import opened Prelude
  import opened Graphs
  import opened Profile
  import CycleSearch

  datatype CompositionError =
    | DuplicateMount(id: string)
    | ComponentNotFound(id: string)
    | InvalidAlias(caller: string, alias: string)
    | DuplicateAlias(caller: string, alias: string)
    | InvalidTarget(caller: string, target: string)
    | MissingMount(caller: string, target: string)
    | SelfCall(caller: string)
    | CallCycle(path: seq<string>)

  function UseIds(mounts: seq<Mount>): seq<string> {
    seq(|mounts|, i requires 0 <= i < |mounts| => mounts[i].useId)
  }

  // ---- what an accepted profile satisfies ----------------------------------------------------

  predicate CallOk(ids: seq<string>, caller: string, call: ComponentCall) {
    CallName(call.alias) && CallName(call.component) && call.component in ids && call.component != caller
  }

  predicate StepCallsOk(ids: seq<string>, caller: string, calls: seq<ComponentCall>) {
    && Distinct(Aliases(calls))
    && forall k :: 0 <= k < |calls| ==> CallOk(ids, caller, calls[k])
  }

  predicate StepsOk(ids: seq<string>, caller: string, steps: seq<LlmStep>) {
    forall s :: 0 <= s < |steps| ==> StepCallsOk(ids, caller, steps[s].calls)
  }

  predicate MountOk(ids: seq<string>, id: string, components: map<string, ComponentFile>) {
    id in components && StepsOk(ids, id, components[id].steps)
  }

  predicate CallsOk(mounts: seq<Mount>, components: map<string, ComponentFile>) {
    forall i :: 0 <= i < |mounts| ==> MountOk(UseIds(mounts), mounts[i].useId, components)
  }

  /** Aliases differ, and every call is well named and of another mounted component. */
  predicate SoundCalls(mounts: seq<Mount>, caller: string, calls: seq<ComponentCall>) {
    && (forall j, k :: 0 <= j < k < |calls| ==> calls[j].alias != calls[k].alias)
    && forall k :: 0 <= k < |calls| ==>
         && CallName(calls[k].alias) && CallName(calls[k].component) && calls[k].component != caller
         && exists i :: 0 <= i < |mounts| && mounts[i].useId == calls[k].component
  }

  lemma {:induction false} StepCallsMeaning(mounts: seq<Mount>, caller: string, calls: seq<ComponentCall>)
    ensures StepCallsOk(UseIds(mounts), caller, calls) <==> SoundCalls(mounts, caller, calls)
  {
    var ids := UseIds(mounts);
    assert forall k :: 0 <= k < |calls| ==> Aliases(calls)[k] == calls[k].alias;
    forall id ensures id in ids <==> exists i :: 0 <= i < |mounts| && mounts[i].useId == id {
      if i :| 0 <= i < |mounts| && mounts[i].useId == id { assert ids[i] == id; }
    }
  }

  /** What the calls of an accepted profile satisfy, call by call. */
  lemma {:induction false} CallsMeaning(mounts: seq<Mount>, components: map<string, ComponentFile>)
    ensures CallsOk(mounts, components) <==>
            forall i :: 0 <= i < |mounts| ==>
              && mounts[i].useId in components
              && forall s :: 0 <= s < |components[mounts[i].useId].steps| ==>
                   SoundCalls(mounts, mounts[i].useId, components[mounts[i].useId].steps[s].calls)
  {
    forall i, s | 0 <= i < |mounts| && mounts[i].useId in components && 0 <= s < |components[mounts[i].useId].steps|
      ensures StepCallsOk(UseIds(mounts), mounts[i].useId, components[mounts[i].useId].steps[s].calls)
          <==> SoundCalls(mounts, mounts[i].useId, components[mounts[i].useId].steps[s].calls)
    {
      StepCallsMeaning(mounts, mounts[i].useId, components[mounts[i].useId].steps[s].calls);
    }
  }

  /** Every declared call between mounted components, as an edge between mount identities. */
  function CallEdges(mounts: seq<Mount>, components: map<string, ComponentFile>): set<(string, string)>
    requires forall i :: 0 <= i < |mounts| ==> mounts[i].useId in components
  {
    set i, k | 0 <= i < |mounts| && 0 <= k < |StepTargets(components[mounts[i].useId].steps)| ::
      (mounts[i].useId, StepTargets(components[mounts[i].useId].steps)[k])
  }

  /** What `check_component_composition` promises about a profile it accepts. */
  ghost predicate ComposesSafely(mounts: seq<Mount>, components: map<string, ComponentFile>) {
    && Distinct(UseIds(mounts))
    && CallsOk(mounts, components)
    && Acyclic(CallEdges(mounts, components))
  }

  // ---- the check -----------------------------------------------------------------------------

  /** The mount index built by the first loop. */
  ghost predicate Indexes(index: map<string, nat>, ids: seq<string>) {
    && (forall i :: 0 <= i < |ids| ==> ids[i] in index && index[ids[i]] == i)
    && (forall id :: id in index ==> index[id] < |ids| && ids[index[id]] == id)
  }

  method IndexMounts(mounts: seq<Mount>) returns (r: Result<map<string, nat>, CompositionError>)
    ensures r.Ok? <==> Distinct(UseIds(mounts))
    ensures r.Ok? ==> Indexes(r.value, UseIds(mounts))
    ensures r.Err? ==> exists i, j :: 0 <= i < j < |mounts| && mounts[i].useId == mounts[j].useId
                                   && r.error == DuplicateMount(mounts[j].useId)
  {
    var index: map<string, nat> := map[];
    var i := 0;
    ghost var ids := UseIds(mounts);
    while i < |mounts|
      invariant 0 <= i <= |mounts|
      invariant Distinct(ids[..i]) && Indexes(index, ids[..i])
    {
      var id := mounts[i].useId;
      if id in index {
        assert mounts[index[id]].useId == id;
        assert ids[index[id]] == ids[i];
        return Err(DuplicateMount(id));
      }
      index := index[id := i];
      i := i + 1;
    }
    assert ids[..i] == ids;
    r := Ok(index);
  }

  /** What each call error says about the calls of one step. */
  predicate CallFault(ids: seq<string>, caller: string, calls: seq<ComponentCall>, e: CompositionError) {
    match e
    case InvalidAlias(c, alias) => c == caller && !CallName(alias) && alias in Aliases(calls)
    case DuplicateAlias(c, alias) => c == caller && exists j, k ::
        0 <= j < k < |calls| && calls[j].alias == calls[k].alias == alias
    case InvalidTarget(c, target) => c == caller && !CallName(target) && target in Targets(calls)
    case MissingMount(c, target) => c == caller && target !in ids && target in Targets(calls)
    case SelfCall(c) => c == caller && caller in Targets(calls)
    case _ => false
  }

  /** What each error of the second loop says about the profile. */
  predicate ProfileFault(mounts: seq<Mount>, components: map<string, ComponentFile>, e: CompositionError) {
    if e.ComponentNotFound? then e.id in UseIds(mounts) && e.id !in components
    else
      exists i, s :: 0 <= i < |mounts| && mounts[i].useId in components && 0 <= s < |components[mounts[i].useId].steps|
                  && CallFault(UseIds(mounts), mounts[i].useId, components[mounts[i].useId].steps[s].calls, e)
  }

  /** The two inner loops for one step: its edges, or the first offending call. */
  method StepEdges(index: map<string, nat>, ghost ids: seq<string>, callerIndex: nat, caller: string,
                   calls: seq<ComponentCall>) returns (r: Result<seq<nat>, CompositionError>)
    requires Indexes(index, ids) && callerIndex < |ids| && ids[callerIndex] == caller
    ensures r.Ok? <==> StepCallsOk(ids, caller, calls)
    ensures r.Ok? ==> Names(ids, r.value, Targets(calls))
    ensures r.Err? ==> CallFault(ids, caller, calls, r.error)
  {
    var aliases: set<string> := {};
    var row: seq<nat> := [];
    var k := 0;
    while k < |calls|
      invariant 0 <= k <= |calls|
      invariant aliases == Elems(Aliases(calls)[..k])
      invariant Distinct(Aliases(calls)[..k])
      invariant forall j :: 0 <= j < k ==> CallOk(ids, caller, calls[j])
      invariant Names(ids, row, Targets(calls)[..k])
    {
      var call := calls[k];
      assert Aliases(calls)[k] == call.alias && Targets(calls)[k] == call.component;
      assert Aliases(calls)[..k + 1] == Aliases(calls)[..k] + [call.alias];
      if !CallName(call.alias) { return Err(InvalidAlias(caller, call.alias)); }
      if call.alias in aliases {
        ghost var j :| 0 <= j < k && Aliases(calls)[j] == call.alias;
        assert calls[j].alias == calls[k].alias;
        return Err(DuplicateAlias(caller, call.alias));
      }
      aliases := aliases + {call.alias};
      var callee := CalleeIndex(index, ids, callerIndex, caller, call);
      if callee.Err? { return Err(callee.error); }
      row := row + [callee.value];
      k := k + 1;
    }
    assert Aliases(calls)[..k] == Aliases(calls) && Targets(calls)[..k] == Targets(calls);
    r := Ok(row);
  }

  /** The checks on one call's target. */
  method CalleeIndex(index: map<string, nat>, ghost ids: seq<string>, callerIndex: nat, caller: string,
                     call: ComponentCall)
    returns (r: Result<nat, CompositionError>)
    requires Indexes(index, ids) && callerIndex < |ids| && ids[callerIndex] == caller
    ensures r.Ok? <==> CallName(call.component) && call.component in ids && call.component != caller
    ensures r.Ok? ==> r.value < |ids| && ids[r.value] == call.component
    ensures r.Err? && r.error.InvalidTarget? ==>
        r.error == InvalidTarget(caller, call.component) && !CallName(call.component)
    ensures r.Err? && r.error.MissingMount? ==>
        r.error == MissingMount(caller, call.component) && call.component !in ids
    ensures r.Err? && r.error.SelfCall? ==> r.error == SelfCall(caller) && call.component == caller
    ensures r.Err? ==> r.error.InvalidTarget? || r.error.MissingMount? || r.error.SelfCall?
  {
    if !CallName(call.component) { return Err(InvalidTarget(caller, call.component)); }
    if call.component !in index { return Err(MissingMount(caller, call.component)); }
    var callee := index[call.component];
    if callerIndex == callee { return Err(SelfCall(caller)); }
    r := Ok(callee);
  }

  /** `row` lists, by mount index, exactly the named targets. */
  predicate Names(ids: seq<string>, row: seq<nat>, targets: seq<string>) {
    |row| == |targets| && forall k :: 0 <= k < |row| ==> row[k] < |ids| && ids[row[k]] == targets[k]
  }

  method MountEdges(index: map<string, nat>, ghost ids: seq<string>, callerIndex: nat, caller: string,
                    steps: seq<LlmStep>) returns (r: Result<seq<nat>, CompositionError>)
    requires Indexes(index, ids) && callerIndex < |ids| && ids[callerIndex] == caller
    ensures r.Ok? <==> StepsOk(ids, caller, steps)
    ensures r.Ok? ==> Names(ids, r.value, StepTargets(steps))
    ensures r.Err? ==> exists s :: 0 <= s < |steps| && CallFault(ids, caller, steps[s].calls, r.error)
  {
    var row: seq<nat> := [];
    var s := 0;
    while s < |steps|
      invariant 0 <= s <= |steps|
      invariant forall j :: 0 <= j < s ==> StepCallsOk(ids, caller, steps[j].calls)
      invariant Names(ids, row, StepTargets(steps[..s]))
    {
      var stepRow := StepEdges(index, ids, callerIndex, caller, steps[s].calls);
      if stepRow.Err? { return Err(stepRow.error); }
      assert steps[..s + 1][..s] == steps[..s];
      row := row + stepRow.value;
      s := s + 1;
    }
    assert steps[..s] == steps;
    r := Ok(row);
  }

  /** The second loop: the adjacency list of the whole profile, or the first offending mount. */
  method ProfileEdges(index: map<string, nat>, mounts: seq<Mount>, components: map<string, ComponentFile>)
    returns (r: Result<seq<seq<nat>>, CompositionError>)
    requires Indexes(index, UseIds(mounts))
    ensures r.Ok? <==> CallsOk(mounts, components)
    ensures r.Ok? ==> EdgesNamed(mounts, components, r.value)
    ensures r.Err? ==> ProfileFault(mounts, components, r.error)
  {
    ghost var ids := UseIds(mounts);
    var edges: seq<seq<nat>> := [];
    var i := 0;
    while i < |mounts|
      invariant 0 <= i <= |mounts| && |edges| == i
      invariant forall j :: 0 <= j < i ==> MountOk(ids, mounts[j].useId, components)
      invariant forall j :: 0 <= j < i ==> Names(ids, edges[j], StepTargets(components[mounts[j].useId].steps))
    {
      var caller := mounts[i].useId;
      if caller !in components {
        assert !MountOk(ids, mounts[i].useId, components);
        assert UseIds(mounts)[i] == caller;
        return Err(ComponentNotFound(caller));
      }
      var row := MountEdges(index, ids, i, caller, components[caller].steps);
      if row.Err? {
        assert !MountOk(ids, mounts[i].useId, components);
        return Err(row.error);
      }
      edges := edges + [row.value];
      i := i + 1;
    }
    r := Ok(edges);
  }

  predicate EdgesNamed(mounts: seq<Mount>, components: map<string, ComponentFile>, edges: seq<seq<nat>>) {
    && |edges| == |mounts|
    && (forall i :: 0 <= i < |mounts| ==> mounts[i].useId in components)
    && forall j :: 0 <= j < |mounts| ==>
         Names(UseIds(mounts), edges[j], StepTargets(components[mounts[j].useId].steps))
  }

  /**
   * Accepts a profile exactly when it composes safely. A reported cycle is a real cycle of calls
   * between mounts of an otherwise well-formed profile; every other error names a real defect.
   */
  method CheckComponentComposition(mounts: seq<Mount>, components: map<string, ComponentFile>)
    returns (r: Outcome<CompositionError>)
    ensures r.Pass? <==> ComposesSafely(mounts, components)
    ensures r.Fail? && r.error.CallCycle? ==>
              && Distinct(UseIds(mounts)) && CallsOk(mounts, components)
              && SimpleCycle(CallEdges(mounts, components), r.error.path)
    ensures r.Fail? && r.error.DuplicateMount? ==>
              exists i, j :: 0 <= i < j < |mounts| && mounts[i].useId == mounts[j].useId
                  && r.error.id == mounts[j].useId
    ensures r.Fail? && !r.error.CallCycle? && !r.error.DuplicateMount? ==>
              Distinct(UseIds(mounts)) && ProfileFault(mounts, components, r.error)
  {
    var indexed := IndexMounts(mounts);
    if indexed.Err? { return Fail(indexed.error); }
    var edges := ProfileEdges(indexed.value, mounts, components);
    if edges.Err? { return Fail(edges.error); }
    EdgesAreRenamed(mounts, components, edges.value);
    var cycle := CycleSearch.FirstComponentCallCycle(edges.value);
    if cycle.Some? {
      RenamingKeepsCycle(CycleSearch.EdgeSet(edges.value), UseIds(mounts), cycle.value);
      return Fail(CallCycle(RenamedPath(UseIds(mounts), cycle.value)));
    }
    RenamingKeepsAcyclic(CycleSearch.EdgeSet(edges.value), UseIds(mounts));
    r := Pass;
  }

  /** The index graph the loops build is the call graph on mount identities. */
  lemma {:induction false} EdgesAreRenamed(mounts: seq<Mount>, components: map<string, ComponentFile>,
                                           edges: seq<seq<nat>>)
    requires EdgesNamed(mounts, components, edges)
    ensures CycleSearch.InRange(edges)
    ensures Renamed(CycleSearch.EdgeSet(edges), UseIds(mounts)) == CallEdges(mounts, components)
  {
    var ids := UseIds(mounts);
    var E := CycleSearch.EdgeSet(edges);
    forall e | e in Renamed(E, ids) ensures e in CallEdges(mounts, components) {
      var d :| d in E && e == (ids[d.0], ids[d.1]);
      var k :| 0 <= k < |edges[d.0]| && edges[d.0][k] == d.1;
      assert StepTargets(components[mounts[d.0].useId].steps)[k] == e.1;
    }
    forall e | e in CallEdges(mounts, components) ensures e in Renamed(E, ids) {
      var i, k :| 0 <= i < |mounts| && 0 <= k < |StepTargets(components[mounts[i].useId].steps)|
               && e == (mounts[i].useId, StepTargets(components[mounts[i].useId].steps)[k]);
      assert (i, edges[i][k]) in E && (ids[i], ids[edges[i][k]]) == e;
    }
  }

  // ---- what the compiler emits ---------------------------------------------------------------

  /** The authored capabilities, with the one every caller needs added when it is missing. */
  function EffectiveRequiredCapabilities(component: ComponentFile): (r: seq<string>)
    ensures component.requiredCapabilities <= r
    ensures DeclaresCalls(component.steps) ==> COMPONENT_INVOCATION in r
    ensures forall c :: c in r && c !in component.requiredCapabilities ==>
              c == COMPONENT_INVOCATION && DeclaresCalls(component.steps)
    ensures !DeclaresCalls(component.steps) ==> r == component.requiredCapabilities
  {
    if DeclaresCalls(component.steps) && COMPONENT_INVOCATION !in component.requiredCapabilities
    then component.requiredCapabilities + [COMPONENT_INVOCATION]
    else component.requiredCapabilities
  }

  function CompiledNode(mount: Mount, component: ComponentFile): ComponentNode {
    ComponentNode(component.id, mount.entrypoint, EffectiveRequiredCapabilities(component), component.steps)
  }

  /** The `components` array of the compiled document, in mount order. */
  function CompiledNodes(mounts: seq<Mount>, components: map<string, ComponentFile>): seq<ComponentNode>
    requires forall i :: 0 <= i < |mounts| ==> mounts[i].useId in components
  {
    seq(|mounts|, i requires 0 <= i < |mounts| => CompiledNode(mounts[i], components[mounts[i].useId]))
  }
}
