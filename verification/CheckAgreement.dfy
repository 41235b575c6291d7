/**
 * The compiler's composition check and the dispatcher's closure check describe the same graph:
 * a profile the compiler accepts closes for every choice of roots, and on well-named profiles the
 * two checks accept exactly the same inputs.
 */
module CheckAgreement {
  import opened Prelude
  import opened Graphs
  import opened Profile
  import opened Composition
  import opened ClosureWalk
  import opened Closure
  import opened Declarations
  import opened ClosureProperties

  lemma {:induction false} StepDependenciesMeaning(caller: string, steps: seq<LlmStep>, d: Dependency)
    ensures d in StepDependencies(caller, steps)
       <==> exists s, c :: s in steps && c in s.calls && d == Dependency(caller, s.name, c.alias, c.component)
  {
    if steps != [] {
      StepDependenciesMeaning(caller, steps[1..], d);
      var own := CallDependencies(caller, steps[0].name, steps[0].calls);
      assert steps == [steps[0]] + steps[1..];
      if d in own {
        var k :| 0 <= k < |own| && own[k] == d;
        assert steps[0].calls[k] in steps[0].calls;
      }
      forall c | c in steps[0].calls && d == Dependency(caller, steps[0].name, c.alias, c.component) ensures d in own {
        var k :| 0 <= k < |steps[0].calls| && steps[0].calls[k] == c;
        assert own[k] == d;
      }
    }
  }

  /** A dependency is listed exactly when some step of some mount declares that call. */
  lemma {:induction false} AllDependenciesMeaning(nodes: seq<ComponentNode>, d: Dependency)
    ensures d in AllDependencies(nodes)
       <==> exists n, s, c ::
           n in nodes && s in n.steps && c in s.calls && d == Dependency(n.id, s.name, c.alias, c.component)
  {
    if nodes != [] {
      AllDependenciesMeaning(nodes[1..], d);
      StepDependenciesMeaning(nodes[0].id, nodes[0].steps, d);
      assert nodes == [nodes[0]] + nodes[1..];
    }
  }

  /** Every mount names a loaded component, and mount identity is component identity. */
  predicate Compilable(mounts: seq<Mount>, components: map<string, ComponentFile>) {
    forall i :: 0 <= i < |mounts| ==> mounts[i].useId in components && components[mounts[i].useId].id == mounts[i].useId
  }

  lemma {:induction false} DependencyIsCallEdge(mounts: seq<Mount>, components: map<string, ComponentFile>,
                                                d: Dependency)
    requires Compilable(mounts, components) && d in AllDependencies(CompiledNodes(mounts, components))
    ensures (d.caller, d.component) in CallEdges(mounts, components)
  {
    var nodes := CompiledNodes(mounts, components);
    AllDependenciesMeaning(nodes, d);
    var n, s, c :| n in nodes && s in n.steps && c in s.calls && d == Dependency(n.id, s.name, c.alias, c.component);
    var i :| 0 <= i < |nodes| && nodes[i] == n;
    var j :| 0 <= j < |n.steps| && n.steps[j] == s;
    var k :| 0 <= k < |s.calls| && s.calls[k] == c;
    DeclaredCallIsEdge(mounts, components, i, j, k);
  }

  lemma {:induction false} CallEdgeIsDependency(mounts: seq<Mount>, components: map<string, ComponentFile>,
                                                e: (string, string))
    requires Compilable(mounts, components) && e in CallEdges(mounts, components)
    ensures e in DependencyEdges(AllDependencies(CompiledNodes(mounts, components)))
  {
    var nodes := CompiledNodes(mounts, components);
    var i, t :| 0 <= i < |mounts| && 0 <= t < |StepTargets(components[mounts[i].useId].steps)|
             && e == (mounts[i].useId, StepTargets(components[mounts[i].useId].steps)[t]);
    var n := nodes[i];
    StepTargetsMeaning(n.steps, e.1);
    var j, k :| 0 <= j < |n.steps| && 0 <= k < |n.steps[j].calls| && n.steps[j].calls[k].component == e.1;
    var s, c := n.steps[j], n.steps[j].calls[k];
    var d := Dependency(e.0, s.name, c.alias, e.1);
    AllDependenciesMeaning(nodes, d);
    assert n in nodes && s in n.steps && c in s.calls && d == Dependency(n.id, s.name, c.alias, c.component);
    assert d in AllDependencies(nodes);
  }

  /** The dispatcher reads the same edges the compiler checked. */
  lemma {:induction false} SameGraph(mounts: seq<Mount>, components: map<string, ComponentFile>)
    requires Compilable(mounts, components)
    ensures DependencyEdges(AllDependencies(CompiledNodes(mounts, components))) == CallEdges(mounts, components)
    ensures Ids(CompiledNodes(mounts, components)) == UseIds(mounts)
  {
    var nodes := CompiledNodes(mounts, components);
    forall e | e in DependencyEdges(AllDependencies(nodes)) ensures e in CallEdges(mounts, components) {
      var d :| d in AllDependencies(nodes) && (d.caller, d.component) == e;
      DependencyIsCallEdge(mounts, components, d);
    }
    forall e | e in CallEdges(mounts, components) ensures e in DependencyEdges(AllDependencies(nodes)) {
      CallEdgeIsDependency(mounts, components, e);
    }
    assert Ids(nodes) == UseIds(mounts);
  }

  predicate RootsAreEntrypoints(nodes: seq<ComponentNode>, roots: seq<string>) {
    forall i :: 0 <= i < |roots| ==> EntrypointId(nodes, roots[i])
  }

  /** What `ResolveComponentClosure` accepts. */
  ghost predicate Resolves(nodes: seq<ComponentNode>, roots: seq<string>) {
    Preflight(nodes, roots) && forall i :: 0 <= i < |roots| ==> !DefectReachable(OutgoingOf(nodes), roots[i])
  }

  /** A profile the compiler accepts is never refused by the dispatcher, whatever entries are requested. */
  lemma {:induction false} AcceptedProfileResolves(mounts: seq<Mount>, components: map<string, ComponentFile>,
                                                   roots: seq<string>)
    requires Compilable(mounts, components) && ComposesSafely(mounts, components)
    requires RootsAreEntrypoints(CompiledNodes(mounts, components), roots)
    ensures Resolves(CompiledNodes(mounts, components), roots)
  {
    var nodes := CompiledNodes(mounts, components);
    SameGraph(mounts, components);
    EdgesAreDependencies(nodes);
    var E := Edges(OutgoingOf(nodes));
    forall i | 0 <= i < |nodes| ensures NodeDeclaresSoundly(nodes[i]) {
      assert MountOk(UseIds(mounts), mounts[i].useId, components);
      forall s | 0 <= s < |nodes[i].steps| ensures Distinct(Aliases(nodes[i].steps[s].calls)) {
        assert StepCallsOk(UseIds(mounts), mounts[i].useId, nodes[i].steps[s].calls);
      }
    }
    forall a, b | (a, b) in E ensures b in Ids(nodes) { TargetsMounted(mounts, components, a, b); }
    forall i | 0 <= i < |roots| ensures !DefectReachable(OutgoingOf(nodes), roots[i]) {
      forall x | Reaches(E, roots[i], x) ensures x in Ids(nodes) {
        var k :| 0 <= k < |nodes| && nodes[k].id == roots[i] && nodes[k].entrypoint;
        assert Ids(nodes)[k] == roots[i];
        ClosedHoldsReachable(E, Elems(Ids(nodes)), roots[i], x);
      }
    }
  }

  lemma {:induction false} TargetsMounted(mounts: seq<Mount>, components: map<string, ComponentFile>, a: string,
                                          b: string)
    requires Compilable(mounts, components) && CallsOk(mounts, components) && (a, b) in CallEdges(mounts, components)
    ensures b in UseIds(mounts) && b != a
  {
    var i, t :| 0 <= i < |mounts| && 0 <= t < |StepTargets(components[mounts[i].useId].steps)|
             && (a, b) == (mounts[i].useId, StepTargets(components[mounts[i].useId].steps)[t]);
    var steps := components[mounts[i].useId].steps;
    StepTargetsMeaning(steps, b);
    var j, k :| 0 <= j < |steps| && 0 <= k < |steps[j].calls| && steps[j].calls[k].component == b;
    assert MountOk(UseIds(mounts), mounts[i].useId, components);
    assert StepCallsOk(UseIds(mounts), a, steps[j].calls);
    assert CallOk(UseIds(mounts), a, steps[j].calls[k]);
  }

  /** With no entries requested, the roots are the profile's own entrypoints, so the same holds. */
  lemma {:induction false} AcceptedProfileResolvesByDefault(mounts: seq<Mount>, components: map<string, ComponentFile>)
    requires Compilable(mounts, components) && ComposesSafely(mounts, components)
    ensures Resolves(CompiledNodes(mounts, components), RequestedRoots(CompiledNodes(mounts, components), None))
  {
    var nodes := CompiledNodes(mounts, components);
    var entries := Filter(nodes, (n: ComponentNode) => n.entrypoint);
    forall i | 0 <= i < |entries| ensures EntrypointId(nodes, Ids(entries)[i]) {
      assert entries[i] in entries;
      var k :| 0 <= k < |nodes| && nodes[k] == entries[i];
      assert nodes[k].id == Ids(entries)[i] && nodes[k].entrypoint;
    }
    AcceptedProfileResolves(mounts, components, Ids(entries));
  }

  predicate WellNamed(mounts: seq<Mount>, components: map<string, ComponentFile>)
    requires Compilable(mounts, components)
  {
    forall i, s, k :: 0 <= i < |mounts| && 0 <= s < |components[mounts[i].useId].steps|
                   && 0 <= k < |components[mounts[i].useId].steps[s].calls|
                   ==> var call := components[mounts[i].useId].steps[s].calls[k];
                       CallName(call.alias) && CallName(call.component)
  }

  /**
   * When every mount is reachable from the requested entries and all call names are well formed,
   * the two checks accept exactly the same profiles.
   */
  lemma {:induction false} ChecksAgree(mounts: seq<Mount>, components: map<string, ComponentFile>, roots: seq<string>)
    requires Compilable(mounts, components) && WellNamed(mounts, components)
    requires RootsAreEntrypoints(CompiledNodes(mounts, components), roots)
    requires forall i :: 0 <= i < |mounts| ==>
        ReachedFromRoots(CompiledNodes(mounts, components), roots, mounts[i].useId)
    ensures ComposesSafely(mounts, components) <==> Resolves(CompiledNodes(mounts, components), roots)
  {
    if ComposesSafely(mounts, components) {
      AcceptedProfileResolves(mounts, components, roots);
    }
    if Resolves(CompiledNodes(mounts, components), roots) {
      var nodes := CompiledNodes(mounts, components);
      SameGraph(mounts, components);
      EdgesAreDependencies(nodes);
      forall i | 0 <= i < |mounts| ensures MountOk(UseIds(mounts), mounts[i].useId, components) {
        forall s | 0 <= s < |components[mounts[i].useId].steps|
          ensures StepCallsOk(UseIds(mounts), mounts[i].useId, components[mounts[i].useId].steps[s].calls)
        {
          ResolvedCallsOk(mounts, components, roots, i, s);
        }
      }
      var E := CallEdges(mounts, components);
      forall p | ClosedWalk(E, p) ensures false {
        FirstEdge(E, p);
      }
    }
  }

  lemma {:induction false} NoDefectAtMount(mounts: seq<Mount>, components: map<string, ComponentFile>,
                                           roots: seq<string>, i: nat)
    requires Compilable(mounts, components) && i < |mounts|
    requires Resolves(CompiledNodes(mounts, components), roots)
    requires ReachedFromRoots(CompiledNodes(mounts, components), roots, mounts[i].useId)
    ensures var nodes := CompiledNodes(mounts, components);
            forall x :: Reaches(Edges(OutgoingOf(nodes)), mounts[i].useId, x) ==> !Defect(OutgoingOf(nodes), x)
  {
    var nodes := CompiledNodes(mounts, components);
    var E := Edges(OutgoingOf(nodes));
    EdgesAreDependencies(nodes);
    var r :| 0 <= r < |roots| && Reaches(E, roots[r], mounts[i].useId);
    forall x | Reaches(E, mounts[i].useId, x) ensures !Defect(OutgoingOf(nodes), x) {
      ReachesTransitive(E, roots[r], mounts[i].useId, x);
    }
    ReachesSelf(E, mounts[i].useId);
  }

  lemma {:induction false} DeclaredCallIsEdge(mounts: seq<Mount>, components: map<string, ComponentFile>, i: nat,
                                              s: nat, k: nat)
    requires Compilable(mounts, components) && i < |mounts| && s < |components[mounts[i].useId].steps|
    requires k < |components[mounts[i].useId].steps[s].calls|
    ensures (mounts[i].useId, components[mounts[i].useId].steps[s].calls[k].component) in CallEdges(mounts, components)
  {
    var steps := components[mounts[i].useId].steps;
    var target := steps[s].calls[k].component;
    StepTargetsMeaning(steps, target);
    var t :| 0 <= t < |StepTargets(steps)| && StepTargets(steps)[t] == target;
    assert (mounts[i].useId, StepTargets(components[mounts[i].useId].steps)[t]) in CallEdges(mounts, components);
  }

  lemma {:induction false} ResolvedCallOk(mounts: seq<Mount>, components: map<string, ComponentFile>, i: nat, s: nat,
                                          k: nat)
    requires Compilable(mounts, components) && WellNamed(mounts, components)
    requires i < |mounts| && s < |components[mounts[i].useId].steps| && k < |components[mounts[i].useId].steps[s].calls|
    requires var out := OutgoingOf(CompiledNodes(mounts, components));
             forall x :: Reaches(Edges(out), mounts[i].useId, x) ==> !Defect(out, x)
    ensures CallOk(UseIds(mounts), mounts[i].useId, components[mounts[i].useId].steps[s].calls[k])
  {
    var nodes := CompiledNodes(mounts, components);
    var id, target := mounts[i].useId, components[mounts[i].useId].steps[s].calls[k].component;
    var E := Edges(OutgoingOf(nodes));
    SameGraph(mounts, components);
    EdgesAreDependencies(nodes);
    DeclaredCallIsEdge(mounts, components, i, s, k);
    EdgeReaches(E, id, target);
    assert !Defect(OutgoingOf(nodes), target);
    if target == id { assert ClosedWalk(E, [id, id]); }
  }

  lemma {:induction false} ResolvedCallsOk(mounts: seq<Mount>, components: map<string, ComponentFile>,
                                           roots: seq<string>, i: nat, s: nat)
    requires Compilable(mounts, components) && WellNamed(mounts, components)
    requires i < |mounts| && s < |components[mounts[i].useId].steps|
    requires Resolves(CompiledNodes(mounts, components), roots)
    requires ReachedFromRoots(CompiledNodes(mounts, components), roots, mounts[i].useId)
    ensures StepCallsOk(UseIds(mounts), mounts[i].useId, components[mounts[i].useId].steps[s].calls)
  {
    NoDefectAtMount(mounts, components, roots, i);
    assert NodeDeclaresSoundly(CompiledNodes(mounts, components)[i]);
    forall k | 0 <= k < |components[mounts[i].useId].steps[s].calls|
      ensures CallOk(UseIds(mounts), mounts[i].useId, components[mounts[i].useId].steps[s].calls[k])
    {
      ResolvedCallOk(mounts, components, i, s, k);
    }
  }

  /**
   * From compiler to runtime: the plan the dispatcher builds for an accepted profile exists for any
   * entrypoints, and the call graph it hands to the runtime is acyclic with every callee prepared.
   */
  lemma {:induction false} AcceptedProfileRunsAcyclic(mounts: seq<Mount>, components: map<string, ComponentFile>,
                                                      roots: seq<string>)
    requires Compilable(mounts, components) && ComposesSafely(mounts, components)
    requires RootsAreEntrypoints(CompiledNodes(mounts, components), roots)
    ensures var nodes := CompiledNodes(mounts, components);
            && Closes(nodes, roots) && (forall i :: 0 <= i < |roots| ==> roots[i] in Ids(nodes))
            && Acyclic(DependencyEdges(PlanOf(nodes, roots).dependencies))
            && forall d :: d in PlanOf(nodes, roots).dependencies ==>
                exists n :: n in PlanOf(nodes, roots).callees && n.id == d.component
  {
    var nodes := CompiledNodes(mounts, components);
    AcceptedProfileResolves(mounts, components, roots);
    forall i | 0 <= i < |roots| ensures roots[i] in Ids(nodes) && EntryWalk(OutgoingOf(nodes), roots[i]).Visited? {
      EntryWalkExact(OutgoingOf(nodes), roots[i]);
      var k :| 0 <= k < |nodes| && nodes[k].id == roots[i] && nodes[k].entrypoint;
      assert Ids(nodes)[k] == roots[i];
    }
    PlanDependenciesAcyclic(nodes, roots);
    CalleesAreTargets(nodes, roots);
  }
}
