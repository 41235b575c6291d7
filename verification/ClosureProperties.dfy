/**
 * What an accepted closure plan guarantees: exact reachability, edge closure, an acyclic set of
 * dependencies, and independence of mounts no root reaches.
 */
module ClosureProperties {
  import opened Prelude
  import opened Graphs
  import opened Profile
  import opened ClosureWalk
  import opened Closure
  import opened Declarations

  /** Declared dependencies as edges between mount ids. */
  function DependencyEdges(dependencies: seq<Dependency>): set<(string, string)> {
    set d | d in dependencies :: (d.caller, d.component)
  }

  lemma {:induction false} StepCallers(caller: string, steps: seq<LlmStep>)
    ensures forall d :: d in StepDependencies(caller, steps) ==> d.caller == caller
  {
    if steps != [] { StepCallers(caller, steps[1..]); }
  }

  lemma {:induction false} CallersAreMounted(nodes: seq<ComponentNode>)
    ensures forall d :: d in AllDependencies(nodes) ==> d.caller in Ids(nodes)
  {
    if nodes != [] {
      StepCallers(nodes[0].id, nodes[0].steps);
      CallersAreMounted(nodes[1..]);
      assert Ids(nodes) == [nodes[0].id] + Ids(nodes[1..]);
    }
  }

  /** The walk's graph is the graph of the declared dependencies. */
  lemma {:induction false} EdgesAreDependencies(nodes: seq<ComponentNode>)
    ensures Edges(OutgoingOf(nodes)) == DependencyEdges(AllDependencies(nodes))
  {
    var all := AllDependencies(nodes);
    var out := OutgoingOf(nodes);
    CallersAreMounted(nodes);
    forall e | e in Edges(out) ensures e in DependencyEdges(all) {
      var k :| e.0 in out && 0 <= k < |out[e.0]| && out[e.0][k] == e.1;
      var own := Filter(all, (d: Dependency) => d.caller == e.0);
      assert own[k] in own && (own[k].caller, own[k].component) == e;
    }
    forall e | e in DependencyEdges(all) ensures e in Edges(out) {
      var d :| d in all && (d.caller, d.component) == e;
      var own := Filter(all, (d: Dependency) => d.caller == e.0);
      assert d in own;
      var k :| 0 <= k < |own| && own[k] == d;
      assert out[e.0][k] == e.1;
    }
  }

  /** Some requested root reaches `x`. */
  ghost predicate ReachedFromRoots(nodes: seq<ComponentNode>, roots: seq<string>, x: string) {
    exists i :: 0 <= i < |roots| && Reaches(DependencyEdges(AllDependencies(nodes)), roots[i], x)
  }

  /**
   * Each entry of the plan starts with its root, repeats nothing and lists exactly the mounts the
   * root reaches; the component list is exactly what some root reaches, in profile order.
   */
  lemma {:induction false} PlanIsExact(nodes: seq<ComponentNode>, roots: seq<string>)
    requires Preflight(nodes, roots) && Closes(nodes, roots)
    requires forall i :: 0 <= i < |roots| ==> roots[i] in Ids(nodes)
    ensures var plan := PlanOf(nodes, roots);
            var E := DependencyEdges(AllDependencies(nodes));
            && |plan.entries| == |roots|
            && (forall i :: 0 <= i < |roots| ==>
                  var e := plan.entries[i];
                  && e.root == roots[i] && e.components != [] && e.components[0] == roots[i]
                  && Distinct(e.components)
                  && forall x :: x in e.components <==> Reaches(E, roots[i], x))
            && (forall x :: x in UnionOf(plan.entries) <==> ReachedFromRoots(nodes, roots, x))
            && (forall x :: x in UnionOf(plan.entries) ==> x in Ids(nodes))
            && (forall n :: n in plan.components <==> n in nodes && ReachedFromRoots(nodes, roots, n.id))
  {
    EdgesAreDependencies(nodes);
    var out := OutgoingOf(nodes);
    var entries := EntriesOf(nodes, roots);
    var E := DependencyEdges(AllDependencies(nodes));
    forall i | 0 <= i < |roots|
      ensures && entries[i].components != [] && entries[i].components[0] == roots[i] && Distinct(entries[i].components)
              && (forall x :: x in entries[i].components <==> Reaches(E, roots[i], x))
              && (forall x :: x in entries[i].components ==> x in Ids(nodes))
    {
      EntryWalkExact(out, roots[i]);
    }
    forall x ensures x in UnionOf(entries) <==> ReachedFromRoots(nodes, roots, x) {
      if ReachedFromRoots(nodes, roots, x) {
        var i :| 0 <= i < |roots| && Reaches(E, roots[i], x);
        assert entries[i] in entries && x in entries[i].components;
      }
    }
  }

  /** The plan keeps every declared dependency whose caller it kept, in declaration order. */
  lemma {:induction false} PlanIsEdgeClosed(nodes: seq<ComponentNode>, roots: seq<string>)
    requires Preflight(nodes, roots) && Closes(nodes, roots)
    requires forall i :: 0 <= i < |roots| ==> roots[i] in Ids(nodes)
    ensures var plan := PlanOf(nodes, roots);
            && plan.dependencies == Filter(AllDependencies(nodes), (d: Dependency) => d.caller in UnionOf(plan.entries))
            && (forall d :: d in plan.dependencies ==> d.component in UnionOf(plan.entries))
  {
    PlanIsExact(nodes, roots);
    var union := UnionOf(PlanOf(nodes, roots).entries);
    var all := AllDependencies(nodes);
    var E := DependencyEdges(all);
    forall d | d in all && d.caller in union ensures d.component in union {
      var i :| 0 <= i < |roots| && Reaches(E, roots[i], d.caller);
      assert (d.caller, d.component) in E;
      EdgeReaches(E, d.caller, d.component);
      ReachesTransitive(E, roots[i], d.caller, d.component);
    }
    FilterAgree(all, (d: Dependency) => d.caller in union && d.component in union,
                (d: Dependency) => d.caller in union);
  }

  lemma {:induction false} ScopedTargets(nodes: seq<ComponentNode>, roots: seq<ComponentNode>, all: seq<Dependency>,
                                         entries: seq<EntryClosure>, union: set<string>)
    requires forall x :: x in union ==> x in Ids(nodes)
    ensures var plan := Scoped(nodes, roots, all, entries, union);
            && (forall n :: n in plan.callees <==>
                              n in nodes && exists d :: d in plan.dependencies && d.component == n.id)
            && (forall d :: d in plan.dependencies ==> exists n :: n in plan.callees && n.id == d.component)
  {
    var plan := Scoped(nodes, roots, all, entries, union);
    TargetsListed(plan.dependencies);
    forall d | d in plan.dependencies ensures exists n :: n in plan.callees && n.id == d.component {
      var i :| 0 <= i < |nodes| && Ids(nodes)[i] == d.component;
      assert nodes[i] in plan.callees;
    }
  }

  /** The callees are exactly the mounted targets of the plan's dependencies, none missing. */
  lemma {:induction false} CalleesAreTargets(nodes: seq<ComponentNode>, roots: seq<string>)
    requires Preflight(nodes, roots) && Closes(nodes, roots)
    requires forall i :: 0 <= i < |roots| ==> roots[i] in Ids(nodes)
    ensures var plan := PlanOf(nodes, roots);
            && (forall n :: n in plan.callees <==>
                              n in nodes && exists d :: d in plan.dependencies && d.component == n.id)
            && (forall d :: d in plan.dependencies ==> exists n :: n in plan.callees && n.id == d.component)
  {
    PlanIsExact(nodes, roots);
    var plan := PlanOf(nodes, roots);
    ScopedTargets(nodes, plan.roots, AllDependencies(nodes), plan.entries, UnionOf(plan.entries));
  }

  lemma {:induction false} TargetsListed(dependencies: seq<Dependency>)
    ensures forall x :: x in Callees(dependencies) <==> exists d :: d in dependencies && d.component == x
  {
    forall d | d in dependencies ensures d.component in Callees(dependencies) {
      var k :| 0 <= k < |dependencies| && dependencies[k] == d;
      assert Callees(dependencies)[k] == d.component;
    }
  }

  /** No cycle survives in an accepted plan: the runtime only ever sees an acyclic call graph. */
  lemma {:induction false} PlanDependenciesAcyclic(nodes: seq<ComponentNode>, roots: seq<string>)
    requires Preflight(nodes, roots) && Closes(nodes, roots)
    requires forall i :: 0 <= i < |roots| ==> roots[i] in Ids(nodes)
    ensures Acyclic(DependencyEdges(PlanOf(nodes, roots).dependencies))
  {
    PlanIsExact(nodes, roots);
    EdgesAreDependencies(nodes);
    var plan := PlanOf(nodes, roots);
    var E := Edges(OutgoingOf(nodes));
    var D := DependencyEdges(plan.dependencies);
    forall p | ClosedWalk(D, p) ensures false {
      FirstEdge(D, p);
      assert ClosedWalk(E, p);
      var i :| 0 <= i < |roots| && Reaches(E, roots[i], p[0]);
      EntryWalkExact(OutgoingOf(nodes), roots[i]);
      assert Defect(OutgoingOf(nodes), p[0]);
    }
  }

  // ---- mounts no root reaches ----------------------------------------------------------------

  /** The mounts some root reaches, whether mounted or not. */
  ghost function Region(nodes: seq<ComponentNode>, roots: seq<string>): iset<string> {
    iset x: string | ReachedFromRoots(nodes, roots, x)
  }

  /** The part of a profile inside a region, in profile order. */
  ghost function Inside(nodes: seq<ComponentNode>, region: iset<string>): seq<ComponentNode> {
    Filter(nodes, (n: ComponentNode) => n.id in region)
  }

  lemma {:induction false} DependenciesOfKept(nodes: seq<ComponentNode>, keep: string -> bool)
    ensures Filter(AllDependencies(nodes), (d: Dependency) => keep(d.caller))
         == AllDependencies(Filter(nodes, (n: ComponentNode) => keep(n.id)))
  {
    if nodes != [] {
      var byCaller := (d: Dependency) => keep(d.caller);
      var own := StepDependencies(nodes[0].id, nodes[0].steps);
      StepCallers(nodes[0].id, nodes[0].steps);
      FilterConcat(own, AllDependencies(nodes[1..]), byCaller);
      DependenciesOfKept(nodes[1..], keep);
      if keep(nodes[0].id) { KeepAll(own, byCaller); } else { KeepNone(own, byCaller); }
      var kept := Filter(nodes, (n: ComponentNode) => keep(n.id));
      if keep(nodes[0].id) { assert kept[1..] == Filter(nodes[1..], (n: ComponentNode) => keep(n.id)); }
    }
  }

  lemma {:induction false} KeepAll<T(!new)>(s: seq<T>, keep: T -> bool)
    requires forall x :: x in s ==> keep(x)
    ensures Filter(s, keep) == s
  {
    if s != [] { KeepAll(s[1..], keep); }
  }

  lemma {:induction false} KeepNone<T(!new)>(s: seq<T>, keep: T -> bool)
    requires forall x :: x in s ==> !keep(x)
    ensures Filter(s, keep) == []
  {
    if s != [] { KeepNone(s[1..], keep); }
  }

  /** Profiles that look alike inside a region declare the same dependencies from it. */
  lemma {:induction false} SameDependenciesInside(nodes: seq<ComponentNode>, nodes': seq<ComponentNode>,
                                                  region: iset<string>, finer: Dependency -> bool)
    requires Inside(nodes, region) == Inside(nodes', region)
    requires forall d: Dependency :: finer(d) ==> d.caller in region
    ensures Filter(AllDependencies(nodes), finer) == Filter(AllDependencies(nodes'), finer)
  {
    var inRegion := (id: string) => id in region;
    var byCaller := (d: Dependency) => inRegion(d.caller);
    forall ns | ns in [nodes, nodes']
        ensures Filter(AllDependencies(Inside(ns, region)), finer) == Filter(AllDependencies(ns), finer) {
      DependenciesOfKept(ns, inRegion);
      FilterFilter(AllDependencies(ns), byCaller, finer);
      FilterAgree(ns, (n: ComponentNode) => inRegion(n.id), (n: ComponentNode) => n.id in region);
    }
  }

  lemma {:induction false} InsideHas(nodes: seq<ComponentNode>, region: iset<string>, id: string)
    requires id in region
    ensures id in Ids(nodes) <==> id in Ids(Inside(nodes, region))
  {
    if id in Ids(nodes) {
      var i :| 0 <= i < |nodes| && Ids(nodes)[i] == id;
      assert nodes[i] in Inside(nodes, region);
      var k :| 0 <= k < |Inside(nodes, region)| && Inside(nodes, region)[k] == nodes[i];
      assert Ids(Inside(nodes, region))[k] == id;
    }
    if id in Ids(Inside(nodes, region)) {
      var k :| 0 <= k < |Inside(nodes, region)| && Ids(Inside(nodes, region))[k] == id;
      var n := Inside(nodes, region)[k];
      assert n in nodes;
      var i :| 0 <= i < |nodes| && nodes[i] == n;
      assert Ids(nodes)[i] == id;
    }
  }

  lemma {:induction false} RegionAgrees(nodes: seq<ComponentNode>, nodes': seq<ComponentNode>, roots: seq<string>)
    requires Inside(nodes, Region(nodes, roots)) == Inside(nodes', Region(nodes, roots))
    ensures AgreeOn(OutgoingOf(nodes), OutgoingOf(nodes'), Region(nodes, roots))
  {
    var R := Region(nodes, roots);
    var out, out' := OutgoingOf(nodes), OutgoingOf(nodes');
    var E := DependencyEdges(AllDependencies(nodes));
    EdgesAreDependencies(nodes);
    forall a | a in R
      ensures (a in out <==> a in out')
          && (a in out ==> out[a] == out'[a] && forall k :: 0 <= k < |out[a]| ==> out[a][k] in R)
    {
      InsideHas(nodes, R, a);
      InsideHas(nodes', R, a);
      SameDependenciesInside(nodes, nodes', R, (d: Dependency) => d.caller == a);
      if a in out {
        forall k | 0 <= k < |out[a]| ensures out[a][k] in R {
          assert (a, out[a][k]) in Edges(out);
          var i :| 0 <= i < |roots| && Reaches(E, roots[i], a);
          EdgeReaches(E, a, out[a][k]);
          ReachesTransitive(E, roots[i], a, out[a][k]);
        }
      }
    }
  }

  lemma {:induction false} NodeByIdMember(nodes: seq<ComponentNode>, id: string)
    requires id in Ids(nodes)
    ensures NodeById(nodes, id) in nodes && NodeById(nodes, id).id == id
  {
    if nodes[0].id != id {
      assert Ids(nodes)[1..] == Ids(nodes[1..]);
      NodeByIdMember(nodes[1..], id);
    }
  }

  lemma {:induction false} SameNodeInside(nodes: seq<ComponentNode>, nodes': seq<ComponentNode>, region: iset<string>,
                                          id: string)
    requires Inside(nodes, region) == Inside(nodes', region)
    requires Distinct(Ids(nodes)) && Distinct(Ids(nodes'))
    requires id in region && id in Ids(nodes) && id in Ids(nodes')
    ensures NodeById(nodes, id) == NodeById(nodes', id)
  {
    NodeByIdMember(nodes, id);
    assert NodeById(nodes, id) in Inside(nodes, region);
    assert NodeById(nodes, id) in Inside(nodes', region);
    var i :| 0 <= i < |nodes'| && nodes'[i] == NodeById(nodes, id);
    assert Ids(nodes')[i] == id;
    NodeByIdAt(nodes', i);
  }

  /**
   * Adding, removing or changing mounts that no requested root reaches changes neither whether the
   * closure is accepted nor any part of the plan.
   */
  lemma {:induction false} UnreachableMountsIrrelevant(nodes: seq<ComponentNode>, nodes': seq<ComponentNode>,
                                                       roots: seq<string>)
    requires Preflight(nodes, roots) && Preflight(nodes', roots)
    requires forall i :: 0 <= i < |roots| ==> roots[i] in Ids(nodes) && roots[i] in Ids(nodes')
    requires Inside(nodes, Region(nodes, roots)) == Inside(nodes', Region(nodes, roots))
    ensures Closes(nodes, roots) <==> Closes(nodes', roots)
    ensures Closes(nodes, roots) ==> PlanOf(nodes, roots) == PlanOf(nodes', roots)
  {
    var R := Region(nodes, roots);
    RegionAgrees(nodes, nodes', roots);
    forall i | 0 <= i < |roots|
      ensures roots[i] in R && EntryWalk(OutgoingOf(nodes), roots[i]) == EntryWalk(OutgoingOf(nodes'), roots[i])
    {
      ReachesSelf(DependencyEdges(AllDependencies(nodes)), roots[i]);
      WalkedAgree(OutgoingOf(nodes), OutgoingOf(nodes'), R, roots[i], [], []);
    }
    if Closes(nodes, roots) { SamePlan(nodes, nodes', roots); }
  }

  lemma {:induction false} SamePlan(nodes: seq<ComponentNode>, nodes': seq<ComponentNode>, roots: seq<string>)
    requires Preflight(nodes, roots) && Preflight(nodes', roots)
    requires forall i :: 0 <= i < |roots| ==> roots[i] in Ids(nodes) && roots[i] in Ids(nodes')
    requires Inside(nodes, Region(nodes, roots)) == Inside(nodes', Region(nodes, roots))
    requires Closes(nodes, roots) && Closes(nodes', roots)
    requires forall i :: 0 <= i < |roots| ==>
               roots[i] in Region(nodes, roots)
               && EntryWalk(OutgoingOf(nodes), roots[i]) == EntryWalk(OutgoingOf(nodes'), roots[i])
    ensures PlanOf(nodes, roots) == PlanOf(nodes', roots)
  {
    var R := Region(nodes, roots);
    PlanIsExact(nodes, roots);
    var plan, plan' := PlanOf(nodes, roots), PlanOf(nodes', roots);
    assert plan.entries == plan'.entries;
    forall i | 0 <= i < |roots| ensures plan.roots[i] == plan'.roots[i] {
      SameNodeInside(nodes, nodes', R, roots[i]);
    }
    assert plan.roots == plan'.roots;
    ScopedAgree(nodes, nodes', R, plan.roots, plan.entries, UnionOf(plan.entries));
  }

  /** The filters that build a plan see only the region. */
  lemma {:induction false} ScopedAgree(nodes: seq<ComponentNode>, nodes': seq<ComponentNode>, region: iset<string>,
                                       roots: seq<ComponentNode>, entries: seq<EntryClosure>, union: set<string>)
    requires Inside(nodes, region) == Inside(nodes', region) && forall x :: x in union ==> x in region
    ensures Scoped(nodes, roots, AllDependencies(nodes), entries, union)
         == Scoped(nodes', roots, AllDependencies(nodes'), entries, union)
  {
    var kept := (n: ComponentNode) => n.id in union;
    FilterFilter(nodes, (n: ComponentNode) => n.id in region, kept);
    FilterFilter(nodes', (n: ComponentNode) => n.id in region, kept);
    SameDependenciesInside(nodes, nodes', region, (d: Dependency) => d.caller in union && d.component in union);
  }
}
