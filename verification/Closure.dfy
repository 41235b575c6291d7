/**
 * The dispatcher's closure of a compiled profile
 * (dispatcher/claude-agent-sdk/src/closure.ts, `componentDependencies` and `resolveComponentClosure`).
 */
module Closure {
  import opened Prelude
  import opened Profile
  import opened ClosureWalk
  import opened Declarations
  import opened VisitOrder

  datatype EntryClosure = EntryClosure(root: string, components: seq<string>)

  datatype ClosurePlan = ClosurePlan(
    roots: seq<ComponentNode>,
    callees: seq<ComponentNode>,
    components: seq<ComponentNode>,
    entries: seq<EntryClosure>,
    dependencies: seq<Dependency>)

  // ---- the declared edges --------------------------------------------------------------------

  predicate NodeDeclaresSoundly(node: ComponentNode) {
    && (DeclaresCalls(node.steps) ==> COMPONENT_INVOCATION in node.requiredCapabilities)
    && forall s :: 0 <= s < |node.steps| ==> Distinct(Aliases(node.steps[s].calls))
  }

  predicate DeclareSoundly(nodes: seq<ComponentNode>) {
    forall i :: 0 <= i < |nodes| ==> NodeDeclaresSoundly(nodes[i])
  }

  /** What each error says about one node's declarations. */
  predicate NodeFault(node: ComponentNode, e: ClosureError) {
    match e
    case CapabilityMissing =>
      (exists s :: 0 <= s < |node.steps| && node.steps[s].calls != [])
      && COMPONENT_INVOCATION !in node.requiredCapabilities
    case DuplicateAlias => exists s, j, k ::
        0 <= s < |node.steps| && 0 <= j < k < |node.steps[s].calls|
        && node.steps[s].calls[j].alias == node.steps[s].calls[k].alias
    case _ => false
  }

  predicate DeclarationFault(nodes: seq<ComponentNode>, e: ClosureError) {
    exists n :: n in nodes && NodeFault(n, e)
  }

  method ComponentDependencies(nodes: seq<ComponentNode>) returns (r: Result<seq<Dependency>, ClosureError>)
    ensures r.Ok? <==> DeclareSoundly(nodes)
    ensures r.Ok? ==> r.value == AllDependencies(nodes) && InDeclarationOrder(nodes, r.value)
    ensures r.Err? ==> DeclarationFault(nodes, r.error)
  {
    var dependencies: seq<Dependency> := [];
    var i := 0;
    while i < |nodes|
      invariant 0 <= i <= |nodes|
      invariant forall j :: 0 <= j < i ==> NodeDeclaresSoundly(nodes[j])
      invariant dependencies + AllDependencies(nodes[i..]) == AllDependencies(nodes)
    {
      var node := nodes[i];
      assert nodes[i..][0] == node && nodes[i..][1..] == nodes[i + 1..];
      var own := NodeDependencies(node);
      if own.Err? {
        assert node in nodes;
        return Err(own.error);
      }
      assert dependencies + (own.value + AllDependencies(nodes[i + 1..]))
          == (dependencies + own.value) + AllDependencies(nodes[i + 1..]);
      dependencies := dependencies + own.value;
      i := i + 1;
    }
    assert nodes[i..] == [];
    DeclaredInOrder(nodes);
    r := Ok(dependencies);
  }

  /** The body of the outer loop: one node's declared edges. */
  method NodeDependencies(node: ComponentNode) returns (r: Result<seq<Dependency>, ClosureError>)
    ensures r.Ok? <==> NodeDeclaresSoundly(node)
    ensures r.Ok? ==> r.value == StepDependencies(node.id, node.steps)
    ensures r.Err? ==> NodeFault(node, r.error)
  {
    if DeclaresCalls(node.steps) && COMPONENT_INVOCATION !in node.requiredCapabilities {
      return Err(CapabilityMissing);
    }
    var own: seq<Dependency> := [];
    var s := 0;
    while s < |node.steps|
      invariant 0 <= s <= |node.steps|
      invariant forall j :: 0 <= j < s ==> Distinct(Aliases(node.steps[j].calls))
      invariant own + StepDependencies(node.id, node.steps[s..]) == StepDependencies(node.id, node.steps)
    {
      var step := node.steps[s];
      assert node.steps[s..][0] == step && node.steps[s..][1..] == node.steps[s + 1..];
      var unique := AliasesUnique(step.calls);
      if !unique {
        RepeatedAlias(node, s);
        return Err(DuplicateAlias);
      }
      var declared := CallDependencies(node.id, step.name, step.calls);
      assert own + (declared + StepDependencies(node.id, node.steps[s + 1..]))
          == (own + declared) + StepDependencies(node.id, node.steps[s + 1..]);
      own := own + declared;
      s := s + 1;
    }
    assert node.steps[s..] == [];
    r := Ok(own);
  }

  lemma {:induction false} RepeatedAlias(node: ComponentNode, s: nat)
    requires s < |node.steps| && !Distinct(Aliases(node.steps[s].calls))
    ensures NodeFault(node, DuplicateAlias)
  {
    var calls := node.steps[s].calls;
    var j, k :| 0 <= j < k < |calls| && Aliases(calls)[j] == Aliases(calls)[k];
    assert calls[j].alias == calls[k].alias;
  }

  method AliasesUnique(calls: seq<ComponentCall>) returns (unique: bool)
    ensures unique <==> Distinct(Aliases(calls))
  {
    var aliases: set<string> := {};
    var k := 0;
    while k < |calls|
      invariant 0 <= k <= |calls|
      invariant aliases == Elems(Aliases(calls)[..k])
      invariant Distinct(Aliases(calls)[..k])
    {
      if calls[k].alias in aliases {
        assert Aliases(calls)[k] in Aliases(calls)[..k];
        return false;
      }
      assert Aliases(calls)[..k + 1] == Aliases(calls)[..k] + [calls[k].alias];
      aliases := aliases + {calls[k].alias};
      k := k + 1;
    }
    assert Aliases(calls)[..k] == Aliases(calls);
    return true;
  }

  // ---- the plan ------------------------------------------------------------------------------

  function Ids(nodes: seq<ComponentNode>): seq<string> {
    seq(|nodes|, i requires 0 <= i < |nodes| => nodes[i].id)
  }

  function Callees(dependencies: seq<Dependency>): seq<string> {
    seq(|dependencies|, i requires 0 <= i < |dependencies| => dependencies[i].component)
  }

  function OutgoingOf(nodes: seq<ComponentNode>): Outgoing {
    map id | id in Ids(nodes) :: Callees(Filter(AllDependencies(nodes), (d: Dependency) => d.caller == id))
  }

  predicate EntrypointId(nodes: seq<ComponentNode>, id: string) {
    exists i :: 0 <= i < |nodes| && nodes[i].id == id && nodes[i].entrypoint
  }

  /** `requestedRoots ?? every entrypoint`. */
  function RequestedRoots(nodes: seq<ComponentNode>, requested: Option<seq<string>>): seq<string> {
    match requested
    case Some(ids) => ids
    case None => Ids(Filter(nodes, (n: ComponentNode) => n.entrypoint))
  }

  /** The checks on the document and the requested roots that precede any walk. */
  predicate Preflight(nodes: seq<ComponentNode>, roots: seq<string>) {
    && Distinct(Ids(nodes))
    && (forall i :: 0 <= i < |roots| ==> EntrypointId(nodes, roots[i]))
    && DeclareSoundly(nodes)
  }

  predicate Closes(nodes: seq<ComponentNode>, roots: seq<string>) {
    forall i :: 0 <= i < |roots| ==> EntryWalk(OutgoingOf(nodes), roots[i]).Visited?
  }

  function UnionOf(entries: seq<EntryClosure>): set<string> {
    set e, x | e in entries && x in e.components :: x
  }

  function EntriesOf(nodes: seq<ComponentNode>, roots: seq<string>): seq<EntryClosure>
    requires Closes(nodes, roots)
  {
    seq(|roots|, i requires 0 <= i < |roots| => EntryClosure(roots[i], EntryWalk(OutgoingOf(nodes), roots[i]).order))
  }

  function NodeById(nodes: seq<ComponentNode>, id: string): ComponentNode
    requires id in Ids(nodes)
  {
    if nodes[0].id == id then nodes[0] else assert Ids(nodes)[1..] == Ids(nodes[1..]); NodeById(nodes[1..], id)
  }

  /** The filters that narrow the profile to what the walks collected. */
  function Scoped(nodes: seq<ComponentNode>, roots: seq<ComponentNode>, all: seq<Dependency>,
                  entries: seq<EntryClosure>, union: set<string>): ClosurePlan
  {
    var components := Filter(nodes, (n: ComponentNode) => n.id in union);
    var dependencies := Filter(all, (d: Dependency) => d.caller in union && d.component in union);
    var calleeIds := Callees(dependencies);
    ClosurePlan(roots, Filter(components, (n: ComponentNode) => n.id in calleeIds), components, entries, dependencies)
  }

  function PlanOf(nodes: seq<ComponentNode>, roots: seq<string>): ClosurePlan
    requires Closes(nodes, roots) && forall i :: 0 <= i < |roots| ==> roots[i] in Ids(nodes)
  {
    var rootNodes := seq(|roots|, i requires 0 <= i < |roots| => NodeById(nodes, roots[i]));
    var entries := EntriesOf(nodes, roots);
    Scoped(nodes, rootNodes, AllDependencies(nodes), entries, UnionOf(entries))
  }

  lemma {:induction false} PlanAssembled(nodes: seq<ComponentNode>, roots: seq<string>, rootNodes: seq<ComponentNode>,
                                         entries: seq<EntryClosure>)
    requires |rootNodes| == |entries| == |roots|
    requires forall i :: 0 <= i < |roots| ==> roots[i] in Ids(nodes) && rootNodes[i] == NodeById(nodes, roots[i])
    requires forall i :: 0 <= i < |roots| ==>
               EntryWalk(OutgoingOf(nodes), roots[i]) == Visited(entries[i].components) && entries[i].root == roots[i]
    ensures Closes(nodes, roots)
    ensures PlanOf(nodes, roots) == Scoped(nodes, rootNodes, AllDependencies(nodes), entries, UnionOf(entries))
  {
    assert entries == EntriesOf(nodes, roots);
    assert rootNodes == seq(|roots|, i requires 0 <= i < |roots| => NodeById(nodes, roots[i]));
  }

  // ---- declaration order ---------------------------------------------------------------------

  /** Every callee `id` declares is among `seen`. */
  ghost predicate CalleesSeen(nodes: seq<ComponentNode>, id: string, seen: seq<string>) {
    forall p :: IsPlace(nodes, p) && nodes[p.node].id == id ==> CallAt(nodes, p).component in seen
  }

  /** `next` is not among `seen`, and is what `id` calls at the first place it calls any such component. */
  ghost predicate FirstDeclared(nodes: seq<ComponentNode>, id: string, seen: seq<string>, next: string) {
    && next !in seen
    && exists p :: && IsPlace(nodes, p) && nodes[p.node].id == id && CallAt(nodes, p).component == next
                   && forall q :: IsPlace(nodes, q) && nodes[q.node].id == id && Before(q, p) ==>
                        CallAt(nodes, q).component in seen
  }

  /** The `k`-th component is what the last visited component with an unvisited callee declares first among these. */
  ghost predicate DeclaredNext(nodes: seq<ComponentNode>, order: seq<string>, k: nat)
    requires k < |order|
  {
    exists m :: && 0 <= m < k && FirstDeclared(nodes, order[m], order[..k], order[k])
                && forall j :: m < j < k ==> CalleesSeen(nodes, order[j], order[..k])
  }

  /** The components of an entry in first-visit order of their callees as declared, the root first. */
  ghost predicate InVisitOrder(nodes: seq<ComponentNode>, root: string, order: seq<string>) {
    && order != [] && order[0] == root && Distinct(order)
    && (forall k :: 0 < k < |order| ==> DeclaredNext(nodes, order, k))
    && forall v :: v in order ==> CalleesSeen(nodes, v, order)
  }

  /** The list of a mount's callees is that of its declared calls, in declaration order. */
  lemma {:induction false} OutgoingPlaces(nodes: seq<ComponentNode>, id: string) returns (places: seq<Place>)
    requires id in Ids(nodes)
    ensures |places| == |OutgoingOf(nodes)[id]| && Ascending(places)
    ensures forall k :: 0 <= k < |places| ==>
        IsPlace(nodes, places[k]) && CallAt(nodes, places[k]).component == OutgoingOf(nodes)[id][k]
    ensures forall p :: p in places <==> IsPlace(nodes, p) && nodes[p.node].id == id
  {
    var all := AllListed(nodes);
    places := FilterListed(nodes, AllDependencies(nodes), all, (d: Dependency) => d.caller == id,
                           (p: Place) => p.node < |nodes| && nodes[p.node].id == id);
  }

  lemma {:induction false} CalleesSeenAsListed(nodes: seq<ComponentNode>, id: string, seen: seq<string>)
    requires id in Ids(nodes)
    ensures CalleesSeen(nodes, id, seen) <==> Exhausted(OutgoingOf(nodes), id, seen)
  {
    var places := OutgoingPlaces(nodes, id);
    forall p | p in places ensures exists k :: 0 <= k < |places| && places[k] == p {
    }
    forall k | 0 <= k < |places| ensures places[k] in places {
    }
  }

  /** In an ascending list what is declared before an element stands before it. */
  lemma {:induction false} PlaceBefore(places: seq<Place>, q: Place, c: nat) returns (b: nat)
    requires Ascending(places) && c < |places| && q in places && Before(q, places[c])
    ensures b < c && places[b] == q
  {
    b :| 0 <= b < |places| && places[b] == q;
  }

  lemma {:induction false} FirstDeclaredAsListed(nodes: seq<ComponentNode>, id: string, seen: seq<string>, next: string)
    requires FirstUnseen(OutgoingOf(nodes), id, seen, next)
    ensures FirstDeclared(nodes, id, seen, next)
  {
    var places := OutgoingPlaces(nodes, id);
    var callees := OutgoingOf(nodes)[id];
    var c :| 0 <= c < |callees| && callees[c] == next && forall b :: 0 <= b < c ==> callees[b] in seen;
    var p := places[c];
    assert p in places;
    forall q | q in places && Before(q, p) ensures CallAt(nodes, q).component in seen {
      var b := PlaceBefore(places, q, c);
    }
  }

  lemma {:induction false} NextAsListed(nodes: seq<ComponentNode>, order: seq<string>, k: nat)
    requires k < |order| && VisitedNext(OutgoingOf(nodes), order, k)
    ensures DeclaredNext(nodes, order, k)
  {
    var out := OutgoingOf(nodes);
    var m :| && 0 <= m < k && FirstUnseen(out, order[m], order[..k], order[k])
             && forall j :: m < j < k ==> Exhausted(out, order[j], order[..k]);
    FirstDeclaredAsListed(nodes, order[m], order[..k], order[k]);
    forall j | m < j < k ensures CalleesSeen(nodes, order[j], order[..k]) {
      CalleesSeenAsListed(nodes, order[j], order[..k]);
    }
  }

  lemma {:induction false} EntryInVisitOrder(nodes: seq<ComponentNode>, root: string)
    requires EntryWalk(OutgoingOf(nodes), root).Visited?
    ensures InVisitOrder(nodes, root, EntryWalk(OutgoingOf(nodes), root).order)
  {
    var order := EntryWalk(OutgoingOf(nodes), root).order;
    EntryInOrder(OutgoingOf(nodes), root);
    EntryWalkExact(OutgoingOf(nodes), root);
    forall k | 0 < k < |order| ensures DeclaredNext(nodes, order, k) { NextAsListed(nodes, order, k); }
    forall v | v in order ensures CalleesSeen(nodes, v, order) { CalleesSeenAsListed(nodes, v, order); }
  }

  /** The kept dependencies are those whose caller and callee some entry lists, in declaration order. */
  ghost predicate KeptInOrder(nodes: seq<ComponentNode>, plan: ClosurePlan) {
    exists places :: && ListedAt(nodes, plan.dependencies, places)
                     && forall p :: p in places <==> && IsPlace(nodes, p) && nodes[p.node].id in UnionOf(plan.entries)
                                                     && CallAt(nodes, p).component in UnionOf(plan.entries)
  }

  /** The components some entry lists, in document order; and of these the ones a kept dependency calls. */
  ghost predicate ComponentsInOrder(nodes: seq<ComponentNode>, plan: ClosurePlan) {
    && (exists at :: && PicksAt(nodes, plan.components, at)
                     && forall i: nat :: i in at <==> i < |nodes| && nodes[i].id in UnionOf(plan.entries))
    && (exists at :: && PicksAt(nodes, plan.callees, at)
                     && forall i: nat :: i in at <==> && i < |nodes| && nodes[i].id in UnionOf(plan.entries)
                                                      && nodes[i].id in Callees(plan.dependencies))
  }

  lemma {:induction false} ScopedDependencies(nodes: seq<ComponentNode>, union: set<string>) returns (kept: seq<Place>)
    ensures ListedAt(nodes,
        Filter(AllDependencies(nodes), (d: Dependency) => d.caller in union && d.component in union),
                     kept)
    ensures forall p :: p in kept <==>
        IsPlace(nodes, p) && nodes[p.node].id in union && CallAt(nodes, p).component in union
  {
    var all := AllListed(nodes);
    kept := FilterListed(nodes, AllDependencies(nodes), all,
        (d: Dependency) => d.caller in union && d.component in union,
                         (p: Place) => IsPlace(nodes, p) && nodes[p.node].id in union
                                       && CallAt(nodes, p).component in union);
  }

  /** A filter of a filter picks what satisfies both, in order. */
  lemma {:induction false} ScopedCallees(nodes: seq<ComponentNode>, union: set<string>, called: seq<string>)
    returns (at: seq<nat>)
    ensures PicksAt(nodes, Filter(Filter(nodes, (n: ComponentNode) => n.id in union),
                                  (n: ComponentNode) => n.id in called), at)
    ensures forall i: nat :: i in at <==> i < |nodes| && nodes[i].id in union && nodes[i].id in called
  {
    var both := (n: ComponentNode) => n.id in union && n.id in called;
    FilterFilter(nodes, (n: ComponentNode) => n.id in union, both);
    FilterAgree(Filter(nodes, (n: ComponentNode) => n.id in union), (n: ComponentNode) => n.id in called, both);
    at := FilterPicks(nodes, both);
  }

  lemma {:induction false} ScopedInOrder(nodes: seq<ComponentNode>, roots: seq<ComponentNode>,
                                         entries: seq<EntryClosure>)
    ensures var plan := Scoped(nodes, roots, AllDependencies(nodes), entries, UnionOf(entries));
            KeptInOrder(nodes, plan) && ComponentsInOrder(nodes, plan)
  {
    var union := UnionOf(entries);
    var plan := Scoped(nodes, roots, AllDependencies(nodes), entries, union);
    var kept := ScopedDependencies(nodes, union);
    assert ListedAt(nodes, plan.dependencies, kept);
    var components := FilterPicks(nodes, (n: ComponentNode) => n.id in union);
    assert PicksAt(nodes, plan.components, components);
    var callees := ScopedCallees(nodes, union, Callees(plan.dependencies));
    assert PicksAt(nodes, plan.callees, callees);
  }

  /** The requested roots, or every entrypoint in document order. */
  ghost predicate RootsAsRequested(nodes: seq<ComponentNode>, requested: Option<seq<string>>,
                                   roots: seq<ComponentNode>) {
    match requested
    case Some(ids) => |roots| == |ids| && forall i :: 0 <= i < |ids| ==> roots[i] in nodes && roots[i].id == ids[i]
    case None => exists at ::
        PicksAt(nodes, roots, at) && forall i: nat :: i in at <==> i < |nodes| && nodes[i].entrypoint
  }

  lemma {:induction false} NodeByIdIn(nodes: seq<ComponentNode>, id: string)
    requires id in Ids(nodes)
    ensures NodeById(nodes, id) in nodes && NodeById(nodes, id).id == id
  {
    if nodes[0].id != id {
      assert Ids(nodes)[1..] == Ids(nodes[1..]);
      NodeByIdIn(nodes[1..], id);
    }
  }

  lemma {:induction false} RootsPicked(nodes: seq<ComponentNode>, requested: Option<seq<string>>,
                                       roots: seq<ComponentNode>)
    requires var ids := RequestedRoots(nodes, requested);
             |roots| == |ids| && forall i :: 0 <= i < |ids| ==>
                 ids[i] in Ids(nodes) && roots[i] == NodeById(nodes, ids[i])
    requires Distinct(Ids(nodes))
    ensures RootsAsRequested(nodes, requested, roots)
  {
    if requested.Some? {
      forall i | 0 <= i < |roots| ensures roots[i] in nodes && roots[i].id == requested.value[i] {
        NodeByIdIn(nodes, requested.value[i]);
      }
    } else {
      var entries := Filter(nodes, (n: ComponentNode) => n.entrypoint);
      var at := FilterPicks(nodes, (n: ComponentNode) => n.entrypoint);
      forall i | 0 <= i < |roots| ensures roots[i] == nodes[at[i]] {
        assert Ids(entries)[i] == Ids(nodes)[at[i]];
        NodeByIdAt(nodes, at[i]);
      }
      assert PicksAt(nodes, roots, at);
    }
  }

  /** Every list of a plan is in the order the document and the request give. */
  ghost predicate InDocumentOrder(nodes: seq<ComponentNode>, requested: Option<seq<string>>, plan: ClosurePlan) {
    && RootsAsRequested(nodes, requested, plan.roots)
    && |plan.entries| == |plan.roots|
    && (forall i :: 0 <= i < |plan.entries| ==>
          && plan.entries[i].root == plan.roots[i].id
          && InVisitOrder(nodes, plan.entries[i].root, plan.entries[i].components))
    && KeptInOrder(nodes, plan) && ComponentsInOrder(nodes, plan)
  }

  lemma {:induction false} PlanInOrder(nodes: seq<ComponentNode>, requested: Option<seq<string>>, roots: seq<string>,
                                       rootNodes: seq<ComponentNode>, entries: seq<EntryClosure>)
    requires Distinct(Ids(nodes)) && roots == RequestedRoots(nodes, requested)
    requires |rootNodes| == |entries| == |roots|
    requires forall i :: 0 <= i < |roots| ==> roots[i] in Ids(nodes) && rootNodes[i] == NodeById(nodes, roots[i])
    requires forall i :: 0 <= i < |roots| ==>
               EntryWalk(OutgoingOf(nodes), roots[i]) == Visited(entries[i].components) && entries[i].root == roots[i]
    ensures InDocumentOrder(nodes, requested,
        Scoped(nodes, rootNodes, AllDependencies(nodes), entries, UnionOf(entries)))
  {
    ScopedInOrder(nodes, rootNodes, entries);
    RootsPicked(nodes, requested, rootNodes);
    forall i | 0 <= i < |roots|
      ensures InVisitOrder(nodes, roots[i], entries[i].components) && rootNodes[i].id == roots[i]
    {
      EntryInVisitOrder(nodes, roots[i]);
      NodeByIdIn(nodes, roots[i]);
    }
  }

  /** The loop over the roots: one walk each, stopping at the first that throws. */
  method WalkEntries(outgoing: Outgoing, roots: seq<string>)
    returns (r: Result<seq<EntryClosure>, ClosureError>, union: set<string>)
    ensures r.Ok? <==> forall i :: 0 <= i < |roots| ==> !DefectReachable(outgoing, roots[i])
    ensures r.Ok? <==> forall i :: 0 <= i < |roots| ==> EntryWalk(outgoing, roots[i]).Visited?
    ensures r.Ok? ==> |r.value| == |roots| && union == UnionOf(r.value)
    ensures r.Ok? ==> forall i :: 0 <= i < |roots| ==>
                        EntryWalk(outgoing, roots[i]) == Visited(r.value[i].components) && r.value[i].root == roots[i]
    ensures r.Err? ==> exists i :: 0 <= i < |roots| && FaultReachable(outgoing, roots[i], r.error)
                                && forall j :: 0 <= j < i ==> !DefectReachable(outgoing, roots[j])
  {
    var entries: seq<EntryClosure> := [];
    var walker := new Walker(outgoing);
    var i := 0;
    while i < |roots|
      invariant 0 <= i <= |roots| && |entries| == i
      invariant fresh(walker) && walker.out == outgoing
      invariant forall j :: 0 <= j < i ==> !DefectReachable(outgoing, roots[j])
      invariant forall j :: 0 <= j < i ==>
                  EntryWalk(outgoing, roots[j]) == Visited(entries[j].components) && entries[j].root == roots[j]
      invariant walker.union == UnionOf(entries)
    {
      walker.visited, walker.active := [], [];
      EntryWalkExact(outgoing, roots[i]);
      var thrown := walker.Walk(roots[i]);
      if thrown.Some? {
        return Err(thrown.value), walker.union;
      }
      UnionGrows(entries, EntryClosure(roots[i], walker.visited));
      entries := entries + [EntryClosure(roots[i], walker.visited)];
      i := i + 1;
    }
    r, union := Ok(entries), walker.union;
  }

  /** What each error says about the document and the requested roots. */
  ghost predicate ClosureFault(nodes: seq<ComponentNode>, roots: seq<string>, e: ClosureError) {
    match e
    case DuplicateId => exists i, j :: 0 <= i < j < |nodes| && nodes[i].id == nodes[j].id
    case UnknownRoot => exists i :: 0 <= i < |roots| && forall n :: n in nodes ==> n.id != roots[i]
    case NotAnEntrypoint => exists i :: 0 <= i < |roots| && exists n :: n in nodes && n.id == roots[i] && !n.entrypoint
    case CapabilityMissing | DuplicateAlias => DeclarationFault(nodes, e)
    case CallCycle | SelfCall | MissingMount =>
      exists i :: 0 <= i < |roots| && FaultReachable(OutgoingOf(nodes), roots[i], e)
  }

  /**
   * Returns the plan exactly when the document passes its checks and no root reaches a missing
   * mount, a self-call or a cycle.
   */
  method ResolveComponentClosure(nodes: seq<ComponentNode>, requested: Option<seq<string>>)
    returns (r: Result<ClosurePlan, ClosureError>)
    ensures var roots := RequestedRoots(nodes, requested);
            r.Ok? <==> Preflight(nodes, roots)
                       && forall i :: 0 <= i < |roots| ==> !DefectReachable(OutgoingOf(nodes), roots[i])
    ensures var roots := RequestedRoots(nodes, requested);
            r.Ok? ==> Closes(nodes, roots) && (forall i :: 0 <= i < |roots| ==> roots[i] in Ids(nodes))
                      && r.value == PlanOf(nodes, roots)
    ensures r.Ok? ==> InDocumentOrder(nodes, requested, r.value)
    ensures r.Err? ==> ClosureFault(nodes, RequestedRoots(nodes, requested), r.error)
  {
    var byId := IndexById(nodes);
    if byId.None? {
      ghost var i, j :| 0 <= i < j < |nodes| && Ids(nodes)[i] == Ids(nodes)[j];
      assert nodes[i].id == nodes[j].id;
      return Err(DuplicateId);
    }
    var roots := RequestedRoots(nodes, requested);
    var rootNodes := RootNodes(nodes, byId.value, roots);
    if rootNodes.Err? { return Err(rootNodes.error); }
    var dependencies := ComponentDependencies(nodes);
    if dependencies.Err? { return Err(dependencies.error); }
    var outgoing := OutgoingMap(nodes, dependencies.value);
    var entries, union := WalkEntries(outgoing, roots);
    if entries.Err? { return Err(entries.error); }
    PlanAssembled(nodes, roots, rootNodes.value, entries.value);
    PlanInOrder(nodes, requested, roots, rootNodes.value, entries.value);
    r := Ok(Scoped(nodes, rootNodes.value, dependencies.value, entries.value, union));
  }

  lemma {:induction false} UnionGrows(entries: seq<EntryClosure>, entry: EntryClosure)
    ensures UnionOf(entries + [entry]) == UnionOf(entries) + Elems(entry.components)
  {
    forall x | x in UnionOf(entries + [entry]) ensures x in UnionOf(entries) + Elems(entry.components) {
      var e :| e in entries + [entry] && x in e.components;
      assert e in entries || e == entry;
    }
    forall x | x in UnionOf(entries) + Elems(entry.components) ensures x in UnionOf(entries + [entry]) {
      if x in entry.components {
        assert entry in entries + [entry];
      } else {
        var e :| e in entries && x in e.components;
        assert e in entries + [entry];
      }
    }
  }

  method IndexById(nodes: seq<ComponentNode>) returns (r: Option<map<string, ComponentNode>>)
    ensures r.Some? <==> Distinct(Ids(nodes))
    ensures r.Some? ==> r.value.Keys == Elems(Ids(nodes))
    ensures r.Some? ==> forall i :: 0 <= i < |nodes| ==> nodes[i].id in r.value && r.value[nodes[i].id] == nodes[i]
  {
    var byId: map<string, ComponentNode> := map[];
    var i := 0;
    while i < |nodes|
      invariant 0 <= i <= |nodes|
      invariant Distinct(Ids(nodes)[..i])
      invariant byId.Keys == Elems(Ids(nodes)[..i])
      invariant forall j :: 0 <= j < i ==> nodes[j].id in byId && byId[nodes[j].id] == nodes[j]
    {
      if nodes[i].id in byId {
        assert Ids(nodes)[i] in Ids(nodes)[..i];
        return None;
      }
      assert Ids(nodes)[..i + 1] == Ids(nodes)[..i] + [nodes[i].id];
      byId := byId[nodes[i].id := nodes[i]];
      i := i + 1;
    }
    assert Ids(nodes)[..i] == Ids(nodes);
    r := Some(byId);
  }

  lemma {:induction false} NodeByIdAt(nodes: seq<ComponentNode>, i: nat)
    requires i < |nodes| && Distinct(Ids(nodes))
    ensures NodeById(nodes, Ids(nodes)[i]) == nodes[i]
  {
    if i > 0 {
      assert Ids(nodes)[0] != Ids(nodes)[i];
      assert Ids(nodes)[1..] == Ids(nodes[1..]);
      NodeByIdAt(nodes[1..], i - 1);
    }
  }

  method RootNodes(nodes: seq<ComponentNode>, byId: map<string, ComponentNode>, roots: seq<string>)
    returns (r: Result<seq<ComponentNode>, ClosureError>)
    requires Distinct(Ids(nodes)) && byId.Keys == Elems(Ids(nodes))
    requires forall i :: 0 <= i < |nodes| ==> nodes[i].id in byId && byId[nodes[i].id] == nodes[i]
    ensures r.Ok? <==> forall i :: 0 <= i < |roots| ==> EntrypointId(nodes, roots[i])
    ensures r.Ok? ==> |r.value| == |roots| && forall i :: 0 <= i < |roots| ==>
                        roots[i] in Ids(nodes) && r.value[i] == NodeById(nodes, roots[i])
    ensures r.Err? ==> (r.error.UnknownRoot? || r.error.NotAnEntrypoint?) && ClosureFault(nodes, roots, r.error)
  {
    var found: seq<ComponentNode> := [];
    var i := 0;
    while i < |roots|
      invariant 0 <= i <= |roots| && |found| == i
      invariant forall j :: 0 <= j < i ==> EntrypointId(nodes, roots[j])
      invariant forall j :: 0 <= j < i ==> roots[j] in Ids(nodes) && found[j] == NodeById(nodes, roots[j])
    {
      if roots[i] !in byId {
        assert forall j :: 0 <= j < |nodes| ==> nodes[j].id in byId;
        assert forall n :: n in nodes ==> n.id != roots[i];
        return Err(UnknownRoot);
      }
      var node := byId[roots[i]];
      ghost var at :| 0 <= at < |nodes| && Ids(nodes)[at] == roots[i];
      NodeByIdAt(nodes, at);
      if !node.entrypoint {
        assert forall k :: 0 <= k < |nodes| && nodes[k].id == roots[i] ==> nodes[k] == node;
        assert node in nodes;
        return Err(NotAnEntrypoint);
      }
      found := found + [node];
      i := i + 1;
    }
    r := Ok(found);
  }

  method OutgoingMap(nodes: seq<ComponentNode>, dependencies: seq<Dependency>) returns (outgoing: Outgoing)
    requires dependencies == AllDependencies(nodes)
    ensures outgoing == OutgoingOf(nodes)
  {
    outgoing := map[];
    var i := 0;
    while i < |nodes|
      invariant 0 <= i <= |nodes|
      invariant outgoing.Keys == Elems(Ids(nodes)[..i])
      invariant forall id :: id in outgoing ==> outgoing[id] == OutgoingOf(nodes)[id]
    {
      var id := nodes[i].id;
      assert Ids(nodes)[i] == id;
      assert Ids(nodes)[..i + 1] == Ids(nodes)[..i] + [id];
      outgoing := outgoing[id := Callees(Filter(dependencies, (d: Dependency) => d.caller == id))];
      i := i + 1;
    }
    assert Ids(nodes)[..i] == Ids(nodes);
  }
}
