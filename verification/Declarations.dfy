/**
 * The declared calls of a compiled document, as the list the dispatcher builds and by their places in the document
 * (dispatcher/claude-agent-sdk/src/closure.ts, `componentDependencies`).
 */
module Declarations {
  import opened Prelude
  import opened Profile

  datatype Dependency = Dependency(caller: string, step: string, alias: string, component: string)

  function CallDependencies(caller: string, step: string, calls: seq<ComponentCall>): seq<Dependency> {
    seq(|calls|, k requires 0 <= k < |calls| => Dependency(caller, step, calls[k].alias, calls[k].component))
  }

  function StepDependencies(caller: string, steps: seq<LlmStep>): seq<Dependency> {
    if steps == [] then []
    else CallDependencies(caller, steps[0].name, steps[0].calls) + StepDependencies(caller, steps[1..])
  }

  /** All declared edges in profile, step and declaration order. */
  function AllDependencies(nodes: seq<ComponentNode>): seq<Dependency> {
    if nodes == [] then [] else StepDependencies(nodes[0].id, nodes[0].steps) + AllDependencies(nodes[1..])
  }

  // ---- places --------------------------------------------------------------------------------

  /** A declared call by the positions of its component, its step and itself. */
  datatype Place = Place(node: nat, step: nat, call: nat)

  predicate IsPlace(nodes: seq<ComponentNode>, p: Place) {
    && p.node < |nodes| && p.step < |nodes[p.node].steps| && p.call < |nodes[p.node].steps[p.step].calls|
  }

  function CallAt(nodes: seq<ComponentNode>, p: Place): ComponentCall
    requires IsPlace(nodes, p)
  {
    nodes[p.node].steps[p.step].calls[p.call]
  }

  /** Declared earlier: in an earlier component, or step, or position within the step. */
  predicate Before(p: Place, q: Place) {
    || p.node < q.node
    || (p.node == q.node && (p.step < q.step || (p.step == q.step && p.call < q.call)))
  }

  /** The dependency is the call declared at the place. */
  predicate DeclaredAs(nodes: seq<ComponentNode>, p: Place, d: Dependency)
    requires IsPlace(nodes, p)
  {
    && d.caller == nodes[p.node].id && d.step == nodes[p.node].steps[p.step].name
    && d.alias == CallAt(nodes, p).alias && d.component == CallAt(nodes, p).component
  }

  predicate Ascending(places: seq<Place>) {
    forall j, k :: 0 <= j < k < |places| ==> Before(places[j], places[k])
  }

  /** The `k`-th dependency is the call declared at the `k`-th place, and the places ascend. */
  predicate ListedAt(nodes: seq<ComponentNode>, deps: seq<Dependency>, places: seq<Place>) {
    && |places| == |deps| && Ascending(places)
    && forall k :: 0 <= k < |deps| ==> IsPlace(nodes, places[k]) && DeclaredAs(nodes, places[k], deps[k])
  }

  /** The list has one dependency per declared call that is wanted, in declaration order. */
  ghost predicate Lists(nodes: seq<ComponentNode>, deps: seq<Dependency>, places: seq<Place>, wanted: Place -> bool) {
    ListedAt(nodes, deps, places) && forall p :: p in places <==> IsPlace(nodes, p) && wanted(p)
  }

  /** One dependency per declared call, in declaration order. */
  ghost predicate InDeclarationOrder(nodes: seq<ComponentNode>, deps: seq<Dependency>) {
    exists places :: ListedAt(nodes, deps, places) && forall p :: IsPlace(nodes, p) ==> p in places
  }

  // ---- the list is in that order -------------------------------------------------------------

  lemma {:induction false} JoinLists(nodes: seq<ComponentNode>, a: seq<Dependency>, pa: seq<Place>, wa: Place -> bool,
                                     b: seq<Dependency>, pb: seq<Place>, wb: Place -> bool, w: Place -> bool)
    requires Lists(nodes, a, pa, wa) && Lists(nodes, b, pb, wb)
    requires forall p, q :: p in pa && q in pb ==> Before(p, q)
    requires forall p :: IsPlace(nodes, p) ==> (w(p) <==> wa(p) || wb(p))
    ensures Lists(nodes, a + b, pa + pb, w)
  {
    var all := pa + pb;
    forall j, k | 0 <= j < k < |all| ensures Before(all[j], all[k]) {
      if j < |pa| <= k { assert all[j] in pa && all[k] in pb; }
    }
  }

  lemma {:induction false} CallsListed(nodes: seq<ComponentNode>, n: nat, s: nat) returns (places: seq<Place>)
    requires n < |nodes| && s < |nodes[n].steps|
    ensures var step := nodes[n].steps[s];
            Lists(nodes, CallDependencies(nodes[n].id, step.name, step.calls), places,
                  (p: Place) => p.node == n && p.step == s)
  {
    var calls := nodes[n].steps[s].calls;
    places := seq(|calls|, k requires 0 <= k < |calls| => Place(n, s, k));
    forall p | IsPlace(nodes, p) && p.node == n && p.step == s ensures p in places {
      assert places[p.call] == p;
    }
  }

  lemma {:induction false} StepsListed(nodes: seq<ComponentNode>, n: nat, s: nat) returns (places: seq<Place>)
    requires n < |nodes| && s <= |nodes[n].steps|
    ensures Lists(nodes, StepDependencies(nodes[n].id, nodes[n].steps[s..]), places,
                  (p: Place) => p.node == n && p.step >= s)
    decreases |nodes[n].steps| - s
  {
    var steps := nodes[n].steps;
    if s == |steps| {
      places := [];
    } else {
      var own := CallsListed(nodes, n, s);
      var rest := StepsListed(nodes, n, s + 1);
      assert steps[s..][0] == steps[s] && steps[s..][1..] == steps[s + 1..];
      places := own + rest;
      JoinLists(nodes, CallDependencies(nodes[n].id, steps[s].name, steps[s].calls), own,
                (p: Place) => p.node == n && p.step == s,
                StepDependencies(nodes[n].id, steps[s + 1..]), rest, (p: Place) => p.node == n && p.step >= s + 1,
                (p: Place) => p.node == n && p.step >= s);
    }
  }

  lemma {:induction false} NodesListed(nodes: seq<ComponentNode>, n: nat) returns (places: seq<Place>)
    requires n <= |nodes|
    ensures Lists(nodes, AllDependencies(nodes[n..]), places, (p: Place) => p.node >= n)
    decreases |nodes| - n
  {
    if n == |nodes| {
      places := [];
    } else {
      var own := StepsListed(nodes, n, 0);
      var rest := NodesListed(nodes, n + 1);
      assert nodes[n..][0] == nodes[n] && nodes[n..][1..] == nodes[n + 1..] && nodes[n].steps[0..] == nodes[n].steps;
      places := own + rest;
      JoinLists(nodes, StepDependencies(nodes[n].id, nodes[n].steps), own, (p: Place) => p.node == n && p.step >= 0,
                AllDependencies(nodes[n + 1..]), rest, (p: Place) => p.node >= n + 1, (p: Place) => p.node >= n);
    }
  }

  /** The dispatcher's list has exactly one entry per declared call, in declaration order. */
  lemma {:induction false} AllListed(nodes: seq<ComponentNode>) returns (places: seq<Place>)
    ensures Lists(nodes, AllDependencies(nodes), places, (p: Place) => true)
    ensures InDeclarationOrder(nodes, AllDependencies(nodes))
  {
    places := NodesListed(nodes, 0);
    assert nodes[0..] == nodes;
  }

  lemma {:induction false} DeclaredInOrder(nodes: seq<ComponentNode>)
    ensures InDeclarationOrder(nodes, AllDependencies(nodes))
  {
    var places := AllListed(nodes);
  }

  /** Filtering the list by what a dependency says keeps the order, and every call it keeps. */
  lemma {:induction false} FilterListed(nodes: seq<ComponentNode>, deps: seq<Dependency>, places: seq<Place>,
                                        keep: Dependency -> bool, wanted: Place -> bool) returns (kept: seq<Place>)
    requires ListedAt(nodes, deps, places)
    requires forall k :: 0 <= k < |deps| ==> keep(deps[k]) == wanted(places[k])
    ensures ListedAt(nodes, Filter(deps, keep), kept)
    ensures forall p :: p in kept <==> p in places && wanted(p)
  {
    if deps == [] {
      kept := [];
    } else {
      var rest := FilterListed(nodes, deps[1..], places[1..], keep, wanted);
      kept := if keep(deps[0]) then [places[0]] + rest else rest;
      assert places == [places[0]] + places[1..];
      assert Filter(deps, keep) == if keep(deps[0]) then [deps[0]] + Filter(deps[1..], keep)
                                   else Filter(deps[1..], keep);
      if keep(deps[0]) { PrependListed(nodes, deps[0], places[0], Filter(deps[1..], keep), rest, places[1..]); }
    }
  }

  lemma {:induction false} PrependListed(nodes: seq<ComponentNode>, d: Dependency, p: Place, deps: seq<Dependency>,
                                         places: seq<Place>, after: seq<Place>)
    requires ListedAt(nodes, deps, places) && IsPlace(nodes, p) && DeclaredAs(nodes, p, d)
    requires (forall q :: q in places ==> q in after) && forall k :: 0 <= k < |after| ==> Before(p, after[k])
    ensures ListedAt(nodes, [d] + deps, [p] + places)
  {
    forall k | 0 <= k < |places| ensures Before(p, places[k]) { assert places[k] in after; }
  }
}
