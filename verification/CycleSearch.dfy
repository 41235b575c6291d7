/**
 * The compiler's three-colour depth-first search for a component call cycle
 * (core/src/compile.rs, `first_component_call_cycle`).
 */
module CycleSearch {
  import opened Prelude
  import opened Graphs

  /** The adjacency list read as a set of edges. */
  function EdgeSet(edges: seq<seq<nat>>): set<(nat, nat)> {
    set i, k | 0 <= i < |edges| && 0 <= k < |edges[i]| :: (i, edges[i][k])
  }

  predicate InRange(edges: seq<seq<nat>>) {
    forall i, k :: 0 <= i < |edges| && 0 <= k < |edges[i]| ==> edges[i][k] < |edges|
  }

  const UNSEEN := 0
  const ACTIVE := 1
  const FINISHED := 2

  /** The mutable state the recursive `visit` shares: the colour array and the stack. */
  class Search {
    const edges: seq<seq<nat>>
    const states: array<nat>
    var stack: seq<nat>

    ghost function Coloured(colour: nat): set<nat>
      reads states
    {
      set i | 0 <= i < states.Length && states[i] == colour
    }

    ghost predicate Valid()
      reads this, states
    {
      && states.Length == |edges| && InRange(edges)
      && (forall i :: 0 <= i < |edges| ==> states[i] <= FINISHED)
      && (forall i :: 0 <= i < |stack| ==> stack[i] < |edges| && states[stack[i]] == ACTIVE)
      && (forall n :: 0 <= n < |edges| && states[n] == ACTIVE ==> n in stack)
      && Distinct(stack)
      && (stack != [] ==> Walk(EdgeSet(edges), stack))
      && ClosedUnder(EdgeSet(edges), Coloured(FINISHED))
      && AcyclicOn(EdgeSet(edges), Coloured(FINISHED))
    }

    constructor (edges: seq<seq<nat>>)
      requires InRange(edges)
      ensures Valid() && fresh(states) && this.edges == edges && stack == []
      ensures forall i :: 0 <= i < |edges| ==> states[i] == UNSEEN
    {
      this.edges := edges;
      states := new nat[|edges|](_ => UNSEEN);
      stack := [];
    }

    /** `stack.iter().position(..).expect(..)`: the search for an active node always succeeds. */
    method CloseCycle(callee: nat) returns (cycle: seq<nat>)
      requires Valid() && callee in stack && (stack[|stack| - 1], callee) in EdgeSet(edges)
      ensures SimpleCycle(EdgeSet(edges), cycle)
    {
      var start := 0;
      while stack[start] != callee
        invariant start < |stack| && callee !in stack[..start]
        decreases |stack| - start
      {
        assert stack == stack[..start + 1] + stack[start + 1..];
        start := start + 1;
      }
      cycle := stack[start..] + [callee];
      CycleFromStack(EdgeSet(edges), stack, start);
    }

    /** `states[node] = 1; stack.push(node)`. */
    method Enter(node: nat)
      requires Valid() && node < |edges| && states[node] == UNSEEN
      requires stack != [] ==> (stack[|stack| - 1], node) in EdgeSet(edges)
      modifies this, states
      ensures Valid() && stack == old(stack) + [node] && states[node] == ACTIVE
      ensures forall n :: 0 <= n < |edges| && n != node ==> states[n] == old(states[n])
      ensures Coloured(UNSEEN) < old(Coloured(UNSEEN))
    {
      assert node in Coloured(UNSEEN);
      states[node] := ACTIVE;
      stack := stack + [node];
      assert Coloured(FINISHED) == old(Coloured(FINISHED));
      assert node !in Coloured(UNSEEN);
    }

    /** `stack.pop(); states[node] = 2`, once every successor is finished. */
    method Leave(node: nat)
      requires Valid() && node < |edges| && stack != [] && stack[|stack| - 1] == node
      requires forall k :: 0 <= k < |edges[node]| ==> states[edges[node][k]] == FINISHED
      modifies this, states
      ensures Valid() && stack == old(stack)[..|old(stack)| - 1] && states[node] == FINISHED
      ensures forall n :: 0 <= n < |edges| && n != node ==> states[n] == old(states[n])
    {
      FinishNode(EdgeSet(edges), Coloured(FINISHED), node);
      stack := stack[..|stack| - 1];
      states[node] := FINISHED;
      assert Coloured(FINISHED) == old(Coloured(FINISHED)) + {node};
    }

    /**
     * Finishes `node` and everything it reaches, or returns a cycle. A finished or active node is
     * never recoloured, and an unsuccessful visit leaves the stack as it found it.
     */
    method Visit(node: nat) returns (cycle: Option<seq<nat>>)
      requires Valid() && node < |edges| && states[node] == UNSEEN
      requires stack != [] ==> (stack[|stack| - 1], node) in EdgeSet(edges)
      modifies this, states
      ensures cycle.None? ==> Valid() && stack == old(stack) && states[node] == FINISHED
      ensures cycle.None? ==> Coloured(UNSEEN) < old(Coloured(UNSEEN))
      ensures cycle.None? ==>
                forall i :: 0 <= i < |edges| && old(states[i]) != UNSEEN ==> states[i] == old(states[i])
      ensures cycle.Some? ==> SimpleCycle(EdgeSet(edges), cycle.value)
      decreases Coloured(UNSEEN), 0
    {
      Enter(node);
      ghost var unseen := Coloured(UNSEEN);
      var i := 0;
      while i < |edges[node]|
        invariant 0 <= i <= |edges[node]|
        invariant Valid() && stack == old(stack) + [node] && states[node] == ACTIVE
        invariant Coloured(UNSEEN) <= unseen
        invariant forall n :: 0 <= n < |edges| && old(states[n]) != UNSEEN ==> states[n] == old(states[n])
        invariant forall k :: 0 <= k < i ==> states[edges[node][k]] == FINISHED
      {
        cycle := Explore(node, i);
        if cycle.Some? { return; }
        i := i + 1;
      }
      Leave(node);
      cycle := None;
    }

    /** The match on one callee's colour. */
    method Explore(node: nat, i: nat) returns (cycle: Option<seq<nat>>)
      requires Valid() && stack != [] && stack[|stack| - 1] == node && i < |edges[node]|
      modifies this, states
      ensures cycle.None? ==> Valid() && stack == old(stack) && states[edges[node][i]] == FINISHED
      ensures cycle.None? ==> Coloured(UNSEEN) <= old(Coloured(UNSEEN))
      ensures cycle.None? ==>
                forall n :: 0 <= n < |edges| && old(states[n]) != UNSEEN ==> states[n] == old(states[n])
      ensures cycle.Some? ==> SimpleCycle(EdgeSet(edges), cycle.value)
      decreases Coloured(UNSEEN), 1
    {
      var callee := edges[node][i];
      assert (node, callee) in EdgeSet(edges);
      if states[callee] == UNSEEN {
        cycle := Visit(callee);
      } else if states[callee] == ACTIVE {
        var closed := CloseCycle(callee);
        cycle := Some(closed);
      } else {
        cycle := None;
      }
    }
  }

  /** The active nodes from the callee up, closed by the callee, are a cycle without other repeats. */
  lemma {:induction false} CycleFromStack(E: set<(nat, nat)>, stack: seq<nat>, start: nat)
    requires start < |stack| && Walk(E, stack) && Distinct(stack)
    requires (stack[|stack| - 1], stack[start]) in E
    ensures SimpleCycle(E, stack[start..] + [stack[start]])
  {
    var p := stack[start..] + [stack[start]];
    forall i | 0 <= i < |p| - 1 ensures (p[i], p[i + 1]) in E {
      if i < |p| - 2 {
        assert (stack[start + i], stack[start + i + 1]) in E;
      }
    }
  }

  /**
   * Exact on every graph with in-range edges: nothing is returned precisely when the graph is
   * acyclic, and a returned list is a real cycle, closed and otherwise free of repeats.
   */
  method FirstComponentCallCycle(edges: seq<seq<nat>>) returns (cycle: Option<seq<nat>>)
    requires InRange(edges)
    ensures cycle.None? <==> Acyclic(EdgeSet(edges))
    ensures cycle.Some? ==> SimpleCycle(EdgeSet(edges), cycle.value)
  {
    var search := new Search(edges);
    var node := 0;
    while node < |edges|
      invariant 0 <= node <= |edges|
      invariant search.Valid() && search.edges == edges && search.stack == []
      invariant fresh(search) && fresh(search.states)
      invariant forall i :: 0 <= i < node ==> search.states[i] == FINISHED
    {
      if search.states[node] == UNSEEN {
        cycle := search.Visit(node);
        if cycle.Some? {
          assert ClosedWalk(EdgeSet(edges), cycle.value);
          return;
        }
      } else {
        assert search.states[node] == ACTIVE ==> node in search.stack;
      }
      node := node + 1;
    }
    cycle := None;
    AllFinished(EdgeSet(edges), search.Coloured(FINISHED));
  }
}
