/**
 * The order in which the dispatcher's walk visits (dispatcher/claude-agent-sdk/src/closure.ts, `walk`): every next
 * node is the first unvisited callee, in the order of the list, of the last visited node that has one.
 */
module VisitOrder {
  import opened Prelude
  import opened ClosureWalk

  /** Every callee of `id` is among `seen`. */
  predicate Exhausted(out: Outgoing, id: string, seen: seq<string>) {
    id in out && forall c :: 0 <= c < |out[id]| ==> out[id][c] in seen
  }

  /** `next` is the first callee of `id` that has not been seen. */
  predicate FirstUnseen(out: Outgoing, id: string, seen: seq<string>, next: string) {
    && id in out && next !in seen
    && exists c :: 0 <= c < |out[id]| && out[id][c] == next && forall b :: 0 <= b < c ==> out[id][b] in seen
  }

  /** The `k`-th node is the first unvisited callee of an earlier node after which all are exhausted. */
  predicate VisitedNext(out: Outgoing, order: seq<string>, k: nat)
    requires k < |order|
  {
    exists m :: && 0 <= m < k && FirstUnseen(out, order[m], order[..k], order[k])
                && forall j :: m < j < k ==> Exhausted(out, order[j], order[..k])
  }

  predicate DepthFirst(out: Outgoing, order: seq<string>) {
    forall k :: 0 < k < |order| ==> VisitedNext(out, order, k)
  }

  /** The active nodes were visited in their order. */
  predicate SameOrder(active: seq<string>, visited: seq<string>) {
    forall i, j, a, b ::
      (0 <= a < b < |active| && 0 <= i < |visited| && 0 <= j < |visited|
       && visited[i] == active[a] && visited[j] == active[b]) ==> i < j
  }

  /** Between calls: in depth-first order so far, active nodes in the order of their visits, the others exhausted. */
  ghost predicate Underway(out: Outgoing, active: seq<string>, visited: seq<string>) {
    && DepthFirst(out, visited) && Distinct(visited)
    && SameOrder(active, visited)
    && (forall a :: a in active ==> a in visited)
    && (forall v :: v in visited && v !in active ==> Exhausted(out, v, visited))
  }

  lemma {:induction false} ExhaustedGrows(out: Outgoing, id: string, seen: seq<string>, more: seq<string>)
    requires Exhausted(out, id, seen) && seen <= more
    ensures Exhausted(out, id, more)
  {
    PrefixElems(seen, more);
    assert forall x :: x in Elems(seen) ==> x in Elems(more);
  }

  lemma {:induction false} DepthFirstSnoc(out: Outgoing, order: seq<string>, next: string)
    requires DepthFirst(out, order)
    requires order != [] ==> VisitedNext(out, order + [next], |order|)
    ensures DepthFirst(out, order + [next])
  {
    var all := order + [next];
    forall k | 0 < k < |all| ensures VisitedNext(out, all, k) {
      if k < |order| {
        assert VisitedNext(out, order, k) && all[..k] == order[..k];
        var m :| && 0 <= m < k && FirstUnseen(out, order[m], order[..k], order[k])
                 && forall j :: m < j < k ==> Exhausted(out, order[j], order[..k]);
        assert FirstUnseen(out, all[m], all[..k], all[k]);
        assert forall j :: m < j < k ==> all[j] == order[j];
      }
    }
  }

  /** Where the walk stands when it turns to `id`: at the root, or at the first unvisited callee of the last active. */
  ghost predicate Next(out: Outgoing, id: string, active: seq<string>, visited: seq<string>) {
    if active == [] then visited == []
    else id in visited || FirstUnseen(out, active[|active| - 1], visited, id)
  }

  /** Entering an unvisited node keeps the order. */
  lemma {:induction false} EnterInOrder(out: Outgoing, id: string, active: seq<string>, visited: seq<string>)
    requires Underway(out, active, visited) && Next(out, id, active, visited) && id !in visited
    ensures Underway(out, active + [id], visited + [id])
  {
    var all := visited + [id];
    assert all[..|visited|] == visited;
    if active != [] {
      var last := active[|active| - 1];
      assert last in active;
      var m :| 0 <= m < |visited| && visited[m] == last;
      forall j | m < j < |visited| ensures Exhausted(out, visited[j], visited) {
        assert visited[j] in visited && forall a :: 0 <= a < |active| ==> active[a] != visited[j];
      }
      assert FirstUnseen(out, all[m], all[..|visited|], all[|visited|]);
      assert forall j :: m < j < |visited| ==> all[j] == visited[j];
      assert VisitedNext(out, all, |visited|);
    }
    DepthFirstSnoc(out, visited, id);
    forall v | v in all && v !in active + [id] ensures Exhausted(out, v, all) {
      assert v in visited && v !in active;
      ExhaustedGrows(out, v, visited, all);
    }
    EnteredInOrder(active, visited, id);
  }

  lemma {:induction false} EnteredInOrder(active: seq<string>, visited: seq<string>, id: string)
    requires id !in visited && forall a :: a in active ==> a in visited
    requires SameOrder(active, visited)
    ensures SameOrder(active + [id], visited + [id])
  {
    var act, vis := active + [id], visited + [id];
    forall i, j, a, b | 0 <= a < b < |act| && 0 <= i < |vis| && 0 <= j < |vis| && vis[i] == act[a] && vis[j] == act[b]
      ensures i < j
    {
      assert act[a] == active[a] && active[a] in active;
      assert i < |visited|;
      if b < |active| {
        assert active[b] in active;
        assert j < |visited| && visited[i] == active[a] && visited[j] == active[b];
      }
    }
  }

  /** Leaving a node all of whose callees are visited keeps the order. */
  lemma {:induction false} LeaveInOrder(out: Outgoing, id: string, active: seq<string>, order: seq<string>)
    requires Underway(out, active + [id], order) && Exhausted(out, id, order)
    ensures Underway(out, active, order)
  {
    var act := active + [id];
    forall v | v in order && v !in active ensures Exhausted(out, v, order) {
      if v != id { assert v !in act; }
    }
    forall a | a in active ensures a in order { assert a in act; }
    assert forall a :: 0 <= a < |active| ==> act[a] == active[a];
  }

  /** One call of the walk keeps the order. */
  lemma {:induction false} WalkedInOrder(out: Outgoing, id: string, active: seq<string>, visited: seq<string>)
    requires Underway(out, active, visited) && Next(out, id, active, visited)
    ensures var r := Walked(out, id, active, visited); r.Visited? ==> Underway(out, active, r.order) && id in r.order
    decreases out.Keys - Elems(visited), 0
  {
    if id !in active && id !in visited && id in out {
      assert id in out.Keys - Elems(visited) && id !in out.Keys - Elems(visited + [id]);
      assert out.Keys - Elems(visited + [id]) <= out.Keys - Elems(visited);
      EnterInOrder(out, id, active, visited);
      assert out[id][0..] == out[id];
      EdgesInOrder(out, id, 0, active, visited + [id]);
      var r := WalkedEdges(out, id, out[id], active + [id], visited + [id]);
      if r.Visited? { LeaveInOrder(out, id, active, r.order); }
    }
  }

  lemma {:induction false} EdgesInOrder(out: Outgoing, id: string, i: nat, active: seq<string>, visited: seq<string>)
    requires id in out && i <= |out[id]| && Underway(out, active + [id], visited)
    requires forall c :: 0 <= c < i ==> out[id][c] in visited
    ensures var r := WalkedEdges(out, id, out[id][i..], active + [id], visited);
            r.Visited? ==> Underway(out, active + [id], r.order) && Exhausted(out, id, r.order)
    decreases out.Keys - Elems(visited), |out[id]| - i + 1
  {
    if i < |out[id]| {
      var target := out[id][i];
      assert out[id][i..][0] == target && out[id][i..][1..] == out[id][i + 1..];
      if target != id {
        assert (active + [id])[|active + [id]| - 1] == id;
        WalkedInOrder(out, target, active + [id], visited);
        var r := Walked(out, target, active + [id], visited);
        if r.Visited? {
          PrefixElems(visited, r.order);
          assert forall x :: x in Elems(visited) ==> x in Elems(r.order);
          EdgesInOrder(out, id, i + 1, active, r.order);
        }
      }
    }
  }

  /** The walk of one entry is in depth-first order, from its root, until nothing unvisited is called. */
  lemma {:induction false} EntryInOrder(out: Outgoing, root: string)
    requires EntryWalk(out, root).Visited?
    ensures var order := EntryWalk(out, root).order;
            && order != [] && order[0] == root && DepthFirst(out, order)
            && forall v :: v in order ==> Exhausted(out, v, order)
  {
    EntryWalkExact(out, root);
    WalkedInOrder(out, root, [], []);
  }
}
