/**
 * The dispatcher's depth-first walk from one root
 * (dispatcher/claude-agent-sdk/src/closure.ts, `walk` inside `resolveComponentClosure`):
 * as a function of the visit order so far, as the recursive method over shared lists, and the
 * proof that it collects exactly what the root reaches or stops at a real defect.
 */
module ClosureWalk {
  import opened Prelude
  import opened Graphs

  datatype ClosureError =
    | DuplicateId
    | UnknownRoot
    | NotAnEntrypoint
    | CapabilityMissing
    | DuplicateAlias
    | CallCycle
    | SelfCall
    | MissingMount

  /** For every mounted id, the ids its steps may call, in declaration order. */
  type Outgoing = map<string, seq<string>>

  function Edges(out: Outgoing): set<(string, string)> {
    set a, k | a in out && 0 <= k < |out[a]| :: (a, out[a][k])
  }

  datatype WalkResult = Visited(order: seq<string>) | Broken(error: ClosureError)

  /** One call of `walk`: the visit order extended, or the error it throws. */
  function Walked(out: Outgoing, id: string, active: seq<string>, visited: seq<string>): (r: WalkResult)
    ensures r.Visited? ==> visited <= r.order && id in r.order && id !in active
    decreases out.Keys - Elems(visited), 0
  {
    if id in active then Broken(CallCycle)
    else if id in visited then Visited(visited)
    else if id !in out then Broken(MissingMount)
    else
      assert id in out.Keys - Elems(visited) && id !in out.Keys - Elems(visited + [id]);
      assert out.Keys - Elems(visited + [id]) <= out.Keys - Elems(visited);
      WalkedEdges(out, id, out[id], active + [id], visited + [id])
  }

  /** The loop over the remaining edges of `id`. */
  function WalkedEdges(out: Outgoing, id: string, targets: seq<string>, active: seq<string>, visited: seq<string>)
    : (r: WalkResult)
    ensures r.Visited? ==> visited <= r.order
    decreases out.Keys - Elems(visited), |targets| + 1
  {
    if targets == [] then Visited(visited)
    else if targets[0] == id then Broken(SelfCall)
    else
      match Walked(out, targets[0], active, visited)
      case Broken(e) => Broken(e)
      case Visited(order) =>
        assert Elems(visited) <= Elems(order) by { PrefixElems(visited, order); }
        WalkedEdges(out, id, targets[1..], active, order)
  }

  lemma {:induction false} PrefixElems(a: seq<string>, b: seq<string>)
    requires a <= b
    ensures Elems(a) <= Elems(b)
  {
    forall x | x in a ensures x in b {
      var i :| 0 <= i < |a| && a[i] == x;
      assert b[i] == x;
    }
  }

  // ---- what the walk establishes -------------------------------------------------------------

  /** Reachable from `root`, and either not mounted or on a cycle. */
  ghost predicate Defect(out: Outgoing, x: string) {
    x !in out || exists p :: ClosedWalk(Edges(out), p) && p[0] == x
  }

  ghost predicate DefectReachable(out: Outgoing, root: string) {
    exists x :: Reaches(Edges(out), root, x) && Defect(out, x)
  }

  /**
   * What each error says: the root reaches a node not mounted, one that calls itself, or one that another node on
   * a cycle with it calls.
   */
  ghost predicate FaultReachable(out: Outgoing, root: string, e: ClosureError) {
    exists x :: Reaches(Edges(out), root, x) && FaultAt(out, x, e)
  }

  ghost predicate FaultAt(out: Outgoing, x: string, e: ClosureError) {
    match e
    case MissingMount => x !in out
    case SelfCall => x in out && x in out[x]
    case CallCycle => exists p :: ClosedWalk(Edges(out), p) && p[0] == x && p[|p| - 2] != x
    case _ => false
  }

  lemma {:induction false} FaultIsDefect(out: Outgoing, root: string, e: ClosureError)
    requires FaultReachable(out, root, e)
    ensures DefectReachable(out, root)
  {
    var x :| Reaches(Edges(out), root, x) && FaultAt(out, x, e);
    if e.SelfCall? {
      var k :| 0 <= k < |out[x]| && out[x][k] == x;
      assert (x, out[x][k]) in Edges(out);
      assert ClosedWalk(Edges(out), [x, x]) && [x, x][0] == x;
    }
    assert Defect(out, x);
  }

  function Finished(active: seq<string>, visited: seq<string>): set<string> {
    Elems(visited) - Elems(active)
  }

  /** The search invariant between calls of `walk`. */
  ghost predicate Searching(out: Outgoing, root: string, active: seq<string>, visited: seq<string>) {
    && Elems(active) <= Elems(visited) <= out.Keys
    && Distinct(visited)
    && (active != [] ==> Walk(Edges(out), active))
    && (forall v :: v in visited ==> Reaches(Edges(out), root, v))
    && ClosedUnder(Edges(out), Finished(active, visited))
    && AcyclicOn(Edges(out), Finished(active, visited))
  }

  lemma {:induction false} WalkedSound(out: Outgoing, root: string, id: string, active: seq<string>,
                                       visited: seq<string>)
    requires Searching(out, root, active, visited)
    requires Reaches(Edges(out), root, id)
    requires active != [] ==> (active[|active| - 1], id) in Edges(out) && active[|active| - 1] != id
    ensures var r := Walked(out, id, active, visited);
            && (r.Visited? ==> Searching(out, root, active, r.order) && id in Finished(active, r.order))
            && (r.Broken? ==> FaultReachable(out, root, r.error))
    decreases out.Keys - Elems(visited), 0
  {
    var E := Edges(out);
    if id in active {
      var k :| 0 <= k < |active| && active[k] == id;
      WalkSuffix(E, active, k);
      var path := active[k..];
      assert WalkBetween(E, id, active[|active| - 1], path);
      JoinWalks(E, path, [active[|active| - 1], id]);
      assert [active[|active| - 1], id][1..] == [id];
      assert ClosedWalk(E, path + [id]) && (path + [id])[|path + [id]| - 2] == active[|active| - 1];
      assert FaultAt(out, id, CallCycle);
    } else if id in visited {
    } else if id !in out {
      assert FaultAt(out, id, MissingMount);
    } else {
      var active' := active + [id];
      var visited' := visited + [id];
      EnterNode(out, root, id, active, visited);
      WalkedEdgesSound(out, root, id, 0, active', visited');
      assert out[id][0..] == out[id];
      var r := WalkedEdges(out, id, out[id], active', visited');
      if r.Visited? {
        LeaveNode(out, root, id, active, r.order);
      }
    }
  }

  /** Pushing an unvisited node on both lists keeps the invariant. */
  lemma {:induction false} EnterNode(out: Outgoing, root: string, id: string, active: seq<string>, visited: seq<string>)
    requires Searching(out, root, active, visited) && Reaches(Edges(out), root, id)
    requires active != [] ==> (active[|active| - 1], id) in Edges(out)
    requires id in out && id !in visited
    ensures Searching(out, root, active + [id], visited + [id])
    ensures out.Keys - Elems(visited + [id]) < out.Keys - Elems(visited)
  {
    assert Finished(active + [id], visited + [id]) == Finished(active, visited);
    assert id in out.Keys - Elems(visited) && id !in out.Keys - Elems(visited + [id]);
    var a := active + [id];
    forall i | 0 <= i < |a| - 1 ensures (a[i], a[i + 1]) in Edges(out) {
      if i < |active| - 1 { assert (active[i], active[i + 1]) in Edges(out); }
    }
  }

  /** Popping a node whose callees are all finished finishes it. */
  lemma {:induction false} LeaveNode(out: Outgoing, root: string, id: string, active: seq<string>, order: seq<string>)
    requires Searching(out, root, active + [id], order) && id in out && id !in active
    requires forall k :: 0 <= k < |out[id]| ==> out[id][k] in Finished(active + [id], order)
    ensures Searching(out, root, active, order) && id in Finished(active, order)
  {
    var E := Edges(out);
    var inner := Finished(active + [id], order);
    assert id in active + [id];
    FinishNode(E, inner, id);
    assert Finished(active, order) == inner + {id};
    if active != [] { WalkPrefix(E, active + [id], |active|); assert (active + [id])[..|active|] == active; }
    forall v | v in active ensures v in order { assert v in active + [id]; }
  }

  lemma {:induction false} WalkedEdgesSound(out: Outgoing, root: string, id: string, i: nat, active: seq<string>,
                                            visited: seq<string>)
    requires id in out && i <= |out[id]|
    requires active != [] && active[|active| - 1] == id
    requires Searching(out, root, active, visited) && Reaches(Edges(out), root, id)
    requires forall k :: 0 <= k < i ==> out[id][k] in Finished(active, visited)
    ensures var r := WalkedEdges(out, id, out[id][i..], active, visited);
            && (r.Visited? ==>
                  && Searching(out, root, active, r.order)
                  && forall k :: 0 <= k < |out[id]| ==> out[id][k] in Finished(active, r.order))
            && (r.Broken? ==> FaultReachable(out, root, r.error))
    decreases out.Keys - Elems(visited), |out[id]| - i + 1
  {
    var E := Edges(out);
    if i < |out[id]| {
      var target := out[id][i];
      assert (id, target) in E;
      assert out[id][i..][0] == target && out[id][i..][1..] == out[id][i + 1..];
      if target == id {
        assert FaultAt(out, id, SelfCall);
      } else {
        EdgeReaches(E, id, target);
        ReachesTransitive(E, root, id, target);
        WalkedSound(out, root, target, active, visited);
        var r := Walked(out, target, active, visited);
        if r.Visited? {
          PrefixElems(visited, r.order);
          WalkedEdgesSound(out, root, id, i + 1, active, r.order);
        }
      }
    }
  }

  /** The walk of one entry, from empty lists. */
  function EntryWalk(out: Outgoing, root: string): WalkResult { Walked(out, root, [], []) }

  /**
   * The walk throws exactly when the root reaches a missing mount, a self-call or a cycle;
   * otherwise its visit order starts with the root, repeats nothing, and is exactly what the root
   * reaches.
   */
  lemma {:induction false} EntryWalkExact(out: Outgoing, root: string)
    ensures EntryWalk(out, root).Broken? <==> DefectReachable(out, root)
    ensures EntryWalk(out, root).Broken? ==> FaultReachable(out, root, EntryWalk(out, root).error)
    ensures EntryWalk(out, root).Visited? ==>
              var order := EntryWalk(out, root).order;
              && order != [] && order[0] == root && Distinct(order)
              && (forall x :: x in order <==> Reaches(Edges(out), root, x))
              && (forall x :: x in order ==> x in out)
  {
    var E := Edges(out);
    ReachesSelf(E, root);
    WalkedSound(out, root, root, [], []);
    var r := EntryWalk(out, root);
    if r.Broken? { FaultIsDefect(out, root, r.error); }
    if r.Visited? {
      var done := Finished([], r.order);
      assert done == Elems(r.order);
      forall x | Reaches(E, root, x) ensures x in r.order && !Defect(out, x) {
        ClosedHoldsReachable(E, done, root, x);
      }
      assert r.order[0] == root;
    }
  }

  // ---- only reachable mounts matter ----------------------------------------------------------

  /** The two graphs agree on `R`, and `R` is closed under calls. */
  ghost predicate AgreeOn(out: Outgoing, out': Outgoing, R: iset<string>) {
    forall a :: a in R ==>
      && (a in out <==> a in out')
      && (a in out ==> out[a] == out'[a] && forall k :: 0 <= k < |out[a]| ==> out[a][k] in R)
  }

  /** A walk inside an agreed, closed region gives the same order, or throws the same error. */
  lemma {:induction false} WalkedAgree(out: Outgoing, out': Outgoing, R: iset<string>, id: string, active: seq<string>,
                                       visited: seq<string>)
    requires AgreeOn(out, out', R) && id in R
    ensures Walked(out, id, active, visited) == Walked(out', id, active, visited)
    decreases out.Keys - Elems(visited), 0
  {
    if id !in active && id !in visited && id in out {
      assert id in out.Keys - Elems(visited) && id !in out.Keys - Elems(visited + [id]);
      assert out.Keys - Elems(visited + [id]) <= out.Keys - Elems(visited);
      WalkedEdgesAgree(out, out', R, id, out[id], active + [id], visited + [id]);
    }
  }

  lemma {:induction false} WalkedEdgesAgree(out: Outgoing, out': Outgoing, R: iset<string>, id: string,
                                            targets: seq<string>, active: seq<string>, visited: seq<string>)
    requires AgreeOn(out, out', R) && forall k :: 0 <= k < |targets| ==> targets[k] in R
    ensures WalkedEdges(out, id, targets, active, visited) == WalkedEdges(out', id, targets, active, visited)
    decreases out.Keys - Elems(visited), |targets| + 1
  {
    if targets != [] && targets[0] != id {
      WalkedAgree(out, out', R, targets[0], active, visited);
      var r := Walked(out, targets[0], active, visited);
      if r.Visited? {
        PrefixElems(visited, r.order);
        WalkedEdgesAgree(out, out', R, id, targets[1..], active, r.order);
      }
    }
  }

  // ---- the recursive method ------------------------------------------------------------------

  /** The lists `walk` closes over: `visited` and `active` of one entry, and the `union` of all. */
  class Walker {
    const out: Outgoing
    var visited: seq<string>
    var active: seq<string>
    var union: set<string>

    constructor (out: Outgoing)
      ensures this.out == out && visited == [] && active == [] && union == {}
    {
      this.out := out;
      visited, active, union := [], [], {};
    }

    /** Does what the function says, and adds what it visits to the union. */
    method Walk(id: string) returns (thrown: Option<ClosureError>)
      modifies this
      ensures thrown.Some? ==> Walked(out, id, old(active), old(visited)) == Broken(thrown.value)
      ensures thrown.None? ==>
                && Walked(out, id, old(active), old(visited)) == Visited(visited)
                && active == old(active)
                && Elems(old(visited)) <= Elems(visited)
                && union == old(union) + (Elems(visited) - Elems(old(visited)))
      decreases out.Keys - Elems(visited)
    {
      if id in active { return Some(CallCycle); }
      if id in visited { return None; }
      if id !in out { return Some(MissingMount); }
      assert id in out.Keys - Elems(visited) && id !in out.Keys - Elems(visited + [id]);
      active := active + [id];
      visited := visited + [id];
      union := union + {id};
      ghost var entered := visited;
      var i := 0;
      while i < |out[id]|
        invariant 0 <= i <= |out[id]|
        invariant active == old(active) + [id]
        invariant Elems(old(visited)) <= Elems(entered) <= Elems(visited)
        invariant union == old(union) + (Elems(visited) - Elems(old(visited)))
        invariant WalkedEdges(out, id, out[id], active, entered)
               == WalkedEdges(out, id, out[id][i..], active, visited)
      {
        var target := out[id][i];
        assert out[id][i..][1..] == out[id][i + 1..];
        if target == id { return Some(SelfCall); }
        thrown := Walk(target);
        if thrown.Some? { return; }
        i := i + 1;
      }
      active := active[..|active| - 1];
      assert active == old(active);
      thrown := None;
    }
  }
}
