/**
 * Finite directed graphs given by their edge sets: walks, reachability, cycles and longest walks.
 * The compiler's call graph, the dispatcher's closure and the runtime's depth table are all read
 * against the definitions in this module.
 */
module Graphs {
  import opened Prelude

  ghost predicate Walk<N(!new)>(E: set<(N, N)>, p: seq<N>) {
    |p| >= 1 && forall i :: 0 <= i < |p| - 1 ==> (p[i], p[i + 1]) in E
  }

  ghost predicate WalkBetween<N(!new)>(E: set<(N, N)>, a: N, b: N, p: seq<N>) {
    Walk(E, p) && p[0] == a && p[|p| - 1] == b
  }

  ghost predicate Reaches<N(!new)>(E: set<(N, N)>, a: N, b: N) {
    exists p :: WalkBetween(E, a, b, p)
  }

  ghost predicate ClosedWalk<N(!new)>(E: set<(N, N)>, p: seq<N>) {
    Walk(E, p) && |p| >= 2 && p[0] == p[|p| - 1]
  }

  /** A closed walk whose only repeated node is the first, met again at the end. */
  ghost predicate SimpleCycle<N(!new)>(E: set<(N, N)>, p: seq<N>) {
    ClosedWalk(E, p) && forall i, j :: 0 <= i < j < |p| - 1 ==> p[i] != p[j]
  }

  ghost predicate Acyclic<N(!new)>(E: set<(N, N)>) {
    forall p :: !ClosedWalk(E, p)
  }

  ghost predicate ClosedUnder<N(!new)>(E: set<(N, N)>, B: set<N>) {
    forall a, b :: (a, b) in E && a in B ==> b in B
  }

  /** No cycle passes through `B`. */
  ghost predicate AcyclicOn<N(!new)>(E: set<(N, N)>, B: set<N>) {
    forall p :: ClosedWalk(E, p) ==> p[0] !in B
  }

  lemma {:induction false} WalkStaysInside<N(!new)>(E: set<(N, N)>, B: set<N>, p: seq<N>, i: nat)
    requires ClosedUnder(E, B) && Walk(E, p) && p[0] in B && i < |p|
    ensures p[i] in B
  {
    if i > 0 {
      WalkStaysInside(E, B, p, i - 1);
      assert (p[i - 1], p[i - 1 + 1]) in E;
    }
  }

  /**
   * The step of every depth-first search: once all successors of `v` are finished, finishing `v`
   * keeps the finished set closed under edges and free of cycles.
   */
  lemma {:induction false} FinishNode<N(!new)>(E: set<(N, N)>, B: set<N>, v: N)
    requires ClosedUnder(E, B) && AcyclicOn(E, B) && v !in B
    requires forall b :: (v, b) in E ==> b in B
    ensures ClosedUnder(E, B + {v}) && AcyclicOn(E, B + {v})
  {
    forall p | ClosedWalk(E, p) ensures p[0] !in B + {v} {
      if p[0] == v {
        assert (p[0], p[0 + 1]) in E;
        var q := p[1..];
        assert Walk(E, q) by {
          forall i | 0 <= i < |q| - 1 ensures (q[i], q[i + 1]) in E {
            assert (p[i + 1], p[i + 1 + 1]) in E;
          }
        }
        WalkStaysInside(E, B, q, |q| - 1);
        assert false;
      }
    }
  }

  /** Once every node with an outgoing edge is finished, the graph has no cycle at all. */
  lemma {:induction false} AllFinished<N(!new)>(E: set<(N, N)>, B: set<N>)
    requires AcyclicOn(E, B) && forall a, b :: (a, b) in E ==> a in B
    ensures Acyclic(E)
  {
    forall p | ClosedWalk(E, p) ensures false { FirstEdge(E, p); }
  }

  lemma {:induction false} FirstEdge<N(!new)>(E: set<(N, N)>, p: seq<N>)
    requires Walk(E, p) && |p| >= 2
    ensures (p[0], p[1]) in E
  {
    assert (p[0], p[0 + 1]) in E;
  }

  lemma {:induction false} ReachesSelf<N(!new)>(E: set<(N, N)>, a: N)
    ensures Reaches(E, a, a)
  {
    assert WalkBetween(E, a, a, [a]);
  }

  lemma {:induction false} WalkSuffix<N(!new)>(E: set<(N, N)>, p: seq<N>, k: nat)
    requires Walk(E, p) && k < |p|
    ensures Walk(E, p[k..])
  {
    forall i | 0 <= i < |p[k..]| - 1 ensures (p[k..][i], p[k..][i + 1]) in E {
      assert (p[k + i], p[k + i + 1]) in E;
    }
  }

  lemma {:induction false} WalkPrefix<N(!new)>(E: set<(N, N)>, p: seq<N>, k: nat)
    requires Walk(E, p) && 0 < k <= |p|
    ensures Walk(E, p[..k])
  {
    forall i | 0 <= i < k - 1 ensures (p[..k][i], p[..k][i + 1]) in E {
      assert (p[i], p[i + 1]) in E;
    }
  }

  /** Joins two walks that meet. */
  lemma {:induction false} JoinWalks<N(!new)>(E: set<(N, N)>, p: seq<N>, q: seq<N>)
    requires Walk(E, p) && Walk(E, q) && p[|p| - 1] == q[0]
    ensures Walk(E, p + q[1..])
    ensures (p + q[1..])[0] == p[0] && (p + q[1..])[|p + q[1..]| - 1] == q[|q| - 1]
  {
    var r := p + q[1..];
    forall i | 0 <= i < |r| - 1 ensures (r[i], r[i + 1]) in E {
      if i < |p| - 1 {
        assert (p[i], p[i + 1]) in E;
      } else {
        var k := i - (|p| - 1);
        assert r[i] == q[k] && r[i + 1] == q[k + 1];
      }
    }
  }

  lemma {:induction false} ReachesTransitive<N(!new)>(E: set<(N, N)>, a: N, b: N, c: N)
    requires Reaches(E, a, b) && Reaches(E, b, c)
    ensures Reaches(E, a, c)
  {
    var p :| WalkBetween(E, a, b, p);
    var q :| WalkBetween(E, b, c, q);
    JoinWalks(E, p, q);
    assert WalkBetween(E, a, c, p + q[1..]);
  }

  lemma {:induction false} EdgeReaches<N(!new)>(E: set<(N, N)>, a: N, b: N)
    requires (a, b) in E
    ensures Reaches(E, a, b)
  {
    assert WalkBetween(E, a, b, [a, b]);
  }

  /** A closed set that holds `a` holds everything `a` reaches. */
  lemma {:induction false} ClosedHoldsReachable<N(!new)>(E: set<(N, N)>, B: set<N>, a: N, b: N)
    requires ClosedUnder(E, B) && a in B && Reaches(E, a, b)
    ensures b in B
  {
    var p :| WalkBetween(E, a, b, p);
    WalkStaysInside(E, B, p, |p| - 1);
  }

  /** An edge back to a node that already reaches its source closes a cycle. */
  lemma {:induction false} BackEdgeCycle<N(!new)>(E: set<(N, N)>, a: N, b: N)
    requires Reaches(E, a, b) && (b, a) in E
    ensures exists p :: ClosedWalk(E, p) && p[0] == a
  {
    var p :| WalkBetween(E, a, b, p);
    JoinWalks(E, p, [b, a]);
    assert ClosedWalk(E, p + [b, a][1..]);
  }

  // ---- longest walks -------------------------------------------------------------------------

  /** Some walk from `a` takes exactly `n` edges. */
  ghost predicate HasWalk<N(!new)>(E: set<(N, N)>, a: N, n: nat) {
    n == 0 || exists b :: (a, b) in E && HasWalk(E, b, n - 1)
  }

  /** `d` is the number of edges on a longest walk from `a`. */
  ghost predicate IsLongest<N(!new)>(E: set<(N, N)>, a: N, d: nat) {
    HasWalk(E, a, d) && !HasWalk(E, a, d + 1)
  }

  /** `HasWalk` counts the edges of actual walks. */
  lemma {:induction false} HasWalkMeaning<N(!new)>(E: set<(N, N)>, a: N, n: nat)
    ensures HasWalk(E, a, n) <==> exists p :: Walk(E, p) && p[0] == a && |p| == n + 1
  {
    if n == 0 {
      assert Walk(E, [a]);
    } else {
      if HasWalk(E, a, n) {
        var b :| (a, b) in E && HasWalk(E, b, n - 1);
        HasWalkMeaning(E, b, n - 1);
        var q :| Walk(E, q) && q[0] == b && |q| == n;
        JoinWalks(E, [a, b], q);
        assert Walk(E, [a, b] + q[1..]);
      }
      forall p | Walk(E, p) && p[0] == a && |p| == n + 1 ensures HasWalk(E, a, n) {
        var q := p[1..];
        assert (p[0], p[0 + 1]) in E;
        assert Walk(E, q) by {
          forall i | 0 <= i < |q| - 1 ensures (q[i], q[i + 1]) in E {
            assert (p[i + 1], p[i + 1 + 1]) in E;
          }
        }
        HasWalkMeaning(E, q[0], n - 1);
      }
    }
  }

  lemma {:induction false} ShorterWalk<N(!new)>(E: set<(N, N)>, a: N, m: nat, n: nat)
    requires m <= n && HasWalk(E, a, n)
    ensures HasWalk(E, a, m)
  {
    if m > 0 {
      var b :| (a, b) in E && HasWalk(E, b, n - 1);
      ShorterWalk(E, b, m - 1, n - 1);
    }
  }

  lemma {:induction false} LongestUnique<N(!new)>(E: set<(N, N)>, a: N, d: nat, d': nat)
    requires IsLongest(E, a, d) && IsLongest(E, a, d')
    ensures d == d'
  {
    if d < d' { ShorterWalk(E, a, d + 1, d'); }
    if d' < d { ShorterWalk(E, a, d' + 1, d); }
  }

  /** Depth strictly falls along every edge. */
  lemma {:induction false} DepthFallsAlongEdge<N(!new)>(E: set<(N, N)>, a: N, b: N, da: nat, db: nat)
    requires (a, b) in E && IsLongest(E, a, da) && IsLongest(E, b, db)
    ensures db < da
  {
    assert HasWalk(E, a, db + 1);
    if da <= db { ShorterWalk(E, a, da + 1, db + 1); }
  }

  /** A length that some successor attains, and none exceeds, is the longest. */
  lemma {:induction false} LongestFromSuccessors<N(!new)>(E: set<(N, N)>, a: N, d: nat)
    requires d == 0 || exists b :: (a, b) in E && IsLongest(E, b, d - 1)
    requires forall b :: (a, b) in E ==> exists k: nat :: k < d && IsLongest(E, b, k)
    ensures IsLongest(E, a, d)
  {
    if HasWalk(E, a, d + 1) {
      var b :| (a, b) in E && HasWalk(E, b, d);
      var k: nat :| k < d && IsLongest(E, b, k);
      ShorterWalk(E, b, k + 1, d);
    }
  }

  // ---- renaming ------------------------------------------------------------------------------

  /** The image of a graph under a renaming of its nodes. */
  function Renamed(E: set<(nat, nat)>, name: seq<string>): set<(string, string)>
    requires forall e :: e in E ==> e.0 < |name| && e.1 < |name|
  {
    set e | e in E :: (name[e.0], name[e.1])
  }

  function RenamedPath(name: seq<string>, p: seq<nat>): seq<string>
    requires forall i :: 0 <= i < |p| ==> p[i] < |name|
  {
    seq(|p|, i requires 0 <= i < |p| => name[p[i]])
  }

  /** A renaming that keeps nodes apart creates no cycle. */
  lemma {:induction false} RenamingKeepsAcyclic(E: set<(nat, nat)>, name: seq<string>)
    requires forall e :: e in E ==> e.0 < |name| && e.1 < |name|
    requires Distinct(name) && Acyclic(E)
    ensures Acyclic(Renamed(E, name))
  {
    var R := Renamed(E, name);
    forall p | ClosedWalk(R, p) ensures false {
      forall i | 0 <= i < |p| ensures p[i] in name {
        if i < |p| - 1 { assert (p[i], p[i + 1]) in R; } else { assert (p[i - 1], p[i - 1 + 1]) in R; }
      }
      var q: seq<nat> := seq(|p|, i requires 0 <= i < |p| => IndexIn(name, p[i]));
      forall i | 0 <= i < |q| - 1 ensures (q[i], q[i + 1]) in E {
        assert (p[i], p[i + 1]) in R;
        var e :| e in E && (name[e.0], name[e.1]) == (p[i], p[i + 1]);
        assert e.0 == q[i] && e.1 == q[i + 1];
      }
      assert q[0] == q[|q| - 1];
      assert ClosedWalk(E, q);
    }
  }

  /** The image of a simple cycle under a renaming that keeps nodes apart is a simple cycle. */
  lemma {:induction false} RenamingKeepsCycle(E: set<(nat, nat)>, name: seq<string>, p: seq<nat>)
    requires forall e :: e in E ==> e.0 < |name| && e.1 < |name|
    requires Distinct(name) && SimpleCycle(E, p)
    ensures forall i :: 0 <= i < |p| ==> p[i] < |name|
    ensures SimpleCycle(Renamed(E, name), RenamedPath(name, p))
  {
    forall i | 0 <= i < |p| ensures p[i] < |name| {
      if i < |p| - 1 { assert (p[i], p[i + 1]) in E; } else { assert (p[i - 1], p[i - 1 + 1]) in E; }
    }
    var q := RenamedPath(name, p);
    forall i | 0 <= i < |q| - 1 ensures (q[i], q[i + 1]) in Renamed(E, name) {
      assert (p[i], p[i + 1]) in E;
    }
  }

  ghost function IndexIn(name: seq<string>, x: string): (i: nat)
    requires x in name
    ensures i < |name| && name[i] == x
  {
    var i :| 0 <= i < |name| && name[i] == x;
    i
  }
}
