/** Who hears whom: an arbitrary directed neighbour graph, and hop distances in it. */
module Topology {
  import opened Packet

  type Graph = map<NodeId, seq<NodeId>>

  ghost predicate Closed(g: Graph) {
    forall n, i :: n in g && 0 <= i < |g[n]| ==> g[n][i] in g
  }

  ghost predicate Hears(g: Graph, u: NodeId, v: NodeId) {
    u in g && v in g[u]
  }

  /** Nodes within `n` hops of `s`. */
  ghost function Ball(g: Graph, s: NodeId, n: nat): set<NodeId> {
    if n == 0 then {s}
    else Ball(g, s, n - 1) + set v | v in g && exists u :: u in Ball(g, s, n - 1) && Hears(g, u, v)
  }

  lemma BallStep(g: Graph, s: NodeId, n: nat, u: NodeId, v: NodeId)
    requires Closed(g) && u in Ball(g, s, n) && Hears(g, u, v)
    ensures v in Ball(g, s, n + 1)
  {
  }

  lemma {:induction false} BallGrows(g: Graph, s: NodeId, m: nat, n: nat)
    requires m <= n
    ensures Ball(g, s, m) <= Ball(g, s, n)
    decreases n
  {
    if m < n { BallGrows(g, s, m, n - 1); }
  }

  ghost predicate Walk(g: Graph, p: seq<NodeId>, s: NodeId, v: NodeId) {
    && |p| > 0 && p[0] == s && p[|p| - 1] == v
    && forall i :: 0 <= i < |p| - 1 ==> Hears(g, p[i], p[i + 1])
  }

  /** A ball is exactly what its radius promises: the ends of walks of at most `n` hops. */
  lemma {:induction false} BallIsWalks(g: Graph, s: NodeId, n: nat, v: NodeId)
    requires Closed(g)
    ensures v in Ball(g, s, n) <==> exists p :: Walk(g, p, s, v) && |p| <= n + 1
  {
    if v in Ball(g, s, n) {
      var p := WalkTo(g, s, n, v);
    }
    if p :| Walk(g, p, s, v) && |p| <= n + 1 {
      WalkStays(g, s, p, v);
      BallGrows(g, s, |p| - 1, n);
    }
  }

  lemma {:induction false} WalkTo(g: Graph, s: NodeId, n: nat, v: NodeId) returns (p: seq<NodeId>)
    requires v in Ball(g, s, n)
    ensures Walk(g, p, s, v) && |p| <= n + 1
  {
    if n == 0 {
      p := [s];
    } else if v in Ball(g, s, n - 1) {
      p := WalkTo(g, s, n - 1, v);
    } else {
      var u :| u in Ball(g, s, n - 1) && Hears(g, u, v);
      p := WalkTo(g, s, n - 1, u);
      p := p + [v];
    }
  }

  lemma {:induction false} WalkStays(g: Graph, s: NodeId, p: seq<NodeId>, v: NodeId)
    requires Closed(g) && Walk(g, p, s, v)
    ensures v in Ball(g, s, |p| - 1)
    decreases |p|
  {
    if |p| > 1 {
      var n := |p| - 1;
      WalkStays(g, s, p[..n], p[n - 1]);
      assert Hears(g, p[n - 1], p[n - 1 + 1]);
    }
  }
}
