/**
 * How large a mesh must be for lateness alone to lose a node. Up to nine nodes a loss-free flood
 * always reaches everyone within eight hops; on a ring of ten a copy that took the long way round can
 * be the first to arrive, use up the id in the duplicate filter with its last hop, and keep a node
 * two hops from the origin from ever hearing the message.
 */
module Detour {
  import opened Bytes
  import opened Packet
  import opened Topology
  import opened MeshNode
  import opened Network
  import opened OneMessage
  import opened Coverage

  /** A walk that leaves the labelled nodes has a first step outside. */
  lemma {:induction false} EdgeOut(g: Graph, s: NodeId, d: map<NodeId, nat>, n: nat, v: NodeId)
    returns (u: NodeId, w: NodeId)
    requires s in d && v in Ball(g, s, n) && v !in d
    ensures u in d && w in g && w !in d && Hears(g, u, w)
  {
    if v in Ball(g, s, n - 1) {
      u, w := EdgeOut(g, s, d, n - 1, v);
    } else {
      u, w :| u in Ball(g, s, n - 1) && Hears(g, u, w) && w == v;
      if u !in d {
        u, w := EdgeOut(g, s, d, n - 1, u);
      }
    }
  }

  /** The nodes a copy passed on its way to `u`, one for each label. */
  lemma {:induction false} Ancestors(g: Graph, s: NodeId, d: map<NodeId, nat>, u: NodeId) returns (p: seq<NodeId>)
    requires Rooted(g, s, d) && u in d
    ensures |p| == d[u] + 1 && forall i :: 0 <= i < |p| ==> p[i] in d && d[p[i]] == i
    decreases d[u]
  {
    if u == s {
      p := [s];
    } else {
      var q :| Parent(g, d, q, u);
      p := Ancestors(g, s, d, q);
      p := p + [u];
    }
  }

  /** A relay tree that misses a node within reach ends in a copy that passed nine nodes. */
  lemma MissingNeedsTen(g: Graph, s: NodeId, d: map<NodeId, nat>, v: NodeId)
    requires RelayTree(g, s, d) && v in Ball(g, s, 8) && v !in d
    ensures |g| >= 10
  {
    var u, w := EdgeOut(g, s, d, 8, v);
    assert d[u] == 8;
    var p := Ancestors(g, s, d, u);
    DistinctCount(p);
    var seen := Elements(p) + {w};
    assert w !in Elements(p) && |seen| == 10;
    assert seen <= g.Keys && g.Keys == seen + (g.Keys - seen);
  }

  lemma SmallMeshIsCovered(g: Graph, net0: Net, step: Step)
    requires Closed(g) && Sends(step) && Clear(g, net0, step) && |g| <= 9
    ensures SurelyCovered(g, net0, step)
  {
    hide SurelyCovered, Clear, Ball, Closed, RelayTree;
    forall d | RelayTree(g, step.from, d) ensures Ball(g, step.from, 8) <= d.Keys {
      forall v | v in Ball(g, step.from, 8) ensures v in d {
        if v !in d { MissingNeedsTen(g, step.from, d, v); }
      }
    }
    CoverageIff(g, net0, step);
  }

  // ----- the ring of ten -----

  function Id(k: nat): NodeId
    requires k < 256
  {
    [k, 0, 0, 0, 0, 0, 0, 0]
  }

  /** 0 hears out to 1 and to 8; 1 to 2, and so on to 8; 8 to 9. */
  function Next(k: nat): seq<NodeId>
    requires k < 10
  {
    if k == 0 then [Id(1), Id(8)] else if k < 9 then [Id(k + 1)] else []
  }

  function Ring(): Graph {
    map k | 0 <= k < 10 :: Id(k) := Next(k)
  }

  lemma RingAt(k: nat)
    requires k < 10
    ensures Id(k) in Ring() && Ring()[Id(k)] == Next(k)
  {
  }

  lemma RingIsClosed()
    ensures Closed(Ring()) && Id(9) in Ball(Ring(), Id(0), 2)
  {
    forall n, i | n in Ring() && 0 <= i < |Ring()[n]| ensures Ring()[n][i] in Ring() {
      var k: nat :| k < 10 && n == Id(k);
      RingAt(k);
      if k == 0 { RingAt(1); RingAt(8); } else { RingAt(k + 1); }
    }
    RingAt(0);
    RingAt(8);
    hide Ring;
    assert Ring()[Id(0)][1] == Id(8) && Ring()[Id(8)][0] == Id(9);
    BallStep(Ring(), Id(0), 0, Id(0), Id(8));
    BallStep(Ring(), Id(0), 1, Id(8), Id(9));
  }

  lemma RingHasTen()
    ensures |Ring()| == 10
  {
    var ids := seq(10, k requires 0 <= k < 10 => Id(k));
    assert forall k :: 0 <= k < 10 ==> ids[k][0] == k;
    DistinctCount(ids);
    forall k | 0 <= k < 10 ensures ids[k] in Ring() { RingAt(k); }
    forall n | n in Ring() ensures n in ids {
      var k: nat :| k < 10 && n == Id(k);
      assert ids[k] == n;
    }
    assert Ring().Keys == Elements(ids);
  }

  /** The copy goes 0, 1, 2, ..., 8, and 8 relays nothing to 9. */
  function LongWay(): map<NodeId, nat> {
    map k: nat | 0 <= k < 9 :: Id(k) := k
  }

  lemma LongWayAt(k: nat)
    requires k < 10
    ensures Id(k) in LongWay() <==> k < 9
    ensures k < 9 ==> LongWay()[Id(k)] == k
  {
    assert Id(k)[0] == k;
  }

  lemma LongWayNode(k: nat)
    requires k < 9
    ensures Id(k) in Ring() && (k > 0 ==> Parent(Ring(), LongWay(), Id(k - 1), Id(k)))
  {
    RingAt(k);
    LongWayAt(k);
    if k > 0 {
      RingAt(k - 1);
      LongWayAt(k - 1);
      assert Next(k - 1)[0] == Id(k);
    }
    hide Ring, LongWay, Id;
  }

  lemma LongWayGoesOn(k: nat, v: NodeId)
    requires k < 8 && Hears(Ring(), Id(k), v)
    ensures v in LongWay()
  {
    RingAt(k);
    LongWayAt(8);
    LongWayAt(k + 1);
    hide Ring, LongWay, Id;
  }

  lemma LongWayKey(v: NodeId) returns (k: nat)
    requires v in LongWay()
    ensures k < 9 && v == Id(k) && LongWay()[v] == k
  {
    k :| k < 9 && v == Id(k);
    LongWayAt(k);
  }

  lemma LongWayIsTree()
    ensures RelayTree(Ring(), Id(0), LongWay())
  {
    LongWayAt(0);
    hide Ring, Id, LongWay, Hears, Parent;
    forall v | v in LongWay()
      ensures v in Ring() && LongWay()[v] <= 8
      ensures v != Id(0) ==> exists u :: Parent(Ring(), LongWay(), u, v)
    {
      var k := LongWayKey(v);
      LongWayNode(k);
    }
    forall u, v | u in LongWay() && LongWay()[u] < 8 && Hears(Ring(), u, v) ensures v in LongWay() {
      var k := LongWayKey(u);
      LongWayGoesOn(k, v);
    }
  }

  /** Every copy is received, the air falls silent, and a node two hops away never accepts. */
  lemma LateCopyLosesANode(net0: Net, step: Step) returns (steps: seq<Step>)
    requires Sends(step) && step.from == Id(0) && Clear(Ring(), net0, step)
    ensures Closed(Ring()) && Id(9) in Ball(Ring(), Id(0), 2)
    ensures Receptions(steps) && Exec(Ring(), Started(Ring(), net0, step), steps).air == []
    ensures forall e :: e in Exec(Ring(), Started(Ring(), net0, step), steps).log ==> e.node != Id(9)
  {
    RingIsClosed();
    LongWayIsTree();
    LongWayAt(9);
    hide Ring, LongWay, Id, Started, Exec, Ball, RelayTree;
    steps := TreesAreRuns(Ring(), net0, step, LongWay());
    var net := Exec(Ring(), Started(Ring(), net0, step), steps);
    forall e | e in net.log ensures e.node in Accepters(net) {}
  }

  /** Main result: nine nodes is the largest mesh in which lateness alone can never lose a node. */
  lemma NineNodesAreSafe(n: nat)
    ensures n <= 9 <==>
            forall g, net0, step :: |g| <= n && Closed(g) && Sends(step) && Clear(g, net0, step) ==>
              SurelyCovered(g, net0, step)
  {
    hide Clear, Sends, SurelyCovered, Closed;
    if n <= 9 {
      forall g, net0, step | |g| <= n && Closed(g) && Sends(step) && Clear(g, net0, step)
        ensures SurelyCovered(g, net0, step)
      {
        SmallMeshIsCovered(g, net0, step);
      }
    } else {
      var step := RingIsNotCovered();
      RingHasTen();
      RingIsClosed();
    }
  }

  lemma RingIsNotCovered() returns (step: Step)
    ensures Sends(step) && Clear(Ring(), Init(Ring()), step) && !SurelyCovered(Ring(), Init(Ring()), step)
  {
    var env := Env(0, 0, 0, Repeat(0, 16), None, None, false);
    step := SendMessage(Id(0), Id(9), 0, true, Some([]), env);
    RingAt(0);
    hide Ring, Id;
    PowerUpIsClear(Ring(), step);
    RingIsClosed();
    LongWayIsTree();
    LongWayAt(9);
    BallGrows(Ring(), Id(0), 2, 8);
    hide Clear, Sends, SurelyCovered, RelayTree, Closed, Ball, LongWay, Init;
    CoverageIff(Ring(), Init(Ring()), step);
  }
}
