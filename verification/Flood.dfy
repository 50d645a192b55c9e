/**
 * In lossless lockstep rounds a flood is a breadth-first search: from any tables that do not stand
 * in its way, one message reaches exactly the nodes at distance 1..8, a node at distance d in
 * round d with TTL 9 - d, each node once, and after round 8 the air is silent. Within a round the
 * copies arrive in any order.
 */
module Flood {
  import opened Bytes
  import opened Packet
  import opened Topology
  import opened MeshNode
  import opened Network
  import opened OneMessage

  /** One round: every copy in the air at its start is received exactly once, in some order. */
  ghost predicate IsRound(net: Net, steps: seq<Step>) {
    && |steps| == |net.air|
    && forall j :: 0 <= j < |steps| ==> steps[j].Deliver? && steps[j].k < |net.air| - j
  }

  function RunRounds(g: Graph, net: Net, rounds: seq<seq<Step>>): Net {
    if rounds == [] then net
    else Exec(g, RunRounds(g, net, rounds[..|rounds| - 1]), rounds[|rounds| - 1])
  }

  ghost predicate Lockstep(g: Graph, net: Net, rounds: seq<seq<Step>>) {
    rounds == [] ||
    var n := |rounds| - 1;
    Lockstep(g, net, rounds[..n]) && IsRound(RunRounds(g, net, rounds[..n]), rounds[n])
  }

  ghost predicate AtDistance(g: Graph, s: NodeId, v: NodeId, d: nat) {
    v in Ball(g, s, d) && (d == 0 || v !in Ball(g, s, d - 1))
  }

  // ----- the invariant in the middle of round r, when the nodes in `a` have the message -----

  ghost predicate Carries(air: seq<Copy>, m: Frame, t: int) {
    0 <= t < 256 && forall c :: c in air ==> Parse(c.wire) == Some(WithTtl(m, t))
  }

  ghost predicate Targets(air: seq<Copy>, v: NodeId) {
    exists c :: c in air && c.to == v
  }

  /** Copies still to be received in this round: they complete the ball of radius r. */
  ghost predicate Pending(g: Graph, s: NodeId, r: nat, air: seq<Copy>, m: Frame, a: set<NodeId>) {
    && Carries(air, m, 9 - r)
    && (forall c :: c in air ==> c.to in g && c.to in Ball(g, s, r))
    && (forall v :: v in Ball(g, s, r) ==> v in a || Targets(air, v))
  }

  /** Copies for the next round: exactly what this round's newcomers transmitted. */
  ghost predicate Upcoming(g: Graph, s: NodeId, r: nat, air: seq<Copy>, m: Frame, a: set<NodeId>)
    requires r >= 1
  {
    && (r < 8 ==> Carries(air, m, 8 - r))
    && (r >= 8 ==> air == [])
    && (forall c :: c in air ==> c.to in g && exists u :: u in a && Hears(g, u, c.to))
    && (r < 8 ==> forall u, v :: u in a && u !in Ball(g, s, r - 1) && Hears(g, u, v) ==> Targets(air, v))
  }

  /** Who has accepted so far, and with which TTL. */
  ghost predicate Accepted(g: Graph, s: NodeId, log: seq<Acceptance>, m: Frame, a: set<NodeId>) {
    Reached(log, s, a) && forall e :: e in log ==> AcceptedRight(g, s, m, e)
  }

  ghost predicate AcceptedRight(g: Graph, s: NodeId, m: Frame, e: Acceptance) {
    && 1 <= e.frame.header.ttl <= 8
    && e.frame == WithTtl(m, e.frame.header.ttl)
    && AtDistance(g, s, e.node, 9 - e.frame.header.ttl)
    && |e.frame.payload| < 256 && e.out == AcceptReply(e.node, e.frame, e.env)
  }

  ghost predicate Mid(g: Graph, n0: map<NodeId, State>, s: NodeId, m: Frame, r: nat, net: Net, n: nat,
                      a: set<NodeId>) {
    && 1 <= r <= 8 && n <= |net.air|
    && Ball(g, s, r - 1) <= a <= Ball(g, s, r)
    && Tables(n0, net.nodes, m, a)
    && Pending(g, s, r, net.air[..n], m, a)
    && Upcoming(g, s, r, net.air[n..], m, a)
    && Accepted(g, s, net.log, m, a)
  }

  // ----- one reception -----

  lemma WithoutOld(air: seq<Copy>, n: nat, k: nat, more: seq<Copy>)
    requires k < n <= |air|
    ensures var air' := Without(air, k) + more;
            && air'[..n - 1] == Without(air[..n], k)
            && air'[n - 1..] == air[n..] + more
  {
  }

  lemma PendingWithout(g: Graph, s: NodeId, r: nat, air: seq<Copy>, k: nat, m: Frame, a: set<NodeId>)
    requires Pending(g, s, r, air, m, a) && k < |air|
    ensures Pending(g, s, r, Without(air, k), m, a + {air[k].to})
  {
  }

  /** What the invariant says about the receiver of a copy still due in this round. */
  lemma DueCopy(g: Graph, n0: map<NodeId, State>, s: NodeId, m: Frame, r: nat, net: Net, n: nat, a: set<NodeId>, k: nat)
    requires Mid(g, n0, s, m, r, net, n, a) && k < n
    ensures n <= |net.air| && 1 <= r <= 8
    ensures var c := net.air[k];
            && c.to in g && Parse(c.wire) == Some(WithTtl(m, 9 - r))
            && (c.to !in a ==> c.to != s && AtDistance(g, s, c.to, r))
    ensures Tables(n0, net.nodes, m, a) && Accepted(g, s, net.log, m, a)
    ensures Upcoming(g, s, r, net.air[n..], m, a)
  {
    hide Parse, Upcoming, Accepted, Tables;
    assert net.air[k] == net.air[..n][k] && net.air[k] in net.air[..n];
    BallGrows(g, s, 0, r - 1);
    assert s in Ball(g, s, 0);
  }

  /** Putting the parts of the invariant together after one reception. */
  lemma MidAfter(g: Graph, n0: map<NodeId, State>, s: NodeId, m: Frame, r: nat, net: Net, net': Net, n: nat,
                 a: set<NodeId>, a': set<NodeId>, k: nat, more: seq<Copy>)
    requires Mid(g, n0, s, m, r, net, n, a) && k < n
    requires n <= |net.air| && 1 <= r <= 8
    requires a' == a + {net.air[k].to}
    requires net'.air == Without(net.air, k) + more
    requires Tables(n0, net'.nodes, m, a') && Accepted(g, s, net'.log, m, a')
    requires Upcoming(g, s, r, net.air[n..] + more, m, a')
    ensures Mid(g, n0, s, m, r, net', n - 1, a')
  {
    WithoutOld(net.air, n, k, more);
    PendingWithout(g, s, r, net.air[..n], k, m, a);
    assert net.air[..n][k] == net.air[k] && net.air[k] in net.air[..n];
    assert net.air[k].to in Ball(g, s, r);
    hide Tables, Pending, Upcoming, Accepted, Ball, Without;
  }

  lemma AlreadyIn(a: set<NodeId>, v: NodeId)
    requires v in a
    ensures a + {v} == a
  {
  }

  lemma AddNothing(air: seq<Copy>)
    ensures air + [] == air
  {
  }

  lemma KnownStep(g: Graph, n0: map<NodeId, State>, s: NodeId, m: Frame, r: nat, net: Net, n: nat, a: set<NodeId>,
                  k: nat, env: Env)
    requires IsMessage(m, s) && AllReady(g, n0, s, m) && Mid(g, n0, s, m, r, net, n, a) && k < n <= |net.air|
    requires net.air[k].to in a
    ensures Mid(g, n0, s, m, r, Apply(g, net, Deliver(k, env)), n - 1, a)
  {
    DueCopy(g, n0, s, m, r, net, n, a, k);
    hide *;
    KnownEffect(g, n0, s, m, a, 9 - r, net, k, env);
    AlreadyIn(a, net.air[k].to);
    AddNothing(net.air[n..]);
    AddNothing(Without(net.air, k));
    MidAfter(g, n0, s, m, r, net, Apply(g, net, Deliver(k, env)), n, a, a, k, []);
  }

  lemma UpcomingGrows(g: Graph, s: NodeId, r: nat, air: seq<Copy>, m: Frame, a: set<NodeId>, v: NodeId,
                      more: seq<Copy>)
    requires Closed(g) && v in g && 1 <= r <= 8
    requires Upcoming(g, s, r, air, m, a)
    requires r == 8 ==> more == []
    requires r < 8 ==> |more| == |g[v]| && forall i :: 0 <= i < |more| ==>
                         more[i].to == g[v][i] && Parse(more[i].wire) == Some(WithTtl(m, 8 - r))
    ensures Upcoming(g, s, r, air + more, m, a + {v})
  {
    hide Parse, Ball;
    if r < 8 {
      forall u, w | u in a + {v} && u !in Ball(g, s, r - 1) && Hears(g, u, w) ensures Targets(air + more, w) {
        if u == v {
          var i :| 0 <= i < |g[v]| && g[v][i] == w;
          assert more[i] in air + more;
        } else {
          var c :| c in air && c.to == w;
          assert c in air + more;
        }
      }
    }
  }

  lemma AcceptedGrows(g: Graph, s: NodeId, log: seq<Acceptance>, m: Frame, r: nat, a: set<NodeId>, e: Acceptance)
    requires Accepted(g, s, log, m, a) && e.node !in a && e.node != s
    requires 1 <= r <= 8 && AtDistance(g, s, e.node, r) && e.frame == WithTtl(m, 9 - r)
    requires |m.payload| < 256 && e.out == AcceptReply(e.node, e.frame, e.env)
    ensures Accepted(g, s, log + [e], m, a + {e.node})
  {
    hide Reached, AcceptReply, AtDistance;
    ReachedGrows(log, s, a, e);
  }

  lemma FreshStep(g: Graph, n0: map<NodeId, State>, s: NodeId, m: Frame, r: nat, net: Net, n: nat, a: set<NodeId>,
                  k: nat, env: Env)
    requires Closed(g) && IsMessage(m, s) && AllReady(g, n0, s, m)
    requires Mid(g, n0, s, m, r, net, n, a) && k < n <= |net.air|
    requires net.air[k].to !in a
    ensures Mid(g, n0, s, m, r, Apply(g, net, Deliver(k, env)), n - 1, a + {net.air[k].to})
  {
    DueCopy(g, n0, s, m, r, net, n, a, k);
    hide *;
    var to := net.air[k].to;
    var e, more := FreshEffect(g, n0, s, m, a, 9 - r, net, k, env);
    UpcomingGrows(g, s, r, net.air[n..], m, a, to, more);
    AcceptedGrows(g, s, net.log, m, r, a, e);
    MidAfter(g, n0, s, m, r, net, Apply(g, net, Deliver(k, env)), n, a, a + {to}, k, more);
  }

  // ----- one round, and all of them -----

  lemma ExecLast(g: Graph, net: Net, steps: seq<Step>, j: nat)
    requires 0 < j <= |steps|
    ensures Exec(g, net, steps[..j]) == Apply(g, Exec(g, net, steps[..j - 1]), steps[j - 1])
  {
    hide Apply;
    assert steps[..j][..j - 1] == steps[..j - 1] && steps[..j][j - 1] == steps[j - 1];
  }

  lemma MidFits(g: Graph, n0: map<NodeId, State>, s: NodeId, m: Frame, r: nat, net: Net, n: nat, a: set<NodeId>)
    requires Mid(g, n0, s, m, r, net, n, a)
    ensures n <= |net.air|
  {
  }

  /** After j receptions of a round, some set of nodes has the message and the invariant holds. */
  lemma {:induction false} RoundKeeps(g: Graph, n0: map<NodeId, State>, s: NodeId, m: Frame, r: nat, net: Net,
                                      a: set<NodeId>, steps: seq<Step>, j: nat) returns (a': set<NodeId>)
    requires Closed(g) && IsMessage(m, s) && AllReady(g, n0, s, m) && IsRound(net, steps) && j <= |steps|
    requires Mid(g, n0, s, m, r, net, |net.air|, a)
    ensures Mid(g, n0, s, m, r, Exec(g, net, steps[..j]), |net.air| - j, a')
  {
    hide Mid, Exec, Apply, AllReady, IsMessage, Closed;
    if j == 0 {
      a' := a;
      assert steps[..0] == [];
      ExecNothing(g, net);
    } else {
      a' := RoundKeeps(g, n0, s, m, r, net, a, steps, j - 1);
      var now := Exec(g, net, steps[..j - 1]);
      var n := |net.air| - (j - 1);
      ExecLast(g, net, steps, j);
      var k, env := steps[j - 1].k, steps[j - 1].env;
      MidFits(g, n0, s, m, r, now, n, a');
      if now.air[k].to in a' {
        KnownStep(g, n0, s, m, r, now, n, a', k, env);
      } else {
        FreshStep(g, n0, s, m, r, now, n, a', k, env);
        a' := a' + {now.air[k].to};
      }
    }
  }

  lemma ExecNothing(g: Graph, net: Net)
    ensures Exec(g, net, []) == net
  {
  }

  /** The state between rounds: exactly the ball of radius r has been reached. */
  ghost predicate Between(g: Graph, n0: map<NodeId, State>, s: NodeId, m: Frame, r: nat, net: Net) {
    && Tables(n0, net.nodes, m, Ball(g, s, r))
    && Accepted(g, s, net.log, m, Ball(g, s, r))
    && (r < 8 ==> Pending(g, s, r + 1, net.air, m, Ball(g, s, r)))
    && (r >= 8 ==> net.air == [])
  }

  /** Newcomers' transmissions are what the next round needs. */
  lemma UpcomingBecomesPending(g: Graph, s: NodeId, m: Frame, r: nat, air: seq<Copy>)
    requires Closed(g) && 1 <= r < 8
    requires Upcoming(g, s, r, air, m, Ball(g, s, r))
    ensures Pending(g, s, r + 1, air, m, Ball(g, s, r))
  {
  }

  lemma RoundBegins(g: Graph, n0: map<NodeId, State>, s: NodeId, m: Frame, r: nat, net: Net)
    requires r < 8 && Between(g, n0, s, m, r, net)
    ensures Mid(g, n0, s, m, r + 1, net, |net.air|, Ball(g, s, r))
  {
    hide Parse, Tables, Accepted, Pending;
    var n := |net.air|;
    assert net.air[..n] == net.air && net.air[n..] == [];
    assert Ball(g, s, r) <= Ball(g, s, r + 1);
    assert Upcoming(g, s, r + 1, [], m, Ball(g, s, r));
  }

  lemma RoundEnds(g: Graph, n0: map<NodeId, State>, s: NodeId, m: Frame, r: nat, net: Net, a: set<NodeId>)
    requires Closed(g) && Mid(g, n0, s, m, r, net, 0, a)
    ensures Between(g, n0, s, m, r, net)
  {
    assert net.air[..0] == [] && net.air[0..] == net.air;
    assert Pending(g, s, r, [], m, a);
    assert a == Ball(g, s, r) by {
      hide Ball, Upcoming, Tables, Accepted;
    }
    hide Tables, Accepted, Ball;
    if r < 8 {
      UpcomingBecomesPending(g, s, m, r, net.air);
    }
  }

  lemma RoundCompletes(g: Graph, n0: map<NodeId, State>, s: NodeId, m: Frame, r: nat, net: Net, steps: seq<Step>)
    requires Closed(g) && IsMessage(m, s) && AllReady(g, n0, s, m) && r < 8
    requires Between(g, n0, s, m, r, net) && IsRound(net, steps)
    ensures Between(g, n0, s, m, r + 1, Exec(g, net, steps))
  {
    hide Mid, Between, Ball, Exec, IsMessage, AllReady;
    RoundBegins(g, n0, s, m, r, net);
    var a := RoundKeeps(g, n0, s, m, r + 1, net, Ball(g, s, r), steps, |net.air|);
    assert steps[..|net.air|] == steps;
    RoundEnds(g, n0, s, m, r + 1, Exec(g, net, steps), a);
  }

  lemma FirstPending(g: Graph, s: NodeId, m: Frame, wire: seq<byte>, tag: Tag)
    requires Closed(g) && s in g && Parse(wire) == Some(WithTtl(m, 8))
    ensures Pending(g, s, 1, Broadcast(g, s, wire, tag), m, {s})
  {
    hide Parse, WithTtl;
    var air := Broadcast(g, s, wire, tag);
    assert Ball(g, s, 0) == {s};
    forall c | c in air ensures c.to in g && c.to in Ball(g, s, 1) {
      assert Hears(g, s, c.to);
      BallStep(g, s, 0, s, c.to);
    }
    forall v | v in Ball(g, s, 1) && v != s ensures Targets(air, v) {
      assert Hears(g, s, v);
      var i :| 0 <= i < |g[s]| && g[s][i] == v;
      assert air[i] in air;
    }
  }

  lemma BetweenAtFirst(g: Graph, n0: map<NodeId, State>, s: NodeId, m: Frame, net: Net)
    requires Tables(n0, net.nodes, m, {s}) && net.log == [] && Pending(g, s, 1, net.air, m, {s})
    ensures Between(g, n0, s, m, 0, net)
  {
    hide Tables, Pending;
    assert Ball(g, s, 0) == {s};
  }

  lemma StartIsBetween(g: Graph, net0: Net, step: Step)
    requires Closed(g) && Sends(step) && Clear(g, net0, step)
    ensures IsMessage(MessageOf(step), step.from) && MessageOf(step).header.dst == step.to
    ensures Between(g, net0.nodes, step.from, MessageOf(step), 0, Started(g, net0, step))
  {
    assert step.from in g;
    hide *;
    var wire, tag := StartEffect(g, net0, step);
    FirstPending(g, step.from, MessageOf(step), wire, tag);
    BetweenAtFirst(g, net0.nodes, step.from, MessageOf(step), Started(g, net0, step));
  }

  function Reach(rounds: nat): nat {
    if rounds < 8 then rounds else 8
  }

  lemma {:induction false} RoundsKeep(g: Graph, n0: map<NodeId, State>, s: NodeId, m: Frame, net: Net,
                                      rounds: seq<seq<Step>>)
    requires Closed(g) && IsMessage(m, s) && AllReady(g, n0, s, m) && Between(g, n0, s, m, 0, net)
    requires Lockstep(g, net, rounds)
    ensures Between(g, n0, s, m, Reach(|rounds|), RunRounds(g, net, rounds))
  {
    hide Between, AllReady;
    if rounds != [] {
      var n := |rounds| - 1;
      var before := RunRounds(g, net, rounds[..n]);
      RoundsKeep(g, n0, s, m, net, rounds[..n]);
      if n < 8 {
        RoundCompletes(g, n0, s, m, n, before, rounds[n]);
      } else {
        assert before.air == [] by { SilentAfterEight(g, n0, s, m, before); }
        assert rounds[n] == [];
      }
    }
  }

  lemma SilentAfterEight(g: Graph, n0: map<NodeId, State>, s: NodeId, m: Frame, net: Net)
    requires Between(g, n0, s, m, 8, net)
    ensures net.air == []
  {
  }

  /** The rounds together are one run of the network. */
  lemma {:induction false} RoundsAreARun(g: Graph, net: Net, rounds: seq<seq<Step>>) returns (steps: seq<Step>)
    ensures RunRounds(g, net, rounds) == Exec(g, net, steps)
  {
    if rounds == [] {
      steps := [];
    } else {
      var n := |rounds| - 1;
      steps := RoundsAreARun(g, net, rounds[..n]);
      ExecJoins(g, net, steps, rounds[n]);
      steps := steps + rounds[n];
    }
  }

  /**
   * Main result, from any network with silent air in which nobody else has marked the id or used up
   * the source's counter. After any number of lockstep rounds, the nodes that accepted the message
   * are exactly those within that many hops (eight at most), each exactly once; a node at distance d
   * saw TTL 9 - d; only the addressee hands the message over; and after eight rounds nothing is left
   * in the air.
   */
  lemma FloodIsBreadthFirst(g: Graph, net0: Net, step: Step, rounds: seq<seq<Step>>)
    requires Closed(g) && Sends(step) && Clear(g, net0, step)
    requires Lockstep(g, Started(g, net0, step), rounds)
    ensures var s := step.from;
            var net := RunRounds(g, Started(g, net0, step), rounds);
            && (forall v :: (exists e :: e in net.log && e.node == v) <==>
                            v != s && v in Ball(g, s, Reach(|rounds|)))
            && (forall e :: e in net.log ==>
                  && 1 <= e.frame.header.ttl <= 8
                  && e.frame == WithTtl(MessageOf(step), e.frame.header.ttl)
                  && AtDistance(g, s, e.node, 9 - e.frame.header.ttl)
                  && e.out.delivered == (if e.node == step.to && e.env.callback && e.env.plaintext.Some?
                                         then Some(Delivery(s, e.env.plaintext.value)) else None))
            && (forall p, q :: 0 <= p < q < |net.log| ==> net.log[p].node != net.log[q].node)
            && (|rounds| >= 8 ==> net.air == [])
  {
    var net := Started(g, net0, step);
    StartIsBetween(g, net0, step);
    RoundsKeep(g, net0.nodes, step.from, MessageOf(step), net, rounds);
    hide Started, RunRounds, Lockstep, Ball, Tables, Pending, Relay, AllReady, MessageOf;
  }
}
