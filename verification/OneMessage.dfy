/**
 * One message sent into a silent network: from any tables in which nobody else has marked its id
 * or used up the counter of its source, what a node's first reception does, and every later one.
 */
module OneMessage {
  import opened Bytes
  import opened Packet
  import opened Topology
  import opened MeshNode
  import opened Network
  import Dedup
  import RateLimiter
  import SlotTable

  function WithTtl(m: Frame, t: byte): Frame {
    m.(header := m.header.(ttl := t))
  }

  /** A flooded message as its receivers decode it. */
  ghost predicate IsMessage(m: Frame, s: NodeId) {
    m.header.kind == DATA && m.header.src == s && |m.payload| == m.header.payloadLen
  }

  /** The counter kept for `src`, if any, has room for another packet. */
  predicate Spare(t: RateLimiter.Table, src: NodeId) {
    var i := SlotTable.Find(t, src);
    i < |t| ==> t[i].info < RateLimiter.MAX_PER_WINDOW
  }

  /** A spare counter is what it takes never to be limited, whatever the clock says. */
  lemma SpareIff(t: RateLimiter.Table, src: NodeId)
    ensures Spare(t, src) <==> forall now :: !RateLimiter.Limited(t, src, now)
  {
    var i := SlotTable.Find(t, src);
    if !Spare(t, src) { assert RateLimiter.Limited(t, src, t[i].stamp); }
  }

  ghost predicate Ready(st: State, m: Frame) {
    !Dedup.Seen(st.marks, m.header.msgId) && Spare(st.rate, m.header.src)
  }

  /** A mesh_send that gets as far as transmitting. */
  ghost predicate Sends(step: Step) {
    step.SendMessage? && SendVerdict(step.len, step.session, step.ciphertext).Sent?
  }

  ghost function MessageOf(step: Step): Frame
    requires Sends(step)
  {
    OriginFrame(step.from, step.to, step.ciphertext.value, step.env)
  }

  /** No other node's tables stand in the way of the message. */
  ghost predicate AllReady(g: Graph, nodes: map<NodeId, State>, s: NodeId, m: Frame) {
    && nodes.Keys == g.Keys
    && forall v :: v in g ==> nodes[v].id == v && (v != s ==> Ready(nodes[v], m))
  }

  /** Nothing is in the air either. */
  ghost predicate Clear(g: Graph, net: Net, step: Step)
    requires Sends(step)
  {
    net.air == [] && step.from in g && AllReady(g, net.nodes, step.from, MessageOf(step))
  }

  lemma PowerUpIsClear(g: Graph, step: Step)
    requires Sends(step) && step.from in g
    ensures Clear(g, Init(g), step)
  {
  }

  /** The network right after the send; the log is counted from here. */
  function Started(g: Graph, net0: Net, step: Step): Net {
    Apply(g, net0.(log := []), step)
  }

  lemma StartedIs(g: Graph, net0: Net, step: Step)
    requires Sends(step) && Clear(g, net0, step)
    ensures var s := net0.nodes[step.from];
            var net := Started(g, net0, step);
            && net.nodes == net0.nodes[step.from := s.(marks := Dedup.Mark(s.marks, step.env.freshId))]
            && net.air == Broadcast(g, step.from, Wire(DataHeader(s.id, step.to, step.env), step.ciphertext.value),
                                    Message(|net0.sent|, 0))
            && net.log == []
  {
    hide Wire, Dedup.Mark, Ready;
    assert forall air: seq<Copy> :: [] + air == air;
  }

  lemma StartEffect(g: Graph, net0: Net, step: Step) returns (wire: seq<byte>, tag: Tag)
    requires Sends(step) && Clear(g, net0, step)
    ensures var m := MessageOf(step);
            var net := Started(g, net0, step);
            && IsMessage(m, step.from) && m.header.dst == step.to
            && Parse(wire) == Some(WithTtl(m, 8))
            && Tables(net0.nodes, net.nodes, m, {step.from})
            && net.air == Broadcast(g, step.from, wire, tag)
            && net.log == []
  {
    StartedIs(g, net0, step);
    var s := net0.nodes[step.from];
    wire := Wire(DataHeader(s.id, step.to, step.env), step.ciphertext.value);
    tag := Message(|net0.sent|, 0);
    RoundTripExact(DataHeader(s.id, step.to, step.env), step.ciphertext.value);
    MarkIsSeen(s.marks, step.env.freshId);
    hide Parse, Wire, Dedup.Seen, Dedup.Mark, Ready, Started;
  }

  lemma MarkIsSeen(marks: seq<MsgId>, id: MsgId)
    ensures Dedup.Seen(marks + [id], id) && Dedup.Seen(Dedup.Mark(marks, id), id)
  {
    var marks' := marks + [id];
    assert Dedup.Window(marks')[|Dedup.Window(marks')| - 1] == id;
  }

  /** The nodes in `a` have the message; all others still have the tables they started with. */
  ghost predicate Tables(n0: map<NodeId, State>, nodes: map<NodeId, State>, m: Frame, a: set<NodeId>) {
    && nodes.Keys == n0.Keys
    && forall v :: v in n0 ==>
         if v in a then nodes[v].id == v && Dedup.Seen(nodes[v].marks, m.header.msgId) else nodes[v] == n0[v]
  }

  lemma TablesGrow(n0: map<NodeId, State>, nodes: map<NodeId, State>, m: Frame, a: set<NodeId>, v: NodeId, st: State)
    requires Tables(n0, nodes, m, a) && v in n0
    requires st.id == v && Dedup.Seen(st.marks, m.header.msgId)
    ensures Tables(n0, nodes[v := st], m, a + {v})
  {
    hide Dedup.Seen;
  }

  /** Who accepted: each node of `a` but the source, once. */
  ghost predicate Reached(log: seq<Acceptance>, s: NodeId, a: set<NodeId>) {
    && (forall p, q :: 0 <= p < q < |log| ==> log[p].node != log[q].node)
    && (forall v :: v in a && v != s ==> exists e :: e in log && e.node == v)
    && (forall e :: e in log ==> e.node in a && e.node != s)
  }

  lemma ReachedGrows(log: seq<Acceptance>, s: NodeId, a: set<NodeId>, e: Acceptance)
    requires Reached(log, s, a) && e.node !in a && e.node != s
    ensures Reached(log + [e], s, a + {e.node})
  {
    var log' := log + [e];
    forall v | v in a + {e.node} && v != s ensures exists x :: x in log' && x.node == v {
      if v == e.node {
        assert e in log';
      } else {
        var x :| x in log && x.node == v;
        assert x in log';
      }
    }
    forall p | 0 <= p < |log| ensures log[p].node != e.node {
      assert log[p] in log;
    }
  }

  // ----- one reception -----

  /** A node that has the message, or sent it, lets a further copy go by without a trace. */
  lemma KnownDrops(v: State, m: Frame, t: byte, wire: seq<byte>, env: Env)
    requires m.header.kind == DATA && Parse(wire) == Some(WithTtl(m, t))
    requires Dedup.Seen(v.marks, m.header.msgId)
    ensures !FateOf(v, wire, env.now).Accepted? && Reply(v, wire, env) == Silent
    ensures Receive(v, wire, env).id == v.id && Receive(v, wire, env).marks == v.marks
  {
    hide Parse, RateLimiter.Arrive, RateLimiter.Limited, Dedup.Seen;
  }

  /** A node whose tables do not stand in the way accepts it and relays it with one hop less. */
  lemma FreshAccepts(st: State, s: NodeId, m: Frame, t: byte, wire: seq<byte>, env: Env)
    requires IsMessage(m, s) && Parse(wire) == Some(WithTtl(m, t)) && st.id != s && t >= 1
    requires Ready(st, m)
    ensures FateOf(st, wire, env.now).Accepted?
    ensures Receive(st, wire, env).id == st.id && Receive(st, wire, env).marks == st.marks + [m.header.msgId]
    ensures Reply(st, wire, env).sent.Some? == (t > 1)
    ensures t > 1 ==> Parse(Reply(st, wire, env).sent.value) == Some(WithTtl(m, t - 1))
    ensures |m.payload| < 256 && Reply(st, wire, env) == AcceptReply(st.id, WithTtl(m, t), env)
  {
    SpareIff(st.rate, s);
    if t > 1 { RelayDecodes(WithTtl(m, t)); }
    hide Parse, Relay, RateLimiter.Arrive, RateLimiter.Limited, Spare, Dedup.Seen;
  }

  /** The whole effect of a later reception on the network. */
  lemma KnownEffect(g: Graph, n0: map<NodeId, State>, s: NodeId, m: Frame, a: set<NodeId>, t: byte,
                    net: Net, k: nat, env: Env)
    requires IsMessage(m, s) && AllReady(g, n0, s, m) && Tables(n0, net.nodes, m, a) && k < |net.air|
    requires var c := net.air[k]; c.to in g && c.to in a && Parse(c.wire) == Some(WithTtl(m, t))
    ensures var net' := Apply(g, net, Deliver(k, env));
            && Tables(n0, net'.nodes, m, a)
            && net'.air == Without(net.air, k) && net'.log == net.log
  {
    var c := net.air[k];
    var st := net.nodes[c.to];
    KnownDrops(st, m, t, c.wire, env);
    var st' := Receive(st, c.wire, env);
    assert Without(net.air, k) + [] == Without(net.air, k);
    hide Parse, Reply, Receive, FateOf, Dedup.Seen;
    TablesGrow(n0, net.nodes, m, a, c.to, st');
    assert a + {c.to} == a;
  }

  /** The whole effect of a first reception on the network. */
  lemma FreshEffect(g: Graph, n0: map<NodeId, State>, s: NodeId, m: Frame, a: set<NodeId>, t: byte,
                    net: Net, k: nat, env: Env) returns (e: Acceptance, more: seq<Copy>)
    requires IsMessage(m, s) && t >= 1 && AllReady(g, n0, s, m) && Tables(n0, net.nodes, m, a) && k < |net.air|
    requires var c := net.air[k]; c.to in g && c.to !in a && c.to != s && Parse(c.wire) == Some(WithTtl(m, t))
    ensures var to := net.air[k].to;
            var net' := Apply(g, net, Deliver(k, env));
            && Tables(n0, net'.nodes, m, a + {to})
            && net'.air == Without(net.air, k) + more && net'.log == net.log + [e]
            && e.node == to && e.frame == WithTtl(m, t)
            && |m.payload| < 256 && e.out == AcceptReply(to, e.frame, e.env)
            && (t == 1 ==> more == [])
            && (t > 1 ==> |more| == |g[to]| && forall i :: 0 <= i < |more| ==>
                                more[i].to == g[to][i] && Parse(more[i].wire) == Some(WithTtl(m, t - 1)))
  {
    var c := net.air[k];
    var st := net.nodes[c.to];
    FreshAccepts(st, s, m, t, c.wire, env);
    MarkIsSeen(st.marks, m.header.msgId);
    var st', out := Receive(st, c.wire, env), Reply(st, c.wire, env);
    e := Acceptance(c.to, m.header.msgId, |st.marks|, c.tag, WithTtl(m, t), env, out);
    more := if out.sent.Some? then Broadcast(g, c.to, out.sent.value, OneHopFurther(c.tag)) else [];
    hide Parse, Reply, Receive, FateOf, AcceptReply, Dedup.Seen, Ready;
    TablesGrow(n0, net.nodes, m, a, c.to, st');
  }

  lemma {:induction false} ExecJoins(g: Graph, net: Net, a: seq<Step>, b: seq<Step>)
    ensures Exec(g, net, a + b) == Exec(g, Exec(g, net, a), b)
  {
    hide Apply;
    if b == [] {
      assert a + b == a;
    } else {
      var n := |b| - 1;
      assert (a + b)[..|a + b| - 1] == a + b[..n];
      ExecJoins(g, net, a, b[..n]);
    }
  }
}
