/**
 * The key exchange between neighbours, from the call that finds no session to the bundle in the
 * caller's hands (firmware/components/mesh/mesh.c). Its frames go one hop and meet no duplicate
 * filter, so the exchange works at any time, whatever else the two nodes have heard before.
 */
module OneHop {
  import opened Bytes
  import opened Packet
  import opened Topology
  import opened MeshNode
  import opened Network
  import Dedup
  import RateLimiter

  /** A message for a peer without a session. */
  ghost predicate AsksForKeys(step: Step) {
    step.SendMessage? && step.len <= 200 && !step.session
  }

  /** What every neighbour of the asking node gets to hear. */
  ghost function Request(step: Step): Frame
    requires AsksForKeys(step)
  {
    KeyMessage(step.env.freshId, step.from, step.to, step.env.stamp, [0])
  }

  lemma RequestStep(g: Graph, net: Net, step: Step)
    requires AsksForKeys(step) && step.from in net.nodes && step.from in g
    requires net.nodes[step.from].id == step.from
    ensures var frame := KeyFrame(step.from, step.to, 0, [], step.env);
            Apply(g, net, step) == net.(air := net.air + Broadcast(g, step.from, frame, Other))
  {
    hide KeyFrame;
    assert net.nodes[step.from := net.nodes[step.from]] == net.nodes;
  }

  /** Instead of the message a request goes out, once to every neighbour; nothing is remembered. */
  lemma RequestIsSent(g: Graph, net: Net, step: Step)
    requires AsksForKeys(step) && step.from in net.nodes && step.from in g
    requires net.nodes[step.from].id == step.from
    ensures var net' := Apply(g, net, step);
            && net'.nodes == net.nodes && net'.sent == net.sent && net'.log == net.log
            && |net'.air| == |net.air| + |g[step.from]|
            && (forall i :: 0 <= i < |net.air| ==> net'.air[i] == net.air[i])
            && forall i :: 0 <= i < |g[step.from]| ==>
                 var c := net'.air[|net.air| + i];
                 c.to == g[step.from][i] && Parse(c.wire) == Some(Request(step))
  {
    RequestStep(g, net, step);
    FramesOfSend(step.from, step.to, step.ciphertext, step.env);
    hide Parse, KeyFrame, KeyMessage, Apply;
  }

  lemma NotAccepted(s: State, wire: seq<byte>, now: int)
    requires Parse(wire).Some? && Parse(wire).value.header.kind == 3
    ensures !FateOf(s, wire, now).Accepted?
  {
    hide Parse, RateLimiter.Limited, Dedup.Seen;
  }

  lemma AnswerStep(g: Graph, net: Net, k: nat, env: Env)
    requires k < |net.air| && net.air[k].to in net.nodes && net.air[k].to in g
    requires !FateOf(net.nodes[net.air[k].to], net.air[k].wire, env.now).Accepted?
    ensures var c := net.air[k];
            var out := Reply(net.nodes[c.to], c.wire, env);
            Apply(g, net, Deliver(k, env)) == net.(
              nodes := net.nodes[c.to := Receive(net.nodes[c.to], c.wire, env)],
              air := Without(net.air, k) + if out.sent.Some? then Broadcast(g, c.to, out.sent.value, Other) else [])
  {
    hide Parse, Reply, Receive, FateOf, Without;
  }

  /** What a node transmits on a received key frame reaches exactly its neighbours. */
  lemma AnswerIsSent(g: Graph, net: Net, k: nat, env: Env, f: Frame)
    requires k < |net.air| && net.air[k].to in net.nodes && net.air[k].to in g
    requires Parse(net.air[k].wire) == Some(f) && f.header.kind == 3
    ensures var c := net.air[k];
            var out := Reply(net.nodes[c.to], c.wire, env);
            var net' := Apply(g, net, Deliver(k, env));
            && net'.nodes == net.nodes[c.to := Receive(net.nodes[c.to], c.wire, env)]
            && net'.log == net.log
            && |net'.air| == |net.air| - 1 + (if out.sent.Some? then |g[c.to]| else 0)
            && (out.sent.Some? ==> forall j :: 0 <= j < |g[c.to]| ==>
                  var c' := net'.air[|net.air| - 1 + j];
                  c'.to == g[c.to][j] && c'.wire == out.sent.value)
  {
    NotAccepted(net.nodes[net.air[k].to], net.air[k].wire, env.now);
    AnswerStep(g, net, k, env);
    hide Parse, Reply, Receive, FateOf, Apply;
  }

  /** One of the other nodes that overhear a request or a response stays silent and hands over nothing. */
  lemma OthersStaySilent(s: State, wire: seq<byte>, env: Env)
    requires Parse(wire).Some? && Parse(wire).value.header.kind == 3 && Parse(wire).value.header.dst != s.id
    ensures Reply(s, wire, env) == Outcome(None, None, None)
  {
    KeyMessagesAreHandled(s, wire, env);
    hide Parse, Reply, RateLimiter.Limited;
  }

  /** The copy of the request for `step.to` makes that node broadcast its bundle, addressed back. */
  lemma RequestIsAnswered(g: Graph, net: Net, step: Step, k: nat, env: Env)
    requires AsksForKeys(step) && step.to != step.from && env.bundle.Some?
    requires k < |net.air| && net.air[k].to == step.to && Parse(net.air[k].wire) == Some(Request(step))
    requires step.to in net.nodes && step.to in g && net.nodes[step.to].id == step.to
    requires !RateLimiter.Limited(net.nodes[step.to].rate, step.from, env.now)
    ensures var net' := Apply(g, net, Deliver(k, env));
            && (forall v :: v in net.nodes && v != step.to ==> v in net'.nodes && net'.nodes[v] == net.nodes[v])
            && net'.log == net.log && |net'.air| == |net.air| - 1 + |g[step.to]|
            && forall j :: 0 <= j < |g[step.to]| ==>
                 var c := net'.air[|net.air| - 1 + j];
                 var response := KeyMessage(env.freshId, step.to, step.from, env.stamp, [1] + env.bundle.value);
                 c.to == g[step.to][j] && Parse(c.wire) == Some(response)
  {
    hide Parse, Reply, Receive, RateLimiter.Limited;
    KeyMessagesAreHandled(net.nodes[step.to], net.air[k].wire, env);
    AnswerIsSent(g, net, k, env, Request(step));
    hide Apply;
  }

  /** A response hands its source and the bundle to the node it is addressed to. */
  lemma ResponseIsHandedOver(s: State, wire: seq<byte>, env: Env, f: Frame, b: seq<byte>)
    requires Parse(wire) == Some(f) && f.header.kind == 3 && f.payload == [1] + b
    requires f.header.dst == s.id && f.header.src != s.id
    requires !RateLimiter.Limited(s.rate, f.header.src, env.now)
    ensures Reply(s, wire, env) == Outcome(None, None, Some((f.header.src, b)))
  {
    KeyMessagesAreHandled(s, wire, env);
    hide Parse, Reply, RateLimiter.Limited;
    assert f.payload[1..] == b;
  }

  /**
   * Main result: two nodes that hear each other and do not limit each other exchange keys in one
   * round trip. The i-th neighbour of the asking node is the peer, the asking node is the peer's
   * j-th; after the request and the response the asking node has exactly the peer's bundle, under
   * the peer's id, and neither step is an acceptance of a flooded message.
   */
  lemma KeysAreExchanged(g: Graph, net: Net, step: Step, i: nat, peerEnv: Env, j: nat, env: Env)
    requires AsksForKeys(step) && step.to != step.from
    requires step.from in g && step.to in g && i < |g[step.from]| && j < |g[step.to]|
    requires g[step.from][i] == step.to && g[step.to][j] == step.from
    requires step.from in net.nodes && net.nodes[step.from].id == step.from
    requires step.to in net.nodes && net.nodes[step.to].id == step.to
    requires peerEnv.bundle.Some?
    requires !RateLimiter.Limited(net.nodes[step.to].rate, step.from, peerEnv.now)
    requires !RateLimiter.Limited(net.nodes[step.from].rate, step.to, env.now)
    ensures var asked := Apply(g, net, step);
            var answered := Apply(g, asked, Deliver(|net.air| + i, peerEnv));
            var k := |asked.air| - 1 + j;
            && answered.log == net.log && step.from in answered.nodes
            && k < |answered.air| && answered.air[k].to == step.from
            && Reply(answered.nodes[step.from], answered.air[k].wire, env)
               == Outcome(None, None, Some((step.to, peerEnv.bundle.value)))
  {
    RequestIsSent(g, net, step);
    var asked := Apply(g, net, step);
    hide Apply, Parse, Reply, RateLimiter.Limited;
    RequestIsAnswered(g, asked, step, |net.air| + i, peerEnv);
    var answered := Apply(g, asked, Deliver(|net.air| + i, peerEnv));
    var k := |asked.air| - 1 + j;
    var b := peerEnv.bundle.value;
    ResponseIsHandedOver(answered.nodes[step.from], answered.air[k].wire, env,
                         KeyMessage(peerEnv.freshId, step.to, step.from, peerEnv.stamp, [1] + b), b);
  }
}
