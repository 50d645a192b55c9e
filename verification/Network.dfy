/**
 * Any number of nodes on any neighbour graph, with frames arriving late, out of order, twice or
 * never, and with foreign transmissions mixed in. Each copy in the air carries a tag saying which
 * originated message it is a copy of and how often it was relayed; nodes never see the tag.
 */
module Network {
  import opened Bytes
  import opened Packet
  import opened Topology
  import opened MeshNode
  import Dedup
  import RateLimiter

  datatype Tag = Message(index: nat, hops: nat) | Other

  datatype Copy = Copy(to: NodeId, wire: seq<byte>, tag: Tag)

  /** An originated DATA message, with the header as receivers will decode it. */
  datatype Origin = Origin(src: NodeId, frame: Frame)

  /** A node let a frame through its filters: `mark` is the position of the id in its history. */
  datatype Acceptance = Acceptance(
    node: NodeId, msgId: MsgId, mark: nat, tag: Tag, frame: Frame, env: Env, out: Outcome)

  datatype Net = Net(
    nodes: map<NodeId, State>, air: seq<Copy>, sent: seq<Origin>, log: seq<Acceptance>)

  datatype Step =
    | Deliver(k: nat, env: Env)
    | Lose(k: nat)
    | Duplicate(k: nat)
    | SendMessage(from: NodeId, to: NodeId, len: nat, session: bool, ciphertext: Option<Ciphertext>, env: Env)
    | SendBeacon(from: NodeId, env: Env)
    | Inject(copyTo: NodeId, wire: RadioBuffer)

  function Broadcast(g: Graph, from: NodeId, wire: seq<byte>, tag: Tag): (c: seq<Copy>)
    requires from in g
    ensures |c| == |g[from]|
    ensures forall i :: 0 <= i < |c| ==> c[i] == Copy(g[from][i], wire, tag)
  {
    seq(|g[from]|, i requires 0 <= i < |g[from]| => Copy(g[from][i], wire, tag))
  }

  function Without(air: seq<Copy>, k: nat): seq<Copy>
    requires k < |air|
  {
    air[..k] + air[k + 1..]
  }

  function OneHopFurther(tag: Tag): Tag {
    match tag
    case Message(i, h) => Message(i, h + 1)
    case Other => Other
  }

  /** The receiving node processes copy `k`; whatever it transmits goes to all its neighbours. */
  function DeliverTo(g: Graph, net: Net, k: nat, env: Env): Net
    requires k < |net.air| && net.air[k].to in net.nodes && net.air[k].to in g
  {
    var c := net.air[k];
    var s := net.nodes[c.to];
    var out := Reply(s, c.wire, env);
    var accepted := FateOf(s, c.wire, env.now).Accepted?;
    var tag := if accepted then OneHopFurther(c.tag) else Other;
    net.(
      nodes := net.nodes[c.to := Receive(s, c.wire, env)],
      air := Without(net.air, k) + if out.sent.Some? then Broadcast(g, c.to, out.sent.value, tag) else [],
      log := if accepted
             then
               var f := Parse(c.wire).value;
               net.log + [Acceptance(c.to, f.header.msgId, |s.marks|, c.tag, f, env, out)]
             else net.log)
  }

  function Originate(g: Graph, net: Net, step: Step): Net
    requires step.SendMessage? && step.from in net.nodes && step.from in g
  {
    var s := net.nodes[step.from];
    var wire := SendFrame(s, step.to, step.len, step.session, step.ciphertext, step.env);
    var isData := SendVerdict(step.len, step.session, step.ciphertext).Sent?;
    var tag := if isData then Message(|net.sent|, 0) else Other;
    net.(
      nodes := net.nodes[step.from := AfterSend(s, step.len, step.session, step.ciphertext, step.env)],
      air := net.air + if wire.Some? then Broadcast(g, step.from, wire.value, tag) else [],
      sent := if isData
              then net.sent + [Origin(step.from, OriginFrame(step.from, step.to, step.ciphertext.value, step.env))]
              else net.sent)
  }

  function OriginFrame(from: NodeId, to: NodeId, ciphertext: Ciphertext, env: Env): Frame {
    Frame(DataHeader(from, to, env).(payloadLen := |ciphertext|), ciphertext)
  }

  /** One step of the whole network; a step that cannot happen changes nothing. */
  function Apply(g: Graph, net: Net, step: Step): Net {
    match step
    case Deliver(k, env) =>
      if k < |net.air| && net.air[k].to in net.nodes && net.air[k].to in g
      then DeliverTo(g, net, k, env) else net
    case Lose(k) => if k < |net.air| then net.(air := Without(net.air, k)) else net
    case Duplicate(k) => if k < |net.air| then net.(air := net.air + [net.air[k]]) else net
    case SendMessage(from, _, _, _, _, _) =>
      if from in net.nodes && from in g then Originate(g, net, step) else net
    case SendBeacon(from, env) =>
      if from in net.nodes && from in g
      then net.(air := net.air + Broadcast(g, from, BeaconFrame(from, env), Other)) else net
    case Inject(to, wire) =>
      if to in g then net.(air := net.air + [Copy(to, wire, Other)]) else net
  }

  function Exec(g: Graph, net: Net, steps: seq<Step>): Net {
    if steps == [] then net
    else Apply(g, Exec(g, net, steps[..|steps| - 1]), steps[|steps| - 1])
  }

  function Init(g: Graph): Net {
    Net(map n | n in g :: State(n, [], [], []), [], [], [])
  }

  // ----- what every run keeps -----

  /** A copy relayed h times still is its origin's frame, with TTL 8 - h, at most h + 1 hops away. */
  ghost predicate Faithful(g: Graph, sent: seq<Origin>, c: Copy) {
    c.tag.Message? ==>
      var i, h := c.tag.index, c.tag.hops;
      && i < |sent| && h < 8
      && Parse(c.wire) == Some(sent[i].frame.(header := sent[i].frame.header.(ttl := 8 - h)))
      && c.to in Ball(g, sent[i].src, h + 1)
  }

  ghost predicate LogFaithful(g: Graph, sent: seq<Origin>, a: Acceptance) {
    && a.msgId == a.frame.header.msgId
    && |a.frame.payload| < 256 && a.out == AcceptReply(a.node, a.frame, a.env)
    && (a.tag.Message? ==>
          var i, h := a.tag.index, a.tag.hops;
          && i < |sent| && h < 8
          && a.frame == sent[i].frame.(header := sent[i].frame.header.(ttl := 8 - h))
          && a.node in Ball(g, sent[i].src, h + 1))
  }

  ghost predicate Marked(nodes: map<NodeId, State>, a: Acceptance) {
    && a.node in nodes
    && a.mark < |nodes[a.node].marks|
    && nodes[a.node].marks[a.mark] == a.msgId
  }

  ghost predicate NodesOk(g: Graph, nodes: map<NodeId, State>) {
    && nodes.Keys == g.Keys
    && forall n :: n in nodes ==> nodes[n].id == n && Dedup.SpreadOut(nodes[n].marks)
  }

  ghost predicate LogOk(nodes: map<NodeId, State>, log: seq<Acceptance>) {
    && (forall p :: 0 <= p < |log| ==> Marked(nodes, log[p]))
    && (forall p, q :: 0 <= p < q < |log| && log[p].node == log[q].node ==> log[p].mark < log[q].mark)
  }

  ghost predicate Inv(g: Graph, net: Net) {
    && NodesOk(g, net.nodes)
    && LogOk(net.nodes, net.log)
    && AirOk(g, net.sent, net.air)
    && OriginsOk(net.sent)
    && AllLogFaithful(g, net.sent, net.log)
  }

  ghost predicate AirOk(g: Graph, sent: seq<Origin>, air: seq<Copy>) {
    forall c :: c in air ==> c.to in g && Faithful(g, sent, c)
  }

  ghost predicate AllLogFaithful(g: Graph, sent: seq<Origin>, log: seq<Acceptance>) {
    forall a :: a in log ==> LogFaithful(g, sent, a)
  }

  /** A relayed frame decodes to the same frame with one hop less. */
  lemma RelayDecodes(f: Frame)
    requires f.header.ttl > 1 && |f.payload| == f.header.payloadLen
    ensures Parse(Relay(f)) == Some(f.(header := f.header.(ttl := f.header.ttl - 1)))
  {
    RoundTripExact(f.header.(ttl := f.header.ttl - 1), f.payload);
  }

  /** The frame is foreign, its source has room, it is no beacon, and its id is not among the last 64. */
  ghost predicate News(s: State, f: Frame, now: int) {
    && f.header.src != s.id && !RateLimiter.Limited(s.rate, f.header.src, now)
    && f.header.kind != 2 && !RecentlyMarked(s.marks, f.header.msgId)
  }

  lemma NewsIsAccepted(s: State, buf: seq<byte>, env: Env, f: Frame)
    requires Parse(buf) == Some(f) && f.header.kind != 3
    ensures FateOf(s, buf, env.now).Accepted? <==> News(s, f, env.now)
    ensures !FateOf(s, buf, env.now).KeyExchange? && |f.payload| == f.header.payloadLen
  {
    SeenIsRecent(s.marks, f.header.msgId);
    hide RateLimiter.Limited, Dedup.Seen, RecentlyMarked;
  }

  lemma AcceptedIsFlooded(id: NodeId, f: Frame, env: Env)
    requires |f.payload| == f.header.payloadLen
    ensures var out := AcceptReply(id, f, env);
            && (out.sent.Some? <==> f.header.ttl > 1)
            && (out.sent.Some? ==>
                  Parse(out.sent.value) == Some(f.(header := f.header.(ttl := f.header.ttl - 1))))
            && out.delivered == (if f.header.kind == 1 && f.header.dst == id && env.callback
                                 then Handed(f.header.src, env.plaintext) else None)
            && out.bundleFrom == None
  {
    if f.header.ttl > 1 { RelayDecodes(f); }
    hide Parse, Relay;
  }

  /**
   * What a frame outside the key exchange makes a node do. If it is news it is passed on, with one
   * hop less and otherwise as it came, exactly while it has hops left, and handed over exactly if it
   * is a message for this node that decrypts. If it is not, nothing leaves the node. Frames of
   * unknown types are flooded like messages.
   */
  lemma FloodedIff(s: State, buf: seq<byte>, env: Env, f: Frame)
    requires Parse(buf) == Some(f) && f.header.kind != 3
    ensures var out := Reply(s, buf, env);
            var news := News(s, f, env.now);
            && (out.sent.Some? <==> news && f.header.ttl > 1)
            && (out.sent.Some? ==>
                  Parse(out.sent.value) == Some(f.(header := f.header.(ttl := f.header.ttl - 1))))
            && out.delivered == (if news && f.header.kind == 1 && f.header.dst == s.id && env.callback
                                 then Handed(f.header.src, env.plaintext) else None)
            && out.bundleFrom == None
            && Receive(s, buf, env).marks == if news then s.marks + [f.header.msgId] else s.marks
  {
    NewsIsAccepted(s, buf, env, f);
    AcceptedIsFlooded(s.id, f, env);
    hide Parse, FateOf, News, AcceptReply, RateLimiter.Arrive;
  }

  function Handed(src: NodeId, plaintext: Option<seq<byte>>): Option<Delivery> {
    if plaintext.None? then None else Some(Delivery(src, plaintext.value))
  }

  ghost predicate RecentlyMarked(marks: seq<MsgId>, id: MsgId) {
    exists i :: 0 <= i < |marks| && |marks| - 64 <= i && marks[i] == id
  }

  lemma SeenIsRecent(marks: seq<MsgId>, id: MsgId)
    ensures Dedup.Seen(marks, id) <==> RecentlyMarked(marks, id)
  {
    var w := Dedup.Window(marks);
    var skip := |marks| - |w|;
    assert forall i :: 0 <= i < |w| ==> w[i] == marks[skip + i];
    if i :| 0 <= i < |marks| && |marks| - 64 <= i && marks[i] == id { assert w[i - skip] == id; }
  }

  /** Marks only ever grow, and only an accepted frame adds one. */
  lemma ReceiveMarks(s: State, buf: seq<byte>, env: Env)
    requires Dedup.SpreadOut(s.marks)
    ensures var s' := Receive(s, buf, env);
            && s'.id == s.id && Dedup.SpreadOut(s'.marks)
            && if FateOf(s, buf, env.now).Accepted?
               then s'.marks == s.marks + [Parse(buf).value.header.msgId]
               else s'.marks == s.marks
  {
    hide Parse, RateLimiter.Arrive, RateLimiter.Limited, Dedup.SpreadOut, Dedup.Seen;
    if FateOf(s, buf, env.now).Accepted? {
      Dedup.MarkKeepsSpread(s.marks, Parse(buf).value.header.msgId);
    }
  }

  /** Replacing one node by one with a longer history keeps every recorded mark in place. */
  lemma GrowKeepsLog(nodes: map<NodeId, State>, n: NodeId, s: State, log: seq<Acceptance>)
    requires LogOk(nodes, log) && n in nodes
    requires nodes[n].marks <= s.marks
    ensures LogOk(nodes[n := s], log)
  {
  }

  ghost predicate OriginsOk(sent: seq<Origin>) {
    forall o :: o in sent ==>
      o.frame.header.src == o.src && o.frame.header.ttl == 8 && |o.frame.payload| == o.frame.header.payloadLen
  }

  /** Relaying a faithful copy puts faithful copies into the air. */
  lemma RelayFaithful(g: Graph, sent: seq<Origin>, c: Copy, v: NodeId)
    requires Closed(g) && OriginsOk(sent) && Faithful(g, sent, c)
    requires Parse(c.wire).Some? && Parse(c.wire).value.header.ttl > 1
    requires c.to in g && v in g[c.to]
    ensures |Parse(c.wire).value.payload| < 256
    ensures Faithful(g, sent, Copy(v, Relay(Parse(c.wire).value), OneHopFurther(c.tag)))
  {
    var f := Parse(c.wire).value;
    if c.tag.Message? {
      var o := sent[c.tag.index];
      assert o in sent;
      RelayDecodes(f);
      BallStep(g, o.src, c.tag.hops + 1, c.to, v);
    }
  }

  /** What an accepted or answered copy puts into the air is faithful again. */
  lemma ReplyFaithful(g: Graph, sent: seq<Origin>, c: Copy, s: State, env: Env, v: NodeId)
    requires Closed(g) && OriginsOk(sent) && Faithful(g, sent, c)
    requires c.to in g && v in g[c.to]
    requires Reply(s, c.wire, env).sent.Some?
    ensures Faithful(g, sent, Copy(v, Reply(s, c.wire, env).sent.value,
                                   if FateOf(s, c.wire, env.now).Accepted? then OneHopFurther(c.tag) else Other))
  {
    if FateOf(s, c.wire, env.now).Accepted? {
      RelayFaithful(g, sent, c, v);
    }
  }

  /** A fresh acceptance takes the newest mark of its node. */
  lemma AcceptKeepsLog(nodes: map<NodeId, State>, s: State, log: seq<Acceptance>, a: Acceptance)
    requires LogOk(nodes, log) && a.node in nodes
    requires s.marks == nodes[a.node].marks + [a.msgId] && a.mark == |nodes[a.node].marks|
    ensures LogOk(nodes[a.node := s], log + [a])
  {
  }

  lemma AirJoins(g: Graph, sent: seq<Origin>, air: seq<Copy>, from: NodeId, wire: seq<byte>, tag: Tag)
    requires Closed(g) && from in g && AirOk(g, sent, air)
    requires forall v :: v in g[from] ==> Faithful(g, sent, Copy(v, wire, tag))
    ensures AirOk(g, sent, air + Broadcast(g, from, wire, tag))
  {
  }

  lemma DeliverKeepsAir(g: Graph, net: Net, k: nat, env: Env)
    requires Closed(g) && OriginsOk(net.sent) && AirOk(g, net.sent, net.air)
    requires k < |net.air| && net.air[k].to in net.nodes && net.air[k].to in g
    ensures AirOk(g, net.sent, DeliverTo(g, net, k, env).air)
  {
    var c := net.air[k];
    assert c in net.air;
    var s := net.nodes[c.to];
    var out := Reply(s, c.wire, env);
    assert AirOk(g, net.sent, Without(net.air, k)) by { hide Faithful; }
    if out.sent.Some? {
      var tag := if FateOf(s, c.wire, env.now).Accepted? then OneHopFurther(c.tag) else Other;
      forall v | v in g[c.to] ensures Faithful(g, net.sent, Copy(v, out.sent.value, tag)) {
        ReplyFaithful(g, net.sent, c, s, env, v);
      }
      AirJoins(g, net.sent, Without(net.air, k), c.to, out.sent.value, tag);
    }
    hide Faithful, AirOk, Reply, Receive, FateOf, Parse;
    if out.sent.None? {
      assert Without(net.air, k) + [] == Without(net.air, k);
    }
  }

  lemma DeliverKeepsLog(g: Graph, net: Net, k: nat, env: Env)
    requires NodesOk(g, net.nodes) && LogOk(net.nodes, net.log)
    requires k < |net.air| && net.air[k].to in net.nodes && net.air[k].to in g
    ensures var net' := DeliverTo(g, net, k, env);
            NodesOk(g, net'.nodes) && LogOk(net'.nodes, net'.log)
  {
    var c := net.air[k];
    var s := net.nodes[c.to];
    var s' := Receive(s, c.wire, env);
    ReceiveMarks(s, c.wire, env);
    if FateOf(s, c.wire, env.now).Accepted? {
      var f := Parse(c.wire).value;
      AcceptKeepsLog(net.nodes, s', net.log,
                     Acceptance(c.to, f.header.msgId, |s.marks|, c.tag, f, env, Reply(s, c.wire, env)));
    } else {
      GrowKeepsLog(net.nodes, c.to, s', net.log);
    }
    hide LogOk, Reply, Receive, FateOf, Parse, Dedup.SpreadOut;
  }

  lemma DeliverKeeps(g: Graph, net: Net, k: nat, env: Env)
    requires Closed(g) && Inv(g, net) && k < |net.air|
    ensures net.air[k].to in net.nodes && Inv(g, DeliverTo(g, net, k, env))
  {
    var c := net.air[k];
    assert c in net.air;
    AcceptanceMeans(net.nodes[c.to], c.wire, env);
    DeliverKeepsAir(g, net, k, env);
    DeliverKeepsLog(g, net, k, env);
    hide AirOk, LogOk, NodesOk, Reply, Receive, FateOf, Parse, Ball, AcceptReply;
  }

  lemma AcceptanceMeans(s: State, wire: seq<byte>, env: Env)
    ensures FateOf(s, wire, env.now).Accepted? ==>
              && Parse(wire).Some? && |Parse(wire).value.payload| < 256
              && Reply(s, wire, env) == AcceptReply(s.id, Parse(wire).value, env)
  {
  }

  /** One more originated message leaves everything said about the earlier ones true. */
  lemma SentGrows(g: Graph, sent: seq<Origin>, o: Origin, air: seq<Copy>, log: seq<Acceptance>)
    requires AirOk(g, sent, air) && AllLogFaithful(g, sent, log)
    ensures AirOk(g, sent + [o], air) && AllLogFaithful(g, sent + [o], log)
  {
  }

  lemma OriginFaithful(g: Graph, sent: seq<Origin>, from: NodeId, to: NodeId, ciphertext: Ciphertext, env: Env,
                       v: NodeId)
    requires Closed(g) && from in g && v in g[from]
    ensures var o := Origin(from, OriginFrame(from, to, ciphertext, env));
            Faithful(g, sent + [o], Copy(v, Wire(DataHeader(from, to, env), ciphertext), Message(|sent|, 0)))
  {
    RoundTripExact(DataHeader(from, to, env), ciphertext);
    BallStep(g, from, 0, from, v);
    hide Parse, Wire, Ball;
  }

  lemma OriginateKeepsAir(g: Graph, net: Net, step: Step)
    requires Closed(g) && AirOk(g, net.sent, net.air) && AllLogFaithful(g, net.sent, net.log)
    requires step.SendMessage? && step.from in net.nodes && step.from in g && net.nodes[step.from].id == step.from
    ensures var net' := Originate(g, net, step);
            AirOk(g, net'.sent, net'.air) && AllLogFaithful(g, net'.sent, net'.log)
  {
    var s := net.nodes[step.from];
    var verdict := SendVerdict(step.len, step.session, step.ciphertext);
    if verdict.Sent? {
      var c := step.ciphertext.value;
      var o := Origin(step.from, OriginFrame(step.from, step.to, c, step.env));
      var wire := Wire(DataHeader(s.id, step.to, step.env), c);
      SentGrows(g, net.sent, o, net.air, net.log);
      forall v | v in g[step.from] ensures Faithful(g, net.sent + [o], Copy(v, wire, Message(|net.sent|, 0))) {
        OriginFaithful(g, net.sent, step.from, step.to, c, step.env, v);
      }
      hide AirOk, AllLogFaithful, Faithful, Wire;
      AirJoins(g, net.sent + [o], net.air, step.from, wire, Message(|net.sent|, 0));
    } else {
      var wire := SendFrame(s, step.to, step.len, step.session, step.ciphertext, step.env);
      if wire.Some? {
        AirJoins(g, net.sent, net.air, step.from, wire.value, Other);
      } else {
        assert net.air + [] == net.air;
      }
      hide AirOk, AllLogFaithful, Wire;
    }
  }

  lemma OriginateKeepsNodes(g: Graph, net: Net, step: Step)
    requires NodesOk(g, net.nodes) && LogOk(net.nodes, net.log) && OriginsOk(net.sent)
    requires step.SendMessage? && step.from in net.nodes && step.from in g
    ensures var net' := Originate(g, net, step);
            NodesOk(g, net'.nodes) && LogOk(net'.nodes, net'.log) && OriginsOk(net'.sent)
  {
    var s := net.nodes[step.from];
    Dedup.MarkKeepsSpread(s.marks, step.env.freshId);
    var s' := AfterSend(s, step.len, step.session, step.ciphertext, step.env);
    assert s.marks <= s'.marks && Dedup.SpreadOut(s'.marks);
    GrowKeepsLog(net.nodes, step.from, s', net.log);
    hide LogOk, Wire, Dedup.SpreadOut, Dedup.Seen;
  }

  lemma OriginateKeeps(g: Graph, net: Net, step: Step)
    requires Closed(g) && Inv(g, net)
    requires step.SendMessage? && step.from in g
    ensures step.from in net.nodes && Inv(g, Originate(g, net, step))
  {
    assert step.from in net.nodes;
    OriginateKeepsAir(g, net, step);
    OriginateKeepsNodes(g, net, step);
    hide AirOk, AllLogFaithful, LogOk, OriginsOk, Wire;
  }

  lemma StepKeeps(g: Graph, net: Net, step: Step)
    requires Closed(g) && Inv(g, net)
    ensures Inv(g, Apply(g, net, step))
  {
    match step
    case Deliver(k, env) =>
      if k < |net.air| { DeliverKeeps(g, net, k, env); }
    case SendMessage(from, _, _, _, _, _) =>
      if from in g { OriginateKeeps(g, net, step); }
    case _ =>
      hide Faithful, LogFaithful;
  }

  /** Every run, whatever is sent, lost, duplicated, reordered or injected. */
  lemma {:induction false} EveryRunIsSafe(g: Graph, steps: seq<Step>)
    requires Closed(g)
    ensures Inv(g, Exec(g, Init(g), steps))
  {
    if steps != [] {
      EveryRunIsSafe(g, steps[..|steps| - 1]);
      StepKeeps(g, Exec(g, Init(g), steps[..|steps| - 1]), steps[|steps| - 1]);
    }
  }

  // ----- the consequences, spelled out for one copy or one acceptance -----

  /** A copy relayed h times has TTL exactly 8 - h >= 1, and every other byte is its origin's. */
  lemma InFlightIntact(g: Graph, steps: seq<Step>, c: Copy)
    requires Closed(g)
    requires c in Exec(g, Init(g), steps).air && c.tag.Message?
    ensures var o := Exec(g, Init(g), steps).sent;
            && c.tag.index < |o| && Parse(c.wire).Some?
            && var f, origin := Parse(c.wire).value, o[c.tag.index].frame;
               && f.header.ttl == 8 - c.tag.hops >= 1
               && f.header.kind == origin.header.kind && f.header.msgId == origin.header.msgId
               && f.header.src == origin.header.src && f.header.dst == origin.header.dst
               && f.header.timestamp == origin.header.timestamp
               && f.payload == origin.payload
  {
    EveryRunIsSafe(g, steps);
  }

  /** No node further than eight hops from the origin ever accepts its message. */
  lemma NeverBeyondEightHops(g: Graph, steps: seq<Step>, a: Acceptance)
    requires Closed(g)
    requires a in Exec(g, Init(g), steps).log && a.tag.Message?
    ensures var o := Exec(g, Init(g), steps).sent;
            && a.tag.index < |o|
            && exists p :: Walk(g, p, o[a.tag.index].src, a.node) && |p| <= 9
  {
    EveryRunIsSafe(g, steps);
    var src := Exec(g, Init(g), steps).sent[a.tag.index].src;
    BallGrows(g, src, a.tag.hops + 1, 8);
    BallIsWalks(g, src, 8, a.node);
  }

  /** Delivering to the application and relaying happen only as part of a logged acceptance. */
  lemma ActsAreLogged(g: Graph, net: Net, k: nat, env: Env)
    requires k < |net.air| && net.air[k].to in net.nodes && net.air[k].to in g
    ensures var c := net.air[k];
            var out := Reply(net.nodes[c.to], c.wire, env);
            var log' := DeliverTo(g, net, k, env).log;
            out.delivered.Some? || (out.sent.Some? && Parse(c.wire).value.header.kind != KEY_BUNDLE) ==>
              && |log'| == |net.log| + 1
              && log'[|net.log|].node == c.to && log'[|net.log|].out == out
              && log'[|net.log|].msgId == Parse(c.wire).value.header.msgId
  {
    hide Parse;
  }

  // ----- frames always fit the radio -----

  ghost predicate AllFit(air: seq<Copy>) {
    forall c :: c in air ==> |c.wire| <= MAX_WIRE_LEN
  }

  lemma ReplyFits(s: State, wire: seq<byte>, env: Env)
    requires |wire| <= MAX_WIRE_LEN && Reply(s, wire, env).sent.Some?
    ensures |Reply(s, wire, env).sent.value| <= MAX_WIRE_LEN
  {
    var f := Parse(wire).value;
    if FateOf(s, wire, env.now).Accepted? {
      RelayFits(wire, f.header.ttl - 1);
    }
    hide Parse, HeaderBytes;
  }

  lemma StepFits(g: Graph, net: Net, step: Step)
    requires AllFit(net.air)
    ensures AllFit(Apply(g, net, step).air)
  {
    hide Receive, FateOf, Parse, Reply, HeaderBytes;
    if step.Deliver? && step.k < |net.air| && net.air[step.k].to in net.nodes {
      var c := net.air[step.k];
      assert c in net.air;
      var out := Reply(net.nodes[c.to], c.wire, step.env);
      if out.sent.Some? { ReplyFits(net.nodes[c.to], c.wire, step.env); }
    }
  }

  /** On every run each frame in the air has at most 255 bytes, so no transmission is refused for size. */
  lemma {:induction false} FramesFitTheRadio(g: Graph, net: Net, steps: seq<Step>)
    requires AllFit(net.air)
    ensures AllFit(Exec(g, net, steps).air)
  {
    if steps != [] {
      hide Apply, AllFit;
      FramesFitTheRadio(g, net, steps[..|steps| - 1]);
      StepFits(g, Exec(g, net, steps[..|steps| - 1]), steps[|steps| - 1]);
    }
  }

  /** A message is handed over only at its addressee, and there whenever it decrypts. */
  lemma DeliveredAtAddressee(g: Graph, steps: seq<Step>, a: Acceptance)
    requires Closed(g)
    requires a in Exec(g, Init(g), steps).log
    ensures a.out.delivered ==
            if a.node == a.frame.header.dst && a.frame.header.kind == DATA && a.env.callback && a.env.plaintext.Some?
            then Some(Delivery(a.frame.header.src, a.env.plaintext.value)) else None
  {
    EveryRunIsSafe(g, steps);
    hide Exec, Relay;
  }

  /** A node acts on the same id twice only if 64 other distinct ids were newly marked in between. */
  lemma ActsOncePerRing(g: Graph, steps: seq<Step>, p: nat, q: nat)
    requires Closed(g)
    requires var log := Exec(g, Init(g), steps).log;
             p < q < |log| && log[p].node == log[q].node && log[p].msgId == log[q].msgId
    ensures var net := Exec(g, Init(g), steps);
            && net.log[p].node in net.nodes
            && var marks := net.nodes[net.log[p].node].marks;
               && net.log[p].mark + Dedup.CACHE_SIZE < net.log[q].mark < |marks|
               && |Dedup.Between(marks, net.log[p].mark)| == 64
               && net.log[p].msgId !in Dedup.Between(marks, net.log[p].mark)
  {
    EveryRunIsSafe(g, steps);
    var net := Exec(g, Init(g), steps);
    assert Marked(net.nodes, net.log[p]) && Marked(net.nodes, net.log[q]);
    hide Exec, Dedup.Between, LogFaithful, Faithful;
    Dedup.RemarkNeedsSixtyFourOthers(net.nodes[net.log[p].node].marks, net.log[p].mark, net.log[q].mark);
  }
}
