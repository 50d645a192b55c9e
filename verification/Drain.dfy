/**
 * Flooding stops by itself: without new sends or beacons every backlog drains, whether or not the
 * duplicate filters remember anything. A weight on the copies in the air falls with every step.
 */
module Drain {
  import opened Bytes
  import opened Packet
  import opened Topology
  import opened MeshNode
  import opened Network

  function Pow(b: nat, n: nat): nat {
    if n == 0 then 1 else b * Pow(b, n - 1)
  }

  lemma {:induction false} PowPositive(b: nat, n: nat)
    requires b >= 1
    ensures Pow(b, n) >= 1
  {
    if n > 0 {
      PowPositive(b, n - 1);
      assert b * Pow(b, n - 1) >= 1;
    }
  }

  ghost predicate DegreeAtMost(g: Graph, d: nat) {
    forall n :: n in g ==> |g[n]| <= d
  }

  /** What one copy can still cause: a flood of depth ttl, one round of responses, or nothing. */
  function Weight(d: nat, wire: seq<byte>): nat {
    var f := Parse(wire);
    if f.None? then 1
    else if f.value.header.kind == BEACON then 1
    else if f.value.header.kind == KEY_BUNDLE then
      if f.value.payload != [] && f.value.payload[0] == KEY_BUNDLE_REQUEST then d + 1 else 1
    else Pow(d + 1, f.value.header.ttl)
  }

  function Backlog(d: nat, air: seq<Copy>): nat {
    if air == [] then 0 else Weight(d, air[0].wire) + Backlog(d, air[1..])
  }

  lemma WeightPositive(d: nat, wire: seq<byte>)
    ensures Weight(d, wire) >= 1
  {
    hide Parse;
    if Parse(wire).Some? { PowPositive(d + 1, Parse(wire).value.header.ttl); }
  }

  lemma {:induction false} BacklogJoin(d: nat, a: seq<Copy>, b: seq<Copy>)
    ensures Backlog(d, a + b) == Backlog(d, a) + Backlog(d, b)
  {
    hide Weight;
    if a == [] {
      assert a + b == b;
    } else {
      assert (a + b)[1..] == a[1..] + b;
      BacklogJoin(d, a[1..], b);
    }
  }

  lemma BacklogWithout(d: nat, air: seq<Copy>, k: nat)
    requires k < |air|
    ensures Backlog(d, air) == Weight(d, air[k].wire) + Backlog(d, Without(air, k))
  {
    hide Weight;
    BacklogJoin(d, air[..k], air[k + 1..]);
    BacklogJoin(d, air[..k], air[k..]);
    assert air == air[..k] + air[k..];
    assert air[k..][1..] == air[k + 1..];
  }

  lemma {:induction false} BacklogUniform(d: nat, air: seq<Copy>, wire: seq<byte>)
    requires forall c :: c in air ==> c.wire == wire
    ensures Backlog(d, air) == |air| * Weight(d, wire)
  {
    hide Weight;
    if air != [] {
      assert air[0] in air;
      BacklogUniform(d, air[1..], wire);
    }
  }

  lemma FewerThanAll(n: nat, d: nat, w: nat)
    requires n <= d && w >= 1
    ensures n * w < (d + 1) * w
  {
  }

  /** A relayed frame, heard by at most d neighbours, weighs less than the frame it repeats. */
  lemma RelayIsLighter(f: Frame, wire: seq<byte>, d: nat, n: nat)
    requires Parse(wire) == Some(f) && f.header.ttl > 1 && n <= d
    requires f.header.kind != BEACON && f.header.kind != KEY_BUNDLE
    ensures |f.payload| < 256 && n * Weight(d, Relay(f)) < Weight(d, wire)
  {
    RelayDecodes(f);
    hide Parse, Relay;
    PowPositive(d + 1, f.header.ttl - 1);
    FewerThanAll(n, d, Pow(d + 1, f.header.ttl - 1));
  }

  lemma ResponseIsLighter(id: NodeId, f: Frame, wire: seq<byte>, env: Env, d: nat, n: nat)
    requires Parse(wire) == Some(f) && f.header.kind == KEY_BUNDLE && KeyReply(id, f, env).sent.Some? && n <= d
    ensures n * Weight(d, KeyReply(id, f, env).sent.value) < Weight(d, wire)
  {
    var payload := [KEY_BUNDLE_RESPONSE] + env.bundle.value;
    RoundTripExact(KeyHeader(id, f.header.src, env), payload);
    assert payload[0] == KEY_BUNDLE_RESPONSE;
    hide Parse, Wire;
  }

  /** A reply, heard by at most d neighbours, weighs less than the frame that caused it. */
  lemma ReplyIsLighter(s: State, wire: seq<byte>, env: Env, d: nat, n: nat)
    requires Reply(s, wire, env).sent.Some? && n <= d
    ensures n * Weight(d, Reply(s, wire, env).sent.value) < Weight(d, wire)
  {
    var f := Parse(wire).value;
    if FateOf(s, wire, env.now).Accepted? {
      RelayIsLighter(f, wire, d, n);
    } else {
      ResponseIsLighter(s.id, f, wire, env, d, n);
    }
    hide Parse, Wire, Weight, KeyReply;
  }

  /** Every reception takes weight out of the air, whatever the receiver remembers. */
  lemma DeliverLightens(g: Graph, net: Net, k: nat, env: Env, d: nat)
    requires DegreeAtMost(g, d)
    requires k < |net.air| && net.air[k].to in net.nodes && net.air[k].to in g
    ensures Backlog(d, DeliverTo(g, net, k, env).air) < Backlog(d, net.air)
  {
    var c := net.air[k];
    var s := net.nodes[c.to];
    var out := Reply(s, c.wire, env);
    BacklogWithout(d, net.air, k);
    WeightPositive(d, c.wire);
    if out.sent.Some? {
      var tag := if FateOf(s, c.wire, env.now).Accepted? then OneHopFurther(c.tag) else Other;
      var more := Broadcast(g, c.to, out.sent.value, tag);
      ReplyIsLighter(s, c.wire, env, d, |more|);
      hide Backlog, Reply, FateOf, Weight, Receive, Parse;
      BacklogJoin(d, Without(net.air, k), more);
      BacklogUniform(d, more, out.sent.value);
    } else {
      assert Without(net.air, k) + [] == Without(net.air, k);
    }
  }

  /** Only receptions and losses: nobody sends, no beacon falls due, nothing is duplicated. */
  predicate Quiet(steps: seq<Step>) {
    forall i :: 0 <= i < |steps| ==> steps[i].Deliver? || steps[i].Lose?
  }

  predicate Takes(g: Graph, net: Net, step: Step) {
    match step
    case Deliver(k, _) => k < |net.air| && net.air[k].to in net.nodes && net.air[k].to in g
    case Lose(k) => k < |net.air|
    case _ => false
  }

  /** How many steps of the run really received or lost something. */
  function Effective(g: Graph, net: Net, steps: seq<Step>): nat {
    if steps == [] then 0
    else
      var n := |steps| - 1;
      Effective(g, net, steps[..n]) + if Takes(g, Exec(g, net, steps[..n]), steps[n]) then 1 else 0
  }

  lemma QuietStepLightens(g: Graph, net: Net, step: Step, d: nat)
    requires DegreeAtMost(g, d)
    requires step.Deliver? || step.Lose?
    ensures Backlog(d, Apply(g, net, step).air) + (if Takes(g, net, step) then 1 else 0) <= Backlog(d, net.air)
  {
    if Takes(g, net, step) {
      match step
      case Deliver(k, env) => DeliverLightens(g, net, k, env, d);
      case Lose(k) =>
        BacklogWithout(d, net.air, k);
        WeightPositive(d, net.air[k].wire);
    }
  }

  /** From any state at all, a quiet run makes at most as many steps as the air weighs. */
  lemma {:induction false} QuietRunsAreBounded(g: Graph, net: Net, steps: seq<Step>, d: nat)
    requires DegreeAtMost(g, d) && Quiet(steps)
    ensures Backlog(d, Exec(g, net, steps).air) + Effective(g, net, steps) <= Backlog(d, net.air)
  {
    if steps != [] {
      var n := |steps| - 1;
      QuietRunsAreBounded(g, net, steps[..n], d);
      QuietStepLightens(g, Exec(g, net, steps[..n]), steps[n], d);
    }
  }

  /** Hence a quiet run in which some copy is always received or lost ends with silence. */
  lemma PersistentRunsDrain(g: Graph, net: Net, steps: seq<Step>, d: nat)
    requires DegreeAtMost(g, d) && Quiet(steps)
    requires |steps| >= Backlog(d, net.air)
    requires forall i :: 0 <= i < |steps| ==>
               Exec(g, net, steps[..i]).air != [] ==> Takes(g, Exec(g, net, steps[..i]), steps[i])
    ensures Exec(g, net, steps).air == []
  {
    QuietRunsAreBounded(g, net, steps, d);
    var rest := Exec(g, net, steps).air;
    if rest != [] {
      WeightPositive(d, rest[0].wire);
      AlwaysBusy(g, net, steps);
    }
  }

  lemma SilenceStays(g: Graph, net: Net, step: Step)
    requires (step.Deliver? || step.Lose?) && net.air == []
    ensures Apply(g, net, step).air == []
  {
  }

  /** Silence is final in a quiet run, so a run that ends noisy took a step every time. */
  lemma {:induction false} AlwaysBusy(g: Graph, net: Net, steps: seq<Step>)
    requires Quiet(steps)
    requires forall i :: 0 <= i < |steps| ==>
               Exec(g, net, steps[..i]).air != [] ==> Takes(g, Exec(g, net, steps[..i]), steps[i])
    requires Exec(g, net, steps).air != []
    ensures Effective(g, net, steps) == |steps|
  {
    if steps != [] {
      hide Apply, Takes;
      var n := |steps| - 1;
      if Exec(g, net, steps[..n]).air == [] {
        SilenceStays(g, Exec(g, net, steps[..n]), steps[n]);
      }
      assert forall i :: 0 <= i < n ==> steps[..n][..i] == steps[..i];
      AlwaysBusy(g, net, steps[..n]);
    }
  }
}
