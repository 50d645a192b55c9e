/**
 * What a flood reaches when nothing is lost but any copy may be late or arrive twice. A node relays
 * only the copy it hears first, with that copy's hop count, so a run leaves a labelling of the nodes
 * that accepted. The labellings that runs can leave are exactly the relay trees below, and so the
 * graph alone decides whether every node within eight hops is sure to be reached.
 */
module Coverage {
  import opened Bytes
  import opened Packet
  import opened Topology
  import opened MeshNode
  import opened Network
  import opened OneMessage

  ghost predicate Parent(g: Graph, d: map<NodeId, nat>, u: NodeId, v: NodeId) {
    u in d && v in d && d[v] == d[u] + 1 && Hears(g, u, v)
  }

  /** Every labelled node but the source heard the message from a node one hop closer by label. */
  ghost predicate Rooted(g: Graph, s: NodeId, d: map<NodeId, nat>) {
    && s in d && d[s] == 0 && d.Keys <= g.Keys
    && (forall v :: v in d ==> d[v] <= 8)
    && (forall v :: v in d && v != s ==> exists u :: Parent(g, d, u, v))
  }

  /** And whoever hears a node with a label below eight is labelled too. */
  ghost predicate RelayTree(g: Graph, s: NodeId, d: map<NodeId, nat>) {
    Rooted(g, s, d) && forall u, v :: u in d && d[u] < 8 && Hears(g, u, v) ==> v in d
  }

  // ----- the invariant of a run in which nothing is lost -----

  /** `c` is what node `u` put into the air when it sent or relayed the message. */
  ghost predicate SentBy(g: Graph, d: map<NodeId, nat>, m: Frame, u: NodeId, c: Copy) {
    u in d && d[u] < 8 && Hears(g, u, c.to) && Parse(c.wire) == Some(WithTtl(m, 8 - d[u]))
  }

  ghost predicate AllSent(g: Graph, d: map<NodeId, nat>, m: Frame, air: seq<Copy>) {
    forall c :: c in air ==> exists u :: SentBy(g, d, m, u, c)
  }

  /** A neighbour without the message still has every holder's copy coming. */
  ghost predicate Owed(g: Graph, d: map<NodeId, nat>, m: Frame, air: seq<Copy>) {
    forall u, v :: u in d && d[u] < 8 && Hears(g, u, v) && v !in d ==>
      exists c :: c in air && c.to == v && SentBy(g, d, m, u, c)
  }

  /** The log shows the labels. */
  ghost predicate Logged(log: seq<Acceptance>, s: NodeId, m: Frame, d: map<NodeId, nat>) {
    && Reached(log, s, d.Keys)
    && forall e :: e in log ==> e.node in d && d[e.node] <= 8 && e.frame == WithTtl(m, 9 - d[e.node])
  }

  ghost predicate Spreading(g: Graph, n0: map<NodeId, State>, s: NodeId, m: Frame, net: Net, d: map<NodeId, nat>) {
    && Tables(n0, net.nodes, m, d.Keys)
    && Rooted(g, s, d)
    && AllSent(g, d, m, net.air) && Owed(g, d, m, net.air)
    && Logged(net.log, s, m, d)
  }

  lemma SpreadingParts(g: Graph, n0: map<NodeId, State>, s: NodeId, m: Frame, net: Net, d: map<NodeId, nat>)
    requires Spreading(g, n0, s, m, net, d)
    ensures Tables(n0, net.nodes, m, d.Keys) && Rooted(g, s, d)
    ensures AllSent(g, d, m, net.air) && Owed(g, d, m, net.air) && Logged(net.log, s, m, d)
    ensures s in d
  {
    hide Tables, AllSent, Owed, Logged;
  }

  lemma SpreadingFrom(g: Graph, n0: map<NodeId, State>, s: NodeId, m: Frame, net: Net, d: map<NodeId, nat>)
    requires Tables(n0, net.nodes, m, d.Keys) && Rooted(g, s, d)
    requires AllSent(g, d, m, net.air) && Owed(g, d, m, net.air) && Logged(net.log, s, m, d)
    ensures Spreading(g, n0, s, m, net, d)
  {
    hide Tables, AllSent, Owed, Logged, Rooted;
  }

  lemma SentByMeans(g: Graph, d: map<NodeId, nat>, m: Frame, u: NodeId, c: Copy)
    requires Closed(g) && SentBy(g, d, m, u, c)
    ensures u in d && d[u] < 8 && c.to in g && Hears(g, u, c.to) && Parse(c.wire) == Some(WithTtl(m, 8 - d[u]))
  {
    hide Parse, WithTtl;
  }

  lemma Sender(g: Graph, d: map<NodeId, nat>, m: Frame, air: seq<Copy>, k: nat) returns (u: NodeId)
    requires Closed(g) && AllSent(g, d, m, air) && k < |air|
    ensures SentBy(g, d, m, u, air[k]) && air[k].to in g
    ensures u in d && d[u] < 8 && Hears(g, u, air[k].to) && Parse(air[k].wire) == Some(WithTtl(m, 8 - d[u]))
  {
    assert air[k] in air;
    u :| SentBy(g, d, m, u, air[k]);
    hide Parse, WithTtl;
  }

  lemma InWithout(air: seq<Copy>, k: nat, c: Copy)
    requires k < |air| && c in air && c != air[k]
    ensures c in Without(air, k)
  {
    var i :| 0 <= i < |air| && air[i] == c;
    assert Without(air, k)[if i < k then i else i - 1] == c;
  }

  lemma OwedWithout(g: Graph, d: map<NodeId, nat>, m: Frame, air: seq<Copy>, k: nat)
    requires Owed(g, d, m, air) && k < |air| && air[k].to in d
    ensures Owed(g, d, m, Without(air, k))
  {
    hide SentBy, Without, Hears;
    forall u, v | u in d && d[u] < 8 && Hears(g, u, v) && v !in d
      ensures exists c :: c in Without(air, k) && c.to == v && SentBy(g, d, m, u, c)
    {
      var c :| c in air && c.to == v && SentBy(g, d, m, u, c);
      InWithout(air, k, c);
    }
  }

  lemma AllSentWithout(g: Graph, d: map<NodeId, nat>, m: Frame, air: seq<Copy>, k: nat)
    requires AllSent(g, d, m, air) && k < |air|
    ensures AllSent(g, d, m, Without(air, k))
  {
    hide SentBy;
    assert forall c :: c in Without(air, k) ==> c in air;
  }

  /** A later copy is swallowed. */
  lemma KnownCase(g: Graph, n0: map<NodeId, State>, s: NodeId, m: Frame, net: Net, d: map<NodeId, nat>,
                  k: nat, env: Env)
    requires Closed(g) && IsMessage(m, s) && AllReady(g, n0, s, m)
    requires Spreading(g, n0, s, m, net, d) && k < |net.air| && net.air[k].to in d
    ensures Spreading(g, n0, s, m, Apply(g, net, Deliver(k, env)), d)
    ensures Apply(g, net, Deliver(k, env)).air == Without(net.air, k)
  {
    hide Owed, AllSent, Logged, Tables, Rooted, Apply, SentBy, IsMessage, AllReady, Parse, Closed, Hears, Without;
    SpreadingParts(g, n0, s, m, net, d);
    var u := Sender(g, d, m, net.air, k);
    OwedWithout(g, d, m, net.air, k);
    AllSentWithout(g, d, m, net.air, k);
    KnownEffect(g, n0, s, m, d.Keys, 8 - d[u], net, k, env);
  }

  lemma RootedGrows(g: Graph, s: NodeId, d: map<NodeId, nat>, u: NodeId, v: NodeId)
    requires Closed(g) && Rooted(g, s, d) && u in d && d[u] < 8 && Hears(g, u, v) && v !in d
    ensures Rooted(g, s, d[v := d[u] + 1])
  {
    var d' := d[v := d[u] + 1];
    forall w | w in d' && w != s ensures exists p :: Parent(g, d', p, w) {
      if w == v {
        assert Parent(g, d', u, v);
      } else {
        var p :| Parent(g, d, p, w);
        assert Parent(g, d', p, w);
      }
    }
  }

  /** A label, once given, is never changed, so what was sent stays sent. */
  lemma SentStays(g: Graph, d: map<NodeId, nat>, m: Frame, u: NodeId, c: Copy, v: NodeId, n: nat)
    requires v !in d && SentBy(g, d, m, u, c)
    ensures SentBy(g, d[v := n], m, u, c)
  {
    hide Parse, WithTtl;
  }

  /** What a node transmits with its new label `n`. */
  ghost predicate Relayed(g: Graph, m: Frame, v: NodeId, n: nat, more: seq<Copy>) {
    if n >= 8 then more == []
    else
      && v in g && |more| == |g[v]|
      && forall i :: 0 <= i < |more| ==> more[i].to == g[v][i] && Parse(more[i].wire) == Some(WithTtl(m, 8 - n))
  }

  lemma RelayedSent(g: Graph, d: map<NodeId, nat>, m: Frame, v: NodeId, more: seq<Copy>, i: nat)
    requires v in d && Relayed(g, m, v, d[v], more) && i < |more|
    ensures SentBy(g, d, m, v, more[i])
  {
    hide Parse, WithTtl;
  }

  /** Every copy in the air still comes from a labelled node once one more node gets its label. */
  lemma AllSentGrows(g: Graph, d: map<NodeId, nat>, m: Frame, air: seq<Copy>, k: nat, v: NodeId, n: nat,
                     more: seq<Copy>)
    requires AllSent(g, d, m, air) && k < |air| && v !in d && Relayed(g, m, v, n, more)
    ensures AllSent(g, d[v := n], m, Without(air, k) + more)
  {
    var d' := d[v := n];
    AllSentWithout(g, d, m, air, k);
    hide SentBy, Relayed, Without;
    forall c | c in Without(air, k) + more ensures exists p :: SentBy(g, d', m, p, c) {
      if c in more {
        var i :| 0 <= i < |more| && more[i] == c;
        RelayedSent(g, d', m, v, more, i);
      } else {
        var p :| SentBy(g, d, m, p, c);
        SentStays(g, d, m, p, c, v, n);
      }
    }
  }

  /** And every debt is still covered. */
  lemma OwedGrows(g: Graph, d: map<NodeId, nat>, m: Frame, air: seq<Copy>, k: nat, n: nat, more: seq<Copy>)
    requires Owed(g, d, m, air) && k < |air| && air[k].to !in d && Relayed(g, m, air[k].to, n, more)
    ensures Owed(g, d[air[k].to := n], m, Without(air, k) + more)
  {
    var v := air[k].to;
    var d', air' := d[v := n], Without(air, k) + more;
    hide SentBy, Without, Parse, WithTtl;
    forall p, w | p in d' && d'[p] < 8 && Hears(g, p, w) && w !in d'
      ensures exists c :: c in air' && c.to == w && SentBy(g, d', m, p, c)
    {
      if p == v {
        var i :| 0 <= i < |g[v]| && g[v][i] == w;
        RelayedSent(g, d', m, v, more, i);
        assert more[i] in air';
      } else {
        var c :| c in air && c.to == w && SentBy(g, d, m, p, c);
        InWithout(air, k, c);
        SentStays(g, d, m, p, c, v, n);
        assert c in air';
      }
    }
  }

  lemma LogGrows(log: seq<Acceptance>, s: NodeId, m: Frame, d: map<NodeId, nat>, e: Acceptance, n: nat)
    requires Logged(log, s, m, d) && e.node !in d && e.node != s
    requires n <= 8 && e.frame == WithTtl(m, 9 - n)
    ensures Logged(log + [e], s, m, d[e.node := n])
  {
    ReachedGrows(log, s, d.Keys, e);
    assert d[e.node := n].Keys == d.Keys + {e.node};
    hide Reached;
  }

  /** A first reception labels the receiver. */
  lemma FreshCase(g: Graph, n0: map<NodeId, State>, s: NodeId, m: Frame, net: Net, d: map<NodeId, nat>,
                  k: nat, env: Env, u: NodeId)
    requires Closed(g) && IsMessage(m, s) && AllReady(g, n0, s, m) && Spreading(g, n0, s, m, net, d)
    requires k < |net.air| && net.air[k].to !in d && SentBy(g, d, m, u, net.air[k])
    ensures u in d
    ensures Spreading(g, n0, s, m, Apply(g, net, Deliver(k, env)), d[net.air[k].to := d[u] + 1])
  {
    hide *;
    var to := net.air[k].to;
    SpreadingParts(g, n0, s, m, net, d);
    SentByMeans(g, d, m, u, net.air[k]);
    var d' := d[to := d[u] + 1];
    assert d'.Keys == d.Keys + {to};
    var e, more := FreshEffect(g, n0, s, m, d.Keys, 8 - d[u], net, k, env);
    RelaysWith(g, m, to, 8 - d[u], more);
    RootedGrows(g, s, d, u, to);
    AllSentGrows(g, d, m, net.air, k, to, d[u] + 1, more);
    OwedGrows(g, d, m, net.air, k, d[u] + 1, more);
    LogGrows(net.log, s, m, d, e, d[u] + 1);
    SpreadingFrom(g, n0, s, m, Apply(g, net, Deliver(k, env)), d');
  }

  lemma RelaysWith(g: Graph, m: Frame, v: NodeId, t: byte, more: seq<Copy>)
    requires 1 <= t <= 8 && v in g
    requires t == 1 ==> more == []
    requires t > 1 ==> |more| == |g[v]| && forall i :: 0 <= i < |more| ==>
                         more[i].to == g[v][i] && Parse(more[i].wire) == Some(WithTtl(m, t - 1))
    ensures Relayed(g, m, v, 9 - t, more)
  {
    hide Parse, WithTtl;
  }

  lemma DuplicateCase(g: Graph, n0: map<NodeId, State>, s: NodeId, m: Frame, net: Net, d: map<NodeId, nat>, k: nat)
    requires Spreading(g, n0, s, m, net, d)
    ensures Spreading(g, n0, s, m, Apply(g, net, Step.Duplicate(k)), d)
  {
    hide SentBy, Logged, Tables, Rooted, Hears;
    if k < |net.air| {
      assert net.air[k] in net.air;
      var more := net.air + [net.air[k]];
      assert forall c :: c in more <==> c in net.air;
    }
  }

  /** Nothing is lost and nothing else is sent. */
  ghost predicate LossFree(steps: seq<Step>) {
    forall i :: 0 <= i < |steps| ==> steps[i].Deliver? || steps[i].Duplicate?
  }

  lemma StepSpreads(g: Graph, n0: map<NodeId, State>, s: NodeId, m: Frame, net: Net, d: map<NodeId, nat>, step: Step)
    returns (d': map<NodeId, nat>)
    requires Closed(g) && IsMessage(m, s) && AllReady(g, n0, s, m) && Spreading(g, n0, s, m, net, d)
    requires step.Deliver? || step.Duplicate?
    ensures Spreading(g, n0, s, m, Apply(g, net, step), d')
  {
    d' := d;
    if step.Duplicate? {
      DuplicateCase(g, n0, s, m, net, d, step.k);
    } else if step.k >= |net.air| {
      hide Spreading;
    } else {
      hide *;
      var to := net.air[step.k].to;
      SpreadingParts(g, n0, s, m, net, d);
      var u := Sender(g, d, m, net.air, step.k);
      if to in d {
        KnownCase(g, n0, s, m, net, d, step.k, step.env);
      } else {
        FreshCase(g, n0, s, m, net, d, step.k, step.env, u);
        d' := d[to := d[u] + 1];
      }
    }
  }

  lemma {:induction false} RunSpreads(g: Graph, n0: map<NodeId, State>, s: NodeId, m: Frame, net: Net,
                                      d: map<NodeId, nat>, steps: seq<Step>) returns (d': map<NodeId, nat>)
    requires Closed(g) && IsMessage(m, s) && AllReady(g, n0, s, m) && Spreading(g, n0, s, m, net, d)
    requires LossFree(steps)
    ensures Spreading(g, n0, s, m, Exec(g, net, steps), d')
  {
    hide Spreading, Apply, AllReady, IsMessage;
    d' := d;
    if steps != [] {
      var n := |steps| - 1;
      d' := RunSpreads(g, n0, s, m, net, d, steps[..n]);
      d' := StepSpreads(g, n0, s, m, Exec(g, net, steps[..n]), d', steps[n]);
    }
  }

  lemma FirstCopies(g: Graph, s: NodeId, m: Frame, wire: seq<byte>, tag: Tag)
    requires s in g && Parse(wire) == Some(WithTtl(m, 8))
    ensures var air := Broadcast(g, s, wire, tag); AllSent(g, map[s := 0], m, air) && Owed(g, map[s := 0], m, air)
  {
    var d: map<NodeId, nat> := map[s := 0];
    var air := Broadcast(g, s, wire, tag);
    hide Parse, WithTtl;
    forall c | c in air ensures exists u :: SentBy(g, d, m, u, c) {
      assert SentBy(g, d, m, s, c);
    }
    forall u, v | u in d && Hears(g, u, v) ensures exists c :: c in air && c.to == v && SentBy(g, d, m, u, c) {
      var i :| 0 <= i < |g[s]| && g[s][i] == v;
      assert air[i] in air && SentBy(g, d, m, s, air[i]);
    }
  }

  lemma StartSpreads(g: Graph, net0: Net, step: Step)
    requires Closed(g) && Sends(step) && Clear(g, net0, step)
    ensures IsMessage(MessageOf(step), step.from) && AllReady(g, net0.nodes, step.from, MessageOf(step))
    ensures Spreading(g, net0.nodes, step.from, MessageOf(step), Started(g, net0, step), map[step.from := 0])
  {
    hide Started, Parse, Tables, AllSent, Owed, AllReady, MessageOf;
    var wire, tag := StartEffect(g, net0, step);
    FirstCopies(g, step.from, MessageOf(step), wire, tag);
    assert map[step.from := 0 as nat].Keys == {step.from};
  }

  lemma SilentIsTree(g: Graph, n0: map<NodeId, State>, s: NodeId, m: Frame, net: Net, d: map<NodeId, nat>)
    requires Spreading(g, n0, s, m, net, d) && net.air == []
    ensures RelayTree(g, s, d)
  {
    hide Tables, Rooted, Logged;
  }

  /** A run that loses nothing and goes on until the air is silent. */
  ghost predicate Complete(g: Graph, net0: Net, step: Step, steps: seq<Step>) {
    LossFree(steps) && Exec(g, Started(g, net0, step), steps).air == []
  }

  ghost function Accepters(net: Net): set<NodeId> {
    set e | e in net.log :: e.node
  }

  lemma AcceptersAreLabelled(log: seq<Acceptance>, s: NodeId, m: Frame, d: map<NodeId, nat>, net: Net)
    requires Logged(log, s, m, d) && net.log == log
    ensures Accepters(net) == d.Keys - {s}
  {
  }

  /** Whatever a complete run reaches is a relay tree, and every TTL in the log is its label's. */
  lemma RunsAreTrees(g: Graph, net0: Net, step: Step, steps: seq<Step>) returns (d: map<NodeId, nat>)
    requires Closed(g) && Sends(step) && Clear(g, net0, step) && Complete(g, net0, step, steps)
    ensures RelayTree(g, step.from, d)
    ensures Accepters(Exec(g, Started(g, net0, step), steps)) == d.Keys - {step.from}
    ensures Logged(Exec(g, Started(g, net0, step), steps).log, step.from, MessageOf(step), d)
  {
    StartSpreads(g, net0, step);
    hide Spreading, Clear, IsMessage, AllReady, Started, MessageOf, Sends, Exec, LossFree, Logged, RelayTree;
    var start, m := Started(g, net0, step), MessageOf(step);
    d := RunSpreads(g, net0.nodes, step.from, m, start, map[step.from := 0], steps);
    var net := Exec(g, start, steps);
    SilentIsTree(g, net0.nodes, step.from, m, net, d);
    SpreadingParts(g, net0.nodes, step.from, m, net, d);
    AcceptersAreLabelled(net.log, step.from, m, d, net);
  }

  // ----- every relay tree is the trace of some run -----

  /** Every step is a reception. */
  ghost predicate Receptions(steps: seq<Step>) {
    forall i :: 0 <= i < |steps| ==> steps[i].Deliver?
  }

  /** The labels given out so far are the tree's. */
  ghost predicate Within(d: map<NodeId, nat>, tree: map<NodeId, nat>) {
    forall v :: v in d ==> v in tree && tree[v] == d[v]
  }

  /** Somewhere on the way up from a node not yet reached, a reached parent meets an unreached child. */
  lemma {:induction false} NextNode(g: Graph, s: NodeId, d: map<NodeId, nat>, tree: map<NodeId, nat>, v: NodeId)
    returns (u: NodeId, w: NodeId)
    requires Rooted(g, s, tree) && s in d && Within(d, tree) && v in tree && v !in d
    ensures Parent(g, tree, u, w) && u in d && w !in d
    decreases tree[v]
  {
    u, w :| Parent(g, tree, u, v) && w == v;
    if u !in d {
      u, w := NextNode(g, s, d, tree, u);
    }
  }

  lemma OwedCopy(g: Graph, n0: map<NodeId, State>, s: NodeId, m: Frame, net: Net, d: map<NodeId, nat>,
                 u: NodeId, w: NodeId) returns (k: nat)
    requires Spreading(g, n0, s, m, net, d) && u in d && d[u] < 8 && Hears(g, u, w) && w !in d
    ensures k < |net.air| && net.air[k].to == w && SentBy(g, d, m, u, net.air[k])
  {
    hide SentBy, Tables, Rooted, AllSent, Logged;
    var c :| c in net.air && c.to == w && SentBy(g, d, m, u, c);
    k :| k < |net.air| && net.air[k] == c;
  }

  /** One more reception the tree asks for. */
  lemma NextReception(g: Graph, n0: map<NodeId, State>, s: NodeId, m: Frame, net: Net, d: map<NodeId, nat>,
                      tree: map<NodeId, nat>, v: NodeId, env: Env) returns (step: Step, d': map<NodeId, nat>)
    requires Closed(g) && IsMessage(m, s) && AllReady(g, n0, s, m) && Spreading(g, n0, s, m, net, d)
    requires RelayTree(g, s, tree) && Within(d, tree) && v in tree && v !in d
    ensures step.Deliver? && Spreading(g, n0, s, m, Apply(g, net, step), d')
    ensures Within(d', tree) && tree.Keys - d'.Keys < tree.Keys - d.Keys
  {
    hide Spreading, IsMessage, AllReady, Apply, Closed, SentBy;
    SpreadingParts(g, n0, s, m, net, d);
    hide AllSent, Owed, Logged, Tables;
    var u, w := NextNode(g, s, d, tree, v);
    d' := d[w := d[u] + 1];
    assert d[u] < 8 && w in tree.Keys - d.Keys && w in d';
    hide Rooted, RelayTree;
    var k := OwedCopy(g, n0, s, m, net, d, u, w);
    FreshCase(g, n0, s, m, net, d, k, env, u);
    step := Deliver(k, env);
  }

  /** Receive, in turn, the copies the tree asks for. */
  lemma {:induction false} Realise(g: Graph, n0: map<NodeId, State>, s: NodeId, m: Frame, net: Net,
                                   d: map<NodeId, nat>, tree: map<NodeId, nat>, env: Env) returns (steps: seq<Step>)
    requires Closed(g) && IsMessage(m, s) && AllReady(g, n0, s, m) && Spreading(g, n0, s, m, net, d)
    requires RelayTree(g, s, tree) && Within(d, tree)
    ensures Receptions(steps) && Spreading(g, n0, s, m, Exec(g, net, steps), tree)
    decreases tree.Keys - d.Keys
  {
    hide Spreading, IsMessage, AllReady, Apply, Closed, RelayTree;
    if v :| v in tree && v !in d {
      hide *;
      var first, d' := NextReception(g, n0, s, m, net, d, tree, v, env);
      OneStep(g, net, first);
      var rest := Realise(g, n0, s, m, Exec(g, net, [first]), d', tree, env);
      ExecJoins(g, net, [first], rest);
      steps := [first] + rest;
      ReceptionsCons(first, rest);
    } else {
      steps := [];
      assert d == tree;
    }
  }

  lemma ReceptionsCons(step: Step, rest: seq<Step>)
    requires step.Deliver? && Receptions(rest)
    ensures Receptions([step] + rest)
  {
  }

  lemma WithoutShrinks(air: seq<Copy>, k: nat)
    requires k < |air|
    ensures |Without(air, k)| == |air| - 1
  {
  }

  lemma OneStep(g: Graph, net: Net, step: Step)
    ensures Exec(g, net, [step]) == Apply(g, net, step)
  {
    hide Apply;
    assert [step][..0] == [];
  }

  /** Once the tree is complete all that remains is to receive copies nobody needs. */
  lemma {:induction false} Flush(g: Graph, n0: map<NodeId, State>, s: NodeId, m: Frame, net: Net,
                                 tree: map<NodeId, nat>, env: Env) returns (steps: seq<Step>)
    requires Closed(g) && IsMessage(m, s) && AllReady(g, n0, s, m) && Spreading(g, n0, s, m, net, tree)
    requires RelayTree(g, s, tree)
    ensures Receptions(steps) && Exec(g, net, steps).air == [] && Spreading(g, n0, s, m, Exec(g, net, steps), tree)
    decreases |net.air|
  {
    if net.air == [] {
      hide Spreading;
      steps := [];
    } else {
      assert net.air[0].to in tree by {
        hide Parse, Tables, Owed, Logged;
        var u := Sender(g, tree, m, net.air, 0);
      }
      hide *;
      KnownCase(g, n0, s, m, net, tree, 0, env);
      var first := [Deliver(0, env)];
      OneStep(g, net, first[0]);
      assert |Without(net.air, 0)| < |net.air| by { WithoutShrinks(net.air, 0); }
      var rest := Flush(g, n0, s, m, Exec(g, net, first), tree, env);
      ExecJoins(g, net, first, rest);
      steps := first + rest;
      ReceptionsCons(first[0], rest);
    }
  }

  /** Every relay tree is reached, by a run of receptions alone. */
  lemma TreesAreRuns(g: Graph, net0: Net, step: Step, tree: map<NodeId, nat>) returns (steps: seq<Step>)
    requires Closed(g) && Sends(step) && Clear(g, net0, step) && RelayTree(g, step.from, tree)
    ensures Receptions(steps) && Complete(g, net0, step, steps)
    ensures Accepters(Exec(g, Started(g, net0, step), steps)) == tree.Keys - {step.from}
  {
    assert Within(map[step.from := 0], tree);
    hide *;
    StartSpreads(g, net0, step);
    var s, m, start := step.from, MessageOf(step), Started(g, net0, step);
    var grow := Realise(g, net0.nodes, s, m, start, map[s := 0], tree, step.env);
    var net := Exec(g, start, grow);
    var flush := Flush(g, net0.nodes, s, m, net, tree, step.env);
    steps := grow + flush;
    ExecJoins(g, start, grow, flush);
    var last := Exec(g, start, steps);
    SpreadingParts(g, net0.nodes, s, m, last, tree);
    AcceptersAreLabelled(last.log, s, m, tree, last);
    IsComplete(g, net0, step, grow, flush);
  }

  lemma IsComplete(g: Graph, net0: Net, step: Step, a: seq<Step>, b: seq<Step>)
    requires Receptions(a) && Receptions(b) && Exec(g, Started(g, net0, step), a + b).air == []
    ensures Receptions(a + b) && Complete(g, net0, step, a + b)
  {
    hide Exec, Started;
  }

  /** Exactly which sets of nodes a message can end up with when nothing is lost. */
  lemma OutcomesIff(g: Graph, net0: Net, step: Step, r: set<NodeId>)
    requires Closed(g) && Sends(step) && Clear(g, net0, step)
    ensures (exists steps :: Complete(g, net0, step, steps) && Accepters(Exec(g, Started(g, net0, step), steps)) == r)
            <==> exists d :: RelayTree(g, step.from, d) && d.Keys - {step.from} == r
  {
    hide RelayTree, Accepters, Started, Exec, Complete, Clear;
    if steps :| Complete(g, net0, step, steps) && Accepters(Exec(g, Started(g, net0, step), steps)) == r {
      var d := RunsAreTrees(g, net0, step, steps);
    }
    if d :| RelayTree(g, step.from, d) && d.Keys - {step.from} == r {
      var steps := TreesAreRuns(g, net0, step, d);
    }
  }

  /** Every node within eight hops accepts, however late the copies are. */
  ghost predicate SurelyCovered(g: Graph, net0: Net, step: Step)
    requires Sends(step)
  {
    forall steps :: Complete(g, net0, step, steps) ==>
      Ball(g, step.from, 8) - {step.from} <= Accepters(Exec(g, Started(g, net0, step), steps))
  }

  lemma CoveredTree(g: Graph, net0: Net, step: Step, d: map<NodeId, nat>)
    requires Closed(g) && Sends(step) && Clear(g, net0, step) && SurelyCovered(g, net0, step)
    requires RelayTree(g, step.from, d)
    ensures Ball(g, step.from, 8) <= d.Keys
  {
    hide RelayTree, Accepters, Started, Exec, Complete, Clear, Ball, Closed;
    TreeHasSource(g, step.from, d);
    var steps := TreesAreRuns(g, net0, step, d);
    forall v | v in Ball(g, step.from, 8) ensures v in d.Keys {
      assert v in Ball(g, step.from, 8) - {step.from} || v == step.from;
    }
  }

  lemma CoveredRun(g: Graph, net0: Net, step: Step, steps: seq<Step>)
    requires Closed(g) && Sends(step) && Clear(g, net0, step) && Complete(g, net0, step, steps)
    requires forall d :: RelayTree(g, step.from, d) ==> Ball(g, step.from, 8) <= d.Keys
    ensures Ball(g, step.from, 8) - {step.from} <= Accepters(Exec(g, Started(g, net0, step), steps))
  {
    hide RelayTree, Accepters, Started, Exec, Complete, Clear, Ball, Closed;
    var d := RunsAreTrees(g, net0, step, steps);
  }

  /**
   * Main result: in a loss-free run that goes on until the air is silent every node within eight
   * hops is sure to accept, if and only if no relay tree of the graph misses one of them.
   */
  lemma CoverageIff(g: Graph, net0: Net, step: Step)
    requires Closed(g) && Sends(step) && Clear(g, net0, step)
    ensures SurelyCovered(g, net0, step) <==>
            forall d :: RelayTree(g, step.from, d) ==> Ball(g, step.from, 8) <= d.Keys
  {
    hide RelayTree, Accepters, Started, Exec, Complete, Clear, Ball, Closed;
    if SurelyCovered(g, net0, step) {
      forall d | RelayTree(g, step.from, d) ensures Ball(g, step.from, 8) <= d.Keys {
        CoveredTree(g, net0, step, d);
      }
    }
    if forall d :: RelayTree(g, step.from, d) ==> Ball(g, step.from, 8) <= d.Keys {
      forall steps | Complete(g, net0, step, steps)
        ensures Ball(g, step.from, 8) - {step.from} <= Accepters(Exec(g, Started(g, net0, step), steps))
      {
        CoveredRun(g, net0, step, steps);
      }
    }
  }

  lemma TreeHasSource(g: Graph, s: NodeId, d: map<NodeId, nat>)
    requires RelayTree(g, s, d)
    ensures s in d
  {
  }
}
