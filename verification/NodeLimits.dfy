/**
 * What the limiter buys a node as a whole: fed any frames at all of at most 32 other originators, and
 * of no more, it never lets more than 39 frames of one of them past its first filters in a closed
 * 60 s interval, so it relays and delivers at most that many. Its presence log records exactly the
 * frames that got through.
 */
module NodeLimits {
  import opened Bytes
  import opened Packet
  import opened MeshNode
  import Dedup
  import SlidingWindow
  import RateLimiter
  import SlotTable

  datatype Input = Input(buf: seq<byte>, env: Env)

  function PowerUp(id: NodeId): State {
    State(id, [], [], [])
  }

  function Feed(id: NodeId, inputs: seq<Input>): State {
    if inputs == [] then PowerUp(id)
    else
      var n := |inputs| - 1;
      Receive(Feed(id, inputs[..n]), inputs[n].buf, inputs[n].env)
  }

  /** The frames the limiter gets to see: well-formed and not the node's own. */
  predicate Counts(id: NodeId, i: Input) {
    Parse(i.buf).Some? && Parse(i.buf).value.header.src != id
  }

  function Originator(i: Input): NodeId
    requires Parse(i.buf).Some?
  {
    Parse(i.buf).value.header.src
  }

  function Arrivals(id: NodeId, inputs: seq<Input>): seq<SlotTable.Arrival> {
    if inputs == [] then []
    else
      var n := |inputs| - 1;
      var i := inputs[n];
      Arrivals(id, inputs[..n]) + if Counts(id, i) then [SlotTable.Arrival(Originator(i), i.env.now)] else []
  }

  /** Input `k` got past the length check, the echo check and the limiter. */
  predicate GotThrough(id: NodeId, inputs: seq<Input>, k: nat)
    requires k < |inputs|
  {
    var fate := FateOf(Feed(id, inputs[..k]), inputs[k].buf, inputs[k].env.now);
    !(fate.Malformed? || fate.OwnEcho? || fate.RateLimited?)
  }

  /** How many frames of `s` got through at times lo..hi. */
  function Through(id: NodeId, inputs: seq<Input>, s: NodeId, lo: int, hi: int): nat {
    if inputs == [] then 0
    else
      var n := |inputs| - 1;
      Through(id, inputs[..n], s, lo, hi) +
      if GotThrough(id, inputs, n) && Originator(inputs[n]) == s && lo <= inputs[n].env.now <= hi then 1 else 0
  }

  function Log(id: NodeId, inputs: seq<Input>): seq<SlotTable.Arrival> {
    if inputs == [] then []
    else
      var n := |inputs| - 1;
      Log(id, inputs[..n]) +
      if GotThrough(id, inputs, n) then [SlotTable.Arrival(Originator(inputs[n]), inputs[n].env.touchTime)] else []
  }

  lemma ReceiveTables(s: State, i: Input)
    ensures var s' := Receive(s, i.buf, i.env);
            && s'.id == s.id
            && s'.rate == (if Counts(s.id, i) then RateLimiter.Arrive(s.rate, Originator(i), i.env.now) else s.rate)
            && s'.heard == s.heard +
                 (if Counts(s.id, i) && !RateLimiter.Limited(s.rate, Originator(i), i.env.now)
                  then [SlotTable.Arrival(Originator(i), i.env.touchTime)] else [])
  {
    hide Parse, RateLimiter.Arrive, RateLimiter.Limited, Dedup.Seen;
    if !Counts(s.id, i) || RateLimiter.Limited(s.rate, Originator(i), i.env.now) {
      assert s.heard + [] == s.heard;
    }
  }

  /** The node's rate table is the limiter run on its arrivals; its presence log, the ones let through. */
  lemma {:induction false} TablesFollowArrivals(id: NodeId, inputs: seq<Input>)
    ensures Feed(id, inputs).id == id
    ensures Feed(id, inputs).rate == SlidingWindow.Run(Arrivals(id, inputs))
    ensures Feed(id, inputs).heard == Log(id, inputs)
  {
    if inputs != [] {
      var n := |inputs| - 1;
      TablesFollowArrivals(id, inputs[..n]);
      ReceiveTables(Feed(id, inputs[..n]), inputs[n]);
      ArrivalsStep(id, inputs);
      ThroughMeans(id, inputs, n);
      hide Receive, Parse, RateLimiter.Arrive, RateLimiter.Limited, GotThrough, Counts, SlidingWindow.Run;
    }
  }

  lemma ArrivalsStep(id: NodeId, inputs: seq<Input>)
    requires inputs != []
    ensures var n := |inputs| - 1;
            var i := inputs[n];
            var before := Arrivals(id, inputs[..n]);
            SlidingWindow.Run(Arrivals(id, inputs)) ==
              if Counts(id, i) then RateLimiter.Arrive(SlidingWindow.Run(before), Originator(i), i.env.now)
              else SlidingWindow.Run(before)
  {
    var n := |inputs| - 1;
    var before := Arrivals(id, inputs[..n]);
    assert before + [] == before;
    hide Parse, Counts, RateLimiter.Arrive;
    if Counts(id, inputs[n]) {
      SlidingWindow.RunStep(before, SlotTable.Arrival(Originator(inputs[n]), inputs[n].env.now), id, 0, 0);
      hide SlidingWindow.Run;
    }
  }

  lemma ThroughMeans(id: NodeId, inputs: seq<Input>, k: nat)
    requires k < |inputs| && Feed(id, inputs[..k]).id == id
    ensures GotThrough(id, inputs, k) <==>
            Counts(id, inputs[k]) &&
            !RateLimiter.Limited(Feed(id, inputs[..k]).rate, Originator(inputs[k]), inputs[k].env.now)
  {
  }

  /** Counting frames that got through is counting admissions on the arrival trace. */
  lemma {:induction false} ThroughIsAdmitted(id: NodeId, inputs: seq<Input>, s: NodeId, lo: int, hi: int)
    ensures Through(id, inputs, s, lo, hi) == SlidingWindow.Admitted(Arrivals(id, inputs), s, lo, hi)
  {
    if inputs != [] {
      var n := |inputs| - 1;
      var before := Arrivals(id, inputs[..n]);
      ThroughIsAdmitted(id, inputs[..n], s, lo, hi);
      TablesFollowArrivals(id, inputs[..n]);
      ThroughMeans(id, inputs, n);
      assert before + [] == before;
      hide Parse, Counts, RateLimiter.Limited, GotThrough, Feed;
      if Counts(id, inputs[n]) {
        SlidingWindow.RunStep(before, SlotTable.Arrival(Originator(inputs[n]), inputs[n].env.now), s, lo, hi);
      }
      hide SlidingWindow.Admitted, SlidingWindow.Run;
    }
  }

  ghost predicate ClockMonotone(inputs: seq<Input>) {
    forall i, j :: 0 <= i < j < |inputs| ==> inputs[i].env.now <= inputs[j].env.now
  }

  lemma {:induction false} ArrivalsOrdered(id: NodeId, inputs: seq<Input>)
    requires ClockMonotone(inputs)
    ensures SlotTable.Ordered(Arrivals(id, inputs))
    ensures forall a :: a in Arrivals(id, inputs) ==> inputs != [] && a.time <= inputs[|inputs| - 1].env.now
  {
    if inputs != [] {
      hide Parse, Counts;
      var n := |inputs| - 1;
      ArrivalsOrdered(id, inputs[..n]);
      assert n > 0 ==> inputs[n - 1].env.now <= inputs[n].env.now;
      assert forall a :: a in Arrivals(id, inputs[..n]) ==> a.time <= inputs[n].env.now;
    }
  }

  /** At most 39 frames of one originator get through in any closed 60 s interval. */
  lemma AtMostThirtyNineThrough(id: NodeId, inputs: seq<Input>, s: NodeId, lo: int)
    requires ClockMonotone(inputs)
    requires |SlidingWindow.Senders(Arrivals(id, inputs))| <= SlotTable.TABLE_SIZE
    ensures Through(id, inputs, s, lo, lo + RateLimiter.WINDOW_US) <= 39
  {
    ArrivalsOrdered(id, inputs);
    ThroughIsAdmitted(id, inputs, s, lo, lo + RateLimiter.WINDOW_US);
    SlidingWindow.SlidingBound(Arrivals(id, inputs), s, lo);
  }

  // ----- the sender condition is exact -----

  /** Every originator named in a well-formed input. */
  ghost function Originators(inputs: seq<Input>): set<NodeId> {
    set i | i in inputs && Parse(i.buf).Some? :: Originator(i)
  }

  lemma {:induction false} SendersAreOriginators(id: NodeId, inputs: seq<Input>)
    ensures SlidingWindow.Senders(Arrivals(id, inputs)) <= Originators(inputs) - {id}
  {
    if inputs != [] {
      var n := |inputs| - 1;
      SendersAreOriginators(id, inputs[..n]);
      assert inputs == inputs[..n] + [inputs[n]];
      hide Parse;
      assert Originators(inputs[..n]) <= Originators(inputs);
      if Counts(id, inputs[n]) {
        var arrivals := Arrivals(id, inputs);
        assert Originator(inputs[n]) in Originators(inputs);
        assert arrivals[..|arrivals| - 1] == Arrivals(id, inputs[..n]);
        SlidingWindow.SendersStep(arrivals);
      } else {
        assert Arrivals(id, inputs[..n]) + [] == Arrivals(id, inputs[..n]);
      }
    }
  }

  /** A beacon heard at the time of the arrival. */
  function BeaconInput(a: SlotTable.Arrival): Input {
    var env := Env(a.time, a.time, 0, Repeat(0, 16), None, None, false);
    Input(BeaconFrame(a.sender, env), env)
  }

  function InputsFor(trace: seq<SlotTable.Arrival>): (inputs: seq<Input>)
    ensures |inputs| == |trace|
    ensures forall k :: 0 <= k < |trace| ==> inputs[k] == BeaconInput(trace[k])
  {
    seq(|trace|, k requires 0 <= k < |trace| => BeaconInput(trace[k]))
  }

  lemma BeaconArrives(a: SlotTable.Arrival)
    ensures Parse(BeaconInput(a).buf).Some? && Originator(BeaconInput(a)) == a.sender
  {
    BeaconDecodes(a.sender, BeaconInput(a).env);
    hide Parse, BeaconFrame;
  }

  /** Every arrival trace without the node itself is the trace of some inputs. */
  lemma {:induction false} ArrivalsOfInputs(id: NodeId, trace: seq<SlotTable.Arrival>)
    requires id !in SlidingWindow.Senders(trace)
    ensures Arrivals(id, InputsFor(trace)) == trace
  {
    if trace != [] {
      var n := |trace| - 1;
      assert trace == trace[..n] + [trace[n]];
      assert InputsFor(trace)[..n] == InputsFor(trace[..n]);
      SlidingWindow.SendersStep(trace);
      ArrivalsOfInputs(id, trace[..n]);
      BeaconArrives(trace[n]);
      hide Parse, BeaconFrame, InputsFor;
    }
  }

  lemma InputsForKeeps(trace: seq<SlotTable.Arrival>)
    requires SlotTable.Ordered(trace)
    ensures ClockMonotone(InputsFor(trace)) && Originators(InputsFor(trace)) <= SlidingWindow.Senders(trace)
  {
    var inputs := InputsFor(trace);
    hide Parse, BeaconFrame, InputsFor;
    forall i | i in inputs && Parse(i.buf).Some? ensures Originator(i) in SlidingWindow.Senders(trace) {
      var k :| 0 <= k < |inputs| && inputs[k] == i;
      BeaconArrives(trace[k]);
      assert trace[k] in trace;
    }
  }

  /**
   * Main result: fed frames whose originators are drawn from `all`, a node never lets more than 39
   * frames of one of them through in a closed 60 s interval, if and only if at most 32 of them are
   * other nodes.
   */
  lemma ThirtyNineThroughIff(id: NodeId, all: set<NodeId>)
    ensures (forall inputs, s, lo, hi ::
               ClockMonotone(inputs) && Originators(inputs) <= all && hi == lo + RateLimiter.WINDOW_US ==>
               Through(id, inputs, s, lo, hi) <= 39)
            <==> |all - {id}| <= SlotTable.TABLE_SIZE
  {
    hide Through, ClockMonotone, Originators, Arrivals, SlidingWindow.Senders;
    if |all - {id}| <= SlotTable.TABLE_SIZE {
      forall inputs, s, lo, hi |
        ClockMonotone(inputs) && Originators(inputs) <= all && hi == lo + RateLimiter.WINDOW_US
        ensures Through(id, inputs, s, lo, hi) <= 39
      {
        SendersAreOriginators(id, inputs);
        SubsetCount(SlidingWindow.Senders(Arrivals(id, inputs)), all - {id});
        AtMostThirtyNineThrough(id, inputs, s, lo);
      }
    } else {
      SlidingWindow.SlidingBoundIff(all - {id});
      var trace, s, lo, hi :| SlotTable.Ordered(trace) && SlidingWindow.Senders(trace) <= all - {id}
        && hi == lo + RateLimiter.WINDOW_US && SlidingWindow.Admitted(trace, s, lo, hi) > 39;
      hide SlidingWindow.Admitted, SlotTable.Ordered, InputsFor;
      ArrivalsOfInputs(id, trace);
      InputsForKeeps(trace);
      ThroughIsAdmitted(id, InputsFor(trace), s, lo, hi);
    }
  }

  /** Whatever a node sends or delivers on reception was caused by a frame that got through. */
  lemma OnlyThroughActs(id: NodeId, inputs: seq<Input>, k: nat)
    requires k < |inputs|
    ensures Reply(Feed(id, inputs[..k]), inputs[k].buf, inputs[k].env) != Silent ==> GotThrough(id, inputs, k)
  {
  }
}
