/**
 * What a fixed-window counter guarantees about sliding windows: over any arrival trace with at
 * most 32 senders, no closed 60 s interval ever admits more than 39 packets of one sender.
 * The bound is reached, and any 33 senders can break it by evicting a counter.
 */
module SlidingWindow {
  import opened Bytes
  import opened Packet
  import opened SlotTable
  import opened RateLimiter

  ghost function Senders(trace: seq<Arrival>): set<NodeId> {
    set a | a in trace :: a.sender
  }

  /** The table after the whole trace, from power-up. */
  function Run(trace: seq<Arrival>): Table {
    if trace == [] then []
    else
      var n := |trace| - 1;
      Arrive(Run(trace[..n]), trace[n].sender, trace[n].time)
  }

  predicate Admits(trace: seq<Arrival>, k: nat)
    requires k < |trace|
  {
    !Limited(Run(trace[..k]), trace[k].sender, trace[k].time)
  }

  /** Packets of `s` admitted at times lo..hi. */
  function Admitted(trace: seq<Arrival>, s: NodeId, lo: int, hi: int): nat {
    if trace == [] then 0
    else
      var n := |trace| - 1;
      Admitted(trace[..n], s, lo, hi) +
      if trace[n].sender == s && lo <= trace[n].time <= hi && Admits(trace, n) then 1 else 0
  }

  /** The counter `s` would have if nobody else existed. */
  function Counter(trace: seq<Arrival>, s: NodeId): Option<Window> {
    if trace == [] then None
    else
      var n := |trace| - 1;
      var w := Counter(trace[..n], s);
      if trace[n].sender != s then w
      else if w.None? then Some(Row(s, trace[n].time, 1))
      else Some(Hit(w.value, trace[n].time))
  }

  lemma SendersStep(trace: seq<Arrival>)
    requires trace != []
    ensures var n := |trace| - 1; Senders(trace) == Senders(trace[..n]) + {trace[n].sender}
  {
  }

  /** With at most 32 senders the shared table gives each of them a private counter. */
  lemma {:induction false} PrivateCounters(trace: seq<Arrival>)
    requires |Senders(trace)| <= TABLE_SIZE
    ensures Sane(Run(trace)) && Ids(Run(trace)) == Senders(trace)
    ensures forall s :: Lookup(Run(trace), s) == Counter(trace, s)
  {
    if trace != [] {
      var n := |trace| - 1;
      var init, a := trace[..n], trace[n];
      SendersStep(trace);
      PrivateCountersFit(Senders(init), a.sender);
      PrivateCounters(init);
      IdsCount(Run(init));
      forall s ensures Lookup(Run(trace), s) == Counter(trace, s) {
        ArriveLookup(Run(init), a.sender, a.time, s);
      }
      ArriveKeepsSane(Run(init), a.sender, a.time);
      ArriveLookup(Run(init), a.sender, a.time, a.sender);
    }
  }

  lemma PrivateCountersFit(ids: set<NodeId>, id: NodeId)
    requires |ids + {id}| <= TABLE_SIZE
    ensures id in ids || |ids| < TABLE_SIZE
    ensures |ids| <= TABLE_SIZE
  {
    if id in ids { assert ids + {id} == ids; }
  }

  function Min(a: int, b: int): int { if a < b then a else b }

  /** The admission test as the private counter decides it. */
  predicate Accepts(w: Option<Window>, now: int) {
    w.None? || Hit(w.value, now).info <= MAX_PER_WINDOW
  }

  /** Counting admissions needs only the private counter. */
  lemma AdmittedByCounter(trace: seq<Arrival>, s: NodeId, lo: int, hi: int)
    requires trace != [] && |Senders(trace)| <= TABLE_SIZE
    ensures var n := |trace| - 1;
            && |Senders(trace[..n])| <= TABLE_SIZE
            && Admitted(trace, s, lo, hi) == Admitted(trace[..n], s, lo, hi) +
                 if trace[n].sender == s && lo <= trace[n].time <= hi &&
                    Accepts(Counter(trace[..n], s), trace[n].time) then 1 else 0
  {
    var n := |trace| - 1;
    SendersStep(trace);
    PrivateCountersFit(Senders(trace[..n]), trace[n].sender);
    PrivateCounters(trace[..n]);
  }

  /** Every packet of `s` falls inside the current window or before it. */
  lemma {:induction false} WithinWindow(trace: seq<Arrival>, s: NodeId)
    requires Ordered(trace)
    ensures Counter(trace, s).None? ==> forall a :: a in trace ==> a.sender != s
    ensures Counter(trace, s).Some? ==>
              && Counter(trace, s).value.info >= 1
              && forall a :: a in trace && a.sender == s ==> a.time <= Counter(trace, s).value.stamp + WINDOW_US
  {
    if trace != [] {
      var n := |trace| - 1;
      WithinWindow(trace[..n], s);
      assert trace == trace[..n] + [trace[n]];
      assert forall a :: a in trace[..n] ==> a.time <= trace[n].time;
    }
  }

  lemma {:induction false} NoneBefore(trace: seq<Arrival>, s: NodeId, lo: int, hi: int)
    requires forall a :: a in trace && a.sender == s ==> a.time < lo
    ensures Admitted(trace, s, lo, hi) == 0
  {
    if trace != [] {
      var n := |trace| - 1;
      assert trace[n] in trace;
      NoneBefore(trace[..n], s, lo, hi);
    }
  }

  lemma WindowStep(w: Window, now: int)
    requires now - w.stamp <= WINDOW_US
    ensures Hit(w, now).stamp == w.stamp
    ensures Min(w.info, MAX_PER_WINDOW) + (if Accepts(Some(w), now) then 1 else 0)
            == Min(Hit(w, now).info, MAX_PER_WINDOW)
  {
  }

  /** The fixed window itself: exactly its first 20 packets are admitted. */
  lemma {:induction false} WindowAdmitsTwenty(trace: seq<Arrival>, s: NodeId)
    requires Ordered(trace) && |Senders(trace)| <= TABLE_SIZE
    requires Counter(trace, s).Some?
    ensures var w := Counter(trace, s).value;
            Admitted(trace, s, w.stamp, w.stamp + WINDOW_US) == Min(w.info, MAX_PER_WINDOW)
  {
    hide Run, Admitted;
    var n := |trace| - 1;
    var init, a := trace[..n], trace[n];
    var w, before := Counter(trace, s).value, Counter(init, s);
    AdmittedByCounter(trace, s, w.stamp, w.stamp + WINDOW_US);
    WithinWindow(init, s);
    if a.sender != s {
      WindowAdmitsTwenty(init, s);
    } else if before.Some? && a.time - before.value.stamp <= WINDOW_US {
      WindowAdmitsTwenty(init, s);
      StartInTrace(init, s);
      assert forall b :: b in init ==> b.time <= a.time;
      WindowStep(before.value, a.time);
      hide Hit, Accepts;
    } else {
      NoneBefore(init, s, w.stamp, w.stamp + WINDOW_US);
      assert Accepts(before, a.time);
    }
  }

  /** A window starts at one of its sender's own packets. */
  lemma {:induction false} StartInTrace(trace: seq<Arrival>, s: NodeId)
    requires Counter(trace, s).Some?
    ensures Arrival(s, Counter(trace, s).value.stamp) in trace
  {
    var n := |trace| - 1;
    var w := Counter(trace[..n], s);
    assert trace == trace[..n] + [trace[n]];
    if w.Some? { StartInTrace(trace[..n], s); }
  }

  /** Successive windows of one sender start more than 60 s apart. */
  lemma WindowsAreSpaced(trace: seq<Arrival>, s: NodeId)
    requires trace != [] && Counter(trace, s).Some?
    ensures var before := Counter(trace[..|trace| - 1], s);
            var w := Counter(trace, s).value;
            before.Some? ==> w.stamp == before.value.stamp || w.stamp > before.value.stamp + WINDOW_US
  {
  }

  /** How many packets of `s` may have been admitted in lo..hi, judged by its current window. */
  function Allowance(w: Option<Window>, lo: int, hi: int): int {
    match w
    case None => 0
    case Some(r) =>
      if r.stamp < lo then Min(r.info, MAX_PER_WINDOW) - 1
      else if r.stamp <= hi then MAX_PER_WINDOW - 1 + Min(r.info, MAX_PER_WINDOW)
      else 2 * MAX_PER_WINDOW - 1
  }

  /** One more packet of `s` at time `now` keeps the count within the allowance. */
  lemma AllowanceStep(before: Option<Window>, s: NodeId, now: int, lo: int, hi: int, count: nat)
    requires hi - lo <= WINDOW_US
    requires count <= Allowance(before, lo, hi)
    requires before.Some? ==> before.value.info >= 1 && before.value.stamp <= now
    requires now < lo ==> count == 0
    ensures var after := if before.None? then Row(s, now, 1) else Hit(before.value, now);
            count + (if lo <= now <= hi && Accepts(before, now) then 1 else 0) <= Allowance(Some(after), lo, hi)
  {
  }

  lemma {:induction false} AllowanceHolds(trace: seq<Arrival>, s: NodeId, lo: int, hi: int)
    requires Ordered(trace) && |Senders(trace)| <= TABLE_SIZE
    requires hi - lo <= WINDOW_US
    ensures Admitted(trace, s, lo, hi) <= Allowance(Counter(trace, s), lo, hi)
  {
    if trace != [] {
      hide Run, Admitted, Allowance, Accepts, Hit;
      var init, a := trace[..|trace| - 1], trace[|trace| - 1];
      AdmittedByCounter(trace, s, lo, hi);
      AllowanceHolds(init, s, lo, hi);
      if a.sender == s {
        assert forall b :: b in init ==> b.time <= a.time;
        WithinWindow(init, s);
        if Counter(init, s).Some? { StartInTrace(init, s); }
        if a.time < lo { NoneBefore(init, s, lo, hi); }
        AllowanceStep(Counter(init, s), s, a.time, lo, hi, Admitted(init, s, lo, hi));
      }
    }
  }

  /** At most 39 packets of one sender in any closed 60 s interval. */
  lemma SlidingBound(trace: seq<Arrival>, s: NodeId, lo: int)
    requires Ordered(trace) && |Senders(trace)| <= TABLE_SIZE
    ensures Admitted(trace, s, lo, lo + WINDOW_US) <= 39
  {
    AllowanceHolds(trace, s, lo, lo + WINDOW_US);
    WithinWindow(trace, s);
  }

  // ----- who can be forgotten, on any trace with any number of senders -----

  lemma ArriveStamps(t: Table, id: NodeId, now: int)
    requires forall r :: r in t ==> r.stamp <= now
    ensures forall r :: r in Arrive(t, id, now) ==> r.stamp <= now
  {
  }

  lemma {:induction false} WindowsStartInThePast(trace: seq<Arrival>)
    requires Ordered(trace)
    ensures Sane(Run(trace))
    ensures forall r :: r in Run(trace) ==> trace != [] && r.stamp <= trace[|trace| - 1].time
  {
    if trace != [] {
      var n := |trace| - 1;
      WindowsStartInThePast(trace[..n]);
      assert n > 0 ==> trace[n - 1].time <= trace[n].time;
      ArriveKeepsSane(Run(trace[..n]), trace[n].sender, trace[n].time);
      ArriveStamps(Run(trace[..n]), trace[n].sender, trace[n].time);
    }
  }

  /**
   * In every run a sender tracked so far loses its counter only when 32 other distinct senders hold
   * windows that started no earlier than its own.
   */
  lemma CounterSurvivesThirtyOneOthers(trace: seq<Arrival>, a: Arrival, s: NodeId)
    requires Ordered(trace + [a])
    requires s in Ids(Run(trace)) && s !in Ids(Run(trace + [a]))
    ensures Lookup(Run(trace), s).Some?
    ensures |Younger(Run(trace + [a]), s, Lookup(Run(trace), s).value.stamp)| == TABLE_SIZE
  {
    var all := trace + [a];
    assert all[..|trace|] == trace && all[|trace|] == a;
    assert forall i :: 0 <= i < |trace| ==> trace[i] == all[i];
    assert trace != [] ==> all[|trace| - 1].time <= a.time;
    WindowsStartInThePast(trace);
    RunStep(trace, a, s, 0, 0);
    hide Run, Admitted;
    EvictionNeedsThirtyTwoYounger(Run(trace), a.sender, a.time, s);
  }

  // ----- the bound is reached, and 33 senders break it -----

  function Burst(s: NodeId, time: int, n: nat): (b: seq<Arrival>)
    ensures |b| == n
    ensures forall i :: 0 <= i < n ==> b[i] == Arrival(s, time)
  {
    if n == 0 then [] else Burst(s, time, n - 1) + [Arrival(s, time)]
  }

  ghost predicate Untracked(t: seq<Window>, id: NodeId) {
    forall j :: 0 <= j < |t| ==> t[j].id != id
  }

  lemma RunStep(trace: seq<Arrival>, a: Arrival, s: NodeId, lo: int, hi: int)
    ensures Run(trace + [a]) == Arrive(Run(trace), a.sender, a.time)
    ensures Admitted(trace + [a], s, lo, hi) == Admitted(trace, s, lo, hi) +
              if a.sender == s && lo <= a.time <= hi && !Limited(Run(trace), a.sender, a.time) then 1 else 0
  {
  }

  /** The first packet of all. */
  lemma FirstStep(s: NodeId, time: int, lo: int, hi: int)
    ensures Run(Burst(s, time, 1)) == [Row(s, time, 1)]
    ensures Admitted(Burst(s, time, 1), s, lo, hi) == if lo <= time <= hi then 1 else 0
  {
  }

  lemma HitStep(trace: seq<Arrival>, t: Table, i: nat, w: Window, time: int, lo: int, hi: int)
    requires Run(trace) == t && i < |t| && t[i] == w && Untracked(t[..i], w.id)
    requires w.info < MAX_PER_WINDOW || time - w.stamp > WINDOW_US
    ensures var after := trace + [Arrival(w.id, time)];
            && Run(after) == t[i := Hit(w, time)]
            && Admitted(after, w.id, lo, hi) == Admitted(trace, w.id, lo, hi) + if lo <= time <= hi then 1 else 0
  {
    RunStep(trace, Arrival(w.id, time), w.id, lo, hi);
    assert Find(t, w.id) == i by {
      assert forall j :: 0 <= j < i ==> t[j] == t[..i][j];
    }
  }

  lemma NewcomerStep(trace: seq<Arrival>, t: Table, a: Arrival, s: NodeId, lo: int, hi: int)
    requires Run(trace) == t && Untracked(t, a.sender)
    ensures Run(trace + [a]) == Enter(t, Row(a.sender, a.time, 1))
    ensures Admitted(trace + [a], s, lo, hi) == Admitted(trace, s, lo, hi) +
              if a.sender == s && lo <= a.time <= hi then 1 else 0
  {
  }

  /** A burst inside the current window, up to its 20th packet. */
  lemma {:induction false} RunBurst(trace: seq<Arrival>, t: Table, i: nat, w: Window, time: int, n: nat,
                                    lo: int, hi: int)
    requires Run(trace) == t && i < |t| && t[i] == w && Untracked(t[..i], w.id)
    requires time - w.stamp <= WINDOW_US
    requires w.info + n <= MAX_PER_WINDOW
    ensures var after := trace + Burst(w.id, time, n);
            && Run(after) == t[i := w.(info := w.info + n)]
            && Admitted(after, w.id, lo, hi) == Admitted(trace, w.id, lo, hi) + if lo <= time <= hi then n else 0
  {
    hide Run, Admitted;
    var after := trace + Burst(w.id, time, n);
    if n == 0 {
      assert after == trace;
    } else {
      var shorter := trace + Burst(w.id, time, n - 1);
      var w' := w.(info := w.info + n - 1);
      RunBurst(trace, t, i, w, time, n - 1, lo, hi);
      assert after == shorter + [Arrival(w.id, time)];
      assert t[i := w'][..i] == t[..i];
      HitStep(shorter, t[i := w'], i, w', time, lo, hi);
    }
  }

  function BurstAcrossTheEdge(s: NodeId): seq<Arrival> {
    Burst(s, 0, 1) + Burst(s, WINDOW_US, 19) + Burst(s, WINDOW_US + 1, 1) + Burst(s, WINDOW_US + 1, 19)
  }

  /** 39 is attained: one early packet, 19 at the end of its window, 20 right after it. */
  lemma SlidingBoundIsTight(s: NodeId)
    ensures Ordered(BurstAcrossTheEdge(s)) && Senders(BurstAcrossTheEdge(s)) == {s}
    ensures Admitted(BurstAcrossTheEdge(s), s, 1, 1 + WINDOW_US) == 39
  {
    hide Run, Admitted;
    var lo, hi := 1, 1 + WINDOW_US;
    var trace := BurstAcrossTheEdge(s);
    var t1 := Burst(s, 0, 1);
    FirstStep(s, 0, lo, hi);
    var t2 := t1 + Burst(s, WINDOW_US, 19);
    RunBurst(t1, [Row(s, 0, 1)], 0, Row(s, 0, 1), WINDOW_US, 19, lo, hi);
    var t3 := t2 + Burst(s, WINDOW_US + 1, 1);
    assert t3 == t2 + [Arrival(s, WINDOW_US + 1)];
    HitStep(t2, [Row(s, 0, 20)], 0, Row(s, 0, 20), WINDOW_US + 1, lo, hi);
    RunBurst(t3, [Row(s, WINDOW_US + 1, 1)], 0, Row(s, WINDOW_US + 1, 1), WINDOW_US + 1, 19, lo, hi);
    assert trace[0] in trace;
  }

  function Others(ids: seq<NodeId>, m: nat): (o: seq<Arrival>)
    requires m < |ids|
    ensures |o| == m
  {
    seq(m, k requires 0 <= k < m => Arrival(ids[k + 1], 0))
  }

  /** The first id has used up its window, `m` others have sent one packet each. */
  function Crowd(ids: seq<NodeId>, m: nat): (t: seq<Window>)
    requires m < |ids|
    ensures |t| == m + 1
  {
    [Row(ids[0], 0, MAX_PER_WINDOW)] + seq(m, k requires 0 <= k < m => Row(ids[k + 1], 0, 1))
  }

  lemma NextIsNew(ids: seq<NodeId>, m: nat)
    requires Distinct(ids) && m + 1 < |ids|
    ensures Untracked(Crowd(ids, m), ids[m + 1]) && ids[0] != ids[m + 1]
  {
  }

  lemma {:induction false} CrowdArrives(ids: seq<NodeId>, m: nat)
    requires Distinct(ids) && m < TABLE_SIZE && m < |ids|
    ensures Run(Burst(ids[0], 0, 20) + Others(ids, m)) == Crowd(ids, m)
    ensures Admitted(Burst(ids[0], 0, 20) + Others(ids, m), ids[0], 0, WINDOW_US) == 20
  {
    hide Run, Admitted;
    var s := ids[0];
    var full := Burst(s, 0, 20);
    if m == 0 {
      FirstStep(s, 0, 0, WINDOW_US);
      RunBurst(Burst(s, 0, 1), [Row(s, 0, 1)], 0, Row(s, 0, 1), 0, 19, 0, WINDOW_US);
      assert full == Burst(s, 0, 1) + Burst(s, 0, 19);
      assert full + Others(ids, 0) == full;
    } else {
      CrowdArrives(ids, m - 1);
      assert full + Others(ids, m) == (full + Others(ids, m - 1)) + [Arrival(ids[m], 0)];
      NextIsNew(ids, m - 1);
      NewcomerStep(full + Others(ids, m - 1), Crowd(ids, m - 1), Arrival(ids[m], 0), s, 0, WINDOW_US);
      assert Crowd(ids, m) == Crowd(ids, m - 1) + [Row(ids[m], 0, 1)];
    }
  }

  /** The 32 other senders arrive between two full bursts of the first. */
  function EvictingTrace(ids: seq<NodeId>): seq<Arrival>
    requires |ids| == 33
  {
    Burst(ids[0], 0, 20) + Others(ids, 32) + Burst(ids[0], 0, 1) + Burst(ids[0], 0, 19)
  }

  /** The 33rd sender takes the first one's slot. */
  lemma VictimEvicted(ids: seq<NodeId>)
    requires |ids| == 33 && Distinct(ids)
    ensures Run(Burst(ids[0], 0, 20) + Others(ids, 32)) == Crowd(ids, 31)[0 := Row(ids[32], 0, 1)]
    ensures Admitted(Burst(ids[0], 0, 20) + Others(ids, 32), ids[0], 0, WINDOW_US) == 20
  {
    hide Run, Admitted;
    var last := Arrival(ids[32], 0);
    CrowdArrives(ids, 31);
    var before := Burst(ids[0], 0, 20) + Others(ids, 31);
    assert Burst(ids[0], 0, 20) + Others(ids, 32) == before + [last];
    NextIsNew(ids, 31);
    NewcomerStep(before, Crowd(ids, 31), last, ids[0], 0, WINDOW_US);
    FirstSlotGoes(Crowd(ids, 31), Row(ids[32], 0, 1));
  }

  /** Any 33 senders can break the bound: the evicted one gets 40 packets through at one instant. */
  lemma ThirtyThreeSendersBreakTheBound(ids: seq<NodeId>)
    requires |ids| == 33 && Distinct(ids)
    ensures Ordered(EvictingTrace(ids)) && Senders(EvictingTrace(ids)) == Elements(ids)
    ensures Admitted(EvictingTrace(ids), ids[0], 0, WINDOW_US) == 40
  {
    EvictingSenders(ids);
    hide Run, Admitted, Ordered, Senders, Distinct;
    var s := ids[0];
    var t1 := Burst(s, 0, 20) + Others(ids, 32);
    var evicted := Crowd(ids, 31)[0 := Row(ids[32], 0, 1)];
    var t2 := t1 + Burst(s, 0, 1);
    assert t2 == t1 + [Arrival(s, 0)];
    VictimEvicted(ids);
    EvictedCrowd(ids);
    NewcomerStep(t1, evicted, Arrival(s, 0), s, 0, WINDOW_US);
    FirstSlotGoes(evicted, Row(s, 0, 1));
    RunBurst(t2, evicted[0 := Row(s, 0, 1)], 0, Row(s, 0, 1), 0, 19, 0, WINDOW_US);
  }

  lemma EvictedCrowd(ids: seq<NodeId>)
    requires |ids| == 33 && Distinct(ids)
    ensures Untracked(Crowd(ids, 31)[0 := Row(ids[32], 0, 1)], ids[0])
  {
  }

  lemma FirstSlotGoes(t: Table, row: Window)
    requires |t| == TABLE_SIZE
    requires forall j :: 0 <= j < |t| ==> t[j].stamp == 0
    ensures Enter(t, row) == t[0 := row]
  {
    var o := Oldest(t);
    assert t[0].stamp == t[o].stamp;
  }

  lemma EvictingArrival(ids: seq<NodeId>, k: nat)
    requires |ids| == 33 && k < 72
    ensures |EvictingTrace(ids)| == 72
    ensures EvictingTrace(ids)[k] == Arrival(ids[if 20 <= k < 52 then k - 19 else 0], 0)
  {
  }

  lemma EvictingSenders(ids: seq<NodeId>)
    requires |ids| == 33
    ensures Ordered(EvictingTrace(ids)) && Senders(EvictingTrace(ids)) == Elements(ids)
  {
    var trace := EvictingTrace(ids);
    forall k | 0 <= k < 72
      ensures |trace| == 72 && trace[k] == Arrival(ids[if 20 <= k < 52 then k - 19 else 0], 0)
    {
      EvictingArrival(ids, k);
    }
    hide EvictingTrace;
    forall x | x in Elements(ids) ensures x in Senders(trace) {
      var k :| 0 <= k < 33 && ids[k] == x;
      assert trace[if k == 0 then 0 else 19 + k] in trace;
    }
    forall x | x in Senders(trace) ensures x in Elements(ids) {
      var k :| 0 <= k < |trace| && trace[k].sender == x;
      assert x == ids[if 20 <= k < 52 then k - 19 else 0];
    }
  }

  /**
   * Main result: among senders drawn from `all`, no closed 60 s interval ever admits more than 39
   * packets of one of them, if and only if they are at most 32.
   */
  lemma SlidingBoundIff(all: set<NodeId>)
    ensures (forall trace, s, lo, hi :: Ordered(trace) && Senders(trace) <= all && hi == lo + WINDOW_US ==>
               Admitted(trace, s, lo, hi) <= 39)
            <==> |all| <= TABLE_SIZE
  {
    hide Admitted, Ordered, Senders;
    if |all| <= TABLE_SIZE {
      forall trace, s, lo, hi | Ordered(trace) && Senders(trace) <= all && hi == lo + WINDOW_US
        ensures Admitted(trace, s, lo, hi) <= 39
      {
        SubsetCount(Senders(trace), all);
        SlidingBound(trace, s, lo);
      }
    } else {
      var ids := PickDistinct(all, 33);
      ThirtyThreeSendersBreakTheBound(ids);
      hide EvictingTrace, Elements;
      assert Admitted(EvictingTrace(ids), ids[0], 0, 0 + WINDOW_US) > 39;
    }
  }
}
