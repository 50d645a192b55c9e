/**
 * Who was heard recently: a 32-slot last-seen table and the beacon timer
 * (firmware/components/mesh/presence.c), specified by an unbounded log of every packet heard.
 */
module Presence {
  import opened Bytes
  import opened Packet
  import opened SlotTable

  const BEACON_MIN_US := 60 * 1000000
  const BEACON_MAX_US := 120 * 1000000

  type Sighting = Row<()>

  function Touch(t: seq<Sighting>, id: NodeId, now: int): (t': seq<Sighting>)
    requires |t| <= TABLE_SIZE
    ensures |t'| <= TABLE_SIZE
  {
    var i := Find(t, id);
    if i < |t| then t[i := t[i].(stamp := now)] else Enter(t, Row(id, now, ()))
  }

  predicate SeenRecently(t: seq<Sighting>, id: NodeId, now: int, maxAgeMs: u32) {
    var i := Find(t, id);
    i < |t| && now - t[i].stamp <= maxAgeMs * 1000
  }

  function Run(log: seq<Arrival>): (t: seq<Sighting>)
    ensures |t| <= TABLE_SIZE
  {
    if log == [] then []
    else
      var n := |log| - 1;
      Touch(Run(log[..n]), log[n].sender, log[n].time)
  }

  /** The unbounded log's own answer: when was `id` last heard? */
  function LastHeard(log: seq<Arrival>, id: NodeId): Option<int> {
    if log == [] then None
    else
      var n := |log| - 1;
      if log[n].sender == id then Some(log[n].time) else LastHeard(log[..n], id)
  }

  predicate HeardRecently(log: seq<Arrival>, id: NodeId, now: int, maxAgeMs: u32) {
    var last := LastHeard(log, id);
    last.Some? && now - last.value <= maxAgeMs * 1000
  }

  /** Other ids heard at or after time `t`. */
  ghost function HeardSince(log: seq<Arrival>, id: NodeId, t: int): set<NodeId> {
    set e | e in log && e.sender != id && e.time >= t :: e.sender
  }

  /** Other ids heard strictly after time `t`. */
  ghost function HeardAfter(log: seq<Arrival>, id: NodeId, t: int): set<NodeId> {
    set e | e in log && e.sender != id && e.time > t :: e.sender
  }

  /**
   * The table is the log cut down to 32 ids: rows carry the true last-heard time, and an id that
   * was dropped is no fresher than any row of a full table.
   */
  ghost predicate Agrees(t: seq<Sighting>, log: seq<Arrival>) {
    && Sane(t)
    && (forall i :: 0 <= i < |t| ==> LastHeard(log, t[i].id) == Some(t[i].stamp))
    && (forall id {:trigger LastHeard(log, id)} ::
          LastHeard(log, id).Some? && Lookup(t, id).None? ==>
            |t| == TABLE_SIZE && forall i :: 0 <= i < |t| ==> LastHeard(log, id).value <= t[i].stamp)
  }

  lemma {:induction false} LastHeardInLog(log: seq<Arrival>, id: NodeId)
    ensures LastHeard(log, id).Some? ==> Arrival(id, LastHeard(log, id).value) in log
    ensures LastHeard(log, id).None? ==> forall e :: e in log ==> e.sender != id
  {
    if log != [] {
      var n := |log| - 1;
      LastHeardInLog(log[..n], id);
      assert log == log[..n] + [log[n]];
    }
  }

  lemma {:induction false} LastHeardIsLatest(log: seq<Arrival>, e: Arrival)
    requires Ordered(log) && e in log
    ensures LastHeard(log, e.sender).Some? && e.time <= LastHeard(log, e.sender).value
  {
    var n := |log| - 1;
    if log[n].sender != e.sender {
      assert log == log[..n] + [log[n]];
      LastHeardIsLatest(log[..n], e);
    }
  }

  lemma LastHeardStep(log: seq<Arrival>, e: Arrival, id: NodeId)
    ensures LastHeard(log + [e], id) == if e.sender == id then Some(e.time) else LastHeard(log, id)
  {
  }

  lemma LogIsBefore(log: seq<Arrival>, e: Arrival, id: NodeId)
    requires Ordered(log + [e])
    ensures LastHeard(log, id).Some? ==> LastHeard(log, id).value <= e.time
  {
    LastHeardInLog(log, id);
    if LastHeard(log, id).Some? {
      var k :| 0 <= k < |log| && log[k] == Arrival(id, LastHeard(log, id).value);
      assert (log + [e])[k].time <= (log + [e])[|log|].time;
    }
  }

  lemma TouchAgrees(t: seq<Sighting>, log: seq<Arrival>, e: Arrival)
    requires Agrees(t, log) && Ordered(log + [e])
    ensures Agrees(Touch(t, e.sender, e.time), log + [e])
  {
    var log', t' := log + [e], Touch(t, e.sender, e.time);
    var i := Find(t, e.sender);
    LookupIds(t, e.sender);
    forall id ensures LastHeard(log', id) == if e.sender == id then Some(e.time) else LastHeard(log, id) {
      LastHeardStep(log, e, id);
    }
    forall j | 0 <= j < |t| ensures t[j].stamp <= e.time {
      LogIsBefore(log, e, t[j].id);
    }
    if i < |t| {
      UpdateLookup(t, i, t[i].(stamp := e.time), e.sender);
      forall id | LastHeard(log', id).Some? && Lookup(t', id).None?
        ensures |t'| == TABLE_SIZE && forall k :: 0 <= k < |t'| ==> LastHeard(log', id).value <= t'[k].stamp
      {
        UpdateLookup(t, i, t[i].(stamp := e.time), id);
        assert LastHeard(log, id).Some? && Lookup(t, id).None?;
        assert LastHeard(log, id).value <= t[i].stamp;
      }
    } else if |t| < TABLE_SIZE {
      AppendLookup(t, Row(e.sender, e.time, ()), e.sender);
      forall id | LastHeard(log', id).Some? ensures Lookup(t', id).Some? {
        AppendLookup(t, Row(e.sender, e.time, ()), id);
        assert id != e.sender ==> LastHeard(log, id).Some?;
      }
    } else {
      TouchEvicts(t, log, e);
    }
  }

  lemma TouchEvicts(t: seq<Sighting>, log: seq<Arrival>, e: Arrival)
    requires Agrees(t, log) && Ordered(log + [e])
    requires |t| == TABLE_SIZE && e.sender !in Ids(t)
    requires forall j :: 0 <= j < |t| ==> t[j].stamp <= e.time
    ensures Agrees(Enter(t, Row(e.sender, e.time, ())), log + [e])
  {
    var log', row, o := log + [e], Row(e.sender, e.time, ()), Oldest(t);
    var t' := t[o := row];
    ReplaceSane(t, o, row);
    forall i | 0 <= i < |t'| ensures LastHeard(log', t'[i].id) == Some(t'[i].stamp) && t[o].stamp <= t'[i].stamp {
      LastHeardStep(log, e, t'[i].id);
      assert t[i] in t;
    }
    forall id {:trigger LastHeard(log', id)} | LastHeard(log', id).Some? && Lookup(t', id).None?
      ensures LastHeard(log', id).value <= t[o].stamp
    {
      LastHeardStep(log, e, id);
      ReplaceLookup(t, o, row, id);
      LookupAt(t, o);
    }
  }

  lemma {:induction false} RunAgrees(log: seq<Arrival>)
    requires Ordered(log)
    ensures Agrees(Run(log), log)
  {
    if log != [] {
      var n := |log| - 1;
      RunAgrees(log[..n]);
      assert log == log[..n] + [log[n]];
      TouchAgrees(Run(log[..n]), log[..n], log[n]);
    }
  }

  /** The table never claims more than the log does. */
  lemma NeverOverclaims(log: seq<Arrival>, id: NodeId, now: int, maxAgeMs: u32)
    requires Ordered(log)
    ensures SeenRecently(Run(log), id, now, maxAgeMs) ==> HeardRecently(log, id, now, maxAgeMs)
  {
    RunAgrees(log);
  }

  /**
   * And it answers exactly like the log while fewer than 32 other ids were heard at or after
   * this one's last packet, clock ties included.
   */
  lemma ExactUnderThirtyTwoRivals(log: seq<Arrival>, id: NodeId, now: int, maxAgeMs: u32)
    requires Ordered(log)
    requires LastHeard(log, id).Some? ==> |HeardSince(log, id, LastHeard(log, id).value)| < TABLE_SIZE
    ensures SeenRecently(Run(log), id, now, maxAgeMs) <==> HeardRecently(log, id, now, maxAgeMs)
  {
    RunAgrees(log);
    var t := Run(log);
    if LastHeard(log, id).Some? && Lookup(t, id).None? {
      var since := HeardSince(log, id, LastHeard(log, id).value);
      forall i | 0 <= i < |t| ensures t[i].id in since {
        LastHeardInLog(log, t[i].id);
        assert t[i].id != id;
      }
      IdsCount(t);
      SubsetCount(Ids(t), since);
      assert false;
    }
  }

  /** Conversely 32 strictly fresher ids always push it out. */
  lemma ThirtyTwoFresherEvict(log: seq<Arrival>, id: NodeId)
    requires Ordered(log) && LastHeard(log, id).Some?
    requires |HeardAfter(log, id, LastHeard(log, id).value)| >= TABLE_SIZE
    ensures Lookup(Run(log), id).None?
  {
    RunAgrees(log);
    var t := Run(log);
    var last := LastHeard(log, id).value;
    if Lookup(t, id).Some? {
      var fresher := HeardAfter(log, id, last);
      LookupIds(t, id);
      forall x | x in fresher ensures x in Ids(t) - {id} {
        var e :| e in log && e.sender == x && e.time > last;
        LastHeardIsLatest(log, e);
        LookupIds(t, x);
      }
      IdsCount(t);
      SubsetCount(fresher, Ids(t) - {id});
      assert false;
    }
  }

  /** No two packets at one clock reading. */
  ghost predicate StrictlyOrdered(log: seq<Arrival>) {
    forall i, j :: 0 <= i < j < |log| ==> log[i].time < log[j].time
  }

  lemma WithoutTies(log: seq<Arrival>, id: NodeId)
    requires StrictlyOrdered(log) && LastHeard(log, id).Some?
    ensures HeardSince(log, id, LastHeard(log, id).value) == HeardAfter(log, id, LastHeard(log, id).value)
  {
    LastHeardInLog(log, id);
    var last := LastHeard(log, id).value;
    var i :| 0 <= i < |log| && log[i] == Arrival(id, last);
    forall e | e in log && e.sender != id ensures e.time != last {
      var j :| 0 <= j < |log| && log[j] == e;
    }
  }

  /**
   * Without clock ties the limit is exact: the table answers every question about an id like the
   * log, if and only if fewer than 32 other ids were heard since.
   */
  lemma ExactIffUnderThirtyTwoRivals(log: seq<Arrival>, id: NodeId)
    requires StrictlyOrdered(log)
    ensures (forall now, maxAgeMs ::
               SeenRecently(Run(log), id, now, maxAgeMs) <==> HeardRecently(log, id, now, maxAgeMs))
            <==> LastHeard(log, id).None? || |HeardSince(log, id, LastHeard(log, id).value)| < TABLE_SIZE
  {
    if LastHeard(log, id).None? || |HeardSince(log, id, LastHeard(log, id).value)| < TABLE_SIZE {
      forall now, maxAgeMs
        ensures SeenRecently(Run(log), id, now, maxAgeMs) <==> HeardRecently(log, id, now, maxAgeMs)
      {
        ExactUnderThirtyTwoRivals(log, id, now, maxAgeMs);
      }
    } else {
      WithoutTies(log, id);
      ThirtyTwoFresherEvict(log, id);
      var last := LastHeard(log, id).value;
      assert HeardRecently(log, id, last, 0) && !SeenRecently(Run(log), id, last, 0);
    }
  }

  class PresenceTable {
    const cells: array<Cell<()>>
    var nextBeacon: int
    ghost var log: seq<Arrival>

    ghost predicate Valid()
      reads this, cells
    {
      Packed(cells[..], Run(log)) && Ordered(log) && Agrees(Run(log), log)
    }

    /** presence_init; `draw` is the random number behind the beacon jitter. */
    constructor (now: int, draw: u32)
      ensures Valid() && fresh(cells)
      ensures log == []
      ensures now + BEACON_MIN_US <= nextBeacon < now + BEACON_MAX_US
    {
      cells := new Cell<()>[TABLE_SIZE](_ => Cell(Row(Repeat(0, 8), 0, ()), false));
      nextBeacon := now + BEACON_MIN_US + draw % (BEACON_MAX_US - BEACON_MIN_US);
      log := [];
    }

    /** The second loop of presence_touch: the slot heard longest ago, once the table is full. */
    method OldestSlot() returns (oldest: nat)
      requires Valid()
      requires |Run(log)| == TABLE_SIZE
      ensures oldest < TABLE_SIZE && oldest == Oldest(Run(log))
    {
      ghost var t := Run(log);
      hide Run, Agrees, Ordered;
      oldest := 0;
      var i := 1;
      while i < TABLE_SIZE
        invariant 1 <= i <= TABLE_SIZE
        invariant oldest < i
        invariant forall j :: 0 <= j < i ==> t[oldest].stamp <= t[j].stamp
        invariant forall j :: 0 <= j < oldest ==> t[oldest].stamp < t[j].stamp
      {
        if cells[i].row.stamp < cells[oldest].row.stamp {
          oldest := i;
        }
        i := i + 1;
      }
    }

    /** presence_touch */
    method TouchNode(id: NodeId, now: int)
      requires Valid()
      requires forall e :: e in log ==> e.time <= now
      modifies this`log, cells
      ensures Valid()
      ensures log == old(log) + [Arrival(id, now)]
    {
      ghost var t := Run(log);
      TouchAgrees(t, log, Arrival(id, now));
      var freeSlot := -1;
      var i := 0;
      while i < TABLE_SIZE
        invariant 0 <= i <= TABLE_SIZE
        invariant i <= Find(t, id) || Find(t, id) == |t|
        invariant freeSlot == if i <= |t| then -1 else |t|
      {
        if cells[i].used && cells[i].row.id == id {
          assert i == Find(t, id);
          Write(i, cells[i].row.(stamp := now), Arrival(id, now));
          return;
        }
        if !cells[i].used && freeSlot < 0 {
          freeSlot := i;
        }
        i := i + 1;
      }
      if freeSlot < 0 {
        freeSlot := OldestSlot();
      }
      Write(freeSlot, Row(id, now, ()), Arrival(id, now));
    }

    /** Fill one slot of the array, completing the touch `e`. */
    method Write(i: nat, row: Sighting, ghost e: Arrival)
      requires Packed(cells[..], Run(log))
      requires i <= |Run(log)| && i < TABLE_SIZE
      requires Touch(Run(log), e.sender, e.time) ==
               if i < |Run(log)| then Run(log)[i := row] else Run(log) + [row]
      modifies this`log, cells
      ensures log == old(log) + [e]
      ensures Packed(cells[..], Run(log))
    {
      PackedWrite(cells[..], Run(log), i, row);
      ghost var before := cells[..];
      cells[i] := Cell(row, true);
      assert cells[..] == before[i := Cell(row, true)];
      assert (log + [e])[..|log|] == log;
      log := log + [e];
    }

    /** presence_seen_recently */
    method SeenWithin(id: NodeId, now: int, maxAgeMs: u32) returns (seen: bool)
      requires Valid()
      ensures seen <==> SeenRecently(Run(log), id, now, maxAgeMs)
      ensures seen ==> HeardRecently(log, id, now, maxAgeMs)
    {
      ghost var t := Run(log);
      NeverOverclaims(log, id, now, maxAgeMs);
      hide Run, Agrees, Ordered, HeardRecently;
      var i := 0;
      while i < TABLE_SIZE
        invariant 0 <= i <= TABLE_SIZE
        invariant i <= Find(t, id) || Find(t, id) == |t|
      {
        if cells[i].used && cells[i].row.id == id {
          return now - cells[i].row.stamp <= maxAgeMs * 1000;
        }
        i := i + 1;
      }
      return false;
    }

    /** presence_beacon_due */
    method BeaconDue(now: int) returns (due: bool)
      ensures due <==> now >= nextBeacon
    {
      return now >= nextBeacon;
    }

    /** presence_beacon_reset_timer: the next beacon is at least 60 s and less than 120 s away. */
    method ResetTimer(now: int, draw: u32)
      requires Valid()
      modifies this`nextBeacon
      ensures Valid() && log == old(log)
      ensures now + BEACON_MIN_US <= nextBeacon < now + BEACON_MAX_US
    {
      nextBeacon := now + BEACON_MIN_US + draw % (BEACON_MAX_US - BEACON_MIN_US);
    }
  }
}
