/**
 * Per-sender rate limiting: 20 packets per 60 s window, 32 senders tracked
 * (firmware/components/mesh/mesh.c, rate_limited).
 */
module RateLimiter {
  import opened Bytes
  import opened Packet
  import opened SlotTable

  const WINDOW_US := 60 * 1000000
  const MAX_PER_WINDOW := 20

  type Window = Row<nat>

  /** The fixed array has no room for more rows than this. */
  type Table = t: seq<Window> | |t| <= TABLE_SIZE witness []

  /** One more packet for a tracked sender; an expired window restarts at this packet. */
  function Hit(w: Window, now: int): Window {
    if now - w.stamp > WINDOW_US then Row(w.id, now, 1) else w.(info := w.info + 1)
  }

  /** The table after a packet from `id` at time `now`. */
  function Arrive(t: Table, id: NodeId, now: int): Table {
    var i := Find(t, id);
    if i < |t| then t[i := Hit(t[i], now)] else Enter(t, Row(id, now, 1))
  }

  /** Whether that packet is dropped. */
  predicate Limited(t: Table, id: NodeId, now: int) {
    var i := Find(t, id);
    i < |t| && Hit(t[i], now).info > MAX_PER_WINDOW
  }

  lemma ArriveKeepsSane(t: Table, id: NodeId, now: int)
    requires Sane(t)
    ensures Sane(Arrive(t, id, now))
  {
  }

  /** Without eviction, a packet moves its own sender's counter and nobody else's. */
  lemma ArriveLookup(t: Table, id: NodeId, now: int, s: NodeId)
    requires Sane(t)
    requires id in Ids(t) || |t| < TABLE_SIZE
    ensures Lookup(Arrive(t, id, now), s) ==
            if s != id then Lookup(t, s)
            else if Lookup(t, s).Some? then Some(Hit(Lookup(t, s).value, now))
            else Some(Row(s, now, 1))
    ensures Ids(Arrive(t, id, now)) == Ids(t) + {id}
  {
    var i := Find(t, id);
    LookupIds(t, id);
    if i < |t| {
      UpdateLookup(t, i, Hit(t[i], now), s);
      UpdateIds(t, i, Hit(t[i], now));
    } else {
      AppendSane(t, Row(id, now, 1));
      AppendLookup(t, Row(id, now, 1), s);
    }
  }

  /**
   * Exactly when a sender loses its counter: a packet from an untracked sender meets a full
   * table in which this sender's row is the first with the oldest window.
   */
  lemma EvictedIff(t: Table, id: NodeId, now: int, s: NodeId)
    requires Sane(t)
    requires s in Ids(t)
    ensures s !in Ids(Arrive(t, id, now)) <==>
            |t| == TABLE_SIZE && id !in Ids(t) && t[Oldest(t)].id == s
  {
    LookupIds(t, s);
    LookupIds(t, id);
    LookupIds(Arrive(t, id, now), s);
    if id in Ids(t) || |t| < TABLE_SIZE {
      ArriveLookup(t, id, now, s);
    } else {
      ReplaceLookup(t, Oldest(t), Row(id, now, 1), s);
    }
  }

  /** Senders in `t`, other than `s`, whose window started at or after `w`. */
  ghost function Younger(t: seq<Window>, s: NodeId, w: int): set<NodeId> {
    set r | r in t && r.id != s && r.stamp >= w :: r.id
  }

  /**
   * A sender whose window started at `w` is forgotten only once 32 other distinct senders hold
   * windows that started at or after `w`.
   */
  lemma EvictionNeedsThirtyTwoYounger(t: Table, id: NodeId, now: int, s: NodeId)
    requires Sane(t)
    requires forall r :: r in t ==> r.stamp <= now
    requires s in Ids(t)
    requires s !in Ids(Arrive(t, id, now))
    ensures Lookup(t, s).Some?
    ensures |Younger(Arrive(t, id, now), s, Lookup(t, s).value.stamp)| == TABLE_SIZE
  {
    EvictedIff(t, id, now, s);
    LookupIds(t, id);
    LookupAt(t, Oldest(t));
    AllYounger(t, Oldest(t), Row(id, now, 1));
  }

  /** Replacing the oldest row by a newer window leaves only windows that are at least as young. */
  lemma AllYounger(t: seq<Window>, o: nat, row: Window)
    requires Sane(t) && IsOldest(t, o) && row.id !in Ids(t)
    requires forall r :: r in t ==> r.stamp <= row.stamp
    ensures |Younger(t[o := row], t[o].id, t[o].stamp)| == |t|
  {
    var t' := t[o := row];
    ReplaceSane(t, o, row);
    assert t[o] in t && t[o].id in Ids(t);
    assert forall j :: 0 <= j < |t| ==> t'[j].id != t[o].id && t'[j].stamp >= t[o].stamp;
    assert Younger(t', t[o].id, t[o].stamp) == Ids(t');
    IdsCount(t');
  }

  class RateTable {
    const cells: array<Cell<nat>>
    ghost var table: Table

    ghost predicate Valid()
      reads this, cells
    {
      Packed(cells[..], table) && Sane(table)
    }

    /** mesh_init zeroes the table. */
    constructor ()
      ensures Valid() && fresh(cells)
      ensures table == []
    {
      cells := new Cell<nat>[TABLE_SIZE](_ => Cell(Row(Repeat(0, 8), 0, 0), false));
      table := [];
    }

    /** The second loop of rate_limited: the slot whose window is oldest, once the table is full. */
    method OldestSlot() returns (oldest: nat)
      requires Valid()
      requires |table| == TABLE_SIZE
      ensures oldest < TABLE_SIZE && oldest == Oldest(table)
    {
      oldest := 0;
      var i := 1;
      while i < TABLE_SIZE
        invariant 1 <= i <= TABLE_SIZE
        invariant oldest < i
        invariant forall j :: 0 <= j < i ==> table[oldest].stamp <= table[j].stamp
        invariant forall j :: 0 <= j < oldest ==> table[oldest].stamp < table[j].stamp
      {
        if cells[i].row.stamp < cells[oldest].row.stamp {
          oldest := i;
        }
        i := i + 1;
      }
    }

    /** rate_limited */
    method RateLimited(id: NodeId, now: int) returns (limited: bool)
      requires Valid()
      modifies this, cells
      ensures Valid()
      ensures table == Arrive(old(table), id, now)
      ensures limited <==> Limited(old(table), id, now)
    {
      ArriveKeepsSane(table, id, now);
      var freeSlot := -1;
      var i := 0;
      while i < TABLE_SIZE
        invariant 0 <= i <= TABLE_SIZE
        invariant i <= Find(table, id) || Find(table, id) == |table|
        invariant freeSlot == if i <= |table| then -1 else |table|
      {
        if cells[i].used && cells[i].row.id == id {
          assert i == Find(table, id);
          var w := cells[i].row;
          if now - w.stamp > WINDOW_US {
            w := w.(stamp := now, info := 0);
          }
          w := w.(info := w.info + 1);
          Write(i, w);
          return w.info > MAX_PER_WINDOW;
        }
        if !cells[i].used && freeSlot < 0 {
          freeSlot := i;
        }
        i := i + 1;
      }
      if freeSlot < 0 {
        freeSlot := OldestSlot();
      }
      Write(freeSlot, Row(id, now, 1));
      return false;
    }

    /** Fill one slot of the array. */
    method Write(i: nat, row: Window)
      requires Packed(cells[..], table)
      requires i <= |table| && i < TABLE_SIZE
      modifies this, cells
      ensures Packed(cells[..], table)
      ensures table == if i < |old(table)| then old(table)[i := row] else old(table) + [row]
    {
      PackedWrite(cells[..], table, i, row);
      ghost var before := cells[..];
      cells[i] := Cell(row, true);
      assert cells[..] == before[i := Cell(row, true)];
      table := if i < |table| then table[i := row] else table + [row];
    }
  }
}
