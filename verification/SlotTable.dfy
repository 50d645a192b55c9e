/**
 * The fixed table shared in shape by the rate limiter and the presence list: 32 slots keyed by
 * node id, filled in order, and once full the row with the oldest stamp makes room.
 * The abstract table is the sequence of used rows, in slot order.
 */
module SlotTable {
  import opened Bytes
  import opened Packet

  const TABLE_SIZE := 32

  datatype Row<V> = Row(id: NodeId, stamp: int, info: V)

  datatype Cell<V> = Cell(row: Row<V>, used: bool)

  /** The used cells form a prefix of the array, and that prefix is `t`. */
  ghost predicate Packed<V>(cells: seq<Cell<V>>, t: seq<Row<V>>) {
    && |cells| == TABLE_SIZE
    && |t| <= TABLE_SIZE
    && (forall i :: 0 <= i < |t| ==> cells[i].used && cells[i].row == t[i])
    && (forall i :: |t| <= i < TABLE_SIZE ==> !cells[i].used)
  }

  ghost predicate Sane<V>(t: seq<Row<V>>) {
    && |t| <= TABLE_SIZE
    && forall i, j :: 0 <= i < j < |t| ==> t[i].id != t[j].id
  }

  /** Slot of the first row for `id`, or |t| when there is none. */
  function Find<V>(t: seq<Row<V>>, id: NodeId): (i: nat)
    ensures i <= |t|
    ensures i < |t| ==> t[i].id == id
    ensures forall j :: 0 <= j < i ==> t[j].id != id
  {
    if t == [] then 0
    else if t[0].id == id then 0
    else 1 + Find(t[1..], id)
  }

  function Lookup<V>(t: seq<Row<V>>, id: NodeId): (r: Option<Row<V>>)
  {
    if Find(t, id) < |t| then Some(t[Find(t, id)]) else None
  }

  ghost predicate IsOldest<V>(t: seq<Row<V>>, o: nat) {
    && o < |t|
    && (forall j :: 0 <= j < |t| ==> t[o].stamp <= t[j].stamp)
    && (forall j :: 0 <= j < o ==> t[o].stamp < t[j].stamp)
  }

  /** First slot among those with the smallest stamp. */
  function Oldest<V>(t: seq<Row<V>>): (o: nat)
    requires t != []
    ensures IsOldest(t, o)
  {
    var n := |t| - 1;
    if n == 0 then 0
    else
      var o := Oldest(t[..n]);
      if t[n].stamp < t[o].stamp then n else o
  }

  /** Enter a new id: the next unused slot, or the oldest row's slot when the table is full. */
  function Enter<V>(t: seq<Row<V>>, row: Row<V>): (t': seq<Row<V>>)
    requires |t| <= TABLE_SIZE
    ensures |t| <= |t'| <= TABLE_SIZE
  {
    if |t| < TABLE_SIZE then t + [row] else t[Oldest(t) := row]
  }

  /** One packet reaching a table. */
  datatype Arrival = Arrival(sender: NodeId, time: int)

  /** The clock may stand still between packets, but never runs backwards. */
  ghost predicate Ordered(trace: seq<Arrival>) {
    forall i, j :: 0 <= i < j < |trace| ==> trace[i].time <= trace[j].time
  }

  ghost function Ids<V>(t: seq<Row<V>>): set<NodeId> {
    set r | r in t :: r.id
  }

  lemma LookupAt<V>(t: seq<Row<V>>, i: nat)
    requires Sane(t) && i < |t|
    ensures Find(t, t[i].id) == i && Lookup(t, t[i].id) == Some(t[i])
  {
  }

  lemma LookupIds<V>(t: seq<Row<V>>, id: NodeId)
    ensures Lookup(t, id).Some? <==> id in Ids(t)
  {
  }

  /** Rewriting one row for the same id touches no other id. */
  lemma UpdateLookup<V>(t: seq<Row<V>>, i: nat, row: Row<V>, s: NodeId)
    requires Sane(t) && i < |t| && t[i].id == row.id
    ensures Sane(t[i := row])
    ensures Lookup(t[i := row], s) == if s == row.id then Some(row) else Lookup(t, s)
  {
    var t' := t[i := row];
    assert forall j :: 0 <= j < |t| ==> t'[j].id == t[j].id;
    if Find(t, s) < |t| { LookupAt(t', Find(t, s)); }
  }

  lemma UpdateIds<V>(t: seq<Row<V>>, i: nat, row: Row<V>)
    requires i < |t| && t[i].id == row.id
    ensures Ids(t[i := row]) == Ids(t)
  {
    var t' := t[i := row];
    forall x | x in Ids(t) ensures x in Ids(t') {
      var j :| 0 <= j < |t| && t[j].id == x;
      assert t'[j] in t';
    }
    forall x | x in Ids(t') ensures x in Ids(t) {
      var j :| 0 <= j < |t'| && t'[j].id == x;
      assert t[j] in t;
    }
  }

  lemma AppendSane<V>(t: seq<Row<V>>, row: Row<V>)
    requires Sane(t) && |t| < TABLE_SIZE && row.id !in Ids(t)
    ensures Sane(t + [row])
    ensures Ids(t + [row]) == Ids(t) + {row.id}
  {
  }

  /** A free slot is used without disturbing anyone. */
  lemma AppendLookup<V>(t: seq<Row<V>>, row: Row<V>, s: NodeId)
    requires Sane(t) && |t| < TABLE_SIZE && row.id !in Ids(t)
    ensures Sane(t + [row])
    ensures Lookup(t + [row], s) == if s == row.id then Some(row) else Lookup(t, s)
  {
    var t' := t + [row];
    AppendSane(t, row);
    var i := Find(t, s);
    if s == row.id {
      LookupAt(t', |t|);
    } else if i < |t| {
      assert t'[i] == t[i];
      LookupAt(t', i);
    } else {
      assert forall j :: 0 <= j < |t'| ==> t'[j].id != s;
    }
  }

  lemma ReplaceSane<V>(t: seq<Row<V>>, o: nat, row: Row<V>)
    requires Sane(t) && o < |t| && row.id !in Ids(t)
    ensures Sane(t[o := row])
  {
  }

  /** A full table loses its oldest row and nothing else. */
  lemma ReplaceLookup<V>(t: seq<Row<V>>, o: nat, row: Row<V>, s: NodeId)
    requires Sane(t) && o < |t| && row.id !in Ids(t)
    ensures Sane(t[o := row])
    ensures Lookup(t[o := row], s) ==
            if s == row.id then Some(row) else if s == t[o].id then None else Lookup(t, s)
  {
    var t' := t[o := row];
    ReplaceSane(t, o, row);
    var i := Find(t, s);
    if s == row.id {
      LookupAt(t', o);
    } else if i < |t| && i != o {
      assert t'[i] == t[i];
      LookupAt(t', i);
    } else {
      assert forall j :: 0 <= j < |t| && j != o ==> t[j].id != s;
    }
  }

  /** Writing cell `i` in place, whether it rewrites a used row or opens the next free one. */
  lemma PackedWrite<V>(cells: seq<Cell<V>>, t: seq<Row<V>>, i: nat, row: Row<V>)
    requires Packed(cells, t)
    requires i <= |t| && i < TABLE_SIZE
    ensures Packed(cells[i := Cell(row, true)], if i < |t| then t[i := row] else t + [row])
  {
  }

  /** Distinct ids in the rows, counted. */
  lemma {:induction false} IdsCount<V>(t: seq<Row<V>>)
    requires forall i, j :: 0 <= i < j < |t| ==> t[i].id != t[j].id
    ensures |Ids(t)| == |t|
  {
    if t != [] {
      var n := |t| - 1;
      IdsCount(t[..n]);
      assert t == t[..n] + [t[n]];
      assert Ids(t) == Ids(t[..n]) + {t[n].id};
    }
  }
}
