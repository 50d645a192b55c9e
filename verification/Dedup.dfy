/**
 * The duplicate filter: a 64-slot ring of message ids (firmware/components/mesh/dedup.c),
 * specified by the unbounded list of ids it has ever marked.
 */
module Dedup {
  import opened Bytes
  import opened Packet

  const CACHE_SIZE := 64

  /** The part of the mark history the ring still holds. */
  function Window(marks: seq<MsgId>): (w: seq<MsgId>)
    ensures |w| <= CACHE_SIZE
  {
    if |marks| <= CACHE_SIZE then marks else marks[|marks| - CACHE_SIZE..]
  }

  predicate Seen(marks: seq<MsgId>, id: MsgId) {
    id in Window(marks)
  }

  /** History after one check-and-mark call. */
  function Mark(marks: seq<MsgId>, id: MsgId): seq<MsgId> {
    if Seen(marks, id) then marks else marks + [id]
  }

  /** History after a whole run of calls, starting from dedup_init. */
  function MarkAll(calls: seq<MsgId>): seq<MsgId> {
    if calls == [] then [] else Mark(MarkAll(calls[..|calls| - 1]), calls[|calls| - 1])
  }

  /** Any 65 consecutive marks are pairwise distinct. */
  ghost predicate SpreadOut(marks: seq<MsgId>) {
    forall i, j :: 0 <= i < j < |marks| && j - i <= CACHE_SIZE ==> marks[i] != marks[j]
  }

  lemma MarkKeepsSpread(marks: seq<MsgId>, id: MsgId)
    requires SpreadOut(marks)
    ensures SpreadOut(Mark(marks, id))
  {
  }

  lemma {:induction false} EveryHistoryIsSpread(calls: seq<MsgId>)
    ensures SpreadOut(MarkAll(calls))
  {
    if calls != [] {
      EveryHistoryIsSpread(calls[..|calls| - 1]);
      MarkKeepsSpread(MarkAll(calls[..|calls| - 1]), calls[|calls| - 1]);
    }
  }

  /** The ids newly marked after position `i`, up to a full ring's worth. */
  ghost function Between(marks: seq<MsgId>, i: nat): set<MsgId>
    requires i + CACHE_SIZE < |marks|
  {
    Elements(marks[i + 1..i + 1 + CACHE_SIZE])
  }

  /** An id is marked again only after 64 other, pairwise different ids were marked in between. */
  lemma RemarkNeedsSixtyFourOthers(marks: seq<MsgId>, i: nat, j: nat)
    requires SpreadOut(marks)
    requires i < j < |marks| && marks[i] == marks[j]
    ensures i + CACHE_SIZE < j
    ensures |Between(marks, i)| == CACHE_SIZE && marks[i] !in Between(marks, i)
  {
    assert j - i > CACHE_SIZE;
    var s := marks[i + 1..i + 1 + CACHE_SIZE];
    assert forall k :: 0 <= k < |s| ==> s[k] == marks[i + 1 + k];
    DistinctCount(s);
  }

  datatype Entry = Entry(msgId: MsgId, used: bool)

  /** Slot k mod 64 holds the k-th mark for the last 64 marks; the other slots are unused. */
  ghost predicate Holds(ring: seq<Entry>, marks: seq<MsgId>) {
    && |ring| == CACHE_SIZE
    && (forall i :: 0 <= i < CACHE_SIZE ==> (ring[i].used <==> i < |marks|))
    && (forall k: nat {:trigger marks[k]} :: k < |marks| && |marks| - k <= CACHE_SIZE ==>
          ring[k % CACHE_SIZE].msgId == marks[k])
  }

  /** A used slot always holds one of the last 64 marks. */
  lemma SlotIsRecent(ring: seq<Entry>, marks: seq<MsgId>, i: nat)
    requires Holds(ring, marks)
    requires i < CACHE_SIZE && ring[i].used
    ensures Seen(marks, ring[i].msgId)
  {
    var n := |marks|;
    var k := if n <= CACHE_SIZE then i
             else if i < n % CACHE_SIZE then n - n % CACHE_SIZE + i
             else n - n % CACHE_SIZE + i - CACHE_SIZE;
    assert k % CACHE_SIZE == i;
    assert ring[k % CACHE_SIZE].msgId == marks[k];
    assert Window(marks)[k - (n - |Window(marks)|)] == marks[k];
  }

  /** Each of the last 64 marks sits in some used slot, so an id found in none is not recent. */
  lemma AbsentIsNotRecent(ring: seq<Entry>, marks: seq<MsgId>, id: MsgId)
    requires Holds(ring, marks)
    requires forall i :: 0 <= i < CACHE_SIZE ==> !(ring[i].used && ring[i].msgId == id)
    ensures !Seen(marks, id)
  {
  }

  /** Overwriting the slot after the newest mark drops the oldest one and nothing else. */
  lemma InsertHolds(ring: seq<Entry>, marks: seq<MsgId>, id: MsgId)
    requires Holds(ring, marks)
    ensures Holds(ring[|marks| % CACHE_SIZE := Entry(id, true)], marks + [id])
  {
  }

  class DedupCache {
    const cache: array<Entry>
    var nextSlot: nat
    ghost var marks: seq<MsgId>

    ghost predicate Valid()
      reads this, cache
    {
      && cache.Length == CACHE_SIZE
      && Holds(cache[..], marks)
      && nextSlot == |marks| % CACHE_SIZE
      && SpreadOut(marks)
    }

    constructor ()
      ensures Valid() && fresh(cache)
      ensures marks == []
    {
      cache := new Entry[CACHE_SIZE](_ => Entry(Repeat(0, 16), false));
      nextSlot := 0;
      marks := [];
    }

    /** dedup_check_and_mark */
    method CheckAndMark(id: MsgId) returns (seen: bool)
      requires Valid()
      modifies this, cache
      ensures Valid()
      ensures seen <==> old(Seen(marks, id))
      ensures marks == (if seen then old(marks) else old(marks) + [id])
    {
      hide Holds, SpreadOut, Seen;
      ghost var ring := cache[..];
      var i := 0;
      while i < CACHE_SIZE
        invariant 0 <= i <= CACHE_SIZE
        invariant forall j :: 0 <= j < i ==> !(ring[j].used && ring[j].msgId == id)
      {
        if cache[i].used && cache[i].msgId == id {
          SlotIsRecent(ring, marks, i);
          return true;
        }
        i := i + 1;
      }
      AbsentIsNotRecent(ring, marks, id);
      MarkKeepsSpread(marks, id);
      InsertHolds(ring, marks, id);
      cache[nextSlot] := Entry(id, true);
      assert cache[..] == ring[nextSlot := Entry(id, true)];
      nextSlot := (nextSlot + 1) % CACHE_SIZE;
      marks := marks + [id];
      return false;
    }
  }
}
