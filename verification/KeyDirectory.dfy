/**
 * The server's key directory (server/src/routes/keys.rs): nodes publish one-time prekeys, peers
 * fetch them. A publish is many separately committed statements and may stop halfway; a fetch
 * locks a row first and commits later, or never. All of it interleaves freely.
 */
module KeyDirectory {
  import opened Bytes
  import opened Packet

  datatype NodeRow = NodeRow(
    identityPub: seq<byte>, registrationId: int,
    signedPrekeyId: int, signedPrekeyPub: seq<byte>, signedPrekeySig: seq<byte>)

  datatype Otp = Otp(node: NodeId, prekeyId: int, pub: seq<byte>, used: bool)

  /** One one-time prekey as somebody published or received it. */
  datatype Key = Key(node: NodeId, prekeyId: int, pub: seq<byte>)

  /** The tables, the row locks by transaction, and two logs no query ever reads. */
  datatype Db = Db(
    nodes: map<NodeId, NodeRow>,
    otps: seq<Otp>,
    locks: map<nat, nat>,
    published: seq<Key>,
    handed: seq<Key>)

  datatype Step =
    | Upsert(node: NodeId, row: NodeRow)
    | Insert(node: NodeId, prekeyId: int, pub: seq<byte>)
    | Lock(txn: nat, node: NodeId)
    | Commit(txn: nat)
    | Abort(txn: nat)

  predicate Listed(otps: seq<Otp>, node: NodeId, prekeyId: int) {
    exists i :: 0 <= i < |otps| && otps[i].node == node && otps[i].prekeyId == prekeyId
  }

  /** insert ... on conflict (node_id, prekey_id) do nothing; the node row must exist. */
  function InsertKey(db: Db, node: NodeId, prekeyId: int, pub: seq<byte>): Db {
    if node !in db.nodes then db
    else db.(
      otps := if Listed(db.otps, node, prekeyId) then db.otps else db.otps + [Otp(node, prekeyId, pub, false)],
      published := db.published + [Key(node, prekeyId, pub)])
  }

  predicate Free(db: Db, i: nat, node: NodeId)
    requires i < |db.otps|
  {
    db.otps[i].node == node && !db.otps[i].used && i !in db.locks.Values
  }

  /** where node_id = .. and used_at is null order by id limit 1 for update skip locked */
  function FirstFree(db: Db, node: NodeId, from: nat): (i: nat)
    requires from <= |db.otps|
    ensures from <= i <= |db.otps|
    ensures i < |db.otps| ==> Free(db, i, node)
    ensures forall j :: from <= j < i ==> !Free(db, j, node)
    decreases |db.otps| - from
  {
    if from == |db.otps| then from
    else if Free(db, from, node) then from
    else FirstFree(db, node, from + 1)
  }

  function Next(db: Db, step: Step): Db {
    match step
    case Upsert(node, row) => db.(nodes := db.nodes[node := row])
    case Insert(node, id, pub) => InsertKey(db, node, id, pub)
    case Lock(txn, node) =>
      var i := FirstFree(db, node, 0);
      if node in db.nodes && txn !in db.locks && i < |db.otps|
      then db.(locks := db.locks[txn := i]) else db
    case Commit(txn) =>
      if txn in db.locks && db.locks[txn] < |db.otps| then
        var i := db.locks[txn];
        db.(
          otps := db.otps[i := db.otps[i].(used := true)],
          locks := db.locks - {txn},
          handed := db.handed + [KeyAt(db.otps[i])])
      else db
    case Abort(txn) => db.(locks := db.locks - {txn})
  }

  function KeyAt(o: Otp): Key {
    Key(o.node, o.prekeyId, o.pub)
  }

  const Empty := Db(map[], [], map[], [], [])

  function Run(steps: seq<Step>): Db {
    if steps == [] then Empty
    else Next(Run(steps[..|steps| - 1]), steps[|steps| - 1])
  }

  // ----- what every interleaving keeps -----

  predicate SameId(a: Key, b: Key) {
    a.node == b.node && a.prekeyId == b.prekeyId
  }

  ghost predicate RowsUnique(otps: seq<Otp>) {
    forall i, j :: 0 <= i < j < |otps| ==> !SameId(KeyAt(otps[i]), KeyAt(otps[j]))
  }

  /** Locks point at distinct rows that are still unused. */
  ghost predicate LocksOk(db: Db) {
    && (forall t :: t in db.locks ==> db.locks[t] < |db.otps| && !db.otps[db.locks[t]].used)
    && (forall t, u :: t in db.locks && u in db.locks && db.locks[t] == db.locks[u] ==> t == u)
  }

  /** The rows marked used are exactly the keys handed out, each once. */
  ghost predicate HandedOk(otps: seq<Otp>, handed: seq<Key>) {
    && (forall i :: 0 <= i < |otps| ==> (otps[i].used <==> KeyAt(otps[i]) in handed))
    && (forall k :: k in handed ==> exists i :: 0 <= i < |otps| && KeyAt(otps[i]) == k)
    && (forall p, q :: 0 <= p < q < |handed| ==> handed[p] != handed[q])
  }

  /** The public key that was published first under an id. */
  ghost predicate FirstUnder(published: seq<Key>, k: Key) {
    exists p :: 0 <= p < |published| && published[p] == k &&
                forall q :: 0 <= q < p ==> !SameId(published[q], k)
  }

  ghost predicate RowsAreFirst(otps: seq<Otp>, published: seq<Key>) {
    && (forall i :: 0 <= i < |otps| ==> FirstUnder(published, KeyAt(otps[i])))
    && (forall k :: k in published ==> Listed(otps, k.node, k.prekeyId))
  }

  ghost predicate Inv(db: Db) {
    RowsUnique(db.otps) && LocksOk(db) && HandedOk(db.otps, db.handed) && RowsAreFirst(db.otps, db.published)
  }

  lemma FirstUnderGrows(published: seq<Key>, k: Key, more: Key)
    requires FirstUnder(published, k)
    ensures FirstUnder(published + [more], k)
  {
    var p :| 0 <= p < |published| && published[p] == k && forall q :: 0 <= q < p ==> !SameId(published[q], k);
    var s := published + [more];
    assert s[p] == k && forall q :: 0 <= q < p ==> s[q] == published[q];
  }

  lemma InsertKeepsFirst(db: Db, node: NodeId, prekeyId: int, pub: seq<byte>)
    requires Inv(db) && node in db.nodes
    ensures var db' := InsertKey(db, node, prekeyId, pub); RowsAreFirst(db'.otps, db'.published)
  {
    var k := Key(node, prekeyId, pub);
    var db' := InsertKey(db, node, prekeyId, pub);
    forall i | 0 <= i < |db.otps| ensures FirstUnder(db'.published, KeyAt(db.otps[i])) {
      FirstUnderGrows(db.published, KeyAt(db.otps[i]), k);
    }
    forall x | x in db'.published ensures Listed(db'.otps, x.node, x.prekeyId) {
      if x in db.published {
        var i :| 0 <= i < |db.otps| && db.otps[i].node == x.node && db.otps[i].prekeyId == x.prekeyId;
        assert db'.otps[i] == db.otps[i];
      } else if !Listed(db.otps, node, prekeyId) {
        assert db'.otps[|db.otps|] == Otp(node, prekeyId, pub, false);
      }
    }
    if !Listed(db.otps, node, prekeyId) {
      assert db'.published[|db.published|] == k;
      forall q | 0 <= q < |db.published| ensures !SameId(db'.published[q], k) {
        assert db.published[q] in db.published;
      }
      assert FirstUnder(db'.published, k);
    }
  }

  /** A new unused row under a new id. */
  lemma AddRow(otps: seq<Otp>, handed: seq<Key>, o: Otp)
    requires RowsUnique(otps) && HandedOk(otps, handed)
    requires !o.used && !Listed(otps, o.node, o.prekeyId)
    ensures RowsUnique(otps + [o]) && HandedOk(otps + [o], handed)
  {
    var n := |otps|;
    forall i | 0 <= i < n ensures !SameId(KeyAt(otps[i]), KeyAt(o)) {
    }
    assert KeyAt(o) !in handed;
    forall k | k in handed ensures exists i :: 0 <= i < n + 1 && KeyAt((otps + [o])[i]) == k {
      var i :| 0 <= i < n && KeyAt(otps[i]) == k;
      assert KeyAt((otps + [o])[i]) == k;
    }
  }

  lemma InsertKeepsHanded(db: Db, node: NodeId, prekeyId: int, pub: seq<byte>)
    requires Inv(db) && node in db.nodes
    ensures var db' := InsertKey(db, node, prekeyId, pub);
            RowsUnique(db'.otps) && LocksOk(db') && HandedOk(db'.otps, db'.handed)
  {
    hide RowsUnique, HandedOk, RowsAreFirst, Listed;
    if !Listed(db.otps, node, prekeyId) {
      AddRow(db.otps, db.handed, Otp(node, prekeyId, pub, false));
    }
  }

  /** Marking row `i` used and handing out its key keep the two in step. */
  lemma MarkUsed(otps: seq<Otp>, handed: seq<Key>, i: nat)
    requires RowsUnique(otps) && HandedOk(otps, handed)
    requires i < |otps| && !otps[i].used
    ensures var otps' := otps[i := otps[i].(used := true)];
            RowsUnique(otps') && HandedOk(otps', handed + [KeyAt(otps[i])])
  {
    var otps' := otps[i := otps[i].(used := true)];
    var k := KeyAt(otps[i]);
    var handed' := handed + [k];
    assert k !in handed;
    forall j | 0 <= j < |otps| ensures KeyAt(otps'[j]) == KeyAt(otps[j]) && (j != i ==> KeyAt(otps[j]) != k) {
    }
    forall x | x in handed' ensures exists j :: 0 <= j < |otps'| && KeyAt(otps'[j]) == x {
      if x in handed {
        var j :| 0 <= j < |otps| && KeyAt(otps[j]) == x;
        assert KeyAt(otps'[j]) == x;
      } else {
        assert KeyAt(otps'[i]) == x;
      }
    }
  }

  /** The key columns of the table did not change. */
  ghost predicate SameKeys(otps: seq<Otp>, otps': seq<Otp>) {
    |otps| == |otps'| && forall j :: 0 <= j < |otps| ==> KeyAt(otps'[j]) == KeyAt(otps[j])
  }

  lemma SameKeysKeepFirst(otps: seq<Otp>, otps': seq<Otp>, published: seq<Key>)
    requires SameKeys(otps, otps') && RowsAreFirst(otps, published)
    ensures RowsAreFirst(otps', published)
  {
  }

  lemma CommitKeepsLocks(db: Db, txn: nat)
    requires LocksOk(db) && txn in db.locks
    ensures LocksOk(Next(db, Commit(txn)))
  {
  }

  lemma CommitKeeps(db: Db, txn: nat)
    requires Inv(db) && txn in db.locks
    ensures Inv(Next(db, Commit(txn)))
  {
    CommitKeepsLocks(db, txn);
    var i := db.locks[txn];
    assert i < |db.otps| && !db.otps[i].used;
    hide RowsUnique, HandedOk, RowsAreFirst, LocksOk;
    var otps' := db.otps[i := db.otps[i].(used := true)];
    MarkUsed(db.otps, db.handed, i);
    assert SameKeys(db.otps, otps') by { hide Next; }
    hide SameKeys;
    SameKeysKeepFirst(db.otps, otps', db.published);
  }

  /** A lock lands on an unused row that nobody else holds. */
  lemma LockKeeps(db: Db, txn: nat, node: NodeId)
    requires LocksOk(db)
    ensures LocksOk(Next(db, Lock(txn, node)))
  {
  }

  lemma StepKeeps(db: Db, step: Step)
    requires Inv(db)
    ensures Inv(Next(db, step))
  {
    hide RowsUnique, HandedOk, RowsAreFirst;
    match step
    case Insert(node, id, pub) =>
      if node in db.nodes {
        InsertKeepsFirst(db, node, id, pub);
        InsertKeepsHanded(db, node, id, pub);
        hide LocksOk, InsertKey;
      }
    case Commit(txn) =>
      if txn in db.locks {
        CommitKeeps(db, txn);
        hide LocksOk, Next;
      }
    case Lock(txn, node) =>
      LockKeeps(db, txn, node);
    case _ =>
  }

  lemma {:induction false} EveryInterleavingKeeps(steps: seq<Step>)
    ensures Inv(Run(steps))
  {
    if steps != [] {
      EveryInterleavingKeeps(steps[..|steps| - 1]);
      hide Inv, Next;
      StepKeeps(Run(steps[..|steps| - 1]), steps[|steps| - 1]);
    }
  }

  /** No prekey id of a node is ever handed out twice, not even after it was published again. */
  lemma HandedOutAtMostOnce(steps: seq<Step>, p: nat, q: nat)
    requires p < q < |Run(steps).handed|
    ensures !SameId(Run(steps).handed[p], Run(steps).handed[q])
  {
    EveryInterleavingKeeps(steps);
    var db := Run(steps);
    hide Run;
    assert db.handed[p] in db.handed && db.handed[q] in db.handed;
    var i :| 0 <= i < |db.otps| && KeyAt(db.otps[i]) == db.handed[p];
    var j :| 0 <= j < |db.otps| && KeyAt(db.otps[j]) == db.handed[q];
    assert db.handed[p] != db.handed[q];
    assert i != j;
  }

  /** What is handed out is always the public key published first under that id. */
  lemma HandedOutIsFirstPublished(steps: seq<Step>, k: Key)
    requires k in Run(steps).handed
    ensures FirstUnder(Run(steps).published, k)
  {
    EveryInterleavingKeeps(steps);
    var db := Run(steps);
    hide Run, FirstUnder;
    var i :| 0 <= i < |db.otps| && KeyAt(db.otps[i]) == k;
  }

  // ----- whose rows these are -----

  /** Step `i` is the last one that wrote the node row of `n`, and it wrote `row`. */
  ghost predicate LastUpsert(steps: seq<Step>, n: NodeId, row: NodeRow, i: nat) {
    && i < |steps| && steps[i] == Upsert(n, row)
    && forall j :: i < j < |steps| ==> !(steps[j].Upsert? && steps[j].node == n)
  }

  /** At every moment of every interleaving a node's row is the one last published, and only then there. */
  lemma {:induction false} NodeRowIff(steps: seq<Step>, n: NodeId, row: NodeRow)
    ensures (n in Run(steps).nodes && Run(steps).nodes[n] == row) <==> exists i: nat :: LastUpsert(steps, n, row, i)
  {
    if steps != [] {
      var k := |steps| - 1;
      NodeRowIff(steps[..k], n, row);
      NodesStep(Run(steps[..k]), steps[k]);
      hide Next;
      if steps[k] == Upsert(n, row) { assert LastUpsert(steps, n, row, k); }
      if i: nat :| LastUpsert(steps[..k], n, row, i) {
        assert steps[i] == steps[..k][i];
        if !(steps[k].Upsert? && steps[k].node == n) { assert LastUpsert(steps, n, row, i); }
      }
      if i: nat :| LastUpsert(steps, n, row, i) {
        if i < k { assert steps[..k][i] == steps[i] && LastUpsert(steps[..k], n, row, i); }
      }
    }
  }

  lemma NodesStep(db: Db, step: Step)
    ensures Next(db, step).nodes == if step.Upsert? then db.nodes[step.node := step.row] else db.nodes
  {
  }

  /** So whatever else happens after a publish, a fetch finds the row it published. */
  lemma PublishedRowStays(before: seq<Step>, n: NodeId, row: NodeRow, later: seq<Step>)
    requires forall j :: 0 <= j < |later| ==> !(later[j].Upsert? && later[j].node == n)
    ensures var db := Run(before + [Upsert(n, row)] + later); n in db.nodes && db.nodes[n] == row
  {
    var steps := before + [Upsert(n, row)] + later;
    forall j | |before| < j < |steps| ensures steps[j] == later[j - |before| - 1] {
    }
    assert LastUpsert(steps, n, row, |before|);
    NodeRowIff(steps, n, row);
    hide Run;
  }

  /** An unused row of `node` that no fetch holds. */
  ghost predicate Fetchable(db: Db, i: nat, node: NodeId) {
    && i < |db.otps| && db.otps[i].node == node && !db.otps[i].used
    && forall t :: t in db.locks ==> db.locks[t] != i
  }

  /** A fetch locks the first row it may take, of the node it asked for, and none if there is none. */
  lemma LockTakesFirst(db: Db, txn: nat, node: NodeId)
    requires node in db.nodes && txn !in db.locks
    ensures var db' := Next(db, Lock(txn, node));
            && (txn in db'.locks <==> exists i: nat :: Fetchable(db, i, node))
            && (txn in db'.locks ==>
                  && db' == db.(locks := db.locks[txn := db'.locks[txn]])
                  && Fetchable(db, db'.locks[txn], node)
                  && forall j :: 0 <= j < db'.locks[txn] ==> !Fetchable(db, j, node))
            && (txn !in db'.locks ==> db' == db)
  {
    FirstFreeIsFetchable(db, node);
    hide FirstFree, Fetchable;
  }

  lemma FirstFreeIsFetchable(db: Db, node: NodeId)
    ensures var i := FirstFree(db, node, 0);
            && (i < |db.otps| ==> Fetchable(db, i, node))
            && (forall j :: 0 <= j < i ==> !Fetchable(db, j, node))
            && (i == |db.otps| ==> forall j: nat :: !Fetchable(db, j, node))
  {
    forall j | 0 <= j < |db.otps| ensures Free(db, j, node) <==> Fetchable(db, j, node) {
    }
    hide Fetchable;
  }

  // ----- conservation -----

  ghost function IdsOf(keys: seq<Key>): set<(NodeId, int)> {
    set k | k in keys :: (k.node, k.prekeyId)
  }

  ghost function Rows(otps: seq<Otp>): set<(NodeId, int)> {
    set o | o in otps :: (o.node, o.prekeyId)
  }

  function Available(otps: seq<Otp>): nat {
    if otps == [] then 0
    else Available(otps[..|otps| - 1]) + if otps[|otps| - 1].used then 0 else 1
  }

  function UsedKeys(otps: seq<Otp>): seq<Key> {
    if otps == [] then []
    else UsedKeys(otps[..|otps| - 1]) + if otps[|otps| - 1].used then [KeyAt(otps[|otps| - 1])] else []
  }

  lemma {:induction false} UsedAndAvailable(otps: seq<Otp>)
    ensures |otps| == |UsedKeys(otps)| + Available(otps)
  {
    if otps != [] { UsedAndAvailable(otps[..|otps| - 1]); }
  }

  ghost predicate UsedUnder(otps: seq<Otp>, k: Key) {
    exists i :: 0 <= i < |otps| && otps[i].used && KeyAt(otps[i]) == k
  }

  lemma UsedUnderStep(otps: seq<Otp>, k: Key)
    requires otps != []
    ensures var n := |otps| - 1;
            UsedUnder(otps, k) <==> UsedUnder(otps[..n], k) || (otps[n].used && KeyAt(otps[n]) == k)
  {
    var n := |otps| - 1;
    if i :| 0 <= i < n && otps[..n][i].used && KeyAt(otps[..n][i]) == k { assert otps[i].used; }
    if i :| 0 <= i < n && otps[i].used && KeyAt(otps[i]) == k { assert otps[..n][i].used; }
  }

  lemma {:induction false} UsedKeysIff(otps: seq<Otp>, k: Key)
    ensures k in UsedKeys(otps) <==> UsedUnder(otps, k)
  {
    if otps != [] {
      UsedKeysIff(otps[..|otps| - 1], k);
      UsedUnderStep(otps, k);
    }
  }

  lemma {:induction false} UsedKeysDistinct(otps: seq<Otp>)
    requires RowsUnique(otps)
    ensures Distinct(UsedKeys(otps))
  {
    if otps != [] {
      var n := |otps| - 1;
      assert forall i :: 0 <= i < n ==> otps[..n][i] == otps[i];
      UsedKeysDistinct(otps[..n]);
      UsedKeysIff(otps[..n], KeyAt(otps[n]));
    }
  }

  lemma {:induction false} RowsCount(otps: seq<Otp>)
    requires RowsUnique(otps)
    ensures |Rows(otps)| == |otps|
  {
    if otps != [] {
      var n := |otps| - 1;
      RowsCount(otps[..n]);
      assert otps == otps[..n] + [otps[n]];
      assert Rows(otps) == Rows(otps[..n]) + {(otps[n].node, otps[n].prekeyId)};
      assert forall i :: 0 <= i < n ==> !SameId(KeyAt(otps[i]), KeyAt(otps[n]));
    }
  }

  lemma PublishedIdsAreRows(db: Db)
    requires RowsAreFirst(db.otps, db.published)
    ensures IdsOf(db.published) == Rows(db.otps)
  {
  }

  /** Distinct published ids = handed out + still available, at every moment of every interleaving. */
  lemma PublishedIsHandedPlusAvailable(steps: seq<Step>)
    ensures var db := Run(steps);
            |IdsOf(db.published)| == |db.handed| + Available(db.otps)
  {
    EveryInterleavingKeeps(steps);
    var db := Run(steps);
    PublishedIdsAreRows(db);
    RowsCount(db.otps);
    UsedAndAvailable(db.otps);
    UsedKeysDistinct(db.otps);
    hide Run, Available, UsedKeys, RowsAreFirst, LocksOk;
    forall k ensures k in UsedKeys(db.otps) <==> k in db.handed {
      UsedKeysIff(db.otps, k);
      if k in db.handed {
        var i :| 0 <= i < |db.otps| && KeyAt(db.otps[i]) == k;
        assert db.otps[i].used;
      }
    }
    assert Elements(UsedKeys(db.otps)) == Elements(db.handed);
    DistinctCount(db.handed);
    DistinctCount(UsedKeys(db.otps));
  }

  // ----- the two handlers -----

  datatype Prekey = Prekey(prekeyId: int, pub: Option<seq<byte>>)

  /** The loop over submitted prekeys stops at the first one whose hex is bad. */
  function InsertAll(db: Db, node: NodeId, keys: seq<Prekey>): (Db, bool) {
    if keys == [] then (db, true)
    else
      var n := |keys| - 1;
      var (d, ok) := InsertAll(db, node, keys[..n]);
      if !ok || keys[n].pub.None? then (d, false)
      else (InsertKey(d, node, keys[n].prekeyId, keys[n].pub.value), true)
  }

  /** How many of the keys come before the first one with bad hex. */
  function GoodKeys(keys: seq<Prekey>): (n: nat)
    ensures n <= |keys|
    ensures forall i :: 0 <= i < n ==> keys[i].pub.Some?
    ensures n < |keys| ==> keys[n].pub.None?
  {
    if keys == [] then 0 else if keys[0].pub.None? then 0 else 1 + GoodKeys(keys[1..])
  }

  function KeyIn(node: NodeId, keys: seq<Prekey>, i: nat): Key
    requires i < GoodKeys(keys)
  {
    Key(node, keys[i].prekeyId, keys[i].pub.value)
  }

  lemma GoodPrefix(keys: seq<Prekey>, n: nat)
    requires n <= |keys|
    ensures GoodKeys(keys[..n]) == if n <= GoodKeys(keys) then n else GoodKeys(keys)
  {
    var g, h := GoodKeys(keys[..n]), GoodKeys(keys);
    assert forall i :: 0 <= i < n ==> keys[..n][i] == keys[i];
  }

  /** A publish offers exactly the keys before the first bad one, in order, and nothing else changes. */
  lemma {:induction false} InsertAllOffers(db: Db, node: NodeId, keys: seq<Prekey>)
    requires node in db.nodes
    ensures var (db', ok) := InsertAll(db, node, keys);
            var n := GoodKeys(keys);
            && (ok <==> n == |keys|)
            && db'.nodes == db.nodes && db'.locks == db.locks && db'.handed == db.handed
            && db'.published == db.published + seq(n, i requires 0 <= i < n => KeyIn(node, keys, i))
            && db.otps <= db'.otps
  {
    if keys != [] {
      var k := |keys| - 1;
      InsertAllOffers(db, node, keys[..k]);
      GoodPrefix(keys, k);
      var (d, ok) := InsertAll(db, node, keys[..k]);
      var n, before := GoodKeys(keys), GoodKeys(keys[..k]);
      var offered := seq(before, i requires 0 <= i < before => KeyIn(node, keys[..k], i));
      var offers := seq(n, i requires 0 <= i < n => KeyIn(node, keys, i));
      assert forall i :: 0 <= i < before ==> offered[i] == offers[i];
      if ok && keys[k].pub.Some? {
        assert offers == offered + [Key(node, keys[k].prekeyId, keys[k].pub.value)];
      } else {
        assert offers == offered;
      }
      hide InsertKey, GoodKeys;
      InsertKeyOffers(d, node, keys[k].prekeyId, if keys[k].pub.Some? then keys[k].pub.value else []);
    }
  }

  lemma InsertKeyOffers(db: Db, node: NodeId, prekeyId: int, pub: seq<byte>)
    requires node in db.nodes
    ensures var db' := InsertKey(db, node, prekeyId, pub);
            && db'.nodes == db.nodes && db'.locks == db.locks && db'.handed == db.handed
            && db'.published == db.published + [Key(node, prekeyId, pub)] && db.otps <= db'.otps
  {
  }

  datatype Bundle = Bundle(node: NodeRow, oneTime: Option<(int, seq<byte>)>)

  class Directory {
    var db: Db

    constructor ()
      ensures db == Empty
    {
      db := Empty;
    }

    /** publish_bundle; None stands for a field that was not valid hex. */
    method PublishBundle(node: Option<NodeId>, row: Option<NodeRow>, keys: seq<Prekey>) returns (ok: bool)
      modifies this
      ensures node.None? || row.None? ==> !ok && db == old(db)
      ensures node.Some? && row.Some? ==>
                (db, ok) == InsertAll(Next(old(db), Upsert(node.value, row.value)), node.value, keys)
      ensures ok <==> node.Some? && row.Some? && forall i :: 0 <= i < |keys| ==> keys[i].pub.Some?
      ensures node.Some? && row.Some? ==>
                && db.nodes == old(db).nodes[node.value := row.value]
                && var n := GoodKeys(keys);
                   db.published == old(db).published + seq(n, i requires 0 <= i < n => KeyIn(node.value, keys, i))
    {
      if node.None? || row.None? {
        return false;
      }
      db := db.(nodes := db.nodes[node.value := row.value]);
      ghost var start := db;
      InsertAllOffers(start, node.value, keys);
      var i := 0;
      while i < |keys|
        invariant 0 <= i <= |keys|
        invariant forall j :: 0 <= j < i ==> keys[j].pub.Some?
        invariant (db, true) == InsertAll(start, node.value, keys[..i])
      {
        assert keys[..i + 1][..i] == keys[..i];
        if keys[i].pub.None? {
          StoppedForGood(start, node.value, keys, i + 1);
          return false;
        }
        InsertOne(node.value, keys[i].prekeyId, keys[i].pub.value);
        i := i + 1;
      }
      assert keys[..i] == keys;
      return true;
    }

    lemma {:induction false} StoppedForGood(d: Db, node: NodeId, keys: seq<Prekey>, i: nat)
      requires i <= |keys| && !InsertAll(d, node, keys[..i]).1
      ensures InsertAll(d, node, keys) == InsertAll(d, node, keys[..i])
    {
      if i == |keys| {
        assert keys[..i] == keys;
      } else {
        var n := |keys| - 1;
        assert keys[..n][..i] == keys[..i];
        StoppedForGood(d, node, keys[..n], i);
      }
    }

    /** One insert statement. */
    method InsertOne(node: NodeId, prekeyId: int, pub: seq<byte>)
      modifies this
      ensures db == InsertKey(old(db), node, prekeyId, pub)
    {
      var found := false;
      var i := 0;
      while i < |db.otps| && !found
        invariant 0 <= i <= |db.otps|
        invariant found ==> Listed(db.otps, node, prekeyId)
        invariant !found ==> forall j :: 0 <= j < i ==> !(db.otps[j].node == node && db.otps[j].prekeyId == prekeyId)
      {
        found := db.otps[i].node == node && db.otps[i].prekeyId == prekeyId;
        i := i + 1;
      }
      if node in db.nodes {
        if !found {
          db := db.(otps := db.otps + [Otp(node, prekeyId, pub, false)]);
        }
        db := db.(published := db.published + [Key(node, prekeyId, pub)]);
      }
    }

    /**
     * get_bundle, with nothing else between its lock and its commit: the first free row, and never
     * one that another fetch holds.
     */
    method GetBundle(txn: nat, node: Option<NodeId>) returns (r: Option<Bundle>)
      requires Inv(db) && txn !in db.locks
      modifies this
      ensures r.Some? <==> node.Some? && node.value in old(db).nodes
      ensures r.None? ==> db == old(db)
      ensures r.Some? ==>
                && db == Next(Next(old(db), Lock(txn, node.value)), Commit(txn))
                && r.value.node == old(db).nodes[node.value]
                && var i := FirstFree(old(db), node.value, 0);
                   r.value.oneTime == if i < |old(db).otps|
                                      then Some((old(db).otps[i].prekeyId, old(db).otps[i].pub)) else None
      ensures r.Some? ==>
                (r.value.oneTime.Some? <==> exists i: nat :: Fetchable(old(db), i, node.value))
      ensures r.Some? && r.value.oneTime.Some? ==>
                exists i: nat ::
                  && Fetchable(old(db), i, node.value)
                  && (forall j :: 0 <= j < i ==> !Fetchable(old(db), j, node.value))
                  && r.value.oneTime == Some((old(db).otps[i].prekeyId, old(db).otps[i].pub))
    {
      if node.Some? { FirstFreeIsFetchable(db, node.value); }
      hide Fetchable;
      if node.None? || node.value !in db.nodes {
        return None;
      }
      var row := db.nodes[node.value];
      var i := FirstFree(db, node.value, 0);
      if i == |db.otps| {
        return Some(Bundle(row, None));
      }
      var o := db.otps[i];
      db := db.(locks := db.locks[txn := i]);
      db := db.(otps := db.otps[i := o.(used := true)], locks := db.locks - {txn}, handed := db.handed + [KeyAt(o)]);
      return Some(Bundle(row, Some((o.prekeyId, o.pub))));
    }
  }
}
