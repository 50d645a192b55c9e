/**
 * The libsignal store callbacks over one flat NVS namespace (firmware/components/crypto/store.c),
 * proved to behave like four separate typed stores plus a few named scalars, for every sequence of
 * calls, exactly when no two of the peers involved fold to the same name.
 */
module KeyStore {
  import opened Bytes
  import opened Packet
  import opened KeyNames

  datatype Value = Blob(bytes: seq<byte>) | U32(number: u32)

  type Flat = map<string, Value>

  /** The four stores and the scalars, each with its own natural keys. */
  datatype Typed = Typed(
    sessions: map<NodeId, seq<byte>>,
    identities: map<NodeId, seq<byte>>,
    oneTime: map<u32, seq<byte>>,
    signed: map<u32, seq<byte>>,
    idPub: Option<seq<byte>>,
    idPriv: Option<seq<byte>>,
    regId: Option<u32>,
    nextPkId: Option<u32>)

  /** The callbacks; `wrote` says whether the flash accepted a write. */
  datatype Op =
    | LoadSession(peer: NodeId)
    | SubDeviceSessions(peer: NodeId)
    | StoreSession(peer: NodeId, record: seq<byte>, wrote: bool)
    | ContainsSession(peer: NodeId)
    | DeleteSession(peer: NodeId)
    | LoadKey(kind: KeyKind, id: u32)
    | StoreKey(kind: KeyKind, id: u32, record: seq<byte>, wrote: bool)
    | ContainsKey(kind: KeyKind, id: u32)
    | RemoveKey(kind: KeyKind, id: u32)
    | SaveIdentity(peer: NodeId, key: Option<seq<byte>>, wrote: bool)
    | IsTrusted(peer: NodeId, keyData: seq<byte>)
    | IdentityKeyPair
    | RegistrationId
    | NextPreKeyId
    | SetIdentityKeyPair(pub: seq<byte>, priv: seq<byte>)
    | SetRegistrationId(number: u32)
    | SetNextPreKeyId(number: u32)

  datatype Result =
    | Ok
    | Failed
    | Absent
    | Record(bytes: seq<byte>)
    | Flag(yes: bool)
    | Count(n: nat)
    | KeyPair(pub: seq<byte>, priv: seq<byte>)

  const FIRST_BATCH: u32 := 20

  // ----- reference: four independent maps -----

  function KeysOf(t: Typed, kind: KeyKind): map<u32, seq<byte>> {
    if kind.OneTime? then t.oneTime else t.signed
  }

  function WithKeys(t: Typed, kind: KeyKind, m: map<u32, seq<byte>>): Typed {
    if kind.OneTime? then t.(oneTime := m) else t.(signed := m)
  }

  function TypedStep(t: Typed, op: Op): (Typed, Result) {
    match op
    case LoadSession(p) =>
      (t, if p in t.sessions && t.sessions[p] != [] then Record(t.sessions[p]) else Absent)
    case SubDeviceSessions(p) => (t, Count(if p in t.sessions then 1 else 0))
    case StoreSession(p, r, wrote) =>
      if wrote then (t.(sessions := t.sessions[p := r]), Ok) else (t, Failed)
    case ContainsSession(p) => (t, Flag(p in t.sessions))
    case DeleteSession(p) => (t.(sessions := t.sessions - {p}), Flag(p in t.sessions))
    case LoadKey(kind, id) =>
      (t, if id in KeysOf(t, kind) then Record(KeysOf(t, kind)[id]) else Absent)
    case StoreKey(kind, id, r, wrote) =>
      if wrote then (WithKeys(t, kind, KeysOf(t, kind)[id := r]), Ok) else (t, Failed)
    case ContainsKey(kind, id) => (t, Flag(id in KeysOf(t, kind)))
    case RemoveKey(kind, id) =>
      (WithKeys(t, kind, KeysOf(t, kind) - {id}), if id in KeysOf(t, kind) then Ok else Failed)
    case SaveIdentity(p, key, wrote) =>
      (if key.None? then t.(identities := t.identities - {p})
       else if wrote then t.(identities := t.identities[p := key.value]) else t, Ok)
    case IsTrusted(p, key) => (t, Flag(p in t.identities ==> t.identities[p] == key))
    case IdentityKeyPair =>
      (t, if t.idPub.Some? && t.idPriv.Some? then KeyPair(t.idPub.value, t.idPriv.value) else Failed)
    case RegistrationId => (t, if t.regId.Some? then Count(t.regId.value) else Failed)
    case NextPreKeyId => (t, Count(if t.nextPkId.Some? then t.nextPkId.value else FIRST_BATCH + 1))
    case SetIdentityKeyPair(pub, priv) => (t.(idPub := Some(pub), idPriv := Some(priv)), Ok)
    case SetRegistrationId(n) => (t.(regId := Some(n)), Ok)
    case SetNextPreKeyId(n) => (t.(nextPkId := Some(n)), Ok)
  }

  const NoKeys := Typed(map[], map[], map[], map[], None, None, None, None)

  function TypedRun(ops: seq<Op>): (Typed, seq<Result>) {
    if ops == [] then (NoKeys, [])
    else
      var (t, rs) := TypedRun(ops[..|ops| - 1]);
      var (t', r) := TypedStep(t, ops[|ops| - 1]);
      (t', rs + [r])
  }

  // ----- the code: one map from names -----

  /** nvs_get_blob: a name holding a number is no blob. */
  predicate HasBlob(kv: Flat, key: string) {
    key in kv && kv[key].Blob?
  }

  predicate HasNumber(kv: Flat, key: string) {
    key in kv && kv[key].U32?
  }

  /** One callback, as store.c carries it out on the flat namespace. */
  function FlatStep(kv: Flat, op: Op): (Flat, Result) {
    match op
    case LoadSession(p) =>
      var k := KeyOf(Session(p));
      (kv, if HasBlob(kv, k) && kv[k].bytes != [] then Record(kv[k].bytes) else Absent)
    case SubDeviceSessions(p) => (kv, Count(if HasBlob(kv, KeyOf(Session(p))) then 1 else 0))
    case StoreSession(p, r, wrote) =>
      if wrote then (kv[KeyOf(Session(p)) := Blob(r)], Ok) else (kv, Failed)
    case ContainsSession(p) => (kv, Flag(HasBlob(kv, KeyOf(Session(p)))))
    case DeleteSession(p) => (kv - {KeyOf(Session(p))}, Flag(KeyOf(Session(p)) in kv))
    case LoadKey(kind, id) =>
      var k := KeyOf(PreKey(kind, id));
      (kv, if HasBlob(kv, k) then Record(kv[k].bytes) else Absent)
    case StoreKey(kind, id, r, wrote) =>
      if wrote then (kv[KeyOf(PreKey(kind, id)) := Blob(r)], Ok) else (kv, Failed)
    case ContainsKey(kind, id) => (kv, Flag(HasBlob(kv, KeyOf(PreKey(kind, id)))))
    case RemoveKey(kind, id) =>
      var k := KeyOf(PreKey(kind, id));
      (kv - {k}, if k in kv then Ok else Failed)
    case SaveIdentity(p, key, wrote) =>
      var k := KeyOf(Identity(p));
      (if key.None? then kv - {k} else if wrote then kv[k := Blob(key.value)] else kv, Ok)
    case IsTrusted(p, key) =>
      var k := KeyOf(Identity(p));
      (kv, Flag(HasBlob(kv, k) ==> kv[k].bytes == key))
    case IdentityKeyPair =>
      (kv, if HasBlob(kv, KeyOf(IdPub)) && HasBlob(kv, KeyOf(IdPriv))
           then KeyPair(kv[KeyOf(IdPub)].bytes, kv[KeyOf(IdPriv)].bytes) else Failed)
    case RegistrationId =>
      (kv, if HasNumber(kv, KeyOf(RegId)) then Count(kv[KeyOf(RegId)].number) else Failed)
    case NextPreKeyId =>
      (kv, Count(if HasNumber(kv, KeyOf(NextPkId)) then kv[KeyOf(NextPkId)].number else FIRST_BATCH + 1))
    case SetIdentityKeyPair(pub, priv) => (kv[KeyOf(IdPub) := Blob(pub)][KeyOf(IdPriv) := Blob(priv)], Ok)
    case SetRegistrationId(n) => (kv[KeyOf(RegId) := U32(n)], Ok)
    case SetNextPreKeyId(n) => (kv[KeyOf(NextPkId) := U32(n)], Ok)
  }

  function FlatRun(ops: seq<Op>): (Flat, seq<Result>) {
    if ops == [] then (map[], [])
    else
      var (kv, rs) := FlatRun(ops[..|ops| - 1]);
      var (kv', r) := FlatStep(kv, ops[|ops| - 1]);
      (kv', rs + [r])
  }

  // ----- refinement -----

  /** What the typed store holds for a slot, in NVS terms. */
  function TypedGet(t: Typed, slot: Slot): Option<Value> {
    match slot
    case Session(p) => if p in t.sessions then Some(Blob(t.sessions[p])) else None
    case Identity(p) => if p in t.identities then Some(Blob(t.identities[p])) else None
    case PreKey(kind, id) => if id in KeysOf(t, kind) then Some(Blob(KeysOf(t, kind)[id])) else None
    case IdPub => if t.idPub.Some? then Some(Blob(t.idPub.value)) else None
    case IdPriv => if t.idPriv.Some? then Some(Blob(t.idPriv.value)) else None
    case RegId => if t.regId.Some? then Some(U32(t.regId.value)) else None
    case NextPkId => if t.nextPkId.Some? then Some(U32(t.nextPkId.value)) else None
  }

  function FlatGet(kv: Flat, key: string): Option<Value> {
    if key in kv then Some(kv[key]) else None
  }

  predicate Concerns(peers: set<NodeId>, slot: Slot) {
    slot.Session? || slot.Identity? ==> slot.peer in peers
  }

  ghost predicate NoAlias(peers: set<NodeId>) {
    forall a, b :: a in peers && b in peers && Fold(a) == Fold(b) ==> a == b
  }

  ghost predicate Simulates(peers: set<NodeId>, kv: Flat, t: Typed) {
    forall slot :: Concerns(peers, slot) ==> FlatGet(kv, KeyOf(slot)) == TypedGet(t, slot)
  }

  function PeerOf(op: Op): Option<NodeId> {
    match op
    case LoadSession(p) => Some(p)
    case SubDeviceSessions(p) => Some(p)
    case StoreSession(p, _, _) => Some(p)
    case ContainsSession(p) => Some(p)
    case DeleteSession(p) => Some(p)
    case SaveIdentity(p, _, _) => Some(p)
    case IsTrusted(p, _) => Some(p)
    case _ => None
  }

  predicate Involves(peers: set<NodeId>, ops: seq<Op>) {
    forall i :: 0 <= i < |ops| ==> PeerOf(ops[i]).Some? ==> PeerOf(ops[i]).value in peers
  }

  /** Writing or erasing one slot on both sides keeps the simulation. */
  lemma PutSimulates(peers: set<NodeId>, kv: Flat, t: Typed, slot: Slot, v: Option<Value>, kv': Flat, t': Typed)
    requires NoAlias(peers) && Simulates(peers, kv, t) && Concerns(peers, slot)
    requires kv' == if v.Some? then kv[KeyOf(slot) := v.value] else kv - {KeyOf(slot)}
    requires Puts(t, t', slot, v)
    ensures Simulates(peers, kv', t')
  {
    hide KeyOf, Fold, TypedGet;
    forall other | Concerns(peers, other) ensures FlatGet(kv', KeyOf(other)) == TypedGet(t', other) {
      KeyOfIff(slot, other);
    }
  }

  /** What a callback writes: the slot, its new value, or nothing at all. */
  function Written(op: Op): Option<(Slot, Option<Value>)> {
    match op
    case StoreSession(p, r, wrote) => if wrote then Some((Session(p), Some(Blob(r)))) else None
    case DeleteSession(p) => Some((Session(p), None))
    case StoreKey(kind, id, r, wrote) => if wrote then Some((PreKey(kind, id), Some(Blob(r)))) else None
    case RemoveKey(kind, id) => Some((PreKey(kind, id), None))
    case SaveIdentity(p, key, wrote) =>
      if key.None? then Some((Identity(p), None))
      else if wrote then Some((Identity(p), Some(Blob(key.value)))) else None
    case SetRegistrationId(n) => Some((RegId, Some(U32(n))))
    case SetNextPreKeyId(n) => Some((NextPkId, Some(U32(n))))
    case _ => None
  }

  lemma FlatWrites(kv: Flat, op: Op)
    requires !op.SetIdentityKeyPair?
    ensures match Written(op)
            case None => FlatStep(kv, op).0 == kv
            case Some((slot, v)) =>
              FlatStep(kv, op).0 == if v.Some? then kv[KeyOf(slot) := v.value] else kv - {KeyOf(slot)}
  {
    hide KeyOf;
  }

  /** The same write on the typed side: that slot, and no other. */
  ghost predicate Puts(t: Typed, t': Typed, slot: Slot, v: Option<Value>) {
    && TypedGet(t', slot) == v
    && forall other :: other != slot ==> TypedGet(t', other) == TypedGet(t, other)
  }

  lemma PutSession(t: Typed, p: NodeId, r: seq<byte>)
    ensures Puts(t, t.(sessions := t.sessions[p := r]), Session(p), Some(Blob(r)))
    ensures Puts(t, t.(sessions := t.sessions - {p}), Session(p), None)
  {
  }

  lemma PutIdentity(t: Typed, p: NodeId, r: seq<byte>)
    ensures Puts(t, t.(identities := t.identities[p := r]), Identity(p), Some(Blob(r)))
    ensures Puts(t, t.(identities := t.identities - {p}), Identity(p), None)
  {
  }

  lemma PutKey(t: Typed, kind: KeyKind, id: u32, r: seq<byte>)
    ensures Puts(t, WithKeys(t, kind, KeysOf(t, kind)[id := r]), PreKey(kind, id), Some(Blob(r)))
    ensures Puts(t, WithKeys(t, kind, KeysOf(t, kind) - {id}), PreKey(kind, id), None)
  {
  }

  lemma TypedWrites(t: Typed, op: Op)
    requires !op.SetIdentityKeyPair?
    ensures match Written(op)
            case None => TypedStep(t, op).0 == t
            case Some((slot, v)) => Puts(t, TypedStep(t, op).0, slot, v)
  {
    match op
    case StoreSession(p, r, _) => PutSession(t, p, r); hide Puts;
    case DeleteSession(p) => PutSession(t, p, []); hide Puts;
    case StoreKey(kind, id, r, _) => PutKey(t, kind, id, r); hide Puts;
    case RemoveKey(kind, id) => PutKey(t, kind, id, []); hide Puts;
    case SaveIdentity(p, key, _) => PutIdentity(t, p, if key.Some? then key.value else []); hide Puts;
    case _ =>
  }

  lemma StepAnswers(peers: set<NodeId>, kv: Flat, t: Typed, op: Op)
    requires Simulates(peers, kv, t)
    requires PeerOf(op).Some? ==> PeerOf(op).value in peers
    ensures FlatStep(kv, op).1 == TypedStep(t, op).1
  {
    hide KeyOf, Simulates;
    match op
    case LoadSession(p) => SlotAgrees(peers, kv, t, Session(p));
    case SubDeviceSessions(p) => SlotAgrees(peers, kv, t, Session(p));
    case ContainsSession(p) => SlotAgrees(peers, kv, t, Session(p));
    case DeleteSession(p) => SlotAgrees(peers, kv, t, Session(p));
    case IsTrusted(p, _) => SlotAgrees(peers, kv, t, Identity(p));
    case _ => LocalAnswers(peers, kv, t, op);
  }

  lemma LocalAnswers(peers: set<NodeId>, kv: Flat, t: Typed, op: Op)
    requires Simulates(peers, kv, t)
    requires PeerOf(op).None? || op.StoreSession? || op.SaveIdentity?
    ensures FlatStep(kv, op).1 == TypedStep(t, op).1
  {
    hide KeyOf, Simulates;
    match op
    case LoadKey(kind, id) => SlotAgrees(peers, kv, t, PreKey(kind, id));
    case ContainsKey(kind, id) => SlotAgrees(peers, kv, t, PreKey(kind, id));
    case RemoveKey(kind, id) => SlotAgrees(peers, kv, t, PreKey(kind, id));
    case IdentityKeyPair =>
      SlotAgrees(peers, kv, t, IdPub);
      SlotAgrees(peers, kv, t, IdPriv);
    case RegistrationId => SlotAgrees(peers, kv, t, RegId);
    case NextPreKeyId => SlotAgrees(peers, kv, t, NextPkId);
    case _ =>
  }

  lemma SlotAgrees(peers: set<NodeId>, kv: Flat, t: Typed, slot: Slot)
    requires Simulates(peers, kv, t) && Concerns(peers, slot)
    ensures FlatGet(kv, KeyOf(slot)) == TypedGet(t, slot)
  {
  }

  lemma StepSimulates(peers: set<NodeId>, kv: Flat, t: Typed, op: Op)
    requires NoAlias(peers) && Simulates(peers, kv, t)
    requires PeerOf(op).Some? ==> PeerOf(op).value in peers
    ensures Simulates(peers, FlatStep(kv, op).0, TypedStep(t, op).0)
    ensures FlatStep(kv, op).1 == TypedStep(t, op).1
  {
    hide Simulates, KeyOf, TypedGet, Puts, NoAlias;
    StepAnswers(peers, kv, t, op);
    if op.SetIdentityKeyPair? {
      KeyPairSimulates(peers, kv, t, op.pub, op.priv);
    } else {
      hide FlatStep, TypedStep;
      FlatWrites(kv, op);
      TypedWrites(t, op);
      if Written(op).Some? {
        assert Concerns(peers, Written(op).value.0);
        PutSimulates(peers, kv, t, Written(op).value.0, Written(op).value.1,
                     FlatStep(kv, op).0, TypedStep(t, op).0);
      }
    }
  }

  lemma KeyPairSimulates(peers: set<NodeId>, kv: Flat, t: Typed, pub: seq<byte>, priv: seq<byte>)
    requires NoAlias(peers) && Simulates(peers, kv, t)
    ensures Simulates(peers, kv[KeyOf(IdPub) := Blob(pub)][KeyOf(IdPriv) := Blob(priv)],
                      t.(idPub := Some(pub), idPriv := Some(priv)))
  {
    var kv1, t1 := kv[KeyOf(IdPub) := Blob(pub)], t.(idPub := Some(pub));
    var t2 := t1.(idPriv := Some(priv));
    hide Simulates, KeyOf, NoAlias;
    assert Puts(t, t1, IdPub, Some(Blob(pub))) && Puts(t1, t2, IdPriv, Some(Blob(priv)));
    hide TypedGet, Puts;
    PutSimulates(peers, kv, t, IdPub, Some(Blob(pub)), kv1, t1);
    PutSimulates(peers, kv1, t1, IdPriv, Some(Blob(priv)), kv1[KeyOf(IdPriv) := Blob(priv)], t2);
  }

  /** Peers with distinct folds: every call sequence gets the answers of the separate stores. */
  lemma {:induction false} FlatRefinesTyped(peers: set<NodeId>, ops: seq<Op>)
    requires NoAlias(peers) && Involves(peers, ops)
    ensures Simulates(peers, FlatRun(ops).0, TypedRun(ops).0)
    ensures FlatRun(ops).1 == TypedRun(ops).1
  {
    if ops != [] {
      var n := |ops| - 1;
      FlatRefinesTyped(peers, ops[..n]);
      hide Simulates, FlatStep, TypedStep, NoAlias;
      StepSimulates(peers, FlatRun(ops[..n]).0, TypedRun(ops[..n]).0, ops[n]);
    }
  }

  /** Peers with the same fold: storing one's session makes the other appear to have one. */
  lemma AliasShows(a: NodeId, b: NodeId, record: seq<byte>)
    requires a != b && Fold(a) == Fold(b)
    ensures var ops := [StoreSession(a, record, true), ContainsSession(b)];
            FlatRun(ops).1 == [Ok, Flag(true)] && TypedRun(ops).1 == [Ok, Flag(false)]
  {
    var store, look := StoreSession(a, record, true), ContainsSession(b);
    KeyOfIff(Session(a), Session(b));
    RunStep([], store);
    RunStep([store], look);
    assert [] + [store] == [store] && [store] + [look] == [store, look];
    hide KeyOf, Fold, FlatRun, TypedRun;
  }

  lemma RunStep(ops: seq<Op>, op: Op)
    ensures FlatRun([]) == (map[], []) && TypedRun([]) == (NoKeys, [])
    ensures FlatRun(ops + [op]).0 == FlatStep(FlatRun(ops).0, op).0
    ensures FlatRun(ops + [op]).1 == FlatRun(ops).1 + [FlatStep(FlatRun(ops).0, op).1]
    ensures TypedRun(ops + [op]).0 == TypedStep(TypedRun(ops).0, op).0
    ensures TypedRun(ops + [op]).1 == TypedRun(ops).1 + [TypedStep(TypedRun(ops).0, op).1]
  {
  }

  /**
   * Main result: on a set of peers the flat namespace is indistinguishable from separate typed
   * stores, over all call sequences, if and only if no two of the peers share a fold.
   */
  lemma FaithfulIff(peers: set<NodeId>)
    ensures (forall ops :: Involves(peers, ops) ==> FlatRun(ops).1 == TypedRun(ops).1) <==> NoAlias(peers)
  {
    if NoAlias(peers) {
      forall ops | Involves(peers, ops) ensures FlatRun(ops).1 == TypedRun(ops).1 {
        FlatRefinesTyped(peers, ops);
      }
    } else {
      hide FlatRun, TypedRun, Fold;
      var a, b :| a in peers && b in peers && Fold(a) == Fold(b) && a != b;
      var ops := [StoreSession(a, [], true), ContainsSession(b)];
      AliasShows(a, b, []);
      assert Involves(peers, ops) && FlatRun(ops).1[1] != TypedRun(ops).1[1];
    }
  }

  // ----- what each callback answers after the others -----

  lemma EraseTwice(kv: Flat, k: string)
    ensures kv - {k} - {k} == kv - {k}
  {
  }

  /** A session is what was last stored, until it is deleted; an empty record counts as none to load. */
  lemma SessionLaws(kv: Flat, p: NodeId, r: seq<byte>)
    ensures var stored := FlatStep(kv, StoreSession(p, r, true)).0;
            && FlatStep(stored, LoadSession(p)).1 == (if r != [] then Record(r) else Absent)
            && FlatStep(stored, ContainsSession(p)).1 == Flag(true)
            && FlatStep(stored, SubDeviceSessions(p)).1 == Count(1)
            && FlatStep(stored, DeleteSession(p)).1 == Flag(true)
    ensures var deleted := FlatStep(kv, DeleteSession(p)).0;
            && FlatStep(deleted, LoadSession(p)).1 == Absent
            && FlatStep(deleted, ContainsSession(p)).1 == Flag(false)
            && FlatStep(deleted, SubDeviceSessions(p)).1 == Count(0)
            && FlatStep(deleted, DeleteSession(p)) == (deleted, Flag(false))
    ensures FlatStep(kv, StoreSession(p, r, false)) == (kv, Failed)
  {
    hide KeyOf;
    EraseTwice(kv, KeyOf(Session(p)));
  }

  /** The first key seen is trusted, and from then on only that one, until it is erased. */
  lemma IdentityLaws(kv: Flat, p: NodeId, key: seq<byte>, other: seq<byte>)
    ensures var saved := FlatStep(kv, SaveIdentity(p, Some(key), true)).0;
            FlatStep(saved, IsTrusted(p, other)).1 == Flag(other == key)
    ensures var erased := FlatStep(kv, SaveIdentity(p, None, true)).0;
            FlatStep(erased, IsTrusted(p, other)).1 == Flag(true)
    ensures FlatStep(kv, SaveIdentity(p, Some(key), false)) == (kv, Ok)
    ensures FlatStep(map[], IsTrusted(p, other)).1 == Flag(true)
  {
    hide KeyOf;
  }

  /** A prekey is what was last stored under its id, until it is removed, and only once. */
  lemma KeyLaws(kv: Flat, kind: KeyKind, id: u32, r: seq<byte>)
    ensures var stored := FlatStep(kv, StoreKey(kind, id, r, true)).0;
            && FlatStep(stored, LoadKey(kind, id)).1 == Record(r)
            && FlatStep(stored, ContainsKey(kind, id)).1 == Flag(true)
            && FlatStep(stored, RemoveKey(kind, id)).1 == Ok
    ensures var removed := FlatStep(kv, RemoveKey(kind, id)).0;
            && FlatStep(removed, LoadKey(kind, id)).1 == Absent
            && FlatStep(removed, ContainsKey(kind, id)).1 == Flag(false)
            && FlatStep(removed, RemoveKey(kind, id)) == (removed, Failed)
    ensures FlatStep(kv, StoreKey(kind, id, r, false)) == (kv, Failed)
  {
    hide KeyOf;
    EraseTwice(kv, KeyOf(PreKey(kind, id)));
  }

  // ----- the callbacks themselves -----

  class Nvs {
    var kv: Flat

    constructor ()
      ensures kv == map[]
    {
      kv := map[];
    }

    method GetBlob(key: string) returns (r: Option<seq<byte>>)
      ensures r == if HasBlob(kv, key) then Some(kv[key].bytes) else None
    {
      if key in kv && kv[key].Blob? {
        return Some(kv[key].bytes);
      }
      return None;
    }

    method SetBlob(key: string, b: seq<byte>, wrote: bool) returns (ok: bool)
      modifies this
      ensures ok == wrote && kv == if wrote then old(kv)[key := Blob(b)] else old(kv)
    {
      if wrote {
        kv := kv[key := Blob(b)];
      }
      return wrote;
    }

    method Erase(key: string) returns (ok: bool)
      modifies this
      ensures ok == (key in old(kv)) && kv == old(kv) - {key}
    {
      ok := key in kv;
      kv := kv - {key};
    }

    method LoadSession(p: NodeId) returns (r: Result)
      ensures (kv, r) == FlatStep(kv, Op.LoadSession(p))
    {
      var key := NodeKey(p, "ss_");
      var rec := GetBlob(key);
      if rec.None? || |rec.value| == 0 {
        return Absent;
      }
      return Record(rec.value);
    }

    method SubDeviceSessions(p: NodeId) returns (r: Result)
      ensures (kv, r) == FlatStep(kv, Op.SubDeviceSessions(p))
    {
      var key := NodeKey(p, "ss_");
      var rec := GetBlob(key);
      return Count(if rec.Some? then 1 else 0);
    }

    method StoreSession(p: NodeId, record: seq<byte>, wrote: bool) returns (r: Result)
      modifies this
      ensures (kv, r) == FlatStep(old(kv), Op.StoreSession(p, record, wrote))
    {
      var key := NodeKey(p, "ss_");
      var ok := SetBlob(key, record, wrote);
      return if ok then Ok else Failed;
    }

    method ContainsSession(p: NodeId) returns (r: Result)
      ensures (kv, r) == FlatStep(kv, Op.ContainsSession(p))
    {
      var key := NodeKey(p, "ss_");
      var rec := GetBlob(key);
      return Flag(rec.Some?);
    }

    method DeleteSession(p: NodeId) returns (r: Result)
      modifies this
      ensures (kv, r) == FlatStep(old(kv), Op.DeleteSession(p))
    {
      var key := NodeKey(p, "ss_");
      var ok := Erase(key);
      return Flag(ok);
    }

    method LoadKey(kind: KeyKind, id: u32) returns (r: Result)
      ensures (kv, r) == FlatStep(kv, Op.LoadKey(kind, id))
    {
      var rec := GetBlob(Prefix(kind) + Decimal(id));
      return if rec.Some? then Record(rec.value) else Absent;
    }

    method StoreKey(kind: KeyKind, id: u32, record: seq<byte>, wrote: bool) returns (r: Result)
      modifies this
      ensures (kv, r) == FlatStep(old(kv), Op.StoreKey(kind, id, record, wrote))
    {
      var ok := SetBlob(Prefix(kind) + Decimal(id), record, wrote);
      return if ok then Ok else Failed;
    }

    method ContainsKey(kind: KeyKind, id: u32) returns (r: Result)
      ensures (kv, r) == FlatStep(kv, Op.ContainsKey(kind, id))
    {
      var rec := GetBlob(Prefix(kind) + Decimal(id));
      return Flag(rec.Some?);
    }

    method RemoveKey(kind: KeyKind, id: u32) returns (r: Result)
      modifies this
      ensures (kv, r) == FlatStep(old(kv), Op.RemoveKey(kind, id))
    {
      var ok := Erase(Prefix(kind) + Decimal(id));
      return if ok then Ok else Failed;
    }

    method SaveIdentity(p: NodeId, key: Option<seq<byte>>, wrote: bool) returns (r: Result)
      modifies this
      ensures (kv, r) == FlatStep(old(kv), Op.SaveIdentity(p, key, wrote))
    {
      var name := NodeKey(p, "ik_");
      if key.None? {
        var _ := Erase(name);
      } else {
        var _ := SetBlob(name, key.value, wrote);
      }
      return Ok;
    }

    /** Trust on first use. */
    method IsTrusted(p: NodeId, keyData: seq<byte>) returns (r: Result)
      ensures (kv, r) == FlatStep(kv, Op.IsTrusted(p, keyData))
    {
      var name := NodeKey(p, "ik_");
      var stored := GetBlob(name);
      if stored.None? {
        return Flag(true);
      }
      return Flag(|stored.value| == |keyData| && stored.value == keyData);
    }

    method IdentityKeyPair() returns (r: Result)
      ensures (kv, r) == FlatStep(kv, Op.IdentityKeyPair)
    {
      var pub := GetBlob("id_pub");
      if pub.None? { return Failed; }
      var priv := GetBlob("id_priv");
      if priv.None? { return Failed; }
      return KeyPair(pub.value, priv.value);
    }

    method RegistrationId() returns (r: Result)
      ensures (kv, r) == FlatStep(kv, Op.RegistrationId)
    {
      if "reg_id" in kv && kv["reg_id"].U32? {
        return Count(kv["reg_id"].number);
      }
      return Failed;
    }
  }
}
