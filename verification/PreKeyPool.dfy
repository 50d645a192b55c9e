/**
 * The one-time prekey pool (firmware/components/crypto/pcrypto.c): batches of 20, a persistent
 * counter, refill when the pool runs dry. Power may fail between any two flash writes, and any
 * single write may fail unnoticed.
 */
module PreKeyPool {
  import opened Bytes
  import BundleCodec
  import opened KeyNames
  import opened KeyStore

  const BATCH_SIZE := 20
  const SIGNED_ID: u32 := 1
  const PUB_CAP := 64

  /** What libsignal makes of a stored record: its public key, or nothing. */
  type Decoder = seq<byte> -> Option<seq<byte>>

  datatype SignedKey = SignedKey(id: u32, pub: seq<byte>, sig: seq<byte>)

  /** The library's answers: what a record holds, and which id the key helper gives key `i` of a batch. */
  datatype Library = Library(
    decode: Decoder, decodeSigned: seq<byte> -> Option<SignedKey>, idAt: (u32, nat) -> u32)

  type Batch = b: seq<seq<byte>> | |b| == BATCH_SIZE witness seq(BATCH_SIZE, _ => [])

  datatype Write = Put(slot: Slot, value: Value) | Erase(slot: Slot)

  function ApplyWrite(kv: Flat, w: Write): Flat {
    match w
    case Put(slot, v) => kv[KeyOf(slot) := v]
    case Erase(slot) => kv - {KeyOf(slot)}
  }

  /** The store after a list of writes of which only the marked ones reached the flash. */
  function Apply(kv: Flat, ws: seq<Write>, mask: seq<bool>): Flat
    requires |mask| == |ws|
  {
    if ws == [] then kv
    else
      var n := |ws| - 1;
      var kv' := Apply(kv, ws[..n], mask[..n]);
      if mask[n] then ApplyWrite(kv', ws[n]) else kv'
  }

  /** next_pre_key_id: one above every id ever generated; old stores have exactly the first batch. */
  function NextId(kv: Flat): u32 {
    var k := KeyOf(NextPkId);
    if HasNumber(kv, k) then kv[k].number else FIRST_BATCH + 1
  }

  /** The helper numbers the batch upwards from `start`, and the counter after it does not wrap. */
  predicate Consecutive(lib: Library, start: u32) {
    && 1 <= start && start + BATCH_SIZE < 0x1_0000_0000
    && forall i :: 0 <= i < BATCH_SIZE ==> lib.idAt(start, i) == start + i
  }

  /** The 32-bit sum that becomes the counter. */
  function PastBatch(start: u32): u32 {
    (start + BATCH_SIZE) % 0x1_0000_0000
  }

  /** generate_pre_key_batch: the records first, the counter last. */
  function BatchWrites(lib: Library, start: u32, batch: Batch): (ws: seq<Write>)
    ensures |ws| == BATCH_SIZE + 1
  {
    RecordWrites(lib, start, batch) + [Put(NextPkId, U32(PastBatch(start)))]
  }

  function RecordWrites(lib: Library, start: u32, batch: Batch): (ws: seq<Write>)
    ensures |ws| == BATCH_SIZE
  {
    seq(BATCH_SIZE, i requires 0 <= i < BATCH_SIZE => Put(PreKey(OneTime, lib.idAt(start, i)), Blob(batch[i])))
  }

  /** A stored one-time prekey that can go into a bundle. */
  predicate Usable(kv: Flat, decode: Decoder, id: u32) {
    var k := KeyOf(PreKey(OneTime, id));
    HasBlob(kv, k) && decode(kv[k].bytes).Some? && |decode(kv[k].bytes).value| <= PUB_CAP
  }

  /** find_unused_pre_key from `id` upwards, below the counter. */
  function FindFrom(kv: Flat, decode: Decoder, id: nat): (r: Option<u32>)
    ensures r.Some? ==> id <= r.value < NextId(kv) && Usable(kv, decode, r.value)
    ensures r.Some? ==> forall j: u32 :: id <= j < r.value ==> !Usable(kv, decode, j)
    ensures r.None? ==> forall j: u32 :: id <= j < NextId(kv) ==> !Usable(kv, decode, j)
    decreases NextId(kv) - id
  {
    if id >= NextId(kv) then None
    else if Usable(kv, decode, id) then Some(id)
    else FindFrom(kv, decode, id + 1)
  }

  function FindUnused(kv: Flat, decode: Decoder): Option<u32> {
    FindFrom(kv, decode, 1)
  }

  // ----- the machine -----

  /** New key material drawn at first boot; the batch may fail to generate. */
  datatype Material = Material(
    pub: seq<byte>, priv: seq<byte>, regId: u32, batch: Option<Batch>, signed: seq<byte>)

  /** identity_ensure_generated */
  function BootWrites(kv: Flat, lib: Library, m: Material): seq<Write> {
    if HasBlob(kv, KeyOf(IdPub)) then []
    else
      [Put(IdPub, Blob(m.pub)), Put(IdPriv, Blob(m.priv)), Put(RegId, U32(m.regId))] +
      if m.batch.None? then []
      else BatchWrites(lib, 1, m.batch.value) + [Put(PreKey(Signed, SIGNED_ID), Blob(m.signed))]
  }

  /** The refill of pcrypto_local_bundle, if it comes to that. */
  function RefillWrites(kv: Flat, lib: Library, batch: Option<Batch>): seq<Write> {
    if HasNumber(kv, KeyOf(RegId)) && FindUnused(kv, lib.decode).None? && batch.Some?
    then BatchWrites(lib, NextId(kv), batch.value) else []
  }

  /** What goes into the bundle, read from the store as it is after the refill. */
  function BundleFields(kv: Flat, lib: Library): (f: Option<BundleCodec.Fields>)
    ensures f.Some? ==> HasBlob(kv, KeyOf(IdPub)) && FindUnused(kv, lib.decode) == Some(f.value.preKeyId)
  {
    var id := FindUnused(kv, lib.decode);
    var spk, idPub := KeyOf(PreKey(Signed, SIGNED_ID)), KeyOf(IdPub);
    if HasNumber(kv, KeyOf(RegId)) && id.Some? && HasBlob(kv, spk) && HasBlob(kv, idPub)
       && lib.decodeSigned(kv[spk].bytes).Some?
    then
      var s := lib.decodeSigned(kv[spk].bytes).value;
      Some(BundleCodec.Fields(kv[KeyOf(RegId)].number, id.value, PublicPart(kv, lib.decode, id.value),
                              s.id, s.pub, s.sig, kv[idPub].bytes))
    else None
  }

  function PublicPart(kv: Flat, decode: Decoder, id: u32): seq<byte>
    requires Usable(kv, decode, id)
  {
    decode(kv[KeyOf(PreKey(OneTime, id))].bytes).value
  }

  /** The bundle, if it fits its buffer. */
  function BundleOf(kv: Flat, lib: Library): Option<seq<byte>> {
    var f := BundleFields(kv, lib);
    if f.Some? then BundleCodec.Fitted(f.value) else None
  }

  /** The prekey id in it. */
  function BundleId(kv: Flat, lib: Library): (id: Option<u32>)
    ensures id.Some? ==> HasBlob(kv, KeyOf(IdPub)) && FindUnused(kv, lib.decode) == id
  {
    if BundleOf(kv, lib).Some? then Some(BundleFields(kv, lib).value.preKeyId) else None
  }

  datatype Pool = Pool(kv: Flat, published: set<u32>)

  /**
   * `mask` says which writes reach the flash. Power failure is a mask that is false from some point
   * on, with `completed` false, so that no bundle leaves the device.
   */
  datatype Step =
    | Boot(material: Material, mask: seq<bool>)
    | Request(batch: Option<Batch>, mask: seq<bool>, completed: bool)
    | Remove(id: u32, wrote: bool)
    | Unrelated(write: Write)

  function StepWrites(kv: Flat, lib: Library, step: Step): seq<Write> {
    match step
    case Boot(m, _) => BootWrites(kv, lib, m)
    case Request(batch, _, _) => RefillWrites(kv, lib, batch)
    case Remove(id, _) => [Erase(PreKey(OneTime, id))]
    case Unrelated(w) => [w]
  }

  function StepMask(step: Step): seq<bool> {
    match step
    case Boot(_, mask) => mask
    case Request(_, mask, _) => mask
    case Remove(_, wrote) => [wrote]
    case Unrelated(_) => [true]
  }

  predicate Enabled(p: Pool, lib: Library, step: Step) {
    && |StepMask(step)| == |StepWrites(p.kv, lib, step)|
    && (step.Request? && StepWrites(p.kv, lib, step) != [] ==> Consecutive(lib, NextId(p.kv)))
    && (step.Unrelated? ==>
          step.write.slot.Session? || step.write.slot.Identity? ||
          (step.write.slot.PreKey? && step.write.slot.kind.Signed?))
  }

  function After(p: Pool, lib: Library, step: Step): Flat {
    if Enabled(p, lib, step) then Apply(p.kv, StepWrites(p.kv, lib, step), StepMask(step)) else p.kv
  }

  /** The prekey id in the bundle this step hands out, if it hands out one. */
  function Publishes(p: Pool, lib: Library, step: Step): Option<u32> {
    if Enabled(p, lib, step) && step.Request? && step.completed
    then BundleId(After(p, lib, step), lib) else None
  }

  function Next(p: Pool, lib: Library, step: Step): Pool {
    var id := Publishes(p, lib, step);
    Pool(After(p, lib, step), p.published + if id.Some? then {id.value} else {})
  }

  function Run(p: Pool, lib: Library, steps: seq<Step>): Pool {
    if steps == [] then p
    else Next(Run(p, lib, steps[..|steps| - 1]), lib, steps[|steps| - 1])
  }

  // ----- what every run keeps -----

  ghost predicate Inv(p: Pool) {
    && NextId(p.kv) >= 1
    && (forall id :: id in p.published ==> 1 <= id < NextId(p.kv))
    && (!HasBlob(p.kv, KeyOf(IdPub)) ==> p.published == {})
  }

  /** A write to one slot leaves every other name alone. */
  lemma WriteElsewhere(kv: Flat, w: Write, slot: Slot)
    requires w.slot != slot && !Aliased(w.slot, slot)
    ensures FlatGet(ApplyWrite(kv, w), KeyOf(slot)) == FlatGet(kv, KeyOf(slot))
  {
    KeyOfIff(w.slot, slot);
    hide KeyOf, Aliased;
  }

  ghost predicate Avoids(ws: seq<Write>, slot: Slot) {
    forall i :: 0 <= i < |ws| ==> ws[i].slot != slot
  }

  /** Only a write that reaches the flash can change what a name holds. */
  lemma {:induction false} LostWrites(kv: Flat, ws: seq<Write>, mask: seq<bool>, slot: Slot)
    requires |mask| == |ws| && !slot.Session? && !slot.Identity?
    requires forall i :: 0 <= i < |ws| && mask[i] ==> ws[i].slot != slot
    ensures FlatGet(Apply(kv, ws, mask), KeyOf(slot)) == FlatGet(kv, KeyOf(slot))
  {
    if ws != [] {
      var n := |ws| - 1;
      LostWrites(kv, ws[..n], mask[..n], slot);
      if mask[n] { WriteElsewhere(Apply(kv, ws[..n], mask[..n]), ws[n], slot); }
      hide KeyOf;
    }
  }

  lemma WritesElsewhere(kv: Flat, ws: seq<Write>, mask: seq<bool>, slot: Slot)
    requires |mask| == |ws| && Avoids(ws, slot) && !slot.Session? && !slot.Identity?
    ensures FlatGet(Apply(kv, ws, mask), KeyOf(slot)) == FlatGet(kv, KeyOf(slot))
  {
    LostWrites(kv, ws, mask, slot);
  }

  /** The counter after a batch is either untouched or moved past the whole batch. */
  lemma BatchCounter(kv: Flat, lib: Library, start: u32, batch: Batch, mask: seq<bool>)
    requires |mask| == BATCH_SIZE + 1
    ensures NextId(Apply(kv, BatchWrites(lib, start, batch), mask)) ==
            if mask[BATCH_SIZE] then PastBatch(start) else NextId(kv)
  {
    var ws := BatchWrites(lib, start, batch);
    assert ws[..BATCH_SIZE] == RecordWrites(lib, start, batch);
    WritesElsewhere(kv, ws[..BATCH_SIZE], mask[..BATCH_SIZE], NextPkId);
    hide KeyOf, RecordWrites;
  }

  lemma RequestKeeps(p: Pool, lib: Library, step: Step)
    requires Inv(p) && Enabled(p, lib, step) && step.Request?
    ensures Inv(Next(p, lib, step)) && NextId(Next(p, lib, step).kv) >= NextId(p.kv)
  {
    var ws := StepWrites(p.kv, lib, step);
    var kv' := Apply(p.kv, ws, step.mask);
    assert Avoids(ws, IdPub);
    WritesElsewhere(p.kv, ws, step.mask, IdPub);
    if ws != [] {
      BatchCounter(p.kv, lib, NextId(p.kv), step.batch.value, step.mask);
    }
    hide KeyOf, Apply, FindUnused, StepWrites;
    assert NextId(kv') >= NextId(p.kv);
    assert HasBlob(kv', KeyOf(IdPub)) == HasBlob(p.kv, KeyOf(IdPub));
  }

  /** First boot happens only on a store nothing was ever published from. */
  lemma BootKeeps(p: Pool, lib: Library, step: Step)
    requires Inv(p) && Enabled(p, lib, step) && step.Boot?
    ensures Inv(Next(p, lib, step))
    ensures p.published != {} ==> Next(p, lib, step) == p
  {
    if HasBlob(p.kv, KeyOf(IdPub)) {
      hide KeyOf;
    } else {
      var ws := BootWrites(p.kv, lib, step.material);
      BootCounter(p.kv, ws, step.mask);
      hide KeyOf, Apply, BootWrites;
    }
  }

  /** Every value a boot can write to the counter is 21. */
  lemma {:induction false} BootCounter(kv: Flat, ws: seq<Write>, mask: seq<bool>)
    requires |mask| == |ws| && NextId(kv) >= 1
    requires forall i :: 0 <= i < |ws| && ws[i].slot == NextPkId ==> ws[i] == Put(NextPkId, U32(FIRST_BATCH + 1))
    ensures NextId(Apply(kv, ws, mask)) >= 1
  {
    if ws != [] {
      var n := |ws| - 1;
      BootCounter(kv, ws[..n], mask[..n]);
      if ws[n].slot != NextPkId {
        WriteElsewhere(Apply(kv, ws[..n], mask[..n]), ws[n], NextPkId);
      }
      hide KeyOf;
    }
  }

  lemma SingleWriteKeeps(p: Pool, lib: Library, step: Step)
    requires Inv(p) && Enabled(p, lib, step) && (step.Remove? || step.Unrelated?)
    ensures Inv(Next(p, lib, step)) && NextId(Next(p, lib, step).kv) == NextId(p.kv)
  {
    var ws := StepWrites(p.kv, lib, step);
    WritesElsewhere(p.kv, ws, StepMask(step), NextPkId);
    WritesElsewhere(p.kv, ws, StepMask(step), IdPub);
    hide KeyOf, Apply;
  }

  lemma StepKeeps(p: Pool, lib: Library, step: Step)
    requires Inv(p)
    ensures Inv(Next(p, lib, step))
    ensures p.published != {} ==> NextId(Next(p, lib, step).kv) >= NextId(p.kv)
  {
    if Enabled(p, lib, step) {
      match step
      case Boot(_, _) => BootKeeps(p, lib, step);
      case Request(_, _, _) => RequestKeeps(p, lib, step);
      case _ => SingleWriteKeeps(p, lib, step);
    }
  }

  lemma {:induction false} EveryRunKeeps(p: Pool, lib: Library, steps: seq<Step>)
    requires Inv(p)
    ensures Inv(Run(p, lib, steps)) && p.published <= Run(p, lib, steps).published
  {
    if steps != [] {
      hide Next, Inv;
      EveryRunKeeps(p, lib, steps[..|steps| - 1]);
      StepKeeps(Run(p, lib, steps[..|steps| - 1]), lib, steps[|steps| - 1]);
      PublishedGrows(Run(p, lib, steps[..|steps| - 1]), lib, steps[|steps| - 1]);
    }
  }

  lemma PublishedGrows(p: Pool, lib: Library, step: Step)
    ensures p.published <= Next(p, lib, step).published
  {
  }

  /**
   * Main result: from a new device or a legacy store, in any run with crashes and lost writes, no
   * step ever writes key material under an id that has been in a bundle, and every published id
   * stays below the counter.
   */
  lemma PublishedIdsAreNeverRegenerated(p: Pool, lib: Library, steps: seq<Step>, step: Step, w: Write)
    requires Inv(p)
    requires var now := Run(p, lib, steps);
             Enabled(now, lib, step) && w in StepWrites(now.kv, lib, step)
    ensures var now := Run(p, lib, steps);
            && (forall id :: id in now.published ==> 1 <= id < NextId(now.kv))
            && (w.Put? && w.slot.PreKey? && w.slot.kind.OneTime? ==> w.slot.id !in now.published)
  {
    EveryRunKeeps(p, lib, steps);
    hide KeyOf, FindUnused, Run;
  }

  /** A new device, and a device from before the counter existed, both start out fine. */
  lemma Beginnings(kv: Flat, published: set<u32>)
    requires !HasNumber(kv, KeyOf(NextPkId))
    requires HasBlob(kv, KeyOf(IdPub)) || published == {}
    requires forall id :: id in published ==> 1 <= id <= FIRST_BATCH
    ensures Inv(Pool(kv, published))
  {
  }

  // ----- what is stored and what peers get to read -----

  /** The last of several writes to one name is what it holds, if it reached the flash. */
  lemma {:induction false} LastWriteHolds(kv: Flat, ws: seq<Write>, mask: seq<bool>, i: nat)
    requires |mask| == |ws| && i < |ws| && mask[i] && ws[i].Put?
    requires !ws[i].slot.Session? && !ws[i].slot.Identity?
    requires forall j :: i < j < |ws| ==> ws[j].slot != ws[i].slot
    ensures FlatGet(Apply(kv, ws, mask), KeyOf(ws[i].slot)) == Some(ws[i].value)
  {
    var n := |ws| - 1;
    hide KeyOf;
    if i < n {
      LastWriteHolds(kv, ws[..n], mask[..n], i);
      WriteElsewhere(Apply(kv, ws[..n], mask[..n]), ws[n], ws[i].slot);
    }
  }

  /** Key `i` of a batch lies under the id `start + i`, and the counter behind the last one. */
  lemma BatchIsStored(kv: Flat, lib: Library, start: u32, batch: Batch, mask: seq<bool>, i: nat)
    requires Consecutive(lib, start) && |mask| == 21 && i < 20
    ensures var kv' := Apply(kv, BatchWrites(lib, start, batch), mask);
            && (mask[i] ==> FlatGet(kv', "pk_" + Decimal(start + i)) == Some(Blob(batch[i])))
            && (mask[20] ==> FlatGet(kv', "next_pk_id") == Some(U32(start + 20)))
  {
    var ws := BatchWrites(lib, start, batch);
    assert ws[i] == Put(PreKey(OneTime, start + i), Blob(batch[i]));
    assert KeyOf(PreKey(OneTime, start + i)) == "pk_" + Decimal(start + i) && KeyOf(NextPkId) == "next_pk_id";
    hide KeyOf, Apply, Decimal;
    if mask[i] { LastWriteHolds(kv, ws, mask, i); }
    if mask[20] { LastWriteHolds(kv, ws, mask, 20); }
  }

  /** Every write of a first boot reaches the flash. */
  ghost predicate AllWritten(mask: seq<bool>) {
    forall i :: 0 <= i < |mask| ==> mask[i]
  }

  lemma BootWritesAt(kv: Flat, lib: Library, m: Material, i: nat)
    requires !HasBlob(kv, "id_pub") && m.batch.Some? && Consecutive(lib, 1) && i < 25
    ensures var ws := BootWrites(kv, lib, m);
            && |ws| == 25
            && ws[i] == if i == 0 then Put(IdPub, Blob(m.pub))
                        else if i == 1 then Put(IdPriv, Blob(m.priv))
                        else if i == 2 then Put(RegId, U32(m.regId))
                        else if i < 23 then Put(PreKey(OneTime, i - 2), Blob(m.batch.value[i - 3]))
                        else if i == 23 then Put(NextPkId, U32(21))
                        else Put(PreKey(Signed, 1), Blob(m.signed))
  {
    hide Decimal;
  }

  /** No write of a first boot overwrites another. */
  lemma BootWriteHolds(kv: Flat, lib: Library, m: Material, mask: seq<bool>, i: nat)
    requires !HasBlob(kv, "id_pub") && m.batch.Some? && Consecutive(lib, 1) && i < 25
    requires |BootWrites(kv, lib, m)| == 25 && |mask| == 25 && AllWritten(mask)
    ensures var w := BootWrites(kv, lib, m)[i];
            w.Put? && FlatGet(Apply(kv, BootWrites(kv, lib, m), mask), KeyOf(w.slot)) == Some(w.value)
  {
    var ws := BootWrites(kv, lib, m);
    BootWritesAt(kv, lib, m, i);
    forall j | i < j < 25 ensures ws[j].slot != ws[i].slot {
      BootWritesAt(kv, lib, m, j);
    }
    hide KeyOf, Apply, BootWrites, HasBlob, Consecutive;
    LastWriteHolds(kv, ws, mask, i);
  }

  lemma Names(id: u32)
    ensures KeyOf(IdPub) == "id_pub" && KeyOf(IdPriv) == "id_priv"
    ensures KeyOf(RegId) == "reg_id" && KeyOf(NextPkId) == "next_pk_id"
    ensures KeyOf(PreKey(OneTime, id)) == "pk_" + Decimal(id) && KeyOf(PreKey(Signed, id)) == "spk_" + Decimal(id)
  {
    hide Decimal;
  }

  /** After a complete first boot each piece of new key material lies under its own name. */
  lemma FirstBootIsStored(kv: Flat, lib: Library, m: Material, mask: seq<bool>, i: nat)
    requires !HasBlob(kv, "id_pub") && m.batch.Some? && Consecutive(lib, 1) && i < 20
    requires |mask| == |BootWrites(kv, lib, m)| && AllWritten(mask)
    ensures var kv' := Apply(kv, BootWrites(kv, lib, m), mask);
            && FlatGet(kv', "id_pub") == Some(Blob(m.pub)) && FlatGet(kv', "id_priv") == Some(Blob(m.priv))
            && FlatGet(kv', "reg_id") == Some(U32(m.regId)) && FlatGet(kv', "next_pk_id") == Some(U32(21))
            && FlatGet(kv', "pk_" + Decimal(1 + i)) == Some(Blob(m.batch.value[i]))
            && FlatGet(kv', "spk_" + Decimal(1)) == Some(Blob(m.signed))
  {
    hide KeyOf, Apply, Decimal, BootWrites, HasBlob, AllWritten, FlatGet, Consecutive;
    Names(1 + i);
    Names(1);
    BootWritesAt(kv, lib, m, 0);
    BootWriteHolds(kv, lib, m, mask, 0);
    BootWritesAt(kv, lib, m, 1);
    BootWriteHolds(kv, lib, m, mask, 1);
    BootWritesAt(kv, lib, m, 2);
    BootWriteHolds(kv, lib, m, mask, 2);
    BootWritesAt(kv, lib, m, 3 + i);
    BootWriteHolds(kv, lib, m, mask, 3 + i);
    BootWritesAt(kv, lib, m, 23);
    BootWriteHolds(kv, lib, m, mask, 23);
    BootWritesAt(kv, lib, m, 24);
    BootWriteHolds(kv, lib, m, mask, 24);
  }

  /** A one-time record a peer could use: it decodes to a public key of at most 64 bytes. */
  ghost predicate UsableRecord(kv: Flat, decode: Decoder, id: u32) {
    var key := "pk_" + Decimal(id);
    HasBlob(kv, key) && decode(kv[key].bytes).Some? && |decode(kv[key].bytes).value| <= 64
  }

  lemma UsableIsRecord(kv: Flat, decode: Decoder, id: u32)
    ensures UsableRecord(kv, decode, id) <==> Usable(kv, decode, id)
    ensures UsableRecord(kv, decode, id) ==> Some(PublicPart(kv, decode, id)) == decode(kv["pk_" + Decimal(id)].bytes)
  {
    Names(id);
    hide KeyOf, Decimal;
  }

  /**
   * Where every field of a bundle comes from: the registration id and the identity key from their
   * own names, the signed prekey from record 1, and the one-time prekey from the first usable record
   * below the counter. `f` is what goes into the bundle.
   */
  ghost predicate ComesFrom(kv: Flat, lib: Library, f: BundleCodec.Fields) {
    && FlatGet(kv, "reg_id") == Some(U32(f.registrationId))
    && FlatGet(kv, "id_pub") == Some(Blob(f.identityPub))
    && HasBlob(kv, "spk_" + Decimal(1))
    && lib.decodeSigned(kv["spk_" + Decimal(1)].bytes)
       == Some(SignedKey(f.signedPreKeyId, f.signedPreKeyPub, f.signedPreKeySig))
    && 1 <= f.preKeyId < NextId(kv) && UsableRecord(kv, lib.decode, f.preKeyId)
    && (forall id: u32 :: 1 <= id < f.preKeyId ==> !UsableRecord(kv, lib.decode, id))
    && lib.decode(kv["pk_" + Decimal(f.preKeyId)].bytes) == Some(f.preKeyPub)
  }

  lemma FieldsComeFrom(kv: Flat, lib: Library, f: BundleCodec.Fields)
    ensures BundleFields(kv, lib) == Some(f) <==> ComesFrom(kv, lib, f)
  {
    Names(1);
    OffersIff(kv, lib.decode, f.preKeyId);
    forall id: u32
      ensures UsableRecord(kv, lib.decode, id) <==> Usable(kv, lib.decode, id)
    {
      UsableIsRecord(kv, lib.decode, id);
    }
    UsableIsRecord(kv, lib.decode, f.preKeyId);
    hide Decimal, KeyOf, FindUnused, UsableRecord, Usable, PublicPart, NextId;
  }

  /**
   * Exactly which bundle a store gives: peers decode `f` from it if and only if every part of `f` is
   * what the store holds and all of it fits 199 bytes.
   */
  lemma BundleIff(kv: Flat, lib: Library, f: BundleCodec.Fields)
    ensures (BundleOf(kv, lib).Some? && BundleCodec.Decoding(BundleOf(kv, lib).value) == Some(f)) <==>
            && ComesFrom(kv, lib, f)
            && 16 + |f.preKeyPub| + |f.signedPreKeyPub| + |f.signedPreKeySig| + |f.identityPub| <= 199
  {
    FieldsComeFrom(kv, lib, f);
    if BundleFields(kv, lib).Some? { BundleCodec.FittedIff(BundleFields(kv, lib).value); }
    hide ComesFrom, BundleFields, BundleCodec.Fitted, BundleCodec.Decoding;
  }

  /**
   * Main result: a complete first boot and one request publish exactly what was generated. The bundle
   * carries the new registration id, the public half of the identity, one-time key 1 of the batch and
   * the signed prekey, and the identity callback returns both halves the right way round.
   */
  lemma FirstBundle(p: Pool, lib: Library, m: Material, mask: seq<bool>, more: Option<Batch>, f: BundleCodec.Fields)
    requires !HasBlob(p.kv, "id_pub") && m.batch.Some? && Consecutive(lib, 1)
    requires |mask| == 25 && AllWritten(mask)
    requires f.registrationId == m.regId && f.identityPub == m.pub && f.preKeyId == 1
    requires lib.decode(m.batch.value[0]) == Some(f.preKeyPub) && |f.preKeyPub| <= 64
    requires lib.decodeSigned(m.signed) == Some(SignedKey(f.signedPreKeyId, f.signedPreKeyPub, f.signedPreKeySig))
    ensures var booted := Next(p, lib, Boot(m, mask));
            var request := Request(more, [], true);
            var kv := After(booted, lib, request);
            var fits := 16 + |f.preKeyPub| + |f.signedPreKeyPub| + |f.signedPreKeySig| + |f.identityPub| <= 199;
            && Enabled(p, lib, Boot(m, mask)) && Enabled(booted, lib, request)
            && (BundleOf(kv, lib).Some? <==> fits)
            && (fits ==> BundleCodec.Decoding(BundleOf(kv, lib).value) == Some(f))
            && Publishes(booted, lib, request) == (if fits then Some(1) else None)
            && FlatStep(kv, IdentityKeyPair) == (kv, KeyPair(m.pub, m.priv))
  {
    var booted := Next(p, lib, Boot(m, mask));
    BootHappens(p, lib, m, mask);
    FirstBootIsStored(p.kv, lib, m, mask, 0);
    hide Enabled, After, BootWrites, Decimal, Apply, Consecutive, HasBlob, ComesFrom;
    BootedFields(booted.kv, lib, m, f);
    FieldsComeFrom(booted.kv, lib, f);
    NothingToRefill(booted, lib, more, f);
    BundleCodec.FittedIff(f);
    KeyPairReads(booted.kv, m.pub, m.priv);
    hide BundleFields, BundleCodec.Fitted, BundleCodec.Decoding, FindUnused, KeyOf, FlatStep, FlatGet;
  }

  lemma BootHappens(p: Pool, lib: Library, m: Material, mask: seq<bool>)
    requires !HasBlob(p.kv, "id_pub") && m.batch.Some? && Consecutive(lib, 1) && |mask| == 25
    ensures |BootWrites(p.kv, lib, m)| == 25 && Enabled(p, lib, Boot(m, mask))
    ensures Next(p, lib, Boot(m, mask)).kv == Apply(p.kv, BootWrites(p.kv, lib, m), mask)
  {
    BootWritesAt(p.kv, lib, m, 0);
    hide BootWrites, Apply, Consecutive;
  }

  lemma KeyPairReads(kv: Flat, pub: seq<byte>, priv: seq<byte>)
    requires FlatGet(kv, "id_pub") == Some(Blob(pub)) && FlatGet(kv, "id_priv") == Some(Blob(priv))
    ensures FlatStep(kv, IdentityKeyPair) == (kv, KeyPair(pub, priv))
  {
  }

  lemma BootedFields(kv: Flat, lib: Library, m: Material, f: BundleCodec.Fields)
    requires m.batch.Some?
    requires FlatGet(kv, "id_pub") == Some(Blob(m.pub)) && FlatGet(kv, "reg_id") == Some(U32(m.regId))
    requires FlatGet(kv, "next_pk_id") == Some(U32(21))
    requires FlatGet(kv, "pk_" + Decimal(1)) == Some(Blob(m.batch.value[0]))
    requires FlatGet(kv, "spk_" + Decimal(1)) == Some(Blob(m.signed))
    requires f.registrationId == m.regId && f.identityPub == m.pub && f.preKeyId == 1
    requires lib.decode(m.batch.value[0]) == Some(f.preKeyPub) && |f.preKeyPub| <= 64
    requires lib.decodeSigned(m.signed) == Some(SignedKey(f.signedPreKeyId, f.signedPreKeyPub, f.signedPreKeySig))
    ensures ComesFrom(kv, lib, f)
  {
    Names(1);
    hide Decimal;
    assert NextId(kv) == 21;
  }

  lemma NothingToRefill(p: Pool, lib: Library, more: Option<Batch>, f: BundleCodec.Fields)
    requires BundleFields(p.kv, lib) == Some(f)
    ensures Enabled(p, lib, Request(more, [], true)) && After(p, lib, Request(more, [], true)) == p.kv
  {
    hide KeyOf, FindUnused, BundleFields;
  }

  /** The parts of a bundle that a refill does not touch. */
  ghost predicate FixedParts(kv: Flat, lib: Library, f: BundleCodec.Fields) {
    && FlatGet(kv, "reg_id") == Some(U32(f.registrationId))
    && FlatGet(kv, "id_pub") == Some(Blob(f.identityPub))
    && HasBlob(kv, "spk_" + Decimal(1))
    && lib.decodeSigned(kv["spk_" + Decimal(1)].bytes)
       == Some(SignedKey(f.signedPreKeyId, f.signedPreKeyPub, f.signedPreKeySig))
  }

  lemma BatchSpares(kv: Flat, lib: Library, start: u32, batch: Batch, mask: seq<bool>, slot: Slot)
    requires Consecutive(lib, start) && |mask| == 21
    requires slot.IdPub? || slot.RegId? || (slot.PreKey? && (slot.kind.OneTime? ==> slot.id < start))
    ensures FlatGet(Apply(kv, BatchWrites(lib, start, batch), mask), KeyOf(slot)) == FlatGet(kv, KeyOf(slot))
  {
    hide KeyOf, Apply;
    assert Avoids(BatchWrites(lib, start, batch), slot);
    WritesElsewhere(kv, BatchWrites(lib, start, batch), mask, slot);
  }

  lemma RefilledFields(kv: Flat, lib: Library, batch: Batch, mask: seq<bool>, f: BundleCodec.Fields)
    requires FixedParts(kv, lib, f) && Consecutive(lib, NextId(kv)) && |mask| == 21 && AllWritten(mask)
    requires forall id: u32 :: 1 <= id < NextId(kv) ==> !UsableRecord(kv, lib.decode, id)
    requires f.preKeyId == NextId(kv) && lib.decode(batch[0]) == Some(f.preKeyPub) && |f.preKeyPub| <= 64
    ensures var kv' := Apply(kv, BatchWrites(lib, NextId(kv), batch), mask);
            ComesFrom(kv', lib, f) && NextId(kv') == NextId(kv) + 20
  {
    var start := NextId(kv);
    var kv' := Apply(kv, BatchWrites(lib, start, batch), mask);
    Names(1);
    Names(start);
    BatchIsStored(kv, lib, start, batch, mask, 0);
    BatchSpares(kv, lib, start, batch, mask, IdPub);
    BatchSpares(kv, lib, start, batch, mask, RegId);
    BatchSpares(kv, lib, start, batch, mask, PreKey(Signed, 1));
    assert NextId(kv') == start + 20 by { hide Apply, Decimal, BatchWrites; }
    hide Apply, Decimal, BatchWrites, NextId, KeyOf, Consecutive;
    forall id: u32 | 1 <= id < start ensures !UsableRecord(kv', lib.decode, id) {
      assert !UsableRecord(kv, lib.decode, id);
      Names(id);
      BatchSpares(kv, lib, start, batch, mask, PreKey(OneTime, id));
    }
  }

  /** A pool that has run dry refills: the next bundle carries the first key of the new batch. */
  lemma DryPoolRefills(p: Pool, lib: Library, batch: Batch, mask: seq<bool>, f: BundleCodec.Fields)
    requires FixedParts(p.kv, lib, f) && Consecutive(lib, NextId(p.kv)) && |mask| == 21 && AllWritten(mask)
    requires forall id: u32 :: 1 <= id < NextId(p.kv) ==> !UsableRecord(p.kv, lib.decode, id)
    requires f.preKeyId == NextId(p.kv) && lib.decode(batch[0]) == Some(f.preKeyPub) && |f.preKeyPub| <= 64
    ensures var request := Request(Some(batch), mask, true);
            var kv := After(p, lib, request);
            var fits := 16 + |f.preKeyPub| + |f.signedPreKeyPub| + |f.signedPreKeySig| + |f.identityPub| <= 199;
            && Enabled(p, lib, request) && NextId(kv) == NextId(p.kv) + 20
            && Publishes(p, lib, request) == (if fits then Some(NextId(p.kv)) else None)
            && (fits ==> BundleOf(kv, lib).Some? && BundleCodec.Decoding(BundleOf(kv, lib).value) == Some(f))
  {
    var request := Request(Some(batch), mask, true);
    RequestRefills(p, lib, batch, mask, f);
    RefilledFields(p.kv, lib, batch, mask, f);
    hide Enabled, Apply, BatchWrites, NextId, Consecutive, FixedParts, ComesFrom, UsableRecord, After;
    FieldsComeFrom(After(p, lib, request), lib, f);
    BundleCodec.FittedIff(f);
    hide BundleFields, BundleCodec.Fitted, BundleCodec.Decoding, FindUnused;
  }

  lemma RequestRefills(p: Pool, lib: Library, batch: Batch, mask: seq<bool>, f: BundleCodec.Fields)
    requires FixedParts(p.kv, lib, f) && Consecutive(lib, NextId(p.kv)) && |mask| == 21
    requires forall id: u32 :: 1 <= id < NextId(p.kv) ==> !UsableRecord(p.kv, lib.decode, id)
    ensures Enabled(p, lib, Request(Some(batch), mask, true))
    ensures After(p, lib, Request(Some(batch), mask, true)) == Apply(p.kv, BatchWrites(lib, NextId(p.kv), batch), mask)
  {
    Names(1);
    if FindUnused(p.kv, lib.decode).Some? {
      var id := FindUnused(p.kv, lib.decode).value;
      OffersIff(p.kv, lib.decode, id);
      UsableIsRecord(p.kv, lib.decode, id);
      assert false;
    }
    hide Apply, BatchWrites, NextId, FindUnused, KeyOf, Decimal, Consecutive;
  }

  // ----- a first boot cut short -----

  /** An identity without a registration id. */
  ghost predicate Stranded(kv: Flat) {
    HasBlob(kv, "id_pub") && !HasNumber(kv, "reg_id")
  }

  lemma StepStranded(p: Pool, lib: Library, step: Step)
    requires Stranded(p.kv)
    ensures Stranded(After(p, lib, step)) && Publishes(p, lib, step) == None
  {
    Names(1);
    hide KeyOf, Decimal, FindUnused;
    if Enabled(p, lib, step) && (step.Remove? || step.Unrelated?) {
      WritesElsewhere(p.kv, StepWrites(p.kv, lib, step), StepMask(step), IdPub);
      WritesElsewhere(p.kv, StepWrites(p.kv, lib, step), StepMask(step), RegId);
      hide Apply;
    }
  }

  /** Such a device never generates its missing keys and never publishes a bundle, in any run. */
  lemma {:induction false} StrandedForGood(p: Pool, lib: Library, steps: seq<Step>)
    requires Stranded(p.kv)
    ensures Stranded(Run(p, lib, steps).kv) && Run(p, lib, steps).published == p.published
  {
    if steps != [] {
      hide Stranded, After, Publishes;
      var n := |steps| - 1;
      StrandedForGood(p, lib, steps[..n]);
      StepStranded(Run(p, lib, steps[..n]), lib, steps[n]);
    }
  }

  /** A mask that lets the first `n` of `count` writes through: power fails after them. */
  function CutAfter(n: nat, count: nat): (mask: seq<bool>)
    ensures |mask| == count && forall i :: 0 <= i < count ==> (mask[i] <==> i < n)
  {
    seq(count, i => i < n)
  }

  lemma BootSlots(kv: Flat, lib: Library, m: Material)
    requires !HasBlob(kv, "id_pub")
    ensures var ws := BootWrites(kv, lib, m);
            && |ws| == (if m.batch.Some? then 25 else 3)
            && ws[0] == Put(IdPub, Blob(m.pub)) && ws[1] == Put(IdPriv, Blob(m.priv))
            && ws[2] == Put(RegId, U32(m.regId))
            && forall i :: 0 <= i < |ws| ==> (ws[i].slot == IdPub <==> i == 0) && (ws[i].slot == RegId <==> i == 2)
  {
    hide Decimal;
  }

  /** Exactly the power failures between the first and the third write of a first boot strand it. */
  lemma StrandedIff(kv: Flat, lib: Library, m: Material, n: nat)
    requires !HasBlob(kv, "id_pub") && !HasNumber(kv, "reg_id") && n <= |BootWrites(kv, lib, m)|
    ensures var ws := BootWrites(kv, lib, m);
            Stranded(Apply(kv, ws, CutAfter(n, |ws|))) <==> 1 <= n <= 2
  {
    var ws := BootWrites(kv, lib, m);
    var mask := CutAfter(n, |ws|);
    BootSlots(kv, lib, m);
    Names(1);
    hide KeyOf, Decimal, BootWrites, Apply, CutAfter;
    if n >= 1 { LastWriteHolds(kv, ws, mask, 0); } else { LostWrites(kv, ws, mask, IdPub); }
    if n >= 3 { LastWriteHolds(kv, ws, mask, 2); } else { LostWrites(kv, ws, mask, RegId); }
  }

  /** A peer that decodes the bundle reads the id that counts as published. */
  lemma PublishedIsWhatPeersRead(p: Pool, lib: Library, step: Step)
    requires Publishes(p, lib, step).Some?
    ensures var bundle := BundleOf(After(p, lib, step), lib);
            && bundle.Some?
            && BundleCodec.Decoding(bundle.value).Some?
            && BundleCodec.Decoding(bundle.value).value.preKeyId == Publishes(p, lib, step).value
  {
    hide After, KeyOf, BundleCodec.Decoding, BundleCodec.Encoding;
    var f := BundleFields(After(p, lib, step), lib).value;
    hide BundleFields;
    BundleCodec.DecodeEncoding(f, []);
    assert BundleCodec.Encoding(f) + [] == BundleCodec.Encoding(f);
  }

  // ----- a bundle does not reserve its prekey -----

  /** The next bundle would carry prekey `id`. */
  ghost predicate Offers(kv: Flat, decode: Decoder, id: u32) {
    HasBlob(kv, KeyOf(IdPub)) && FindUnused(kv, decode) == Some(id)
  }

  /** Prekey `id` has been consumed, and the counter is past it. */
  ghost predicate Consumed(kv: Flat, id: u32) {
    HasBlob(kv, KeyOf(IdPub)) && id < NextId(kv) && FlatGet(kv, KeyOf(PreKey(OneTime, id))) == None
  }

  ghost predicate Removed(steps: seq<Step>, id: u32) {
    exists k :: 0 <= k < |steps| && steps[k] == Remove(id, true)
  }

  lemma OffersIff(kv: Flat, decode: Decoder, id: u32)
    ensures FindUnused(kv, decode) == Some(id) <==>
            1 <= id < NextId(kv) && Usable(kv, decode, id) && forall j: u32 :: 1 <= j < id ==> !Usable(kv, decode, j)
  {
    hide KeyOf, Usable, NextId;
  }

  /** Other records, or the loss of some one-time prekeys but not of `id`, leave the offer standing. */
  lemma OfferStands(kv: Flat, kv': Flat, decode: Decoder, id: u32)
    requires Offers(kv, decode, id)
    requires HasBlob(kv', KeyOf(IdPub)) && NextId(kv') == NextId(kv)
    requires FlatGet(kv', KeyOf(PreKey(OneTime, id))) == FlatGet(kv, KeyOf(PreKey(OneTime, id)))
    requires forall j: u32 :: FlatGet(kv', KeyOf(PreKey(OneTime, j))).Some? ==>
               FlatGet(kv', KeyOf(PreKey(OneTime, j))) == FlatGet(kv, KeyOf(PreKey(OneTime, j)))
    ensures Offers(kv', decode, id)
  {
    OffersIff(kv, decode, id);
    OffersIff(kv', decode, id);
    forall j: u32 | 1 <= j < id ensures !Usable(kv', decode, j) {
      assert !Usable(kv, decode, j);
      hide KeyOf, NextId, FindUnused;
    }
    hide KeyOf, NextId, FindUnused;
  }

  lemma SingleWriteOffers(p: Pool, lib: Library, step: Step, id: u32)
    requires Offers(p.kv, lib.decode, id) && Enabled(p, lib, step) && (step.Remove? || step.Unrelated?)
    requires step != Remove(id, true)
    ensures Offers(After(p, lib, step), lib.decode, id)
  {
    var ws, mask, kv' := StepWrites(p.kv, lib, step), StepMask(step), After(p, lib, step);
    WritesElsewhere(p.kv, ws, mask, NextPkId);
    WritesElsewhere(p.kv, ws, mask, IdPub);
    forall j: u32 | step != Remove(j, true)
      ensures FlatGet(kv', KeyOf(PreKey(OneTime, j))) == FlatGet(p.kv, KeyOf(PreKey(OneTime, j)))
    {
      if step != Remove(j, false) { WritesElsewhere(p.kv, ws, mask, PreKey(OneTime, j)); }
      hide KeyOf;
    }
    forall j: u32 | step == Remove(j, true) ensures FlatGet(kv', KeyOf(PreKey(OneTime, j))) == None {
      hide KeyOf;
    }
    hide KeyOf, Apply, FindUnused;
    OfferStands(p.kv, kv', lib.decode, id);
  }

  lemma StepOffers(p: Pool, lib: Library, step: Step, id: u32)
    requires Offers(p.kv, lib.decode, id)
    ensures if step == Remove(id, true) then Consumed(After(p, lib, step), id)
            else Offers(After(p, lib, step), lib.decode, id)
  {
    if step == Remove(id, true) {
      RemovalConsumes(p, lib, id);
    } else if Enabled(p, lib, step) && (step.Remove? || step.Unrelated?) {
      SingleWriteOffers(p, lib, step, id);
    } else {
      hide KeyOf, FindUnused;
    }
  }

  lemma RemovalConsumes(p: Pool, lib: Library, id: u32)
    requires Offers(p.kv, lib.decode, id)
    ensures Consumed(After(p, lib, Remove(id, true)), id)
  {
    var ws := StepWrites(p.kv, lib, Remove(id, true));
    WritesElsewhere(p.kv, ws, [true], NextPkId);
    WritesElsewhere(p.kv, ws, [true], IdPub);
    hide KeyOf, FindUnused;
  }

  lemma BatchAvoids(lib: Library, start: u32, batch: Batch, id: u32)
    requires Consecutive(lib, start) && id < start
    ensures Avoids(BatchWrites(lib, start, batch), IdPub)
    ensures Avoids(BatchWrites(lib, start, batch), PreKey(OneTime, id))
    ensures PastBatch(start) >= start
  {
  }

  /** A refill numbers its keys from the counter up, so a consumed id stays consumed. */
  lemma RequestConsumed(p: Pool, lib: Library, step: Step, id: u32)
    requires Consumed(p.kv, id) && Enabled(p, lib, step) && step.Request?
    ensures Consumed(After(p, lib, step), id)
  {
    var ws, mask := StepWrites(p.kv, lib, step), StepMask(step);
    hide KeyOf, FindUnused, BatchWrites, Consecutive, NextId, PastBatch, Avoids;
    if ws != [] {
      BatchAvoids(lib, NextId(p.kv), step.batch.value, id);
      hide Apply;
      WritesElsewhere(p.kv, ws, mask, IdPub);
      WritesElsewhere(p.kv, ws, mask, PreKey(OneTime, id));
      BatchCounter(p.kv, lib, NextId(p.kv), step.batch.value, mask);
    }
  }

  /** No later step brings a consumed id back. */
  lemma StepConsumed(p: Pool, lib: Library, step: Step, id: u32)
    requires Consumed(p.kv, id)
    ensures Consumed(After(p, lib, step), id)
  {
    if Enabled(p, lib, step) {
      var ws, mask := StepWrites(p.kv, lib, step), StepMask(step);
      if step.Remove? && step.id == id {
        WritesElsewhere(p.kv, ws, mask, NextPkId);
        WritesElsewhere(p.kv, ws, mask, IdPub);
      } else if step.Request? {
        RequestConsumed(p, lib, step, id);
      } else if !step.Boot? {
        WritesElsewhere(p.kv, ws, mask, IdPub);
        WritesElsewhere(p.kv, ws, mask, PreKey(OneTime, id));
        WritesElsewhere(p.kv, ws, mask, NextPkId);
      }
    }
    hide KeyOf, FindUnused, Apply;
  }

  lemma {:induction false} SinceThen(p: Pool, lib: Library, steps: seq<Step>, id: u32)
    requires Offers(p.kv, lib.decode, id)
    ensures if Removed(steps, id) then Consumed(Run(p, lib, steps).kv, id)
            else Offers(Run(p, lib, steps).kv, lib.decode, id)
  {
    if steps != [] {
      hide Offers, Consumed, After, Publishes;
      var n := |steps| - 1;
      var before := Run(p, lib, steps[..n]);
      assert steps == steps[..n] + [steps[n]];
      SinceThen(p, lib, steps[..n], id);
      assert Removed(steps, id) <==> Removed(steps[..n], id) || steps[n] == Remove(id, true);
      if Removed(steps[..n], id) {
        StepConsumed(before, lib, steps[n], id);
      } else {
        StepOffers(before, lib, steps[n], id);
      }
    }
  }

  /**
   * Looking for an unused prekey reserves nothing: after a bundle with `id` and any further steps,
   * the next bundle that carries a prekey carries `id` again exactly when no removal of `id`
   * reached the flash in between.
   */
  lemma OfferedAgainIff(p: Pool, lib: Library, first: Step, between: seq<Step>, second: Step, id: u32)
    requires Publishes(p, lib, first) == Some(id)
    requires Publishes(Run(Next(p, lib, first), lib, between), lib, second).Some?
    ensures Publishes(Run(Next(p, lib, first), lib, between), lib, second) == Some(id) <==> !Removed(between, id)
  {
    var now := Run(Next(p, lib, first), lib, between);
    assert Offers(Next(p, lib, first).kv, lib.decode, id) by { hide KeyOf, FindUnused, After; }
    SinceThen(Next(p, lib, first), lib, between, id);
    if Removed(between, id) {
      StepConsumed(now, lib, second, id);
    } else {
      StepOffers(now, lib, second, id);
    }
    hide KeyOf, Run, After, NextId;
  }

  // ----- the code -----

  class KeyPool {
    const nvs: Nvs

    constructor (nvs: Nvs)
      ensures this.nvs == nvs
    {
      this.nvs := nvs;
    }

    /** nvs_set_u32 */
    method SetNumber(slot: Slot, n: u32, wrote: bool)
      modifies nvs
      ensures nvs.kv == if wrote then ApplyWrite(old(nvs.kv), Put(slot, U32(n))) else old(nvs.kv)
    {
      if wrote {
        nvs.kv := nvs.kv[KeyOf(slot) := U32(n)];
      }
    }

    /** next_pre_key_id */
    method NextPreKeyId() returns (next: u32)
      ensures next == NextId(nvs.kv)
      ensures next == if HasNumber(nvs.kv, "next_pk_id") then nvs.kv["next_pk_id"].number else 21
    {
      next := FIRST_BATCH + 1;
      if "next_pk_id" in nvs.kv && nvs.kv["next_pk_id"].U32? {
        next := nvs.kv["next_pk_id"].number;
      }
    }

    /** generate_pre_key_batch: after each write the store is what a power failure would leave. */
    method GenerateBatch(lib: Library, start: u32, batch: Batch, mask: seq<bool>)
      requires |mask| == BATCH_SIZE + 1
      modifies nvs
      ensures nvs.kv == Apply(old(nvs.kv), BatchWrites(lib, start, batch), mask)
    {
      hide KeyOf, Decimal;
      ghost var ws := BatchWrites(lib, start, batch);
      var i := 0;
      while i < BATCH_SIZE
        invariant 0 <= i <= BATCH_SIZE
        invariant nvs.kv == Apply(old(nvs.kv), ws[..i], mask[..i])
      {
        assert ws[..i + 1][..i] == ws[..i] && mask[..i + 1][..i] == mask[..i];
        assert ws[i] == Put(PreKey(OneTime, lib.idAt(start, i)), Blob(batch[i]));
        SetPreKey(lib.idAt(start, i), batch[i], mask[i]);
        i := i + 1;
      }
      assert ws[..BATCH_SIZE + 1] == ws && mask[..BATCH_SIZE + 1] == mask;
      SetNumber(NextPkId, (start + BATCH_SIZE) % 0x1_0000_0000, mask[BATCH_SIZE]);
    }

    method SetPreKey(id: u32, record: seq<byte>, wrote: bool)
      modifies nvs
      ensures nvs.kv == if wrote then ApplyWrite(old(nvs.kv), Put(PreKey(OneTime, id), Blob(record))) else old(nvs.kv)
    {
      var _ := nvs.SetBlob("pk_" + Decimal(id), record, wrote);
    }

    /** find_unused_pre_key: the id, and the public key that goes with it. */
    method FindUnusedPreKey(decode: Decoder) returns (r: Option<u32>, pub: seq<byte>)
      requires NextId(nvs.kv) >= 1
      ensures r == FindUnused(nvs.kv, decode)
      ensures r.Some? ==> pub == PublicPart(nvs.kv, decode, r.value)
    {
      var next := NextPreKeyId();
      var highest := next - 1;
      var id := 1;
      while id <= highest
        invariant 1 <= id <= highest + 1
        invariant FindFrom(nvs.kv, decode, id) == FindUnused(nvs.kv, decode)
        decreases highest + 1 - id
      {
        var key := UsableKey(decode, id);
        if key.Some? {
          return Some(id), key.value;
        }
        id := id + 1;
      }
      return None, [];
    }

    method UsableKey(decode: Decoder, id: u32) returns (pub: Option<seq<byte>>)
      ensures pub == if Usable(nvs.kv, decode, id) then Some(PublicPart(nvs.kv, decode, id)) else None
    {
      var rec := nvs.GetBlob("pk_" + Decimal(id));
      if rec.None? {
        return None;
      }
      pub := decode(rec.value);
      if pub.Some? && |pub.value| > PUB_CAP {
        return None;
      }
    }

    /** pcrypto_local_bundle */
    method LocalBundle(lib: Library, batch: Option<Batch>, mask: seq<bool>) returns (bundle: Option<seq<byte>>)
      requires NextId(nvs.kv) >= 1 && PastBatch(NextId(nvs.kv)) >= 1
      requires |mask| == |RefillWrites(nvs.kv, lib, batch)|
      modifies nvs
      ensures nvs.kv == Apply(old(nvs.kv), RefillWrites(old(nvs.kv), lib, batch), mask)
      ensures bundle ==
              if old(HasNumber(nvs.kv, KeyOf(RegId))) && (old(FindUnused(nvs.kv, lib.decode)).Some? || batch.Some?)
              then BundleOf(nvs.kv, lib) else None
    {
      hide FindUnused, BatchWrites, PublicPart, BundleCodec.Encoding, BundleCodec.Fits;
      if !("reg_id" in nvs.kv && nvs.kv["reg_id"].U32?) {
        return None;
      }
      var regId := nvs.kv["reg_id"].number;
      ghost var before := nvs.kv;
      var id, preKeyPub := FindUnusedPreKey(lib.decode);
      if id.None? {
        if batch.None? {
          return None;
        }
        var next := NextPreKeyId();
        GenerateBatch(lib, next, batch.value, mask);
        AfterRefill(before, lib, next, batch.value, mask);
        id, preKeyPub := FindUnusedPreKey(lib.decode);
        if id.None? {
          return None;
        }
      }
      var spk := nvs.GetBlob("spk_" + Decimal(SIGNED_ID));
      if spk.None? {
        return None;
      }
      var signed := lib.decodeSigned(spk.value);
      if signed.None? {
        return None;
      }
      var idPub := nvs.GetBlob("id_pub");
      if idPub.None? {
        return None;
      }
      bundle := BundleCodec.LocalBundle(BundleCodec.Fields(
        regId, id.value, preKeyPub, signed.value.id, signed.value.pub, signed.value.sig, idPub.value));
    }

    lemma AfterRefill(kv: Flat, lib: Library, start: u32, batch: Batch, mask: seq<bool>)
      requires NextId(kv) >= 1 && PastBatch(start) >= 1 && |mask| == BATCH_SIZE + 1
      ensures var kv' := Apply(kv, BatchWrites(lib, start, batch), mask);
              NextId(kv') >= 1 && FlatGet(kv', KeyOf(RegId)) == FlatGet(kv, KeyOf(RegId))
    {
      BatchCounter(kv, lib, start, batch, mask);
      WritesElsewhere(kv, BatchWrites(lib, start, batch), mask, RegId);
      hide KeyOf, Apply;
    }

    /** identity_ensure_generated */
    method EnsureIdentity(lib: Library, m: Material, mask: seq<bool>)
      requires |mask| == |BootWrites(nvs.kv, lib, m)|
      modifies nvs
      ensures nvs.kv == Apply(old(nvs.kv), BootWrites(old(nvs.kv), lib, m), mask)
    {
      if "id_pub" in nvs.kv && nvs.kv["id_pub"].Blob? {
        return;
      }
      ghost var before, ws := nvs.kv, BootWrites(nvs.kv, lib, m);
      var _ := nvs.SetBlob("id_pub", m.pub, mask[0]);
      var _ := nvs.SetBlob("id_priv", m.priv, mask[1]);
      SetNumber(RegId, m.regId, mask[2]);
      ThreeWrites(before, ws, mask);
      if m.batch.None? {
        assert ws[..3] == ws && mask[..3] == mask;
        return;
      }
      ghost var three := nvs.kv;
      GenerateBatch(lib, 1, m.batch.value, mask[3..24]);
      assert ws[..24] == ws[..3] + BatchWrites(lib, 1, m.batch.value) && mask[..24] == mask[..3] + mask[3..24];
      ApplyJoin(before, ws[..3], mask[..3], BatchWrites(lib, 1, m.batch.value), mask[3..24]);
      var _ := nvs.SetBlob("spk_" + Decimal(SIGNED_ID), m.signed, mask[24]);
    }

    lemma ThreeWrites(kv: Flat, ws: seq<Write>, mask: seq<bool>)
      requires |ws| == |mask| >= 3
      ensures Apply(kv, ws[..3], mask[..3]) ==
              var kv1 := if mask[0] then ApplyWrite(kv, ws[0]) else kv;
              var kv2 := if mask[1] then ApplyWrite(kv1, ws[1]) else kv1;
              if mask[2] then ApplyWrite(kv2, ws[2]) else kv2
    {
      hide ApplyWrite;
      assert ws[..3][..2] == ws[..2] && ws[..2][..1] == ws[..1] && ws[..1][..0] == [];
      assert mask[..3][..2] == mask[..2] && mask[..2][..1] == mask[..1] && mask[..1][..0] == [];
      assert Apply(kv, ws[..1], mask[..1]) == if mask[0] then ApplyWrite(kv, ws[0]) else kv;
    }
  }

  lemma {:induction false} ApplyJoin(kv: Flat, a: seq<Write>, ma: seq<bool>, b: seq<Write>, mb: seq<bool>)
    requires |ma| == |a| && |mb| == |b|
    ensures Apply(kv, a + b, ma + mb) == Apply(Apply(kv, a, ma), b, mb)
  {
    hide ApplyWrite;
    if b == [] {
      assert a + b == a && ma + mb == ma;
    } else {
      var n := |b| - 1;
      ApplyJoin(kv, a, ma, b[..n], mb[..n]);
      assert (a + b)[..|a + b| - 1] == a + b[..n] && (ma + mb)[..|a + b| - 1] == ma + mb[..n];
    }
  }
}
