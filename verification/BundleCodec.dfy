/**
 * The key bundle, written and parsed twice: by the firmware into a 199-byte buffer
 * (firmware/components/crypto/pcrypto.c) and by the desktop client into a growing vector
 * (client/desktop/src/pcrypto.rs). Both machines are little-endian.
 */
module BundleCodec {
  import opened Bytes

  const BUNDLE_MAX_LEN := 199

  datatype Fields = Fields(
    registrationId: u32,
    preKeyId: u32, preKeyPub: seq<byte>,
    signedPreKeyId: u32, signedPreKeyPub: seq<byte>, signedPreKeySig: seq<byte>,
    identityPub: seq<byte>)

  /** Every blob's length fits its one length byte. */
  predicate Fits(f: Fields) {
    && |f.preKeyPub| <= 255 && |f.signedPreKeyPub| <= 255
    && |f.signedPreKeySig| <= 255 && |f.identityPub| <= 255
  }

  function Lv(b: seq<byte>): (r: seq<byte>)
    requires |b| <= 255
    ensures |r| == 1 + |b|
  {
    [|b|] + b
  }

  /** The wire form of a bundle. */
  function Encoding(f: Fields): seq<byte>
    requires Fits(f)
  {
    Le32(f.registrationId) + Le32(f.preKeyId) + Lv(f.preKeyPub) + Le32(f.signedPreKeyId)
    + Lv(f.signedPreKeyPub) + Lv(f.signedPreKeySig) + Lv(f.identityPub)
  }

  /** A little-endian number and a length-prefixed blob at given offsets. */
  ghost predicate U32Is(d: seq<byte>, at: nat, v: u32) {
    && at + 4 <= |d|
    && d[at] as int + 256 * d[at + 1] as int + 65536 * d[at + 2] as int + 16777216 * d[at + 3] as int == v
  }

  ghost predicate BlobIs(d: seq<byte>, at: nat, b: seq<byte>) {
    at + 1 + |b| <= |d| && d[at] as int == |b| && d[at + 1..at + 1 + |b|] == b
  }

  ghost predicate Suffix(d: seq<byte>, at: nat, rest: seq<byte>) {
    at <= |d| && d[at..] == rest
  }

  lemma U32Here(d: seq<byte>, at: nat, v: u32, rest: seq<byte>)
    requires Suffix(d, at, Le32(v) + rest)
    ensures U32Is(d, at, v) && Suffix(d, at + 4, rest)
  {
    Le32ThenBack(v);
    assert forall i :: 0 <= i < 4 ==> d[at + i] == d[at..][i] == Le32(v)[i];
    assert d[at + 4..] == d[at..][4..];
  }

  lemma BlobHere(d: seq<byte>, at: nat, b: seq<byte>, rest: seq<byte>)
    requires |b| <= 255 && Suffix(d, at, Lv(b) + rest)
    ensures BlobIs(d, at, b) && Suffix(d, at + 1 + |b|, rest)
  {
    assert d[at] == d[at..][0] == |b|;
    assert d[at + 1..at + 1 + |b|] == d[at..][1..1 + |b|] == b;
    assert d[at + 1 + |b|..] == d[at..][1 + |b|..];
  }

  lemma Everything(d: seq<byte>, at: nat)
    ensures Suffix(d, 0, d)
    ensures Suffix(d, at, []) ==> |d| == at
  {
  }

  /** The last three fields of the encoding. */
  ghost function Tail(f: Fields): seq<byte>
    requires Fits(f)
  {
    Lv(f.signedPreKeyPub) + (Lv(f.signedPreKeySig) + (Lv(f.identityPub) + []))
  }

  lemma EncodingNested(f: Fields)
    requires Fits(f)
    ensures Encoding(f) ==
            Le32(f.registrationId) + (Le32(f.preKeyId) + (Lv(f.preKeyPub) + (Le32(f.signedPreKeyId) + Tail(f))))
  {
    hide Le32, Lv;
    Reassociate(Le32(f.registrationId), Le32(f.preKeyId), Lv(f.preKeyPub), Le32(f.signedPreKeyId),
                Lv(f.signedPreKeyPub), Lv(f.signedPreKeySig), Lv(f.identityPub), []);
    assert Encoding(f) + [] == Encoding(f);
  }

  lemma HeadLayout(f: Fields)
    requires Fits(f)
    ensures var d := Encoding(f);
            && U32Is(d, 0, f.registrationId) && U32Is(d, 4, f.preKeyId) && BlobIs(d, 8, f.preKeyPub)
            && U32Is(d, 9 + |f.preKeyPub|, f.signedPreKeyId) && Suffix(d, 13 + |f.preKeyPub|, Tail(f))
  {
    var d := Encoding(f);
    EncodingNested(f);
    Everything(d, 0);
    hide Encoding, Le32, Lv, U32Is, BlobIs, Suffix, Tail;
    U32Here(d, 0, f.registrationId, Le32(f.preKeyId) + (Lv(f.preKeyPub) + (Le32(f.signedPreKeyId) + Tail(f))));
    U32Here(d, 4, f.preKeyId, Lv(f.preKeyPub) + (Le32(f.signedPreKeyId) + Tail(f)));
    BlobHere(d, 8, f.preKeyPub, Le32(f.signedPreKeyId) + Tail(f));
    U32Here(d, 9 + |f.preKeyPub|, f.signedPreKeyId, Tail(f));
  }

  lemma TailLayout(f: Fields, d: seq<byte>, at: nat)
    requires Fits(f) && Suffix(d, at, Tail(f))
    ensures var sig := at + 1 + |f.signedPreKeyPub|;
            var id := sig + 1 + |f.signedPreKeySig|;
            && BlobIs(d, at, f.signedPreKeyPub) && BlobIs(d, sig, f.signedPreKeySig) && BlobIs(d, id, f.identityPub)
            && |d| == id + 1 + |f.identityPub|
  {
    hide Lv, BlobIs, Suffix;
    var sig := at + 1 + |f.signedPreKeyPub|;
    var id := sig + 1 + |f.signedPreKeySig|;
    BlobHere(d, at, f.signedPreKeyPub, Lv(f.signedPreKeySig) + (Lv(f.identityPub) + []));
    BlobHere(d, sig, f.signedPreKeySig, Lv(f.identityPub) + []);
    BlobHere(d, id, f.identityPub, []);
    Everything(d, id + 1 + |f.identityPub|);
  }

  /** The bundle byte by byte: which field is where, and nothing behind the last. */
  lemma EncodingLayout(f: Fields)
    requires Fits(f)
    ensures var d := Encoding(f);
            var spk := 9 + |f.preKeyPub|;
            var sig := spk + 5 + |f.signedPreKeyPub|;
            var id := sig + 1 + |f.signedPreKeySig|;
            && U32Is(d, 0, f.registrationId) && U32Is(d, 4, f.preKeyId) && BlobIs(d, 8, f.preKeyPub)
            && U32Is(d, spk, f.signedPreKeyId) && BlobIs(d, spk + 4, f.signedPreKeyPub)
            && BlobIs(d, sig, f.signedPreKeySig) && BlobIs(d, id, f.identityPub)
            && |d| == id + 1 + |f.identityPub|
  {
    HeadLayout(f);
    hide Encoding, U32Is, BlobIs, Suffix, Tail;
    TailLayout(f, Encoding(f), 13 + |f.preKeyPub|);
  }

  // ----- reading -----

  function TakeU32(d: seq<byte>): Option<(u32, seq<byte>)> {
    if |d| < 4 then None else Some((FromLe32(d[..4]), d[4..]))
  }

  function TakeBlob(d: seq<byte>): Option<(seq<byte>, seq<byte>)> {
    if |d| < 1 then None
    else
      var n: nat := d[0];
      if |d| < 1 + n then None else Some((d[1..1 + n], d[1 + n..]))
  }

  /** What both parsers make of a buffer; trailing bytes are ignored. */
  function Decoding(d: seq<byte>): Option<Fields> {
    match TakeU32(d) case None => None case Some((reg, d1)) =>
    match TakeU32(d1) case None => None case Some((pkId, d2)) =>
    match TakeBlob(d2) case None => None case Some((pk, d3)) =>
    match TakeU32(d3) case None => None case Some((spkId, d4)) =>
    match TakeBlob(d4) case None => None case Some((spk, d5)) =>
    match TakeBlob(d5) case None => None case Some((sig, d6)) =>
    match TakeBlob(d6) case None => None case Some((idPub, _)) =>
    Some(Fields(reg, pkId, pk, spkId, spk, sig, idPub))
  }

  lemma U32At(d: seq<byte>, off: nat)
    requires off <= |d|
    ensures TakeU32(d[off..]) ==
            if off + 4 <= |d| then Some((FromLe32(d[off..off + 4]), d[off + 4..])) else None
  {
  }

  lemma BlobAt(d: seq<byte>, off: nat)
    requires off <= |d|
    ensures TakeBlob(d[off..]) ==
            if off + 1 > |d| then None
            else
              var n: nat := d[off];
              if off + 1 + n > |d| then None else Some((d[off + 1..off + 1 + n], d[off + 1 + n..]))
  {
    if off + 1 <= |d| {
      var n: nat := d[off];
      if off + 1 + n <= |d| {
        assert d[off..][1..1 + n] == d[off + 1..off + 1 + n] && d[off..][1 + n..] == d[off + 1 + n..];
      }
    }
  }

  lemma TakeU32Iff(d: seq<byte>, v: u32, rest: seq<byte>)
    ensures TakeU32(d) == Some((v, rest)) <==> d == Le32(v) + rest
  {
    Le32ThenBack(v);
    hide FromLe32, Le32;
    if |d| >= 4 {
      BackThenLe32(d[..4]);
    }
    if d == Le32(v) + rest {
      assert d[..4] == Le32(v) && d[4..] == rest;
    }
  }

  lemma TakeBlobIff(d: seq<byte>, b: seq<byte>, rest: seq<byte>)
    ensures TakeBlob(d) == Some((b, rest)) <==> |b| <= 255 && d == Lv(b) + rest
  {
  }

  lemma Reassociate(a: seq<byte>, b: seq<byte>, c: seq<byte>, d: seq<byte>, e: seq<byte>, f: seq<byte>,
                    g: seq<byte>, rest: seq<byte>)
    ensures a + b + c + d + e + f + g + rest == a + (b + (c + (d + (e + (f + (g + rest))))))
  {
  }

  /** Decoding takes an encoding apart, whatever follows it. */
  lemma DecodeEncoding(f: Fields, junk: seq<byte>)
    requires Fits(f)
    ensures Decoding(Encoding(f) + junk) == Some(f)
  {
    var d6 := Lv(f.identityPub) + junk;
    var d5 := Lv(f.signedPreKeySig) + d6;
    var d4 := Lv(f.signedPreKeyPub) + d5;
    var d3 := Le32(f.signedPreKeyId) + d4;
    var d2 := Lv(f.preKeyPub) + d3;
    var d1 := Le32(f.preKeyId) + d2;
    var d := Le32(f.registrationId) + d1;
    Reassociate(Le32(f.registrationId), Le32(f.preKeyId), Lv(f.preKeyPub), Le32(f.signedPreKeyId),
                Lv(f.signedPreKeyPub), Lv(f.signedPreKeySig), Lv(f.identityPub), junk);
    TakeU32Iff(d, f.registrationId, d1);
    TakeU32Iff(d1, f.preKeyId, d2);
    TakeBlobIff(d2, f.preKeyPub, d3);
    TakeU32Iff(d3, f.signedPreKeyId, d4);
    TakeBlobIff(d4, f.signedPreKeyPub, d5);
    TakeBlobIff(d5, f.signedPreKeySig, d6);
    TakeBlobIff(d6, f.identityPub, junk);
    hide TakeU32, TakeBlob, Lv, Le32;
  }

  /** Whatever decodes starts with the encoding of what it decodes to. */
  lemma EncodingOfDecoded(d: seq<byte>)
    requires Decoding(d).Some?
    ensures Fits(Decoding(d).value) && Encoding(Decoding(d).value) <= d
  {
    var f := Decoding(d).value;
    var d1 := TakeU32(d).value.1;
    var d2 := TakeU32(d1).value.1;
    var d3 := TakeBlob(d2).value.1;
    var d4 := TakeU32(d3).value.1;
    var d5 := TakeBlob(d4).value.1;
    var d6 := TakeBlob(d5).value.1;
    var junk := TakeBlob(d6).value.1;
    TakeU32Iff(d, f.registrationId, d1);
    TakeU32Iff(d1, f.preKeyId, d2);
    TakeBlobIff(d2, f.preKeyPub, d3);
    TakeU32Iff(d3, f.signedPreKeyId, d4);
    TakeBlobIff(d4, f.signedPreKeyPub, d5);
    TakeBlobIff(d5, f.signedPreKeySig, d6);
    TakeBlobIff(d6, f.identityPub, junk);
    Reassociate(Le32(f.registrationId), Le32(f.preKeyId), Lv(f.preKeyPub), Le32(f.signedPreKeyId),
                Lv(f.signedPreKeyPub), Lv(f.signedPreKeySig), Lv(f.identityPub), junk);
    assert d == Encoding(f) + junk by { hide TakeU32, TakeBlob, Lv, Le32, Decoding; }
  }

  /** Exactly which buffers decode to which fields. */
  lemma DecodingIff(d: seq<byte>, f: Fields)
    ensures Decoding(d) == Some(f) <==> Fits(f) && Encoding(f) <= d
  {
    if Decoding(d) == Some(f) {
      EncodingOfDecoded(d);
    }
    if Fits(f) && Encoding(f) <= d {
      DecodeEncoding(f, d[|Encoding(f)|..]);
      assert d == Encoding(f) + d[|Encoding(f)|..];
    }
  }

  /** A transmission cut short anywhere is rejected. */
  lemma StrictPrefixIsRejected(f: Fields, n: nat)
    requires Fits(f) && n < |Encoding(f)|
    ensures Decoding(Encoding(f)[..n]).None?
  {
    var cut := Encoding(f)[..n];
    if Decoding(cut).Some? {
      DecodingIff(cut, Decoding(cut).value);
      DecodingIff(Encoding(f), Decoding(cut).value);
      DecodingIff(Encoding(f), f);
      assert false;
    }
  }

  // ----- the desktop client -----

  /** put_u32 and put_blob append to a byte vector. */
  class ByteVec {
    var data: seq<byte>

    constructor ()
      ensures data == []
    {
      data := [];
    }

    method PutU32(v: u32)
      modifies this
      ensures data == old(data) + Le32(v)
    {
      data := data + Le32(v);
    }

    method PutBlob(b: seq<byte>) returns (ok: bool)
      modifies this
      ensures ok <==> |b| <= 255
      ensures data == if ok then old(data) + Lv(b) else old(data)
    {
      if |b| > 255 {
        return false;
      }
      data := data + [|b|];
      data := data + b;
      return true;
    }
  }

  /** encode_bundle: fails only on a blob longer than its length byte can say. */
  method EncodeBundle(f: Fields) returns (r: Option<seq<byte>>)
    ensures r == if Fits(f) then Some(Encoding(f)) else None
  {
    hide Le32, Lv;
    var buf := new ByteVec();
    buf.PutU32(f.registrationId);
    assert buf.data == Le32(f.registrationId);
    buf.PutU32(f.preKeyId);
    var ok := buf.PutBlob(f.preKeyPub);
    if !ok { return None; }
    buf.PutU32(f.signedPreKeyId);
    ok := buf.PutBlob(f.signedPreKeyPub);
    if !ok { return None; }
    ok := buf.PutBlob(f.signedPreKeySig);
    if !ok { return None; }
    ok := buf.PutBlob(f.identityPub);
    if !ok { return None; }
    return Some(buf.data);
  }

  /** decode_bundle's position in its input. */
  class Cursor {
    const data: seq<byte>
    var off: nat

    ghost predicate Valid()
      reads this
    {
      off <= |data|
    }

    ghost function Rest(): seq<byte>
      requires Valid()
      reads this
    {
      data[off..]
    }

    constructor (d: seq<byte>)
      ensures Valid() && data == d && Rest() == d
    {
      data := d;
      off := 0;
    }

    /** need */
    method Need(n: nat) returns (ok: bool)
      requires Valid()
      ensures ok <==> off + n <= |data|
    {
      return !(off + n > |data|);
    }

    /** get_u32 */
    method GetU32() returns (v: Option<u32>)
      requires Valid()
      modifies this
      ensures Valid()
      ensures v.Some? == TakeU32(old(Rest())).Some?
      ensures v.Some? ==> TakeU32(old(Rest())).value == (v.value, Rest())
    {
      U32At(data, off);
      var ok := Need(4);
      if !ok { return None; }
      v := Some(FromLe32(data[off..off + 4]));
      off := off + 4;
    }

    /** get_blob */
    method GetBlob() returns (b: Option<seq<byte>>)
      requires Valid()
      modifies this
      ensures Valid()
      ensures b.Some? == TakeBlob(old(Rest())).Some?
      ensures b.Some? ==> TakeBlob(old(Rest())).value == (b.value, Rest())
    {
      BlobAt(data, off);
      var ok := Need(1);
      if !ok { return None; }
      var len: nat := data[off];
      off := off + 1;
      ok := Need(len);
      if !ok { return None; }
      b := Some(data[off..off + len]);
      off := off + len;
    }
  }

  /** decode_bundle: success and failure both say exactly what the buffer starts with. */
  method DecodeBundle(data: seq<byte>) returns (r: Option<Fields>)
    ensures r == Decoding(data)
    ensures r.Some? ==> Fits(r.value) && Encoding(r.value) <= data
    ensures r.None? ==> forall f: Fields :: Fits(f) ==> !(Encoding(f) <= data)
  {
    r := ReadFields(data);
    forall f: Fields ensures Decoding(data) == Some(f) <==> Fits(f) && Encoding(f) <= data {
      DecodingIff(data, f);
    }
    hide Decoding, Encoding;
  }

  /** The field-by-field reading of decode_bundle. */
  method ReadFields(data: seq<byte>) returns (r: Option<Fields>)
    ensures r == Decoding(data)
  {
    hide TakeU32, TakeBlob;
    var c := new Cursor(data);
    var reg := c.GetU32();
    if reg.None? { return None; }
    var pkId := c.GetU32();
    if pkId.None? { return None; }
    var pk := c.GetBlob();
    if pk.None? { return None; }
    var spkId := c.GetU32();
    if spkId.None? { return None; }
    var spk := c.GetBlob();
    if spk.None? { return None; }
    var sig := c.GetBlob();
    if sig.None? { return None; }
    var idPub := c.GetBlob();
    if idPub.None? { return None; }
    return Some(Fields(reg.value, pkId.value, pk.value, spkId.value, spk.value, sig.value, idPub.value));
  }

  // ----- the firmware -----

  /** A bundle without a one-time prekey has no meaningful prekey id either. */
  function Normalize(f: Fields): Fields {
    if f.preKeyPub == [] then f.(preKeyId := 0) else f
  }

  /** bundle_put_u32 and bundle_put_blob write at an advancing offset of a fixed buffer. */
  class BundleBuffer {
    const data: array<byte>
    var off: nat

    ghost predicate Valid()
      reads this
    {
      data.Length == BUNDLE_MAX_LEN && off <= BUNDLE_MAX_LEN
    }

    ghost function Written(): seq<byte>
      requires Valid()
      reads this, data
    {
      data[..off]
    }

    constructor ()
      ensures Valid() && fresh(data) && Written() == []
    {
      data := new byte[BUNDLE_MAX_LEN];
      off := 0;
    }

    method PutU32(v: u32) returns (ok: bool)
      requires Valid()
      modifies this, data
      ensures Valid()
      ensures ok <==> |old(Written())| + 4 <= BUNDLE_MAX_LEN
      ensures Written() == if ok then old(Written()) + Le32(v) else old(Written())
    {
      if off + 4 > data.Length {
        return false;
      }
      Put(Le32(v));
      return true;
    }

    method PutBlob(b: seq<byte>) returns (ok: bool)
      requires Valid()
      modifies this, data
      ensures Valid()
      ensures ok <==> |b| <= 255 && |old(Written())| + 1 + |b| <= BUNDLE_MAX_LEN
      ensures Written() == if ok then old(Written()) + Lv(b) else old(Written())
    {
      if |b| > 255 || off + 1 + |b| > data.Length {
        return false;
      }
      Put([|b|]);
      Put(b);
      return true;
    }

    /** The finished bundle: the buffer and its length. */
    method Finish() returns (b: seq<byte>)
      requires Valid()
      ensures b == Written()
    {
      return data[..off];
    }

    /** memcpy at the offset, then advance. */
    method Put(b: seq<byte>)
      requires Valid() && off + |b| <= BUNDLE_MAX_LEN
      modifies this, data
      ensures Valid()
      ensures Written() == old(Written()) + b
    {
      forall i | 0 <= i < |b| {
        data[off + i] := b[i];
      }
      off := off + |b|;
      assert data[..off] == old(data[..off]) + b;
    }
  }

  /** The encoding, if it fits the firmware's buffer. */
  function Fitted(f: Fields): Option<seq<byte>> {
    if Fits(f) && |Encoding(f)| <= BUNDLE_MAX_LEN then Some(Encoding(f)) else None
  }

  /** It fits exactly if the four blobs and their 16 bytes of frame do, and then it decodes. */
  lemma FittedIff(f: Fields)
    ensures Fitted(f).Some? <==>
            16 + |f.preKeyPub| + |f.signedPreKeyPub| + |f.signedPreKeySig| + |f.identityPub| <= 199
    ensures Fitted(f).Some? ==> |Fitted(f).value| <= 199 && Decoding(Fitted(f).value) == Some(f)
  {
    if Fits(f) {
      EncodingLayout(f);
      DecodeEncoding(f, []);
      assert Encoding(f) + [] == Encoding(f);
    }
    hide Encoding, Decoding, U32Is, BlobIs;
  }

  /**
   * The writing half of pcrypto_local_bundle: the same bytes as the desktop client's, exactly
   * when they fit the 199-byte buffer.
   */
  method LocalBundle(f: Fields) returns (r: Option<seq<byte>>)
    ensures r == Fitted(f)
  {
    hide Le32, Lv, BundleBuffer.Written;
    var out := new BundleBuffer();
    var ok := out.PutU32(f.registrationId);
    if !ok { return None; }
    assert out.Written() == Le32(f.registrationId);
    ok := out.PutU32(f.preKeyId);
    if !ok { return None; }
    ok := out.PutBlob(f.preKeyPub);
    if !ok { return None; }
    ok := out.PutU32(f.signedPreKeyId);
    if !ok { return None; }
    ok := out.PutBlob(f.signedPreKeyPub);
    if !ok { return None; }
    ok := out.PutBlob(f.signedPreKeySig);
    if !ok { return None; }
    ok := out.PutBlob(f.identityPub);
    if !ok { return None; }
    var bytes := out.Finish();
    return Some(bytes);
  }

  /** The parsing half of pcrypto_process_bundle: one offset, one bounds test before every read. */
  method ProcessBundle(data: seq<byte>) returns (r: Option<Fields>)
    ensures r == match Decoding(data)
                 case None => None
                 case Some(f) => Some(if f.preKeyPub == [] then f.(preKeyId := 0) else f)
  {
    hide TakeU32, TakeBlob, FromLe32;
    var off := 0;
    assert data[0..] == data;
    U32At(data, off);
    if off + 4 > |data| { return None; }
    var reg := FromLe32(data[off..off + 4]);
    off := off + 4;

    U32At(data, off);
    if off + 4 > |data| { return None; }
    var pkId := FromLe32(data[off..off + 4]);
    off := off + 4;

    BlobAt(data, off);
    if off + 1 > |data| { return None; }
    var pkLen: nat := data[off];
    off := off + 1;
    if off + pkLen > |data| { return None; }
    var pk := data[off..off + pkLen];
    off := off + pkLen;

    U32At(data, off);
    if off + 4 > |data| { return None; }
    var spkId := FromLe32(data[off..off + 4]);
    off := off + 4;

    BlobAt(data, off);
    if off + 1 > |data| { return None; }
    var spkLen: nat := data[off];
    off := off + 1;
    if off + spkLen > |data| { return None; }
    var spk := data[off..off + spkLen];
    off := off + spkLen;

    BlobAt(data, off);
    if off + 1 > |data| { return None; }
    var sigLen: nat := data[off];
    off := off + 1;
    if off + sigLen > |data| { return None; }
    var sig := data[off..off + sigLen];
    off := off + sigLen;

    BlobAt(data, off);
    if off + 1 > |data| { return None; }
    var idLen: nat := data[off];
    off := off + 1;
    if off + idLen > |data| { return None; }
    var idPub := data[off..off + idLen];

    if pkLen == 0 {
      pkId := 0;
    }
    return Some(Fields(reg, pkId, pk, spkId, spk, sig, idPub));
  }

  /** What the firmware understands of a bundle the desktop client wrote, and the other way round. */
  lemma BothSidesAgree(f: Fields, junk: seq<byte>)
    requires Fits(f)
    ensures var d := Decoding(Encoding(f) + junk);
            && d == Some(f)
            && (Normalize(d.value) == f <==> (f.preKeyPub == [] ==> f.preKeyId == 0))
            && Decoding(Encoding(Normalize(f)) + junk) == Some(Normalize(f))
  {
    DecodeEncoding(f, junk);
    DecodeEncoding(Normalize(f), junk);
  }
}
