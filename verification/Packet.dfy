/**
 * The radio frame: a 39-byte packed header, the payload, and for DATA a 16-byte
 * signature field that is still all zeros (firmware/components/mesh/pkt.c).
 */
module Packet {
  import opened Bytes

  type NodeId = s: seq<byte> | |s| == 8 witness [0, 0, 0, 0, 0, 0, 0, 0]

  type MsgId = s: seq<byte> | |s| == 16 witness [0, 0, 0, 0, 0, 0, 0, 0, 0, 0, 0, 0, 0, 0, 0, 0]

  const HDR_LEN := 39
  const SIG_LEN := 16
  const MAX_PAYLOAD := 200
  const MAX_WIRE_LEN := HDR_LEN + MAX_PAYLOAD + SIG_LEN
  const TTL_DEFAULT: byte := 8

  const DATA: byte := 1
  const BEACON: byte := 2
  const KEY_BUNDLE: byte := 3

  datatype Header = Header(
    kind: byte, msgId: MsgId, src: NodeId, dst: NodeId,
    ttl: byte, timestamp: u32, payloadLen: byte)

  datatype Frame = Frame(header: Header, payload: seq<byte>)

  function SigLen(kind: byte): nat {
    if kind == DATA then SIG_LEN else 0
  }

  function HeaderBytes(h: Header): (b: seq<byte>)
    ensures |b| == HDR_LEN
  {
    [h.kind] + h.msgId + h.src + h.dst + [h.ttl] + Le32(h.timestamp) + [h.payloadLen]
  }

  function ParseHeader(b: seq<byte>): Header
    requires |b| >= HDR_LEN
  {
    Header(b[0], b[1..17], b[17..25], b[25..33], b[33], FromLe32(b[34..38]), b[38])
  }

  /** What a frame looks like on the air. */
  function Wire(h: Header, payload: seq<byte>): (w: seq<byte>)
    requires |payload| < 256
    ensures |w| == HDR_LEN + |payload| + SigLen(h.kind)
  {
    HeaderBytes(h.(payloadLen := |payload|)) + payload + Repeat(0, SigLen(h.kind))
  }

  /** The frame at the start of `b`, if `b` is long enough to hold it. */
  function Parse(b: seq<byte>): (f: Option<Frame>)
  {
    if |b| < HDR_LEN then None
    else
      var h := ParseHeader(b);
      if |b| < HDR_LEN + h.payloadLen + SigLen(h.kind) then None
      else Some(Frame(h, b[HDR_LEN..HDR_LEN + h.payloadLen]))
  }

  lemma HeaderThenParse(h: Header, rest: seq<byte>)
    ensures ParseHeader(HeaderBytes(h) + rest) == h
  {
    var b := HeaderBytes(h) + rest;
    assert b[1..17] == h.msgId;
    assert b[17..25] == h.src;
    assert b[25..33] == h.dst;
    assert b[34..38] == Le32(h.timestamp);
    Le32ThenBack(h.timestamp);
  }

  lemma ParseThenHeader(b: seq<byte>)
    requires |b| >= HDR_LEN
    ensures HeaderBytes(ParseHeader(b)) == b[..HDR_LEN]
  {
    BackThenLe32(b[34..38]);
  }

  /** Encoding then decoding loses nothing, whatever follows the frame in the receive buffer. */
  lemma RoundTrip(h: Header, payload: seq<byte>, junk: seq<byte>)
    requires |payload| < 256
    ensures Parse(Wire(h, payload) + junk) == Some(Frame(h.(payloadLen := |payload|), payload))
  {
    var h' := h.(payloadLen := |payload|);
    var tail := payload + Repeat(0, SigLen(h.kind)) + junk;
    assert Wire(h, payload) + junk == HeaderBytes(h') + tail;
    HeaderThenParse(h', tail);
    assert (HeaderBytes(h') + tail)[HDR_LEN..HDR_LEN + |payload|] == payload;
  }

  /** The same without trailing bytes, as a relay sees its own transmission. */
  lemma RoundTripExact(h: Header, payload: seq<byte>)
    requires |payload| < 256
    ensures Parse(Wire(h, payload)) == Some(Frame(h.(payloadLen := |payload|), payload))
  {
    RoundTrip(h, payload, []);
    assert Wire(h, payload) + [] == Wire(h, payload);
  }

  /**
   * The frame byte by byte, at the offsets of the packed header: the timestamp little-endian, the
   * payload's length before the payload, and 16 zero bytes behind a DATA payload.
   */
  lemma WireLayout(h: Header, payload: seq<byte>)
    requires |payload| < 256
    ensures var w := Wire(h, payload);
            && |w| == 39 + |payload| + (if h.kind == 1 then 16 else 0)
            && w[0] == h.kind && w[1..17] == h.msgId && w[17..25] == h.src && w[25..33] == h.dst && w[33] == h.ttl
            && w[34] as int + 256 * w[35] as int + 65536 * w[36] as int + 16777216 * w[37] as int == h.timestamp
            && w[38] == |payload| && w[39..39 + |payload|] == payload
            && forall i :: 39 + |payload| <= i < |w| ==> w[i] == 0
  {
    var w, b := Wire(h, payload), HeaderBytes(h.(payloadLen := |payload|));
    var z := Repeat(0, SigLen(h.kind));
    assert w == b + (payload + z);
    assert b[34..38] == Le32(h.timestamp);
    Le32ThenBack(h.timestamp);
    assert forall i :: 0 <= i < 39 ==> w[i] == b[i];
    assert w[39..39 + |payload|] == payload;
    assert w[1..17] == b[1..17] == h.msgId && w[17..25] == b[17..25] == h.src && w[25..33] == b[25..33] == h.dst;
  }

  lemma PrefixParses(h: Header, payload: seq<byte>, buf: seq<byte>)
    requires |payload| < 256
    ensures Wire(h, payload) <= buf ==> Parse(buf) == Some(Frame(h.(payloadLen := |payload|), payload))
  {
    if Wire(h, payload) <= buf {
      var n := |Wire(h, payload)|;
      assert buf == Wire(h, payload) + buf[n..];
      RoundTrip(h, payload, buf[n..]);
    }
  }

  /** Exactly which buffers decode to a given frame: the decoder accepts nothing else. */
  lemma {:induction false} ParseIff(b: seq<byte>, f: Frame)
    ensures Parse(b) == Some(f) <==>
            && |f.payload| == f.header.payloadLen
            && HeaderBytes(f.header) + f.payload <= b
            && |b| >= HDR_LEN + |f.payload| + SigLen(f.header.kind)
  {
    var n := HDR_LEN + f.header.payloadLen;
    if Parse(b) == Some(f) {
      ParseThenHeader(b);
      assert b[..n] == b[..HDR_LEN] + b[HDR_LEN..n];
    }
    if |f.payload| == f.header.payloadLen && HeaderBytes(f.header) + f.payload <= b {
      assert b == HeaderBytes(f.header) + (f.payload + b[n..]);
      HeaderThenParse(f.header, f.payload + b[n..]);
      assert b[HDR_LEN..n] == f.payload;
    }
  }

  /** A frame cut short anywhere is rejected, so a truncated reception is never relayed. */
  lemma TruncatedIsRejected(h: Header, payload: seq<byte>, n: nat)
    requires |payload| < 256
    requires n < |Wire(h, payload)|
    ensures Parse(Wire(h, payload)[..n]).None?
  {
  }

  /**
   * Relaying never fails for size: whatever fits the 255-byte radio buffer and decodes still
   * fits once re-encoded with another TTL, for DATA, KEY_BUNDLE and unknown types alike.
   */
  lemma RelayFits(b: seq<byte>, ttl: byte)
    requires |b| <= MAX_WIRE_LEN
    requires Parse(b).Some?
    ensures var f := Parse(b).value;
            && |f.payload| < 256
            && |Wire(f.header.(ttl := ttl), f.payload)| <= |b|
            && Parse(Wire(f.header.(ttl := ttl), f.payload)) == Some(f.(header := f.header.(ttl := ttl)))
  {
    var f := Parse(b).value;
    RoundTripExact(f.header.(ttl := ttl), f.payload);
  }

  /** memcpy into a buffer. */
  method CopyInto(out: array<byte>, at: nat, src: seq<byte>)
    requires at + |src| <= out.Length
    modifies out
    ensures out[..] == old(out[..at]) + src + old(out[at + |src|..])
  {
    forall i | 0 <= i < |src| {
      out[at + i] := src[i];
    }
  }

  /** pkt_encode: the whole frame goes into `out`, or nothing is written and the answer is 0. */
  method Encode(out: array<byte>, cap: nat, hdr: Header, payload: seq<byte>) returns (n: nat)
    requires |payload| < 256
    requires cap <= out.Length
    modifies out
    ensures n == (if |Wire(hdr, payload)| <= cap then |Wire(hdr, payload)| else 0)
    ensures out[..n] == Wire(hdr, payload)[..n]
    ensures out[n..] == old(out[n..])
  {
    var sigLen := if hdr.kind == DATA then SIG_LEN else 0;
    var total := HDR_LEN + |payload| + sigLen;
    if total > cap {
      return 0;
    }
    var h := hdr.(payloadLen := |payload|);
    CopyInto(out, 0, HeaderBytes(h));
    CopyInto(out, HDR_LEN, payload);
    CopyInto(out, HDR_LEN + |payload|, Repeat(0, sigLen));
    return total;
  }

  /**
   * pkt_decode. Success means the buffer starts with exactly this header and payload;
   * failure means no frame whatsoever is a prefix of the buffer.
   */
  method Decode(buf: seq<byte>) returns (f: Option<Frame>)
    ensures f == Parse(buf)
    ensures f.Some? ==> HeaderBytes(f.value.header) + f.value.payload <= buf
    ensures f.None? ==> forall h: Header, p: seq<byte> :: |p| < 256 ==> !(Wire(h, p) <= buf)
  {
    if |buf| < HDR_LEN {
      return None;
    }
    var h := ParseHeader(buf);
    var sigLen := if h.kind == DATA then SIG_LEN else 0;
    var expected := HDR_LEN + h.payloadLen + sigLen;
    if |buf| < expected {
      forall k: Header, p: seq<byte> | |p| < 256 ensures !(Wire(k, p) <= buf) {
        PrefixParses(k, p, buf);
      }
      return None;
    }
    f := Some(Frame(h, buf[HDR_LEN..HDR_LEN + h.payloadLen]));
    ParseIff(buf, f.value);
  }
}
