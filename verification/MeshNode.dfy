/**
 * One mesh node: what it does with a received frame, an outgoing message and its beacon timer
 * (firmware/components/mesh/mesh.c).
 */
module MeshNode {
  import opened Bytes
  import opened Packet
  import BundleCodec
  import Dedup
  import RateLimiter
  import Presence
  import SlotTable

  const KEY_BUNDLE_REQUEST: byte := 0
  const KEY_BUNDLE_RESPONSE: byte := 1

  type Blob = s: seq<byte> | |s| <= BundleCodec.BUNDLE_MAX_LEN witness []
  type Ciphertext = s: seq<byte> | |s| <= MAX_PAYLOAD witness []
  type RadioBuffer = s: seq<byte> | |s| <= MAX_WIRE_LEN witness []

  /** Everything a node remembers, with the tables replaced by the histories they summarise. */
  datatype State = State(
    id: NodeId,
    marks: seq<MsgId>,
    rate: RateLimiter.Table,
    heard: seq<SlotTable.Arrival>)

  /**
   * What the outside world answers during one call: the two clock readings, the header timestamp,
   * a random id, the local key bundle, the decryption result and whether a callback is installed.
   */
  datatype Env = Env(
    now: int, touchTime: int, stamp: u32, freshId: MsgId,
    bundle: Option<Blob>, plaintext: Option<seq<byte>>, callback: bool)

  datatype Delivery = Delivery(src: NodeId, plaintext: seq<byte>)

  datatype Outcome = Outcome(
    sent: Option<seq<byte>>,
    delivered: Option<Delivery>,
    bundleFrom: Option<(NodeId, seq<byte>)>)

  const Silent := Outcome(None, None, None)

  /** The filter a received frame gets stuck in, or Accepted. */
  datatype Fate = Malformed | OwnEcho | RateLimited | Beacon | KeyExchange | Duplicate | Accepted

  function FateOf(s: State, buf: seq<byte>, now: int): Fate {
    var f := Parse(buf);
    if f.None? then Malformed
    else
      var h := f.value.header;
      if h.src == s.id then OwnEcho
      else if RateLimiter.Limited(s.rate, h.src, now) then RateLimited
      else if h.kind == BEACON then Beacon
      else if h.kind == KEY_BUNDLE then KeyExchange
      else if Dedup.Seen(s.marks, h.msgId) then Duplicate
      else Accepted
  }

  /** The node's memory after a received frame. */
  function Receive(s: State, buf: seq<byte>, env: Env): State {
    var fate := FateOf(s, buf, env.now);
    if fate.Malformed? || fate.OwnEcho? then s
    else
      var h := Parse(buf).value.header;
      var counted := s.(rate := RateLimiter.Arrive(s.rate, h.src, env.now));
      if fate.RateLimited? then counted
      else
        var touched := counted.(heard := s.heard + [SlotTable.Arrival(h.src, env.touchTime)]);
        if fate.Accepted? then touched.(marks := s.marks + [h.msgId]) else touched
  }

  function KeyHeader(from: NodeId, to: NodeId, env: Env): Header {
    Header(KEY_BUNDLE, env.freshId, from, to, 1, env.stamp, 0)
  }

  /** send_key_bundle_frame: always one hop. */
  function KeyFrame(from: NodeId, to: NodeId, subtype: byte, extra: Blob, env: Env): seq<byte> {
    Wire(KeyHeader(from, to, env), [subtype] + extra)
  }

  /** The frame as a relay retransmits it. */
  function Relay(f: Frame): seq<byte>
    requires f.header.ttl > 1 && |f.payload| < 256
  {
    Wire(f.header.(ttl := f.header.ttl - 1), f.payload)
  }

  /** What leaves the node because of a received frame. */
  function Reply(s: State, buf: seq<byte>, env: Env): Outcome {
    match FateOf(s, buf, env.now)
    case KeyExchange => KeyReply(s.id, Parse(buf).value, env)
    case Accepted => AcceptReply(s.id, Parse(buf).value, env)
    case _ => Silent
  }

  /** A new flooded frame: hand it over if it is ours, and pass it on either way. */
  function AcceptReply(id: NodeId, f: Frame, env: Env): Outcome
    requires |f.payload| < 256
  {
    Outcome(
      if f.header.ttl > 1 then Some(Relay(f)) else None,
      if f.header.dst == id && f.header.kind == DATA && env.callback && env.plaintext.Some?
      then Some(Delivery(f.header.src, env.plaintext.value)) else None,
      None)
  }

  /** handle_key_bundle */
  function KeyReply(id: NodeId, f: Frame, env: Env): Outcome {
    if f.header.dst != id || |f.payload| < 1 then Silent
    else if f.payload[0] == KEY_BUNDLE_REQUEST && env.bundle.Some? then
      Silent.(sent := Some(KeyFrame(id, f.header.src, KEY_BUNDLE_RESPONSE, env.bundle.value, env)))
    else if f.payload[0] == KEY_BUNDLE_RESPONSE then
      Silent.(bundleFrom := Some((f.header.src, f.payload[1..])))
    else Silent
  }

  /** A one-hop frame of the key exchange (type 3) as its receivers decode it. */
  function KeyMessage(msgId: MsgId, src: NodeId, dst: NodeId, stamp: u32, payload: seq<byte>): Frame
    requires |payload| < 256
  {
    Frame(Header(3, msgId, src, dst, 1, stamp, |payload|), payload)
  }

  /**
   * What the key exchange promises on a frame that passed the filters. A request (first payload byte
   * 0) addressed to this node is answered, if there is a bundle, with one frame back to its source:
   * byte 1 and the bundle. A response (byte 1) addressed to this node hands over its source and the
   * rest of the payload. Anything else is ignored.
   */
  ghost predicate AnswersKeyMessage(id: NodeId, f: Frame, env: Env, out: Outcome) {
    var mine := f.header.dst == id && f.payload != [];
    && out.delivered.None?
    && (out.sent.Some? <==> mine && f.payload[0] == 0 && env.bundle.Some?)
    && (out.sent.Some? ==>
          var response := KeyMessage(env.freshId, id, f.header.src, env.stamp, [1] + env.bundle.value);
          Parse(out.sent.value) == Some(response))
    && out.bundleFrom == if mine && f.payload[0] == 1 then Some((f.header.src, f.payload[1..])) else None
  }

  lemma KeyReplyAnswers(id: NodeId, f: Frame, env: Env)
    ensures AnswersKeyMessage(id, f, env, KeyReply(id, f, env))
  {
    if env.bundle.Some? {
      RoundTripExact(KeyHeader(id, f.header.src, env), [KEY_BUNDLE_RESPONSE] + env.bundle.value);
    }
    hide Parse, Wire;
  }

  /** A foreign frame of type 3 from an unlimited source is answered like that, and ignored otherwise. */
  ghost predicate HandlesKeyMessage(s: State, buf: seq<byte>, env: Env, out: Outcome) {
    Parse(buf).Some? && Parse(buf).value.header.kind == 3 ==>
      var f := Parse(buf).value;
      if f.header.src != s.id && !RateLimiter.Limited(s.rate, f.header.src, env.now)
      then AnswersKeyMessage(s.id, f, env, out) else out == Outcome(None, None, None)
  }

  /** Such frames never meet the duplicate filter. */
  lemma KeyMessagesAreHandled(s: State, buf: seq<byte>, env: Env)
    ensures HandlesKeyMessage(s, buf, env, Reply(s, buf, env))
    ensures Parse(buf).Some? && Parse(buf).value.header.kind == 3 ==> Receive(s, buf, env).marks == s.marks
  {
    if Parse(buf).Some? { KeyReplyAnswers(s.id, Parse(buf).value, env); }
    hide Parse, RateLimiter.Limited, RateLimiter.Arrive, KeyReply, AnswersKeyMessage, Dedup.Seen;
  }

  datatype SendResult = InvalidSize | NoSession | CryptoError | Sent

  function DataHeader(from: NodeId, to: NodeId, env: Env): Header {
    Header(DATA, env.freshId, from, to, TTL_DEFAULT, env.stamp, 0)
  }

  function BeaconFrame(from: NodeId, env: Env): seq<byte> {
    Wire(Header(BEACON, env.freshId, from, Repeat(0, 8), 1, env.stamp, 0), [])
  }

  /** The verdict of mesh_send, before the radio has its say. */
  function SendVerdict(len: nat, session: bool, ciphertext: Option<Ciphertext>): SendResult {
    if len > MAX_PAYLOAD then InvalidSize
    else if !session then NoSession
    else if ciphertext.None? then CryptoError
    else Sent
  }

  /** The frame mesh_send transmits. */
  function SendFrame(s: State, to: NodeId, len: nat, session: bool, ciphertext: Option<Ciphertext>, env: Env)
    : Option<seq<byte>>
  {
    match SendVerdict(len, session, ciphertext)
    case NoSession => Some(KeyFrame(s.id, to, KEY_BUNDLE_REQUEST, [], env))
    case Sent => Some(Wire(DataHeader(s.id, to, env), ciphertext.value))
    case _ => None
  }

  /** Its effect on the node: an originated id is marked, so an echo of it is not taken for news. */
  function AfterSend(s: State, len: nat, session: bool, ciphertext: Option<Ciphertext>, env: Env): State {
    if SendVerdict(len, session, ciphertext).Sent?
    then s.(marks := Dedup.Mark(s.marks, env.freshId)) else s
  }

  /** How receivers decode the two frames mesh_send can transmit. */
  lemma FramesOfSend(id: NodeId, to: NodeId, ciphertext: Option<Ciphertext>, env: Env)
    ensures Parse(KeyFrame(id, to, KEY_BUNDLE_REQUEST, [], env)) ==
            Some(KeyMessage(env.freshId, id, to, env.stamp, [0]))
    ensures ciphertext.Some? ==>
              var c := ciphertext.value;
              Parse(Wire(DataHeader(id, to, env), c)) ==
              Some(Frame(Header(1, env.freshId, id, to, 8, env.stamp, |c|), c))
  {
    assert [KEY_BUNDLE_REQUEST] + [] == [0];
    RoundTripExact(KeyHeader(id, to, env), [KEY_BUNDLE_REQUEST] + []);
    if ciphertext.Some? { RoundTripExact(DataHeader(id, to, env), ciphertext.value); }
    hide Parse, Wire;
  }

  /** A beacon (type 2) names its sender, no addressee, and goes one hop. */
  lemma BeaconDecodes(id: NodeId, env: Env)
    ensures Parse(BeaconFrame(id, env)) ==
            Some(Frame(Header(2, env.freshId, id, [0, 0, 0, 0, 0, 0, 0, 0], 1, env.stamp, 0), []))
  {
    assert Repeat(0, 8) == [0, 0, 0, 0, 0, 0, 0, 0];
    RoundTripExact(Header(BEACON, env.freshId, id, Repeat(0, 8), 1, env.stamp, 0), []);
    hide Parse, Wire;
  }

  /** An unlimited neighbour notes who was heard, and does nothing else. */
  lemma BeaconIsHeard(s: State, buf: seq<byte>, env: Env)
    requires Parse(buf).Some? && Parse(buf).value.header.kind == 2
    ensures var src := Parse(buf).value.header.src;
            var s' := Receive(s, buf, env);
            && Reply(s, buf, env) == Silent && s'.marks == s.marks
            && s'.heard == if src != s.id && !RateLimiter.Limited(s.rate, src, env.now)
                           then s.heard + [SlotTable.Arrival(src, env.touchTime)] else s.heard
  {
    hide Parse, RateLimiter.Limited, RateLimiter.Arrive, Dedup.Seen;
  }

  /** No call lets the clock run backwards, though it may stand still. */
  ghost predicate ClockOk(s: State, env: Env) {
    forall e :: e in s.heard ==> e.time <= env.touchTime
  }

  class Node {
    const id: NodeId
    const dedup: Dedup.DedupCache
    const rate: RateLimiter.RateTable
    const presence: Presence.PresenceTable

    ghost function Objects(): set<object> {
      {dedup, dedup.cache, rate, rate.cells, presence, presence.cells}
    }

    ghost predicate Valid()
      reads this, Objects()
    {
      && dedup.Valid() && rate.Valid() && presence.Valid()
      && dedup.cache as object != rate.cells && dedup.cache as object != presence.cells
      && rate.cells as object != presence.cells
    }

    ghost function Memory(): State
      reads this, Objects()
    {
      State(id, dedup.marks, rate.table, presence.log)
    }

    /** The table part of mesh_init; the id is the chip's MAC followed by AA BB. */
    constructor (mac: seq<byte>, now: int, draw: u32)
      requires |mac| == 6
      ensures Valid() && fresh(Objects())
      ensures Memory() == State(mac + [0xAA, 0xBB], [], [], [])
    {
      id := mac + [0xAA, 0xBB];
      dedup := new Dedup.DedupCache();
      rate := new RateLimiter.RateTable();
      presence := new Presence.PresenceTable(now, draw);
    }

    /** pkt_encode into a stack buffer of `cap` bytes; a frame that does not fit is not sent. */
    method Transmit(h: Header, payload: seq<byte>, cap: nat) returns (sent: Option<seq<byte>>)
      requires |payload| < 256
      ensures sent == if |Wire(h, payload)| <= cap then Some(Wire(h, payload)) else None
    {
      var wire := new byte[cap];
      var n := Encode(wire, cap, h, payload);
      if n > 0 {
        assert Wire(h, payload)[..n] == Wire(h, payload);
        return Some(wire[..n]);
      }
      return None;
    }

    /** handle_key_bundle and send_key_bundle_frame */
    method HandleKeyBundle(f: Frame, env: Env) returns (out: Outcome)
      requires Valid()
      ensures out == KeyReply(id, f, env)
      ensures AnswersKeyMessage(id, f, env, out)
    {
      KeyReplyAnswers(id, f, env);
      hide AnswersKeyMessage;
      if f.header.dst != id || |f.payload| < 1 {
        return Silent;
      }
      var subtype := f.payload[0];
      if subtype == KEY_BUNDLE_REQUEST {
        if env.bundle.None? {
          return Silent;
        }
        var sent := Transmit(KeyHeader(id, f.header.src, env),
                             [KEY_BUNDLE_RESPONSE] + env.bundle.value, MAX_WIRE_LEN);
        return Silent.(sent := sent);
      } else if subtype == KEY_BUNDLE_RESPONSE {
        return Silent.(bundleFrom := Some((f.header.src, f.payload[1..])));
      }
      return Silent;
    }

    /** on_radio_rx */
    method OnRadioRx(buf: RadioBuffer, env: Env) returns (out: Outcome)
      requires Valid() && ClockOk(Memory(), env)
      modifies Objects()
      ensures Valid()
      ensures Memory() == Receive(old(Memory()), buf, env)
      ensures out == Reply(old(Memory()), buf, env)
      ensures HandlesKeyMessage(old(Memory()), buf, env, out)
    {
      KeyMessagesAreHandled(Memory(), buf, env);
      hide HandlesKeyMessage, AnswersKeyMessage;
      hide AcceptReply, KeyReply, Parse, RateLimiter.Arrive, RateLimiter.Limited, Dedup.Seen;
      hide Dedup.DedupCache.Valid, RateLimiter.RateTable.Valid, Presence.PresenceTable.Valid;
      var decoded := Decode(buf);
      if decoded.None? {
        return Silent;
      }
      var f := decoded.value;
      if f.header.src == id {
        return Silent;
      }
      var limited := rate.RateLimited(f.header.src, env.now);
      if limited {
        return Silent;
      }
      presence.TouchNode(f.header.src, env.touchTime);
      if f.header.kind == BEACON {
        return Silent;
      }
      if f.header.kind == KEY_BUNDLE {
        out := HandleKeyBundle(f, env);
        return;
      }
      var seen := dedup.CheckAndMark(f.header.msgId);
      if seen {
        return Silent;
      }
      out := Flood(buf, f, env);
    }

    /** The last part of on_radio_rx: deliver, then relay with one hop less. */
    method Flood(buf: RadioBuffer, f: Frame, env: Env) returns (out: Outcome)
      requires Parse(buf) == Some(f)
      ensures |f.payload| < 256
      ensures out == AcceptReply(id, f, env)
    {
      RelayFits(buf, f.header.ttl);
      out := Silent;
      if f.header.dst == id && f.header.kind == DATA && env.callback {
        if env.plaintext.Some? {
          out := out.(delivered := Some(Delivery(f.header.src, env.plaintext.value)));
        }
      }
      if f.header.ttl > 1 {
        var h := f.header.(ttl := f.header.ttl - 1);
        RelayFits(buf, h.ttl);
        var sent := Transmit(h, f.payload, MAX_WIRE_LEN);
        out := out.(sent := sent);
      }
    }

    /** mesh_send; `ciphertext` is what pcrypto_encrypt returned, if it succeeded. */
    method Send(to: NodeId, len: nat, session: bool, ciphertext: Option<Ciphertext>, env: Env)
      returns (r: SendResult, sent: Option<seq<byte>>)
      requires Valid()
      modifies dedup, dedup.cache
      ensures Valid()
      ensures r == SendVerdict(len, session, ciphertext)
      ensures sent == SendFrame(old(Memory()), to, len, session, ciphertext, env)
      ensures Memory() == AfterSend(old(Memory()), len, session, ciphertext, env)
      ensures r.InvalidSize? <==> len > 200
      ensures r.NoSession? <==> len <= 200 && !session
      ensures r.CryptoError? <==> len <= 200 && session && ciphertext.None?
      ensures r.NoSession? ==>
                sent.Some? && Parse(sent.value) == Some(KeyMessage(env.freshId, id, to, env.stamp, [0]))
      ensures r.Sent? ==>
                && sent.Some?
                && var c := ciphertext.value;
                   Parse(sent.value) == Some(Frame(Header(1, env.freshId, id, to, 8, env.stamp, |c|), c))
      ensures r.InvalidSize? || r.CryptoError? ==> sent.None?
      ensures dedup.marks == if r.Sent? then Dedup.Mark(old(dedup.marks), env.freshId) else old(dedup.marks)
    {
      FramesOfSend(id, to, ciphertext, env);
      hide Parse, Wire;
      sent := None;
      if len > MAX_PAYLOAD {
        return InvalidSize, None;
      }
      if !session {
        sent := Transmit(KeyHeader(id, to, env), [KEY_BUNDLE_REQUEST] + [], MAX_WIRE_LEN);
        return NoSession, sent;
      }
      if ciphertext.None? {
        return CryptoError, None;
      }
      var _ := dedup.CheckAndMark(env.freshId);
      sent := Transmit(DataHeader(id, to, env), ciphertext.value, MAX_WIRE_LEN);
      if sent.None? {
        return InvalidSize, None;
      }
      return Sent, sent;
    }

    /** mesh_poll: a beacon goes out when the timer has run down, and the timer restarts. */
    method Poll(now: int, draw: u32, env: Env) returns (sent: Option<seq<byte>>)
      requires Valid()
      modifies presence`nextBeacon
      ensures Valid() && Memory() == old(Memory())
      ensures sent == if now >= old(presence.nextBeacon) then Some(BeaconFrame(id, env)) else None
      ensures if sent.Some? then now + Presence.BEACON_MIN_US <= presence.nextBeacon < now + Presence.BEACON_MAX_US
              else presence.nextBeacon == old(presence.nextBeacon)
      ensures sent.Some? ==>
                Parse(sent.value) ==
                Some(Frame(Header(2, env.freshId, id, [0, 0, 0, 0, 0, 0, 0, 0], 1, env.stamp, 0), []))
    {
      BeaconDecodes(id, env);
      hide Parse;
      var due := presence.BeaconDue(now);
      if due {
        sent := Transmit(Header(BEACON, env.freshId, id, Repeat(0, 8), 1, env.stamp, 0), [], HDR_LEN);
        presence.ResetTimer(now, draw);
      } else {
        sent := None;
      }
    }
  }
}
