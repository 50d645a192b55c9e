# Pabianice mesh: a verified model

The repository builds a LoRa mesh out of ESP32 nodes, a small server that keeps keys and messages
for nodes that are offline, and a desktop client. This project models the parts where the pieces
depend on each other, and proves what they add up to:

- **The mesh** (`Packet`, `Dedup`, `SlotTable`, `RateLimiter`, `SlidingWindow`, `Presence`, `MeshNode`,
  `NodeLimits`, `Topology`, `Network`, `OneHop`, `Drain`, `OneMessage`, `Flood`, `Coverage`, `Detour`). The
  64-slot ring, the 32-slot rate table and the 32-slot presence table are classes over fixed arrays, each
  proved against an unbounded history. One node is a class whose handlers are proved equal to a step
  function on those histories. Any number of nodes on any directed neighbour graph then make a network in
  which frames are lost, duplicated, reordered and mixed with foreign ones.
- **The key store** (`KeyNames`, `KeyStore`, `PreKeyPool`). Four typed stores share one flat namespace
  of 15-character names; the one-time prekey pool refills itself across power failures.
- **The bundle codec** (`BundleCodec`), written once in C and once in Rust.
- **The server** (`KeyDirectory`, `MessageQueue`) and the client loop that empties the queue.
- **The cipher glue** (`Provider`) and the carrier register (`Radio`).

Each imperative part of the source is a method, usually of a class with the source's own fields, and
its contract ties the new state to a function of the old one; the lemmas are about those functions.
`dafny verify dfyconfig.toml` checks everything.

## The main results

- `Flood.FloodIsBreadthFirst`: from any tables in which nobody else has marked the id or used up the
  source's counter, one message in lossless lockstep rounds is accepted by exactly the nodes at distance
  1..8, each once, at distance d in round d with TTL 9 - d, and the air is silent after round 8. Within a
  round the copies arrive in any order.
- `Coverage.OutcomesIff` and `Coverage.CoverageIff`: without lockstep, but with nothing lost, the sets of
  nodes a message can end up with are exactly the relay trees of the graph: labellings of depth at most
  eight, closed under the neighbours of every node labelled below eight. So every node within eight hops
  is sure to be reached, whatever is late or duplicated, if and only if no relay tree misses one.
- `Detour.NineNodesAreSafe`: that can fail, because a copy that took the long way can arrive first; it is
  impossible on every mesh of at most n nodes if and only if n <= 9. `Detour.LateCopyLosesANode` gives the
  ring of ten in which a node two hops from the origin never hears the message.
- `Network.InFlightIntact`, `Network.NeverBeyondEightHops`, `Network.ActsOncePerRing`: on every run
  whatsoever, a copy relayed h times has TTL 8 - h and is otherwise its origin's frame, nobody beyond
  eight hops accepts it, and a node acts twice on one id only after 64 other distinct ids were marked.
  `Network.FramesFitTheRadio`: nothing in the air ever outgrows the 255-byte radio buffer.
- `OneHop.KeysAreExchanged`: two neighbours that do not limit each other exchange keys in one round trip,
  whatever they heard before: a send without a session puts a request for the addressee into the air, only
  the addressee answers, with its bundle and back to the asking node, which ends up with exactly that bundle
  under that id. `Network.FloodedIff` says the same kind of thing for every other frame: exactly what a
  node passes on, hands over and remembers.
- `Drain.QuietRunsAreBounded`: with no new traffic every backlog drains, from any state of the tables.
- `SlidingWindow.SlidingBoundIff`: among senders drawn from a set, a fixed 60 s window of 20 admits at most
  39 packets of each in any closed 60 s interval, if and only if the set has at most 32 members. 39 is
  reached (`SlidingBoundIsTight`), and any 33 senders reach 40 (`ThirtyThreeSendersBreakTheBound`).
  `NodeLimits.ThirtyNineThroughIff` carries the equivalence to whole nodes fed arbitrary frames.
- `Presence.ExactUnderThirtyTwoRivals` and `Presence.ThirtyTwoFresherEvict`: the bounded table answers
  like an unbounded log up to 31 rivals; without clock ties `ExactIffUnderThirtyTwoRivals` makes it an
  equivalence.
- `KeyStore.FaithfulIff`: on a set of peers the flat namespace cannot be told from four separate stores,
  over all call sequences, if and only if no two of the peers share an XOR fold.
- `PreKeyPool.PublishedIdsAreNeverRegenerated`: across crashes and lost writes, no id that was ever in a
  bundle is generated again. `OfferedAgainIff` says exactly when a later bundle repeats an id.
- `PreKeyPool.FirstBundle`, `BundleIff`, `DryPoolRefills`: a peer reads from a bundle exactly what was
  generated and stored, from first boot through every refill. `StrandedIff` and `StrandedForGood`: a power
  failure between the first and the third write of the first boot, and only that, leaves an identity whose
  device never publishes a bundle in any later run.
- `BundleCodec.DecodingIff`, `Packet.ParseIff`: exactly which buffers decode to what.
- `KeyDirectory.HandedOutAtMostOnce`, `PublishedIsHandedPlusAvailable` and `NodeRowIff`: under any
  interleaving no key is handed out twice, none is lost, and a fetch finds the row last published.
- `MessageQueue.PendingIff`: on every run the table holds exactly the messages that were let in, by block
  list, limiter and id, and neither acknowledged by their addressee nor expired since. `NothingIsLost`,
  `ConservedIff`, `DrainIsReachable`, `DeliveredIff`: conservation, when exactly it is a partition, and
  exactly which messages repeated polling delivers.
- `Provider.DecryptUndoesEncrypt` and `EncryptUndoesDecryptIff`, with `TamperedPaddingIsAccepted` where the
  converse fails.

## Where the code and its documents differ

- docs/protocol.md:71-72 says a full rate table overwrites the first free slot. The code evicts the row
  with the oldest window (firmware/components/mesh/mesh.c:58-70), and the model follows the code.
- README.md:36-40 of the repository describes delivery guided by the presence table and caching at
  intermediate nodes. Neither is in the mesh code, so neither is in the model.
- firmware/components/mesh/mesh.c:46 compares with `>`, so a packet exactly 60 s after a window's start
  still belongs to it; this is why successive windows are more than 60 s apart.

## Model

| member | source | states |
|---|---|---|
| Packet.RoundTrip | firmware/components/mesh/pkt.c:4-42 | decoding an encoded frame, followed by any bytes, returns the header with payload_len set to the payload's length, and the payload |
| Packet.WireLayout | firmware/components/mesh/include/pkt.h:30-38 | every field at its byte offset, the timestamp little-endian, payload after 39 bytes, and 16 zero bytes behind a DATA payload |
| Packet.ParseIff | firmware/components/mesh/pkt.c:27-42 | a buffer decodes to a frame exactly when it starts with that header and payload and has room for the type's signature field |
| Packet.TruncatedIsRejected | firmware/components/mesh/pkt.c:27-42 | a frame cut short anywhere is rejected |
| Packet.RelayFits | firmware/components/mesh/mesh.c:227-233 | what fits 255 bytes and decodes still fits after re-encoding with another TTL, for every packet type, and decodes to the same frame |
| Packet.Encode | firmware/components/mesh/pkt.c:4-25 | writes the whole frame and leaves the rest of the buffer alone, or returns 0 and writes nothing |
| Packet.Decode | firmware/components/mesh/pkt.c:27-42 | success names the frame the buffer starts with; failure means no frame at all is a prefix of it |
| Dedup.EveryHistoryIsSpread | firmware/components/mesh/dedup.c:17-36 | after any call history any 65 consecutive marks are pairwise distinct |
| Dedup.RemarkNeedsSixtyFourOthers | firmware/components/mesh/dedup.c:23-36 | an id is marked again only after 64 other pairwise distinct ids |
| Dedup.SlotIsRecent | firmware/components/mesh/dedup.c:25-29 | a used slot holds one of the last 64 marks, across wrap-around |
| Dedup.AbsentIsNotRecent | firmware/components/mesh/dedup.c:25-29 | an id in no used slot is not among the last 64 marks |
| Dedup.InsertHolds | firmware/components/mesh/dedup.c:31-34 | overwriting the next slot drops the oldest mark and nothing else |
| Dedup.DedupCache.constructor | firmware/components/mesh/dedup.c:17-21 | an empty ring with an empty history |
| Dedup.DedupCache.CheckAndMark | firmware/components/mesh/dedup.c:23-36 | answers true exactly if the id is among the last min(n, 64) marks, and otherwise appends it |
| SlotTable.AppendLookup | firmware/components/mesh/mesh.c:53-55 | taking a free slot disturbs no other sender |
| SlotTable.ReplaceLookup | firmware/components/mesh/mesh.c:58-75 | replacing a row in a full table forgets that row's sender and no other |
| RateLimiter.ArriveLookup | firmware/components/mesh/mesh.c:44-56 | without eviction a packet moves its own sender's counter only |
| RateLimiter.EvictedIff | firmware/components/mesh/mesh.c:58-75 | a sender loses its counter exactly when a new sender meets a full table in which its row is the first with the oldest window |
| RateLimiter.EvictionNeedsThirtyTwoYounger | firmware/components/mesh/mesh.c:58-75 | at that moment 32 other distinct senders hold windows that started no earlier |
| RateLimiter.RateTable.constructor | firmware/components/mesh/mesh.c:242-242 | a zeroed table tracks nobody |
| RateLimiter.RateTable.OldestSlot | firmware/components/mesh/mesh.c:63-69 | the scan finds the first slot with the smallest window start |
| RateLimiter.RateTable.RateLimited | firmware/components/mesh/mesh.c:39-76 | the array tracks the abstract table: used slots a prefix, senders distinct, and the answer is whether the count passed 20 |
| SlidingWindow.PrivateCounters | firmware/components/mesh/mesh.c:39-76 | with at most 32 senders the shared table gives each one its own undisturbed counter |
| SlidingWindow.WindowAdmitsTwenty | firmware/components/mesh/mesh.c:46-51 | of a window's packets exactly the first 20 are admitted |
| SlidingWindow.WindowsAreSpaced | firmware/components/mesh/mesh.c:46-49 | successive windows of a sender start more than 60 s apart |
| SlidingWindow.SlidingBound | firmware/components/mesh/mesh.c:39-76 | at most 39 packets of one sender are admitted in any closed 60 s interval, with at most 32 senders |
| SlidingWindow.SlidingBoundIsTight | firmware/components/mesh/mesh.c:39-76 | a one-sender trace on which 39 are admitted in such an interval |
| SlidingWindow.ThirtyThreeSendersBreakTheBound | firmware/components/mesh/mesh.c:58-75 | any 33 distinct senders have a trace on which 40 packets of one of them are admitted at one instant |
| SlidingWindow.SlidingBoundIff | firmware/components/mesh/mesh.c:39-76 | for senders drawn from a set, every ordered trace keeps to 39 per closed 60 s interval exactly if the set has at most 32 members |
| SlidingWindow.CounterSurvivesThirtyOneOthers | firmware/components/mesh/mesh.c:39-76 | on every trace a counter is lost only to 32 other distinct senders whose windows started no earlier |
| Presence.RunAgrees | firmware/components/mesh/presence.c:35-66 | rows carry the true last-heard time, and a dropped id is no fresher than any row of a full table |
| Presence.NeverOverclaims | firmware/components/mesh/presence.c:68-77 | the table never says "seen" when the unbounded log says otherwise |
| Presence.ExactUnderThirtyTwoRivals | firmware/components/mesh/presence.c:35-77 | it answers like the log while fewer than 32 other ids were heard at or after that node's last packet |
| Presence.ThirtyTwoFresherEvict | firmware/components/mesh/presence.c:50-66 | 32 strictly fresher ids always push an id out |
| Presence.ExactIffUnderThirtyTwoRivals | firmware/components/mesh/presence.c:35-77 | without clock ties the table answers every question about an id like the log exactly if fewer than 32 other ids were heard since |
| Presence.PresenceTable.constructor | firmware/components/mesh/presence.c:29-33 | an empty table and a first beacon 60 to 120 s away |
| Presence.PresenceTable.OldestSlot | firmware/components/mesh/presence.c:53-60 | the scan finds the first slot heard longest ago |
| Presence.PresenceTable.TouchNode | firmware/components/mesh/presence.c:35-66 | the array stays the image of the log extended by this packet |
| Presence.PresenceTable.SeenWithin | firmware/components/mesh/presence.c:68-77 | the scan's answer, and that it never overclaims |
| Presence.PresenceTable.ResetTimer | firmware/components/mesh/presence.c:84-87 | the next beacon is at least 60 s and less than 120 s away |
| MeshNode.Node.constructor | firmware/components/mesh/mesh.c:237-242 | the id is the MAC followed by AA BB and all tables are empty |
| MeshNode.Node.Transmit | firmware/components/mesh/mesh.c:229-233 | sends exactly the encoded frame, or nothing if it does not fit |
| MeshNode.Node.HandleKeyBundle | firmware/components/mesh/mesh.c:154-170 | a request for this node is answered with byte 1 and its bundle, to the requester and with TTL 1; a response hands over its source and the rest of its payload; anything else is ignored |
| MeshNode.Node.OnRadioRx | firmware/components/mesh/mesh.c:172-235 | the tables, the frame sent, the message delivered and the bundle received, filter by filter; key frames from an unlimited foreign source are handled as above, at any time, and others ignored |
| MeshNode.Node.Flood | firmware/components/mesh/mesh.c:207-234 | delivery to the addressee, and retransmission with one hop less while TTL exceeds 1 |
| MeshNode.Node.Send | firmware/components/mesh/mesh.c:266-310 | each result exactly under its own guard; without a session a request to the addressee goes out and nothing is marked; otherwise one DATA frame with TTL 8 and the ciphertext, its id marked as seen |
| MeshNode.KeyMessagesAreHandled | firmware/components/mesh/mesh.c:181-201 | a key frame is answered or ignored by its addressee, source and subtype alone, and never meets the duplicate filter |
| MeshNode.FramesOfSend | firmware/components/mesh/mesh.c:111-142 | how receivers decode the request and the message mesh_send can transmit |
| MeshNode.BeaconDecodes | firmware/components/mesh/mesh.c:92-109 | a beacon decodes to its sender's id, no addressee, one hop and no payload |
| MeshNode.BeaconIsHeard | firmware/components/mesh/mesh.c:185-194 | a beacon from an unlimited source is noted as heard, and nothing else happens |
| MeshNode.Node.Poll | firmware/components/mesh/mesh.c:317-322 | a beacon naming this node goes out exactly when the timer has run down, and the timer restarts 60 to 120 s ahead |
| NodeLimits.TablesFollowArrivals | firmware/components/mesh/mesh.c:181-190 | a node's rate table is the limiter run on the well-formed foreign frames it received, duplicates included, and its presence log holds exactly those let through |
| NodeLimits.AtMostThirtyNineThrough | firmware/components/mesh/mesh.c:172-190 | at most 39 frames of one originator pass a node's filters in any closed 60 s interval, with at most 32 other originators |
| NodeLimits.ThirtyNineThroughIff | firmware/components/mesh/mesh.c:172-190 | fed frames whose originators are drawn from a set, a node keeps every originator to 39 per closed 60 s interval exactly if at most 32 of them are other nodes |
| NodeLimits.OnlyThroughActs | firmware/components/mesh/mesh.c:172-235 | nothing is sent or delivered for a frame that did not get through |
| Topology.BallIsWalks | firmware/components/mesh/mesh.c:220-234 | nodes within n hops are exactly the ends of walks of at most n hops |
| Network.EveryRunIsSafe | firmware/components/mesh/mesh.c:172-310 | the invariant on nodes, copies and acceptances holds on every run with loss, duplication, reordering and foreign frames |
| Network.InFlightIntact | firmware/components/mesh/mesh.c:203-234 | a copy relayed h times has TTL exactly 8 - h, at least 1, and type, ids, timestamp and payload of its origin |
| Network.NeverBeyondEightHops | firmware/components/mesh/mesh.c:227-233 | no node further than eight hops from the origin ever accepts its message |
| Network.FramesFitTheRadio | firmware/components/mesh/mesh.c:227-233 | on every run no frame in the air has more than 255 bytes |
| Network.ActsAreLogged | firmware/components/mesh/mesh.c:203-234 | delivering and relaying happen only with a newly marked id |
| Network.DeliveredAtAddressee | firmware/components/mesh/mesh.c:207-218 | on every run an accepted frame is handed to the application exactly at its addressee, for DATA that decrypts |
| Network.ActsOncePerRing | firmware/components/mesh/mesh.c:203-234 | a node acts on one id a second time only after 64 other distinct ids were newly marked there |
| Network.ReceiveMarks | firmware/components/mesh/mesh.c:203-205 | an accepted frame adds exactly its id to the history and every other frame adds nothing |
| Network.FloodedIff | firmware/components/mesh/mesh.c:172-235 | outside the key exchange: exactly which frames are passed on, with one hop less and otherwise unchanged, which are handed over, and which ids are marked |
| OneHop.RequestIsSent | firmware/components/mesh/mesh.c:266-280 | a send without a session puts one request to the addressee into the air for every neighbour and changes nothing else |
| OneHop.RequestIsAnswered | firmware/components/mesh/mesh.c:144-165 | the addressee's copy of the request makes it broadcast its bundle, addressed to the asking node |
| OneHop.OthersStaySilent | firmware/components/mesh/mesh.c:154-160 | a node that is not the addressee of a key frame does nothing |
| OneHop.ResponseIsHandedOver | firmware/components/mesh/mesh.c:165-169 | a response hands its source and the bundle to the node it is addressed to |
| OneHop.KeysAreExchanged | firmware/components/mesh/mesh.c:111-201 | request and response between two neighbours leave the asking node with exactly the peer's bundle under the peer's id |
| Drain.ReplyIsLighter | firmware/components/mesh/mesh.c:154-170 | what a reception sends, heard by at most d neighbours, weighs less than the frame received |
| Drain.DeliverLightens | firmware/components/mesh/mesh.c:172-235 | every reception takes weight out of the air, whatever the tables hold |
| Drain.QuietRunsAreBounded | firmware/components/mesh/mesh.c:172-235 | without new sends a run makes at most as many receptions and losses as the air weighs |
| Drain.PersistentRunsDrain | firmware/components/mesh/mesh.c:172-235 | a long enough quiet run in which something is always received or lost ends in silence |
| Flood.RoundCompletes | firmware/components/mesh/mesh.c:172-235 | one lossless round extends the reached set from one ball to the next, in any order of arrival |
| Flood.FloodIsBreadthFirst | firmware/components/mesh/mesh.c:172-309 | from any tables that do not stand in the message's way, exactly the nodes at distance 1..8 accept, each once, at distance d in round d with TTL 9 - d; only the addressee hands the message over; nothing is in flight after round 8 |
| Flood.RoundsAreARun | firmware/components/mesh/mesh.c:172-235 | lockstep rounds are one particular run of the network |
| OneMessage.SpareIff | firmware/components/mesh/mesh.c:44-52 | a source is let through at every clock reading exactly if its counter, if it has one, is below 20 |
| OneMessage.KnownDrops | firmware/components/mesh/mesh.c:203-205 | a node that has the message lets further copies go by without a trace |
| OneMessage.FreshAccepts | firmware/components/mesh/mesh.c:185-234 | a node that has not marked the id and has room for the source accepts, and relays with one hop less while TTL exceeds 1 |
| Coverage.RunsAreTrees | firmware/components/mesh/mesh.c:203-234 | the nodes a complete loss-free run reaches, labelled by the hops of the copy each accepted, form a relay tree |
| Coverage.TreesAreRuns | firmware/components/mesh/mesh.c:203-234 | every relay tree is what some run of receptions alone ends with |
| Coverage.OutcomesIff | firmware/components/mesh/mesh.c:172-235 | a set of nodes is what some complete loss-free run reaches exactly if it is a relay tree's |
| Coverage.CoverageIff | firmware/components/mesh/mesh.c:172-235 | every complete loss-free run reaches all nodes within eight hops exactly if every relay tree of the graph contains them |
| Detour.SmallMeshIsCovered | firmware/components/mesh/mesh.c:203-234 | on a mesh of at most nine nodes every complete loss-free run reaches all nodes within eight hops |
| Detour.NineNodesAreSafe | firmware/components/mesh/mesh.c:203-234 | that holds of every mesh of at most n nodes exactly if n is at most nine |
| Detour.LateCopyLosesANode | firmware/components/mesh/mesh.c:203-234 | on a ring of ten, a run that loses nothing in which a node two hops away never accepts |
| BundleCodec.DecodingIff | client/desktop/src/pcrypto.rs:175-193 | a buffer decodes to given fields exactly when it starts with their encoding and every blob has at most 255 bytes |
| BundleCodec.DecodeEncoding | client/desktop/src/pcrypto.rs:139-193 | decoding an encoding followed by any suffix returns the fields |
| BundleCodec.EncodingLayout | client/desktop/src/pcrypto.rs:139-149 | every field of a bundle at its byte offset, numbers little-endian, blobs behind their length, and nothing after the last |
| BundleCodec.StrictPrefixIsRejected | client/desktop/src/pcrypto.rs:151-193 | every strict prefix of an encoding is rejected |
| BundleCodec.ByteVec.PutU32 | client/desktop/src/pcrypto.rs:123-125 | appends four little-endian bytes |
| BundleCodec.ByteVec.PutBlob | client/desktop/src/pcrypto.rs:127-137 | appends length and data, or fails beyond 255 bytes and appends nothing |
| BundleCodec.EncodeBundle | client/desktop/src/pcrypto.rs:139-149 | the encoding, and failure exactly for a blob over 255 bytes |
| BundleCodec.Cursor.GetU32 | client/desktop/src/pcrypto.rs:158-163 | reads and advances by four, or fails |
| BundleCodec.Cursor.GetBlob | client/desktop/src/pcrypto.rs:165-173 | reads one length-prefixed blob, or fails |
| BundleCodec.DecodeBundle | client/desktop/src/pcrypto.rs:175-193 | success names what the buffer starts with; failure means it starts with no encoding at all |
| BundleCodec.BundleBuffer.PutU32 | firmware/components/crypto/pcrypto.c:211-219 | appends four bytes, or fails exactly when they would pass byte 199 |
| BundleCodec.BundleBuffer.PutBlob | firmware/components/crypto/pcrypto.c:221-230 | appends length and data, or fails exactly beyond 255 or byte 199 |
| BundleCodec.LocalBundle | firmware/components/crypto/pcrypto.c:294-311 | the same bytes as the desktop client, exactly when they fit 199 |
| BundleCodec.FittedIff | firmware/components/crypto/pcrypto.c:294-310 | a bundle is written exactly if its four blobs take at most 183 bytes, and then decodes to its fields |
| BundleCodec.ProcessBundle | firmware/components/crypto/pcrypto.c:314-371 | accepts the same inputs with the same fields as the desktop client, with pre_key_id 0 when the pre-key is empty |
| BundleCodec.BothSidesAgree | firmware/components/crypto/pcrypto.c:314-371 | what either side reads of a bundle the other wrote |
| KeyNames.KeyOfIff | firmware/components/crypto/store.c:12-22 | two typed keys get one name exactly when they are equal or are peers of one store with the same fold |
| KeyNames.KeyFits | firmware/components/crypto/store.c:14-21 | every name fits 15 characters |
| KeyNames.HexIsInjective | firmware/components/crypto/store.c:21-21 | hex printing loses nothing |
| KeyNames.DecimalIsInjective | firmware/components/crypto/store.c:106-106 | decimal printing loses nothing |
| KeyNames.DecimalReads | firmware/components/crypto/store.c:106-106 | reading the printed digits back gives the number; only digits, no leading zero |
| KeyNames.HexReads | firmware/components/crypto/store.c:21-21 | two lower-case digits a byte, high nibble first |
| KeyNames.FirmwareFoldIff | firmware/components/crypto/store.c:17-20 | exactly which MAC-derived ids share a fold |
| KeyNames.SameVendorNeverAliases | firmware/components/mesh/mesh.c:87-89 | ids whose MACs share their first two bytes have the same fold only if equal |
| KeyNames.DifferentVendorsCanAlias | firmware/components/crypto/store.c:14-20 | two different firmware ids with the same session name |
| KeyNames.NodeKey | firmware/components/crypto/store.c:12-22 | prefix followed by eight hex digits that read back as the XOR of byte i and byte i + 4 |
| KeyStore.FaithfulIff | firmware/components/crypto/store.c:24-260 | every call sequence over a set of peers is answered as by four separate typed stores, if and only if no two of the peers share a fold |
| KeyStore.FlatRefinesTyped | firmware/components/crypto/store.c:24-260 | the simulation behind it: equal answers and matching contents after every call sequence |
| KeyStore.AliasShows | firmware/components/crypto/store.c:63-81 | storing a session for one of two aliased peers makes the other appear to have one |
| KeyStore.SessionLaws | firmware/components/crypto/store.c:24-99 | a session is what was last stored until it is deleted, an empty one loads as none, and a refused write changes nothing |
| KeyStore.IdentityLaws | firmware/components/crypto/store.c:229-260 | any key is trusted until one is saved, then only that one, until it is erased |
| KeyStore.KeyLaws | firmware/components/crypto/store.c:103-195 | a prekey is what was last stored under its id until it is removed, and it can be removed once |
| KeyStore.Nvs.LoadSession | firmware/components/crypto/store.c:24-42 | the record, or nothing if missing or empty |
| KeyStore.Nvs.SubDeviceSessions | firmware/components/crypto/store.c:44-61 | one device if a session exists, else none |
| KeyStore.Nvs.StoreSession | firmware/components/crypto/store.c:63-73 | the new namespace, or failure and no change |
| KeyStore.Nvs.ContainsSession | firmware/components/crypto/store.c:75-81 | whether a session record exists |
| KeyStore.Nvs.DeleteSession | firmware/components/crypto/store.c:83-99 | erases the record and says whether there was one |
| KeyStore.Nvs.LoadKey | firmware/components/crypto/store.c:103-167 | the record of a one-time or signed prekey, or its absence |
| KeyStore.Nvs.StoreKey | firmware/components/crypto/store.c:121-178 | the new namespace, or failure and no change |
| KeyStore.Nvs.ContainsKey | firmware/components/crypto/store.c:132-186 | whether the prekey exists |
| KeyStore.Nvs.RemoveKey | firmware/components/crypto/store.c:140-195 | erases the prekey, failing if there was none |
| KeyStore.Nvs.SaveIdentity | firmware/components/crypto/store.c:229-240 | stores or erases an identity and reports success either way |
| KeyStore.Nvs.IsTrusted | firmware/components/crypto/store.c:242-260 | trust on first use, then only the same key |
| KeyStore.Nvs.IdentityKeyPair | firmware/components/crypto/store.c:199-222 | both halves, or failure if either is missing |
| KeyStore.Nvs.RegistrationId | firmware/components/crypto/store.c:224-227 | the number, or failure if missing |
| PreKeyPool.PublishedIdsAreNeverRegenerated | firmware/components/crypto/pcrypto.c:54-87 | in every run with crashes and lost writes, published ids are below the counter and no batch writes a published id |
| PreKeyPool.EveryRunKeeps | firmware/components/crypto/pcrypto.c:54-252 | the pool invariant over init, bundle requests, removals and refills |
| PreKeyPool.BatchCounter | firmware/components/crypto/pcrypto.c:60-73 | a partly written batch either leaves the counter or moves it past the whole batch |
| PreKeyPool.BootKeeps | firmware/components/crypto/pcrypto.c:89-138 | key generation at boot touches only stores nothing was published from |
| PreKeyPool.Beginnings | firmware/components/crypto/pcrypto.c:77-87 | new devices and stores from before the counter existed satisfy the invariant |
| PreKeyPool.OfferedAgainIff | firmware/components/crypto/pcrypto.c:171-252 | after a bundle with an id and any further steps, the next bundle carries that id again exactly if no removal of it reached the flash in between |
| PreKeyPool.PublishedIsWhatPeersRead | firmware/components/crypto/pcrypto.c:294-311 | a peer decoding the bundle reads the id that counts as published |
| PreKeyPool.BatchIsStored | firmware/components/crypto/pcrypto.c:54-75 | key i of a batch lies under the id start + i, and the counter is start + 20 |
| PreKeyPool.FirstBootIsStored | firmware/components/crypto/pcrypto.c:89-138 | after a complete first boot each piece of the new key material lies under its own name |
| PreKeyPool.BundleIff | firmware/components/crypto/pcrypto.c:232-312 | peers decode given fields from a store's bundle exactly if every field is what the store holds, the one-time key is the first usable one, and all fit 199 bytes |
| PreKeyPool.FirstBundle | firmware/components/crypto/pcrypto.c:89-312 | a complete first boot and one request publish the registration id, public identity key, one-time key 1 and signed prekey that were generated, and the identity callback returns both halves |
| PreKeyPool.DryPoolRefills | firmware/components/crypto/pcrypto.c:242-252 | a request on a pool without usable keys publishes the first key of the new batch and moves the counter by 20 |
| PreKeyPool.StrandedIff | firmware/components/crypto/pcrypto.c:91-111 | exactly a power failure after the first or the second write of a first boot leaves an identity without a registration id |
| PreKeyPool.StrandedForGood | firmware/components/crypto/pcrypto.c:89-95 | such a store never gets its registration id and never publishes a bundle, in any run |
| PreKeyPool.KeyPool.NextPreKeyId | firmware/components/crypto/pcrypto.c:80-87 | the stored counter, or 21 without one |
| PreKeyPool.KeyPool.GenerateBatch | firmware/components/crypto/pcrypto.c:54-75 | the namespace after the batch's writes, of which any may be lost, for every start id, the counter wrapping at 32 bits |
| PreKeyPool.KeyPool.FindUnusedPreKey | firmware/components/crypto/pcrypto.c:171-209 | the smallest usable id below the counter, with its public key |
| PreKeyPool.KeyPool.LocalBundle | firmware/components/crypto/pcrypto.c:232-312 | the refill's writes, and the bundle read from the store after them; BundleIff says which bundle that is |
| PreKeyPool.KeyPool.EnsureIdentity | firmware/components/crypto/pcrypto.c:89-138 | the writes of first boot, in order, or none if an identity exists; FirstBootIsStored says what they leave under each name |
| KeyDirectory.HandedOutAtMostOnce | server/src/routes/keys.rs:117-130 | under any interleaving no prekey id of a node is handed out twice |
| KeyDirectory.HandedOutIsFirstPublished | server/src/routes/keys.rs:61-76 | what is handed out is the public key first published under that id |
| KeyDirectory.PublishedIsHandedPlusAvailable | server/src/routes/keys.rs:61-130 | distinct published ids = handed out + still available |
| KeyDirectory.EveryInterleavingKeeps | server/src/routes/keys.rs:28-143 | rows unique, locks on distinct unused rows, used rows exactly those handed out |
| KeyDirectory.NodeRowIff | server/src/routes/keys.rs:41-60 | at every moment of every interleaving a node has a row exactly if one was published, and it is the one last published |
| KeyDirectory.PublishedRowStays | server/src/routes/keys.rs:41-114 | after a publish the node's row is the published one until its next publish, whatever else happens |
| KeyDirectory.LockTakesFirst | server/src/routes/keys.rs:117-130 | a fetch takes the first unused row of the requested node that no other fetch holds, and none exactly if there is none |
| KeyDirectory.InsertAllOffers | server/src/routes/keys.rs:64-76 | a publish offers exactly the keys before the first bad one, in order, and succeeds exactly if there is no bad one |
| KeyDirectory.Directory.PublishBundle | server/src/routes/keys.rs:28-79 | the node's row becomes the given one, then prekeys are offered in order up to the first with bad hex, keeping the earlier ones; success exactly if all hex is good |
| KeyDirectory.Directory.InsertOne | server/src/routes/keys.rs:66-75 | insert with on conflict do nothing |
| KeyDirectory.Directory.GetBundle | server/src/routes/keys.rs:102-143 | the node's row and the first unused row of that node no other fetch holds, if any, or not found |
| MessageQueue.NothingIsLost | server/src/routes/messages.rs:56-162 | on every run each accepted id is pending, acknowledged or expired, and with fresh ids exactly one of them |
| MessageQueue.ConservedIff | server/src/routes/messages.rs:56-162 | the three are disjoint throughout a run exactly if no accepted submission repeats an earlier id |
| MessageQueue.BlockedIff | server/src/routes/messages.rs:65-67 | a sender is blocked exactly if the last word on it was a block |
| MessageQueue.SubmissionAdds | server/src/routes/messages.rs:56-90 | after any run a submission adds exactly its message if it is let in, and nothing otherwise |
| MessageQueue.PendingIff | server/src/routes/messages.rs:56-162 | on every run the table holds exactly the messages let in and not since acknowledged by their addressee or expired |
| MessageQueue.AckIff | server/src/routes/messages.rs:146-162 | an acknowledgement succeeds exactly for a message with that id and addressee |
| MessageQueue.PollIsOwn | server/src/routes/messages.rs:112-127 | a poll answers with at most a hundred messages, all in the table and for that node |
| MessageQueue.PollReturnsTheOldest | server/src/routes/messages.rs:118-127 | no message left behind by a poll is older than one it returned |
| MessageQueue.DrainIsReachable | client/desktop/src/main.rs:157-180 | repeated polling delivers, in queue order and once each, exactly the readable messages with fewer than 100 unreadable ones ahead |
| MessageQueue.ReadableQueueDrains | client/desktop/src/main.rs:157-180 | with fewer than 100 unreadable messages all readable ones are delivered, oldest first |
| MessageQueue.DeliveredIff | client/desktop/src/main.rs:157-180 | a given readable message is ever delivered exactly if fewer than 100 unreadable ones precede it |
| MessageQueue.PollMakesProgress | client/desktop/src/main.rs:157-180 | each poll lowers the number of readable messages by what it delivered, and delivers something while any is left |
| MessageQueue.MessageServer.SubmitMessage | server/src/routes/messages.rs:56-100 | each of the four answers exactly under its guard: sender blocked, limited, id in the table, or queued behind the rest |
| MessageQueue.MessageServer.PollMessages | server/src/routes/messages.rs:112-139 | the first hundred messages of that node, or all of them |
| MessageQueue.MessageServer.AckMessage | server/src/routes/messages.rs:146-162 | deletes only if id and addressee both match |
| MessageQueue.PollOnce | client/desktop/src/main.rs:157-180 | delivers the readable part of the batch, acknowledges exactly that, and touches nobody else's messages |
| MessageQueue.LaterQueueBehind | server/src/routes/messages.rs:118-127 | messages that arrive later take nothing from what the earlier queue would deliver |
| MessageQueue.Listen | client/desktop/src/main.rs:139-148 | over any number of turns with submissions in between, delivered and still to come add up to what the queue with the arrivals behind it will ever deliver |
| Provider.DecryptUndoesEncrypt | firmware/components/crypto/provider.c:113-202 | decryption returns every plaintext of every length in both modes, for an IV of any length whose 16-byte copies agree |
| Provider.IvCopyAt | firmware/components/crypto/provider.c:123-124 | the IV handed on is the caller's byte for byte, and the stack's only beyond its length |
| Provider.EncryptUndoesDecryptIff | firmware/components/crypto/provider.c:183-194 | re-encrypting a decrypted ciphertext gives it back exactly when its padding was in order |
| Provider.TamperedPaddingIsAccepted | firmware/components/crypto/provider.c:183-194 | a ciphertext that decrypts to sixteen zeros is accepted, and re-encrypting what it decrypts to gives something else |
| Provider.PaddedLength | firmware/components/crypto/provider.c:104-111 | the padded length is the least multiple of 16 strictly above the input, section 6.3 of RFC 5652 |
| Provider.UnpadUndoesPad | firmware/components/crypto/provider.c:189-193 | unpadding returns exactly the original |
| Provider.Pkcs7Pad | firmware/components/crypto/provider.c:104-111 | the buffer holds the input followed by the padding |
| Provider.Encrypt | firmware/components/crypto/provider.c:113-157 | the branch per cipher on the caller's first 16 IV bytes, the plaintext padded for CBC, and an error for an unknown cipher |
| Provider.Decrypt | firmware/components/crypto/provider.c:159-202 | the branch per cipher on the caller's first 16 IV bytes, the padding cut off by its last byte, and an error for a partial block or an unknown cipher |
| Radio.RegisterIsExactIff | firmware/components/radio/sx1262.c:83-86 | the cast to 32 bits drops nothing exactly below 4.096 GHz, and the carrier is within one step of the request |
| Radio.RegisterBytes | firmware/components/radio/sx1262.c:87-87 | the four bytes, most significant first, reassemble to the register |

## Assumptions

- Both machines are little-endian, so the native-order copies of `u32` agree.
- Handlers are atomic and a transmission is one step that every neighbour may or may not receive.
- The clock, random ids, ciphertexts, decryption results, key material and the answer of the rate limiter
  in front of the queue are parameters. Clock readings never run backwards but may repeat.
- Where the prekey pool's results need it, the key helper numbers a batch upwards from the requested start
  and the counter does not wrap (`PreKeyPool.Consecutive`). The helper's numbering is a parameter.
- Message ids are random UUIDs; where `MessageQueue` needs them never to repeat, it says so (`FreshIds`).
- The cipher library's CBC calls are inverse to each other on whole blocks and keep lengths; CTR undoes
  itself. Whether a queued message decrypts is a fixed property of the message.
- A row lock is taken on the first unused row nobody holds at that moment.

## Left out

- RateLimiter.RateTable.RateLimited: the per-window counter is unbounded, not a 32-bit int, because reaching
  2^31 packets in 60 s is beyond the radio.
- PreKeyPool.KeyPool.LocalBundle: requires a counter that is not 0 before or after a refill, where the
  search for an unused prekey may never end; memory exhaustion is not modelled.
- KeyStore.Nvs.SaveIdentity: flash errors other than a refused write are not modelled.
- KeyStore.Nvs.LoadSession: running out of memory is not modelled, here and in the other callbacks.
- MessageQueue.PollOnce: a failing request aborts the poll in the source; the model has a server that answers.
- MessageQueue.Listen: nothing expires between turns.
- MessageQueue.MessageServer.PollMessages: messages with equal creation times keep one fixed order.
- Provider.Decrypt: zero-length CBC input is excluded, where the code reads the byte before its buffer.
- Network.EveryRunIsSafe: the neighbour graph does not change during a run.
- libsignal (X3DH, Double Ratchet, curve and signature arithmetic) and mbedtls are not part of this model.
- Radio interrupts, SPI timing and the driver's transmit timeout.
- The BLE bridge, the web client, the admin panel, the website and the self-hosted channel server.
- The Redis limiter's own counting and the publish nudge, which fail open.
- HTTP routing, hex parsing of ids, logging and configuration.
