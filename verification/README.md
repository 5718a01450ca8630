# Verification of ws-streaming

This project models how the library moves signals from one peer to another and proves what its protocol
is for. It has two layers.

**Transport.** `DynamicBuffers` is the transmit buffer, a byte queue in recycled blocks. `Peers` and
`TlsPeers` are the two sending halves, which mix direct, partial and queued sends. `BasePeers` is the
receiving half, which reassembles packets and frames in one growing buffer, in place. `StreamingProtocol`
and `WebSocketProtocol` are the two header codecs. `Framing` is the pure greedy parse that the receiver
must compute, and what the sender's frames parse to. `Answers` joins the two halves of one peer: closes and
pings that arrive are answered. `Links` joins a sender and a receiver: sockets may take any part of what
they are offered and reads may return any part of what is on its way.

**Signals.** `Publishers` and `Receivers` say, as functions on values, what the two halves of a connection
do for each event and message; `LocalSides` and `RemoteSides` are the same halves as classes that change
their maps, tables and counts in place, each method proved equal to those functions. `LinearTables` holds
the table arithmetic, the table objects and the domain packets. The theorems about whole runs are in
`Directories` (who exists, numbering, subscriptions: every run whatever), `Announcements` (events, any
messages whatever), `OwnTables` (no signal is its own domain, any messages whatever), `References`
(subscription counts), `Steps`, `Bindings` and `TimeAgreement` (which times are delivered), `LostDomains`
and `RemovedDomains` (what becomes of them when a domain in use is removed), `LateDomains` (what a signal
made a domain late does to them), `Sparing` (how few domain packets that takes), and `Holders` and
`Audiences` (the subscribe count that several connections share). `EndToEnd` puts both layers together, and
`Counterexamples` shows runs in which a result fails when its condition does.

A run is any sequence of registrations, removals, greetings, subscriptions, unsubscriptions, metadata
changes and publications at the publisher. Since the channel delivers in order, what the receiver knows at
any moment is what follows from some first part of the messages sent, so a statement about every prefix is
a statement about every interleaving of sending and receiving.

The time results are about mannerly runs (`TimeAgreement.Mannerly`), which ask of the application and the
remote peer: metadata as the builder makes it (a value index of zero; a linear signal has a start and a
step and names itself as its table); exactly what keeps the subscription counts right
(`References.PermittedExactly`); that domains name no domains (`References.Shapely`); that nothing is
published on a domain itself, and an explicit-rule block has the sample count its size says; and that a
signal which was published on, since its metadata was last forwarded, is not made linear while it is not
subscribed. Signals may share a domain, change their rules, and be left without their domain.

In every mannerly run every block published on a subscribed signal is delivered, in order. Five promises
do not hold unconditionally, and are proved with the exact condition:

- A block is delivered with the time that was passed if and only if the signal it names has been registered
  and linear without interruption since the metadata of the signal itself was last sent, that is, since it
  was subscribed or a change of its own metadata was forwarded (`TimeAgreement.TimeCarriedExactly`).
  Otherwise there is one time only that it can keep. `Counterexamples.UnboundLosesTimes` subscribes a
  signal, makes its domain linear afterwards, and has every time delivered as 0, because only the signal
  whose metadata changes is bound anew. Rule changes of other signals do not matter.
- A domain that is removed while signals use it is forgotten by the publisher, whose signals hold it weakly,
  but not by the receiver, whose signals keep it. From then on each block is delivered with the time that
  the line of that moment gives its first sample, however long ago the removal; a constant-rule signal goes
  by the index that the explicit-rule signals left without the same domain have driven its table to
  (`TimeAgreement.LostExactly`, `RemovedDomains.LostFrom`), so the next block keeps its time if and only if
  the domain predicted it (`RemovedDomains.RemovedDomainExactly`).
- The subscription counts stay right under a step, from any state in which they are right, if and only if it
  is permitted; so they stay right throughout a run if and only if every step is
  (`References.PermittedExactly`, `References.CountsConserved`). Registering a signal is permitted while no
  subscribed signal names it; removing one, or giving it another domain, while the registered domains keep
  their users. Subscribing is permitted unless the signal has a registered domain and either is subscribed
  as a domain only so far, so that its own domain is not reached (`Counterexamples.ChainSubscribedTwice`),
  or would be one user more than 32 bits count. Unsubscribing a signal with a registered domain is
  permitted if the subscription was made (`Counterexamples.UnfoundedUnsubscribe`), nothing else keeps the
  signal subscribed, and the withdrawal ends at the domain: subscribing follows one domain, but
  unsubscribing follows domains of domains as well (`Counterexamples.ChainUnsubscribed`); or if the signal
  is subscribed as a domain only. Where domains name no domains, the condition for unsubscribing is
  just that the subscription was made (`References.UnsubscribeFlatExactly`).
- When a linear signal starts to be forwarded, both ends begin with the same table if and only if the
  samples published on it, while it was subscribed and since its metadata was last forwarded, are none (as
  far as 64 bits go): the publisher's table starts at the value index in the metadata, zero, and the
  receiver's at the index reached. The first block of a signal that then uses it keeps its time if and only
  if that time is not the predicted one, or those samples amount to nothing on the line, or the signal is
  not an explicit-rule one and so goes by the table's index rather than its own
  (`LateDomains.FirstTablesAgreeExactly`, `LateDomains.FirstBlockTimeExactly`;
  `Counterexamples.LateDomainDelivers` delivers a sample published at time 0 with time -3).
- Metadata is understood if and only if the receiver reads the encoding word in the byte order the sender
  wrote it in (`EndToEnd.UnderstoodExactly`). The sender writes it in host order whatever the mode, and the
  receiver reads it most significant byte first over direct TCP, so between little-endian hosts a
  publisher's metadata is understood in WebSocket mode only, and over direct TCP nothing is ever delivered
  (`EndToEnd.NothingDelivered`).

`src/detail/streaming_protocol.cpp:7-45` assembles the second header word in signed arithmetic, so a
payload of 2^31 bytes or more is not read back as it was written; an empty payload is not either. The round
trip is therefore stated as an if-and-only-if (`StreamingProtocol.RoundTripsExactly`).

Bytes are integers from 0 to 255. Words of 32 and 64 bits wrap around where the code relies on it: header
words, implicit subscription counts, value indices, times and table values. Where signed 64-bit arithmetic
would overflow, which C++ leaves undefined, the model wraps around too.

## Model

| member | source | states |
|---|---|---|
| Bytes.OrDisjoint | include/ws-streaming/detail/streaming_protocol.hpp:70-91 | fields that share no bit are assembled by "or" as by addition |
| Bytes.XorInvolutive | src/detail/base_peer.cpp:193-197 | masking twice with one key byte gives the byte back |
| Bytes.XorBits | src/detail/base_peer.cpp:193-197 | a bit of an exclusive or is the one bit, turned over where the other is set |
| Bytes.OrBits | include/ws-streaming/detail/streaming_protocol.hpp:70-91 | a bit of an inclusive or is set where either is |
| Bytes.LittleDigit | include/ws-streaming/detail/streaming_protocol.hpp:44-55 | byte i of the little-endian form is digit i of the number in base 256 |
| Bytes.BigDigit | src/detail/websocket_protocol.cpp:13-79 | byte i from the end of the big-endian form is |
| StreamingProtocol.GenerateHeader | include/ws-streaming/detail/streaming_protocol.hpp:70-91 | writes the header bytes to the front of the caller's buffer and leaves the rest alone, or throws for sizes that do not fit 32 bits and writes nothing |
| StreamingProtocol.DecodeHeader | src/detail/streaming_protocol.cpp:7-45 | reads, through a position in an array, exactly what the decoding function says, incomplete packets included |
| StreamingProtocol.HeaderLayout | include/ws-streaming/detail/streaming_protocol.hpp:70-91 | a header byte by byte: number, size and type in bits 0 to 19, 20 to 27 and 28 to 31 of one little-endian word, a size of 256 or more in a second |
| StreamingProtocol.LargeSizeDecodes | src/detail/streaming_protocol.cpp:7-45 | a size of 2^31 or more is read as that size plus 2^64 less 2^32 |
| StreamingProtocol.RoundTrip | src/detail/streaming_protocol.cpp:7-45 | header, payload and any tail decode to the same number, type, size and header size |
| StreamingProtocol.ProperPrefixIncomplete | src/detail/streaming_protocol.cpp:7-45 | no proper prefix of a packet is taken for a packet |
| StreamingProtocol.RoundTripsExactly | src/detail/streaming_protocol.cpp:7-45 | decoding undoes generating for all payloads and tails if and only if the number is below 2^20, the type below 16 and the size from 1 to 2^31-1 |
| StreamingProtocol.DecodeStable | src/detail/streaming_protocol.cpp:7-45 | later bytes never change what a complete packet decoded to |
| StreamingProtocol.DecodeLocal | src/detail/streaming_protocol.cpp:7-45 | a complete packet is decoded from its own bytes alone |
| WebSocketProtocol.GenerateHeader | include/ws-streaming/detail/websocket_protocol.hpp:60-93 | writes the 7-, 16- or 64-bit length form to the front of the buffer and leaves the rest alone |
| WebSocketProtocol.DecodeHeader | src/detail/websocket_protocol.cpp:13-79 | reads, through a position in an array, exactly what the decoding function says |
| WebSocketProtocol.FrameLayout | include/ws-streaming/detail/websocket_protocol.hpp:60-93 | a frame byte by byte, masked or not, as section 5.2 of RFC 6455 lays it out |
| WebSocketProtocol.MaskInvolutive | src/detail/base_peer.cpp:193-197 | masking per section 5.3 of RFC 6455 is undone by masking again |
| WebSocketProtocol.MaskedZeros | src/detail/base_peer.cpp:193-197 | zero bytes, masked, are the key over and over |
| WebSocketProtocol.MaskedBits | src/detail/base_peer.cpp:193-197 | masking turns over exactly the bits under a set bit of the key, repeated |
| WebSocketProtocol.RoundTrip | src/detail/websocket_protocol.cpp:13-79 | a frame, masked or not, followed by any tail decodes to its opcode, flags, mask, size and header size |
| WebSocketProtocol.ProperPrefixIncomplete | src/detail/websocket_protocol.cpp:13-79 | no proper prefix of a frame is taken for a frame |
| WebSocketProtocol.RoundTripsExactly | src/detail/websocket_protocol.cpp:13-79 | decoding undoes generating, for every size, payload and tail, if and only if the opcode is below 16 and the flags lie in the upper four bits |
| WebSocketProtocol.DecodeStable | src/detail/websocket_protocol.cpp:13-79 | later bytes never change what a complete frame decoded to |
| WebSocketProtocol.DecodeLocal | src/detail/websocket_protocol.cpp:13-79 | a complete frame is decoded from its own bytes alone |
| DynamicBuffers.DynamicBuffer.constructor | src/detail/dynamic_buffer.cpp:7-13 | an empty buffer whose block count is the limit divided by the block size, rounded down |
| DynamicBuffers.DynamicBuffer.Data | src/detail/dynamic_buffer.cpp:15-30 | the descriptors stand for a prefix of the contents, nonempty when the contents are, and for all of them when at most 64 blocks are used |
| DynamicBuffers.DynamicBuffer.Consume | src/detail/dynamic_buffer.cpp:32-49 | the contents lose exactly their first min(n, size) bytes; no block is freed or allocated |
| DynamicBuffers.DynamicBuffer.RecycleFrontBlock | src/detail/dynamic_buffer.cpp:107-118 | the first block goes to the back of the deque, and its data is no longer counted |
| DynamicBuffers.DynamicBuffer.Prepare | src/detail/dynamic_buffer.cpp:51-83 | descriptors of consecutive free space after the data, short of n only when the last block allowed is filled; allocates only what they need |
| DynamicBuffers.DynamicBuffer.Commit | src/detail/dynamic_buffer.cpp:85-105 | appends to the contents the next n bytes of the free space, over as many blocks as they reach into |
| DynamicBuffers.DynamicBuffer.Write | include/ws-streaming/detail/dynamic_buffer.hpp:114-123 | the contents gain exactly the first min(length, max_blocks x block_size - size - read_offset) bytes, which is less than a block short of the limit; the blocks allocated are as many as were ever occupied at once |
| DynamicBuffers.CopiedDescribed | include/ws-streaming/detail/dynamic_buffer.hpp:114-123 | copying through the descriptors stores the data where it will be found, and touches nothing in front |
| Peers.Peer.constructor | src/detail/peer.cpp:26-38 | a new peer has room for more than the size it was given less one block of 64 KiB, and for no more than that size |
| Peers.Peer.Write | include/ws-streaming/detail/peer.hpp:233-274 | sends directly what the socket takes, never overtaking buffered bytes; wire and buffer together stay the concatenation of the frames written; when and why it closes; a shutdown asked for comes once everything is out, and none otherwise |
| Peers.Peer.Enqueue | include/ws-streaming/detail/peer.hpp:276-291 | buffers the rest, remembers a shutdown asked for and makes a write wait active, or closes when it does not fit |
| Peers.Peer.FinishWaitTx | src/detail/peer.cpp:129-156 | sends a nonempty prefix of what is buffered, keeps the law, loses no room, waits again exactly when something is left, and shuts down exactly when a frame to shut down after was written and everything is out |
| Peers.Peer.SendPacket | include/ws-streaming/detail/peer.hpp:163-201 | does with header and payload, or the binary frame around them, what a write without a shutdown does, or throws and writes nothing |
| Peers.Peer.SendWebsocketFrame | include/ws-streaming/detail/peer.hpp:203-231 | does with one unmasked frame what a write does, and shuts down after it only if asked to |
| TlsPeers.TlsPeer.Write | include/ws-streaming/detail/peer_tls.hpp:182-212 | queues the frame, keeps the byte count equal to what is queued, and closes exactly when that exceeds the limit; a shutdown asked for is queued with its frame |
| TlsPeers.TlsPeer.SendPacket | include/ws-streaming/detail/peer_tls.hpp:110-148 | queues header and payload, or the binary frame around them, without a shutdown, or throws and queues nothing |
| TlsPeers.TlsPeer.SendWebsocketFrame | include/ws-streaming/detail/peer_tls.hpp:150-180 | queues one unmasked frame |
| TlsPeers.TlsPeer.Transfer | src/detail/peer_tls.cpp:97-114 | while the message in flight is written, the wire stays a prefix of the frames written |
| TlsPeers.TlsPeer.FinishWrite | src/detail/peer_tls.cpp:116-134 | drops the message written and starts the next one, if any; one message is in flight exactly when the queue is not empty |
| Framing.ParseAppend | src/detail/base_peer.cpp:88-179 | parsing may stop after any byte and go on from what was left over, up to a refused frame |
| Framing.ChunkingIndependence | src/detail/base_peer.cpp:88-179 | what is handled and what is left over depend on the bytes received, not on how they were split into reads |
| Framing.RestIncomplete | src/detail/base_peer.cpp:88-179 | what is left over is an incomplete unit, unless a frame was refused |
| Framing.UnitExceedsRest | src/detail/base_peer.cpp:110-126 | a unit that is still incomplete is larger than what has arrived of it |
| Framing.MaskedFrameSameEvents | src/detail/base_peer.cpp:181-242 | a masked frame makes the same things happen as its unmasked form |
| Framing.FrameMeans | src/detail/base_peer.cpp:199-241 | what a complete frame makes happen, by the numbers of its opcodes, whatever mask and whatever follows it |
| Framing.PingAnswered | src/detail/base_peer.cpp:213-221 | a ping gets exactly one answer, byte by byte an unmasked pong with the same payload, and nothing is shut down |
| Framing.CloseAnswered | src/detail/base_peer.cpp:202-211 | a close gets exactly one answer, an empty close, after which the connection is shut down |
| Framing.RefusedExactly | src/detail/base_peer.cpp:187-191 | a frame is refused if and only if it is complete and its final-fragment bit is clear |
| Framing.PacketsTold | src/detail/base_peer.cpp:226-236 | a binary payload tells its packets in order, data for type 1, metadata for type 2 and nothing for any other; a part of one more is dropped |
| Framing.StreamPrefix | src/detail/base_peer.cpp:88-179 | whatever part of the sender's bytes arrived, exactly the first k things written were handled and a proper part of the next is left |
| Framing.DeliveredInOrder | src/detail/base_peer.cpp:88-179 | what was handled is a prefix of what was written, and all of it once every byte arrived |
| BasePeers.BasePeer.GrowRxBuffer | src/detail/base_peer.cpp:24-34 | the buffer doubles up to its maximum and keeps what it holds; fails exactly at the maximum |
| BasePeers.BasePeer.RunWithData | src/detail/base_peer.cpp:41-72 | handed-over data is parsed like received data; the peer closes for lack of space exactly when it exceeds the maximum or leaves a full maximum's worth of one unit |
| BasePeers.BasePeer.FinishRead | src/detail/peer.cpp:101-127 | after each read the events are those of the greedy parse of everything received, the buffer holds its rest, and there is room for the next read; when and why it closes |
| BasePeers.BasePeer.GivesUpOnlyOnOversizedUnits | src/detail/base_peer.cpp:110-126 | a peer that closed for lack of space was sent a unit larger than the maximum, whatever bytes complete it |
| BasePeers.BasePeer.ProcessBufferTcp | src/detail/base_peer.cpp:88-127 | the parsing loop handles what the greedy parse of the buffer says and keeps its rest |
| BasePeers.BasePeer.ProcessBufferWs | src/detail/base_peer.cpp:129-179 | the same for frames, unmasked in place on the way, up to a refused frame |
| BasePeers.BasePeer.SlideAndGoOn | src/detail/base_peer.cpp:110-126 | the rest slides to the front; the peer closes exactly when a full maximum is waiting, and otherwise reads on with room left |
| BasePeers.BasePeer.ProcessWebsocketFrame | src/detail/base_peer.cpp:181-242 | refuses exactly frames without the final-fragment bit; otherwise the events that the number of the opcode calls for; no byte outside the payload changes |
| BasePeers.BasePeer.Unmask | src/detail/base_peer.cpp:193-197 | in the buffer exactly the bits under a set bit of the key, repeated, are turned over |
| BasePeers.BasePeer.ProcessPacket | src/detail/base_peer.cpp:244-274 | handles the first packet if it is complete, and says how many bytes it took |
| BasePeers.BasePeer.constructor | src/detail/base_peer.cpp:17-22 | the buffer starts out as 64 KiB, or its maximum if that is less |
| Answers.ParseWellFormed | src/detail/base_peer.cpp:199-241 | whatever bytes arrive, nothing is answered but by empty closes to shut down after and by pongs |
| Answers.Endpoint.FinishRead | src/detail/peer.cpp:165-172 | after a read what must be answered was submitted, in order and unmasked; once a close was answered the peer is open only until its answer is out, and it never shuts down otherwise |
| Links.Link.DeliversInOrder | src/detail/peer.cpp:101-156 | for any partial sends and any read sizes, what the receiver handled is a prefix of what was sent, and all of it once buffer and wire are empty |
| Links.Link.SendPackets | include/ws-streaming/detail/peer.hpp:163-201 | any number of packets for which there is room leave the sender open, whatever the socket takes of them |
| Links.Link.Settle | src/detail/peer.cpp:101-156 | write waits and reads that do not fail bring everything sent to the application, in order, however little the socket takes at a time |
| Links.Link.Deliver | src/detail/peer.cpp:101-127 | any next part of the wire that fits may arrive; the receiver never gives up on units that fit its maximum |
| Links.TlsLink.DeliversInOrder | src/detail/peer_tls.cpp:97-134 | the same for the TLS sender, once queue and wire are empty |
| Links.TlsLink.SendPacket | include/ws-streaming/detail/peer_tls.hpp:110-148 | an open sender stays open exactly when what is queued is within its limit |
| Links.TlsLink.Flush | src/detail/peer_tls.cpp:82-134 | completed writes put everything queued on the wire and leave the sender open |
| Links.TlsLink.Deliver | src/detail/peer_tls.cpp:82-95 | any next part of the wire that fits may arrive; the receiver never gives up on units that fit its maximum |
| Links.NeverGivesUp | src/detail/base_peer.cpp:110-126 | a receiver that was sent only units it can hold never refuses and never runs out of space |
| LinearTables.LinearTable.Update | src/detail/linear_table.cpp:16-32 | takes over id, start, step and value index as far as the metadata has them |
| LinearTables.UpdateLaws | src/detail/linear_table.cpp:16-32 | empty metadata changes nothing, two updates do what one with the fields of both does, and complete metadata decides everything |
| LinearTables.PayloadLayout | include/ws-streaming/detail/streaming_protocol.hpp:44-55 | a domain packet byte by byte: index, then value, in two's complement |
| LinearTables.PayloadSets | src/detail/linear_table.cpp:34-56 | a domain packet, whatever follows it, does to a table what setting the value does, and the value set is then the predicted one |
| LinearTables.Int64RoundTrip | include/ws-streaming/detail/streaming_protocol.hpp:44-55 | signed 64-bit fields survive their little-endian form |
| LinearTables.Tables.Refresh | src/connection.cpp:305-314 | a linear signal's table is updated in place or made, any other signal's table dies, and no other table changes |
| LocalSides.LocalSide.RefreshLocalSignalBindings | src/connection.cpp:298-330 | the derived state of one signal after a refresh, table objects included |
| LocalSides.LocalSide.AddLocalSignal | src/connection.cpp:139-165 | registers under the next number, binds and advertises; does nothing for a signal already there |
| LocalSides.LocalSide.RemoveLocalSignal | src/connection.cpp:167-173 | removes the signal and its table and withdraws it |
| LocalSides.LocalSide.DoHello | src/connection.cpp:212-243 | advertises the registered ids in the order of their numbers |
| LocalSides.LocalSide.Subscribe | src/connection.cpp:690-756 | the counts, tables and messages of a subscription, the domain first, and the returned flag |
| LocalSides.LocalSide.Unsubscribe | src/connection.cpp:758-789 | the counts and messages of an unsubscription, the domain last, and the returned flag |
| LocalSides.LocalSide.OnMetadataChanged | src/connection.cpp:332-339 | a forwarded signal is refreshed, its value index restarts and its metadata is sent; any other only changes its metadata |
| LocalSides.LocalSide.OnDataPublished | src/connection.cpp:341-379 | the domain packet, if the time is off the line, the data, the sample count and the driven index |
| Publishers.ResultTells | src/connection.cpp:690-789 | the result of subscribing or unsubscribing is true exactly when something is sent |
| Publishers.RegisteredTable | src/connection.cpp:139-165 | a signal has a table when it is registered exactly if it is linear, and the table starts where the metadata says |
| Directories.IdsAscend | src/connection.cpp:212-243 | the greeting advertises the signals in the order of their registration |
| Directories.HelloTells | src/connection.cpp:227-238 | the greeting advertises nothing if and only if nothing is registered |
| Publishers.UnforwardedChange | src/connection.cpp:332-339 | a metadata change of a signal that is not forwarded is told to nobody, and nothing derived from it is brought up to date |
| RemoteSides.RemoteSide.FindTableEntry | src/detail/remote_signal_container.cpp:39-57 | the first signal in id order whose table has the name, or none if there is none |
| Receivers.FirstFound | src/detail/remote_signal_container.cpp:39-57 | of all signals whose tables have a name, the one whose id comes first is found |
| Receivers.DictionaryOrder | include/ws-streaming/detail/remote_signal_container.hpp:99-99 | ids are ordered by the first letters that differ, and what is shorter comes first |
| RemoteSides.RemoteSide.OnAvailable | src/connection.cpp:468-512 | makes each signal known and announces it once |
| RemoteSides.RemoteSide.OnUnavailable | src/connection.cpp:554-587 | forgets each signal in both indices and tells what must be told |
| RemoteSides.RemoteSide.OnSubscribe | src/connection.cpp:514-544 | makes an unknown signal known but hidden, numbers it and marks it subscribed |
| RemoteSides.RemoteSide.OnUnsubscribe | src/connection.cpp:546-552 | marks the numbered signal not subscribed and forgets the number |
| Receivers.NumberForgotten | src/connection.cpp:546-552 | the number of an unsubscribe message leads nowhere afterwards |
| RemoteSides.RemoteSide.OnSignal | src/detail/remote_signal_impl.cpp:174-220 | takes over metadata, table and value index, and binds to the table sought, never to its own |
| Receivers.IndexKept | src/detail/remote_signal_impl.cpp:192-192 | metadata without a value index leaves the sample index alone |
| OwnTables.NeverItsOwn | src/detail/remote_signal_impl.cpp:200-205 | for any messages, no signal is bound to its own table, whatever the tables are called, and no two signals share one |
| RemoteSides.RemoteSide.OnData | src/detail/remote_signal_impl.cpp:41-100 | which time, sample count and bytes the application gets for a block, and how the tables move |
| Receivers.SampleCountExactly | src/detail/remote_signal_impl.cpp:67-73 | a block counts for as many whole samples as fit it, for one if it is of variable size, and for none otherwise |
| Receivers.SamplesCounted | src/detail/remote_signal_impl.cpp:67-82 | samples put one after the other are delivered in one block with their number, and the index and the domain table move on by it, whatever the state |
| Receivers.DeliveredOnce | src/detail/remote_signal_impl.cpp:41-100 | a block is delivered once if its signal is subscribed, and otherwise changes nothing |
| Receivers.DomainPacketSets | src/detail/remote_signal_impl.cpp:61-65 | a domain packet sets the table to its index and value, and one of less than 16 bytes leaves it alone |
| RemoteSides.RemoteSide.ClearRemoteSignals | include/ws-streaming/detail/remote_signal_container.hpp:50-65 | empties both indices, detaches everything and then withdraws what was announced |
| Directories.EveryRunAgrees | src/connection.cpp:139-173 | in every run both ends agree on what is known, hidden, numbered and subscribed, and the indices are consistent after every message |
| Directories.AdvertisementAgreement | src/connection.cpp:450-512 | after the greeting the announced ids are the registered ids once the channel is drained; before it there are none |
| Directories.TwoIndexConsistency | include/ws-streaming/detail/remote_signal_container.hpp:67-94 | at every moment of every run each number leads to a known signal that carries it |
| Directories.SubscriptionAgreement | src/connection.cpp:514-552 | a remote signal is subscribed exactly when it is forwarded, and is then found by its number |
| Directories.SubscribeConsistent | include/ws-streaming/detail/remote_signal_container.hpp:87-94 | for any consistent receiver, a subscribe message keeps the indices consistent if and only if it is ignored or the signal is not reached by another number |
| Directories.SubscribersAgree | src/connection.cpp:690-789 | in every permitted run a remote signal is subscribed if and only if the remote peer subscribed it, or subscribed a signal that names it |
| Announcements.EventsAlternate | src/connection.cpp:468-587 | for any messages, the available and unavailable events of an id alternate, as do its subscribed and unsubscribed events, and match what the signal is now |
| Announcements.CloseEndsEverything | src/connection.cpp:280-296 | closing gives each announced id exactly one unavailable event and no other id any |
| Announcements.WithdrawnLast | src/detail/remote_signal_impl.cpp:128-144 | for any messages, whenever a signal is withdrawn its subscription has been ended before |
| Announcements.CloseWithdrawsLast | include/ws-streaming/detail/remote_signal_container.hpp:50-65 | when the connection closes too |
| Announcements.NoStaleEnding | src/detail/remote_signal_impl.cpp:128-144 | an unsubscribed event after an unavailable one ends a subscription that was begun in between |
| Announcements.WithdrawnInOrder | include/ws-streaming/detail/remote_signal_container.hpp:50-65 | a connection that closes withdraws its signals in the order of their ids |
| References.CountsConserved | src/connection.cpp:690-789 | in any run, after every step each implicit count is the number of explicitly subscribed signals naming the domain and a signal is forwarded exactly when it is subscribed, if and only if every step is permitted |
| References.DomainConnected | src/connection.cpp:709-714 | a subscribed signal has its registered domain counted and forwarded |
| References.PermittedExactly | src/connection.cpp:690-789 | from any state with right counts, whatever names what, any step keeps them right if and only if it is permitted |
| References.RegisteredExactly | src/connection.cpp:139-165 | registering a signal keeps the counts right if and only if no subscribed signal names it |
| References.OwnChangeExactly | src/connection.cpp:332-339 | giving a signal another domain keeps the counts right if and only if the registered domains keep their users |
| References.SubscribeExactly | src/connection.cpp:694-714 | subscribing keeps the counts right if and only if the signal has no registered domain, was subscribed explicitly, or was not subscribed at all and the domain's count does not wrap around |
| References.UnsubscribeExactly | src/connection.cpp:758-789 | unsubscribing keeps the counts right if and only if the signal has no registered domain, or the subscription was made, nothing else keeps it and the withdrawal ends at the domain, or the signal is subscribed as a domain only |
| References.UnsubscribeFlatExactly | src/connection.cpp:758-789 | where domains name no domains, that is if and only if it does not withdraw a subscription never made on a signal with a registered domain |
| References.WithdrawalShows | src/connection.cpp:783-787 | however far an implicit withdrawal is passed on, even around a circle of domains, the count it starts at has changed |
| References.RemovedExactly | src/connection.cpp:167-173 | removing a signal keeps the counts right if and only if it uses no registered domain |
| References.SubscribeLocalView | src/connection.cpp:690-756 | what subscribing does to the counts and the forwarding alone |
| References.UnsubscribeLocalView | src/connection.cpp:758-789 | what unsubscribing does to the counts and the forwarding alone |
| Steps.OthersStay | src/detail/linear_table.cpp:16-32 | signals bound to a table stay in step when its owner's metadata changes, even if the table dies |
| Steps.FindTableFinds | src/detail/remote_signal_container.cpp:39-57 | the table of a name is the one of the signal of that name |
| Steps.SentInStep | src/detail/remote_signal_impl.cpp:174-220 | handling a signal's metadata brings the receiver in step: same table, same binding, same value index |
| Steps.RetimeBoth | src/connection.cpp:350-370 | a domain packet reaches the subscribed domain and makes both tables predict the time passed |
| Steps.BlockBoth | src/detail/remote_signal_impl.cpp:67-100 | a block whose time is predicted is delivered with that time and count, and both ends move on alike |
| Bindings.ApplyMoves | src/connection.cpp:298-339 | every step binds afresh exactly the signals whose metadata it sends, leaves all other references alone, and revives no dead table |
| Bindings.BoundAfter | src/connection.cpp:315-329 | after a step a forwarded signal is bound to a live table if and only if it names a registered linear signal and was bound afresh or bound before |
| TimeAgreement.BoundExactly | src/connection.cpp:348-352 | in every mannerly run a forwarded signal is bound to a live table if and only if the signal it names has been registered and linear since the metadata of the first was last sent |
| LostDomains.OutlivedStays | src/detail/remote_signal_impl.cpp:67-82 | whatever message is handled, a table that outlived its signal stays alive and is at most driven, by explicit-rule blocks of the signals bound to it |
| LostDomains.BoundAnew | src/detail/remote_signal_impl.cpp:194-219 | a signal whose metadata is sent anew is not bound to the table of a domain that is gone |
| LostDomains.SiblingsStay | src/detail/remote_signal_impl.cpp:194-219 | signals left without the same domain share its table after every step |
| TimeAgreement.LostExactly | src/detail/remote_signal_impl.cpp:194-219 | in every mannerly run a forwarded signal without a live table at the publisher has at the receiver exactly the table it was left with when its domain was removed, driven since, or none |
| TimeAgreement.EverythingDelivered | src/connection.cpp:341-379 | in every mannerly run, once drained, exactly the promised deliveries were made: every block published while subscribed, in order, with the time passed if its domain has been linear since, and otherwise with the time of the table left, or 0 |
| TimeAgreement.TimeAgreement | src/detail/remote_signal_impl.cpp:60-93 | at every moment of every mannerly run the deliveries are a prefix of those promised |
| TimeAgreement.PublishedBlockArrives | src/connection.cpp:341-379 | any block published on a subscribed signal is delivered last, with its samples, and with the time passed if its domain has been linear since, and otherwise with the time of the table left, or 0 |
| TimeAgreement.SamplesArrive | src/detail/remote_signal_impl.cpp:67-80 | any list of samples of the size the metadata says, published in one block after any mannerly run, arrives as that many samples |
| TimeAgreement.TimeCarriedExactly | src/detail/remote_signal_impl.cpp:67-93 | whatever time is passed is the time delivered if and only if the domain has been linear since; otherwise only the time of the table left is, or 0 |
| RemovedDomains.LostFrom | src/connection.cpp:167-173 | the table left lies on the line of the domain at the step that removed it |
| RemovedDomains.RemovedDomainExactly | src/connection.cpp:348-370 | a domain in use may be removed in a mannerly run, and the next block of a signal using it keeps its time if and only if the domain predicted it |
| LateDomains.IndexCounts | src/connection.cpp:375-375 | the value index is the number of samples published while subscribed since the metadata was last forwarded, as far as 64 bits go |
| LateDomains.FirstTablesAgreeExactly | src/connection.cpp:723-733 | both ends start a domain with the same table if and only if that number of samples is zero, as far as 64 bits go |
| LateDomains.DriftedBlock | src/connection.cpp:350-378 | with different tables at the two ends a block keeps its time if a domain packet precedes it, and otherwise gets the time of the receiver's table |
| LateDomains.FirstBlockTimeExactly | src/connection.cpp:690-756 | after any mannerly run, a signal made a domain unseen, a signal using it subscribed and a block published: its time survives if and only if it is off the publisher's line, or the samples published on the domain amount to nothing on the line, or the signal is not an explicit-rule one |
| Sparing.LineGoesOn | src/detail/linear_table.cpp:46-49 | the predicted value moves on by step times samples, even where 64-bit arithmetic wraps |
| Sparing.OnePacketAtMost | src/connection.cpp:350-378 | a run of blocks on one line sends one domain packet, before the first, if that one is off the line, and otherwise none |
| Sparing.ConstantFollows | src/connection.cpp:348-378 | a constant-rule block that starts where an explicit-rule block on the same domain ended needs no domain packet |
| Holders.SubscribeHolder.constructor | include/ws-streaming/local_signal.hpp:194-199 | one holder more; the subscribed event exactly when it is the first |
| Holders.SubscribeHolder.Moved | include/ws-streaming/local_signal.hpp:211-214 | the signal is held by the new holder instead of the old one, and nobody is told |
| Holders.SubscribeHolder.Assign | include/ws-streaming/local_signal.hpp:226-231 | lets go of one signal, with its event if nobody else holds it, and takes over another without any; assigning a holder to itself closes it |
| Holders.SubscribeHolder.Close | include/ws-streaming/local_signal.hpp:245-253 | one holder less; the unsubscribed event exactly when it was the last |
| Holders.ClearLocalSignals | src/detail/local_signal_container.cpp:60-75 | closing many holders of many signals leaves every signal's count the number of its holders |
| Audiences.HoldsForwarded | src/connection.cpp:690-789 | after any step a connection's entry holds a signal exactly when the connection forwards it: acquired in subscribe, released in unsubscribe and on removal |
| Audiences.HolderConservation | include/ws-streaming/local_signal.hpp:179-258 | for any interleaving of steps and closings at any number of connections, a signal's subscribe count is the number of connections that forward it, and its subscribed and unsubscribed events alternate |
| EndToEnd.WordExactly | src/detail/base_peer.cpp:292-295 | the encoding word is read as written if and only if the mode is WebSocket on a little-endian sender or direct TCP on a big-endian one, and otherwise backwards |
| EndToEnd.EncodingsKnown | src/detail/base_peer.cpp:284-333 | by numbers: a word of 1 is JSON, one of 2 is MessagePack, and any other packet is dropped |
| EndToEnd.DispatchExactly | src/connection.cpp:254-278 | a request is ignored exactly when it came under the wrong kind of number, and is otherwise one message with that number |
| EndToEnd.RunNumbered | src/connection.cpp:723-733 | in every run metadata is sent for numbered signals only, which is what the receiver dispatches |
| EndToEnd.UnderstoodExactly | src/detail/base_peer.cpp:284-333 | a metadata packet is understood if and only if its encoding word is read as written, and otherwise dropped |
| EndToEnd.MessagesArriveInOrder | src/connection.cpp:245-278 | over bytes in any pieces, the messages handled are the first of those sent, unchanged, and all of them at the end; only the data among them where the encoding word is misread |
| EndToEnd.TimesSurviveTheWire | src/connection.cpp:341-379 | where the encoding word is read as written, whatever part of the bytes arrived, the deliveries are the first of those promised, and all of them at the end |
| EndToEnd.TimesSurviveTheLink | src/detail/peer.cpp:101-156 | at any moment of a connection the deliveries are the first of those promised, and all of them once the sender's buffer and the wire are empty |
| EndToEnd.TimesSurviveTheTlsLink | src/detail/peer_tls.cpp:82-134 | the same over TLS, once queue and wire are empty |
| EndToEnd.NothingDelivered | src/detail/peer.cpp:40-63 | where it is misread, as over direct TCP between little-endian hosts, no signal becomes known and nothing is delivered |
| Counterexamples.UnfoundedUnsubscribe | src/connection.cpp:758-789 | a run in which a domain's implicit count wraps around to 2^32-1 |
| Counterexamples.HiddenSubscriptionEnds | src/connection.cpp:514-552 | messages after which an unsubscribed event stands between an unavailable event and the next available one |
| Counterexamples.ChainUnsubscribed | src/connection.cpp:783-787 | a run in which a signal is subscribed and unsubscribed, and the count of its domain's domain wraps around to 2^32-1 |
| Counterexamples.ChainSubscribedTwice | src/connection.cpp:704-705 | a run in which a signal is subscribed whose registered domain is neither counted nor forwarded |
| Counterexamples.LateDomainDelivers | src/connection.cpp:723-733 | a run in which a sample published at time 0 is delivered with time -3 |
| Counterexamples.UnboundLosesTimes | src/connection.cpp:332-339 | a mannerly run after which a subscribed signal names a registered linear signal and every time is delivered as 0 |

## Left out

- Sockets, event loop, TLS engine, HTTP upgrade, discovery: a send takes some prefix or fails, a read returns some chunk, the end or an error.
- JSON and MessagePack: metadata is a record of the fields the protocol looks at; behind their encoding word, metadata packets carry opaque bytes.
- After an answered close frame the answer's own shutdown is not fed back into the receive loop, which goes on parsing what it holds; `Answers` keeps a status for each half.
- Threads and re-entrant handlers: each event is one step.
- LocalSides.LocalSide.AddLocalSignal: signals are known by id, so a second object under a registered id, which the documentation leaves undefined, is taken for the first.
- LocalSides.LocalSide.DoHello: the version and init messages, which say nothing about signals, are not sent.
- RemoteSides.RemoteSide.OnData: the direct TCP rate branch; device time (`signalRate`, `time`, `data` metadata) is not modelled, nor the rounding at src/metadata.cpp:157-166, whose comment promises the nearest tick but whose expression adds a fixed fraction instead.
- Numbers of more than 20 bits: signals are numbered without bound, and `EndToEnd` asks for messages that fit a packet, which shuts out empty blocks and more than 2^20-1 registrations.
- Linear tables that other objects keep alive are kept under numbers; a reference that does not keep its table alive is a number that may have died.
- Holder objects are not fields of a connection's entries: `Audiences` follows what an entry does with its holder beside the functions of `Publishers`.
- Domains that name domains, linear signals with another's table and blocks published on a domain itself: outside the runs the time results are about.
- The remote application's own subscription counter (`remote_signal_impl::subscribe`), the command interface's JSON forms, the response key and the builders.
