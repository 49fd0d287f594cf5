# A model of the WireGuard engine and the routing layer around it

The repository embeds a userspace WireGuard engine and adds its own routing, DNS and limiting layers. This project
models the parts of it whose correctness does not show on a short reading, in Dafny 4.11, and proves what they are for.
`dafny verify dfyconfig.toml` checks everything.

Code that the repository writes as state changed in place is written so here: classes with the same fields, pointer
variables, arrays and loops. Each such method is proved against a function or a predicate of the old and the new state,
and the promises are proved about that.

| files | what they model |
|---|---|
| `Prefixes`, `TrieShape`, `TrieTheory`, `AllowedIPs`, `AllowedIPsTable` | the allowed-IPs tries, node by node and pointer by pointer, one for each address family, with the list every peer has of its nodes in both |
| `Checksum`, `GsoSplit`, `Runs` | the 64-bit Internet checksum, and cutting a large packet into segments |
| `Gro`, `GroPackets`, `GroTables`, `GroOutput`, `HandleGro`, `GroRegular`, `GroBatches`, `GroRoundTrip` | coalescing received TCP and UDP packets, which packets are coalesced, and what splitting makes of the result |
| `Noise`, `NoisePattern`, `SessionIndex`, `Session`, `Exchange` | the IKpsk2 handshake over symbolic cryptography, keypair rotation and the receiver-index table, and whole exchanges between two devices |
| `Nonce`, `Replay`, `SendStaged` | nonces under interleaving, the anti-replay window, and draining a peer's staged packets |
| `UdpBatch`, `TcpFraming`, `TcpBuffers` | batching over UDP, framing over TCP, and who holds each pooled buffer |
| `RateLimiter`, `Ipv4`, `FakeIp`, `RouteTable`, `CaptureRoutes` | the token-bucket limiter, the fake-address pool, longest-prefix routing and the routes that pull traffic into the tunnel |
| `Options`, `Sequences`, `Words`, `Limits` | what the others share |

Randomness, clocks and the machine's byte order are parameters. Cryptography is symbolic: Diffie-Hellman commutes,
opening inverts sealing under the same key and associated data, and hash and key derivation are free constructors. A
ghost parameter or result says what a method's state stands for; it has no part in what the method computes.

Results that differ from what one might expect:

- `splitMoreSpecific` masks the first half's address but not the second's, so the halves partition a prefix exactly
  when the bit below its mask is clear or the prefix has length 0 (`CaptureRoutes.SplitPartitions`, with
  `CaptureRoutes.UnmaskedLosesHalf` as an input that fails). Every fetcher stores destinations masked.
- The slack of 2^13 above `RejectAfterMessages` is enough for 2^13 + 1 senders and for no more
  (`Nonce.UniqueExactly`, with `Nonce.ReuseRuns` as a run that gives a nonce out twice).
- Index 0 doubles as "none". The index table loses track of a handshake exactly when 0 is drawn, or when drawing fails
  while there is an index to lose (`Session.Device.CreateMessageInitiation`, `Session.DrawsSentinel`).
- PSH is lost when a packet is prepended to one that has it (`GroOutput.SplitUndoesGro`).
- A response is checked under one lock and taken over under another: the index table stays consistent exactly if the
  handshake still has an index then (`Session.Device.TakeResponse`).
- A received message whose segment size exceeds its length is handed on with bytes that were not received
  (`UdpBatch.ReceivedExactly`).
- The indices in a handshake message are not part of the transcript: if they are replaced on the way, the two sides
  still agree on the keys but not on the indices (`Exchange.Tampered`).
- When there are more segments than buffers, `gsoSplit` returns the number of buffers less one although it has filled
  them all (`GsoSplit.Split`).

## Model

| member | source | states |
|---|---|---|
| AllowedIPs.Trie.NodePlacement | wireguard-go/device/allowedips.go:88-99 | the search finds the node of the prefix if there is one, and otherwise the longest node that covers it, below which nothing covers it |
| AllowedIPs.Trie.Lookup | wireguard-go/device/allowedips.go:191-205 | the answer is the peer of the longest prefix of the address among the trie's entries, or none |
| AllowedIPs.Trie.Insert | wireguard-go/device/allowedips.go:101-189 | the trie stays a well-formed picture of its entries, which change at one prefix only; no other node moves; the node leaves its former peer's list and joins the end of the new one's |
| AllowedIPs.Trie.RemoveNode | wireguard-go/device/allowedips.go:226-257 | splicing out a node, and the fork it leaves with one side, keeps the trie well formed for the entries without that prefix |
| TrieTheory.NodesAre | wireguard-go/device/allowedips.go:101-257 | there is a node exactly for each entry and for each point where entries part |
| TrieTheory.Canonical | wireguard-go/device/allowedips.go:101-257 | two well-formed tries with the same prefixes are equal, link for link |
| TrieTheory.NodeCount | wireguard-go/device/allowedips.go:101-257 | a trie has at most 2n - 1 nodes for n entries, and none, not even a root, for no entries |
| AllowedIPsTable.Table.Insert | wireguard-go/device/allowedips.go:291-304 | the map of the one family changes at one prefix, whoever had it; every peer's list still holds exactly its nodes of both families, once each |
| AllowedIPsTable.Table.Remove | wireguard-go/device/allowedips.go:259-278 | the prefix goes if it is this peer's, and nothing changes otherwise |
| AllowedIPsTable.Table.RemoveByPeer | wireguard-go/device/allowedips.go:280-289 | walking one list of nodes of both families removes all of the peer's prefixes in both maps and no other |
| AllowedIPsTable.Table.Lookup | wireguard-go/device/allowedips.go:306-317 | in the family its length says, an address belongs to the peer of the longest prefix of it in the map, and to none exactly if there is no prefix of it |
| AllowedIPsTable.Table.EntriesForPeer | wireguard-go/device/allowedips.go:213-224 | the callback sees only the peer's prefixes, of both families, masked, each once, and all of them unless it stops the walk |
| AllowedIPsTable.Table.Run | wireguard-go/device/allowedips.go:88-317 | for every sequence of operations the tries refine the pair of maps the operations make; a run that restores a family's prefixes restores its trie, and one that empties a family leaves a nil root |
| AllowedIPsTable.Table.InsertThenRemove | wireguard-go/device/allowedips.go:101-289 | inserting a fresh prefix and removing it restores the map and both tries, node for node |
| AllowedIPsTable.Table.SameTrie | wireguard-go/device/allowedips.go:101-289 | two tables with the same prefixes in a family have equal tries there, whatever their histories |
| AllowedIPsTable.Table.TrieSize | wireguard-go/device/allowedips.go:101-289 | the nodes held for n entries of a family are at most 2n - 1, and none for none |
| Checksum.NativeIsWordSum | wireguard-go/tun/checksum.go:9-84 | a block of an even number of bytes read in either byte order is its big-endian word sum times 256 or 1, modulo 65535, and zero only with it |
| Checksum.Add64Stands | wireguard-go/tun/checksum.go:15-80 | adding a word with carry keeps what the accumulator stands for, and a carry never meets a full accumulator, so adding it back does not overflow |
| Checksum.ChecksumNoFold | wireguard-go/tun/checksum.go:9-84 | for every length, initial value and byte order the 64-bit result is congruent modulo 65535 to the initial value plus the big-endian word sum, and is zero only if all of it is |
| Checksum.FourFolds | wireguard-go/tun/checksum.go:88-91 | four folds bring every 64-bit sum within 16 bits |
| Checksum.OnesSumIs | wireguard-go/tun/checksum.go:86-93 | adding word by word with end-around carry gives what deferring all carries to the end gives |
| Checksum.Rfc1071Example | wireguard-go/tun/checksum.go:86-93 | the sum of the example of RFC 1071 |
| Checksum.InternetChecksum | wireguard-go/tun/checksum.go:86-93 | the result is the one's-complement sum of the big-endian words, an odd tail padded with zero, on top of the initial value; it is 0 only if everything summed is 0 |
| Checksum.PseudoHeaderChecksumNoFold | wireguard-go/tun/checksum.go:95-102 | the four chained sums fold to the one's-complement sum of the pseudo header's bytes: the addresses, a zero, the protocol and the length |
| Checksum.StoredChecksum | wireguard-go/tun/offload_linux.go:965-970 | the complement of a sum taken with its field cleared, stored in that field, makes the data sum to all ones |
| GsoSplit.ChecksIs | wireguard-go/tun/offload_linux.go:388-398 | a transport checksum is right exactly if the one's-complement sum of the pseudo header's bytes and the transport part is all ones |
| GsoSplit.ChecksumValid | wireguard-go/tun/offload_linux.go:388-398 | the packet is accepted exactly when the one's-complement sum of the pseudo header's bytes and the transport part is all ones |
| GsoSplit.ClearsFinPsh | wireguard-go/tun/offload_linux.go:954-955 | the clearing removes the two bits and leaves the others |
| GsoSplit.Split | wireguard-go/tun/offload_linux.go:893-975 | the loop ends, also for a segment size of 0; there is an error exactly when the payload needs more segments than there are buffers; each segment has its slice of the payload, its sequence number or length, its identification, FIN and PSH only at the end, and IPv4 header and transport checksums that are right |
| GsoSplit.IdentificationsDiffer | wireguard-go/tun/offload_linux.go:930-938 | IPv4 segments of one packet have different identifications |
| Runs.CutJoined | wireguard-go/tun/offload_linux.go:919-970 | cutting a payload that was joined from equal pieces, the last perhaps shorter, gives back each piece |
| Runs.SegmentsJoin | wireguard-go/tun/offload_linux.go:893-975 | the payloads of the segments of a packet, put one after another, are its payload |
| GroPackets.TcpRead | wireguard-go/tun/offload_linux.go:531-586 | every packet built from IP fields, TCP fields and a payload, of either family, is read as just those fields |
| GroPackets.TcpReadOnly | wireguard-go/tun/offload_linux.go:531-586 | no other packet is taken for one that may be coalesced |
| GroPackets.UdpRead | wireguard-go/tun/offload_linux.go:782-823 | the same for UDP |
| GroPackets.UdpReadOnly | wireguard-go/tun/offload_linux.go:782-823 | the same for UDP |
| Gro.TcpAppended | wireguard-go/tun/offload_linux.go:352-368 | a packet the rules let follow an item extends its run: the payloads stay joined in sequence order with only the last short, 16-bit arithmetic notwithstanding; all packets have the headers' compared fields and options in common, and PSH only at the end |
| Gro.TcpPrepended | wireguard-go/tun/offload_linux.go:369-384 | a packet the rules let precede an item extends its run at the front, and its size becomes the run's |
| Gro.UdpAppended | wireguard-go/tun/offload_linux.go:314-329 | a datagram the rules let follow an item extends its run |
| GroRegular.AppendsExactly | wireguard-go/tun/offload_linux.go:334-368 | a packet is appended if and only if it matches the first of the buffer in flow, IP fields and options, starts where the last ends, is no larger, and all of them are of one size and none has PSH |
| GroRegular.PrependsExactly | wireguard-go/tun/offload_linux.go:334-384 | a packet is prepended if and only if it matches the first, ends where that starts, is of its size or larger than a single one, and has no PSH |
| GroRegular.UdpAppendsExactly | wireguard-go/tun/offload_linux.go:314-329 | a datagram is appended if and only if it matches the first in flow and IP fields, is no larger, and all of them are of one size |
| GroTables.TcpTable.Insert | wireguard-go/tun/offload_linux.go:112-129 | the flow's list gets the item at its end, and free lists and live flows together stay as many |
| GroTables.TcpTable.Reset | wireguard-go/tun/offload_linux.go:161-167 | all lists are back in the pool |
| GroTables.UdpTable.Reset | wireguard-go/tun/offload_linux.go:258-264 | all lists are back in the pool |
| GroTables.CoalesceTcp | wireguard-go/tun/offload_linux.go:444-506 | it succeeds exactly when there is room, no PSH would end up inside and both checksums are right; then the buffers and the item are those of the append or the prepend, and otherwise untouched |
| GroTables.CoalesceUdp | wireguard-go/tun/offload_linux.go:414-438 | it succeeds exactly when there is room and both checksums are right, and then the target has the payload at its end |
| GroTables.TcpGro | wireguard-go/tun/offload_linux.go:531-625 | the packet is coalesced exactly when some item of its flow accepts it; afterwards all packets so far are still partitioned over the buffers, every item still describes its buffer, and every sound TCP packet is in a buffer that is tracked |
| GroTables.UdpGro | wireguard-go/tun/offload_linux.go:782-854 | the datagram is coalesced exactly when the last item of its flow accepts it, and datagrams of a flow keep their order over the buffers |
| GroRegular.TcpMergesExactly | wireguard-go/tun/offload_linux.go:531-625 | in any batch a TCP packet is merged if and only if there is a buffer whose packets it continues or precedes, with room, and the checksums are right |
| GroRegular.UdpMergesExactly | wireguard-go/tun/offload_linux.go:782-854 | a datagram is merged if and only if it continues those in the newest buffer of its flow, with room, and the checksums are right |
| GroOutput.AccountTcp | wireguard-go/tun/offload_linux.go:629-679 | the IP header gets the new length and a checksum that is right, the transport checksum field the pseudo header's sum, and nothing else changes |
| GroOutput.AccountUdp | wireguard-go/tun/offload_linux.go:683-735 | the same for UDP, whose own length field is set too |
| GroOutput.SplitUndoesGro | wireguard-go/tun/offload_linux.go:334-506 | what is written for a TCP item needs as many segments as packets were joined; segment t is read as packet t was, flow key, sequence number and lengths, with its payload, options and compared IP fields; PSH comes back exactly if the packet that had it came last |
| GroOutput.SplitUndoesUdpGro | wireguard-go/tun/offload_linux.go:414-438 | the same for UDP, in the order the packets came in: segment t is read as packet t was, flow key included |
| GroRoundTrip.SplitTcp | wireguard-go/tun/offload_linux.go:629-975 | running the splitter on what was written for a TCP item gives every packet that was joined back, in its place: same flow key, sequence number, payload and options, and a checksum that is right |
| GroRoundTrip.SplitUdp | wireguard-go/tun/offload_linux.go:683-975 | the same for UDP: same flow key and payload, in order of arrival |
| HandleGro.Handle | wireguard-go/tun/offload_linux.go:861-888 | every packet of the batch is in exactly one buffer named for writing, which is either that packet unchanged under a cleared virtio header or several of one flow joined for the device to segment, under a virtio header that fits their family and header lengths; a packet is merged exactly when an item of its flow accepts it; UDP flows keep their order; the tables' free lists suffice; it fails exactly on an offset too small or an empty packet |
| GroBatches.TcpBatch | wireguard-go/tun/offload_linux.go:861-888 | a batch of sound TCP packets of one flow, alike and each starting where the one before ends, of one size but for the last, which fit a buffer, is written as one |
| GroBatches.TcpBatchBackward | wireguard-go/tun/offload_linux.go:861-888 | so is such a batch that comes from the last to the first |
| GroBatches.UdpBatch | wireguard-go/tun/offload_linux.go:861-888 | so is a batch of sound datagrams of one flow |
| GroBatches.HandleBatch | wireguard-go/tun/offload_linux.go:861-888 | run on any of these batches, the only buffer to be written is the first |
| Noise.InitiationAgrees | wireguard-go/device/noise-protocol.go:270-403 | an initiation opens only for the responder it names and with the same secrets, and then yields its sender, its time and an equal transcript |
| Noise.ResponseAuthenticates | wireguard-go/device/noise-protocol.go:444-584 | a response is accepted exactly when it was sealed under the very transcript, ephemeral key, secrets and preshared key that the initiator holds |
| Noise.KeysCross | wireguard-go/device/noise-protocol.go:612-642 | from one chain key the initiator's sending key is the responder's receiving key and the reverse, the two directions never share a key, and equal sending keys mean equal chain keys |
| Noise.TranscriptNames | wireguard-go/device/noise-protocol.go:270-403 | if the transcript an initiation left is one that an initiation was taken with, then the first was meant for the one who took it, and the second named the one who sent it |
| Noise.Agreement | wireguard-go/device/noise-protocol.go:444-607 | if a response is accepted, each side has the other's static key, the ephemeral keys and the preshared keys match, and the transcripts are equal |
| Noise.HonestExchange | wireguard-go/device/noise-protocol.go:270-607 | an undisturbed exchange is accepted at every step |
| NoisePattern.InitiationIsFirst | wireguard-go/device/noise-protocol.go:270-338 | the initiation is what the tokens `e, es, s, ss` of the Noise framework write, from the pre-message on, and fails exactly if a Diffie-Hellman does |
| NoisePattern.ResponseIsSecond | wireguard-go/device/noise-protocol.go:444-510 | the response is what `e, ee, se, psk` write |
| NoisePattern.SplitIs | wireguard-go/device/noise-protocol.go:624-642 | the initiator sends under the first key of the split and receives under the second |
| SessionIndex.EntriesOfPeer | wireguard-go/device/noise-protocol.go:612-718 | in a consistent state a peer's table entries are exactly its handshake index and one for each distinct keypair in the three slots, at most four |
| SessionIndex.TableDetermined | wireguard-go/device/indextable.go:38-92 | what the peers hold determines the index table |
| SessionIndex.Reindexed | wireguard-go/device/indextable.go:58-92 | giving a handshake a new index in place of its old one is consistent if and only if the index is not 0 |
| SessionIndex.Unindexed | wireguard-go/device/noise-protocol.go:325-330 | taking a handshake's index out of the table is consistent if and only if the handshake is left with 0 |
| SessionIndex.StateMoved | wireguard-go/device/noise-protocol.go:590-602 | a handshake may change its state if and only if it has the index that the new state needs |
| SessionIndex.InitiatorRotates | wireguard-go/device/noise-protocol.go:681-691 | the initiator's rotation deletes exactly the entries of the keypairs it drops |
| SessionIndex.ResponderRotates | wireguard-go/device/noise-protocol.go:692-697 | so does the responder's |
| Session.Device.NewIndexForHandshake | wireguard-go/device/indextable.go:58-92 | the first draw that is not in use is taken, unless drawing fails before |
| Session.Device.SwapIndexForKeypair | wireguard-go/device/indextable.go:44-56 | an entry that is there passes from the handshake to the keypair under the same peer |
| Session.Device.CreateMessageInitiation | wireguard-go/device/noise-protocol.go:270-338 | which error is returned when; the message and the transcript are those of the protocol; the entries of all peers stay exact if and only if the draw was not 0, or failed with no index to lose |
| Session.Device.ConsumeMessageInitiation | wireguard-go/device/noise-protocol.go:340-442 | an initiation is taken exactly when a registered, running peer made it, its time is later than that peer's last and the last one was long enough ago; then only that peer's handshake changes, and its last time grows |
| Session.Device.CreateMessageResponse | wireguard-go/device/noise-protocol.go:444-510 | as for the initiation: errors, message, transcript, and exactly when the table stays exact |
| Session.Device.CheckResponse | wireguard-go/device/noise-protocol.go:512-588 | the check passes exactly when the index names a handshake whose initiation the response answers, and it changes nothing |
| Session.Device.TakeResponse | wireguard-go/device/noise-protocol.go:590-602 | taking over what was checked, whatever came in between, keeps the index table consistent if and only if the handshake has an index |
| Session.Device.ConsumeMessageResponse | wireguard-go/device/noise-protocol.go:512-607 | with nothing in between, a response is taken exactly when the index it names is a handshake's whose initiation it answers; then only that peer's handshake changes |
| Session.Device.BeginSymmetricSession | wireguard-go/device/noise-protocol.go:612-699 | a handshake that is complete becomes a keypair under the same index, an initiator sending under the first key and a responder under the second; the slots rotate by role, and no index of any peer leaks or is lost |
| Session.Device.ReceivedWithKeypair | wireguard-go/device/noise-protocol.go:701-718 | only the keypair waiting in next takes over; no responder's keypair is current that has not received a packet |
| Session.Device.ZeroAndFlushAll | wireguard-go/device/peer.go:214-237 | the peer is left with no keypair, no handshake and no entry in the table |
| Session.Device.ExpireCurrentKeypairs | wireguard-go/device/peer.go:240-257 | the handshake and its entry go, the slots stay, and the two newest keypairs may not send any more |
| Session.DrawsSentinel | wireguard-go/device/noise-protocol.go:325-330 | from any consistent state, drawing the index 0 for an initiation makes the table inconsistent |
| Exchange.Handshake | wireguard-go/device/noise-protocol.go:270-718 | run from initiation to first packet, an undisturbed exchange between two devices leaves each with a current keypair that mirrors the other's, keys and indices, and both tables exact |
| Exchange.Tampered | wireguard-go/device/noise-protocol.go:444-718 | whatever is done to the messages but the authenticator, if an initiator accepts, each side has the other's static key and stands at the same transcript; their keys mirror each other, and their indices exactly when those were left alone |
| Nonce.NoReuse | wireguard-go/device/send.go:343-370 | in every interleaving of at most 2^13 + 1 senders and key expiry the nonces given out increase and stay below the limit |
| Nonce.NoWrap | wireguard-go/device/send.go:343-370 | with at most 2^13 senders the counter exceeds the limit by at most the senders that have yet to put it back, and never wraps |
| Nonce.UniqueExactly | wireguard-go/device/send.go:343-370 | nonces are unique in every run if and only if there are at most 2^13 + 1 senders |
| Nonce.ReuseRuns | wireguard-go/device/send.go:343-370 | a run of 2^13 + 2 senders that gives out nonce 0 twice |
| Replay.Filter.ValidateCounter | wireguard-go/replay/replay.go:37-62 | a counter is accepted if and only if it is below the limit, was not accepted since the reset, and is above the last or at most 127 * 64 behind it; the reused ring goes on telling which were |
| Replay.Filter.Reset | wireguard-go/replay/replay.go:30-33 | from any contents, clearing one block of the ring gives a filter that has accepted nothing |
| SendStaged.Peer.StagePackets | wireguard-go/device/send.go:318-335 | the container joins the queue's end, and only a full queue loses its oldest |
| SendStaged.Peer.FlushStagedPackets | wireguard-go/device/send.go:404-417 | everything staged is freed, in order |
| SendStaged.Peer.SendStagedPackets | wireguard-go/device/send.go:337-402 | it ends; what leaves the queue gets consecutive nonces in staged order and is sent once, in both queues, or freed if its container found the peer being stopped, every element one or the other; what stays is still staged; something stays only if the device is down or a new handshake was called for, because there is no keypair, or it is used up or too old |
| SendStaged.SentOrFreed | wireguard-go/device/send.go:380-391 | what got a nonce was sent or freed, and not both |
| SendStaged.Peer.NothingLost | wireguard-go/device/send.go:337-402 | what was staged is what left the queue and what is still staged |
| UdpBatch.CoalesceMessages | wireguard-go/conn/bind_std.go:450-498 | the messages carry all datagrams in order, each message at most 64 of one size with only a short tail, within the payload limit and the buffer of its first datagram, with the right segment size in its control data; a message is left only when it could not take the next datagram, and datagrams of one size that fit one message make one |
| UdpBatch.AllInFirst | wireguard-go/conn/bind_std.go:450-498 | at most 64 datagrams of one size but for the last, which together fit an IP packet and the first buffer, are sent as one message |
| UdpBatch.SplitCoalescedMessages | wireguard-go/conn/bind_std.go:502-544 | splitting in place never overwrites a message before it is read: the result is every datagram of the messages as they were, one to a buffer in order, each with its message's sender; it overflows exactly when some message's datagrams would not fit up to that message |
| UdpBatch.OneSender | wireguard-go/conn/bind_std.go:528-529 | if all messages are from one sender, so are all datagrams |
| UdpBatch.ReceivedExactly | wireguard-go/conn/bind_std.go:509-537 | the pieces of a message are the bytes received if and only if its segment size does not exceed them |
| UdpBatch.NeverOverflows | wireguard-go/conn/bind_std.go:241-251 | read to the last two of 128 messages, no messages of at most 64 datagrams overflow |
| UdpBatch.LayoutTight | wireguard-go/conn/bind_std.go:502-544 | messages of exactly p datagrams can be split in place if and only if p - 1 for each of them fit before the first |
| UdpBatch.RoundTrip | wireguard-go/conn/bind_std.go:450-544 | the pieces of what was coalesced from nonempty datagrams and delivered are those datagrams, in order |
| UdpBatch.SplitDelivered | wireguard-go/conn/bind_std.go:450-544 | coalesced, delivered and split: the original datagrams in order, each in a buffer of its own with the sender of the message that brought it, unless it reports an overflow, and exactly when; in the receiver's own layout it never does |
| TcpFraming.LenFromLen | wireguard-go/conn/bind_tcp.go:52-61 | the four bytes give a length back modulo 2^32 |
| TcpFraming.DecodeEncode | wireguard-go/conn/bind_tcp.go:126-152 | packets of at most 65535 bytes come out of the stream as they went in, before whatever follows |
| TcpFraming.OversizedBreaks | wireguard-go/conn/bind_tcp.go:138-141 | a longer packet ends the stream: those before it are delivered, and nothing from it on |
| TcpFraming.Conn.ReadPacket | wireguard-go/conn/bind_tcp.go:126-152 | however the bytes arrive, the next packet of the stream is read, or there is none |
| TcpFraming.Conn.ReadAll | wireguard-go/conn/bind_tcp.go:118-160 | the reader delivers the packets of the stream in order for every chunking |
| TcpFraming.Send | wireguard-go/conn/bind_tcp.go:343-368 | behind what it carried the connection carries each packet after four bytes with its length, least significant first; the first write that fails or is short ends it, closes the connection and leaves what went out of that frame |
| TcpFraming.CutFrame | wireguard-go/conn/bind_tcp.go:126-152 | a frame that was cut short delivers nothing of its packet, and every packet before it is delivered |
| TcpFraming.SentArrives | wireguard-go/conn/bind_tcp.go:126-152 | of a sending that failed, exactly the packets whose frames went out whole are delivered |
| TcpBuffers.OwnedKept | wireguard-go/conn/bind_tcp.go:96-162 | after any step each buffer is in exactly one of the pool, a reader, the channel and the consumer |
| TcpBuffers.Delivery | wireguard-go/conn/bind_tcp.go:70-162 | in every interleaving of readers and consumer, what has been delivered of a connection is a prefix of what was sent on it, in order and unchanged |
| TcpBuffers.NeverStuck | wireguard-go/conn/bind_tcp.go:70-162 | while a connection that is still read has not had everything delivered, some reader or the consumer can go on |
| TcpBuffers.AllDelivered | wireguard-go/conn/bind_tcp.go:70-162 | once a connection is read to its end and nothing is on its way, all of it has been delivered |
| RateLimiter.IdleIsNew | wireguard-go/ratelimiter/ratelimiter.go:84-127 | a bucket idle for the collection time decides like one that was never there |
| RateLimiter.Limiter.Allow | wireguard-go/ratelimiter/ratelimiter.go:99-137 | the answer is that of a limiter that never forgets, and no bucket is overdrawn or over-full |
| RateLimiter.Limiter.Cleanup | wireguard-go/ratelimiter/ratelimiter.go:84-97 | exactly the idle buckets go, which changes no later answer |
| RateLimiter.AllowedExactly | wireguard-go/ratelimiter/ratelimiter.go:99-137 | a packet of an address that is new is allowed if and only if every stretch of the run before it leaves more than one cost of a full bucket and the time passed |
| RateLimiter.FirstAllowed | wireguard-go/ratelimiter/ratelimiter.go:107-119 | the first packet of an address is allowed |
| RateLimiter.Serve | wireguard-go/ratelimiter/ratelimiter.go:84-137 | in every run of packets from any addresses, with garbage collected at any time, and over any stretch of it, what an address is allowed costs at most a full bucket and the time passed, and a packet of an address that is new is refused only if its stretch is used up |
| FakeIp.SizeIs | internal/fakeip/pool.go:66-73 | the wrapped 32-bit size is the span less two for every prefix down to length 0, and zero exactly for length 31 |
| FakeIp.Pool.New | internal/fakeip/pool.go:48-81 | there is a pool exactly for prefixes shorter than 31 bits, over the masked network of the address |
| FakeIp.Pool.Assign | internal/fakeip/pool.go:86-114 | a known domain keeps its address and nothing changes; a new one takes the next offset from whoever had it; the maps stay inverse, and the address is neither the network's nor the broadcast address |
| FakeIp.Pool.Lookup | internal/fakeip/pool.go:117-132 | an address stands for the domain that has it, and for none if no domain has |
| FakeIp.Pool.LiveExactly | internal/fakeip/pool.go:86-114 | a domain has an address exactly while fewer than the pool's size of fresh allocations have been made after its own |
| FakeIp.Pool.LiveDistinct | internal/fakeip/pool.go:86-114 | no two live domains share an address |
| RouteTable.Table.Lookup | internal/routetable/table.go:36-45 | the first match in the sorted table is a longest match, and there is an error exactly when nothing matches |
| RouteTable.BestIsOneNetwork | internal/routetable/table.go:24-45 | the unstable sort can only choose between routes to one and the same network |
| CaptureRoutes.SplitPartitions | internal/vpn/manager.go:568-587 | the two halves partition the prefix if and only if the bit below its mask is clear or its length is 0 |
| CaptureRoutes.UnmaskedLosesHalf | internal/vpn/manager.go:568-587 | a prefix stored unmasked whose halves do not partition it |
| CaptureRoutes.RefinedCaptureCidrs | internal/vpn/manager.go:542-560 | the result is what the other tunnels' routes contribute, in order, without repetitions: exactly the halves of IPv4 destinations, neither hosts nor loopback, multicast or reserved, of routes by interfaces whose name starts with utun, tun or tap and is not the tunnel's |
| CaptureRoutes.OwnRoutesIgnored | internal/vpn/manager.go:549-551 | the tunnel's own routes make no difference |
| CaptureRoutes.CaptureCidrs | internal/router/router.go:129-141 | the result is the pool, the two default halves and the extra routes, without empty ones and repetitions |
| CaptureRoutes.FirstsInOrder | internal/router/router.go:129-141 | dropping repetitions keeps each element once, where it first stood |
| CaptureRoutes.CapturedExactly | internal/vpn/manager.go:542-587 | an address is captured by a route longer than every route of the snapshot if and only if the pool's route is that long, or only default routes cover the address, or its best route is another tunnel's to a destination that gets split |
| CaptureRoutes.RefinedNeverLonger | internal/vpn/manager.go:542-587 | no refined prefix covering an address is longer than a route more specific than every tunnel's route for it |

## Left out

- GsoSplit.Split: does not say which count is meaningful after the error; the number returned then is one less than the buffers filled, as in the code.
- Session.Device.NewIndexForHandshake: has an error branch for a failing source of randomness, which `crypto/rand` of the Go version in go.mod never takes.
- Session.Device.AddPeer: stands for the part of adding a peer that the handshake sees; removing peers is not modelled.
- Exchange.Tampered: an attacker who forges an authenticator under the right key is outside the symbolic model; that the handshakes stand where an initiation left them is required, as `Exchange.Call` establishes it.
- SendStaged.Peer.SendStagedPackets: senders on other goroutines do not take part; for what they do to the nonces see the nonce machine.
- RateLimiter.Limiter.Allow: is one atomic step; the code looks up and inserts under separate locks, and an idle time that overflows 64-bit nanoseconds is not modelled.
- RouteTable.Table.Replace: takes the order the library's sort left as a parameter.
- CaptureRoutes.CapturedExactly: is about which prefix is longest; installing routes, and a route that exists already, are not modelled.
- UdpBatch.CoalesceMessages: writing the segment size into the control buffer always succeeds; the code silently leaves it out when the buffer is too short.
- TcpFraming.Send: dialing and the map of connections are not modelled.
- Address bytes: tries work on bit strings; the shifts by which `commonBits` and `choose` read bits out of bytes are not modelled.
- Clearing pointers for the garbage collector, locks, pools and finalizers.
- The sixteen-fold unrolled additions of the checksum are written as a loop of sixteen.
- `handleVirtioRead`, `gsoNoneChecksum` and the encoding of the virtio header.
- Blocks of the replay ring are sets of bit numbers.
- Masks of routes that are not prefixes, and IPv6 routes, which only take part in the sort.
- Timers, keepalives, cookies, message authentication codes, the UAPI, sockets, devices, DNS, SOCKS, the rule engine, the login client and the user interface.
