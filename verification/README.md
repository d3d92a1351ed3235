# Verified models of the userspace WireGuard core and the endpoint scanner

The project models the parts of the program whose correctness is hardest to see from the code: a fast,
in-place or concurrent form of something that has a simple specification. Each component is a group of
Dafny modules; the fast form is written as the program writes it (classes and loops where it updates state,
functions where it computes), the simple form is a specification of its own, and the theorems connect the
two over all inputs, all runs or all interleavings.

- **Cryptokey routing** (`IpBits`, `Trie`, `TrieRoutes`, `AllowedIps`): the path-compressed trie with parent links,
  splitting on insert and collapsing on removal, against plain longest-prefix match over the set of inserted prefixes.
- **Checksums and segment offload** (`Arith`, `InternetChecksum`, `Gso`, `GroPackets`, `PacketFields`, `GroGroups`,
  `GroState`, `Gro`, `GroGso`, `GroHeaders`, `TcpMerging`, `UdpPackets`, `UdpOrder`, `UdpRuns`, `UdpGso`, `UdpGro`,
  `UdpMerging`, `OffloadState`, `Offload`, `OffloadHeaders`, `OffloadExamples`, `FlagExamples`): the unrolled checksum
  against the 16-bit sum with end-around carry of RFC 1071; TCP receive coalescing with append, prepend and buffer
  swap; UDP receive coalescing, which has to keep the order of a flow; the two tables at work on one vector of
  packets; segmentation; which packets are merged, read off the bytes of the input packets; and the theorems that
  segmentation undoes coalescing, with the exact list of header bytes that come back.
- **Handshake, keypairs and index table** (`NoiseTerms`, `NoiseHandshake`, `NoiseFramework`, `NoiseRotation`,
  `NoiseLookups`, `NoiseDevice`): the Noise IKpsk2 handshake over a free term algebra, in which a Diffie-Hellman
  secret is the unordered pair of its keys, against an interpreter of Noise message patterns; the rotation of the
  three keypair slots and the shared index table as a protocol of atomic steps; and the device methods that take those
  steps. Every device carries the history of steps it has taken, so what is proved of runs of steps holds of the
  device.
- **Send nonces and replay protection** (`Nonces`, `Replay`): the shared counter under any interleaving of its atomic
  operations; the ring of bit blocks of RFC 6479 against a filter that remembers every counter.
- **Datagram batching** (`Datagrams`, `DatagramSplit`): coalescing of datagrams for the kernel, and splitting of
  received messages within the same array of buffers.
- **Rate limiter, timers, timestamps, address generator** (`Ratelimiter`, `RatelimiterRace`, `Timers`, `Timestamps`,
  `Lcg`): the token bucket whose idle entries are collected, alone and under concurrent calls, the pending-timer
  protocol, the byte order and spacing of handshake timestamps, and the full period of the linear congruential
  generator.

Some properties one might expect do not hold of the code without a condition. The condition is stated and proved
exact, and a concrete input or run shows the failure:

- A message whose segmentation size exceeds its length is split into one piece that runs past the received bytes
  (the first end is not clamped); the pieces are the datagrams if and only if the size is at most the length
  (`DatagramSplit.PiecesAreSegments`, `DatagramSplit.SplitUndoesCoalescing`; `DatagramSplit.StaleByte`).
- A batch of datagrams whose last one is empty is not segmented back into them; a list of datagrams comes back if and
  only if no batch of several ends with an empty one, and the list alone decides where the batches are cut
  (`Datagrams.SegmentationUndoesCoalescing`, `Datagrams.CutsUnique`; `Datagrams.EmptyTailLost`).
- The parameter check of the generator is enough for a full period except over two addresses, where an even
  multiplier passes it; the period is full if and only if the check passes and, for two addresses, the multiplier is
  odd (`Lcg.HullDobell`; `Lcg.TwoAddresses`).
- Nonces are never reused if and only if at most 2^13 + 1 goroutines send with a keypair at the same time, and the
  64-bit counter never wraps if and only if at most 2^13 do (`Nonces.NonceReuse`, `Nonces.NoWrap`;
  `Nonces.ReuseRun`, `Nonces.WrapRun`).
- A stamp is after another if and only if its whitened time is; stamps less than one whitening interval apart may
  be equal (`Timestamps.StampOrder`; `Timestamps.SameStamp`). A delay of at most d between setting lastSentHandshake and
  stamping the message keeps the stamps of successive initiations increasing if and only if d is at most RekeyTimeout less
  one whitening interval (`Timestamps.DelayBound`; `Timestamps.LateInitiation`). Once lastSentHandshake has been put back,
  two initiations may follow each other at once (`Timestamps.AtOnce`).
- ConsumeMessageResponse lets go of the lock between authenticating a response and storing it. No interleaving makes
  an index lead to anything but its owner; but every handshake in progress and every keypair is found under its
  index if and only if no response is stored after its handshake has given up the index (`NoiseRotation.RunOk`,
  `NoiseRotation.CompleteIffTimely`; `NoiseRotation.ForgottenInBetween`).
- The rate limiter looks an entry up and inserts a new one in two locked regions. The bound of one bucket holds for n
  concurrent callers of an address and the collector if and only if n is at most one; for any n another bound is
  proved (`RatelimiterRace.OneCallerOnly`, `RatelimiterRace.RaceBound`; `RatelimiterRace.FourEach`).
- UDP coalescing keeps the order of the datagrams it tracks, but passes on those without payload, which later ones
  of the same flow may overtake. A later packet overtakes one that was passed on if and only if, when its turn comes, the last
  item of its flow is in an earlier buffer and the packet is merged into it (`UdpRuns.FlowsInOrder`,
  `UdpRuns.OvertakesIff`; `UdpRuns.EmptyOvertaken`).
- A TCP packet that was entered in the table and is dropped from it for its checksum is written without a virtio header
  of its own. A written buffer gets a header if and only if its packet was not dropped, and a packet is dropped if and only if
  it entered the table and a later packet of its flow could be merged with it, its checksum being wrong, and suits no newer
  item of the flow (`OffloadState.HeaderWritten`, `OffloadHeaders.DroppedIff`; `OffloadExamples.HeaderNotWritten`).

- PSH of the last packet of a merged TCP packet comes back after segmentation if and only if nothing was put in front of the
  group after that packet joined (`GroHeaders.FlagsComeBack`; `FlagExamples.SplitWithoutPsh`).

Coalescing drops some header fields by design. What comes back is stated byte by byte
(`GroHeaders.HeadersComeBack`, `UdpGso.UdpByteIdentity`), and a packet comes back in every byte if and only if the first
packet of its group has the other headers in common with it (`GroHeaders.ByteIdentity`, `UdpGso.UdpByteIdentity`). A UDP checksum of 0xFFFF comes back
as 0, which in UDP stands for no checksum (`UdpGso.UdpChecksumBack`; `OffloadExamples.AllOnesLost`).

## Model

| member | source | states |
|---|---|---|
| IpBits.CommonBits | wireguard/device/allowedips.go:35-56 | the length of the longest prefix two addresses of 4 or 16 bytes share: they agree on that many bits and on no more |
| IpBits.MaskSelf | wireguard/device/allowedips.go:73-78 | the address keeps its first cidr bits and has zeros after them |
| Trie.TrieEntry.constructor | wireguard/device/allowedips.go:103-111 | a new node holds the masked prefix and the position of the bit after it |
| Trie.TrieEntry.Choose | wireguard/device/allowedips.go:69-71 | the shift and mask read the bit right after the node's prefix |
| Trie.AddLeafShape | wireguard/device/allowedips.go:134-145 | hanging a node with a peer into an empty slot keeps the trie's shape: prefixes extend their parent's on the chosen side, parent links are exact, peerless nodes have two children |
| Trie.AddAboveShape | wireguard/device/allowedips.go:152-165 | putting a node between a slot and the subtree in it keeps the shape |
| Trie.SetPeerShape | wireguard/device/allowedips.go:117-122 | changing the peer of a node keeps the shape, except that a cleared node may become useless |
| Trie.SpliceShape | wireguard/device/allowedips.go:240-263 | replacing a node by its only child, or by nothing, keeps the shape, except that the parent of a removed leaf may become useless |
| TrieRoutes.LongestMatchUnique | wireguard/device/allowedips.go:191-205 | longest-prefix match has exactly one answer |
| TrieRoutes.WalkSound | wireguard/device/allowedips.go:191-205 | every node the descent visits covers the address, and the prefixes grow on the way |
| TrieRoutes.WalkComplete | wireguard/device/allowedips.go:191-205 | every node of the trie that covers the address is visited by the descent |
| TrieRoutes.UniqueKey | wireguard/device/allowedips.go:116-122 | no two nodes of a well-shaped trie carry the same prefix |
| TrieRoutes.DeepestIsLongest | wireguard/device/allowedips.go:191-205 | the deepest peer met by the descent is the longest-prefix match |
| TrieRoutes.AddLeafMeans | wireguard/device/allowedips.go:101-145 | a new leaf adds its prefix to the routes and changes no other |
| TrieRoutes.AddAboveMeans | wireguard/device/allowedips.go:146-165 | a node put above a subtree adds its prefix and changes no other |
| TrieRoutes.AddGlueMeans | wireguard/device/allowedips.go:167-189 | splitting with a peerless node adds the new prefix only |
| TrieRoutes.SetPeerMeans | wireguard/device/allowedips.go:116-122 | an exact match replaces the peer of that prefix only |
| TrieRoutes.RemoveNodeShape | wireguard/device/allowedips.go:231-265 | removing an entry, with the collapse of its parent, keeps the shape |
| TrieRoutes.RemoveNodeMeans | wireguard/device/allowedips.go:231-265 | removing an entry removes exactly its route |
| TrieRoutes.NoRoutesNoNodes | wireguard/device/allowedips.go:226-266 | a well-shaped trie without routes has no nodes, and both roots are nil |
| AllowedIps.AllowedIPs.Lookup | wireguard/device/allowedips.go:283-294 | the answer is the longest-prefix match over the current routes, or nil if none covers the address |
| AllowedIps.AllowedIPs.NodePlacement | wireguard/device/allowedips.go:88-99 | the exact node of the prefix if there is one, else the deepest node above it, and the subtree below does not belong on its path |
| AllowedIps.AllowedIPs.AddToPeerEntries | wireguard/device/allowedips.go:58-60 | the node, new or in the trie, is appended to its peer's list |
| AllowedIps.AllowedIPs.RemoveFromPeerEntries | wireguard/device/allowedips.go:62-67 | the node leaves its peer's list and nothing else does |
| AllowedIps.AllowedIPs.Insert | wireguard/device/allowedips.go:268-281 | the routes become the old ones with the masked prefix mapped to the peer, and shape and per-peer lists stay exact |
| AllowedIps.AllowedIPs.InsertAt | wireguard/device/allowedips.go:134-189 | where no node has the prefix, one of the three ways to hang in a new node adds exactly its route |
| AllowedIps.AllowedIPs.ReplacePeer | wireguard/device/allowedips.go:117-122 | an exact match moves the node from one peer's list to the other's |
| AllowedIps.AllowedIPs.InsertLeaf | wireguard/device/allowedips.go:134-145 | the prefix becomes a new leaf |
| AllowedIps.AllowedIPs.InsertAbove | wireguard/device/allowedips.go:146-165 | the prefix becomes the parent of the subtree that was there |
| AllowedIps.AllowedIPs.InsertGlue | wireguard/device/allowedips.go:167-189 | a peerless node with the common prefix takes both as children |
| AllowedIps.AllowedIPs.Unlink | wireguard/device/allowedips.go:237-265 | a node that lost its peer is spliced out unless it has two children, and so is its parent if that leaves it useless |
| AllowedIps.AllowedIPs.RemoveNode | wireguard/device/allowedips.go:231-265 | one entry of a peer is removed with all invariants kept |
| AllowedIps.AllowedIPs.RemoveByPeer | wireguard/device/allowedips.go:226-266 | exactly the routes of the peer are gone, and its list is empty |
| AllowedIps.EntriesForPeer | wireguard/device/allowedips.go:213-224 | the listed prefixes are masked, none is listed twice, and they are exactly those routed to the peer, also for a peer that never had one |
| AllowedIps.RoutesAfterMeaning | wireguard/device/allowedips.go:207-294 | after any sequence of operations a prefix belongs to a peer if and only if some insert put it there and no later operation inserted that prefix again or removed that peer |
| AllowedIps.RunThenLookup | wireguard/device/allowedips.go:207-294 | after any sequence of Insert and RemoveByPeer, every lookup answers the longest-prefix match of what the sequence left |
| AllowedIps.RemoveAllPeers | wireguard/device/allowedips.go:226-266 | removing every peer leaves both tries empty |
| InternetChecksum.ChecksumNoFold | wireguard/tun/checksum.go:7-100 | loop and tiers together add all 32-bit words, with the odd tail, into the 64-bit accumulator modulo 2^64 |
| InternetChecksum.NoWrap | wireguard/tun/checksum.go:7-100 | the accumulator does not wrap for byte strings up to 65535 bytes and initial sums below 2^63 |
| InternetChecksum.FourFolds | wireguard/tun/checksum.go:102-109 | four folds bring every 64-bit value to its 16-bit one's complement representative |
| InternetChecksum.Checksum | wireguard/tun/checksum.go:102-109 | the result is the folded word sum |
| InternetChecksum.ChecksumIsOnesSum | wireguard/tun/checksum.go:7-109 | the unrolled checksum equals the 16-bit sum with end-around carry |
| InternetChecksum.FillChecksum | wireguard/tun/offload_linux.go:945-947 | writing the complement of the checksum into a zeroed field makes the whole sum all ones |
| InternetChecksum.PseudoHeaderChecksumNoFold | wireguard/tun/checksum.go:111-118 | the sum of addresses, protocol and length |
| InternetChecksum.PseudoHeaderIsPrefix | wireguard/tun/checksum.go:111-118 | continuing from the pseudo header sum is the checksum of pseudo header and segment put end to end |
| Gso.ChecksumValid | wireguard/tun/offload_linux.go:388-398 | the test is that pseudo header and segment fold to all ones |
| Gso.ValidChecksumMeaning | wireguard/tun/offload_linux.go:388-398 | it accepts exactly the packets whose one's complement sum is all ones |
| Gso.MakeSegment | wireguard/tun/offload_linux.go:926-978 | one segment: payload slice, lengths, IPv4 ID and header checksum, sequence number, flags and transport checksum, all other header bytes copied |
| Gso.SegmentFlagBits | wireguard/tun/offload_linux.go:960-964 | the flags byte of a segment, bit by bit |
| Gso.OffsetNoWrap | wireguard/tun/offload_linux.go:958 | the 16-bit arithmetic of the sequence offset does not wrap for segments inside the packet |
| Gso.GsoSplit | wireguard/tun/offload_linux.go:901-983 | on success there are exactly as many segments as the payload needs; it fails exactly when there are too few buffers, and returns one less than their number; in both cases each buffer written holds a correct segment that passes checksumValid; in every segment but the last FIN and PSH are clear and the other six flag bits are the packet's, and in the last all eight are |
| Gso.SegmentsConserveData | wireguard/tun/offload_linux.go:901-983 | the segments' payloads put end to end are the packet's, all but the last are gsoSize long and none is empty |
| GroGroups.AppendTracks | wireguard/tun/offload_linux.go:476-506 | appending keeps a buffer the merge of its packets in sequence order |
| GroGroups.PrependTracks | wireguard/tun/offload_linux.go:450-474 | prepending with the buffer swap does too, also when the new head is larger |
| GroState.PassOnInv | wireguard/tun/offload_linux.go:881-890 | a packet that is passed on keeps the invariant of the run |
| GroState.EnterInv | wireguard/tun/offload_linux.go:112-129 | so does a packet that enters the table |
| GroState.DropInv | wireguard/tun/offload_linux.go:608-610 | so does deleting an item with a bad checksum |
| GroState.MergeInv | wireguard/tun/offload_linux.go:600-607 | so does a merge |
| Gro.TcpGro.CoalesceTCPPackets | wireguard/tun/offload_linux.go:444-506 | it merges exactly when there is room, no PSH goes in front and both checksums are right; then item and buffer are the merged ones, with the new packet at the end its mode asks for; a bad checksum is reported for the right packet; any other result changes nothing |
| Gro.TcpGro.CoalesceTests | wireguard/tun/offload_linux.go:450-489 | the tests before a merge, in the order of the program, and what each answer means |
| Gro.TcpGro.TryItem | wireguard/tun/offload_linux.go:600-616 | one item of the flow is merged with, dropped for a bad checksum, or left, each under its exact condition, with the whole table afterwards |
| Gro.TcpGro.TryItems | wireguard/tun/offload_linux.go:591-617 | from the newest item on, spoiled ones are dropped up to the first that suits |
| Gro.TcpGro.TcpGRO | wireguard/tun/offload_linux.go:531-621 | the packet is passed on exactly if it is not plain TCP data or an item suits and its own checksum is wrong; else it joins the newest item that suits; else it enters the table; table, buffers and their packets afterwards are given in full, and the invariant of the run is kept |
| Gro.TcpGro.DeleteAt | wireguard/tun/offload_linux.go:136-140 | the item leaves its flow and the invariant of the run is kept |
| Gro.StepUnique | wireguard/tun/offload_linux.go:865-892 | a step is determined: table, buffers, their packets and the list to write follow from the state before |
| Gro.TcpGro.ApplyTCPCoalesceAccounting | wireguard/tun/offload_linux.go:625-679 | every merged buffer gets its lengths, checksums and virtio header, every other item of the table a zero header, and no other buffer or header changes |
| Gro.EveryPacketLandsOnce | wireguard/tun/offload_linux.go:531-621 | every input packet is in exactly one place of exactly one written buffer |
| GroGso.AccountPacket | wireguard/tun/offload_linux.go:625-679 | lengths and checksums of one merged packet, all other bytes kept |
| GroGso.MergedData | wireguard/tun/offload_linux.go:901-983 | segment k of a merged buffer carries the payload of its k-th packet |
| GroGso.MergedSeq | wireguard/tun/offload_linux.go:956-959 | and its sequence number |
| GroGso.GsoUndoesGro | wireguard/tun/offload_linux.go:865-983 | segmenting a merged buffer gives back every packet's length, payload, sequence and acknowledgement numbers, addresses and ports, in order |
| GroHeaders.HeadersComeBack | wireguard/tun/offload_linux.go:279-386 | every packet gets back all header bytes but the IPv4 ID and header checksum, the IPv6 flow label and the TCP reserved bits, flags, window, checksum and urgent pointer |
| GroHeaders.FlagsComeBack | wireguard/tun/offload_linux.go:450-506 | every packet but the last of its group gets its flags byte back; the last does if and only if it has no PSH or nothing was put in front after it joined |
| FlagExamples.SplitWithoutPsh | wireguard/tun/offload_linux.go:450-474 | two packets of which the first, with PSH, comes back without |
| GroHeaders.ByteIdentity | wireguard/tun/offload_linux.go:625-983 | a packet comes back byte by byte if and only if the first packet of its group has those fields in common with it, its ID counts up from there, its flags come back, and its checksums are right and not written as 0xFFFF |
| Gro.WrittenBufferSplitsBack | wireguard/tun/offload_linux.go:865-983 | a written buffer is its own input packet, or splits into exactly its packets |
| Gro.SingleIsUntouched | wireguard/tun/offload_linux.go:881-890 | a written buffer that holds one packet holds it byte by byte |
| Gro.SegmentFits | wireguard/tun/offload_linux.go:921-936 | a segment is no longer than the merged packet, so it fits into a buffer that could hold that |
| UdpPackets.UdpAppendTracks | wireguard/tun/offload_linux.go:314-332 | appending the next datagram of the flow keeps the buffer the headers of the first and the payloads of all, in order, all but the last of full size |
| UdpOrder.NextInv | wireguard/tun/offload_linux.go:786-858 | udpGRO on the next packet, whatever it is, keeps the invariant of the run |
| UdpRuns.FlowsInOrder | wireguard/tun/offload_linux.go:832-857 | for any vector and any number of its packets, the datagrams of each flow leave, once merged packets are split, in the order in which they came, and every packet leaves exactly once |
| UdpRuns.OvertakesIff | wireguard/tun/offload_linux.go:832-857 | a later packet overtakes one that is passed on if and only if, in the state in which its turn comes, it is tracked, its flow has a last item in an earlier buffer, and it may be appended there, with room and right checksums |
| UdpRuns.OvertakesBuffer | wireguard/tun/offload_linux.go:832-857 | the same for any earlier packet, with the buffer it was put into in place of its own |
| UdpRuns.EmptyOvertaken | wireguard/tun/offload_linux.go:817-821 | three packets of one flow, of which the second, without payload, leaves last |
| UdpGro.UdpGro.CoalesceUDPPackets | wireguard/tun/offload_linux.go:414-438 | the result follows from room and checksums in that order; on success the payload is behind the item's packet, otherwise nothing changes |
| UdpGro.UdpGro.UdpGRO | wireguard/tun/offload_linux.go:786-858 | buffers and table afterwards are those of the step: passed on exactly if it is not a plain datagram with a payload, merged into the last item of its flow exactly if that fits, else a new last item |
| UdpGso.AccountUdp | wireguard/tun/offload_linux.go:687-728 | lengths and checksums of one merged packet, all other bytes kept |
| UdpGro.UdpGro.ApplyUDPCoalesceAccounting | wireguard/tun/offload_linux.go:683-739 | every merged buffer gets its lengths, checksums and virtio header, every other item of the table a zero header, and no other buffer or header changes |
| UdpGso.UdpData | wireguard/tun/offload_linux.go:901-983 | segment k of a merged buffer carries the payload of its k-th datagram |
| UdpGso.UdpGsoUndoesGro | wireguard/tun/offload_linux.go:865-983 | segmenting a merged buffer gives back as many datagrams as it holds, each with its length and payload, in order |
| UdpGso.UdpByteIdentity | wireguard/tun/offload_linux.go:683-983 | every datagram gets back its addresses, ports and all other header bytes but IPv4 ID and header checksum, IPv6 flow label and UDP length and checksum; and all bytes if and only if the head's flow label is its own, its ID counts up, its UDP length is right and its checksums are right and not written as 0xFFFF |
| UdpGso.UdpChecksumBack | wireguard/tun/offload_linux.go:976-978 | the checksum of a datagram comes back, except that 0xFFFF comes back as 0 |
| GroPackets.CandidateKinds | wireguard/tun/offload_linux.go:751-775 | what a packet is taken for: no packet is for both tables, one for TCP is so whether or not UDP is coalesced, and one for UDP only if it is |
| PacketFields.PlainTcpIff | wireguard/tun/offload_linux.go:531-586 | tcpGRO looks for something to merge with exactly for whole, unfragmented packets with data and no flag but ACK and PSH, and reads from them what the header layouts say |
| PacketFields.ComparesIp | wireguard/tun/offload_linux.go:279-308 | ipHeadersCanCoalesce compares exactly type of service, fragment flags and time to live, or traffic class and hop limit |
| TcpMerging.CanMeans | wireguard/tun/offload_linux.go:334-386 | tcpPacketsCanCoalesce says append if and only if the packet goes on where the packets of the group end, prepend if and only if it ends where they start, in terms of these packets' bytes |
| TcpMerging.SuitsIff | wireguard/tun/offload_linux.go:444-506 | an item takes or rejects a packet if and only if the packet fits, there is room, and the checksums of the packets in it are right or not |
| TcpMerging.RunGoes | wireguard/tun/offload_linux.go:531-621 | in any run, plain data joins the newest item of its flow that takes it, behind or in front, stays alone if its own checksum is wrong, and becomes an item if none takes it |
| TcpMerging.OthersAlone | wireguard/tun/offload_linux.go:531-586 | in any run, a packet that is not plain data is in no item and in a group of its own |
| TcpMerging.FlagsInGroup | wireguard/tun/offload_linux.go:450-506 | in any run, all packets of an item but the last have the flags ACK, and the last has PSH if and only if the item says so |
| TcpMerging.LeftAlone | wireguard/tun/offload_linux.go:865-896 | after handleGRO, a packet that is plain data of neither protocol is written by itself, as it came |
| TcpMerging.HeaderDescribes | wireguard/tun/offload_linux.go:625-679 | the virtio header of a merged packet has the packet's version, header length, checksum place and the size of its first packet |
| UdpMerging.PlainUdpIff | wireguard/tun/offload_linux.go:786-831 | udpGRO tracks exactly whole, unfragmented datagrams with data, and reads from them what the header layouts say |
| UdpMerging.CanAppendMeans | wireguard/tun/offload_linux.go:314-332 | udpPacketsCanCoalesce says yes if and only if the datagrams of the item are all of one size and the next is not larger, with the same IP fields |
| UdpMerging.OutcomeMeans | wireguard/tun/offload_linux.go:414-438 | coalesceUDPPackets succeeds if and only if there is room and all checksums are right |
| UdpMerging.RunGoes | wireguard/tun/offload_linux.go:786-858 | in any run, a datagram joins the last item of its flow if it may, and else becomes the last item; other packets are passed on |
| UdpMerging.HeaderDescribes | wireguard/tun/offload_linux.go:683-739 | the virtio header of merged datagrams has the packet's header length, checksum place and the size of its first datagram |
| OffloadState.EveryPacketOnce | wireguard/tun/offload_linux.go:865-892 | with both tables at work on one vector, every packet leaves exactly once |
| OffloadState.FlowsInOrder | wireguard/tun/offload_linux.go:832-892 | with TCP packets in between, merged or not, the datagrams of every UDP flow leave in the order in which they came |
| OffloadState.TablesApart | wireguard/tun/offload_linux.go:865-896 | no item of the UDP table is in a buffer of the TCP table, at any point of any run |
| OffloadState.UnmergedIsUntouched | wireguard/tun/offload_linux.go:865-896 | a written buffer into which nothing was merged holds its own packet, byte by byte, and no other |
| OffloadState.HeaderWritten | wireguard/tun/offload_linux.go:625-739 | a written buffer has a virtio header written if and only if its packet was not dropped from the TCP table, and the header is all zero if and only if nothing was merged |
| OffloadHeaders.StepLive | wireguard/tun/offload_linux.go:600-616 | a packet stays in the TCP table unless the next packet of its flow could be merged with it, finds its checksum wrong and suits no newer item |
| OffloadHeaders.DroppedIff | wireguard/tun/offload_linux.go:591-616 | over a whole run, an entered packet is dropped if and only if one of the later packets does that |
| OffloadExamples.HeaderNotWritten | wireguard/tun/offload_linux.go:608-610 | two packets of which the first, with a wrong checksum, is written and gets no header |
| OffloadExamples.AllOnesLost | wireguard/tun/offload_linux.go:976-978 | two datagrams with the checksum 0xFFFF are merged and come back with the checksum 0 |
| Offload.Handler.HandleTcp | wireguard/tun/offload_linux.go:872-875 | after a TCP packet both tables, buffers, list and headers are those of a run that is one packet longer; the UDP table is not touched |
| Offload.Handler.HandleUdp | wireguard/tun/offload_linux.go:876-879 | after a UDP packet the same; the TCP table is not touched |
| Offload.Handler.HandlePacket | wireguard/tun/offload_linux.go:870-892 | after a packet of any kind both tables, the buffers, the list to write and the headers are those of a run that is one packet longer |
| Offload.Handler.HandleGRO | wireguard/tun/offload_linux.go:865-896 | it fails exactly on an invalid offset; else both tables and the list to write are those of the run over the whole vector, merged buffers have their lengths, checksums and headers, and other packets are as they came |
| Offload.CoalesceThenSplit | wireguard/tun/offload_linux.go:865-983 | handleGRO on any vector of packets, TCP, UDP and others, then gsoSplit on a written buffer: every packet leaves once and UDP flows in order; the buffer is split exactly if several packets were merged into it, the segments are these packets in order if and only if there is room, and any other buffer holds its own packet byte by byte |
| NoiseTerms.SharedSecretAgrees | wireguard/device/noise-helpers.go:100-108 | both ends compute the same secret |
| NoiseTerms.Kdf3Injective | wireguard/device/noise-helpers.go:56-63 | equal outputs come from equal keys and inputs |
| NoiseHandshake.InitiationAgreement | wireguard/device/noise-protocol.go:177-349 | an initiation is accepted exactly by the device it was made for and under the same static secret, and then both transcripts agree and key and timestamp are the sender's |
| NoiseHandshake.OnlyInitiations | wireguard/device/noise-protocol.go:247-349 | whatever the message, if it is accepted, it is the initiation of the owner of that key to this device for some ephemeral key and the timestamp read |
| NoiseHandshake.ResponseAgreement | wireguard/device/noise-protocol.go:351-514 | a response is accepted exactly when both ends had the same transcript, the keys are the initiator's own and the preshared keys agree; then the transcripts agree |
| NoiseHandshake.OnlyResponses | wireguard/device/noise-protocol.go:419-514 | whatever the message, if it is accepted, it is the response to this very handshake for some ephemeral key |
| NoiseHandshake.SessionKeysCross | wireguard/device/noise-protocol.go:530-549 | the transport keys are crossed exactly when the chaining keys agree, and the two directions differ |
| NoiseHandshake.SessionAgreement | wireguard/device/noise-protocol.go:177-549 | for all keys the full exchange succeeds if and only if the preshared keys agree, with equal transcripts and crossed transport keys |
| NoiseFramework.KdfIsHkdf | wireguard/device/noise-helpers.go:24-63 | the key derivation functions are the outputs of HKDF |
| NoiseFramework.InitiationIsIK | wireguard/device/noise-protocol.go:177-245 | CreateMessageInitiation writes the first message of Noise_IKpsk2, tokens e, es, s, ss, with the timestamp as payload, and fails exactly when the framework does |
| NoiseFramework.ConsumedInitiationIsIK | wireguard/device/noise-protocol.go:247-349 | ConsumeMessageInitiation reads that message: same static key, payload and transcript, and the same failures |
| NoiseFramework.ResponseIsIK | wireguard/device/noise-protocol.go:351-417 | CreateMessageResponse writes the second message, tokens e, ee, se, psk, with no payload |
| NoiseFramework.ConsumedResponseIsIK | wireguard/device/noise-protocol.go:419-517 | ConsumeMessageResponse reads that message |
| NoiseFramework.KeysAreSplit | wireguard/device/noise-protocol.go:519-550 | the transport keys are those of Split, and the initiator sends with the first |
| NoiseRotation.ReindexOk | wireguard/device/noise-protocol.go:235-240 | giving a handshake a new index keeps the index table invariant |
| NoiseRotation.RotateOk | wireguard/device/noise-protocol.go:575-603 | so does handing the index to a new keypair and rotating the slots, as initiator and as responder |
| NoiseRotation.PromoteOk | wireguard/device/noise-protocol.go:608-625 | so does making the next keypair current |
| NoiseRotation.DropKeypairsOk | wireguard/device/peer.go:230-238 | so does dropping all keypairs |
| NoiseRotation.ClearHandshakeOk | wireguard/device/peer.go:242-246 | so does clearing the handshake |
| NoiseRotation.RunOk | wireguard/device/indextable.go:38-92 | over every interleaving of the locked regions, with the two of ConsumeMessageResponse apart, no index leads to anything but its owner |
| NoiseRotation.ApplyComplete | wireguard/device/noise-protocol.go:501-508 | the one step after which a handshake in progress or a keypair can be without an index is storing a response after the handshake has given up its index, and it always has that effect |
| NoiseRotation.CompleteIffTimely | wireguard/device/noise-protocol.go:437-508 | throughout a run all handshakes in progress and all keypairs in slots have their index, if and only if no response is stored that late |
| NoiseRotation.IndexLasts | wireguard/device/noise-protocol.go:437-508 | a handshake keeps an index until it is cleared or a keypair is derived from it, so that a response is stored in time if neither came in between |
| NoiseRotation.OwnersFound | wireguard/device/indextable.go:94-98 | after a run without late stores every handshake in progress and every keypair in a slot is found under its index |
| NoiseRotation.ForgottenInBetween | wireguard/device/peer.go:251-257 | a run in which the handshake is cleared between the two regions, and the new current keypair has index 0 and is found nowhere |
| NoiseRotation.LookupExact | wireguard/device/indextable.go:94-98 | in every such run, an index other than 0 is found exactly when it is that of a keypair in a slot of its peer or of its handshake, and it names its owner |
| NoiseRotation.IndicesApart | wireguard/device/indextable.go:58-92 | in every such run, no two keypairs in slots and no handshake share an index other than 0 |
| NoiseRotation.ConfirmedWasReceived | wireguard/device/receive.go:458-467 | a keypair is confirmed only by a packet received under it |
| NoiseRotation.KeyConfirmation | wireguard/device/noise-protocol.go:588-625 | in every run, a keypair derived as responder is the current one only after a packet was received under it |
| NoiseLookups.AfterInitiator | wireguard/device/noise-protocol.go:588-597 | in any run, after a keypair has been derived as initiator it is current, and of the others exactly the one derived last is still found |
| NoiseLookups.AfterResponder | wireguard/device/noise-protocol.go:598-603 | after a keypair has been derived as responder the current one stays current, and no other is still found |
| NoiseLookups.AfterConfirmation | wireguard/device/noise-protocol.go:608-625 | after the first packet under it such a keypair is current, and of the others exactly the one that was current is still found |
| NoiseLookups.AfterFlush | wireguard/device/peer.go:225-238 | after a flush no keypair of the peer is found |
| NoiseLookups.AfterOther | wireguard/device/noise-protocol.go:575-625 | no other step changes which keypairs are found or which is current |
| NoiseLookups.NewestFound | wireguard/device/noise-protocol.go:575-603 | the keypair derived last is found until a flush |
| NoiseLookups.HandshakeFound | wireguard/device/indextable.go:38-92 | in any run an index leads to a handshake if and only if it is the one that handshake got last and has not given up |
| NoiseDevice.Device.NewPeer | wireguard/device/peer.go:64-116 | a new peer, filed under its key with the precomputed secret, unless the device is closed or full or the key is taken |
| NoiseDevice.Device.NewIndexForHandshake | wireguard/device/indextable.go:58-92 | the index is the first unused one of the random draws and now names the handshake |
| NoiseDevice.Device.CreateMessageInitiation | wireguard/device/noise-protocol.go:177-245 | the message and the new handshake are those of the symbolic initiation; it fails exactly when a shared secret is missing, and then the index table is unchanged |
| NoiseDevice.Device.ConsumeMessageInitiation | wireguard/device/noise-protocol.go:247-349 | it succeeds exactly on an authentic initiation of a known, running peer with a newer timestamp and no flood; then it stores transcript, index and timestamp, and no other handshake changes |
| NoiseDevice.Device.CreateMessageResponse | wireguard/device/noise-protocol.go:351-417 | message and handshake of the symbolic response; it fails exactly in a wrong state or without a shared secret |
| NoiseDevice.Device.ConsumeMessageResponse | wireguard/device/noise-protocol.go:419-514 | it succeeds exactly on an authentic response to the initiation in flight under that index |
| NoiseDevice.Device.BeginSymmetricSession | wireguard/device/noise-protocol.go:519-606 | it yields the session's keypair exactly after a finished handshake, and takes the rotation step |
| NoiseDevice.Device.RotateSlots | wireguard/device/noise-protocol.go:580-603 | which keypairs move, and which lose their slot and their index |
| NoiseDevice.Device.ReceivedWithKeypair | wireguard/device/noise-protocol.go:608-625 | the next keypair becomes current exactly when the packet came under it |
| NoiseDevice.Device.ZeroAndFlushAll | wireguard/device/peer.go:225-249 | all keypairs and the handshake are cleared together with their indices, and no packet is staged any more |
| NoiseDevice.Device.ExpireCurrentKeypairs | wireguard/device/peer.go:251-268 | the handshake is cleared, the next may be sent at once, and current and next keypair are expired |
| NoiseDevice.Device.HandleInitiation | wireguard/device/receive.go:366-383 | an initiation is answered exactly when it is authentic and newer, and the keypair behind the answer is in the next slot |
| NoiseDevice.Device.HandleResponse | wireguard/device/receive.go:399-423 | a response yields a keypair exactly when it is authentic, and that is the current one |
| NoiseDevice.FullHandshake | wireguard/device/noise-protocol.go:177-606 | two devices that know each other end with crossed keys and indices, each finding its keypair under the index the other sends, if and only if the preshared keys agree |
| Nonces.RunInv | wireguard/device/send.go:438-454 | over all interleavings of up to 2^13 + 1 senders the counter exceeds the limit by no more than the outstanding stores, or has wrapped only while all senders must store |
| Nonces.NonceReuse | wireguard/device/send.go:438-454 | no nonce is ever used twice if and only if at most 2^13 + 1 goroutines send at the same time |
| Nonces.ReuseRun | wireguard/device/send.go:438-454 | a run of 2^13 + 2 goroutines that uses a nonce twice |
| Nonces.SentBelowLimit | wireguard/device/send.go:440-451 | every nonce sent is below the limit, for any number of goroutines |
| Nonces.NoWrap | wireguard/device/constants.go:16 | over all interleavings the 64-bit counter never wraps if and only if at most 2^13 goroutines send at the same time |
| Nonces.WrapRun | wireguard/device/send.go:438-454 | a run of 2^13 + 1 goroutines that wraps the counter |
| Nonces.StaysExhausted | wireguard/device/send.go:428-454 | with at most 2^13 goroutines a counter that has reached the limit never falls below it again |
| Nonces.NoncesInOrder | wireguard/device/send.go:427-456 | with at most 2^13 goroutines the nonces go out as 0, 1, 2 and so on; once the limit is reached no goroutine passes the check and nothing more is sent |
| Nonces.NothingAfterExpire | wireguard/device/peer.go:251-268 | with at most 2^13 goroutines nothing is sent with a keypair after it has been expired |
| Nonces.AssignNonces | wireguard/device/send.go:437-456 | the usable elements end up at the front of the same slice in order, the others are staged again in order |
| Nonces.SelectPartitions | wireguard/device/send.go:437-456 | no element is lost or made up |
| Nonces.SelectInOrder | wireguard/device/send.go:437-456 | both parts hold exactly the elements with usable or unusable nonces, in their order |
| Replay.Filter.Reset | wireguard/replay/replay.go:29-33 | the filter accepts as if new, although only the first block is cleared |
| Replay.Filter.ValidateCounter | wireguard/replay/replay.go:37-62 | the answer and the new state are those of the filter that remembers every accepted counter |
| Replay.Filter.ClearBlocks | wireguard/replay/replay.go:43-50 | exactly the slots of the skipped blocks are cleared |
| Replay.AdvanceOk | wireguard/replay/replay.go:42-51 | moving the window forward keeps what the ring means, for jumps of any size |
| Replay.SetOk | wireguard/replay/replay.go:56-61 | setting the bit records the counter, and the block changes exactly when the counter is new |
| Replay.ValidateAll | wireguard/replay/replay.go:37-62 | any sequence of calls is answered as by the reference |
| Replay.AnswersFair | wireguard/replay/replay.go:35-62 | a call is accepted if and only if its counter is below the limit, was not accepted before and is at most windowSize behind every accepted one |
| Replay.NoReplay | wireguard/replay/replay.go:35-62 | no counter is accepted twice |
| Datagrams.CoalesceMessages | wireguard/conn/bind_std.go:450-498 | the messages are the maximal batches of the buffers in order, each with its destination and source, and with its segmentation size set once if it holds several, never otherwise |
| Datagrams.BatchSplitsBack | wireguard/conn/bind_std.go:461-496 | a batch is segmented back into its buffers if and only if it is a single one or its last one is not empty, and otherwise into fewer datagrams; it holds at most 64 datagrams and maxPayloadLen bytes |
| Datagrams.BatchIsLongest | wireguard/conn/bind_std.go:461-496 | a batch is the longest list of buffers that the kernel and the first buffer take as one message |
| Datagrams.EmptyTailLost | wireguard/conn/bind_std.go:461-496 | a batch whose empty last buffer does not come back |
| Datagrams.SegmentationUndoesCoalescing | wireguard/conn/bind_std.go:450-498 | over a whole list, the buffers come back exactly, in order, if and only if no batch of several buffers ends with an empty one |
| Datagrams.CutsUnique | wireguard/conn/bind_std.go:461-496 | where a list of buffers is cut into batches follows from the list |
| Datagrams.SendAll | wireguard/conn/bind_std.go:450-498 | coalescing any list of buffers and segmenting the messages is the identity under exactly that condition, in particular if no buffer is empty |
| Datagrams.ChunksJoin | wireguard/conn/bind_std.go:518-535 | segmentation conserves the bytes |
| DatagramSplit.SplitOne | wireguard/conn/bind_std.go:522-535 | the pieces of one message become the next packets, although they may be written into its own buffer |
| DatagramSplit.SplitCoalescedMessages | wireguard/conn/bind_std.go:502-544 | whatever the outcome, the first n messages are the packets of the original messages in order; on success the messages read and not written again are empty |
| DatagramSplit.SplitSucceeds | wireguard/conn/bind_std.go:502-544 | it succeeds if and only if all control data parses and at no point have more packets come out than messages gone in; then no packet is missing |
| DatagramSplit.SplitFails | wireguard/conn/bind_std.go:502-544 | the first message that does not parse or whose packets do not fit decides the error; the packets before it are delivered, and those of its own that fit |
| DatagramSplit.SplitUndoesCoalescing | wireguard/conn/bind_std.go:502-544 | a successful split returns exactly the datagrams the kernel put together, in order, if and only if no segmentation size exceeds the length of its message |
| DatagramSplit.PiecesAreSegments | wireguard/conn/bind_std.go:518-535 | the pieces of a message are its datagrams if and only if the segmentation size is at most its length |
| DatagramSplit.StaleByte | wireguard/conn/bind_std.go:518-535 | a message whose first piece runs past the received bytes |
| Ratelimiter.Limiter.Allow | wireguard/ratelimiter/ratelimiter.go:99-137 | the answer is that of a limiter that never forgets an address |
| Ratelimiter.Limiter.Cleanup | wireguard/ratelimiter/ratelimiter.go:84-97 | what was idle at the start is gone, nothing is removed that is not idle at the end, and nothing changes for a limiter that never forgets |
| Ratelimiter.CollectionUnobservable | wireguard/ratelimiter/ratelimiter.go:84-137 | a collected and a kept idle entry give the same answer and the same entry |
| Ratelimiter.Serve | wireguard/ratelimiter/ratelimiter.go:84-137 | any sequence of packets and collections is answered as without collections, and what it allows an address costs at most maxTokens and the time it takes |
| Ratelimiter.RefusedIff | wireguard/ratelimiter/ratelimiter.go:99-137 | in any run a packet is refused if and only if, since some earlier packet of its address, what was allowed costs, with this packet, a full bucket and the time since then or more |
| Ratelimiter.WindowBound | wireguard/ratelimiter/ratelimiter.go:99-137 | from any state, with collections in between, the packets allowed to an address cost at most maxTokens and the length of the window |
| Ratelimiter.RunWindowBound | wireguard/ratelimiter/ratelimiter.go:84-137 | the same for any window of operations inside any run |
| RatelimiterRace.CallIsStep | wireguard/ratelimiter/ratelimiter.go:99-137 | a call whose regions follow each other is one step of the limiter |
| RatelimiterRace.RaceBound | wireguard/ratelimiter/ratelimiter.go:84-137 | from any state and over any interleaving of n callers of one address and the collector, the packets allowed cost at most a full bucket, the time that passes, and a burst of the n callers, once and again for each time the entry is collected |
| RatelimiterRace.FourEach | wireguard/ratelimiter/ratelimiter.go:102-117 | n callers that all look up first get four packets each at one moment |
| RatelimiterRace.OneCallerOnly | wireguard/ratelimiter/ratelimiter.go:84-137 | a full bucket and the time bound every run of n callers and the collector if and only if n is at most one |
| Timers.RunsAtMostMods | wireguard/device/timers.go:28-53 | in every interleaving the expiration function runs at most once per Mod and never twice at the same time |
| Timers.DelSyncStops | wireguard/device/timers.go:62-67 | in every interleaving, from the second Del of DelSync on, the expiration function neither runs nor starts until a later Mod, even if the callback had re-armed the timer |
| Timers.DelStops | wireguard/device/timers.go:55-67 | from any Del on, no run of the expiration function starts until a later Mod |
| Timers.ModRuns | wireguard/device/timers.go:28-53 | after a Mod the expiration function runs once the timer fires and its callback gets the lock |
| Timers.DelDoesNotWait | wireguard/device/timers.go:55-60 | Del alone may return while the expiration function runs |
| Timestamps.PutValue | wireguard/tai64n/tai64n.go:26-28 | the big-endian bytes carry the number |
| Timestamps.CompareIsNumeric | wireguard/tai64n/tai64n.go:35-37 | comparing byte strings of the same length is comparing the numbers |
| Timestamps.StampOrder | wireguard/tai64n/tai64n.go:22-37 | a stamp is after another if and only if its whitened time is |
| Timestamps.StampFormat | wireguard/tai64n/tai64n.go:14-29 | a stamp is a TAI64N label: 2^62 and 10 and the seconds, then the nanoseconds with their lower 24 bits cleared |
| Timestamps.SameStamp | wireguard/tai64n/tai64n.go:22-37 | two moments with the same stamp |
| Timestamps.StampsIncrease | wireguard/tai64n/tai64n.go:22-37 | stamps at least one whitening interval apart increase |
| Timestamps.Sender.SendHandshakeInitiation | wireguard/device/send.go:172-196 | it sends exactly if the clock, when checked, is RekeyTimeout after lastSentHandshake, which is then set to a later reading; so initiations are that far apart until lastSentHandshake is put back |
| Timestamps.SentIncrease | wireguard/device/send.go:172-196 | of any two initiations of a sender between which lastSentHandshake was not put back, the later one carries the later stamp if the earlier was stamped within RekeyTimeout less one whitening interval of setting it |
| Timestamps.DelayBound | wireguard/device/send.go:184-205 | if every message is stamped within d of setting lastSentHandshake, successive initiations have increasing stamps, if and only if d is at most RekeyTimeout less one whitening interval |
| Timestamps.LateInitiation | wireguard/device/send.go:184-205 | a sender that stamps one nanosecond later than that and sends the same stamp twice |
| Timestamps.Sender.AllowAtOnce | wireguard/device/peer.go:205-207 | putting lastSentHandshake back starts a new spacing |
| Timestamps.AtOnce | wireguard/device/peer.go:251-257 | after that a prompt sender may send the same stamp twice |
| Timestamps.Sender.SendHandshakeResponse | wireguard/device/send.go:224-227 | sending a response keeps that |
| Timestamps.NeverDecreases | wireguard/device/noise-protocol.go:314-336 | lastTimestamp never goes back over any interleaving of consumers and zeroing |
| Timestamps.RecordedStaysRejected | wireguard/device/noise-protocol.go:314-336 | once an initiation is recorded, none that is not after it passes the test again |
| Timestamps.NextInitiationPasses | wireguard/device/noise-protocol.go:314-336 | the next initiation of a sender passes the test of a receiver that has seen only earlier ones, each prompt and since lastSentHandshake was put back, or a whitening interval before |
| Lcg.CoprimeIsOdd | ipscanner/iterator/iterator.go:54-59 | the increment is coprime to the size exactly when it is odd, or the size is 1 |
| Lcg.SumValuation | ipscanner/iterator/iterator.go:74-87 | 2^k divides the geometric sum of n terms only if it divides n |
| Lcg.OrbitIsSum | ipscanner/iterator/iterator.go:75-87 | the n-th output is the increment times the geometric sum of n powers of the multiplier, modulo the size |
| Lcg.OrbitApart | ipscanner/iterator/iterator.go:74-87 | outputs less than the size apart differ |
| Lcg.HullDobell | ipscanner/iterator/iterator.go:54-87 | for every size 2^k and all parameters, the first 2^k outputs are a permutation of the range if and only if the check passes and, for size 2, the multiplier is odd |
| Lcg.TwoAddresses | ipscanner/iterator/iterator.go:54-72 | for size 2 the check lets a multiplier through that repeats one address |
| Lcg.LCG.Next | ipscanner/iterator/iterator.go:75-87 | the n-th call returns the n-th element of the orbit of 0, never nil |
| Lcg.NewLCG | ipscanner/iterator/iterator.go:23-51 | the generator has the first drawn parameters that pass the check |
| Lcg.WalkRange | ipscanner/iterator/iterator.go:98-110 | a generator for any prefix, except one of two addresses, yields every offset exactly once |

## Left out

- Concrete cryptography, message encodings, MACs and cookies: a free term algebra stands for them, and random sources do not fail.
- Header fields that coalescing and segmentation do not restore: IPv4 ID and header checksum, IPv6 flow label, TCP reserved bits, window, checksum and urgent pointer, and PSH if something was put in front; all segments take the head's flow label, reserved bits, window and urgent pointer. For UDP: IPv4 ID and header checksum, IPv6 flow label, and a wrong UDP length.
- Peer removal, configuration, endpoints, roaming, junk packets and the queues between goroutines.
- The MASQUE, Psiphon, WARP, netstack, SOCKS and command line parts: they are I/O around libraries.
- Clearing the pointers of removed trie nodes (zeroizePointers): it only helps the garbage collector.
- The bounded queue of StagePackets and the wake-ups of the buffer pool.
- AllowedIps.AllowedIPs.Insert: the peer has entries in no other table; an address of another length, on which the program panics, is excluded.
- AllowedIps.EntriesForPeer: the callback does not stop the enumeration early.
- Offload.Handler.HandleGRO: a buffer has room for at most 65535 bytes, as the buffers of the device have, and for the packet that is in it.
- NoiseRotation.RunOk: a locked region inside another, as in BeginSymmetricSession, is not taken apart.
- NoiseDevice.Device.NewIndexForHandshake: index 0, which also means no index, is not drawn, and some draw is unused.
- NoiseDevice.Device.ZeroAndFlushAll: the buffers of the staged packets are not returned to a pool.
- NoiseDevice.Device.ConsumeMessageInitiation: each device method is one step; the two locked regions of this one are taken apart in module Timestamps only.
- NoiseDevice.Device.ConsumeMessageResponse: the state is read and written in one step, although the program releases the lock in between; module NoiseRotation takes the two regions apart.
- Datagrams.CoalesceMessages: the backing arrays of the buffers do not overlap, and there is a message for every buffer.
- DatagramSplit.SplitCoalescedMessages: the buffers of different messages are different arrays, and a segmentation size does not exceed the buffer, where the program would panic.
- Ratelimiter.Limiter.Allow: it is one step, with a clock that does not go back, and token sums do not reach the limits of 64-bit integers; entries are values of the table. Module RatelimiterRace takes its regions apart for one address; a packet counts as allowed when its call reads the clock.
- Timestamps.Sender.SendHandshakeInitiation: the clock that stamps agrees with the one that measures elapsed time.
- Replay.Filter.ValidateCounter: counters are unbounded; block indices stay far below the 64-bit range.
- Lcg.NewLCG: the drawing of parameters ends because some draw passes; sampling and ordering of addresses are left out.
