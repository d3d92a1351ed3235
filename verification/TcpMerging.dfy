/** Which packets are merged, told by the input packets alone (wireguard/tun/offload_linux.go:279-308, 334-386, 444-506,
    531-621). */
module TcpMerging {
  import opened Arith
  import opened InternetChecksum
  import opened Options
  import opened Gso
  import opened GroPackets
  import opened GroGroups
  import opened GroState
  import opened GroGso
  import opened Gro
  import opened PacketFields
  import opened OffloadState
  import H = OffloadHeaders
  import opened Offload
  import P = UdpPackets
  import O = UdpOrder
  import R = UdpRuns
  import M = UdpMerging

  // ---------- what fits together ----------

  /** Same flow, same TCP header length and options, and the same IP fields that every segment of a merged packet gets. */
  predicate SameHeaders(a: Bytes, b: Bytes, isV6: bool)
    requires PlainTcp(a, isV6) && PlainTcp(b, isV6)
  {
    && Flow(a, isV6) == Flow(b, isV6) && TcpLen(a, isV6) == TcpLen(b, isV6) && SameIpFields(a, b, isV6)
    && a[DataAt(isV6) + 20..DataAt(isV6) + TcpLen(a, isV6)] == b[DataAt(isV6) + 20..DataAt(isV6) + TcpLen(b, isV6)]
  }

  /** All packets `g` and packet `j` are plain data. */
  predicate AllPlain(orig: seq<Bytes>, g: seq<nat>, j: nat, isV6: bool) {
    && g != [] && j < |orig| && PlainTcp(orig[j], isV6)
    && forall k {:trigger g[k]} :: 0 <= k < |g| ==> g[k] < |orig| && PlainTcp(orig[g[k]], isV6)
  }

  /** Packet `j` goes on where the packets `g` end: they are all of one size and their last has no PSH, and `j` is not
      larger. */
  predicate Follows(orig: seq<Bytes>, g: seq<nat>, j: nat, isV6: bool)
    requires AllPlain(orig, g, j, isV6)
  {
    var head, last, b := orig[g[0]], orig[g[|g| - 1]], orig[j];
    && SameHeaders(head, b, isV6) && SeqNum(b, isV6) == (SeqNum(last, isV6) + DataLen(last, isV6)) % TWO32
    && Flags(last, isV6) == ACK && DataLen(last, isV6) == DataLen(head, isV6) && DataLen(b, isV6) <= DataLen(head, isV6)
  }

  /** Packet `j`, without PSH, ends where the packets `g` start, and has their size or, if there is only one of them, more. */
  predicate Precedes(orig: seq<Bytes>, g: seq<nat>, j: nat, isV6: bool)
    requires AllPlain(orig, g, j, isV6)
  {
    var head, b := orig[g[0]], orig[j];
    && SameHeaders(head, b, isV6) && (SeqNum(b, isV6) + DataLen(b, isV6)) % TWO32 == SeqNum(head, isV6) && Flags(b, isV6) == ACK
    && (DataLen(b, isV6) == DataLen(head, isV6) || (DataLen(b, isV6) > DataLen(head, isV6) && |g| == 1))
  }

  // ---------- tcpPacketsCanCoalesce ----------

  /** What the members of a group are, in bytes. */
  lemma MembersPlain(orig: seq<Bytes>, pkt: Bytes, g: seq<nat>, item: Item, j: nat)
    requires Tracks(orig, pkt, g, item) && j < |orig| && PlainTcp(orig[j], item.key.isV6)
    ensures AllPlain(orig, g, j, item.key.isV6)
  {
    hide ParseTcp, IsTcpCandidate, Contents, Alike, GroupFlags, PlainTcp, Sound;
    FirstMember(orig, g, item);
    forall k | 0 <= k < |g| ensures g[k] < |orig| && PlainTcp(orig[g[k]], item.key.isV6) {
      assert Member(orig, item, g[k]);
      PlainTcpIff(orig[g[k]], item.key.isV6);
    }
  }

  /** Item and buffer, told by the packets. */
  lemma ItemReads(orig: seq<Bytes>, pkt: Bytes, g: seq<nat>, item: Item)
    requires Tracks(orig, pkt, g, item)
    ensures var isV6 := item.key.isV6;
            && g != [] && g[0] < |orig| && g[|g| - 1] < |orig| && PlainTcp(orig[g[0]], isV6) && PlainTcp(orig[g[|g| - 1]], isV6)
            && item.key == Flow(orig[g[0]], isV6) && item.iphLen == DataAt(isV6) && item.tcphLen == TcpLen(orig[g[0]], isV6)
            && item.gsoSize as int == DataLen(orig[g[0]], isV6) && item.sentSeq == SeqNum(orig[g[0]], isV6) < TWO32
            && |g| == item.numMerged as int + 1
            && SeqNum(orig[g[|g| - 1]], isV6) == (item.sentSeq + (|g| - 1) * item.gsoSize as int) % TWO32
            && |pkt| - HeadersLen(item) == (|g| - 1) * item.gsoSize as int + DataLen(orig[g[|g| - 1]], isV6)
            && 1 <= DataLen(orig[g[|g| - 1]], isV6) <= item.gsoSize as int
            && (item.pshSet <==> Flags(orig[g[|g| - 1]], isV6) != ACK)
  {
    hide ParseTcp, IsTcpCandidate, Contents, Alike, PlainTcp, Sound, Flow, TcpLen, SeqNum, DataLen, Flags;
    TracksLength(orig, pkt, g, item);
    assert PieceOk(orig, item, g, 0) && PieceOk(orig, item, g, |g| - 1);
    PlainTcpIff(orig[g[0]], item.key.isV6);
    PlainTcpIff(orig[g[|g| - 1]], item.key.isV6);
    DivModUnique(item.sentSeq, 0, item.sentSeq, TWO32);
  }

  /** The header comparisons of the program, made against the buffer, are those against its first packet. */
  lemma ComparesHeaders(orig: seq<Bytes>, pkt: Bytes, g: seq<nat>, item: Item, b: Bytes)
    requires Tracks(orig, pkt, g, item) && g != [] && g[0] < |orig| && PlainTcp(orig[g[0]], item.key.isV6) && PlainTcp(b, item.key.isV6)
    requires item.key == Flow(orig[g[0]], item.key.isV6) == Flow(b, item.key.isV6)
    requires item.iphLen == DataAt(item.key.isV6) && item.tcphLen == TcpLen(orig[g[0]], item.key.isV6)
    ensures HeadersLen(item) <= |pkt| && HeadersLen(item) <= |orig[g[0]]|
    ensures var isV6, t := item.key.isV6, item.iphLen;
            SameHeaders(orig[g[0]], b, isV6) <==>
              && TcpLen(b, isV6) == item.tcphLen
              && (item.tcphLen > 20 ==> b[t + 20..t + item.tcphLen] == pkt[t + 20..t + item.tcphLen])
              && IpHeadersCanCoalesce(b, pkt)
  {
    hide Pieces, Alike, GroupFlags, Payloads, Flow;
    var head, t := orig[g[0]], item.iphLen;
    HeadOptions(pkt, head, item);
    ComparesIp(b, head, item.key.isV6, 6);
    assert pkt[0] == head[0] && pkt[1] == head[1] && pkt[6] == head[6] && pkt[7] == head[7] && pkt[8] == head[8];
    if TcpLen(b, item.key.isV6) == item.tcphLen == 20 {
      assert b[t + 20..t + 20] == head[t + 20..t + 20];
    }
  }

  lemma HeadOptions(pkt: Bytes, head: Bytes, item: Item)
    requires HeadOk(pkt, head, item) && 20 <= item.tcphLen
    ensures pkt[item.iphLen + 20..HeadersLen(item)] == head[item.iphLen + 20..HeadersLen(item)]
  {
  }

  /** The test for an append: all packets have full size and the next byte is the one asked for. */
  lemma AppendTest(n: nat, size: nat, first: nat, tail: nat, seqNum: nat, lhs: nat)
    requires 1 <= tail <= size <= 0xFFFF && n * size + tail <= 0xFFFF && lhs == (size + n * size % 0x1_0000) % 0x1_0000 && seqNum < TWO32
    ensures (n * size + tail) % size == 0 && seqNum == (first + lhs) % TWO32
       <==> tail == size && seqNum == ((first + n * size) % TWO32 + tail) % TWO32
  {
    MulNonNegative(n, size);
    if (n * size + tail) % size == 0 {
      GroGroups.FullTail(n, size, tail);
    }
    if tail == size {
      assert n * size + size == (n + 1) * size;
      ModMultiple(n + 1, size);
      DivModUnique(n * size, 0, n * size, 0x1_0000);
      DivModUnique(size + n * size, 0, size + n * size, 0x1_0000);
      ModAdd(first + n * size, size, TWO32);
    }
  }

  /** A packet cannot both follow and precede: the sequence space is too large for that. */
  lemma NotBoth(first: nat, lhs: nat, seqNum: nat, size: nat)
    requires first < TWO32 && lhs <= 0xFFFF && 1 <= size <= 0xFFFF && seqNum == (first + lhs) % TWO32
    ensures (seqNum + size) % TWO32 != first
  {
    ModAdd(first + lhs, size, TWO32);
    var d := lhs + size;
    if first + d < TWO32 {
      DivModUnique(first + d, 0, first + d, TWO32);
    } else {
      DivModUnique(first + d, 1, first + d - TWO32, TWO32);
    }
  }

  /** The comparisons of sequence numbers. */
  lemma Positions(orig: seq<Bytes>, pkt: Bytes, g: seq<nat>, item: Item, b: Bytes)
    requires Tracks(orig, pkt, g, item) && PlainTcp(b, item.key.isV6) && g != [] && g[|g| - 1] < |orig| && HeadersLen(item) <= |pkt| && 0 < item.gsoSize
    ensures var isV6, last := item.key.isV6, orig[g[|g| - 1]];
            |pkt[HeadersLen(item)..]| % item.gsoSize as int == 0 && SeqNum(b, isV6) == (item.sentSeq + LhsLen(item)) % TWO32
            <==> DataLen(last, isV6) == item.gsoSize as int && SeqNum(b, isV6) == (SeqNum(last, isV6) + DataLen(last, isV6)) % TWO32
    ensures SeqNum(b, item.key.isV6) == (item.sentSeq + LhsLen(item)) % TWO32 ==>
              (SeqNum(b, item.key.isV6) + DataLen(b, item.key.isV6)) % TWO32 != item.sentSeq
  {
    hide Tracks, PlainTcp, TcpLen, SeqNum, DataLen, Flags;
    ItemReads(orig, pkt, g, item);
    PlainShape(b, item.key.isV6);
    TracksLonger(orig, pkt, g, item);
    var isV6 := item.key.isV6;
    AppendTest(|g| - 1, item.gsoSize as int, item.sentSeq, DataLen(orig[g[|g| - 1]], isV6), SeqNum(b, isV6), LhsLen(item));
    if SeqNum(b, isV6) == (item.sentSeq + LhsLen(item)) % TWO32 {
      NotBoth(item.sentSeq, LhsLen(item), SeqNum(b, isV6), DataLen(b, isV6));
    }
  }

  /** tcpPacketsCanCoalesce says where packet `j` belongs. */
  lemma CanMeans(orig: seq<Bytes>, pkt: Bytes, g: seq<nat>, item: Item, j: nat)
    requires Tracks(orig, pkt, g, item) && j < |orig| && PlainTcp(orig[j], item.key.isV6) && Flow(orig[j], item.key.isV6) == item.key
    ensures IsTcpCandidate(orig[j], item.key.isV6) && ParseTcp(orig[j], item.key.isV6).Some? && AllPlain(orig, g, j, item.key.isV6)
    ensures Can(orig[j], ParseTcp(orig[j], item.key.isV6).value, item, pkt)
         == if Follows(orig, g, j, item.key.isV6) then CoalesceAppend
            else if Precedes(orig, g, j, item.key.isV6) then CoalescePrepend
            else CoalesceUnavailable
  {
    hide Tracks, PlainTcp, ParseTcp, IsTcpCandidate, SameHeaders, IpHeadersCanCoalesce, Flow, TcpLen, SeqNum, DataLen, Flags, AllPlain, LhsLen;
    MembersPlain(orig, pkt, g, item, j);
    ItemReads(orig, pkt, g, item);
    ComparesHeaders(orig, pkt, g, item, orig[j]);
    PlainTcpIff(orig[j], item.key.isV6);
    PlainShape(orig[j], item.key.isV6);
    TracksLonger(orig, pkt, g, item);
    Positions(orig, pkt, g, item, orig[j]);
  }

  lemma PlainShape(b: Bytes, isV6: bool)
    requires PlainTcp(b, isV6)
    ensures DataAt(isV6) + TcpLen(b, isV6) + DataLen(b, isV6) == |b| <= 0xFFFF && TcpLen(b, isV6) >= 20 && DataLen(b, isV6) >= 1
    ensures SeqNum(b, isV6) < TWO32 && (Flags(b, isV6) != ACK <==> Flags(b, isV6) == PSH_ACK)
  {
  }

  lemma TracksLonger(orig: seq<Bytes>, pkt: Bytes, g: seq<nat>, item: Item)
    requires Tracks(orig, pkt, g, item)
    ensures HeadersLen(item) < |pkt| <= 0xFFFF && |pkt[HeadersLen(item)..]| == |pkt| - HeadersLen(item) && 0 < item.gsoSize
  {
    hide Pieces, Alike, GroupFlags, Payloads;
  }

  // ---------- which item takes a packet ----------

  /** The TCP checksum of the packet is right. */
  ghost predicate ChecksumRight(b: Bytes, isV6: bool) {
    DataAt(isV6) <= |b| <= 0xFFFF && HasValidChecksum(b, DataAt(isV6), 6, isV6)
  }

  /** The packets `g`, which are in buffer `w`, and packet `v.n` belong together, and the buffer of the one that comes first
      has room for all. */
  ghost predicate Fits(v: View, offset: nat, isV6: bool, w: nat)
    requires v.n < |v.bufs| && w < |v.bufs| && w in v.groups && AllPlain(v.orig, v.groups[w], v.n, isV6)
  {
    var g := v.groups[w];
    var headers := DataAt(isV6) + TcpLen(v.orig[g[0]], isV6);
    var room := (if Follows(v.orig, g, v.n, isV6) then v.bufs[w].cap else v.bufs[v.n].cap) - 2 * offset;
    && (Follows(v.orig, g, v.n, isV6) || Precedes(v.orig, g, v.n, isV6))
    && headers + |Payloads(v.orig, g, headers)| + DataLen(v.orig[v.n], isV6) <= room
  }

  /** Item `i` of the flow, its buffer and its packets. */
  ghost predicate IsItem(v: View, key: FlowKey, i: nat) {
    && key in v.table && i < |v.table[key]| && v.n < |v.orig| == |v.bufs|
    && var w := v.table[key][i].bufsIndex;
       w < |v.bufs| && w in v.groups && AllPlain(v.orig, v.groups[w], v.n, key.isV6)
  }

  /** Packet `v.n` would be merged into item `i` of its flow: it fits, and all checksums there are right. */
  ghost predicate Takes(v: View, offset: nat, key: FlowKey, i: nat)
    requires IsItem(v, key, i)
  {
    var w := v.table[key][i].bufsIndex;
    Fits(v, offset, key.isV6, w) && forall k {:trigger v.groups[w][k]} :: 0 <= k < |v.groups[w]| ==> ChecksumRight(v.orig[v.groups[w][k]], key.isV6)
  }

  /** It would be, but item `i` is a single packet with a wrong checksum. */
  ghost predicate Rejects(v: View, offset: nat, key: FlowKey, i: nat)
    requires IsItem(v, key, i)
  {
    var w := v.table[key][i].bufsIndex;
    Fits(v, offset, key.isV6, w) && |v.groups[w]| == 1 && !ChecksumRight(v.orig[v.groups[w][0]], key.isV6)
  }

  lemma ItemIs(v: View, offset: nat, key: FlowKey, i: nat)
    requires Inv(v, offset) && v.n < |v.orig| && key in v.table && i < |v.table[key]| && PlainTcp(v.orig[v.n], key.isV6)
    ensures IsItem(v, key, i)
  {
    hide Inv, PlainTcp, AllPlain, Tracks;
    TableItem(v, offset, key, i);
    var item := v.table[key][i];
    MembersPlain(v.orig, v.bufs[item.bufsIndex].pkt, v.groups[item.bufsIndex], item, v.n);
  }

  /** The test for place and room. */
  lemma FitsIff(v: View, offset: nat, key: FlowKey, i: nat, m: TcpMeta)
    requires Inv(v, offset) && v.n < |v.orig| && key in v.table && i < |v.table[key]|
    requires PlainTcp(v.orig[v.n], key.isV6) && Flow(v.orig[v.n], key.isV6) == key
    requires IsTcpCandidate(v.orig[v.n], key.isV6) && ParseTcp(v.orig[v.n], key.isV6) == Some(m)
    ensures v.n < |v.bufs| && IsItem(v, key, i)
    ensures var item := v.table[key][i];
            Fits(v, offset, key.isV6, item.bufsIndex) <==>
              && Can(v.bufs[v.n].pkt, m, item, v.bufs[item.bufsIndex].pkt) != CoalesceUnavailable
              && Mergeable(v.bufs[v.n], m, item, v.bufs[item.bufsIndex], offset)
  {
    hide Inv, PlainTcp, AllPlain, Tracks, ParseTcp, IsTcpCandidate, Follows, Precedes, Flow, Can, Payloads, DataLen, Flags, TcpLen;
    ItemIs(v, offset, key, i);
    TableItem(v, offset, key, i);
    BufferIsPacket(v, offset);
    PlainTcpIff(v.orig[v.n], key.isV6);
    var item := v.table[key][i];
    var g, pkt := v.groups[item.bufsIndex], v.bufs[item.bufsIndex].pkt;
    CanMeans(v.orig, pkt, g, item, v.n);
    ItemReads(v.orig, pkt, g, item);
    PlainShape(v.orig[v.n], key.isV6);
    MergedLength(v.orig, pkt, g, item);
    NearLengths(v.orig, g, v.n, key.isV6);
  }

  lemma NearLengths(orig: seq<Bytes>, g: seq<nat>, j: nat, isV6: bool)
    requires AllPlain(orig, g, j, isV6)
    ensures Precedes(orig, g, j, isV6) || Follows(orig, g, j, isV6) ==> TcpLen(orig[j], isV6) == TcpLen(orig[g[0]], isV6)
    ensures Precedes(orig, g, j, isV6) ==> Flags(orig[j], isV6) == ACK
  {
    hide Flow;
  }

  lemma MergedLength(orig: seq<Bytes>, pkt: Bytes, g: seq<nat>, item: Item)
    requires Tracks(orig, pkt, g, item)
    ensures |pkt| == HeadersLen(item) + |Payloads(orig, g, HeadersLen(item))|
  {
    hide Pieces, Alike, GroupFlags, Payloads;
  }

  /** What has been merged had right checksums; what has not been is the packet as it came. */
  lemma MergedRight(orig: seq<Bytes>, pkt: Bytes, g: seq<nat>, item: Item)
    requires Tracks(orig, pkt, g, item)
    ensures |g| == item.numMerged as int + 1
    ensures item.numMerged > 0 ==> forall k {:trigger g[k]} :: 0 <= k < |g| ==> g[k] < |orig| && ChecksumRight(orig[g[k]], item.key.isV6)
    ensures item.numMerged == 0 ==> g[0] < |orig| && pkt == orig[g[0]]
  {
    hide Alike, GroupFlags, PieceOk, HasValidChecksum, Payloads, HeadOk;
    if item.numMerged > 0 {
      forall k {:trigger g[k]} | 0 <= k < |g| ensures g[k] < |orig| && ChecksumRight(orig[g[k]], item.key.isV6) {
        assert Sound(orig, item, g[k]);
      }
    }
  }

  lemma IntactIs(b: Bytes, m: TcpMeta)
    requires m.iphLen == DataAt(m.key.isV6)
    ensures Intact(b, m) <==> ChecksumRight(b, m.key.isV6)
  {
  }

  /** The tests that the table and the buffers answer are tests of the input packets. */
  lemma SuitsIff(v: View, offset: nat, key: FlowKey, i: nat, m: TcpMeta)
    requires Inv(v, offset) && v.n < |v.orig| && key in v.table && i < |v.table[key]|
    requires PlainTcp(v.orig[v.n], key.isV6) && Flow(v.orig[v.n], key.isV6) == key
    requires IsTcpCandidate(v.orig[v.n], key.isV6) && ParseTcp(v.orig[v.n], key.isV6) == Some(m)
    ensures v.n < |v.bufs| && IsItem(v, key, i)
    ensures Suits(v.bufs, offset, v.n, m, v.table[key][i]) <==> Takes(v, offset, key, i)
    ensures Spoiled(v.bufs, offset, v.n, m, v.table[key][i]) <==> Rejects(v, offset, key, i)
  {
    hide Inv, PlainTcp, Tracks, ParseTcp, IsTcpCandidate, Flow, Can, Mergeable, Fits, ChecksumRight, Intact, AllPlain;
    FitsIff(v, offset, key, i, m);
    TableItem(v, offset, key, i);
    PlainTcpIff(v.orig[v.n], key.isV6);
    var item := v.table[key][i];
    MergedRight(v.orig, v.bufs[item.bufsIndex].pkt, v.groups[item.bufsIndex], item);
    IntactIs(v.bufs[item.bufsIndex].pkt, m);
  }

  // ---------- one packet, and whole runs ----------

  /** Item `i` is the newest of the flow that takes packet `v.n`. */
  ghost predicate NewestTaker(v: View, offset: nat, key: FlowKey, i: nat) {
    && IsItem(v, key, i) && Takes(v, offset, key, i)
    && forall j: nat {:trigger IsItem(v, key, j)} :: i < j && IsItem(v, key, j) ==> !Takes(v, offset, key, j)
  }

  /** The groups after packet `v.n` has joined item `i` of its flow, behind or in front of the packets there. */
  ghost function GroupsJoined(v: View, key: FlowKey, i: nat): map<nat, seq<nat>>
    requires IsItem(v, key, i)
  {
    var w := v.table[key][i].bufsIndex;
    var g := v.groups[w];
    v.groups[w := if Follows(v.orig, g, v.n, key.isV6) then g + [v.n] else [v.n] + g]
  }

  lemma NewestIs(v: View, offset: nat, key: FlowKey, m: TcpMeta, i: nat)
    requires Inv(v, offset) && v.n < |v.orig| == |v.bufs| && PlainTcp(v.orig[v.n], key.isV6) && Flow(v.orig[v.n], key.isV6) == key
    requires IsTcpCandidate(v.orig[v.n], key.isV6) && ParseTcp(v.orig[v.n], key.isV6) == Some(m)
    ensures Newest(v, offset, v.n, m, Listing(v.table, key), i) <==> NewestTaker(v, offset, key, i)
  {
    hide Inv, PlainTcp, ParseTcp, IsTcpCandidate, Flow, Suits, Spoiled, Takes, Rejects;
    forall j: nat | j < |Listing(v.table, key)| ensures IsItem(v, key, j) && (Suits(v.bufs, offset, v.n, m, Listing(v.table, key)[j]) <==> Takes(v, offset, key, j)) {
      SuitsIff(v, offset, key, j, m);
    }
  }

  /** What becomes of plain data: if no item of its flow takes it, it is a group of its own and can be joined; if its own
      checksum is wrong, it is a group of its own and cannot; else it joins the newest item that takes it, behind it if it
      follows, in front if it precedes. */
  ghost predicate Goes(v: View, v': View, offset: nat, key: FlowKey) {
    && ((forall i: nat :: !NewestTaker(v, offset, key, i)) ==> v'.groups == v.groups[v.n := [v.n]] && H.Has(Listing(v'.table, key), v.n))
    && (forall i: nat {:trigger NewestTaker(v, offset, key, i)} :: NewestTaker(v, offset, key, i) ==>
          if v.n < |v.orig| && ChecksumRight(v.orig[v.n], key.isV6) then v'.groups == GroupsJoined(v, key, i)
          else v'.groups == v.groups[v.n := [v.n]] && !H.Has(Listing(v'.table, key), v.n))
  }

  lemma NoneTakes(v: View, offset: nat, key: FlowKey, m: TcpMeta)
    requires Inv(v, offset) && v.n < |v.orig| == |v.bufs| && PlainTcp(v.orig[v.n], key.isV6) && Flow(v.orig[v.n], key.isV6) == key
    requires IsTcpCandidate(v.orig[v.n], key.isV6) && ParseTcp(v.orig[v.n], key.isV6) == Some(m)
    requires forall i: nat :: !NewestTaker(v, offset, key, i)
    ensures NoneSuits(v, offset, v.n, m, Listing(v.table, key), 0)
  {
    hide Inv, PlainTcp, ParseTcp, IsTcpCandidate, Flow, Suits, NewestTaker;
    var items := Listing(v.table, key);
    var i := |items|;
    while i > 0
      invariant 0 <= i <= |items| && NoneSuits(v, offset, v.n, m, items, i)
    {
      i := i - 1;
      if Suits(v.bufs, offset, v.n, m, items[i]) {
        assert Newest(v, offset, v.n, m, items, i);
        NewestIs(v, offset, key, m, i);
      }
    }
  }

  lemma JoinedGroups(v: View, offset: nat, key: FlowKey, m: TcpMeta, i: nat, after: Held)
    requires Inv(v, offset) && v.n < |v.orig| == |v.bufs| && PlainTcp(v.orig[v.n], key.isV6) && Flow(v.orig[v.n], key.isV6) == key
    requires IsTcpCandidate(v.orig[v.n], key.isV6) && ParseTcp(v.orig[v.n], key.isV6) == Some(m)
    requires NewestTaker(v, offset, key, i) && Joined(v, offset, v.n, m, Listing(v.table, key), i, after)
    ensures IsItem(v, key, i) && after.groups == GroupsJoined(v, key, i)
  {
    hide Inv, PlainTcp, ParseTcp, IsTcpCandidate, Flow, Newest, Kept, Can, MergedItem, MergedBuf, Follows, Precedes, AllPlain, Tracks, ChecksumRight;
    BufferIsPacket(v, offset);
    TableItem(v, offset, key, i);
    var item := v.table[key][i];
    CanMeans(v.orig, v.bufs[item.bufsIndex].pkt, v.groups[item.bufsIndex], item, v.n);
  }

  lemma NotListed(v: View, offset: nat, key: FlowKey)
    requires Inv(v, offset)
    ensures !H.Has(Listing(v.table, key), v.n)
  {
    NewcomerNotLive(v, offset);
    hide Inv, H.Has;
    if H.Has(Listing(v.table, key), v.n) {
      H.LiveIn(v, offset, key, v.n);
    }
  }

  lemma RefusedList(v: View, offset: nat, key: FlowKey, m: TcpMeta, i: nat)
    requires Inv(v, offset) && v.n < |v.bufs| && i < |Listing(v.table, key)|
    ensures var items := Listing(v.table, key); !H.Has(items[..i + 1] + Kept(v.bufs, offset, v.n, m, items[i + 1..]), v.n)
  {
    hide Inv, Kept, Spoiled;
    var items := Listing(v.table, key);
    NotListed(v, offset, key);
    H.HasConcat(items[..i + 1], Kept(v.bufs, offset, v.n, m, items[i + 1..]), v.n);
    H.HasKept(v.bufs, offset, v.n, m, items[i + 1..], v.n);
    assert forall k {:trigger items[i + 1..][k]} :: 0 <= k < |items[i + 1..]| ==> items[i + 1..][k] == items[i + 1 + k];
  }

  lemma TakerGoes(v: View, v': View, offset: nat, isV6: bool, result: GroResult, m: TcpMeta, i: nat)
    requires Inv(v, offset) && Became(v, v', offset, isV6, result) && v.n < |v.orig| == |v.bufs| && v.bufs[v.n].pkt == v.orig[v.n]
    requires PlainTcp(v.orig[v.n], isV6) && ParseTcp(v.orig[v.n], isV6) == Some(m) && m.iphLen == DataAt(isV6)
    requires m.key == Flow(v.orig[v.n], isV6) && m.key.isV6 == isV6 && NewestTaker(v, offset, m.key, i)
    ensures IsItem(v, m.key, i)
    ensures if ChecksumRight(v.orig[v.n], isV6) then v'.groups == GroupsJoined(v, m.key, i)
            else v'.groups == v.groups[v.n := [v.n]] && !H.Has(Listing(v'.table, m.key), v.n)
  {
    hide Inv, PlainTcp, ParseTcp, IsTcpCandidate, Flow, Newest, Intact, Kept, NoneSuits, Gro.Entered, Grown, ChecksumRight, IsItem, Takes, H.Has;
    var items := Listing(v.table, m.key);
    NewestIs(v, offset, m.key, m, i);
    TakerSuits(v, offset, m, items, i);
    IntactIs(v.orig[v.n], m);
    if Intact(v.orig[v.n], m) {
      var k: nat :| Joined(v, offset, v.n, m, items, k, HeldIn(v'));
      NewestUnique(v, offset, v.n, m, items, i, k);
      JoinedGroups(v, offset, m.key, m, i, HeldIn(v'));
    } else {
      var k: nat :| Refused(v, offset, v.n, m, items, k, HeldIn(v').(groups := v.groups));
      NewestInside(v, offset, m, items, k);
      RefusedList(v, offset, m.key, m, k);
    }
  }

  lemma PlainGoes(v: View, v': View, offset: nat, isV6: bool, result: GroResult)
    requires Inv(v, offset) && Became(v, v', offset, isV6, result) && v.n < |v.orig| && PlainTcp(v.orig[v.n], isV6)
    ensures Goes(v, v', offset, Flow(v.orig[v.n], isV6))
  {
    hide Inv, PlainTcp, ParseTcp, IsTcpCandidate, Flow, NewestTaker, Newest, Intact, Kept, NoneSuits, Gro.Entered, Joined, Refused, ChecksumRight, H.Has;
    BufferIsPacket(v, offset);
    PlainTcpIff(v.orig[v.n], isV6);
    FlowVersion(v.orig[v.n], isV6);
    var key, m := Flow(v.orig[v.n], isV6), ParseTcp(v.orig[v.n], isV6).value;
    if forall i: nat :: !NewestTaker(v, offset, key, i) {
      NoneTakes(v, offset, key, m);
      EnteredIs(v, offset, m, Listing(v.table, key), HeldIn(v'));
    }
    forall i: nat {:trigger NewestTaker(v, offset, key, i)} | NewestTaker(v, offset, key, i)
      ensures IsItem(v, key, i)
      ensures if ChecksumRight(v.orig[v.n], isV6) then v'.groups == GroupsJoined(v, key, i)
              else v'.groups == v.groups[v.n := [v.n]] && !H.Has(Listing(v'.table, key), v.n)
    {
      TakerGoes(v, v', offset, isV6, result, m, i);
    }
  }

  lemma FlowVersion(b: Bytes, isV6: bool)
    requires PlainTcp(b, isV6)
    ensures Flow(b, isV6).isV6 == isV6
  {
  }

  lemma NewestInside(v: View, offset: nat, m: TcpMeta, items: seq<Item>, k: nat)
    requires v.n < |v.bufs| && Newest(v, offset, v.n, m, items, k)
    ensures k < |items|
  {
    hide Suits, NoneSuits;
  }

  lemma TakerSuits(v: View, offset: nat, m: TcpMeta, items: seq<Item>, i: nat)
    requires v.n < |v.bufs| && Newest(v, offset, v.n, m, items, i)
    ensures !NoneSuits(v, offset, v.n, m, items, 0)
  {
    hide Suits;
  }

  lemma EnteredIs(v: View, offset: nat, m: TcpMeta, items: seq<Item>, after: Held)
    requires v.n < |v.bufs| && Gro.Entered(v, offset, v.n, m, items, after)
    ensures after.groups == v.groups[v.n := [v.n]] && H.Has(Listing(after.table, m.key), v.n)
  {
    hide Kept;
    var kept := Kept(v.bufs, offset, v.n, m, items);
    assert (kept + [NewItem(m, v.n)])[|kept|].bufsIndex == v.n;
  }

  /** In any run, plain data goes where the packets before it ask it to. */
  lemma RunGoes(views: seq<View>, tv: View, offset: nat, start: seq<Buf>, i: nat, isV6: bool)
    requires History(views, tv, offset, start) && i < tv.n && i < |tv.orig| && PlainTcp(tv.orig[i], isV6)
    ensures Goes(views[i], views[i + 1], offset, Flow(tv.orig[i], isV6))
  {
    hide Inv, Goes, IsOutcome, PlainTcp, ParseTcp, Flow;
    H.StepOf(views, offset, i);
    var v, v' := views[i], views[i + 1];
    assert Inv(v, offset) && v.n == i && v.orig == tv.orig;
    BufferIsPacket(v, offset);
    PlainTcpIff(v.orig[i], isV6);
    var result :| Became(v, v', offset, isV6, result);
    PlainGoes(v, v', offset, isV6, result);
  }

  /** Every packet of an item is plain data. */
  lemma LiveIsPlain(v: View, offset: nat, w: nat, j: nat)
    requires Inv(v, offset) && w in v.live && w in v.groups && j in v.groups[w]
    ensures j < |v.orig| && PlainTcp(v.orig[j], v.live[w].key.isV6)
  {
    hide Inv, ParseTcp, IsTcpCandidate, PlainTcp, Contents, Alike, GroupFlags;
    LiveItem(v, offset, w);
    FirstMember(v.orig, v.groups[w], v.live[w]);
    var k :| 0 <= k < |v.groups[w]| && v.groups[w][k] == j;
    assert Member(v.orig, v.live[w], v.groups[w][k]);
    PlainTcpIff(v.orig[j], v.live[w].key.isV6);
  }

  /** In any run, a packet that is not plain data, for instance one with another flag than ACK and PSH, is written by
      itself, as it came. */
  lemma OthersAlone(views: seq<View>, tv: View, offset: nat, start: seq<Buf>, j: nat)
    requires History(views, tv, offset, start) && j < tv.n && j < |tv.orig| && !PlainTcp(tv.orig[j], false) && !PlainTcp(tv.orig[j], true)
    ensures j in tv.toWrite && j !in tv.live && j in tv.groups && tv.groups[j] == [j] && j < |tv.bufs| && tv.bufs[j].pkt == tv.orig[j]
    ensures forall w :: w in tv.groups && j in tv.groups[w] ==> w == j
  {
    hide IsRun, PlainTcp, TableOk, BufsOk, Tracks;
    assert Inv(tv, offset);
    assert j in tv.home && tv.home[j] in tv.groups && j in tv.groups[tv.home[j]];
    forall w | w in tv.groups && j in tv.groups[w] ensures w == j && j !in tv.live {
      assert GroupOk(tv, w);
      if w in tv.live {
        LiveIsPlain(tv, offset, w, j);
        assert false;
      }
    }
    assert tv.home[j] == j && GroupOk(tv, j);
  }

  /** In any run, of the packets of an item all but the last have the flags ACK, and the last has PSH if and only if the
      item says so. */
  lemma FlagsInGroup(views: seq<View>, tv: View, offset: nat, start: seq<Buf>, w: nat)
    requires History(views, tv, offset, start) && w in tv.live
    ensures w in tv.groups && tv.groups[w] != []
    ensures var g, isV6 := tv.groups[w], tv.live[w].key.isV6;
            && (forall k :: 0 <= k < |g| ==> g[k] < |tv.orig|)
            && (forall k :: 0 <= k < |g| - 1 ==> Flags(tv.orig[g[k]], isV6) == ACK)
            && Flags(tv.orig[g[|g| - 1]], isV6) == if tv.live[w].pshSet then PSH_ACK else ACK
  {
    hide Inv, IsRun, Contents, Alike, ParseTcp, IsTcpCandidate, Flags, Sound;
    assert Inv(tv, offset);
    LiveItem(tv, offset, w);
    var g, item := tv.groups[w], tv.live[w];
    FirstMember(tv.orig, g, item);
    forall k | 0 <= k < |g| ensures g[k] < |tv.orig| && (k < |g| - 1 ==> Flags(tv.orig[g[k]], item.key.isV6) == ACK) {
      assert Member(tv.orig, item, g[k]);
      assert k < |g| - 1 ==> FlagsOf(tv.orig, item, g[k]) == ACK;
    }
  }

  /** After handleGRO, every packet that is not plain data is written by itself, as it came: other protocols, fragments,
      wrong lengths, no data, other flags than ACK and PSH. */
  lemma LeftAlone(h: Handler, j: nat)
    requires h.Finished() && j < |h.start| && !PlainTcp(h.start[j].pkt, false) && !PlainTcp(h.start[j].pkt, true)
    requires h.canUdpGro ==> !PlainUdp(h.start[j].pkt, false) && !PlainUdp(h.start[j].pkt, true)
    ensures j in h.toWrite && j < |h.vector.bufs| && h.vector.bufs[j].pkt == h.start[j].pkt
    ensures JointGroup(h.tcp.view, h.udp.view, h.canUdpGro, j) == [j]
  {
    hide Ready, Inv, O.Inv, R.RunOf, PlainTcp, PlainUdp, P.Udp, JointGroup, Pick, U.AllItems, UdpMerged, IsRun;
    var tv, uv := h.tcp.view, h.udp.view;
    JointOrig(tv, uv, h.canUdpGro, h.offset, h.start);
    OthersAlone(h.views, tv, h.offset, h.start, j);
    M.PlainUdpIff(h.start[j].pkt);
    NotTracked(tv, uv, h.canUdpGro, h.offset, h.start, j);
    if h.canUdpGro {
      R.PassedHome(h.start, h.offset, tv.n, j);
    }
    PickIn(tv.n, Both(tv, uv, h.canUdpGro), j);
    UnmergedIsUntouched(tv, uv, h.canUdpGro, h.offset, h.start, h.views, h.toWrite, h.vector.bufs, h.vector.vhdrs, j);
  }

  /** The virtio header of a merged packet describes what is written: the version is the packet's, the checksum field and
      the data are where the packet has them, and the size is that of its first packet. */
  lemma HeaderDescribes(orig: seq<Bytes>, pkt: Bytes, g: seq<nat>, item: Item, out: Bytes)
    requires Tracks(orig, pkt, g, item) && IsAccounted(pkt, item, out)
    ensures g != [] && g[0] < |orig| && ItemShape(item)
    ensures var hdr, isV6 := HdrOf(item), item.key.isV6;
            && DataAt(isV6) + 20 <= |out| && out[0] / 16 == (if isV6 then 6 else 4)
            && hdr.gsoType == (if out[0] / 16 == 6 then TcpV6 else TcpV4)
            && hdr.csumStart as int == DataAt(isV6) && hdr.csumOffset == 16 && hdr.hdrLen as int == DataAt(isV6) + TcpLen(out, isV6)
            && hdr.gsoSize as int == DataLen(orig[g[0]], isV6)
  {
    hide Pieces, Alike, GroupFlags, Payloads, ChecksumValue, PseudoSum;
    ItemReads(orig, pkt, g, item);
    var head, t := orig[g[0]], item.iphLen;
    assert Untouched(item, 0) && Untouched(item, t + 12);
    assert out[0] == pkt[0] == head[0] && out[t + 12] == pkt[t + 12] == head[t + 12];
  }
}
