/** Which datagrams are merged, told by the input packets alone (wireguard/tun/offload_linux.go:279-332, 414-438,
    786-858). */
module UdpMerging {
  import opened Arith
  import opened InternetChecksum
  import opened Options
  import opened Gso
  import opened GroPackets
  import opened GroGroups
  import opened PacketFields
  import opened UdpPackets
  import O = UdpOrder
  import S = UdpGso
  import R = UdpRuns

  /** Addresses and ports. */
  function UdpFlow(b: Bytes, isV6: bool): UdpKey
    requires DataAt(isV6) + 8 <= |b|
  {
    if isV6 then UdpKey(b[8..24], b[24..40], Be16(b, 40), Be16(b, 42), true)
    else UdpKey(b[12..16], b[16..20], Be16(b, 20), Be16(b, 22), false)
  }

  /** udpGRO tracks exactly the whole datagrams with data, and reads from them what is there. */
  lemma PlainUdpIff(b: Bytes)
    ensures Udp(b).Some? <==> PlainUdp(b, false) || PlainUdp(b, true)
    ensures forall isV6: bool :: PlainUdp(b, isV6) ==> Udp(b) == Some(UdpMeta(DataAt(isV6), UdpDataLen(b, isV6), UdpFlow(b, isV6)))
  {
    hide Be16;
    if |b| > 0 {
      VersionAndLength(b[0]);
    }
    if |b| >= 8 {
      NoFragment(b);
    }
  }

  /** Datagrams `g` and datagram `j` are whole and have data. */
  predicate AllPlain(orig: seq<Bytes>, g: seq<nat>, j: nat, isV6: bool) {
    && g != [] && j < |orig| && PlainUdp(orig[j], isV6)
    && forall k {:trigger g[k]} :: 0 <= k < |g| ==> g[k] < |orig| && PlainUdp(orig[g[k]], isV6)
  }

  /** Datagram `j` may stand behind the datagrams `g`: they are all of one size, and `j` is not larger. */
  predicate Follows(orig: seq<Bytes>, g: seq<nat>, j: nat, isV6: bool)
    requires AllPlain(orig, g, j, isV6)
  {
    var head, last, b := orig[g[0]], orig[g[|g| - 1]], orig[j];
    && UdpFlow(head, isV6) == UdpFlow(b, isV6) && SameIpFields(head, b, isV6)
    && UdpDataLen(last, isV6) == UdpDataLen(head, isV6) && UdpDataLen(b, isV6) <= UdpDataLen(head, isV6)
  }

  lemma MemberPlain(orig: seq<Bytes>, item: UdpItem, j: nat)
    requires UdpMember(orig, item, j)
    ensures PlainUdp(orig[j], item.key.isV6) && UdpFlow(orig[j], item.key.isV6) == item.key
    ensures Udp(orig[j]).value.gsoSize as int == UdpDataLen(orig[j], item.key.isV6)
  {
    hide Udp, PlainUdp;
    PlainUdpIff(orig[j]);
    FlowVersion(orig[j]);
  }

  lemma FlowVersion(b: Bytes)
    ensures forall isV6: bool :: PlainUdp(b, isV6) ==> UdpFlow(b, isV6).isV6 == isV6
  {
  }

  lemma MembersPlain(orig: seq<Bytes>, pkt: Bytes, g: seq<nat>, item: UdpItem, j: nat)
    requires UdpTracks(orig, pkt, g, item) && UdpMember(orig, item, j)
    ensures AllPlain(orig, g, j, item.key.isV6)
  {
    hide Udp, PlainUdp, UdpContents, Intact;
    MemberPlain(orig, item, j);
    forall k {:trigger g[k]} | 0 <= k < |g| ensures g[k] < |orig| && PlainUdp(orig[g[k]], item.key.isV6) {
      assert UdpPieceOk(orig, item, g, k);
      MemberPlain(orig, item, g[k]);
    }
  }

  /** Item and buffer, told by the datagrams. */
  lemma ItemReads(orig: seq<Bytes>, pkt: Bytes, g: seq<nat>, item: UdpItem)
    requires UdpTracks(orig, pkt, g, item)
    ensures var isV6 := item.key.isV6;
            && g != [] && g[0] < |orig| && g[|g| - 1] < |orig| && PlainUdp(orig[g[0]], isV6) && PlainUdp(orig[g[|g| - 1]], isV6)
            && item.key == UdpFlow(orig[g[0]], isV6) && item.iphLen == DataAt(isV6) && item.gsoSize as int == UdpDataLen(orig[g[0]], isV6) > 0
            && UdpHeadersLen(item) <= |pkt| && |Payload(pkt, UdpHeadersLen(item))| == item.numMerged as int * item.gsoSize as int + UdpDataLen(orig[g[|g| - 1]], isV6)
            && 1 <= UdpDataLen(orig[g[|g| - 1]], isV6) <= item.gsoSize as int && |g| == item.numMerged as int + 1
  {
    hide Udp, PlainUdp, Intact, Payloads, UdpContents, IpHeadersCanCoalesce;
    UdpLength(orig, pkt, g, item);
    UdpHead(orig, pkt, g, item);
    PayloadIsSuffix(pkt, UdpHeadersLen(item));
    assert UdpPieceOk(orig, item, g, 0) && UdpPieceOk(orig, item, g, |g| - 1);
    MemberPlain(orig, item, g[0]);
    MemberPlain(orig, item, g[|g| - 1]);
  }

  lemma SizeTest(n: nat, size: nat, tail: nat)
    requires 1 <= tail <= size
    ensures (n * size + tail) % size == 0 <==> tail == size
  {
    if (n * size + tail) % size == 0 {
      MultipleOf(n, size, tail);
    }
    if tail == size {
      assert n * size + size == (n + 1) * size;
      ModMultiple(n + 1, size);
    }
  }

  /** udpPacketsCanCoalesce says whether datagram `j` may stand behind those in the buffer. */
  lemma CanAppendMeans(orig: seq<Bytes>, pkt: Bytes, g: seq<nat>, item: UdpItem, j: nat)
    requires UdpTracks(orig, pkt, g, item) && UdpMember(orig, item, j) && item.gsoSize > 0
    ensures AllPlain(orig, g, j, item.key.isV6)
    ensures CanAppend(orig[j], Udp(orig[j]).value, item, pkt) <==> Follows(orig, g, j, item.key.isV6)
  {
    hide Udp, UdpTracks, IpHeadersCanCoalesce, SameIpFields, UdpFlow, Payload;
    MembersPlain(orig, pkt, g, item, j);
    ItemReads(orig, pkt, g, item);
    MemberPlain(orig, item, j);
    UdpHead(orig, pkt, g, item);
    SameFirstBytes(orig[j], pkt, orig[g[0]], UdpHeadersLen(item));
    ComparesIp(orig[j], orig[g[0]], item.key.isV6, 17);
    SizeTest(item.numMerged as int, item.gsoSize as int, UdpDataLen(orig[g[|g| - 1]], item.key.isV6));
    PlainUdpIff(orig[j]);
  }

  /** The UDP checksum of the packet is right. */
  ghost predicate ChecksumRight(b: Bytes, isV6: bool) {
    DataAt(isV6) <= |b| <= 0xFFFF && HasValidChecksum(b, DataAt(isV6), 17, isV6)
  }

  /** All checksums are right, and the buffer of the first datagram has room. */
  ghost predicate MayJoin(orig: seq<Bytes>, g: seq<nat>, j: nat, isV6: bool, room: int)
    requires AllPlain(orig, g, j, isV6)
  {
    && DataAt(isV6) + 8 + |Payloads(orig, g, DataAt(isV6) + 8)| + UdpDataLen(orig[j], isV6) <= room
    && ChecksumRight(orig[j], isV6) && forall k {:trigger g[k]} :: 0 <= k < |g| ==> ChecksumRight(orig[g[k]], isV6)
  }

  lemma IntactIs(b: Bytes, isV6: bool)
    ensures Intact(b, isV6) <==> ChecksumRight(b, isV6)
  {
  }

  lemma MergedRight(orig: seq<Bytes>, pkt: Bytes, g: seq<nat>, item: UdpItem)
    requires UdpTracks(orig, pkt, g, item)
    ensures item.numMerged > 0 ==> forall k {:trigger g[k]} :: 0 <= k < |g| ==> g[k] < |orig| && ChecksumRight(orig[g[k]], item.key.isV6)
    ensures item.numMerged == 0 ==> |g| == 1 && g[0] < |orig| && pkt == orig[g[0]] && (item.cSumKnownInvalid ==> !ChecksumRight(orig[g[0]], item.key.isV6))
  {
    hide Udp, UdpContents, ChecksumRight, Intact, IpHeadersCanCoalesce;
    if item.numMerged > 0 {
      forall k {:trigger g[k]} | 0 <= k < |g| ensures g[k] < |orig| && ChecksumRight(orig[g[k]], item.key.isV6) {
        assert UdpPieceOk(orig, item, g, k);
        IntactIs(orig[g[k]], item.key.isV6);
      }
    } else {
      UdpSingle(orig, pkt, g, item);
      IntactIs(orig[g[0]], item.key.isV6);
    }
  }

  /** coalesceUDPPackets succeeds exactly then. */
  lemma OutcomeMeans(orig: seq<Bytes>, head: Buf, g: seq<nat>, item: UdpItem, j: nat, offset: nat)
    requires UdpTracks(orig, head.pkt, g, item) && UdpMember(orig, item, j)
    ensures AllPlain(orig, g, j, item.key.isV6)
    ensures Outcome(head, orig[j], item, offset) == CoalesceSuccess <==> MayJoin(orig, g, j, item.key.isV6, head.cap - 2 * offset)
  {
    hide Udp, UdpTracks, Intact, ChecksumRight, Payloads, AllPlain;
    MembersPlain(orig, head.pkt, g, item, j);
    ItemReads(orig, head.pkt, g, item);
    MemberPlain(orig, item, j);
    UdpHead(orig, head.pkt, g, item);
    PayloadIsSuffix(head.pkt, UdpHeadersLen(item));
    MergedRight(orig, head.pkt, g, item);
    IntactIs(orig[j], item.key.isV6);
    IntactIs(head.pkt, item.key.isV6);
  }

  // ---------- one packet, and whole runs ----------

  /** Packet `v.n` of the flow `key` joins the last item of that flow. */
  ghost predicate Joins(v: UdpView, offset: nat, key: UdpKey) {
    && key in v.table && v.table[key] != []
    && var w := v.table[key][|v.table[key]| - 1].bufsIndex;
       && w < |v.bufs| && w in v.groups && AllPlain(v.orig, v.groups[w], v.n, key.isV6)
       && Follows(v.orig, v.groups[w], v.n, key.isV6) && MayJoin(v.orig, v.groups[w], v.n, key.isV6, v.bufs[w].cap - 2 * offset)
  }

  /** What becomes of a packet: a datagram joins the last item of its flow if it may, and is the new last item of its flow if
      not; any other packet is passed on. */
  ghost predicate Goes(v: UdpView, v': UdpView, offset: nat)
    requires v.n < |v.orig|
  {
    var b := v.orig[v.n];
    && (!PlainUdp(b, false) && !PlainUdp(b, true) ==> v'.groups == v.groups[v.n := [v.n]] && v'.table == v.table)
    && forall isV6: bool :: PlainUdp(b, isV6) ==> Tracked(v, v', offset, UdpFlow(b, isV6))
  }

  /** A datagram of the flow `key` has joined the last item of the flow, or has become it. */
  ghost predicate Tracked(v: UdpView, v': UdpView, offset: nat, key: UdpKey) {
    if Joins(v, offset, key) then
      var w := v.table[key][|v.table[key]| - 1].bufsIndex;
      v'.groups == v.groups[w := v.groups[w] + [v.n]] && IsLast(v'.table, key, w)
    else v'.groups == v.groups[v.n := [v.n]] && IsLast(v'.table, key, v.n)
  }

  /** The last item of the flow is in buffer `w`. */
  ghost predicate IsLast(table: UdpTable, key: UdpKey, w: nat) {
    key in table && table[key] != [] && table[key][|table[key]| - 1].bufsIndex == w
  }

  lemma JoinsIff(v: UdpView, offset: nat, m: UdpMeta)
    requires O.Inv(v, offset) && v.n < |v.orig| && Udp(v.orig[v.n]) == Some(m) && m.key in v.table
    ensures v.table[m.key] != []
    ensures var item := v.table[m.key][|v.table[m.key]| - 1];
            && item.bufsIndex < |v.bufs| && item.gsoSize > 0
            && (Joins(v, offset, m.key) <==>
                  && CanAppend(v.orig[v.n], m, item, v.bufs[item.bufsIndex].pkt)
                  && Outcome(v.bufs[item.bufsIndex], v.orig[v.n], item, offset) == CoalesceSuccess)
  {
    hide O.Inv, Udp, CanAppend, Outcome, UdpTracks, Follows, MayJoin, AllPlain;
    O.Last(v, offset, m.key);
    var item := v.table[m.key][|v.table[m.key]| - 1];
    CanAppendMeans(v.orig, v.bufs[item.bufsIndex].pkt, v.groups[item.bufsIndex], item, v.n);
    OutcomeMeans(v.orig, v.bufs[item.bufsIndex], v.groups[item.bufsIndex], item, v.n, offset);
  }

  lemma NextGoes(v: UdpView, offset: nat)
    requires O.Inv(v, offset) && v.n < |v.orig|
    ensures Goes(v, O.Next(v, offset), offset)
  {
    hide O.Inv, Udp, CanAppend, Outcome, O.Next, Joins, PlainUdp;
    PlainUdpIff(v.orig[v.n]);
    if Udp(v.orig[v.n]).None? {
      R.NextWrites(v, offset);
    } else {
      var m := Udp(v.orig[v.n]).value;
      R.NextIs(v, offset);
      if m.key in v.table {
        JoinsIff(v, offset, m);
      } else {
        NothingToJoin(v, offset, m.key);
      }
    }
  }

  lemma NothingToJoin(v: UdpView, offset: nat, key: UdpKey)
    requires key !in v.table
    ensures !Joins(v, offset, key)
  {
  }

  /** In any run, every packet goes where the packets before it ask it to. */
  lemma RunGoes(bufs: seq<Buf>, offset: nat, n: nat)
    requires R.CapsOk(bufs, offset) && n < |bufs|
    ensures Goes(R.RunOf(bufs, offset, n), R.RunOf(bufs, offset, n + 1), offset)
  {
    hide O.Inv, R.RunOf, Goes, O.Next;
    R.RunOfStep(bufs, offset, n);
    NextGoes(R.RunOf(bufs, offset, n), offset);
  }

  /** The virtio header of merged datagrams describes what is written. */
  lemma HeaderDescribes(orig: seq<Bytes>, pkt: Bytes, g: seq<nat>, item: UdpItem, out: Bytes)
    requires UdpTracks(orig, pkt, g, item) && S.IsUdpAccounted(pkt, item, out)
    ensures g != [] && g[0] < |orig| && UdpItemShape(item)
    ensures var hdr, isV6 := S.UdpHdrOf(item), item.key.isV6;
            && |out| > 0 && out[0] / 16 == (if isV6 then 6 else 4) && hdr.gsoType == UdpL4
            && hdr.csumStart as int == DataAt(isV6) && hdr.csumOffset == 6 && hdr.hdrLen as int == DataAt(isV6) + 8
            && hdr.gsoSize as int == UdpDataLen(orig[g[0]], isV6)
  {
    hide UdpTracks, ChecksumValue, PseudoSum, Payload;
    ItemReads(orig, pkt, g, item);
    UdpHead(orig, pkt, g, item);
    assert pkt[0] == pkt[..UdpHeadersLen(item)][0] == orig[g[0]][0] && S.UdpUntouched(item, 0);
    assert out[0] == pkt[0];
  }
}
