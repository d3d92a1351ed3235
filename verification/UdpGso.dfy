/** The headers of merged UDP packets, and what segmentation gives back of the datagrams in them
    (wireguard/tun/offload_linux.go:681-741, 901-983). */
module UdpGso {
  import opened InternetChecksum
  import opened Options
  import opened Gso
  import opened GroPackets
  import opened GroGroups
  import opened UdpPackets
  import G = GroGso
  import H = GroHeaders

  /** The virtio header applyUDPCoalesceAccounting writes in front of a merged packet. */
  function UdpHdrOf(item: UdpItem): VirtioNetHdr
    requires item.iphLen <= 40
  {
    VirtioNetHdr(UdpL4, item.iphLen + UDPH_LEN, item.gsoSize, item.iphLen, 6)
  }

  /** A header byte that the accounting leaves alone. */
  predicate UdpUntouched(item: UdpItem, k: nat) {
    && (if item.key.isV6 then !(4 <= k < 6) else !(2 <= k < 4) && !(10 <= k < 12))
    && !(item.iphLen + 4 <= k < item.iphLen + 8)
  }

  /** `out` is the merged packet with its lengths and checksums brought up to date. */
  ghost predicate IsUdpAccounted(pkt: Bytes, item: UdpItem, out: Bytes) {
    && UdpItemShape(item) && UdpHeadersLen(item) < |pkt| == |out| <= 0xFFFF
    && (forall k: nat {:trigger out[k]} :: k < |pkt| && UdpUntouched(item, k) ==> out[k] == pkt[k])
    && (if item.key.isV6 then Be16(out, 4) as int == |out| - item.iphLen
        else Be16(out, 2) as int == |out| && ChecksumValue(out[..item.iphLen], 0) == 0xFFFF)
    && Be16(out, item.iphLen + 4) as int == |out| - item.iphLen
    && Be16(out, item.iphLen + 6)
       == ChecksumValue([], PseudoSum(IPPROTO_UDP, SrcAddr(out, item.key.isV6), DstAddr(out, item.key.isV6), |out| - item.iphLen))
  }

  /** The body of the loop of applyUDPCoalesceAccounting for a merged item. */
  method AccountUdp(pkt: Bytes, item: UdpItem) returns (out: Bytes)
    requires UdpItemShape(item) && UdpHeadersLen(item) < |pkt| <= 0xFFFF
    ensures IsUdpAccounted(pkt, item, out)
  {
    hide ChecksumValue, PseudoSum, Put16;
    var at, isV6 := item.iphLen, item.key.isV6;
    var ip := G.AccountIp(pkt, isV6, at);
    out := Put16(ip, at + 4, |ip| - at);
    var src, dst := SrcAddr(out, isV6), DstAddr(out, isV6);
    PseudoBound(IPPROTO_UDP, src, dst, |out| - at);
    var psum := PseudoHeaderChecksumNoFold(IPPROTO_UDP, src, dst, |out| - at);
    var partial := Checksum([], psum);
    ghost var before := out;
    out := Put16(out, at + 6, partial);
    assert out[..at] == ip[..at];
    assert SrcAddr(out, isV6) == src && DstAddr(out, isV6) == dst;
    assert Be16(out, at + 4) == Be16(before, at + 4);
  }

  // ---------- the payloads ----------

  lemma UdpAccountedFacts(pkt: Bytes, item: UdpItem, out: Bytes)
    requires IsUdpAccounted(pkt, item, out)
    ensures UdpItemShape(item) && UdpHeadersLen(item) < |pkt| == |out| <= 0xFFFF
    ensures Splittable(out, UdpHdrOf(item), item.key.isV6) && out[UdpHeadersLen(item)..] == pkt[UdpHeadersLen(item)..]
  {
    hide ChecksumValue, PseudoSum;
  }

  lemma CountOf(pkt: Bytes, hdr: VirtioNetHdr, n: nat, rest: nat)
    requires |pkt| == hdr.hdrLen as int + n * hdr.gsoSize as int + rest && 1 <= rest <= hdr.gsoSize as int
    ensures SegmentCount(pkt, hdr, n + 1)
  {
    OneMore(n, hdr.gsoSize as int);
  }

  lemma UdpCount(orig: seq<Bytes>, pkt: Bytes, g: seq<nat>, item: UdpItem)
    requires UdpTracks(orig, pkt, g, item)
    ensures UdpItemShape(item) && SegmentCount(pkt, UdpHdrOf(item), |g|)
  {
    hide UdpTracks, UdpPieces, Payload;
    TrackedShape(orig, pkt, g, item);
    UdpLength(orig, pkt, g, item);
    UdpPieceSize(orig, g, item, |g| - 1);
    CountOf(pkt, UdpHdrOf(item), item.numMerged as int, |Payload(orig[g[|g| - 1]], UdpHeadersLen(item))|);
  }

  lemma UdpFull(orig: seq<Bytes>, pkt: Bytes, g: seq<nat>, item: UdpItem)
    requires UdpTracks(orig, pkt, g, item)
    ensures G.Full(orig, g, UdpHeadersLen(item), item.gsoSize as int)
  {
    hide UdpTracks, UdpPieces, Payload;
    TrackedShape(orig, pkt, g, item);
    forall k | 0 <= k < |g| ensures g[k] < |orig| && |Payload(orig[g[k]], UdpHeadersLen(item))| <= item.gsoSize as int
      ensures k < |g| - 1 ==> |Payload(orig[g[k]], UdpHeadersLen(item))| == item.gsoSize as int
    {
      UdpPieceSize(orig, g, item, k);
    }
  }

  /** Segment `k` of a merged packet carries the payload of the `k`-th merged datagram. */
  lemma UdpData(orig: seq<Bytes>, pkt: Bytes, g: seq<nat>, item: UdpItem, k: nat)
    requires UdpTracks(orig, pkt, g, item) && k < |g|
    ensures UdpItemShape(item) && SegmentStart(UdpHdrOf(item), k) <= |pkt| && g[k] < |orig|
    ensures SegmentData(pkt, UdpHdrOf(item), k) == Payload(orig[g[k]], UdpHeadersLen(item))
  {
    hide UdpTracks, UdpPieces, Payload, G.ChunkStart, Payloads, G.Full;
    var hl, full := UdpHeadersLen(item), item.gsoSize as int;
    TrackedShape(orig, pkt, g, item);
    UdpHead(orig, pkt, g, item);
    UdpPieceSize(orig, g, item, k);
    UdpFull(orig, pkt, g, item);
    G.PayloadChunk(orig, g, hl, full, k);
    G.ChunkStartIsMultiple(full, k);
    PayloadIsSuffix(pkt, hl);
    var all, lo := Payloads(orig, g, hl), G.ChunkStart(full, k);
    G.SliceShift(pkt, hl, all, lo, Min(lo + full, |all|));
  }

  /** Segment `k` of the written form `out` of the merged packet `pkt`. */
  ghost predicate IsUdpSegmentOf(pkt: Bytes, item: UdpItem, out: Bytes, k: nat, seg: Bytes) {
    && IsUdpAccounted(pkt, item, out) && Splittable(out, UdpHdrOf(item), item.key.isV6)
    && SegmentStart(UdpHdrOf(item), k) <= |out| && IsSegment(out, UdpHdrOf(item), item.key.isV6, k, seg)
  }

  lemma SegmentPayload(pkt: Bytes, item: UdpItem, out: Bytes, k: nat, seg: Bytes)
    requires IsUdpSegmentOf(pkt, item, out, k, seg)
    ensures UdpItemShape(item) && SegmentStart(UdpHdrOf(item), k) <= |pkt|
    ensures |seg| == UdpHeadersLen(item) + |SegmentData(pkt, UdpHdrOf(item), k)| <= 0xFFFF
    ensures seg[UdpHeadersLen(item)..] == SegmentData(pkt, UdpHdrOf(item), k)
  {
    hide IsUdpAccounted, HasValidChecksum, IpHeaderOk, TransportOk, CopiedHeaderByte, Offset;
    UdpAccountedFacts(pkt, item, out);
    var lo := SegmentStart(UdpHdrOf(item), k);
    G.SliceOfSuffix(out, pkt, UdpHeadersLen(item), lo, Min(lo + item.gsoSize as int, |pkt|));
  }

  /** Segmenting a merged packet gives back every datagram's length and payload, in order. */
  lemma UdpGsoUndoesGro(orig: seq<Bytes>, pkt: Bytes, g: seq<nat>, item: UdpItem, out: Bytes, k: nat, seg: Bytes)
    requires UdpTracks(orig, pkt, g, item) && IsUdpSegmentOf(pkt, item, out, k, seg) && k < |g|
    ensures UdpItemShape(item) && SegmentCount(out, UdpHdrOf(item), |g|)
    ensures g[k] < |orig| && |seg| == |orig[g[k]]| >= UdpHeadersLen(item)
    ensures seg[UdpHeadersLen(item)..] == orig[g[k]][UdpHeadersLen(item)..]
  {
    hide UdpTracks, UdpPieces, IsSegment, IsUdpAccounted, SegmentData, Payload, SegmentStart;
    SegmentPayload(pkt, item, out, k, seg);
    UdpAccountedFacts(pkt, item, out);
    TrackedShape(orig, pkt, g, item);
    UdpCount(orig, pkt, g, item);
    UdpData(orig, pkt, g, item, k);
    LongEnough(orig, g, item, k);
    PayloadIsSuffix(orig[g[k]], UdpHeadersLen(item));
  }

  lemma LongEnough(orig: seq<Bytes>, g: seq<nat>, item: UdpItem, k: nat)
    requires UdpPieces(orig, g, item) && k < |g|
    ensures g[k] < |orig| && UdpHeadersLen(item) < |orig[g[k]]| <= 0xFFFF
  {
    hide Udp, Intact;
    assert UdpPieceOk(orig, item, g, k);
  }

  // ---------- the headers ----------

  /** A header byte that every datagram gets back: all but the IPv4 identification and header checksum, the IPv6
      flow label, and the length and checksum of the UDP header. */
  predicate UdpRestoredByte(item: UdpItem, i: nat) {
    && i < item.iphLen + 4
    && (i < item.iphLen ==> if item.key.isV6 then i == 0 || i >= 4 else !(4 <= i < 6) && !(10 <= i < 12))
  }

  /** A header byte that a segment takes from the merged packet, hence from the first of its datagrams. */
  predicate UdpInheritedByte(item: UdpItem, i: nat) {
    && i < item.iphLen + 4
    && (i < item.iphLen ==> if item.key.isV6 then !(4 <= i < 6) else !(2 <= i < 6) && !(10 <= i < 12))
  }

  lemma UdpInherits(orig: seq<Bytes>, pkt: Bytes, g: seq<nat>, item: UdpItem, out: Bytes, k: nat, seg: Bytes, i: nat)
    requires UdpTracks(orig, pkt, g, item) && IsUdpSegmentOf(pkt, item, out, k, seg) && UdpInheritedByte(item, i)
    ensures g != [] && g[0] < |orig| && i < |seg| && i < |orig[g[0]]| && seg[i] == orig[g[0]][i]
  {
    hide UdpTracks, HasValidChecksum, IpHeaderOk, TransportOk, ChecksumValue, PseudoSum, SegmentData, SegmentStart, Payloads, Payload;
    assert CopiedHeaderByte(UdpHdrOf(item), item.key.isV6, i);
    assert UdpUntouched(item, i);
    UdpHead(orig, pkt, g, item);
    var hl := UdpHeadersLen(item);
    assert pkt[i] == pkt[..hl][i] && orig[g[0]][i] == orig[g[0]][..hl][i];
  }

  /** Two datagrams of one flow whose IP headers may be merged agree on the inherited bytes that come back. */
  lemma FlowBytes(x: Bytes, y: Bytes, item: UdpItem, i: nat)
    requires UdpItemShape(item) && Udp(x).Some? && Udp(y).Some? && Udp(x).value.key == item.key && Udp(y).value.key == item.key
    requires IpHeadersCanCoalesce(y, x) && UdpRestoredByte(item, i) && UdpInheritedByte(item, i)
    ensures i < |x| && i < |y| && x[i] == y[i]
  {
    hide Be16;
    var t, isV6 := item.iphLen, item.key.isV6;
    if i >= t {
      H.SameWord(x, y, t);
      H.SameWord(x, y, t + 2);
    } else if i >= SrcAddrAt(isV6) {
      H.AddressByte(x, y, isV6, i);
    }
  }

  /** The IP length field of a datagram. */
  lemma LengthField(b: Bytes)
    requires Udp(b).Some?
    ensures |b| >= 28 && if Udp(b).value.key.isV6 then Be16(b, 4) as int == |b| - 40 else Be16(b, 2) as int == |b|
  {
  }

  lemma SegmentIp(pkt: Bytes, item: UdpItem, out: Bytes, k: nat, seg: Bytes)
    requires IsUdpSegmentOf(pkt, item, out, k, seg)
    ensures UdpItemShape(item) && UdpHeadersLen(item) <= |seg| <= 0xFFFF
    ensures if item.key.isV6 then Be16(seg, 4) as int == |seg| - 40
            else
              && Be16(seg, 2) as int == |seg| && Be16(seg, 4) as int == (Be16(pkt, 4) as int + k) % 0x1_0000
              && ChecksumValue(seg[..20], 0) == 0xFFFF && Be16(seg, 10) != 0xFFFF
    ensures Be16(seg, item.iphLen + 4) as int == |seg| - item.iphLen
    ensures HasValidChecksum(seg, item.iphLen, IPPROTO_UDP, item.key.isV6) && Be16(seg, item.iphLen + 6) != 0xFFFF
  {
    hide HasValidChecksum, ChecksumValue, PseudoSum, SegmentData, SegmentStart, CopiedHeaderByte;
    if !item.key.isV6 {
      assert UdpUntouched(item, 4) && UdpUntouched(item, 5);
      assert out[4] == pkt[4] && out[5] == pkt[5];
    }
  }

  lemma UdpRestoreByte(orig: seq<Bytes>, pkt: Bytes, g: seq<nat>, item: UdpItem, out: Bytes, k: nat, seg: Bytes, i: nat)
    requires UdpTracks(orig, pkt, g, item) && IsUdpSegmentOf(pkt, item, out, k, seg) && k < |g| && UdpRestoredByte(item, i)
    ensures g[k] < |orig| && i < |seg| && i < |orig[g[k]]| && seg[i] == orig[g[k]][i]
  {
    hide UdpTracks, IsUdpSegmentOf, Udp, UdpPieces, IpHeadersCanCoalesce, Be16, HasValidChecksum, ChecksumValue;
    UdpGsoUndoesGro(orig, pkt, g, item, out, k, seg);
    MemberFacts(orig, pkt, g, item, k);
    var b := orig[g[k]];
    if UdpInheritedByte(item, i) {
      UdpInherits(orig, pkt, g, item, out, k, seg, i);
      if k > 0 {
        FlowBytes(orig[g[0]], b, item, i);
      }
    } else {
      SegmentIp(pkt, item, out, k, seg);
      LengthField(b);
      H.SameWord(seg, b, 4);
      H.SameWord(seg, b, 2);
    }
  }

  lemma MemberFacts(orig: seq<Bytes>, pkt: Bytes, g: seq<nat>, item: UdpItem, k: nat)
    requires UdpTracks(orig, pkt, g, item) && k < |g|
    ensures UdpItemShape(item) && g[0] < |orig| && g[k] < |orig|
    ensures Udp(orig[g[0]]).Some? && Udp(orig[g[0]]).value.key == item.key && Udp(orig[g[k]]).Some? && Udp(orig[g[k]]).value.key == item.key
    ensures k > 0 ==> IpHeadersCanCoalesce(orig[g[k]], orig[g[0]])
    ensures item.numMerged > 0 ==> Intact(orig[g[k]], item.key.isV6)
    ensures item.iphLen + UDPH_LEN < |orig[g[k]]| <= 0xFFFF
  {
    hide Udp, Intact, IpHeadersCanCoalesce, UdpContents;
    assert UdpPieceOk(orig, item, g, 0) && UdpPieceOk(orig, item, g, k);
    LongEnough(orig, g, item, k);
  }

  // ---------- when a datagram comes back byte by byte ----------

  /** What the first datagram `head` and the `k`-th, `b`, must have in common: the fields of the head that replace its
      own, an identification that counts up, a right UDP length and IPv4 header checksum, and checksum fields
      in the form the segmentation writes. */
  ghost predicate KeepsUdp(head: Bytes, item: UdpItem, b: Bytes, k: nat)
    requires UdpItemShape(item) && UdpHeadersLen(item) <= |head| && UdpHeadersLen(item) <= |b|
  {
    var t := item.iphLen;
    && Be16(b, t + 4) as int == |b| - t && Be16(b, t + 6) != 0xFFFF
    && if item.key.isV6 then head[1] == b[1] && head[2] == b[2] && head[3] == b[3]
       else
         && Be16(b, 4) as int == (Be16(head, 4) as int + k) % 0x1_0000
         && ChecksumValue(b[..t], 0) == 0xFFFF && Be16(b, 10) != 0xFFFF
  }

  lemma HeadId(orig: seq<Bytes>, pkt: Bytes, g: seq<nat>, item: UdpItem)
    requires UdpTracks(orig, pkt, g, item)
    ensures g != [] && g[0] < |orig| && 28 <= |pkt| && 28 <= |orig[g[0]]| && Be16(pkt, 4) == Be16(orig[g[0]], 4)
  {
    hide UdpTracks, Payloads, Payload, UdpPieces;
    UdpHead(orig, pkt, g, item);
    TrackedShape(orig, pkt, g, item);
    var hl := UdpHeadersLen(item);
    assert pkt[4] == pkt[..hl][4] && pkt[5] == pkt[..hl][5] && orig[g[0]][4] == orig[g[0]][..hl][4] && orig[g[0]][5] == orig[g[0]][..hl][5];
  }

  lemma IdenticalUdp(orig: seq<Bytes>, pkt: Bytes, g: seq<nat>, item: UdpItem, out: Bytes, k: nat)
    requires UdpTracks(orig, pkt, g, item) && k < |g| && g[k] < |orig| && IsUdpSegmentOf(pkt, item, out, k, orig[g[k]])
    ensures UdpItemShape(item) && g[0] < |orig| && UdpHeadersLen(item) <= |orig[g[0]]| && UdpHeadersLen(item) <= |orig[g[k]]|
    ensures KeepsUdp(orig[g[0]], item, orig[g[k]], k)
  {
    hide UdpTracks, IsUdpSegmentOf, Udp, HasValidChecksum, ChecksumValue, IpHeadersCanCoalesce, Be16, Intact;
    MemberFacts(orig, pkt, g, item, 0);
    MemberFacts(orig, pkt, g, item, k);
    SegmentIp(pkt, item, out, k, orig[g[k]]);
    HeadId(orig, pkt, g, item);
    if item.key.isV6 {
      UdpInherits(orig, pkt, g, item, out, k, orig[g[k]], 1);
      UdpInherits(orig, pkt, g, item, out, k, orig[g[k]], 2);
      UdpInherits(orig, pkt, g, item, out, k, orig[g[k]], 3);
    }
  }

  /** A byte other than those of the checksums. */
  predicate UdpPlainByte(item: UdpItem, i: nat) {
    !(item.iphLen + 6 <= i < item.iphLen + 8) && (item.key.isV6 || !(10 <= i < 12))
  }

  lemma KeepsUdpByte(orig: seq<Bytes>, pkt: Bytes, g: seq<nat>, item: UdpItem, out: Bytes, k: nat, seg: Bytes, i: nat)
    requires UdpTracks(orig, pkt, g, item) && IsUdpSegmentOf(pkt, item, out, k, seg) && k < |g|
    requires UdpItemShape(item) && g[0] < |orig| && UdpHeadersLen(item) <= |orig[g[0]]| && g[k] < |orig| && UdpHeadersLen(item) <= |orig[g[k]]|
    requires KeepsUdp(orig[g[0]], item, orig[g[k]], k) && UdpPlainByte(item, i) && i < |seg|
    ensures i < |orig[g[k]]| && seg[i] == orig[g[k]][i]
  {
    hide UdpTracks, IsUdpSegmentOf, Udp, HasValidChecksum, ChecksumValue, Be16, SegmentCount;
    var b, t, hl := orig[g[k]], item.iphLen, UdpHeadersLen(item);
    UdpGsoUndoesGro(orig, pkt, g, item, out, k, seg);
    SegmentIp(pkt, item, out, k, seg);
    if i >= hl {
      assert seg[i] == seg[hl..][i - hl] && b[i] == b[hl..][i - hl];
    } else if UdpRestoredByte(item, i) {
      UdpRestoreByte(orig, pkt, g, item, out, k, seg, i);
    } else if i >= t {
      H.SameWord(seg, b, t + 4);
    } else if item.key.isV6 {
      UdpInherits(orig, pkt, g, item, out, k, seg, i);
    } else {
      HeadId(orig, pkt, g, item);
      H.SameWord(seg, b, 4);
    }
  }

  /** The checksum fields and the sums they make. */
  ghost predicate UdpChecksumsRight(item: UdpItem, b: Bytes)
    requires UdpItemShape(item) && UdpHeadersLen(item) <= |b| <= 0xFFFF
  {
    && HasValidChecksum(b, item.iphLen, IPPROTO_UDP, item.key.isV6) && Be16(b, item.iphLen + 6) != 0xFFFF
    && (item.key.isV6 || (ChecksumValue(b[..item.iphLen], 0) == 0xFFFF && Be16(b, 10) != 0xFFFF))
  }

  lemma SameIpHeader(item: UdpItem, a: Bytes, b: Bytes)
    requires UdpItemShape(item) && UdpHeadersLen(item) <= |a| == |b| <= 0xFFFF && UdpChecksumsRight(item, a) && UdpChecksumsRight(item, b)
    requires forall i: nat {:trigger UdpPlainByte(item, i)} :: UdpPlainByte(item, i) && i < |a| ==> a[i] == b[i]
    ensures a[..item.iphLen] == b[..item.iphLen]
  {
    hide ChecksumValue, HasValidChecksum;
    var t := item.iphLen;
    forall i | 0 <= i < t && (item.key.isV6 || !(10 <= i < 12)) ensures a[..t][i] == b[..t][i] {
      assert UdpPlainByte(item, i);
    }
    if !item.key.isV6 {
      ChecksumFieldUnique(a[..t], b[..t], 10, 0);
    }
  }

  lemma SameUdpSegment(item: UdpItem, a: Bytes, b: Bytes)
    requires UdpItemShape(item) && UdpHeadersLen(item) <= |a| == |b| <= 0xFFFF && UdpChecksumsRight(item, a) && UdpChecksumsRight(item, b)
    requires forall i: nat {:trigger UdpPlainByte(item, i)} :: UdpPlainByte(item, i) && i < |a| ==> a[i] == b[i]
    requires a[..item.iphLen] == b[..item.iphLen]
    ensures a[item.iphLen..] == b[item.iphLen..]
  {
    hide ChecksumValue, PseudoSum;
    var t, isV6 := item.iphLen, item.key.isV6;
    H.SameAddresses(a, b, isV6, t);
    forall i | 0 <= i < |a| - t && !(6 <= i < 8) ensures a[t..][i] == b[t..][i] {
      assert UdpPlainByte(item, t + i);
    }
    PseudoBound(IPPROTO_UDP, SrcAddr(a, isV6), DstAddr(a, isV6), |a| - t);
    ChecksumFieldUnique(a[t..], b[t..], 6, PseudoSum(IPPROTO_UDP, SrcAddr(a, isV6), DstAddr(a, isV6), |a| - t));
  }

  lemma KeptIdentical(orig: seq<Bytes>, pkt: Bytes, g: seq<nat>, item: UdpItem, out: Bytes, k: nat, seg: Bytes)
    requires UdpTracks(orig, pkt, g, item) && IsUdpSegmentOf(pkt, item, out, k, seg) && k < |g| && item.numMerged > 0
    requires UdpItemShape(item) && g[0] < |orig| && UdpHeadersLen(item) <= |orig[g[0]]| && g[k] < |orig| && UdpHeadersLen(item) <= |orig[g[k]]|
    requires KeepsUdp(orig[g[0]], item, orig[g[k]], k)
    ensures seg == orig[g[k]]
  {
    hide UdpTracks, IsUdpSegmentOf, Udp, HasValidChecksum, ChecksumValue, Be16, SegmentCount, UdpPlainByte, IpHeadersCanCoalesce;
    var b, t := orig[g[k]], item.iphLen;
    UdpGsoUndoesGro(orig, pkt, g, item, out, k, seg);
    SegmentIp(pkt, item, out, k, seg);
    MemberFacts(orig, pkt, g, item, k);
    forall i: nat | UdpPlainByte(item, i) && i < |seg| ensures seg[i] == b[i] {
      KeepsUdpByte(orig, pkt, g, item, out, k, seg, i);
    }
    SameIpHeader(item, seg, b);
    SameUdpSegment(item, seg, b);
    assert seg == seg[..t] + seg[t..] && b == b[..t] + b[t..];
  }

  /** A merged datagram comes back with its addresses, ports, lengths and payload; and byte by byte if and only if
      its headers are those the merged packet gives it. */
  lemma UdpByteIdentity(orig: seq<Bytes>, pkt: Bytes, g: seq<nat>, item: UdpItem, out: Bytes, k: nat, seg: Bytes)
    requires UdpTracks(orig, pkt, g, item) && IsUdpSegmentOf(pkt, item, out, k, seg) && k < |g| && item.numMerged > 0
    ensures UdpItemShape(item) && g[0] < |orig| && UdpHeadersLen(item) <= |orig[g[0]]| && g[k] < |orig| && UdpHeadersLen(item) <= |orig[g[k]]|
    ensures |seg| == |orig[g[k]]| && seg[UdpHeadersLen(item)..] == orig[g[k]][UdpHeadersLen(item)..]
    ensures forall i: nat {:trigger UdpRestoredByte(item, i)} :: UdpRestoredByte(item, i) ==> seg[i] == orig[g[k]][i]
    ensures seg == orig[g[k]] <==> KeepsUdp(orig[g[0]], item, orig[g[k]], k)
  {
    hide UdpTracks, IsUdpSegmentOf, Udp, KeepsUdp, SegmentCount, IpHeadersCanCoalesce, Intact;
    UdpGsoUndoesGro(orig, pkt, g, item, out, k, seg);
    MemberFacts(orig, pkt, g, item, 0);
    MemberFacts(orig, pkt, g, item, k);
    forall i: nat | UdpRestoredByte(item, i) ensures seg[i] == orig[g[k]][i] {
      UdpRestoreByte(orig, pkt, g, item, out, k, seg, i);
    }
    if seg == orig[g[k]] {
      IdenticalUdp(orig, pkt, g, item, out, k);
    } else if KeepsUdp(orig[g[0]], item, orig[g[k]], k) {
      KeptIdentical(orig, pkt, g, item, out, k, seg);
    }
  }

  /** The UDP checksum of a merged datagram comes back, except that 0xFFFF comes back as 0, which in UDP stands for
      no checksum (RFC 768). */
  lemma UdpChecksumBack(orig: seq<Bytes>, pkt: Bytes, g: seq<nat>, item: UdpItem, out: Bytes, k: nat, seg: Bytes)
    requires UdpTracks(orig, pkt, g, item) && IsUdpSegmentOf(pkt, item, out, k, seg) && k < |g| && item.numMerged > 0
    requires g[k] < |orig| && item.iphLen + 8 <= |orig[g[k]]| && Be16(orig[g[k]], item.iphLen + 4) as int == |orig[g[k]]| - item.iphLen
    ensures item.iphLen + 8 <= |seg|
    ensures Be16(seg, item.iphLen + 6) == var c := Be16(orig[g[k]], item.iphLen + 6); if c == 0xFFFF then 0 else c
  {
    hide UdpTracks, IsUdpSegmentOf, Udp, ChecksumValue, PseudoSum, SegmentCount, IpHeadersCanCoalesce, Be16, SrcAddr, DstAddr;
    var b, t, isV6 := orig[g[k]], item.iphLen, item.key.isV6;
    UdpGsoUndoesGro(orig, pkt, g, item, out, k, seg);
    SegmentIp(pkt, item, out, k, seg);
    MemberFacts(orig, pkt, g, item, k);
    AddressesBack(orig, pkt, g, item, out, k, seg);
    forall i | 0 <= i < |seg| - t && !(6 <= i < 8) ensures seg[t..][i] == b[t..][i] {
      if i < 4 {
        UdpRestoreByte(orig, pkt, g, item, out, k, seg, t + i);
      } else if i < 6 {
        H.SameWord(seg, b, t + 4);
      } else {
        assert seg[t + i] == seg[t + 8..][i - 8] && b[t + i] == b[t + 8..][i - 8];
      }
    }
    FieldInSegment(seg, t, 6);
    FieldInSegment(b, t, 6);
    AddrsShort(seg, isV6);
    PseudoBound(IPPROTO_UDP, SrcAddr(seg, isV6), DstAddr(seg, isV6), |seg| - t);
    ChecksumFieldForms(seg[t..], b[t..], 6, PseudoSum(IPPROTO_UDP, SrcAddr(seg, isV6), DstAddr(seg, isV6), |seg| - t));
  }

  lemma AddressesBack(orig: seq<Bytes>, pkt: Bytes, g: seq<nat>, item: UdpItem, out: Bytes, k: nat, seg: Bytes)
    requires UdpTracks(orig, pkt, g, item) && IsUdpSegmentOf(pkt, item, out, k, seg) && k < |g|
    ensures g[k] < |orig| && 28 <= |seg| && 28 <= |orig[g[k]]| && (item.key.isV6 ==> 48 <= |seg| && 48 <= |orig[g[k]]|)
    ensures SrcAddr(seg, item.key.isV6) == SrcAddr(orig[g[k]], item.key.isV6) && DstAddr(seg, item.key.isV6) == DstAddr(orig[g[k]], item.key.isV6)
  {
    hide UdpTracks, IsUdpSegmentOf, Udp, SegmentCount, IpHeadersCanCoalesce, Intact;
    UdpGsoUndoesGro(orig, pkt, g, item, out, k, seg);
    var b, isV6 := orig[g[k]], item.key.isV6;
    var s, z := SrcAddrAt(isV6), AddrSize(isV6);
    forall i: nat | s <= i < s + 2 * z ensures seg[i] == b[i] {
      UdpRestoreByte(orig, pkt, g, item, out, k, seg, i);
    }
  }
}
