/** Which header bytes survive coalescing and segmentation (wireguard/tun/offload_linux.go:279-308, 334-386,
    444-506, 625-679, 901-983). */
module GroHeaders {
  import opened InternetChecksum
  import opened Gso
  import opened GroPackets
  import opened GroGroups
  import opened GroGso
  import F = PacketFields

  /** A header byte that every packet gets back: all but the IPv4 identification and header checksum, the IPv6
      flow label, and what follows the acknowledgement number in the fixed TCP header (reserved bits, flags,
      window, checksum, urgent pointer). */
  predicate RestoredByte(item: Item, i: nat) {
    && i < HeadersLen(item)
    && (i < item.iphLen ==> if item.key.isV6 then i == 0 || i >= 4 else !(4 <= i < 6) && !(10 <= i < 12))
    && (i >= item.iphLen ==> i - item.iphLen < 12 || i - item.iphLen >= 20)
  }

  /** A header byte that a segment takes from the merged packet, hence from the first of its packets. */
  predicate InheritedByte(item: Item, i: nat) {
    && i < HeadersLen(item)
    && (i < item.iphLen ==> if item.key.isV6 then !(4 <= i < 6) else !(2 <= i < 6) && !(10 <= i < 12))
    && (i >= item.iphLen ==>
          var t := i - item.iphLen;
          !(4 <= t < 8) && t != TCP_FLAGS_OFFSET && !(16 <= t < 18))
  }

  /** Segment `k` of the written form `out` of the merged packet `pkt`. */
  ghost predicate IsSegmentOf(pkt: Bytes, item: Item, out: Bytes, k: nat, seg: Bytes) {
    && IsAccounted(pkt, item, out) && Splittable(out, HdrOf(item), item.key.isV6)
    && SegmentStart(HdrOf(item), k) <= |out| && IsSegment(out, HdrOf(item), item.key.isV6, k, seg)
  }

  lemma Inherits(pkt: Bytes, item: Item, out: Bytes, k: nat, seg: Bytes, i: nat)
    requires IsSegmentOf(pkt, item, out, k, seg) && InheritedByte(item, i)
    ensures i < |seg| && i < |pkt| && seg[i] == pkt[i]
  {
    hide HasValidChecksum, IpHeaderOk, TransportOk, ChecksumValue, PseudoSum, SegmentData, SegmentStart;
    assert CopiedHeaderByte(HdrOf(item), item.key.isV6, i);
    assert Untouched(item, i);
  }

  /** The IP header bytes besides the addresses. */
  lemma FixedIpByte(x: Bytes, y: Bytes, item: Item, i: nat)
    requires IsTcpCandidate(x, item.key.isV6) && IsTcpCandidate(y, item.key.isV6) && IpHeadersCanCoalesce(x, y)
    requires ParseTcp(x, item.key.isV6).Some? && ParseTcp(y, item.key.isV6).Some?
    requires i < SrcAddrAt(item.key.isV6)
    requires if item.key.isV6 then i == 0 || i >= 6 else i < 2 || 6 <= i < 10
    ensures x[i] == y[i]
  {
  }

  /** Packets of one merged packet agree on the inherited bytes that come back. */
  lemma MemberByte(orig: seq<Bytes>, item: Item, a: nat, b: nat, i: nat)
    requires ItemShape(item) && Member(orig, item, a) && Member(orig, item, b) && SameFixed(orig[a], orig[b], item)
    requires RestoredByte(item, i) && InheritedByte(item, i)
    ensures i < |orig[a]| && i < |orig[b]| && orig[a][i] == orig[b][i]
  {
    hide ParseTcp, IsTcpCandidate, IpHeadersCanCoalesce, SrcAddr, DstAddr, Be16, Be32;
    MembersShareFlow(orig, item, a, b);
    var x, y, t, isV6 := orig[a], orig[b], item.iphLen, item.key.isV6;
    if i >= t + 20 {
      assert x[i] == x[t + 20..HeadersLen(item)][i - t - 20] && y[i] == y[t + 20..HeadersLen(item)][i - t - 20];
    } else if i >= t {
      SameWord(x, y, t);
      SameWord(x, y, t + 2);
      SameLong(x, y, t + 8);
    } else if i >= SrcAddrAt(isV6) {
      AddressByte(x, y, isV6, i);
    } else {
      FixedIpByte(x, y, item, i);
    }
  }

  lemma AddressByte(x: Bytes, y: Bytes, isV6: bool, i: nat)
    requires SrcAddrAt(isV6) + 2 * AddrSize(isV6) <= |x| && SrcAddrAt(isV6) + 2 * AddrSize(isV6) <= |y|
    requires SrcAddr(x, isV6) == SrcAddr(y, isV6) && DstAddr(x, isV6) == DstAddr(y, isV6)
    requires SrcAddrAt(isV6) <= i < SrcAddrAt(isV6) + 2 * AddrSize(isV6)
    ensures x[i] == y[i]
  {
    var s, z := SrcAddrAt(isV6), AddrSize(isV6);
    if i < s + z {
      assert x[i] == SrcAddr(x, isV6)[i - s] && y[i] == SrcAddr(y, isV6)[i - s];
    } else {
      assert x[i] == DstAddr(x, isV6)[i - s - z] && y[i] == DstAddr(y, isV6)[i - s - z];
    }
  }

  lemma SameWord(x: Bytes, y: Bytes, at: nat)
    requires at + 2 <= |x| && at + 2 <= |y|
    ensures Be16(x, at) == Be16(y, at) ==> x[at] == y[at] && x[at + 1] == y[at + 1]
  {
  }

  lemma SameLong(x: Bytes, y: Bytes, at: nat)
    requires at + 4 <= |x| && at + 4 <= |y|
    ensures Be32(x, at) == Be32(y, at) ==> x[at..at + 4] == y[at..at + 4]
    ensures Be32(x, at) == Be32(y, at) ==> x[at] == y[at] && x[at + 1] == y[at + 1] && x[at + 2] == y[at + 2] && x[at + 3] == y[at + 3]
  {
  }

  /** The length fields and the sequence number are set, and set right. */
  lemma SetByte(orig: seq<Bytes>, pkt: Bytes, g: seq<nat>, item: Item, out: Bytes, k: nat, seg: Bytes, i: nat)
    requires Tracks(orig, pkt, g, item) && IsSegmentOf(pkt, item, out, k, seg) && k < |g|
    requires RestoredByte(item, i) && !InheritedByte(item, i)
    ensures i < |seg| && g[k] < |orig| && i < |orig[g[k]]| && seg[i] == orig[g[k]][i]
  {
    hide Tracks, IsAccounted, HasValidChecksum, ChecksumValue, PseudoSum, SegmentData, SegmentStart, Splittable, TransportOk, Be16, Be32, SameFlowFields;
    GsoUndoesGro(orig, pkt, g, item, out, k, seg);
    PieceSize(orig, pkt, g, item, k);
    AccountedLength(pkt, item, out);
    var b, t := orig[g[k]], item.iphLen;
    if i >= t {
      SameLong(seg, b, t + 4);
    } else if item.key.isV6 {
      SameWord(seg, b, 4);
    } else {
      SameWord(seg, b, 2);
    }
  }

  /** Every packet gets these bytes of its headers back, and the IPv6 traffic class and the TCP data offset. */
  lemma HeadersComeBack(orig: seq<Bytes>, pkt: Bytes, g: seq<nat>, item: Item, out: Bytes, k: nat, seg: Bytes)
    requires Tracks(orig, pkt, g, item) && IsSegmentOf(pkt, item, out, k, seg) && k < |g|
    ensures g[k] < |orig| && |seg| == |orig[g[k]]| >= HeadersLen(item)
    ensures forall i: nat {:trigger RestoredByte(item, i)} :: RestoredByte(item, i) ==> seg[i] == orig[g[k]][i]
    ensures item.iphLen + 20 <= |seg| && seg[item.iphLen + 12] / 16 == orig[g[k]][item.iphLen + 12] / 16
    ensures item.key.isV6 ==> seg[1] / 16 == orig[g[k]][1] / 16
  {
    hide Tracks, IsAccounted, IsSegment, Splittable, SegmentStart, Member, SameFlowFields, Be32, HeadOk;
    HalfBytes(orig, pkt, g, item, out, k, seg);
    GsoUndoesGro(orig, pkt, g, item, out, k, seg);
    forall i: nat | RestoredByte(item, i) ensures seg[i] == orig[g[k]][i] {
      RestoreByte(orig, pkt, g, item, out, k, seg, i);
    }
  }

  lemma FixedPiece(orig: seq<Bytes>, pkt: Bytes, g: seq<nat>, item: Item, k: nat)
    requires Tracks(orig, pkt, g, item) && k < |g|
    ensures ItemShape(item) && g[0] < |orig| && g[k] < |orig| && SameFixed(orig[g[0]], orig[g[k]], item)
  {
    hide Contents, Pieces, SameFixed;
  }

  lemma HeadByte(pkt: Bytes, head: Bytes, item: Item, i: nat)
    requires HeadOk(pkt, head, item) && i < HeadersLen(item) && i != item.iphLen + TCP_FLAGS_OFFSET
    ensures i < |pkt| && i < |head| && pkt[i] == head[i]
  {
  }

  lemma RestoreByte(orig: seq<Bytes>, pkt: Bytes, g: seq<nat>, item: Item, out: Bytes, k: nat, seg: Bytes, i: nat)
    requires Tracks(orig, pkt, g, item) && IsSegmentOf(pkt, item, out, k, seg) && k < |g| && RestoredByte(item, i)
    ensures i < |seg| && g[k] < |orig| && i < |orig[g[k]]| && seg[i] == orig[g[k]][i]
  {
    hide Tracks, IsSegmentOf, Member, SameFixed, HeadOk;
    if InheritedByte(item, i) {
      FixedPiece(orig, pkt, g, item, k);
      PieceSize(orig, pkt, g, item, k);
      Inherits(pkt, item, out, k, seg, i);
      MemberByte(orig, item, g[0], g[k], i);
      HeadByte(pkt, orig[g[0]], item, i);
    } else {
      SetByte(orig, pkt, g, item, out, k, seg, i);
    }
  }

  lemma HalfBytes(orig: seq<Bytes>, pkt: Bytes, g: seq<nat>, item: Item, out: Bytes, k: nat, seg: Bytes)
    requires Tracks(orig, pkt, g, item) && IsSegmentOf(pkt, item, out, k, seg) && k < |g|
    ensures g[k] < |orig| && item.iphLen + 20 <= |seg| && item.iphLen + 20 <= |orig[g[k]]|
    ensures seg[item.iphLen + 12] / 16 == orig[g[k]][item.iphLen + 12] / 16
    ensures item.key.isV6 ==> seg[1] / 16 == orig[g[k]][1] / 16
  {
    hide Tracks, IsSegmentOf, Member, HeadOk;
    FixedPiece(orig, pkt, g, item, k);
    PieceSize(orig, pkt, g, item, k);
    Inherits(pkt, item, out, k, seg, item.iphLen + 19);
    Inherits(pkt, item, out, k, seg, item.iphLen + 12);
    HeadByte(pkt, orig[g[0]], item, item.iphLen + 12);
    DataOffset(orig, item, g[0]);
    DataOffset(orig, item, g[k]);
    if item.key.isV6 {
      Inherits(pkt, item, out, k, seg, 1);
      HeadByte(pkt, orig[g[0]], item, 1);
      Version(orig, item, g[0]);
    }
  }

  lemma DataOffset(orig: seq<Bytes>, item: Item, j: nat)
    requires ItemShape(item) && Member(orig, item, j)
    ensures item.iphLen + 20 <= |orig[j]| && orig[j][item.iphLen + 12] as int / 16 * 4 == item.tcphLen
  {
  }

  lemma Version(orig: seq<Bytes>, item: Item, j: nat)
    requires ItemShape(item) && Member(orig, item, j)
    ensures |orig[j]| >= 40 && (item.key.isV6 <==> orig[j][0] / 16 == 6)
  {
    hide ParseTcp;
  }

  // ---------- when a packet comes back byte by byte ----------

  /** The flags of packet `k` of a group come back unless it has PSH and something was put in front after it joined. */
  ghost predicate KeepsFlags(orig: seq<Bytes>, g: seq<nat>, item: Item, k: nat)
    requires k < |g|
  {
    k < |g| - 1 || FlagsOf(orig, item, g[k]) == F.ACK || CameLast(g)
  }

  /** Every packet but the last gets its flags back; the last does if and only if it has no PSH or came last. */
  lemma FlagsComeBack(orig: seq<Bytes>, pkt: Bytes, g: seq<nat>, item: Item, out: Bytes, k: nat, seg: Bytes)
    requires Tracks(orig, pkt, g, item) && IsSegmentOf(pkt, item, out, k, seg) && k < |g|
    ensures F.Flags(seg, item.key.isV6) == FlagsOf(orig, item, g[k]) <==> KeepsFlags(orig, g, item, k)
    ensures F.Flags(seg, item.key.isV6) == (if KeepsFlags(orig, g, item, k) then FlagsOf(orig, item, g[k]) else F.ACK)
    ensures FlagsOf(orig, item, g[k]) == F.ACK || (k == |g| - 1 && FlagsOf(orig, item, g[k]) == F.PSH_ACK)
  {
    hide IsSegment, IsAccounted, Splittable, SegmentStart, Pieces, Contents, Alike, HasValidChecksum, ChecksumValue, HdrOf;
    SegmentWrites(pkt, item, out, k, seg);
    LastSegment(orig, pkt, g, item, out, k);
  }

  /** The fields of the head that packet `b`, the `k`-th of its group, gets are its own, its identification counts up
      from the head's, its IPv4 header checksum is right, and its checksum fields have the form the segmentation
      writes. */
  ghost predicate SharesHeaders(head: Bytes, item: Item, b: Bytes, k: nat)
    requires ItemShape(item) && HeadersLen(item) <= |head| && HeadersLen(item) <= |b|
  {
    var t := item.iphLen;
    && head[t + 12] == b[t + 12] && head[t + 14] == b[t + 14] && head[t + 15] == b[t + 15] && head[t + 18] == b[t + 18] && head[t + 19] == b[t + 19]
    && Be16(b, t + 16) != 0xFFFF
    && if item.key.isV6 then head[1] == b[1] && head[2] == b[2] && head[3] == b[3]
       else
         && Be16(b, 4) as int == (Be16(head, 4) as int + k) % 0x1_0000
         && ChecksumValue(b[..t], 0) == 0xFFFF && Be16(b, 10) != 0xFFFF
  }

  /** What the input packets must have in common for packet `k` of the group to come back in every byte. */
  ghost predicate KeepsAll(orig: seq<Bytes>, g: seq<nat>, item: Item, k: nat)
    requires k < |g| && ItemShape(item) && g[0] < |orig| && g[k] < |orig| && HeadersLen(item) <= |orig[g[0]]| && HeadersLen(item) <= |orig[g[k]]|
  {
    KeepsFlags(orig, g, item, k) && SharesHeaders(orig[g[0]], item, orig[g[k]], k)
  }

  /** The merged packet has the headers of its head. */
  lemma SharesAlike(pkt: Bytes, head: Bytes, item: Item, b: Bytes, k: nat)
    requires ItemShape(item) && HeadersLen(item) <= |b| && HeadOk(pkt, head, item)
    ensures SharesHeaders(pkt, item, b, k) <==> SharesHeaders(head, item, b, k)
  {
    hide ChecksumValue;
    var t := item.iphLen;
    assert pkt[t + 12] == head[t + 12] && pkt[t + 14] == head[t + 14] && pkt[t + 15] == head[t + 15] && pkt[t + 18] == head[t + 18] && pkt[t + 19] == head[t + 19];
    assert pkt[1] == head[1] && pkt[2] == head[2] && pkt[3] == head[3] && pkt[4] == head[4] && pkt[5] == head[5];
  }

  lemma FlagsIff(orig: seq<Bytes>, pkt: Bytes, g: seq<nat>, item: Item, k: nat)
    requires Tracks(orig, pkt, g, item) && k < |g|
    ensures ItemShape(item) && HeadersLen(item) <= |pkt| && g[0] < |orig| && g[k] < |orig|
    ensures HeadersLen(item) <= |orig[g[0]]| && HeadersLen(item) <= |orig[g[k]]|
    ensures orig[g[k]][item.iphLen + TCP_FLAGS_OFFSET] == SegmentFlags(pkt[item.iphLen + TCP_FLAGS_OFFSET], k == |g| - 1) <==> KeepsFlags(orig, g, item, k)
  {
    hide Pieces, Alike, Member;
    PieceSize(orig, pkt, g, item, k);
    assert FlagsOf(orig, item, g[k]) == orig[g[k]][item.iphLen + TCP_FLAGS_OFFSET];
  }

  lemma KeepsAllIff(orig: seq<Bytes>, pkt: Bytes, g: seq<nat>, item: Item, k: nat)
    requires Tracks(orig, pkt, g, item) && k < |g|
    ensures ItemShape(item) && HeadersLen(item) <= |pkt| && g[0] < |orig| && g[k] < |orig|
    ensures HeadersLen(item) <= |orig[g[0]]| && HeadersLen(item) <= |orig[g[k]]|
    ensures KeepsAll(orig, g, item, k) <==> KeepsHeaders(pkt, item, orig[g[k]], k, k == |g| - 1)
  {
    FlagsIff(orig, pkt, g, item, k);
    hide Tracks, Member, SegmentFlags, KeepsFlags, HeadOk, SharesHeaders;
    PieceSize(orig, pkt, g, item, k);
    SharesAlike(pkt, orig[g[0]], item, orig[g[k]], k);
  }

  /** The same for the merged packet `pkt` and the packet `b`, its `k`-th, with flags as the segment gets them. */
  ghost predicate KeepsHeaders(pkt: Bytes, item: Item, b: Bytes, k: nat, last: bool)
    requires ItemShape(item) && HeadersLen(item) <= |pkt| && HeadersLen(item) <= |b|
  {
    SharesHeaders(pkt, item, b, k) && b[item.iphLen + TCP_FLAGS_OFFSET] == SegmentFlags(pkt[item.iphLen + TCP_FLAGS_OFFSET], last)
  }

  lemma LastSegment(orig: seq<Bytes>, pkt: Bytes, g: seq<nat>, item: Item, out: Bytes, k: nat)
    requires Tracks(orig, pkt, g, item) && IsAccounted(pkt, item, out) && k < |g|
    ensures SegmentStart(HdrOf(item), k) + item.gsoSize as int >= |out| <==> k == |g| - 1
  {
    hide Tracks, IsAccounted, SegmentStart;
    AccountedLength(pkt, item, out);
    MergedCount(orig, pkt, g, item);
    SegmentStartMonotone(HdrOf(item), k, |g|);
    if k < |g| - 1 {
      SegmentStartMonotone(HdrOf(item), k + 1, |g| - 1);
    }
  }

  /** What the segmentation writes into a segment, read off the merged packet. */
  lemma SegmentWrites(pkt: Bytes, item: Item, out: Bytes, k: nat, seg: Bytes)
    requires IsSegmentOf(pkt, item, out, k, seg)
    ensures ItemShape(item) && HeadersLen(item) <= |seg| <= 0xFFFF && HeadersLen(item) <= |pkt| && item.iphLen + 20 <= HeadersLen(item)
    ensures seg[item.iphLen + TCP_FLAGS_OFFSET]
         == SegmentFlags(pkt[item.iphLen + TCP_FLAGS_OFFSET], SegmentStart(HdrOf(item), k) + item.gsoSize as int >= |out|)
    ensures HasValidChecksum(seg, item.iphLen, IPPROTO_TCP, item.key.isV6) && Be16(seg, item.iphLen + 16) != 0xFFFF
    ensures !item.key.isV6 ==>
              && Be16(seg, 4) as int == (Be16(pkt, 4) as int + k) % 0x1_0000
              && ChecksumValue(seg[..item.iphLen], 0) == 0xFFFF && Be16(seg, 10) != 0xFFFF
  {
    hide HasValidChecksum, ChecksumValue, PseudoSum, SegmentData, SegmentStart, SegmentFlags, Offset, Be32;
    assert Untouched(item, item.iphLen + TCP_FLAGS_OFFSET) && Untouched(item, 4 + if item.key.isV6 then 2 else 0) && Untouched(item, 5 + if item.key.isV6 then 2 else 0);
    assert out[item.iphLen + TCP_FLAGS_OFFSET] == pkt[item.iphLen + TCP_FLAGS_OFFSET];
    if !item.key.isV6 {
      assert out[4] == pkt[4] && out[5] == pkt[5];
    }
  }

  lemma IdenticalKeeps(orig: seq<Bytes>, pkt: Bytes, g: seq<nat>, item: Item, out: Bytes, k: nat)
    requires Tracks(orig, pkt, g, item) && k < |g| && g[k] < |orig| && IsSegmentOf(pkt, item, out, k, orig[g[k]])
    ensures ItemShape(item) && HeadersLen(item) <= |pkt| && HeadersLen(item) <= |orig[g[k]]|
    ensures KeepsHeaders(pkt, item, orig[g[k]], k, k == |g| - 1)
  {
    hide Tracks, IsSegment, IsAccounted, Splittable, HasValidChecksum, ChecksumValue, SegmentFlags, SegmentStart, HdrOf;
    var b, t := orig[g[k]], item.iphLen;
    LastSegment(orig, pkt, g, item, out, k);
    SegmentWrites(pkt, item, out, k, b);
    Inherits(pkt, item, out, k, b, t + 12);
    Inherits(pkt, item, out, k, b, t + 14);
    Inherits(pkt, item, out, k, b, t + 15);
    Inherits(pkt, item, out, k, b, t + 18);
    Inherits(pkt, item, out, k, b, t + 19);
    if item.key.isV6 {
      Inherits(pkt, item, out, k, b, 1);
      Inherits(pkt, item, out, k, b, 2);
      Inherits(pkt, item, out, k, b, 3);
    }
  }

  /** A byte other than those of the checksums. */
  predicate PlainByte(item: Item, i: nat) {
    !(0 <= i - item.iphLen - 16 < 2) && (item.key.isV6 || !(10 <= i < 12))
  }

  lemma KeepsByte(orig: seq<Bytes>, pkt: Bytes, g: seq<nat>, item: Item, out: Bytes, k: nat, seg: Bytes, i: nat)
    requires Tracks(orig, pkt, g, item) && IsSegmentOf(pkt, item, out, k, seg) && k < |g|
    requires ItemShape(item) && HeadersLen(item) <= |pkt| && g[k] < |orig| && HeadersLen(item) <= |orig[g[k]]|
    requires KeepsHeaders(pkt, item, orig[g[k]], k, k == |g| - 1) && PlainByte(item, i) && i < |seg|
    ensures i < |orig[g[k]]| && seg[i] == orig[g[k]][i]
  {
    hide Tracks, IsSegment, IsAccounted, Splittable, HasValidChecksum, ChecksumValue, SegmentFlags, SegmentStart, Be32, SameFlowFields, HdrOf;
    var b, t := orig[g[k]], item.iphLen;
    SegmentWrites(pkt, item, out, k, seg);
    if i >= HeadersLen(item) {
      GsoUndoesGro(orig, pkt, g, item, out, k, seg);
      assert seg[i] == seg[HeadersLen(item)..][i - HeadersLen(item)] && b[i] == b[HeadersLen(item)..][i - HeadersLen(item)];
    } else if RestoredByte(item, i) {
      RestoreByte(orig, pkt, g, item, out, k, seg, i);
    } else if i == t + TCP_FLAGS_OFFSET {
      LastSegment(orig, pkt, g, item, out, k);
    } else if InheritedByte(item, i) {
      Inherits(pkt, item, out, k, seg, i);
    } else {
      SameWord(seg, b, 4);
    }
  }

  /** The checksum fields and the sums they make. */
  ghost predicate ChecksumsRight(item: Item, b: Bytes)
    requires ItemShape(item) && HeadersLen(item) <= |b| <= 0xFFFF
  {
    && HasValidChecksum(b, item.iphLen, IPPROTO_TCP, item.key.isV6) && Be16(b, item.iphLen + 16) != 0xFFFF
    && (item.key.isV6 || (ChecksumValue(b[..item.iphLen], 0) == 0xFFFF && Be16(b, 10) != 0xFFFF))
  }

  /** Packets that agree everywhere else and have right checksums agree on the checksums. */
  lemma ChecksumsDecide(item: Item, a: Bytes, b: Bytes)
    requires ItemShape(item) && HeadersLen(item) <= |a| == |b| <= 0xFFFF && ChecksumsRight(item, a) && ChecksumsRight(item, b)
    requires forall i: nat {:trigger PlainByte(item, i)} :: PlainByte(item, i) && i < |a| ==> a[i] == b[i]
    ensures a == b
  {
    var t, isV6 := item.iphLen, item.key.isV6;
    assert a[..t] == b[..t] by {
      forall i | 0 <= i < t && (isV6 || !(10 <= i < 12)) ensures a[..t][i] == b[..t][i] {
        assert PlainByte(item, i);
      }
      hide ChecksumValue, HasValidChecksum;
      if !isV6 {
        ChecksumFieldUnique(a[..t], b[..t], 10, 0);
      }
    }
    assert SrcAddr(a, isV6) == SrcAddr(b, isV6) && DstAddr(a, isV6) == DstAddr(b, isV6) by {
      SameAddresses(a, b, isV6, t);
    }
    assert a[t..] == b[t..] by {
      forall i | 0 <= i < |a| - t && !(16 <= i < 18) ensures a[t..][i] == b[t..][i] {
        assert PlainByte(item, t + i);
      }
      hide ChecksumValue, PseudoSum;
      PseudoBound(IPPROTO_TCP, SrcAddr(a, isV6), DstAddr(a, isV6), |a| - t);
      ChecksumFieldUnique(a[t..], b[t..], 16, PseudoSum(IPPROTO_TCP, SrcAddr(a, isV6), DstAddr(a, isV6), |a| - t));
    }
    assert a == a[..t] + a[t..] && b == b[..t] + b[t..];
  }

  lemma SameAddresses(a: Bytes, b: Bytes, isV6: bool, t: nat)
    requires SrcAddrAt(isV6) + 2 * AddrSize(isV6) <= t <= |a| && t <= |b| && a[..t] == b[..t]
    ensures SrcAddr(a, isV6) == SrcAddr(b, isV6) && DstAddr(a, isV6) == DstAddr(b, isV6)
  {
    forall i | 0 <= i < t ensures a[i] == b[i] {
      assert a[i] == a[..t][i] && b[i] == b[..t][i];
    }
  }

  lemma SoundPiece(orig: seq<Bytes>, pkt: Bytes, g: seq<nat>, item: Item, k: nat)
    requires Tracks(orig, pkt, g, item) && k < |g| && item.numMerged > 0
    ensures Sound(orig, item, g[k])
  {
    hide Sound, Contents, Alike, PieceOk;
  }

  lemma KeepsIdentical(orig: seq<Bytes>, pkt: Bytes, g: seq<nat>, item: Item, out: Bytes, k: nat, seg: Bytes)
    requires Tracks(orig, pkt, g, item) && IsSegmentOf(pkt, item, out, k, seg) && k < |g| && item.numMerged > 0
    requires ItemShape(item) && HeadersLen(item) <= |pkt| && g[k] < |orig| && HeadersLen(item) <= |orig[g[k]]|
    requires KeepsHeaders(pkt, item, orig[g[k]], k, k == |g| - 1)
    ensures seg == orig[g[k]]
  {
    hide Tracks, IsSegment, IsAccounted, Splittable, HasValidChecksum, ChecksumValue, SegmentStart, SegmentFlags, SameFlowFields, AllSound,
         Be32, HdrOf, PlainByte;
    SoundPiece(orig, pkt, g, item, k);
    var b := orig[g[k]];
    SegmentWrites(pkt, item, out, k, seg);
    GsoUndoesGro(orig, pkt, g, item, out, k, seg);
    forall i: nat | PlainByte(item, i) && i < |seg| ensures seg[i] == b[i] {
      KeepsByte(orig, pkt, g, item, out, k, seg, i);
    }
    ChecksumsDecide(item, seg, b);
  }

  /** A packet comes back byte by byte if and only if its headers are those the head of its group gives it. */
  lemma ByteIdentity(orig: seq<Bytes>, pkt: Bytes, g: seq<nat>, item: Item, out: Bytes, k: nat, seg: Bytes)
    requires Tracks(orig, pkt, g, item) && IsSegmentOf(pkt, item, out, k, seg) && k < |g| && item.numMerged > 0
    ensures ItemShape(item) && g[0] < |orig| && g[k] < |orig| && HeadersLen(item) <= |orig[g[0]]| && HeadersLen(item) <= |orig[g[k]]|
    ensures seg == orig[g[k]] <==> KeepsAll(orig, g, item, k)
  {
    hide Tracks, IsSegment, IsAccounted, Splittable, SegmentStart, KeepsHeaders, KeepsAll, SameFlowFields, Be32, Member, HeadOk;
    AccountedLength(pkt, item, out);
    KeepsAllIff(orig, pkt, g, item, k);
    if seg == orig[g[k]] {
      IdenticalKeeps(orig, pkt, g, item, out, k);
    } else if KeepsHeaders(pkt, item, orig[g[k]], k, k == |g| - 1) {
      KeepsIdentical(orig, pkt, g, item, out, k, seg);
    }
  }
}
