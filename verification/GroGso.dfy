/** The headers of merged packets, and the theorem that segmentation undoes coalescing
    (wireguard/tun/offload_linux.go:623-679, 865-983). */
module GroGso {
  import opened Arith
  import opened InternetChecksum
  import opened Gso
  import opened GroPackets
  import opened GroGroups

  /** The virtio header applyTCPCoalesceAccounting writes in front of a merged packet. */
  function HdrOf(item: Item): VirtioNetHdr
    requires item.iphLen <= 40 && item.tcphLen <= 60
  {
    VirtioNetHdr(if item.key.isV6 then TcpV6 else TcpV4, item.iphLen + item.tcphLen, item.gsoSize, item.iphLen, 16)
  }

  /** A header byte that the accounting leaves alone. */
  predicate Untouched(item: Item, k: nat) {
    && (if item.key.isV6 then !(4 <= k < 6) else !(2 <= k < 4) && !(10 <= k < 12))
    && !(item.iphLen + 16 <= k < item.iphLen + 18)
  }

  /** `out` is the merged packet with its lengths and checksums brought up to date. */
  ghost predicate IsAccounted(pkt: Bytes, item: Item, out: Bytes) {
    && ItemShape(item) && HeadersLen(item) < |pkt| == |out| <= 0xFFFF
    && (forall k: nat {:trigger out[k]} :: k < |pkt| && Untouched(item, k) ==> out[k] == pkt[k])
    && (if item.key.isV6 then Be16(out, 4) as int == |out| - item.iphLen
        else Be16(out, 2) as int == |out| && ChecksumValue(out[..item.iphLen], 0) == 0xFFFF)
    && Be16(out, item.iphLen + 16)
       == ChecksumValue([], PseudoSum(IPPROTO_TCP, SrcAddr(out, item.key.isV6), DstAddr(out, item.key.isV6), |out| - item.iphLen))
  }

  /** The IP header with its length, and for IPv4 its checksum, brought up to date. */
  method AccountIp(pkt: Bytes, isV6: bool, iphLen: nat) returns (out: Bytes)
    requires iphLen == (if isV6 then 40 else 20) <= |pkt| <= 0xFFFF
    ensures |out| == |pkt| && out[iphLen..] == pkt[iphLen..]
    ensures forall k: nat {:trigger out[k]} :: k < |pkt| && (if isV6 then !(4 <= k < 6) else !(2 <= k < 4) && !(10 <= k < 12)) ==> out[k] == pkt[k]
    ensures if isV6 then Be16(out, 4) as int == |out| - iphLen else Be16(out, 2) as int == |out| && ChecksumValue(out[..iphLen], 0) == 0xFFFF
  {
    hide ChecksumValue;
    if isV6 {
      out := Put16(pkt, 4, |pkt| - iphLen);
    } else {
      out := Put16(Put16(pkt, 10, 0), 2, |pkt|);
      var iphCSum := Checksum(out[..iphLen], 0);
      FillChecksum(out[..iphLen], 10, 0);
      ghost var ip := Put16(out[..iphLen], 10, 0xFFFF - iphCSum);
      out := Put16(out, 10, 0xFFFF - iphCSum);
      assert out[..iphLen] == ip;
    }
  }

  /** The body of the loop of applyTCPCoalesceAccounting for a merged item. */
  method AccountPacket(pkt: Bytes, item: Item) returns (out: Bytes)
    requires ItemShape(item) && HeadersLen(item) < |pkt| <= 0xFFFF
    ensures IsAccounted(pkt, item, out)
  {
    hide ChecksumValue, PseudoSum, Put16;
    var at, isV6 := item.iphLen, item.key.isV6;
    var ip := AccountIp(pkt, isV6, at);
    var src, dst := SrcAddr(ip, isV6), DstAddr(ip, isV6);
    PseudoBound(IPPROTO_TCP, src, dst, |ip| - at);
    var psum := PseudoHeaderChecksumNoFold(IPPROTO_TCP, src, dst, |ip| - at);
    var partial := Checksum([], psum);
    out := Put16(ip, at + 16, partial);
    assert out[..at] == ip[..at];
    assert SrcAddr(out, isV6) == src && DstAddr(out, isV6) == dst;
  }

  // ---------- segmentation undoes coalescing ----------

  ghost function ChunkStart(full: nat, k: nat): nat {
    if k == 0 then 0 else full + ChunkStart(full, k - 1)
  }

  lemma {:induction false} ChunkStartIsMultiple(full: nat, k: nat)
    ensures ChunkStart(full, k) == k * full
  {
    if k > 0 {
      ChunkStartIsMultiple(full, k - 1);
      assert k * full == full + (k - 1) * full;
    }
  }

  lemma ChunkStep(full: nat, k: nat)
    ensures ChunkStart(full, k) == if k == 0 then 0 else full + ChunkStart(full, k - 1)
  {
  }

  lemma FirstPiece(orig: seq<Bytes>, g: seq<nat>, hdrLen: nat)
    requires g != []
    ensures Payloads(orig, g, hdrLen) == Piece(orig, g[0], hdrLen) + Payloads(orig, g[1..], hdrLen)
    ensures |g| == 1 ==> Payloads(orig, g[1..], hdrLen) == []
  {
    hide Piece;
  }

  lemma HeadChunk(first: Bytes, rest: Bytes, full: nat)
    requires |first| <= full && (|first| < full ==> rest == [])
    ensures (first + rest)[0..Min(full, |first + rest|)] == first
  {
  }

  lemma ShiftChunk(first: Bytes, rest: Bytes, full: nat, lo: nat)
    requires |first| == full && lo <= |rest|
    ensures var all := first + rest;
            full + lo <= |all| && all[full + lo..Min(full + lo + full, |all|)] == rest[lo..Min(lo + full, |rest|)]
  {
    SliceShift(first + rest, full, rest, lo, Min(lo + full, |rest|));
  }

  /** All pieces but the last have the full size. */
  ghost predicate Full(orig: seq<Bytes>, g: seq<nat>, hdrLen: nat, full: nat) {
    && g != [] && |Piece(orig, g[|g| - 1], hdrLen)| <= full
    && forall i :: 0 <= i < |g| - 1 ==> |Piece(orig, g[i], hdrLen)| == full
  }

  lemma FullTail(orig: seq<Bytes>, g: seq<nat>, hdrLen: nat, full: nat)
    requires g != [] && Full(orig, g, hdrLen, full)
    ensures |Piece(orig, g[0], hdrLen)| <= full
    ensures |g| > 1 ==> |Piece(orig, g[0], hdrLen)| == full && Full(orig, g[1..], hdrLen, full)
  {
    hide Piece;
  }

  /** Cutting the merged payload at multiples of the piece size gives the pieces back. */
  lemma {:induction false} PayloadChunk(orig: seq<Bytes>, g: seq<nat>, hdrLen: nat, full: nat, k: nat)
    requires k < |g| && Full(orig, g, hdrLen, full)
    ensures var all, lo := Payloads(orig, g, hdrLen), ChunkStart(full, k);
            lo <= |all| && all[lo..Min(lo + full, |all|)] == Piece(orig, g[k], hdrLen)
    decreases k
  {
    hide Piece, Payloads, Full, ChunkStart;
    var first, rest := Piece(orig, g[0], hdrLen), Payloads(orig, g[1..], hdrLen);
    FirstPiece(orig, g, hdrLen);
    FullTail(orig, g, hdrLen, full);
    ChunkStep(full, k);
    if k == 0 {
      HeadChunk(first, rest, full);
    } else {
      PayloadChunk(orig, g[1..], hdrLen, full, k - 1);
      ShiftChunk(first, rest, full, ChunkStart(full, k - 1));
    }
  }

  lemma AccountedPayload(pkt: Bytes, item: Item, out: Bytes)
    requires IsAccounted(pkt, item, out)
    ensures Splittable(out, HdrOf(item), item.key.isV6)
    ensures out[HeadersLen(item)..] == pkt[HeadersLen(item)..]
    ensures Be32(out, item.iphLen + 4) == Be32(pkt, item.iphLen + 4)
  {
    hide ChecksumValue, PseudoSum;
    assert forall k: nat :: item.iphLen + 4 <= k < item.iphLen + 8 ==> Untouched(item, k);
  }

  lemma MergedCount(orig: seq<Bytes>, pkt: Bytes, g: seq<nat>, item: Item)
    requires Tracks(orig, pkt, g, item)
    ensures SegmentCount(pkt, HdrOf(item), |g|)
  {
    hide Pieces, Contents, ChecksumValue, PseudoSum, Member, Meta;
    TracksCount(orig, pkt, g, item);
    TracksLength(orig, pkt, g, item);
    assert (item.numMerged as int + 1) * item.gsoSize as int == item.numMerged as int * item.gsoSize as int + item.gsoSize as int;
  }

  lemma PieceLengths(orig: seq<Bytes>, pkt: Bytes, g: seq<nat>, item: Item, k: nat)
    requires Tracks(orig, pkt, g, item) && k < |g|
    ensures g[k] < |orig| && Piece(orig, g[k], HeadersLen(item)) == Payload(orig[g[k]], HeadersLen(item))
    ensures |Piece(orig, g[k], HeadersLen(item))| == Meta(orig, item, g[k]).gsoSize <= item.gsoSize as int
    ensures k < |g| - 1 ==> |Piece(orig, g[k], HeadersLen(item))| == item.gsoSize as int
  {
    hide ParseTcp, IsTcpCandidate, Contents, Sound;
    assert PieceOk(orig, item, g, k);
    MemberPayload(orig, item, g[k]);
  }

  /** Segment `k` of a merged packet carries the payload of the `k`-th merged packet. */
  lemma MergedData(orig: seq<Bytes>, pkt: Bytes, g: seq<nat>, item: Item, k: nat)
    requires Tracks(orig, pkt, g, item) && k < |g|
    ensures SegmentStart(HdrOf(item), k) <= |pkt| && g[k] < |orig|
    ensures SegmentData(pkt, HdrOf(item), k) == Payload(orig[g[k]], HeadersLen(item))
  {
    hide Pieces, Payload, Piece, Meta, ChunkStart, Payloads;
    var hl, full := HeadersLen(item), item.gsoSize as int;
    forall i | 0 <= i < |g|
      ensures g[i] < |orig| && |Piece(orig, g[i], hl)| <= full && (i < |g| - 1 ==> |Piece(orig, g[i], hl)| == full)
      ensures Piece(orig, g[i], hl) == Payload(orig[g[i]], hl)
    {
      PieceLengths(orig, pkt, g, item, i);
    }
    PayloadChunk(orig, g, hl, full, k);
    ChunkStartIsMultiple(full, k);
    var all, lo := Payloads(orig, g, hl), ChunkStart(full, k);
    var hi := Min(lo + full, |all|);
    SliceShift(pkt, hl, all, lo, hi);
  }

  lemma SliceShift(a: Bytes, from: nat, b: Bytes, lo: nat, hi: nat)
    requires from <= |a| && a[from..] == b && lo <= hi <= |b|
    ensures a[from + lo..from + hi] == b[lo..hi]
  {
    forall i | lo <= i < hi
      ensures a[from + i] == b[i]
    {
      assert a[from..][i] == b[i];
    }
  }

  /** The sequence number of the `k`-th merged packet. */
  lemma PieceSeq(orig: seq<Bytes>, pkt: Bytes, g: seq<nat>, item: Item, k: nat)
    requires Tracks(orig, pkt, g, item) && k < |g|
    ensures g[k] < |orig| && item.iphLen + 8 <= |orig[g[k]]|
    ensures Be32(orig[g[k]], item.iphLen + 4) == (item.sentSeq + Offset(HdrOf(item), k)) % TWO32
  {
    hide Payload, Payloads, Sound, Contents;
    assert PieceOk(orig, item, g, k);
    MetaSeq(orig, item, g[k]);
  }

  lemma HeadSeq(orig: seq<Bytes>, pkt: Bytes, g: seq<nat>, item: Item)
    requires Tracks(orig, pkt, g, item) && g != []
    ensures g[0] < |orig| && item.iphLen + 8 <= |orig[g[0]]| && item.iphLen + 8 <= |pkt|
    ensures Be32(pkt, item.iphLen + 4) == Be32(orig[g[0]], item.iphLen + 4)
  {
    hide Payload, Payloads, Sound;
    assert PieceOk(orig, item, g, 0);
  }

  /** Segment `k` of a merged packet carries the sequence number of the `k`-th merged packet. */
  lemma MergedSeq(orig: seq<Bytes>, pkt: Bytes, g: seq<nat>, item: Item, k: nat)
    requires Tracks(orig, pkt, g, item) && k < |g|
    ensures g[k] < |orig| && item.iphLen + 8 <= |orig[g[k]]| && item.iphLen + 8 <= |pkt|
    ensures (Be32(pkt, item.iphLen + 4) + Offset(HdrOf(item), k)) % TWO32 == Be32(orig[g[k]], item.iphLen + 4)
  {
    PieceSeq(orig, pkt, g, item, 0);
    PieceSeq(orig, pkt, g, item, k);
    HeadSeq(orig, pkt, g, item);
    assert Offset(HdrOf(item), 0) == 0;
    hide Tracks, Offset, Be32;
    ModAdd(item.sentSeq, Offset(HdrOf(item), k), TWO32);
  }

  lemma MetaSeq(orig: seq<Bytes>, item: Item, j: nat)
    requires Member(orig, item, j)
    ensures item.iphLen + 8 <= |orig[j]| && Be32(orig[j], item.iphLen + 4) == Meta(orig, item, j).seqNum < TWO32
  {
    hide IsTcpCandidate;
  }

  /** The address, port and acknowledgement fields agree. */
  ghost predicate SameFlowFields(a: Bytes, b: Bytes, isV6: bool) {
    var at := if isV6 then 40 else 20;
    && at + 20 <= |a| && at + 20 <= |b|
    && SrcAddr(a, isV6) == SrcAddr(b, isV6) && DstAddr(a, isV6) == DstAddr(b, isV6)
    && Be16(a, at) == Be16(b, at) && Be16(a, at + 2) == Be16(b, at + 2) && Be32(a, at + 8) == Be32(b, at + 8)
  }

  /** A byte of the address, port or acknowledgement fields. */
  predicate FlowByte(isV6: bool, k: nat) {
    var at := if isV6 then 40 else 20;
    (SrcAddrAt(isV6) <= k < SrcAddrAt(isV6) + 2 * AddrSize(isV6)) || at <= k < at + 4 || at + 8 <= k < at + 12
  }

  lemma FlowBytesDecide(a: Bytes, b: Bytes, isV6: bool)
    requires (if isV6 then 60 else 40) <= |a| && (if isV6 then 60 else 40) <= |b|
    requires forall k: nat {:trigger FlowByte(isV6, k)} :: FlowByte(isV6, k) ==> a[k] == b[k]
    ensures SameFlowFields(a, b, isV6)
  {
    var at := if isV6 then 40 else 20;
    var s, z := SrcAddrAt(isV6), AddrSize(isV6);
    forall i | 0 <= i < z
      ensures SrcAddr(a, isV6)[i] == SrcAddr(b, isV6)[i] && DstAddr(a, isV6)[i] == DstAddr(b, isV6)[i]
    {
      assert FlowByte(isV6, s + i) && FlowByte(isV6, s + z + i);
    }
    assert FlowByte(isV6, at) && FlowByte(isV6, at + 1) && FlowByte(isV6, at + 2) && FlowByte(isV6, at + 3);
    assert FlowByte(isV6, at + 8) && FlowByte(isV6, at + 9) && FlowByte(isV6, at + 10) && FlowByte(isV6, at + 11);
  }

  lemma SegmentFlow(pkt: Bytes, item: Item, out: Bytes, head: Bytes, k: nat, seg: Bytes)
    requires IsAccounted(pkt, item, out) && HeadOk(pkt, head, item) && Splittable(out, HdrOf(item), item.key.isV6)
    requires SegmentStart(HdrOf(item), k) <= |out| && IsSegment(out, HdrOf(item), item.key.isV6, k, seg)
    ensures SameFlowFields(seg, head, item.key.isV6)
  {
    hide HasValidChecksum, IpHeaderOk, TransportOk, ChecksumValue, PseudoSum;
    var isV6 := item.key.isV6;
    forall b: nat | FlowByte(isV6, b)
      ensures b < |seg| && b < |head| && seg[b] == head[b]
    {
      assert CopiedHeaderByte(HdrOf(item), isV6, b);
      assert Untouched(item, b);
      assert out[b] == pkt[b];
    }
    FlowBytesDecide(seg, head, isV6);
  }

  lemma MembersShareFlow(orig: seq<Bytes>, item: Item, i: nat, j: nat)
    requires Member(orig, item, i) && Member(orig, item, j)
    ensures SameFlowFields(orig[i], orig[j], item.key.isV6)
  {
    hide Payload;
  }

  lemma SegmentFacts(pkt: Bytes, item: Item, out: Bytes, k: nat, seg: Bytes)
    requires IsAccounted(pkt, item, out) && Splittable(out, HdrOf(item), item.key.isV6)
    requires SegmentStart(HdrOf(item), k) <= |out| && IsSegment(out, HdrOf(item), item.key.isV6, k, seg)
    ensures |seg| == HeadersLen(item) + |SegmentData(pkt, HdrOf(item), k)|
    ensures seg[HeadersLen(item)..] == SegmentData(pkt, HdrOf(item), k)
    ensures Be32(seg, item.iphLen + 4) == (Be32(pkt, item.iphLen + 4) + Offset(HdrOf(item), k)) % TWO32
  {
    hide HasValidChecksum, IpHeaderOk, ChecksumValue, PseudoSum, Offset, IsAccounted;
    AccountedPayload(pkt, item, out);
    assert |out| == |pkt| && ItemShape(item) by { AccountedLength(pkt, item, out); }
    var lo := SegmentStart(HdrOf(item), k);
    var hi := Min(lo + item.gsoSize as int, |pkt|);
    SliceOfSuffix(out, pkt, HeadersLen(item), lo, hi);
  }

  lemma SliceOfSuffix(a: Bytes, b: Bytes, from: nat, lo: nat, hi: nat)
    requires |a| == |b| && from <= lo <= hi <= |a| && a[from..] == b[from..]
    ensures a[lo..hi] == b[lo..hi]
  {
    forall i | lo <= i < hi
      ensures a[i] == b[i]
    {
      assert a[i] == a[from..][i - from] && b[i] == b[from..][i - from];
    }
  }

  lemma AccountedLength(pkt: Bytes, item: Item, out: Bytes)
    requires IsAccounted(pkt, item, out)
    ensures |out| == |pkt| && ItemShape(item) && HeadersLen(item) < |pkt|
  {
  }

  lemma PieceSize(orig: seq<Bytes>, pkt: Bytes, g: seq<nat>, item: Item, k: nat)
    requires Tracks(orig, pkt, g, item) && k < |g|
    ensures g[k] < |orig| && HeadersLen(item) <= |orig[g[k]]|
    ensures g[0] < |orig| && HeadOk(pkt, orig[g[0]], item)
    ensures Member(orig, item, g[0]) && Member(orig, item, g[k])
  {
    hide ParseTcp, IsTcpCandidate, Sound, Payloads;
    assert PieceOk(orig, item, g, 0) && PieceOk(orig, item, g, k);
    MemberPayload(orig, item, g[k]);
  }

  /** Segmenting a merged packet with its recorded size gives back every merged packet's payload,
      sequence number, length, addresses, ports and acknowledgement number, in sequence order. */
  lemma GsoUndoesGro(orig: seq<Bytes>, pkt: Bytes, g: seq<nat>, item: Item, out: Bytes, k: nat, seg: Bytes)
    requires Tracks(orig, pkt, g, item) && IsAccounted(pkt, item, out) && k < |g|
    requires Splittable(out, HdrOf(item), item.key.isV6) && SegmentStart(HdrOf(item), k) <= |out|
    requires IsSegment(out, HdrOf(item), item.key.isV6, k, seg)
    ensures SegmentCount(out, HdrOf(item), |g|)
    ensures g[k] < |orig| && |seg| == |orig[g[k]]| >= HeadersLen(item)
    ensures seg[HeadersLen(item)..] == orig[g[k]][HeadersLen(item)..]
    ensures Be32(seg, item.iphLen + 4) == Be32(orig[g[k]], item.iphLen + 4)
    ensures SameFlowFields(seg, orig[g[k]], item.key.isV6)
  {
    hide Tracks, IsAccounted, IsSegment, SegmentData, Member, SameFlowFields, Offset, HeadOk;
    AccountedLength(pkt, item, out);
    MergedCount(orig, pkt, g, item);
    MergedData(orig, pkt, g, item, k);
    MergedSeq(orig, pkt, g, item, k);
    PieceSize(orig, pkt, g, item, k);
    SegmentFacts(pkt, item, out, k, seg);
    SegmentFlow(pkt, item, out, orig[g[0]], k, seg);
    MembersShareFlow(orig, item, g[0], g[k]);
    FlowTransitive(seg, orig[g[0]], orig[g[k]], item.key.isV6);
  }

  lemma FlowTransitive(a: Bytes, b: Bytes, c: Bytes, isV6: bool)
    requires SameFlowFields(a, b, isV6) && SameFlowFields(b, c, isV6)
    ensures SameFlowFields(a, c, isV6)
  {
  }
}
