/** Segmentation of a large packet (wireguard/tun/offload_linux.go:388-398, 901-983). */
module Gso {
  import opened Arith
  import opened InternetChecksum

  datatype GsoType = TcpV4 | TcpV6 | UdpL4

  /** The virtio header fields the code uses. */
  datatype VirtioNetHdr = VirtioNetHdr(gsoType: GsoType, hdrLen: U16, gsoSize: U16, csumStart: U16, csumOffset: U16)

  const IPPROTO_TCP: Byte := 6
  const IPPROTO_UDP: Byte := 17
  const IPV4_SRC_ADDR_OFFSET := 12
  const IPV6_SRC_ADDR_OFFSET := 8
  const TCP_FLAGS_OFFSET := 13
  const TWO32: int := 0x1_0000_0000

  function SrcAddrAt(isV6: bool): nat {
    if isV6 then IPV6_SRC_ADDR_OFFSET else IPV4_SRC_ADDR_OFFSET
  }

  function AddrSize(isV6: bool): nat {
    if isV6 then 16 else 4
  }

  function SrcAddr(pkt: Bytes, isV6: bool): Bytes
    requires |pkt| >= SrcAddrAt(isV6) + 2 * AddrSize(isV6)
  {
    pkt[SrcAddrAt(isV6)..SrcAddrAt(isV6) + AddrSize(isV6)]
  }

  function DstAddr(pkt: Bytes, isV6: bool): Bytes
    requires |pkt| >= SrcAddrAt(isV6) + 2 * AddrSize(isV6)
  {
    pkt[SrcAddrAt(isV6) + AddrSize(isV6)..SrcAddrAt(isV6) + 2 * AddrSize(isV6)]
  }

  // ---------- checksumValid ----------

  /** The transport checksum of the packet is right. */
  ghost predicate HasValidChecksum(pkt: Bytes, iphLen: nat, protocol: Byte, isV6: bool)
    requires SrcAddrAt(isV6) + 2 * AddrSize(isV6) <= iphLen <= |pkt| <= 0xFFFF
  {
    ChecksumValue(pkt[iphLen..], PseudoSum(protocol, SrcAddr(pkt, isV6), DstAddr(pkt, isV6), |pkt| - iphLen)) == 0xFFFF
  }

  method ChecksumValid(pkt: Bytes, iphLen: nat, protocol: Byte, isV6: bool) returns (valid: bool)
    requires SrcAddrAt(isV6) + 2 * AddrSize(isV6) <= iphLen <= |pkt| <= 0xFFFF
    ensures valid <==> HasValidChecksum(pkt, iphLen, protocol, isV6)
  {
    var lenForPseudo := |pkt| - iphLen;
    PseudoBound(protocol, SrcAddr(pkt, isV6), DstAddr(pkt, isV6), lenForPseudo);
    var cSum := PseudoHeaderChecksumNoFold(protocol, SrcAddr(pkt, isV6), DstAddr(pkt, isV6), lenForPseudo);
    var sum := Checksum(pkt[iphLen..], cSum);
    valid := 0xFFFF - sum == 0;
  }

  /** checksumValid accepts exactly the packets whose pseudo header and segment add up to all ones
      in one's complement arithmetic. */
  lemma ValidChecksumMeaning(pkt: Bytes, iphLen: nat, protocol: Byte, isV6: bool)
    requires SrcAddrAt(isV6) + 2 * AddrSize(isV6) <= iphLen <= |pkt| <= 0xFFFF
    ensures HasValidChecksum(pkt, iphLen, protocol, isV6) <==>
            OnesSum(PseudoBytes(protocol, SrcAddr(pkt, isV6), DstAddr(pkt, isV6), |pkt| - iphLen) + pkt[iphLen..], 0) == 0xFFFF
  {
    PseudoHeaderIsPrefix(protocol, SrcAddr(pkt, isV6), DstAddr(pkt, isV6), |pkt| - iphLen, pkt[iphLen..]);
  }

  // ---------- gsoSplit ----------

  /** What the callers of gsoSplit have established: complete headers, the transport checksum
      at its standard place, and a length that fits the IP length fields. */
  predicate Splittable(pkt: Bytes, hdr: VirtioNetHdr, isV6: bool) {
    && SrcAddrAt(isV6) + 2 * AddrSize(isV6) <= hdr.csumStart
    && hdr.hdrLen as int <= |pkt| <= 0xFFFF
    && StandardTransport(hdr)
  }

  function Protocol(hdr: VirtioNetHdr): Byte {
    if hdr.gsoType == UdpL4 then IPPROTO_UDP else IPPROTO_TCP
  }

  /** How far into the payload segment `i` starts. */
  function Offset(hdr: VirtioNetHdr, i: nat): nat {
    i * hdr.gsoSize as int
  }

  function SegmentStart(hdr: VirtioNetHdr, i: nat): nat {
    hdr.hdrLen as int + Offset(hdr, i)
  }

  function Min(x: int, y: int): int {
    if x < y then x else y
  }

  /** The payload bytes of segment `i`. */
  function SegmentData(pkt: Bytes, hdr: VirtioNetHdr, i: nat): Bytes
    requires SegmentStart(hdr, i) <= |pkt|
  {
    pkt[SegmentStart(hdr, i)..Min(SegmentStart(hdr, i) + hdr.gsoSize as int, |pkt|)]
  }

  /** A byte of the headers that every segment takes over unchanged. */
  predicate CopiedHeaderByte(hdr: VirtioNetHdr, isV6: bool, k: nat) {
    && k < hdr.hdrLen as int
    && (k < hdr.csumStart as int ==> if isV6 then !(4 <= k < 6) else !(2 <= k < 6) && !(10 <= k < 12))
    && (k >= hdr.csumStart as int ==>
          var t := k - hdr.csumStart as int;
          if hdr.gsoType == UdpL4 then t < 4 else !(4 <= t < 8) && t != TCP_FLAGS_OFFSET && !(16 <= t < 18))
  }

  /** TCP flags of a segment: FIN and PSH stay on the last one only. */
  function SegmentFlags(flags: Byte, last: bool): Byte {
    if last then flags
    else
      var noFin := flags - flags % 2;
      if noFin / 8 % 2 == 1 then noFin - 8 else noFin
  }

  /** Bit `k` of a byte, counted from the lowest. */
  function Bit(x: Byte, k: nat): nat
    requires k < 8
  {
    x / [1, 2, 4, 8, 16, 32, 64, 128][k] % 2
  }

  /** The flags byte `got` of a segment of a packet with the flags byte `flags`: FIN, which is bit 0, and PSH, which is
      bit 3, are set on the last segment at most, and the other six bits are those of the packet. */
  predicate SegmentBits(flags: Byte, last: bool, got: Byte) {
    if last then got == flags
    else Bit(got, 0) == 0 && Bit(got, 3) == 0 && forall k: nat {:trigger Bit(got, k)} :: k < 8 && k != 0 && k != 3 ==> Bit(got, k) == Bit(flags, k)
  }

  lemma FlagBits(flags: Byte, last: bool)
    ensures SegmentBits(flags, last, SegmentFlags(flags, last))
  {
    var got := SegmentFlags(flags, last);
    if !last {
      forall k: nat {:trigger Bit(got, k)} | k < 8 && k != 0 && k != 3 ensures Bit(got, k) == Bit(flags, k) {
        OtherBits(flags, got, k);
      }
    }
  }

  lemma OtherBits(flags: Byte, got: Byte, k: nat)
    requires got == SegmentFlags(flags, false) && k < 8 && k != 0 && k != 3
    ensures Bit(got, k) == Bit(flags, k)
  {
    var noFin := flags - flags % 2;
    NoFinBits(flags, k);
    if noFin / 8 % 2 == 1 {
      NoPshBits(noFin, k);
    }
  }

  lemma NoFinBits(x: Byte, k: nat)
    requires 0 < k < 8
    ensures Bit(x - x % 2, k) == Bit(x, k)
  {
    assert (x - x % 2) / 2 == x / 2;
    Halved(x, k);
    Halved(x - x % 2, k);
  }

  /** Bit `k` is bit `k - 1` of the half. */
  lemma Halved(x: Byte, k: nat)
    requires 0 < k < 8
    ensures Bit(x, k) == Bit(x / 2, k - 1)
  {
  }

  lemma LowBits(x: Byte, k: nat)
    requires k < 3 && x >= 8
    ensures Bit(x - 8, k) == Bit(x, k)
  {
    match k
    case 0 => assert x - 8 == x - 2 * 4;
    case 1 => assert (x - 8) / 2 == x / 2 - 2 * 2;
    case 2 => assert (x - 8) / 4 == x / 4 - 2;
  }

  lemma Eighth(x: Byte, k: nat)
    requires 3 <= k < 8
    ensures Bit(x, k) == Bit(x / 8, k - 3)
  {
    Halved(x, k);
    Halved(x / 2, k - 1);
    Halved(x / 4, k - 2);
  }

  lemma NoPshBits(x: Byte, k: nat)
    requires x / 8 % 2 == 1 && k < 8 && k != 3
    ensures Bit(x - 8, k) == Bit(x, k)
  {
    hide Bit;
    if k < 3 {
      LowBits(x, k);
    } else {
      Eighth(x, k);
      Eighth(x - 8, k);
      NoFinBits(x / 8, k - 3);
    }
  }

  /** Everything the other end can observe about segment `i` of the packet. */
  ghost predicate IsSegment(pkt: Bytes, hdr: VirtioNetHdr, isV6: bool, i: nat, out: Bytes)
    requires Splittable(pkt, hdr, isV6) && SegmentStart(hdr, i) <= |pkt|
  {
    && |out| == hdr.hdrLen as int + |SegmentData(pkt, hdr, i)| <= 0xFFFF
    && out[hdr.hdrLen..] == SegmentData(pkt, hdr, i)
    && (forall k: nat :: CopiedHeaderByte(hdr, isV6, k) ==> out[k] == pkt[k])
    && IpHeaderOk(pkt, hdr, isV6, i, out)
    && TransportOk(pkt, hdr, i, out)
    && HasValidChecksum(out, hdr.csumStart as int, Protocol(hdr), isV6)
    && Be16(out, hdr.csumStart as int + hdr.csumOffset as int) != 0xFFFF
  }

  /** The IP length field, the IPv4 ID and the IPv4 header checksum of a segment. */
  ghost predicate IpHeaderOk(pkt: Bytes, hdr: VirtioNetHdr, isV6: bool, i: nat, out: Bytes)
    requires Splittable(pkt, hdr, isV6) && hdr.hdrLen as int <= |out|
  {
    if isV6 then Be16(out, 4) as int == |out| - hdr.csumStart as int
    else
      && Be16(out, 2) as int == |out|
      && Be16(out, 4) as int == (Be16(pkt, 4) as int + i) % 0x1_0000
      && ChecksumValue(out[..hdr.csumStart], 0) == 0xFFFF && Be16(out, 10) != 0xFFFF
  }

  /** The TCP sequence number and flags, or the UDP length, of a segment. */
  ghost predicate TransportOk(pkt: Bytes, hdr: VirtioNetHdr, i: nat, out: Bytes)
    requires StandardTransport(hdr) && hdr.hdrLen as int <= |out| && hdr.hdrLen as int <= |pkt|
  {
    var at := hdr.csumStart as int;
    if hdr.gsoType == UdpL4 then Be16(out, at + 4) as int == |out| - at
    else
      && Be32(out, at + 4) == (Be32(pkt, at + 4) + Offset(hdr, i)) % TWO32
      && out[at + TCP_FLAGS_OFFSET]
         == SegmentFlags(pkt[at + TCP_FLAGS_OFFSET], SegmentStart(hdr, i) + hdr.gsoSize as int >= |pkt|)
  }

  /** `ip` is the IP header of segment `i`, made from the input's headers `hdrs`. */
  ghost predicate IsIpHeader(hdrs: Bytes, hdr: VirtioNetHdr, isV6: bool, i: nat, totalLen: nat, ip: Bytes) {
    && SrcAddrAt(isV6) + 2 * AddrSize(isV6) <= hdr.csumStart as int == |ip| <= |hdrs|
    && (forall k: nat :: k < |ip| && (if isV6 then !(4 <= k < 6) else !(2 <= k < 6) && !(10 <= k < 12)) ==> ip[k] == hdrs[k])
    && if isV6 then Be16(ip, 4) as int == totalLen - hdr.csumStart as int
       else
         && Be16(ip, 2) as int == totalLen
         && Be16(ip, 4) as int == (Be16(hdrs, 4) as int + i) % 0x1_0000
         && ChecksumValue(ip, 0) == 0xFFFF && Be16(ip, 10) != 0xFFFF
  }

  method MakeIpHeader(hdrs: Bytes, hdr: VirtioNetHdr, isV6: bool, i: nat, totalLen: nat) returns (out: Bytes)
    requires SrcAddrAt(isV6) + 2 * AddrSize(isV6) <= hdr.csumStart as int <= |hdrs|
    requires hdr.csumStart as int <= totalLen <= 0xFFFF && (!isV6 ==> Be16(hdrs, 10) == 0)
    ensures IsIpHeader(hdrs, hdr, isV6, i, totalLen, out)
  {
    out := hdrs[..hdr.csumStart];
    if !isV6 {
      if i > 0 {
        var id := (Be16(out, 4) as int + i) % 0x1_0000;
        out := Put16(out, 4, id);
      }
      out := Put16(out, 2, totalLen);
      var sum := Checksum(out, 0);
      FillChecksum(out, 10, 0);
      assert sum > 0 by {
        Sum16Field(out, 2);
        ChecksumNotZero(out, 0);
      }
      out := Put16(out, 10, 0xFFFF - sum);
    } else {
      out := Put16(out, 4, totalLen - hdr.csumStart as int);
    }
  }

  /** `hdr.gsoSize*uint16(i)` in 16-bit arithmetic. */
  function WrappedOffset(hdr: VirtioNetHdr, i: nat): nat {
    (hdr.gsoSize as int * (i % 0x1_0000)) % 0x1_0000
  }

  /** Inside a packet it does not wrap. */
  lemma OffsetNoWrap(hdr: VirtioNetHdr, i: nat)
    requires Offset(hdr, i) <= 0xFFFF
    ensures WrappedOffset(hdr, i) == Offset(hdr, i)
  {
    var size := hdr.gsoSize as int;
    if size > 0 {
      MulMonotone(1, size, i);
      DivModUnique(i, 0, i, 0x1_0000);
      assert size * i == i * size;
      DivModUnique(i * size, 0, i * size, 0x1_0000);
    }
  }

  /** Complete transport headers with the checksum field at its standard place. */
  predicate StandardTransport(hdr: VirtioNetHdr) {
    if hdr.gsoType == UdpL4 then hdr.hdrLen as int == hdr.csumStart as int + 8 && hdr.csumOffset == 6
    else hdr.hdrLen as int >= hdr.csumStart as int + 20 && hdr.csumOffset == 16
  }

  /** `t` is the transport header of the segment at this offset, its checksum still zero. */
  ghost predicate IsTransportHeader(hdrs: Bytes, hdr: VirtioNetHdr, offset: nat, dataLen: nat, last: bool, t: Bytes)
    requires StandardTransport(hdr) && hdr.hdrLen as int <= |hdrs|
  {
    var at := hdr.csumStart as int;
    && |t| == hdr.hdrLen as int - at
    && Be16(t, hdr.csumOffset as int) == 0
    && if hdr.gsoType == UdpL4 then
         && Be16(t, 4) as int == dataLen + 8
         && (forall k :: 0 <= k < 4 ==> t[k] == hdrs[at + k])
       else
         && Be32(t, 4) == (Be32(hdrs, at + 4) + offset) % TWO32
         && t[TCP_FLAGS_OFFSET] == SegmentFlags(hdrs[at + TCP_FLAGS_OFFSET], last)
         && (forall k :: 0 <= k < |t| && !(4 <= k < 8) && k != TCP_FLAGS_OFFSET ==> t[k] == hdrs[at + k])
  }

  method MakeTransportHeader(hdrs: Bytes, hdr: VirtioNetHdr, offset: nat, dataLen: nat, last: bool) returns (out: Bytes)
    requires StandardTransport(hdr) && hdr.hdrLen as int <= |hdrs|
    requires dataLen + 8 <= 0xFFFF
    requires Be16(hdrs, hdr.csumStart as int + hdr.csumOffset as int) == 0
    ensures IsTransportHeader(hdrs, hdr, offset, dataLen, last, out)
  {
    out := hdrs[hdr.csumStart..hdr.hdrLen];
    if hdr.gsoType != UdpL4 {
      var firstTCPSeqNum := Be32(hdrs, hdr.csumStart as int + 4);
      var tcpSeq := (firstTCPSeqNum + offset) % TWO32;
      out := Put32(out, 4, tcpSeq);
      if !last {
        out := out[TCP_FLAGS_OFFSET := SegmentFlags(out[TCP_FLAGS_OFFSET], false)];
      }
    } else {
      out := Put16(out, 4, (dataLen + (hdr.hdrLen as int - hdr.csumStart as int)) % 0x1_0000);
    }
  }

  /** The input with its IPv4 header checksum and its transport checksum set to zero. */
  function ClearChecksums(pkt: Bytes, hdr: VirtioNetHdr, isV6: bool): (r: Bytes)
    requires Splittable(pkt, hdr, isV6)
    ensures |r| == |pkt| && (!isV6 ==> Be16(r, 10) == 0) && Be16(r, hdr.csumStart as int + hdr.csumOffset as int) == 0
    ensures forall k: nat :: k < |pkt| && (!isV6 ==> !(10 <= k < 12)) && !(0 <= k - hdr.csumStart as int - hdr.csumOffset as int < 2) ==> r[k] == pkt[k]
  {
    var p := if isV6 then pkt else Put16(pkt, 10, 0);
    Put16(p, hdr.csumStart as int + hdr.csumOffset as int, 0)
  }

  /** Clearing the checksums leaves the payload alone. */
  lemma ClearedData(pkt: Bytes, hdr: VirtioNetHdr, isV6: bool, from: nat, to: nat)
    requires Splittable(pkt, hdr, isV6) && hdr.hdrLen as int <= from <= to <= |pkt|
    ensures ClearChecksums(pkt, hdr, isV6)[from..to] == pkt[from..to]
  {
    hide ClearChecksums;
  }

  /** Writing the checksum into the segment behind the IP header. */
  lemma PutInSegment(pkt: Bytes, at: nat, off: nat, v: nat, isV6: bool)
    requires SrcAddrAt(isV6) + 2 * AddrSize(isV6) <= at && at + off + 2 <= |pkt| && v < 0x1_0000
    ensures Put16(pkt, at + off, v)[at..] == Put16(pkt[at..], off, v)
    ensures SrcAddr(Put16(pkt, at + off, v), isV6) == SrcAddr(pkt, isV6) && DstAddr(Put16(pkt, at + off, v), isV6) == DstAddr(pkt, isV6)
  {
  }

  lemma AddrsShort(pkt: Bytes, isV6: bool)
    requires |pkt| >= SrcAddrAt(isV6) + 2 * AddrSize(isV6)
    ensures |SrcAddr(pkt, isV6)| <= 16 && |DstAddr(pkt, isV6)| <= 16
  {
  }

  lemma FieldInSegment(pkt: Bytes, at: nat, off: nat)
    requires at + off + 2 <= |pkt|
    ensures Be16(pkt[at..], off) == Be16(pkt, at + off)
  {
  }

  lemma PseudoPositive(protocol: Byte, src: Bytes, dst: Bytes, length: U16)
    requires protocol > 0
    ensures PseudoSum(protocol, src, dst, length) > 0
  {
    hide Sum32;
  }

  /** What the complement of the sum does in the checksum field. */
  lemma FilledIn(pkt: Bytes, at: nat, off: nat, protocol: Byte, isV6: bool)
    requires SrcAddrAt(isV6) + 2 * AddrSize(isV6) <= at && at + off + 2 <= |pkt| <= 0xFFFF && off % 2 == 0
    requires Be16(pkt, at + off) == 0 && protocol > 0
    ensures var src, dst := SrcAddr(pkt, isV6), DstAddr(pkt, isV6);
            var pseudo := PseudoSum(protocol, src, dst, |pkt| - at);
            var sum := ChecksumValue(pkt[at..], pseudo);
            && |src| <= 16 && |dst| <= 16 && pseudo < 0x8000_0000_0000_0000 && sum > 0
            && HasValidChecksum(Put16(pkt, at + off, 0xFFFF - sum), at, protocol, isV6)
  {
    hide Put16, SrcAddr, DstAddr, ChecksumValue, PseudoSum, Be16;
    AddrsShort(pkt, isV6);
    var pseudo := PseudoSum(protocol, SrcAddr(pkt, isV6), DstAddr(pkt, isV6), |pkt| - at);
    FieldInSegment(pkt, at, off);
    PseudoPositive(protocol, SrcAddr(pkt, isV6), DstAddr(pkt, isV6), |pkt| - at);
    PseudoBound(protocol, SrcAddr(pkt, isV6), DstAddr(pkt, isV6), |pkt| - at);
    FillChecksum(pkt[at..], off, pseudo);
    ChecksumNotZero(pkt[at..], pseudo);
    PutInSegment(pkt, at, off, 0xFFFF - ChecksumValue(pkt[at..], pseudo), isV6);
  }

  /** Put the transport checksum into a segment whose checksum field is zero. */
  method FinishSegment(unsigned: Bytes, src: Bytes, dst: Bytes, hdr: VirtioNetHdr, isV6: bool) returns (out: Bytes)
    requires SrcAddrAt(isV6) + 2 * AddrSize(isV6) <= hdr.csumStart as int
    requires hdr.csumStart as int + hdr.csumOffset as int + 2 <= |unsigned| <= 0xFFFF && hdr.csumOffset % 2 == 0
    requires Be16(unsigned, hdr.csumStart as int + hdr.csumOffset as int) == 0
    requires src == SrcAddr(unsigned, isV6) && dst == DstAddr(unsigned, isV6)
    ensures |out| == |unsigned|
    ensures forall k :: 0 <= k < |out| && !(0 <= k - hdr.csumStart as int - hdr.csumOffset as int < 2) ==> out[k] == unsigned[k]
    ensures HasValidChecksum(out, hdr.csumStart as int, Protocol(hdr), isV6)
    ensures Be16(out, hdr.csumStart as int + hdr.csumOffset as int) != 0xFFFF
  {
    hide Put16, SrcAddr, DstAddr, ChecksumValue, PseudoSum, HasValidChecksum, Be16;
    var at := hdr.csumStart as int;
    var lenForPseudo := |unsigned| - at;
    FilledIn(unsigned, at, hdr.csumOffset as int, Protocol(hdr), isV6);
    var noFold := PseudoHeaderChecksumNoFold(Protocol(hdr), src, dst, lenForPseudo);
    var sum := Checksum(unsigned[at..], noFold);
    out := Put16(unsigned, at + hdr.csumOffset as int, 0xFFFF - sum);
  }

  /** A segment is its IP header, its transport header with the checksum filled in, and its data. */
  ghost predicate Assembled(hdr: VirtioNetHdr, ip: Bytes, t: Bytes, data: Bytes, out: Bytes)
    requires StandardTransport(hdr)
  {
    && |ip| == hdr.csumStart as int && |ip| + |t| == hdr.hdrLen as int && |out| == |ip| + |t| + |data|
    && (forall k :: 0 <= k < |ip| ==> out[k] == ip[k])
    && (forall k :: 0 <= k < |t| && !(0 <= k - hdr.csumOffset as int < 2) ==> out[|ip| + k] == t[k])
    && out[hdr.hdrLen..] == data
  }

  lemma AssembledFrom(hdr: VirtioNetHdr, ip: Bytes, t: Bytes, data: Bytes, out: Bytes)
    requires StandardTransport(hdr) && |ip| == hdr.csumStart as int && |ip| + |t| == hdr.hdrLen as int
    requires |out| == |ip + t + data|
    requires forall k :: 0 <= k < |out| && !(0 <= k - hdr.csumStart as int - hdr.csumOffset as int < 2) ==> out[k] == (ip + t + data)[k]
    ensures Assembled(hdr, ip, t, data, out)
  {
    forall k | 0 <= k < |t| && !(0 <= k - hdr.csumOffset as int < 2)
      ensures out[|ip| + k] == t[k]
    {
      assert out[|ip| + k] == (ip + t + data)[|ip| + k];
    }
    assert out[hdr.hdrLen..] == (ip + t + data)[hdr.hdrLen..];
  }

  /** Before the transport checksum is filled in, the addresses are the input's and the field is zero. */
  lemma UnsignedReady(cleared: Bytes, hdr: VirtioNetHdr, isV6: bool, i: nat, totalLen: nat, last: bool,
                      ip: Bytes, t: Bytes, data: Bytes)
    requires StandardTransport(hdr) && hdr.hdrLen as int <= |cleared|
    requires IsIpHeader(cleared, hdr, isV6, i, totalLen, ip) && IsTransportHeader(cleared, hdr, Offset(hdr, i), |data|, last, t)
    ensures var unsigned := ip + t + data;
            && SrcAddr(unsigned, isV6) == SrcAddr(cleared, isV6) && DstAddr(unsigned, isV6) == DstAddr(cleared, isV6)
            && |ip| + |t| == hdr.hdrLen as int && Be16(unsigned, hdr.csumStart as int + hdr.csumOffset as int) == 0
  {
    hide ChecksumValue;
    var unsigned := ip + t + data;
    assert unsigned[|ip| + hdr.csumOffset as int] == t[hdr.csumOffset];
    assert unsigned[|ip| + hdr.csumOffset as int + 1] == t[hdr.csumOffset as int + 1];
  }

  lemma AssembledIp(pkt: Bytes, hdr: VirtioNetHdr, isV6: bool, i: nat, ip: Bytes, t: Bytes, data: Bytes, out: Bytes)
    requires Splittable(pkt, hdr, isV6) && Assembled(hdr, ip, t, data, out)
    requires IsIpHeader(ClearChecksums(pkt, hdr, isV6), hdr, isV6, i, |out|, ip)
    ensures IpHeaderOk(pkt, hdr, isV6, i, out)
  {
    assert out[..hdr.csumStart] == ip;
  }

  lemma AssembledTransport(pkt: Bytes, hdr: VirtioNetHdr, isV6: bool, i: nat, ip: Bytes, t: Bytes, data: Bytes, out: Bytes)
    requires Splittable(pkt, hdr, isV6) && Assembled(hdr, ip, t, data, out) && SegmentStart(hdr, i) <= |pkt|
    requires IsTransportHeader(ClearChecksums(pkt, hdr, isV6), hdr, Offset(hdr, i), |data|, SegmentStart(hdr, i) + hdr.gsoSize as int >= |pkt|, t)
    ensures TransportOk(pkt, hdr, i, out)
  {
    hide ClearChecksums, Put16, SegmentFlags;
  }

  lemma AssembledCopies(pkt: Bytes, hdr: VirtioNetHdr, isV6: bool, i: nat, totalLen: nat, last: bool,
                        ip: Bytes, t: Bytes, data: Bytes, out: Bytes, k: nat)
    requires Splittable(pkt, hdr, isV6) && Assembled(hdr, ip, t, data, out)
    requires IsIpHeader(ClearChecksums(pkt, hdr, isV6), hdr, isV6, i, totalLen, ip)
    requires IsTransportHeader(ClearChecksums(pkt, hdr, isV6), hdr, Offset(hdr, i), |data|, last, t)
    requires CopiedHeaderByte(hdr, isV6, k)
    ensures out[k] == pkt[k]
  {
    hide ClearChecksums, Put16, SegmentFlags;
    if k >= hdr.csumStart as int {
      assert out[|ip| + (k - |ip|)] == t[k - |ip|];
    }
  }

  lemma IsAssembled(pkt: Bytes, hdr: VirtioNetHdr, isV6: bool, i: nat, ip: Bytes, t: Bytes, data: Bytes, out: Bytes)
    requires Splittable(pkt, hdr, isV6) && SegmentStart(hdr, i) < |pkt| && data == SegmentData(pkt, hdr, i)
    requires Assembled(hdr, ip, t, data, out) && |out| <= 0xFFFF
    requires IsIpHeader(ClearChecksums(pkt, hdr, isV6), hdr, isV6, i, |out|, ip)
    requires IsTransportHeader(ClearChecksums(pkt, hdr, isV6), hdr, Offset(hdr, i), |data|, SegmentStart(hdr, i) + hdr.gsoSize as int >= |pkt|, t)
    requires HasValidChecksum(out, hdr.csumStart as int, Protocol(hdr), isV6)
    requires Be16(out, hdr.csumStart as int + hdr.csumOffset as int) != 0xFFFF
    ensures IsSegment(pkt, hdr, isV6, i, out)
  {
    hide ClearChecksums, IsIpHeader, IsTransportHeader, IpHeaderOk, TransportOk, HasValidChecksum;
    AssembledIp(pkt, hdr, isV6, i, ip, t, data, out);
    AssembledTransport(pkt, hdr, isV6, i, ip, t, data, out);
    forall k: nat | CopiedHeaderByte(hdr, isV6, k)
      ensures out[k] == pkt[k]
    {
      AssembledCopies(pkt, hdr, isV6, i, |out|, SegmentStart(hdr, i) + hdr.gsoSize as int >= |pkt|, ip, t, data, out, k);
    }
  }

  /** One round of the loop of gsoSplit. `cleared` is the input with both checksums zeroed. */
  method MakeSegment(cleared: Bytes, hdr: VirtioNetHdr, isV6: bool, i: nat, ghost pkt: Bytes) returns (out: Bytes)
    requires Splittable(pkt, hdr, isV6) && cleared == ClearChecksums(pkt, hdr, isV6) && SegmentStart(hdr, i) < |pkt|
    ensures IsSegment(pkt, hdr, isV6, i, out)
  {
    hide ClearChecksums, IsIpHeader, IsTransportHeader, IsSegment, Assembled, HasValidChecksum, SrcAddr, DstAddr, Offset, WrappedOffset;
    var start := SegmentStart(hdr, i);
    var end := Min(start + hdr.gsoSize as int, |cleared|);
    var data := cleared[start..end];
    ClearedData(pkt, hdr, isV6, start, end);
    var ip := MakeIpHeader(cleared, hdr, isV6, i, hdr.hdrLen as int + end - start);
    OffsetNoWrap(hdr, i);
    var transport := MakeTransportHeader(cleared, hdr, WrappedOffset(hdr, i), end - start, end == |cleared|);
    UnsignedReady(cleared, hdr, isV6, i, hdr.hdrLen as int + end - start, end == |cleared|, ip, transport, data);
    out := FinishSegment(ip + transport + data, SrcAddr(cleared, isV6), DstAddr(cleared, isV6), hdr, isV6);
    AssembledFrom(hdr, ip, transport, data, out);
    IsAssembled(pkt, hdr, isV6, i, ip, transport, data, out);
  }

  /** The flags byte of segment `i`, bit by bit. */
  ghost predicate FlagsOk(pkt: Bytes, hdr: VirtioNetHdr, last: bool, out: Bytes) {
    var at := hdr.csumStart as int + TCP_FLAGS_OFFSET;
    hdr.gsoType != UdpL4 ==> at < |pkt| && at < |out| && SegmentBits(pkt[at], last, out[at])
  }

  lemma SegmentFlagBits(pkt: Bytes, hdr: VirtioNetHdr, isV6: bool, i: nat, out: Bytes)
    requires Splittable(pkt, hdr, isV6) && SegmentStart(hdr, i) < |pkt| && IsSegment(pkt, hdr, isV6, i, out)
    ensures FlagsOk(pkt, hdr, |pkt| <= SegmentStart(hdr, i + 1), out)
  {
    hide SegmentBits, SegmentFlags, HasValidChecksum, IpHeaderOk, Offset;
    SegmentStartMonotone(hdr, i, i);
    if hdr.gsoType != UdpL4 {
      FlagBits(pkt[hdr.csumStart as int + TCP_FLAGS_OFFSET], |pkt| <= SegmentStart(hdr, i + 1));
    }
  }

  /** The packet has exactly `n` segments. */
  ghost predicate SegmentCount(pkt: Bytes, hdr: VirtioNetHdr, n: nat) {
    |pkt| <= SegmentStart(hdr, n) && (n > 0 ==> SegmentStart(hdr, n - 1) < |pkt|)
  }

  /** Split `pkt` into the buffers. `outBuffs[i]` is what lies behind the output offset of buffer `i`. */
  method GsoSplit(pkt: Bytes, hdr: VirtioNetHdr, outBuffs: array<Bytes>, sizes: array<nat>, isV6: bool) returns (n: int, tooMany: bool)
    requires Splittable(pkt, hdr, isV6) && outBuffs.Length <= sizes.Length
    requires forall i :: 0 <= i < outBuffs.Length ==> |outBuffs[i]| >= hdr.hdrLen as int + hdr.gsoSize as int
    modifies outBuffs, sizes
    ensures tooMany <==> SegmentStart(hdr, outBuffs.Length) < |pkt|
    ensures if tooMany then n == outBuffs.Length - 1 else 0 <= n <= outBuffs.Length && SegmentCount(pkt, hdr, n)
    ensures forall i :: 0 <= i < (if tooMany then outBuffs.Length else n) ==> SegmentStart(hdr, i) < |pkt| && sizes[i] <= |outBuffs[i]|
    ensures forall i :: 0 <= i < (if tooMany then outBuffs.Length else n) ==> IsSegment(pkt, hdr, isV6, i, outBuffs[i][..sizes[i]])
    ensures forall i :: 0 <= i < (if tooMany then outBuffs.Length else n) ==> FlagsOk(pkt, hdr, !tooMany && i == n - 1, outBuffs[i][..sizes[i]])
  {
    hide IsSegment, ClearChecksums, SegmentStart, FlagsOk, Splittable;
    var cleared := ClearChecksums(pkt, hdr, isV6);
    var nextSegmentDataAt := hdr.hdrLen as int;
    var i := 0;
    SegmentStartZero(hdr);
    while nextSegmentDataAt < |cleared|
      invariant 0 <= i <= outBuffs.Length && nextSegmentDataAt == SegmentStart(hdr, i)
      invariant i > 0 ==> SegmentStart(hdr, i - 1) < |pkt|
      invariant forall k :: i <= k < outBuffs.Length ==> |outBuffs[k]| >= hdr.hdrLen as int + hdr.gsoSize as int
      invariant forall k :: 0 <= k < i ==> SegmentStart(hdr, k) < |pkt| && sizes[k] <= |outBuffs[k]|
      invariant forall k :: 0 <= k < i ==> IsSegment(pkt, hdr, isV6, k, outBuffs[k][..sizes[k]])
      decreases outBuffs.Length - i
    {
      if i == outBuffs.Length {
        AllFlags(pkt, hdr, isV6, i, outBuffs[..], sizes[..]);
        return i - 1, true;
      }
      var out := MakeSegment(cleared, hdr, isV6, i, pkt);
      SegmentLength(pkt, hdr, isV6, i, out);
      SegmentStartMonotone(hdr, i, i);
      sizes[i] := |out|;
      outBuffs[i] := out + outBuffs[i][|out|..];
      assert outBuffs[i][..sizes[i]] == out;
      nextSegmentDataAt := nextSegmentDataAt + hdr.gsoSize as int;
      i := i + 1;
    }
    SegmentStartMonotone(hdr, i, outBuffs.Length);
    AllFlags(pkt, hdr, isV6, i, outBuffs[..], sizes[..]);
    return i, false;
  }

  lemma AllFlags(pkt: Bytes, hdr: VirtioNetHdr, isV6: bool, n: nat, outBuffs: seq<Bytes>, sizes: seq<nat>)
    requires Splittable(pkt, hdr, isV6) && n <= |outBuffs| && n <= |sizes|
    requires forall k :: 0 <= k < n ==> SegmentStart(hdr, k) < |pkt| && sizes[k] <= |outBuffs[k]| && IsSegment(pkt, hdr, isV6, k, outBuffs[k][..sizes[k]])
    ensures forall k :: 0 <= k < n ==> FlagsOk(pkt, hdr, k == n - 1 && |pkt| <= SegmentStart(hdr, n), outBuffs[k][..sizes[k]])
  {
    hide IsSegment, SegmentStart, FlagsOk;
    forall k | 0 <= k < n ensures FlagsOk(pkt, hdr, k == n - 1 && |pkt| <= SegmentStart(hdr, n), outBuffs[k][..sizes[k]]) {
      SegmentFlagBits(pkt, hdr, isV6, k, outBuffs[k][..sizes[k]]);
      SegmentStartMonotone(hdr, k + 1, n);
      assert k < n - 1 ==> SegmentStart(hdr, k + 1) < |pkt|;
    }
  }

  lemma SegmentLength(pkt: Bytes, hdr: VirtioNetHdr, isV6: bool, i: nat, out: Bytes)
    requires Splittable(pkt, hdr, isV6) && SegmentStart(hdr, i) < |pkt| && IsSegment(pkt, hdr, isV6, i, out)
    ensures |out| <= hdr.hdrLen as int + hdr.gsoSize as int
  {
  }

  lemma SegmentStartZero(hdr: VirtioNetHdr)
    ensures SegmentStart(hdr, 0) == hdr.hdrLen as int
  {
  }

  lemma SegmentStartMonotone(hdr: VirtioNetHdr, i: nat, j: nat)
    requires i <= j
    ensures SegmentStart(hdr, i) <= SegmentStart(hdr, j)
    ensures SegmentStart(hdr, i + 1) == SegmentStart(hdr, i) + hdr.gsoSize as int
  {
    assert i * hdr.gsoSize as int <= j * hdr.gsoSize as int;
  }

  lemma SegmentCountUnique(pkt: Bytes, hdr: VirtioNetHdr, n: nat, m: nat)
    requires SegmentCount(pkt, hdr, n) && SegmentCount(pkt, hdr, m)
    ensures n == m
  {
    if n < m {
      SegmentStartMonotone(hdr, n, m - 1);
    } else if m < n {
      SegmentStartMonotone(hdr, m, n - 1);
    }
  }

  // ---------- conservation ----------

  /** The data of segments `i` to `n`, put end to end. */
  ghost function DataFrom(pkt: Bytes, hdr: VirtioNetHdr, i: nat, n: nat): Bytes
    requires i <= n && forall k :: i <= k < n ==> SegmentStart(hdr, k) <= |pkt|
    decreases n - i
  {
    if i == n then [] else SegmentData(pkt, hdr, i) + DataFrom(pkt, hdr, i + 1, n)
  }

  lemma SegmentSize(pkt: Bytes, hdr: VirtioNetHdr, k: nat, n: nat)
    requires SegmentCount(pkt, hdr, n) && k < n
    ensures SegmentStart(hdr, k) < |pkt|
    ensures 0 < |SegmentData(pkt, hdr, k)| && (k < n - 1 ==> |SegmentData(pkt, hdr, k)| == hdr.gsoSize as int)
    ensures k == n - 1 ==> SegmentStart(hdr, k) + |SegmentData(pkt, hdr, k)| == |pkt|
    ensures k < n - 1 ==> SegmentStart(hdr, k) + |SegmentData(pkt, hdr, k)| == SegmentStart(hdr, k + 1)
  {
    hide SegmentStart;
    SegmentStartMonotone(hdr, k, n - 1);
    SegmentStartMonotone(hdr, n - 1, n - 1);
    if k < n - 1 {
      SegmentStartMonotone(hdr, k + 1, n - 1);
    }
  }

  /** The segments' data is the payload, cut into pieces of `gsoSize` bytes of which only the last one
      may be shorter, and no piece is empty. */
  lemma {:induction false} SegmentsConserveData(pkt: Bytes, hdr: VirtioNetHdr, i: nat, n: nat)
    requires SegmentCount(pkt, hdr, n) && i <= n && SegmentStart(hdr, i) <= |pkt|
    ensures forall k :: i <= k < n ==> SegmentStart(hdr, k) < |pkt|
    ensures DataFrom(pkt, hdr, i, n) == pkt[SegmentStart(hdr, i)..]
    ensures forall k :: i <= k < n ==> 0 < |SegmentData(pkt, hdr, k)| && (k < n - 1 ==> |SegmentData(pkt, hdr, k)| == hdr.gsoSize as int)
    decreases n - i
  {
    hide SegmentStart;
    if i < n {
      SegmentSize(pkt, hdr, i, n);
      if i + 1 < n {
        SegmentSize(pkt, hdr, i + 1, n);
        SegmentsConserveData(pkt, hdr, i + 1, n);
      }
    } else {
      SegmentsEnd(pkt, hdr, n);
    }
  }

  lemma SegmentsEnd(pkt: Bytes, hdr: VirtioNetHdr, n: nat)
    requires SegmentCount(pkt, hdr, n) && SegmentStart(hdr, n) <= |pkt|
    ensures SegmentStart(hdr, n) == |pkt|
  {
  }
}
