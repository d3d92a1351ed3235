/** The pure tests of receive coalescing: which packets are candidates, how they are read, and
    when two of them may be merged (wireguard/tun/offload_linux.go:60-95, 266-386, 531-586, 751-775). */
module GroPackets {
  import opened InternetChecksum
  import opened Options
  import opened Gso

  datatype FlowKey = FlowKey(srcAddr: Bytes, dstAddr: Bytes, srcPort: U16, dstPort: U16, rxAck: nat, isV6: bool)

  const TCP_FLAG_ACK: Byte := 0x10
  const TCP_FLAG_PSH: Byte := 0x08
  const MAX_UINT16 := 0xFFFF
  const VIRTIO_NET_HDR_LEN := 10

  datatype CoalesceResult = InsufficientCap | PshEnding | ItemInvalidCsum | PktInvalidCsum | CoalesceSuccess

  datatype GroResult = Noop | TableInsert | Coalesced

  datatype Candidate = NotGroCandidate | Tcp4Candidate | Tcp6Candidate | Udp4Candidate | Udp6Candidate

  function PacketIsGroCandidate(b: Bytes, canUdpGro: bool): Candidate {
    if |b| < 28 then NotGroCandidate
    else if b[0] / 16 == 4 then
      if b[0] % 16 != 5 then NotGroCandidate
      else if b[9] == IPPROTO_TCP && |b| >= 40 then Tcp4Candidate
      else if b[9] == IPPROTO_UDP && canUdpGro then Udp4Candidate
      else NotGroCandidate
    else if b[0] / 16 == 6 then
      if b[6] == IPPROTO_TCP && |b| >= 60 then Tcp6Candidate
      else if b[6] == IPPROTO_UDP && |b| >= 48 && canUdpGro then Udp6Candidate
      else NotGroCandidate
    else NotGroCandidate
  }

  predicate IsTcpCandidate(b: Bytes, isV6: bool) {
    PacketIsGroCandidate(b, false) == if isV6 then Tcp6Candidate else Tcp4Candidate
  }

  predicate IsUdpCandidate(b: Bytes, isV6: bool) {
    PacketIsGroCandidate(b, true) == if isV6 then Udp6Candidate else Udp4Candidate
  }

  /** The packet is given to tcpGRO. */
  predicate IsTcp(b: Bytes) {
    IsTcpCandidate(b, false) || IsTcpCandidate(b, true)
  }

  /** The packet is given to udpGRO, if UDP packets are to be coalesced. */
  predicate IsUdp(b: Bytes) {
    IsUdpCandidate(b, false) || IsUdpCandidate(b, true)
  }

  /** A packet is for at most one of the two, and its protocol decides which. */
  lemma CandidateKinds(b: Bytes, canUdpGro: bool)
    ensures !(IsTcp(b) && IsUdp(b))
    ensures match PacketIsGroCandidate(b, canUdpGro)
            case NotGroCandidate => !IsTcp(b) && (canUdpGro ==> !IsUdp(b))
            case Tcp4Candidate => IsTcpCandidate(b, false)
            case Tcp6Candidate => IsTcpCandidate(b, true)
            case Udp4Candidate => canUdpGro && IsUdpCandidate(b, false)
            case Udp6Candidate => canUdpGro && IsUdpCandidate(b, true)
  {
  }

  function IpHeaderLen(b: Bytes, isV6: bool): nat
    requires |b| > 0
  {
    if isV6 then 40 else b[0] as int % 16 * 4
  }

  function FlowKeyOf(b: Bytes, isV6: bool): FlowKey
    requires IsTcpCandidate(b, isV6)
  {
    var at := IpHeaderLen(b, isV6);
    FlowKey(SrcAddr(b, isV6), DstAddr(b, isV6), Be16(b, at), Be16(b, at + 2), Be32(b, at + 8), isV6)
  }

  /** What tcpGRO reads from a packet. */
  datatype TcpMeta = TcpMeta(iphLen: nat, tcphLen: nat, seqNum: nat, pshSet: bool, gsoSize: nat, key: FlowKey)

  /** The checks of tcpGRO before it looks at the table; None is groResultNoop. */
  function ParseTcp(b: Bytes, isV6: bool): (m: Option<TcpMeta>)
    requires IsTcpCandidate(b, isV6)
    ensures m.Some? ==>
      var v := m.value;
      && v.iphLen == (if isV6 then 40 else 20) && 20 <= v.tcphLen <= 60
      && 1 <= v.gsoSize && v.iphLen + v.tcphLen + v.gsoSize == |b| <= 0xFFFF
      && v.seqNum < TWO32 && v.key.isV6 == isV6
  {
    var iphLen := IpHeaderLen(b, isV6);
    if |b| > MAX_UINT16 then None
    else if isV6 && Be16(b, 4) as int != |b| - iphLen then None
    else if !isV6 && Be16(b, 2) as int != |b| then None
    else
      var tcphLen := b[iphLen + 12] as int / 16 * 4;
      if tcphLen < 20 || tcphLen > 60 || |b| < iphLen + tcphLen then None
      else if !isV6 && (b[6] / 32 % 2 == 1 || b[6] % 32 != 0 || b[7] != 0) then None
      else
        var tcpFlags := b[iphLen + TCP_FLAGS_OFFSET];
        if tcpFlags != TCP_FLAG_ACK && tcpFlags != TCP_FLAG_ACK + TCP_FLAG_PSH then None
        else if |b| - tcphLen - iphLen < 1 then None
        else Some(TcpMeta(iphLen, tcphLen, Be32(b, iphLen + 4), tcpFlags != TCP_FLAG_ACK, |b| - tcphLen - iphLen, FlowKeyOf(b, isV6)))
  }

  /** The headers differ at most in fields that may differ inside one merged packet. */
  predicate IpHeadersCanCoalesce(a: Bytes, b: Bytes) {
    if |a| < 9 || |b| < 9 then false
    else if a[0] / 16 == 6 then a[0] == b[0] && a[1] / 16 == b[1] / 16 && a[7] == b[7]
    else a[1] == b[1] && a[6] / 32 == b[6] / 32 && a[8] == b[8]
  }

  datatype CanCoalesce = CoalescePrepend | CoalesceUnavailable | CoalesceAppend

  datatype Item = Item(key: FlowKey, sentSeq: nat, bufsIndex: nat, numMerged: U16, gsoSize: U16,
                       iphLen: nat, tcphLen: nat, pshSet: bool)

  /** The length of the merged payload, in 16-bit arithmetic, if all pieces have full size. */
  function LhsLen(item: Item): nat {
    (item.gsoSize as int + item.numMerged as int * item.gsoSize as int % 0x1_0000) % 0x1_0000
  }

  function TcpPacketsCanCoalesce(pkt: Bytes, m: TcpMeta, item: Item, target: Bytes): CanCoalesce
    requires m.iphLen + m.tcphLen <= |pkt| && item.iphLen == m.iphLen && item.iphLen + item.tcphLen <= |target|
    requires 20 <= m.tcphLen && 0 < item.gsoSize
  {
    if m.tcphLen != item.tcphLen then CoalesceUnavailable
    else if m.tcphLen > 20 && pkt[m.iphLen + 20..m.iphLen + m.tcphLen] != target[item.iphLen + 20..m.iphLen + m.tcphLen] then CoalesceUnavailable
    else if !IpHeadersCanCoalesce(pkt, target) then CoalesceUnavailable
    else if m.seqNum == (item.sentSeq + LhsLen(item)) % TWO32 then
      if item.pshSet then CoalesceUnavailable
      else if |target[m.iphLen + m.tcphLen..]| % item.gsoSize as int != 0 then CoalesceUnavailable
      else if m.gsoSize > item.gsoSize as int then CoalesceUnavailable
      else CoalesceAppend
    else if (m.seqNum + m.gsoSize) % TWO32 == item.sentSeq then
      if m.pshSet then CoalesceUnavailable
      else if m.gsoSize < item.gsoSize as int then CoalesceUnavailable
      else if m.gsoSize > item.gsoSize as int && item.numMerged > 0 then CoalesceUnavailable
      else CoalescePrepend
    else CoalesceUnavailable
  }
}
