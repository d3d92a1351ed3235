/** TCP and UDP over IPv4 and IPv6 as the standards lay them out, byte by byte, and what tcpGRO takes for plain data: RFC
    791 section 3.1, RFC 8200 section 3, RFC 9293 section 3.1, RFC 768 (wireguard/tun/offload_linux.go:531-586,
    751-775). */
module PacketFields {
  import opened Arith
  import opened InternetChecksum
  import opened Options
  import opened GroPackets

  const ACK: Byte := 0x10
  const PSH_ACK: Byte := 0x18

  /** Where the transport header starts in an IP packet without options or extension headers. */
  function DataAt(isV6: bool): nat {
    if isV6 then 40 else 20
  }

  /** A whole, unfragmented IP packet without options that carries this protocol. */
  predicate WholeIp(b: Bytes, isV6: bool, protocol: Byte) {
    && DataAt(isV6) <= |b| <= 0xFFFF
    && if isV6 then b[0] / 16 == 6 && b[6] == protocol && Be16(b, 4) as int == |b| - 40
       else b[0] == 0x45 && b[9] == protocol && Be16(b, 2) as int == |b| && Be16(b, 6) % 0x4000 == 0
  }

  /** The IP fields that every segment of a merged packet gets agree: type of service, fragment flags and time to live,
      or traffic class and hop limit. */
  predicate SameIpFields(a: Bytes, b: Bytes, isV6: bool)
    requires DataAt(isV6) <= |a| && DataAt(isV6) <= |b|
  {
    if isV6 then a[0] % 16 == b[0] % 16 && a[1] / 16 == b[1] / 16 && a[7] == b[7]
    else a[1] == b[1] && a[6] == b[6] && a[8] == b[8]
  }

  /** ipHeadersCanCoalesce compares exactly these. */
  lemma ComparesIp(b: Bytes, head: Bytes, isV6: bool, protocol: Byte)
    requires WholeIp(b, isV6, protocol) && WholeIp(head, isV6, protocol)
    ensures IpHeadersCanCoalesce(b, head) <==> SameIpFields(head, b, isV6)
  {
    if isV6 {
      assert b[0] == 16 * 6 + b[0] % 16 && head[0] == 16 * 6 + head[0] % 16;
    } else {
      NoFragment(b);
      NoFragment(head);
      assert b[6] == 32 * (b[6] / 32) && head[6] == 32 * (head[6] / 32);
    }
  }

  // ---------- TCP ----------

  /** The length of the TCP header, options included. */
  function TcpLen(b: Bytes, isV6: bool): nat
    requires DataAt(isV6) + 20 <= |b|
  {
    4 * (b[DataAt(isV6) + 12] as int / 16)
  }

  function Flags(b: Bytes, isV6: bool): Byte {
    if DataAt(isV6) + 13 < |b| then b[DataAt(isV6) + 13] else 0
  }

  function SeqNum(b: Bytes, isV6: bool): nat {
    if DataAt(isV6) + 8 <= |b| then Be32(b, DataAt(isV6) + 4) else 0
  }

  function DataLen(b: Bytes, isV6: bool): int {
    if DataAt(isV6) + 20 <= |b| then |b| - DataAt(isV6) - TcpLen(b, isV6) else 0
  }

  /** Data with no other flag than ACK and PSH. */
  predicate PlainTcp(b: Bytes, isV6: bool) {
    && WholeIp(b, isV6, 6) && DataAt(isV6) + 20 <= |b| && 20 <= TcpLen(b, isV6) && DataLen(b, isV6) > 0
    && (Flags(b, isV6) == ACK || Flags(b, isV6) == PSH_ACK)
  }

  /** Addresses, ports and acknowledgement number. */
  function Flow(b: Bytes, isV6: bool): FlowKey
    requires DataAt(isV6) + 20 <= |b|
  {
    if isV6 then FlowKey(b[8..24], b[24..40], Be16(b, 40), Be16(b, 42), Be32(b, 48), true)
    else FlowKey(b[12..16], b[16..20], Be16(b, 20), Be16(b, 22), Be32(b, 28), false)
  }

  lemma NoFragment(b: Bytes)
    requires |b| >= 8
    ensures Be16(b, 6) % 0x4000 == 0 <==> !(b[6] / 32 % 2 == 1 || b[6] % 32 != 0 || b[7] != 0)
  {
    FragmentBits(b[6], b[7]);
  }

  lemma FragmentBits(x: Byte, y: Byte)
    ensures (x * 256 + y) % 0x4000 == 0 <==> !(x / 32 % 2 == 1 || x % 32 != 0 || y != 0)
  {
    var q: int, r: int := x / 64, x % 64;
    DivModUnique(x * 256 + y, q, 256 * r + y, 0x4000);
    assert x / 32 == 2 * q + r / 32;
    assert x % 32 == r % 32;
  }

  lemma VersionAndLength(x: Byte)
    ensures x == 0x45 <==> x / 16 == 4 && x % 16 == 5
  {
  }

  /** tcpGRO looks for something to merge with exactly for plain data, and reads from it what is there. */
  lemma PlainTcpIff(b: Bytes, isV6: bool)
    ensures IsTcpCandidate(b, isV6) && ParseTcp(b, isV6).Some? <==> PlainTcp(b, isV6)
    ensures PlainTcp(b, isV6) ==>
              ParseTcp(b, isV6) == Some(TcpMeta(DataAt(isV6), TcpLen(b, isV6), SeqNum(b, isV6), Flags(b, isV6) == PSH_ACK, DataLen(b, isV6), Flow(b, isV6)))
  {
    hide Be16, Be32;
    if |b| > 0 {
      VersionAndLength(b[0]);
    }
    if |b| >= 8 {
      NoFragment(b);
    }
  }

  // ---------- UDP ----------

  function UdpDataLen(b: Bytes, isV6: bool): int {
    |b| - DataAt(isV6) - 8
  }

  /** A datagram with data. */
  predicate PlainUdp(b: Bytes, isV6: bool) {
    WholeIp(b, isV6, 17) && UdpDataLen(b, isV6) > 0
  }
}
