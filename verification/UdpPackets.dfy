/** Receive coalescing of UDP packets as a function of the packets seen so far
    (wireguard/tun/offload_linux.go:169-262, 310-332, 412-436, 751-859). */
module UdpPackets {
  import opened InternetChecksum
  import opened Options
  import opened Gso
  import opened GroPackets
  import opened GroGroups
  import Arith

  const UDPH_LEN := 8

  datatype UdpKey = UdpKey(srcAddr: Bytes, dstAddr: Bytes, srcPort: U16, dstPort: U16, isV6: bool)

  /** What udpGRO reads from a packet. */
  datatype UdpMeta = UdpMeta(iphLen: nat, gsoSize: U16, key: UdpKey)

  datatype UdpItem = UdpItem(key: UdpKey, bufsIndex: nat, numMerged: U16, gsoSize: U16, iphLen: nat, cSumKnownInvalid: bool)

  type UdpTable = map<UdpKey, seq<UdpItem>>

  /** The checks of udpGRO before it looks at the table; None is groResultNoop. */
  function ParseUdp(b: Bytes, isV6: bool): Option<UdpMeta>
    requires IsUdpCandidate(b, isV6)
  {
    var iphLen := if isV6 then 40 else 20;
    if |b| > MAX_UINT16 then None
    else if isV6 && Be16(b, 4) as int != |b| - iphLen then None
    else if !isV6 && Be16(b, 2) as int != |b| then None
    else if |b| < iphLen + UDPH_LEN then None
    else if !isV6 && (b[6] / 32 % 2 == 1 || b[6] % 32 != 0 || b[7] != 0) then None
    else if |b| - UDPH_LEN - iphLen < 1 then None
    else
      Some(UdpMeta(iphLen, |b| - UDPH_LEN - iphLen,
                   UdpKey(SrcAddr(b, isV6), DstAddr(b, isV6), Be16(b, iphLen), Be16(b, iphLen + 2), isV6)))
  }

  /** The datagrams that are tracked: None is a packet that is passed on as it is. */
  function Udp(b: Bytes): (m: Option<UdpMeta>)
    ensures m.Some? ==>
      && m.value.iphLen == (if m.value.key.isV6 then 40 else 20) && m.value.gsoSize >= 1
      && m.value.iphLen + UDPH_LEN + m.value.gsoSize as int == |b| <= 0xFFFF
  {
    if IsUdpCandidate(b, false) then ParseUdp(b, false)
    else if IsUdpCandidate(b, true) then ParseUdp(b, true)
    else None
  }

  /** The transport checksum is right. */
  ghost predicate Intact(b: Bytes, isV6: bool) {
    (if isV6 then 40 else 20) <= |b| <= 0xFFFF && HasValidChecksum(b, if isV6 then 40 else 20, IPPROTO_UDP, isV6)
  }

  function UdpHeadersLen(item: UdpItem): nat {
    item.iphLen + UDPH_LEN
  }

  /** udpPacketsCanCoalesce */
  predicate CanAppend(pkt: Bytes, m: UdpMeta, item: UdpItem, target: Bytes)
    requires item.gsoSize > 0
  {
    IpHeadersCanCoalesce(pkt, target) && |Payload(target, m.iphLen + UDPH_LEN)| % item.gsoSize as int == 0 && m.gsoSize <= item.gsoSize
  }

  /** What coalesceUDPPackets answers. */
  ghost function Outcome(head: Buf, pkt: Bytes, item: UdpItem, offset: nat): CoalesceResult {
    if head.cap - 2 * offset < |head.pkt| + |pkt| - UdpHeadersLen(item) then InsufficientCap
    else if item.numMerged == 0 && (item.cSumKnownInvalid || !Intact(head.pkt, item.key.isV6)) then ItemInvalidCsum
    else if !Intact(pkt, item.key.isV6) then PktInvalidCsum
    else CoalesceSuccess
  }

  // ---------- one packet ----------

  /** The input packets, the buffers and the table after the first `n` of them, the buffers to write, and which
      packets the buffer of each index holds. */
  datatype UdpView = UdpView(orig: seq<Bytes>, bufs: seq<Buf>, table: UdpTable, toWrite: seq<nat>, groups: map<nat, seq<nat>>, n: nat)

  function Items(table: UdpTable, key: UdpKey): seq<UdpItem> {
    if key in table then table[key] else []
  }

  function PassOn(v: UdpView): UdpView {
    v.(toWrite := v.toWrite + [v.n], groups := v.groups[v.n := [v.n]], n := v.n + 1)
  }

  function NewItem(v: UdpView, m: UdpMeta, invalid: bool): UdpItem {
    UdpItem(m.key, v.n, 0, m.gsoSize, m.iphLen, invalid)
  }

  /** The packet starts a new item of its flow. */
  function Enter(v: UdpView, m: UdpMeta, invalid: bool): UdpView {
    PassOn(v).(table := v.table[m.key := Items(v.table, m.key) + [NewItem(v, m, invalid)]])
  }

  /** The packet joins the last item of its flow. */
  function Append(v: UdpView, item: UdpItem): UdpView
    requires item.key in v.table && v.table[item.key] != [] && item.bufsIndex < |v.bufs| && v.n < |v.bufs| && item.bufsIndex in v.groups
    requires item.numMerged < 0xFFFF
  {
    var w, items := item.bufsIndex, v.table[item.key];
    v.(bufs := v.bufs[w := Buf(v.bufs[w].pkt + Payload(v.bufs[v.n].pkt, UdpHeadersLen(item)), v.bufs[w].cap)],
       table := v.table[item.key := items[|items| - 1 := item.(numMerged := item.numMerged + 1)]],
       groups := v.groups[w := v.groups[w] + [v.n]], n := v.n + 1)
  }

  // ---------- what an item means ----------

  /** Datagram `j` belongs to the flow of the item. */
  ghost predicate UdpMember(orig: seq<Bytes>, item: UdpItem, j: nat) {
    j < |orig| && Udp(orig[j]).Some? && Udp(orig[j]).value.key == item.key
  }

  ghost predicate UdpPieceOk(orig: seq<Bytes>, item: UdpItem, g: seq<nat>, k: nat)
    requires k < |g|
  {
    && UdpMember(orig, item, g[k])
    && (if k == 0 || k < |g| - 1 then Udp(orig[g[k]]).value.gsoSize == item.gsoSize else Udp(orig[g[k]]).value.gsoSize <= item.gsoSize)
    && (item.numMerged > 0 ==> Intact(orig[g[k]], item.key.isV6))
    && g[0] < |orig| && (k > 0 ==> IpHeadersCanCoalesce(orig[g[k]], orig[g[0]]))
  }

  ghost predicate UdpItemShape(item: UdpItem) {
    0 < item.gsoSize && item.iphLen == if item.key.isV6 then 40 else 20
  }

  /** The packets `g` follow each other in the flow, in order of arrival. */
  ghost predicate UdpPieces(orig: seq<Bytes>, g: seq<nat>, item: UdpItem) {
    && UdpItemShape(item) && |g| == item.numMerged as int + 1 && item.bufsIndex == g[0]
    && (forall k {:trigger UdpPieceOk(orig, item, g, k)} :: 0 <= k < |g| ==> UdpPieceOk(orig, item, g, k))
    && (item.cSumKnownInvalid ==> g[0] < |orig| && !Intact(orig[g[0]], item.key.isV6))
  }

  /** The buffer holds the headers of the first packet and the payloads of all. */
  ghost predicate UdpContents(orig: seq<Bytes>, pkt: Bytes, g: seq<nat>, item: UdpItem) {
    && g != [] && g[0] < |orig| && UdpHeadersLen(item) <= |orig[g[0]]| && |pkt| <= 0xFFFF
    && pkt == orig[g[0]][..UdpHeadersLen(item)] + Payloads(orig, g, UdpHeadersLen(item))
  }

  ghost predicate UdpTracks(orig: seq<Bytes>, pkt: Bytes, g: seq<nat>, item: UdpItem) {
    UdpPieces(orig, g, item) && UdpContents(orig, pkt, g, item)
  }

  lemma NewUdpTracks(v: UdpView, m: UdpMeta, invalid: bool)
    requires v.n < |v.orig| && Udp(v.orig[v.n]) == Some(m) && (invalid ==> !Intact(v.orig[v.n], m.key.isV6))
    ensures UdpTracks(v.orig, v.orig[v.n], [v.n], NewItem(v, m, invalid))
  {
    hide Udp, Intact;
    var b, hl := v.orig[v.n], m.iphLen + UDPH_LEN;
    assert Payloads(v.orig, [v.n], hl) == Piece(v.orig, v.n, hl) + Payloads(v.orig, [v.n][1..], hl);
    assert b == b[..hl] + b[hl..];
    assert UdpPieceOk(v.orig, NewItem(v, m, invalid), [v.n], 0);
  }

  lemma UdpHead(orig: seq<Bytes>, pkt: Bytes, g: seq<nat>, item: UdpItem)
    requires UdpTracks(orig, pkt, g, item)
    ensures g != [] && g[0] < |orig| && UdpHeadersLen(item) <= |orig[g[0]]| && UdpHeadersLen(item) <= |pkt| <= 0xFFFF
    ensures pkt[..UdpHeadersLen(item)] == orig[g[0]][..UdpHeadersLen(item)]
    ensures Payload(pkt, UdpHeadersLen(item)) == Payloads(orig, g, UdpHeadersLen(item))
  {
    hide UdpPieces, Payloads;
  }

  /** All pieces have the full size if the merged payload is a multiple of it. */
  lemma UdpPieceSize(orig: seq<Bytes>, g: seq<nat>, item: UdpItem, k: nat)
    requires UdpPieces(orig, g, item) && k < |g|
    ensures g[k] < |orig| && |Payload(orig[g[k]], UdpHeadersLen(item))| <= item.gsoSize as int
    ensures |Payload(orig[g[k]], UdpHeadersLen(item))| >= 1
    ensures Udp(orig[g[k]]).Some? && |Payload(orig[g[k]], UdpHeadersLen(item))| == Udp(orig[g[k]]).value.gsoSize as int
    ensures k < |g| - 1 ==> |Payload(orig[g[k]], UdpHeadersLen(item))| == item.gsoSize as int
  {
    hide Udp, Intact;
    assert UdpPieceOk(orig, item, g, k);
  }

  lemma UdpLength(orig: seq<Bytes>, pkt: Bytes, g: seq<nat>, item: UdpItem)
    requires UdpTracks(orig, pkt, g, item)
    ensures g != [] && g[|g| - 1] < |orig|
    ensures |pkt| == UdpHeadersLen(item) + item.numMerged as int * item.gsoSize as int + |Payload(orig[g[|g| - 1]], UdpHeadersLen(item))|
  {
    hide UdpPieceOk, Payload, Payloads;
    UdpHead(orig, pkt, g, item);
    forall k | 0 <= k < |g| ensures g[k] < |orig| && (k < |g| - 1 ==> |Payload(orig[g[k]], UdpHeadersLen(item))| == item.gsoSize as int) {
      UdpPieceSize(orig, g, item, k);
    }
    PayloadsLength(orig, g, UdpHeadersLen(item), item.gsoSize as int);
    PayloadIsSuffix(pkt, UdpHeadersLen(item));
  }

  lemma PayloadIsSuffix(b: Bytes, hl: nat)
    requires hl <= |b|
    ensures Payload(b, hl) == b[hl..] && |Payload(b, hl)| == |b| - hl
  {
  }

  lemma MultipleOf(n: nat, size: nat, rest: nat)
    requires 0 < rest <= size && (n * size + rest) % size == 0
    ensures rest == size
  {
    if rest < size {
      Arith.DivModUnique(n * size + rest, n, rest, size);
    }
  }

  lemma SameFirstBytes(a: Bytes, b: Bytes, c: Bytes, hl: nat)
    requires 9 <= hl <= |b| && hl <= |c| && b[..hl] == c[..hl]
    ensures IpHeadersCanCoalesce(a, b) == IpHeadersCanCoalesce(a, c)
  {
    assert forall i :: 0 <= i < 9 ==> b[i] == b[..hl][i] && c[i] == c[..hl][i];
  }

  lemma {:induction false} NumMergedFits(orig: seq<Bytes>, pkt: Bytes, g: seq<nat>, item: UdpItem)
    requires UdpTracks(orig, pkt, g, item)
    ensures item.numMerged < 0xFFFF
  {
    hide UdpTracks, Payload;
    UdpLength(orig, pkt, g, item);
    assert UdpItemShape(item) by { TrackedShape(orig, pkt, g, item); }
    UdpHead(orig, pkt, g, item);
    Arith.MulMonotone(1, item.gsoSize as int, item.numMerged as int);
  }

  lemma TrackedShape(orig: seq<Bytes>, pkt: Bytes, g: seq<nat>, item: UdpItem)
    requires UdpTracks(orig, pkt, g, item)
    ensures UdpItemShape(item) && UdpPieces(orig, g, item) && item.bufsIndex == g[0] && |g| == item.numMerged as int + 1
  {
    hide UdpContents, UdpPieceOk;
  }

  lemma UdpSingle(orig: seq<Bytes>, pkt: Bytes, g: seq<nat>, item: UdpItem)
    requires UdpTracks(orig, pkt, g, item) && item.numMerged == 0
    ensures |g| == 1 && g[0] < |orig| && pkt == orig[g[0]]
  {
    hide UdpPieceOk;
    var hl, b := UdpHeadersLen(item), orig[g[0]];
    assert g == [g[0]] && g[1..] == [];
    assert Payloads(orig, g, hl) == Piece(orig, g[0], hl) + Payloads(orig, g[1..], hl);
    assert b == b[..hl] + b[hl..];
  }

  /** Before another packet is appended the last piece has the full size. */
  lemma LastIsFull(orig: seq<Bytes>, pkt: Bytes, g: seq<nat>, item: UdpItem)
    requires UdpTracks(orig, pkt, g, item) && |Payload(pkt, UdpHeadersLen(item))| % item.gsoSize as int == 0
    ensures g != [] && g[|g| - 1] < |orig| && |Payload(orig[g[|g| - 1]], UdpHeadersLen(item))| == item.gsoSize as int
  {
    hide UdpTracks, Payload, UdpPieces;
    TrackedShape(orig, pkt, g, item);
    UdpLength(orig, pkt, g, item);
    UdpHead(orig, pkt, g, item);
    PayloadIsSuffix(pkt, UdpHeadersLen(item));
    UdpPieceSize(orig, g, item, |g| - 1);
    MultipleOf(item.numMerged as int, item.gsoSize as int, |Payload(orig[g[|g| - 1]], UdpHeadersLen(item))|);
  }

  lemma OldPiece(orig: seq<Bytes>, pkt: Bytes, g: seq<nat>, item: UdpItem, j: nat, k: nat)
    requires UdpTracks(orig, pkt, g, item) && |Payload(pkt, UdpHeadersLen(item))| % item.gsoSize as int == 0 && k < |g|
    requires item.numMerged == 0 ==> Intact(pkt, item.key.isV6)
    requires item.numMerged < 0xFFFF
    ensures UdpPieceOk(orig, item.(numMerged := item.numMerged + 1), g + [j], k)
  {
    hide Udp, Intact, Payload, Payloads;
    LastIsFull(orig, pkt, g, item);
    UdpPieceSize(orig, g, item, k);
    assert UdpPieceOk(orig, item, g, k);
    if item.numMerged == 0 {
      UdpSingle(orig, pkt, g, item);
    }
  }

  lemma NewPiece(orig: seq<Bytes>, pkt: Bytes, g: seq<nat>, item: UdpItem, j: nat, m: UdpMeta)
    requires UdpTracks(orig, pkt, g, item) && j < |orig| && Udp(orig[j]) == Some(m) && m.key == item.key && item.numMerged < 0xFFFF
    requires CanAppend(orig[j], m, item, pkt) && Intact(orig[j], item.key.isV6)
    ensures UdpPieceOk(orig, item.(numMerged := item.numMerged + 1), g + [j], |g|)
  {
    hide Udp, Intact, Payload, Payloads, IpHeadersCanCoalesce;
    UdpHead(orig, pkt, g, item);
    SameFirstBytes(orig[j], pkt, orig[g[0]], UdpHeadersLen(item));
  }

  /** Appending the next packet of the flow keeps the buffer the ordered merge of its packets. */
  lemma UdpAppendTracks(orig: seq<Bytes>, pkt: Bytes, g: seq<nat>, item: UdpItem, j: nat, m: UdpMeta)
    requires UdpTracks(orig, pkt, g, item) && j < |orig| && Udp(orig[j]) == Some(m) && m.key == item.key && item.numMerged < 0xFFFF
    requires CanAppend(orig[j], m, item, pkt) && Intact(orig[j], item.key.isV6) && (item.numMerged == 0 ==> Intact(pkt, item.key.isV6))
    requires |pkt| + |Payload(orig[j], UdpHeadersLen(item))| <= 0xFFFF
    ensures UdpTracks(orig, pkt + Payload(orig[j], UdpHeadersLen(item)), g + [j], item.(numMerged := item.numMerged + 1))
  {
    hide Udp, Intact, Payload, Payloads, UdpPieceOk, IpHeadersCanCoalesce;
    var item', hl := item.(numMerged := item.numMerged + 1), UdpHeadersLen(item);
    assert m.iphLen == item.iphLen;
    forall k | 0 <= k < |g| + 1 ensures UdpPieceOk(orig, item', g + [j], k) {
      if k < |g| {
        OldPiece(orig, pkt, g, item, j, k);
      } else {
        NewPiece(orig, pkt, g, item, j, m);
      }
    }
    PayloadsAppend(orig, g, j, hl);
    var head, all, b := orig[g[0]][..hl], Payloads(orig, g, hl), Payload(orig[j], hl);
    assert (head + all) + b == head + (all + b);
  }

  lemma UdpLonger(orig: seq<Bytes>, pkt: Bytes, g: seq<nat>, item: UdpItem)
    requires UdpTracks(orig, pkt, g, item)
    ensures UdpItemShape(item) && UdpHeadersLen(item) < |pkt| <= 0xFFFF
  {
    hide UdpTracks, UdpPieces, Payload, Payloads;
    TrackedShape(orig, pkt, g, item);
    UdpHead(orig, pkt, g, item);
    UdpPieceSize(orig, g, item, 0);
    PayloadsStep(orig, g, UdpHeadersLen(item));
    PayloadIsSuffix(pkt, UdpHeadersLen(item));
  }
}
