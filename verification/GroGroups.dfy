/** What a tracked item of the TCP table means: the packets merged into its buffer, in sequence
    order, and how appending and prepending keep that true
    (wireguard/tun/offload_linux.go:334-386, 444-506). */
module GroGroups {
  import opened InternetChecksum
  import opened Gso
  import opened Options
  import opened GroPackets
  import opened Arith
  import F = PacketFields

  /** A slice: its packet bytes (behind the offset) and the capacity of the whole slice. */
  datatype Buf = Buf(pkt: Bytes, cap: nat)

  /** A vector of slices, which both tables work on, and the virtio headers written in front of them; None is a
      header that is all zero. */
  class Vector {
    var bufs: seq<Buf>
    var vhdrs: map<nat, Option<VirtioNetHdr>>

    constructor (bufs: seq<Buf>)
      ensures this.bufs == bufs && vhdrs == map[]
    {
      this.bufs, vhdrs := bufs, map[];
    }
  }

  function Payload(b: Bytes, hdrLen: nat): Bytes {
    if hdrLen <= |b| then b[hdrLen..] else []
  }

  function Piece(orig: seq<Bytes>, j: nat, hdrLen: nat): Bytes {
    if j < |orig| then Payload(orig[j], hdrLen) else []
  }

  /** The payloads of the packets `g`, put end to end. */
  ghost function Payloads(orig: seq<Bytes>, g: seq<nat>, hdrLen: nat): Bytes {
    if g == [] then [] else Piece(orig, g[0], hdrLen) + Payloads(orig, g[1..], hdrLen)
  }

  lemma {:induction false} PayloadsAppend(orig: seq<Bytes>, g: seq<nat>, j: nat, hdrLen: nat)
    ensures Payloads(orig, g + [j], hdrLen) == Payloads(orig, g, hdrLen) + Piece(orig, j, hdrLen)
  {
    hide Piece;
    if g == [] {
      assert (g + [j])[1..] == [];
    } else {
      PayloadsAppend(orig, g[1..], j, hdrLen);
      assert (g + [j])[1..] == g[1..] + [j];
    }
  }

  function HeadersLen(item: Item): nat {
    item.iphLen + item.tcphLen
  }

  /** Packet `j` belongs to the flow of the item and has the same header lengths. */
  ghost predicate Member(orig: seq<Bytes>, item: Item, j: nat) {
    && j < |orig|
    && IsTcpCandidate(orig[j], item.key.isV6)
    && ParseTcp(orig[j], item.key.isV6).Some?
    && var m := ParseTcp(orig[j], item.key.isV6).value;
       m.key == item.key && m.iphLen == item.iphLen && m.tcphLen == item.tcphLen
  }

  const UNREAD: TcpMeta := TcpMeta(0, 0, 0, false, 0, FlowKey([], [], 0, 0, 0, false))

  /** What tcpGRO reads from packet `j`. */
  function Meta(orig: seq<Bytes>, item: Item, j: nat): TcpMeta {
    if j < |orig| && IsTcpCandidate(orig[j], item.key.isV6) && ParseTcp(orig[j], item.key.isV6).Some?
    then ParseTcp(orig[j], item.key.isV6).value
    else UNREAD
  }

  /** Piece `k` of the group carries the bytes at its place in the sequence space, and only the last
      piece may be shorter than `gsoSize`, which is the size of the first. */
  ghost predicate PieceOk(orig: seq<Bytes>, item: Item, g: seq<nat>, k: nat)
    requires k < |g|
  {
    && Member(orig, item, g[k])
    && var m := Meta(orig, item, g[k]);
       && m.seqNum == (item.sentSeq + k * item.gsoSize as int) % TWO32
       && (if k == 0 || k < |g| - 1 then m.gsoSize == item.gsoSize as int else m.gsoSize <= item.gsoSize as int)
  }

  /** The merged packet has the headers of its first piece, except for the flags byte. */
  ghost predicate HeadOk(pkt: Bytes, head: Bytes, item: Item) {
    && HeadersLen(item) <= |pkt| && HeadersLen(item) <= |head|
    && forall k {:trigger pkt[k]} :: 0 <= k < HeadersLen(item) && k != item.iphLen + TCP_FLAGS_OFFSET ==> pkt[k] == head[k]
  }

  /** The transport checksum of packet `j` is right. */
  ghost predicate Sound(orig: seq<Bytes>, item: Item, j: nat) {
    && j < |orig| && item.iphLen == (if item.key.isV6 then 40 else 20) && item.iphLen <= |orig[j]| <= 0xFFFF
    && HasValidChecksum(orig[j], item.iphLen, IPPROTO_TCP, item.key.isV6)
  }

  ghost predicate AllSound(orig: seq<Bytes>, item: Item, g: seq<nat>) {
    forall k {:trigger Sound(orig, item, g[k])} :: 0 <= k < |g| ==> Sound(orig, item, g[k])
  }

  lemma AllSoundGrows(orig: seq<Bytes>, item: Item, item': Item, g: seq<nat>, j: nat)
    requires item'.key == item.key && item'.iphLen == item.iphLen && g != []
    requires Sound(orig, item, j) && (if |g| == 1 then Sound(orig, item, g[0]) else AllSound(orig, item, g))
    ensures AllSound(orig, item', g + [j]) && AllSound(orig, item', [j] + g)
  {
    hide HasValidChecksum;
    forall k | 0 <= k < |g| + 1
      ensures Sound(orig, item', (g + [j])[k]) && Sound(orig, item', ([j] + g)[k])
    {
      assert k < |g| ==> Sound(orig, item, g[k]);
      assert k > 0 ==> Sound(orig, item, g[k - 1]);
    }
  }

  /** The pieces fit together, and merged ones had good checksums. */
  ghost predicate Pieces(orig: seq<Bytes>, g: seq<nat>, item: Item) {
    && |g| == item.numMerged as int + 1
    && (forall k {:trigger PieceOk(orig, item, g, k)} :: 0 <= k < |g| ==> PieceOk(orig, item, g, k))
    && (item.numMerged > 0 ==> AllSound(orig, item, g))
  }

  /** The buffer holds the payloads of the pieces behind the headers of the first one. */
  ghost predicate Contents(orig: seq<Bytes>, pkt: Bytes, g: seq<nat>, item: Item) {
    && HeadersLen(item) < |pkt| <= 0xFFFF
    && pkt[HeadersLen(item)..] == Payloads(orig, g, HeadersLen(item))
    && g != [] && g[0] < |orig| && HeadOk(pkt, orig[g[0]], item)
    && (item.numMerged == 0 ==> g == [item.bufsIndex] && pkt == orig[g[0]])
  }

  ghost predicate ItemShape(item: Item) {
    && item.sentSeq < TWO32 && 0 < item.gsoSize
    && item.iphLen == (if item.key.isV6 then 40 else 20) && 20 <= item.tcphLen <= 60
  }

  /** The header fields that are compared before a merge agree. */
  ghost predicate SameFixed(a: Bytes, b: Bytes, item: Item) {
    && HeadersLen(item) <= |a| && HeadersLen(item) <= |b| && item.iphLen + 20 <= HeadersLen(item)
    && IpHeadersCanCoalesce(a, b)
    && a[item.iphLen + 20..HeadersLen(item)] == b[item.iphLen + 20..HeadersLen(item)]
  }

  /** They agree for all pieces. */
  ghost predicate Alike(orig: seq<Bytes>, g: seq<nat>, item: Item) {
    forall k {:trigger g[k]} :: 0 <= k < |g| ==> g[0] < |orig| && g[k] < |orig| && SameFixed(orig[g[0]], orig[g[k]], item)
  }

  /** The last of the packets `g` came last, so nothing has been put in front since it joined. */
  ghost predicate CameLast(g: seq<nat>) {
    forall k {:trigger g[k]} :: 0 <= k < |g| ==> g[k] <= g[|g| - 1]
  }

  function FlagsOf(orig: seq<Bytes>, item: Item, j: nat): Byte {
    if j < |orig| then F.Flags(orig[j], item.key.isV6) else 0
  }

  /** Only the last packet may have PSH, and the item says if it has; the merged packet has it unless something has been
      put in front since. */
  ghost predicate GroupFlags(orig: seq<Bytes>, pkt: Bytes, g: seq<nat>, item: Item) {
    && g != []
    && (forall k {:trigger FlagsOf(orig, item, g[k])} :: 0 <= k < |g| - 1 ==> FlagsOf(orig, item, g[k]) == F.ACK)
    && FlagsOf(orig, item, g[|g| - 1]) == (if item.pshSet then F.PSH_ACK else F.ACK)
    && F.Flags(pkt, item.key.isV6) == if item.pshSet && CameLast(g) then F.PSH_ACK else F.ACK
  }

  /** The buffer of `item` holds exactly the packets `g`, merged. */
  ghost predicate Tracks(orig: seq<Bytes>, pkt: Bytes, g: seq<nat>, item: Item) {
    ItemShape(item) && Pieces(orig, g, item) && Contents(orig, pkt, g, item) && Alike(orig, g, item) && GroupFlags(orig, pkt, g, item)
  }

  lemma MemberFlags(orig: seq<Bytes>, item: Item, j: nat)
    requires Member(orig, item, j)
    ensures FlagsOf(orig, item, j) == (if Meta(orig, item, j).pshSet then F.PSH_ACK else F.ACK)
  {
    hide ParseTcp, IsTcpCandidate;
    F.PlainTcpIff(orig[j], item.key.isV6);
  }

  lemma NewFlags(orig: seq<Bytes>, item: Item, j: nat)
    requires Member(orig, item, j) && item.pshSet == Meta(orig, item, j).pshSet
    ensures GroupFlags(orig, orig[j], [j], item)
  {
    hide Member, Meta, F.Flags;
    MemberFlags(orig, item, j);
  }

  /** Packet `j` came after all of `g`. */
  ghost predicate Later(g: seq<nat>, j: nat) {
    forall k {:trigger g[k]} :: 0 <= k < |g| ==> g[k] < j
  }

  lemma AppendedFlags(pkt: Bytes, item: Item, m: TcpMeta, b: Bytes)
    requires ItemShape(item) && HeadersLen(item) <= |pkt| && F.Flags(pkt, item.key.isV6) == F.ACK
    ensures F.Flags(AppendedPkt(pkt, item, m, b), item.key.isV6) == if m.pshSet then F.PSH_ACK else F.ACK
  {
  }

  lemma AppendFlags(orig: seq<Bytes>, pkt: Bytes, g: seq<nat>, item: Item, j: nat)
    requires GroupFlags(orig, pkt, g, item) && Later(g, j) && Member(orig, item, j) && !item.pshSet && item.numMerged < 0xFFFF
    requires ItemShape(item) && HeadersLen(item) <= |pkt|
    ensures var m := Meta(orig, item, j); GroupFlags(orig, AppendedPkt(pkt, item, m, orig[j]), g + [j], AppendedItem(item, m))
  {
    hide Member, Meta, F.Flags, AppendedPkt;
    var m := Meta(orig, item, j);
    MemberFlags(orig, item, j);
    AppendedFlags(pkt, item, m, orig[j]);
    assert CameLast(g + [j]);
    forall k | 0 <= k < |g| ensures FlagsOf(orig, AppendedItem(item, m), (g + [j])[k]) == F.ACK {
      assert FlagsOf(orig, item, g[k]) == F.ACK;
    }
  }

  lemma PrependFlags(orig: seq<Bytes>, pkt: Bytes, g: seq<nat>, item: Item, item': Item, j: nat, tail: Bytes)
    requires GroupFlags(orig, pkt, g, item) && Later(g, j) && Member(orig, item, j) && !Meta(orig, item, j).pshSet
    requires item'.pshSet == item.pshSet && item'.key == item.key
    ensures GroupFlags(orig, orig[j] + tail, [j] + g, item')
  {
    hide Member, Meta;
    MemberFlags(orig, item, j);
    assert ([j] + g)[0] == j && ([j] + g)[|g|] == g[|g| - 1] < j;
    forall k | 0 <= k < |[j] + g| - 1 ensures FlagsOf(orig, item', ([j] + g)[k]) == F.ACK {
      assert k > 0 ==> FlagsOf(orig, item, g[k - 1]) == F.ACK;
    }
  }

  /** A packet that passes the test against a merged packet agrees with the head of that packet. */
  lemma TestedAlike(b: Bytes, m: TcpMeta, item: Item, pkt: Bytes, head: Bytes)
    requires HeadOk(pkt, head, item) && ItemShape(item) && m.iphLen == item.iphLen && m.iphLen + m.tcphLen <= |b| && 20 <= m.tcphLen
    requires IsTcpCandidate(b, item.key.isV6) && IsTcpCandidate(head, item.key.isV6)
    requires TcpPacketsCanCoalesce(b, m, item, pkt) != CoalesceUnavailable
    ensures SameFixed(head, b, item)
  {
    assert IpHeadersCanCoalesce(b, pkt) && m.tcphLen == item.tcphLen;
    assert pkt[0] == head[0] && pkt[1] == head[1] && pkt[6] == head[6] && pkt[7] == head[7] && pkt[8] == head[8];
    var lo, hi := item.iphLen + 20, HeadersLen(item);
    assert pkt[lo..hi] == head[lo..hi];
    if m.tcphLen == 20 {
      assert b[lo..hi] == [] && head[lo..hi] == [];
    }
  }

  lemma SameFixedTransitive(a: Bytes, b: Bytes, c: Bytes, item: Item)
    requires SameFixed(b, a, item) && SameFixed(b, c, item) && a[0] / 16 == b[0] / 16 == c[0] / 16
    ensures SameFixed(a, c, item) && SameFixed(a, a, item)
  {
  }

  lemma AppendAlike(orig: seq<Bytes>, g: seq<nat>, item: Item, item': Item, j: nat)
    requires g != [] && Alike(orig, g, item) && j < |orig| && SameFixed(orig[g[0]], orig[j], item)
    requires item'.iphLen == item.iphLen && item'.tcphLen == item.tcphLen
    ensures Alike(orig, g + [j], item')
  {
    hide IpHeadersCanCoalesce;
    forall k | 0 <= k < |g + [j]| ensures (g + [j])[k] < |orig| && SameFixed(orig[(g + [j])[0]], orig[(g + [j])[k]], item') {
      assert k < |g| ==> SameFixed(orig[g[0]], orig[g[k]], item);
    }
  }

  lemma PrependAlike(orig: seq<Bytes>, g: seq<nat>, item: Item, item': Item, j: nat)
    requires g != [] && Alike(orig, g, item) && g[0] < |orig| && j < |orig| && SameFixed(orig[g[0]], orig[j], item)
    requires item'.iphLen == item.iphLen && item'.tcphLen == item.tcphLen
    requires forall k :: 0 <= k < |g| ==> Member(orig, item, g[k])
    requires Member(orig, item, j)
    ensures Alike(orig, [j] + g, item')
  {
    hide Member, IpHeadersCanCoalesce;
    var h := [j] + g;
    forall k | 0 <= k < |h| ensures h[k] < |orig| && SameFixed(orig[h[0]], orig[h[k]], item') {
      var i := if k == 0 then 0 else k - 1;
      assert Member(orig, item, g[i]) && SameFixed(orig[g[0]], orig[g[i]], item) && Member(orig, item, g[0]);
      SameVersion(orig, item, j, g[0]);
      SameVersion(orig, item, g[i], g[0]);
      SameFixedTransitive(orig[j], orig[g[0]], orig[g[i]], item);
    }
  }

  lemma SameVersion(orig: seq<Bytes>, item: Item, i: nat, j: nat)
    requires Member(orig, item, i) && Member(orig, item, j)
    ensures |orig[i]| > 0 && |orig[j]| > 0 && orig[i][0] / 16 == orig[j][0] / 16
  {
    hide ParseTcp;
  }

  lemma MemberPayload(orig: seq<Bytes>, item: Item, j: nat)
    requires Member(orig, item, j)
    ensures |Payload(orig[j], HeadersLen(item))| == Meta(orig, item, j).gsoSize >= 1
  {
    hide ParseTcp, IsTcpCandidate;
  }

  /** How long the merged payload is. */
  lemma {:induction false} PayloadsLength(orig: seq<Bytes>, g: seq<nat>, hdrLen: nat, full: nat)
    requires g != [] && forall k :: 0 <= k < |g| ==> g[k] < |orig|
    requires forall k :: 0 <= k < |g| - 1 ==> |Payload(orig[g[k]], hdrLen)| == full
    ensures |Payloads(orig, g, hdrLen)| == (|g| - 1) * full + |Payload(orig[g[|g| - 1]], hdrLen)|
  {
    hide Payload, Payloads;
    PayloadsStep(orig, g, hdrLen);
    if |g| == 1 {
      PayloadsNone(orig, hdrLen);
      assert g[1..] == [];
    } else {
      PayloadsLength(orig, g[1..], hdrLen, full);
      OneMore(|g| - 2, full);
    }
  }

  lemma OneMore(n: nat, full: nat)
    ensures (n + 1) * full == full + n * full
  {
  }

  lemma PayloadsStep(orig: seq<Bytes>, g: seq<nat>, hdrLen: nat)
    requires g != [] && g[0] < |orig|
    ensures Payloads(orig, g, hdrLen) == Payload(orig[g[0]], hdrLen) + Payloads(orig, g[1..], hdrLen)
  {
    hide Payload;
  }

  lemma PayloadsNone(orig: seq<Bytes>, hdrLen: nat)
    ensures Payloads(orig, [], hdrLen) == []
  {
  }

  /** The facts about a tracked buffer's length that the code relies on. */
  lemma TracksLength(orig: seq<Bytes>, pkt: Bytes, g: seq<nat>, item: Item)
    requires Tracks(orig, pkt, g, item)
    ensures |pkt| - HeadersLen(item) == item.numMerged as int * item.gsoSize as int + Meta(orig, item, g[|g| - 1]).gsoSize
    ensures 1 <= Meta(orig, item, g[|g| - 1]).gsoSize <= item.gsoSize as int
  {
    hide ParseTcp, IsTcpCandidate, Payloads, GroupFlags;
    var hdrLen := HeadersLen(item);
    forall k | 0 <= k < |g|
      ensures g[k] < |orig| && |Payload(orig[g[k]], hdrLen)| == Meta(orig, item, g[k]).gsoSize
      ensures k < |g| - 1 ==> Meta(orig, item, g[k]).gsoSize == item.gsoSize as int
    {
      assert PieceOk(orig, item, g, k);
      MemberPayload(orig, item, g[k]);
    }
    PayloadsLength(orig, g, hdrLen, item.gsoSize as int);
    assert PieceOk(orig, item, g, |g| - 1);
    MemberPayload(orig, item, g[|g| - 1]);
  }

  // ---------- append ----------

  lemma FullTail(n: nat, size: nat, tail: nat)
    requires 1 <= tail <= size && (n * size + tail) % size == 0
    ensures tail == size
  {
    if tail < size {
      DivModUnique(n * size + tail, n, tail, size);
    }
  }

  lemma LhsLenExact(item: Item)
    requires item.numMerged as int * item.gsoSize as int + item.gsoSize as int <= 0xFFFF
    ensures LhsLen(item) == (item.numMerged as int + 1) * item.gsoSize as int
  {
    assert (item.numMerged as int + 1) * item.gsoSize as int == item.numMerged as int * item.gsoSize as int + item.gsoSize as int;
  }

  function SetPsh(pkt: Bytes, at: nat): Bytes
    requires at < |pkt|
  {
    if pkt[at] / 8 % 2 == 1 then pkt else pkt[at := pkt[at] + 8]
  }

  /** The item after `m` was merged at its end. */
  function AppendedItem(item: Item, m: TcpMeta): Item
    requires item.numMerged < 0xFFFF
  {
    item.(numMerged := item.numMerged + 1, pshSet := item.pshSet || m.pshSet)
  }

  function AppendedPkt(pkt: Bytes, item: Item, m: TcpMeta, b: Bytes): Bytes
    requires item.iphLen + TCP_FLAGS_OFFSET < |pkt|
  {
    (if m.pshSet then SetPsh(pkt, item.iphLen + TCP_FLAGS_OFFSET) else pkt) + Payload(b, HeadersLen(item))
  }

  lemma AppendedPktShape(pkt: Bytes, item: Item, m: TcpMeta, b: Bytes, head: Bytes)
    requires item.iphLen + TCP_FLAGS_OFFSET < HeadersLen(item) && HeadOk(pkt, head, item)
    ensures var r := AppendedPkt(pkt, item, m, b);
            && HeadOk(r, head, item)
            && r[HeadersLen(item)..] == pkt[HeadersLen(item)..] + Payload(b, HeadersLen(item))
            && |r| == |pkt| + |Payload(b, HeadersLen(item))|
  {
    hide Payload;
    var r := AppendedPkt(pkt, item, m, b);
    var kept := if m.pshSet then SetPsh(pkt, item.iphLen + TCP_FLAGS_OFFSET) else pkt;
    assert r[HeadersLen(item)..] == kept[HeadersLen(item)..] + Payload(b, HeadersLen(item));
  }

  lemma AppendPiece(orig: seq<Bytes>, item: Item, item': Item, g: seq<nat>, j: nat, k: nat)
    requires g != [] && k <= |g| && item'.key == item.key && item'.iphLen == item.iphLen && item'.tcphLen == item.tcphLen
    requires item'.sentSeq == item.sentSeq && item'.gsoSize == item.gsoSize
    requires k < |g| ==> PieceOk(orig, item, g, k)
    requires Meta(orig, item, g[|g| - 1]).gsoSize == item.gsoSize as int
    requires Member(orig, item, j) && Meta(orig, item, j).gsoSize <= item.gsoSize as int
    requires Meta(orig, item, j).seqNum == (item.sentSeq + |g| * item.gsoSize as int) % TWO32
    ensures PieceOk(orig, item', g + [j], k)
  {
    hide ParseTcp, IsTcpCandidate;
  }

  /** What tcpPacketsCanCoalesce has established when it answers coalesceAppend. */
  lemma AppendFacts(item: Item, pkt: Bytes, tail: nat, b: Bytes, m: TcpMeta)
    requires 0 < item.gsoSize && HeadersLen(item) <= |pkt| <= 0xFFFF && 1 <= tail <= item.gsoSize as int
    requires |pkt| - HeadersLen(item) == item.numMerged as int * item.gsoSize as int + tail
    requires m.iphLen == item.iphLen && m.iphLen + m.tcphLen <= |b| && 20 <= m.tcphLen
    requires TcpPacketsCanCoalesce(b, m, item, pkt) == CoalesceAppend
    ensures tail == item.gsoSize as int && m.gsoSize <= item.gsoSize as int && item.numMerged < 0xFFFF && !item.pshSet
    ensures m.seqNum == (item.sentSeq + (item.numMerged as int + 1) * item.gsoSize as int) % TWO32
  {
    hide LhsLen, IpHeadersCanCoalesce;
    FullTail(item.numMerged as int, item.gsoSize as int, tail);
    LhsLenExact(item);
    MulMonotone(1, item.gsoSize as int, item.numMerged as int);
  }

  lemma AppendPieces(orig: seq<Bytes>, g: seq<nat>, item: Item, item': Item, j: nat)
    requires Pieces(orig, g, item) && Member(orig, item, j) && item.numMerged < 0xFFFF
    requires item'.numMerged == item.numMerged + 1 && item'.key == item.key && item'.iphLen == item.iphLen && item'.tcphLen == item.tcphLen
    requires item'.sentSeq == item.sentSeq && item'.gsoSize == item.gsoSize
    requires Sound(orig, item, j) && (item.numMerged == 0 ==> Sound(orig, item, g[0]))
    requires Meta(orig, item, g[|g| - 1]).gsoSize == item.gsoSize as int >= Meta(orig, item, j).gsoSize
    requires Meta(orig, item, j).seqNum == (item.sentSeq + |g| * item.gsoSize as int) % TWO32
    ensures Pieces(orig, g + [j], item')
  {
    hide Member, Meta, PieceOk, Sound, AllSound;
    forall k | 0 <= k < |g| + 1
      ensures PieceOk(orig, item', g + [j], k)
    {
      assert k < |g| ==> PieceOk(orig, item, g, k);
      AppendPiece(orig, item, item', g, j, k);
    }
    AllSoundGrows(orig, item, item', g, j);
  }

  /** Appending keeps a group tracked. */
  lemma AppendTracks(orig: seq<Bytes>, pkt: Bytes, g: seq<nat>, item: Item, j: nat)
    requires Tracks(orig, pkt, g, item) && Member(orig, item, j)
    requires |pkt| + |orig[j]| - HeadersLen(item) <= 0xFFFF
    requires TcpPacketsCanCoalesce(orig[j], Meta(orig, item, j), item, pkt) == CoalesceAppend
    requires Sound(orig, item, j) && (item.numMerged == 0 ==> Sound(orig, item, g[0])) && Later(g, j)
    ensures item.numMerged < 0xFFFF
    ensures var m := Meta(orig, item, j);
            Tracks(orig, AppendedPkt(pkt, item, m, orig[j]), g + [j], AppendedItem(item, m))
  {
    hide ParseTcp, IsTcpCandidate, Payloads, TcpPacketsCanCoalesce, Sound, Pieces, AppendedPkt, Alike, SameFixed, GroupFlags, Later;
    TracksCount(orig, pkt, g, item);
    TracksLength(orig, pkt, g, item);
    MemberPayload(orig, item, j);
    var m := Meta(orig, item, j);
    AppendFacts(item, pkt, Meta(orig, item, g[|g| - 1]).gsoSize, orig[j], m);
    var item' := AppendedItem(item, m);
    assert Pieces(orig, g + [j], item') by {
      AppendPieces(orig, g, item, item', j);
    }
    PayloadsAppend(orig, g, j, HeadersLen(item));
    AppendedPktShape(pkt, item, m, orig[j], orig[g[0]]);
    FirstMember(orig, g, item);
    TestedAlike(orig[j], m, item, pkt, orig[g[0]]);
    AppendAlike(orig, g, item, item', j);
    AppendFlags(orig, pkt, g, item, j);
  }

  lemma FirstMember(orig: seq<Bytes>, g: seq<nat>, item: Item)
    requires Pieces(orig, g, item)
    ensures forall k :: 0 <= k < |g| ==> Member(orig, item, g[k])
    ensures g != [] && g[0] < |orig| && IsTcpCandidate(orig[g[0]], item.key.isV6)
  {
    hide ParseTcp, IsTcpCandidate, Sound;
    forall k | 0 <= k < |g| ensures Member(orig, item, g[k]) {
      assert PieceOk(orig, item, g, k);
    }
    assert PieceOk(orig, item, g, 0);
  }

  // ---------- prepend ----------

  function PrependedItem(item: Item, m: TcpMeta): Item
    requires item.numMerged < 0xFFFF && 0 <= m.gsoSize <= 0xFFFF
  {
    item.(sentSeq := m.seqNum, numMerged := item.numMerged + 1, gsoSize := if m.gsoSize > item.gsoSize as int then m.gsoSize else item.gsoSize)
  }

  /** What tcpPacketsCanCoalesce has established when it answers coalescePrepend. */
  lemma PrependFacts(item: Item, pkt: Bytes, b: Bytes, m: TcpMeta)
    requires 0 < item.gsoSize && HeadersLen(item) <= |pkt|
    requires m.iphLen == item.iphLen && m.iphLen + m.tcphLen <= |b| && 20 <= m.tcphLen
    requires TcpPacketsCanCoalesce(b, m, item, pkt) == CoalescePrepend
    ensures item.sentSeq == (m.seqNum + m.gsoSize) % TWO32
    ensures m.gsoSize == item.gsoSize as int || (m.gsoSize > item.gsoSize as int && item.numMerged == 0)
    ensures !m.pshSet
  {
    hide LhsLen, IpHeadersCanCoalesce;
  }

  lemma SeqShift(first: nat, size: nat, k: nat)
    requires k >= 1
    ensures ((first + size) % TWO32 + (k - 1) * size) % TWO32 == (first + k * size) % TWO32
  {
    ModAdd(first + size, (k - 1) * size, TWO32);
    assert k * size == size + (k - 1) * size;
  }

  lemma SameProduct(n: nat, x: int, y: int)
    requires n == 0 || x == y
    ensures n * x == n * y
  {
  }

  lemma FewMerged(n: nat, size: nat, tail: nat)
    requires size > 0 && tail > 0 && n * size + tail <= 0xFFFF
    ensures n < 0xFFFF
  {
    MulMonotone(1, size, n);
  }

  lemma PrependPiece(orig: seq<Bytes>, item: Item, item': Item, g: seq<nat>, j: nat, k: nat)
    requires g != [] && k <= |g| && item'.key == item.key && item'.iphLen == item.iphLen && item'.tcphLen == item.tcphLen
    requires Member(orig, item, j)
    requires var m := Meta(orig, item, j);
             && item'.sentSeq == m.seqNum && item'.gsoSize as int == m.gsoSize && item.sentSeq == (m.seqNum + m.gsoSize) % TWO32
             && (m.gsoSize == item.gsoSize as int || (m.gsoSize > item.gsoSize as int && |g| == 1))
    requires k >= 1 ==> PieceOk(orig, item, g, k - 1)
    ensures PieceOk(orig, item', [j] + g, k)
  {
    hide ParseTcp, IsTcpCandidate;
    var m := Meta(orig, item, j);
    if k >= 1 {
      assert ([j] + g)[k] == g[k - 1];
      SeqShift(m.seqNum, m.gsoSize, k);
      SameProduct(k - 1, item.gsoSize as int, m.gsoSize);
    }
  }

  lemma PrependPieces(orig: seq<Bytes>, g: seq<nat>, item: Item, item': Item, j: nat)
    requires Pieces(orig, g, item) && Member(orig, item, j) && item.numMerged < 0xFFFF
    requires item'.numMerged == item.numMerged + 1 && item'.key == item.key && item'.iphLen == item.iphLen && item'.tcphLen == item.tcphLen
    requires var m := Meta(orig, item, j);
             && item'.sentSeq == m.seqNum && item'.gsoSize as int == m.gsoSize && item.sentSeq == (m.seqNum + m.gsoSize) % TWO32
             && (m.gsoSize == item.gsoSize as int || (m.gsoSize > item.gsoSize as int && |g| == 1))
    requires Sound(orig, item, j) && (item.numMerged == 0 ==> Sound(orig, item, g[0]))
    ensures Pieces(orig, [j] + g, item')
  {
    hide Member, Meta, PieceOk, Sound, AllSound;
    forall k | 0 <= k < |g| + 1
      ensures PieceOk(orig, item', [j] + g, k)
    {
      assert k >= 1 ==> PieceOk(orig, item, g, k - 1);
      PrependPiece(orig, item, item', g, j, k);
    }
    AllSoundGrows(orig, item, item', g, j);
  }

  lemma PrependContents(orig: seq<Bytes>, pkt: Bytes, g: seq<nat>, item: Item, item': Item, j: nat)
    requires Contents(orig, pkt, g, item) && j < |orig| && HeadersLen(item') == HeadersLen(item) < |orig[j]| && item'.numMerged > 0
    requires |pkt| + |orig[j]| - HeadersLen(item) <= 0xFFFF
    ensures Contents(orig, orig[j] + Payload(pkt, HeadersLen(item)), [j] + g, item')
  {
    var pkt' := orig[j] + Payload(pkt, HeadersLen(item));
    assert ([j] + g)[1..] == g;
    assert pkt'[HeadersLen(item)..] == Payload(orig[j], HeadersLen(item)) + pkt[HeadersLen(item)..];
  }

  /** Prepending keeps a group tracked, also when the new head is larger than the single packet behind it. */
  lemma PrependTracks(orig: seq<Bytes>, pkt: Bytes, g: seq<nat>, item: Item, j: nat)
    requires Tracks(orig, pkt, g, item) && Member(orig, item, j)
    requires |pkt| + |orig[j]| - HeadersLen(item) <= 0xFFFF
    requires TcpPacketsCanCoalesce(orig[j], Meta(orig, item, j), item, pkt) == CoalescePrepend
    requires Sound(orig, item, j) && (item.numMerged == 0 ==> Sound(orig, item, g[0])) && Later(g, j)
    ensures item.numMerged < 0xFFFF && Meta(orig, item, j).gsoSize <= 0xFFFF
    ensures Tracks(orig, orig[j] + Payload(pkt, HeadersLen(item)), [j] + g, PrependedItem(item, Meta(orig, item, j)))
  {
    hide ParseTcp, IsTcpCandidate, TcpPacketsCanCoalesce, Sound, Pieces, Payloads, HeadOk, Alike, SameFixed, GroupFlags, Later;
    TracksCount(orig, pkt, g, item);
    TracksLength(orig, pkt, g, item);
    MemberPayload(orig, item, j);
    var m := Meta(orig, item, j);
    PrependFacts(item, pkt, orig[j], m);
    FewMerged(item.numMerged as int, item.gsoSize as int, Meta(orig, item, g[|g| - 1]).gsoSize);
    var item' := PrependedItem(item, m);
    assert Pieces(orig, [j] + g, item') by {
      PrependPieces(orig, g, item, item', j);
    }
    PrependContents(orig, pkt, g, item, item', j);
    FirstMember(orig, g, item);
    TestedAlike(orig[j], m, item, pkt, orig[g[0]]);
    PrependAlike(orig, g, item, item', j);
    PrependFlags(orig, pkt, g, item, item', j, Payload(pkt, HeadersLen(item)));
  }

  lemma TracksCount(orig: seq<Bytes>, pkt: Bytes, g: seq<nat>, item: Item)
    requires Tracks(orig, pkt, g, item)
    ensures |g| == item.numMerged as int + 1
  {
  }
}
