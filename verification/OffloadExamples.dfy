/** Two vectors of packets on which the round trip of offloading loses something
    (wireguard/tun/offload_linux.go:136-140, 600-616, 976-978). */
module OffloadExamples {
  import opened InternetChecksum
  import opened Options
  import opened Gso
  import opened GroPackets
  import opened GroGroups
  import opened GroState
  import opened OffloadState
  import opened OffloadHeaders
  import opened Offload
  import T = Gro
  import P = UdpPackets
  import O = UdpOrder
  import R = UdpRuns
  import U = UdpGro

  // ---------- a checksum of 0xFFFF ----------

  /** A datagram of one byte, from port 0xE4D7, whose checksum is 0xFFFF. */
  const ALL_ONES: Bytes := ALL_ONES_IP + ALL_ONES_SEGMENT

  const ALL_ONES_IP: Bytes := [0x45, 0, 0, 29, 0, 0, 0, 0, 64, 17, 0, 0, 10, 0, 0, 1, 10, 0, 0, 2]
  const ALL_ONES_SEGMENT: Bytes := [0xE4, 0xD7, 0, 2, 0, 9, 0xFF, 0xFF, 7]

  lemma AllOnesIsUdp()
    ensures |ALL_ONES| == 29 && P.Udp(ALL_ONES).Some? && P.Udp(ALL_ONES).value.gsoSize == 1 && P.Udp(ALL_ONES).value.iphLen == 20
    ensures !P.Udp(ALL_ONES).value.key.isV6 && Be16(ALL_ONES, 24) == 9 && Be16(ALL_ONES, 26) == 0xFFFF
  {
  }

  lemma AllOnesParts()
    ensures |ALL_ONES| == 29 && SrcAddr(ALL_ONES, false) == [10, 0, 0, 1] && DstAddr(ALL_ONES, false) == [10, 0, 0, 2]
    ensures ALL_ONES[20..] == ALL_ONES_SEGMENT
  {
    var src: Bytes, dst: Bytes := [10, 0, 0, 1], [10, 0, 0, 2];
    assert ALL_ONES[12..16] == src && ALL_ONES[16..20] == dst;
  }

  lemma AllOnesSum()
    ensures Sum32(ALL_ONES_SEGMENT) == 0xE4E1_0701
  {
    hide Sum32;
    var tail: Bytes := [7];
    R.FourBytes(0, 9, 0xFF, 0xFF, tail);
    R.FourBytes(0xE4, 0xD7, 0, 2, [0, 9, 0xFF, 0xFF] + tail);
    assert ALL_ONES_SEGMENT == [0xE4, 0xD7, 0, 2] + ([0, 9, 0xFF, 0xFF] + tail);
    R.OneLeft(7);
  }

  lemma AllOnesIntact()
    ensures P.Intact(ALL_ONES, false)
  {
    hide Sum32, SrcAddr, DstAddr;
    AllOnesParts();
    AllOnesSum();
    R.OneLeft(0);
    R.FourBytes(10, 0, 0, 1, []);
    R.FourBytes(10, 0, 0, 2, []);
    var src: Bytes, dst: Bytes := [10, 0, 0, 1], [10, 0, 0, 2];
    assert src == [10, 0, 0, 1] + [] && dst == [10, 0, 0, 2] + [];
    assert PseudoSum(IPPROTO_UDP, src, dst, 9) == 0x1400_001D;
  }

  function Two(first: Bytes, second: Bytes): seq<Buf> {
    [Buf(first, 2000), Buf(second, 2000)]
  }

  lemma AllOnesJoins(item: P.UdpItem, m: P.UdpMeta)
    requires P.Udp(ALL_ONES) == Some(m) && item == P.UdpItem(m.key, 0, 0, 1, 20, false)
    ensures P.CanAppend(ALL_ONES, m, item, ALL_ONES) && P.Outcome(Buf(ALL_ONES, 2000), ALL_ONES, item, 10) == CoalesceSuccess
  {
    hide P.Udp, P.Intact;
    AllOnesIsUdp();
    AllOnesIntact();
  }

  /** The two datagrams are merged. */
  lemma AllOnesMerge() returns (item: P.UdpItem)
    ensures R.CapsOk(Two(ALL_ONES, ALL_ONES), 10)
    ensures var v := R.RunOf(Two(ALL_ONES, ALL_ONES), 10, 2);
            && v.table == map[item.key := [item]] && item.bufsIndex == 0 && item.numMerged == 1 && item.iphLen == 20
            && v.groups == map[0 := [0, 1]] && v.orig == [ALL_ONES, ALL_ONES]
  {
    hide P.Udp, O.Inv, P.Outcome, P.CanAppend, O.Next, R.Run, Payload;
    AllOnesIsUdp();
    var bufs := Two(ALL_ONES, ALL_ONES);
    var m := P.Udp(ALL_ONES).value;
    var first := P.UdpItem(m.key, 0, 0, 1, 20, false);
    item := first.(numMerged := 1);
    var v0 := O.Start(bufs);
    O.StartInv(bufs, 10);
    assert v0.orig == [ALL_ONES, ALL_ONES];
    var v1 := P.UdpView(v0.orig, bufs, map[m.key := [first]], [0], map[0 := [0]], 1);
    R.NextIs(v0, 10);
    O.NextInv(v0, 10);
    assert P.Enter(v0, m, false) == v1 by {
      assert P.Items(v0.table, m.key) + [first] == [first];
    }
    AllOnesJoins(first, m);
    R.NextIs(v1, 10);
    assert [first][0 := item] == [item] && [0] + [1] == [0, 1];
    R.RunStep(v0, 10, 0);
    R.RunStep(v0, 10, 1);
    R.RunStart(v0, 10);
  }

  lemma UdpStateIs(tv: View, uv: P.UdpView, offset: nat, start: seq<Buf>, views: seq<View>, toWrite: seq<nat>)
    requires Running(tv, uv, true, offset, start, views, toWrite) && tv.n == |start|
    ensures R.CapsOk(start, offset) && uv == R.RunOf(start, offset, |start|)
  {
    hide Inv, R.RunOf, History, Pick;
  }

  lemma AllOnesMerged(h: Handler) returns (item: P.UdpItem)
    requires h.Finished() && h.start == Two(ALL_ONES, ALL_ONES) && h.offset == 10 && h.canUdpGro
    ensures UdpMerged(h.udp.view, 0) && item in U.AllItems(h.udp.view.table) && item.bufsIndex == 0 && item.iphLen == 20
    ensures h.udp.view.groups == map[0 := [0, 1]] && h.udp.view.orig == [ALL_ONES, ALL_ONES]
  {
    hide Running, R.RunOf;
    item := AllOnesMerge();
    UdpStateIs(h.tcp.view, h.udp.view, 10, Two(ALL_ONES, ALL_ONES), h.views, h.toWrite);
    assert item in h.udp.view.table[item.key];
  }

  lemma TwoFit(first: Bytes, second: Bytes)
    requires 1 <= |first| <= 1990 && 1 <= |second| <= 1990
    ensures VIRTIO_NET_HDR_LEN <= 10 && R.CapsOk(Two(first, second), 10)
    ensures |Two(first, second)| == 2 && forall j :: 0 <= j < 2 ==> Two(first, second)[j].pkt != []
  {
  }

  lemma AllOnesBack(uv: P.UdpView, item: P.UdpItem, outBuffs: seq<Bytes>, sizes: seq<nat>, n: int, tooMany: bool)
    requires |outBuffs| == |sizes| == 2 && UdpRestored(uv, 0, outBuffs, sizes, n, tooMany)
    requires item in U.AllItems(uv.table) && item.bufsIndex == 0 && item.iphLen == 20
    requires uv.groups == map[0 := [0, 1]] && uv.orig == [ALL_ONES, ALL_ONES]
    ensures n == 2 && forall k :: 0 <= k < 2 ==> 28 <= sizes[k] <= |outBuffs[k]| && Be16(outBuffs[k][..sizes[k]], 26) == 0
  {
    AllOnesIsUdp();
    assert U.Restored(uv, item, outBuffs, sizes, n, tooMany);
    forall k | 0 <= k < 2 ensures 28 <= sizes[k] <= |outBuffs[k]| && Be16(outBuffs[k][..sizes[k]], 26) == 0 {
      assert U.SameDatagram(uv, item, k, outBuffs[k][..sizes[k]]);
    }
  }

  /** Two datagrams with the checksum 0xFFFF come back with the checksum 0, which in UDP stands for no checksum. */
  method AllOnesLost() returns (n: int, outBuffs: array<Bytes>, sizes: array<nat>)
    ensures Be16(ALL_ONES, 26) == 0xFFFF && n == outBuffs.Length == sizes.Length == 2
    ensures forall k :: 0 <= k < 2 ==> 28 <= sizes[k] <= |outBuffs[k]| && Be16(outBuffs[k][..sizes[k]], 26) == 0
  {
    hide *;
    AllOnesIsUdp();
    TwoFit(ALL_ONES, ALL_ONES);
    var h := new Handler(Two(ALL_ONES, ALL_ONES), 10, true);
    outBuffs := new Bytes[2](_ => seq(0xFFFF, _ => 0));
    sizes := new nat[2](_ => 0);
    var ok, merged, tooMany;
    ok, merged, n, tooMany := CoalesceThenSplit(h, 0, outBuffs, sizes);
    ghost var item := AllOnesMerged(h);
    AllOnesBack(h.udp.view, item, outBuffs[..], sizes[..], n, tooMany);
  }

  // ---------- a header that is not written ----------

  /** TCP data of one byte, with sequence number 0 and a wrong checksum, and the byte that follows it. */
  const FIRST: Bytes := TCP_IP + FIRST_SEGMENT
  const SECOND: Bytes := TCP_IP + SECOND_SEGMENT

  const TCP_IP: Bytes := [0x45, 0, 0, 41, 0, 0, 0, 0, 64, 6, 0, 0, 10, 0, 0, 1, 10, 0, 0, 2]
  const FIRST_SEGMENT: Bytes := [0, 1, 0, 2, 0, 0, 0, 0, 0, 0, 0, 0, 0x50, 0x10, 0, 0, 0, 0, 0, 0, 7]
  const SECOND_SEGMENT: Bytes := [0, 1, 0, 2, 0, 0, 0, 1, 0, 0, 0, 0, 0x50, 0x10, 0, 0, 0, 0, 0, 0, 7]
  const TCP_SRC: Bytes := [10, 0, 0, 1]
  const TCP_DST: Bytes := [10, 0, 0, 2]

  const TCP_KEY := FlowKey(TCP_SRC, TCP_DST, 1, 2, 0, false)

  function MetaOf(sequence: nat): TcpMeta {
    TcpMeta(20, 20, sequence, false, 1, TCP_KEY)
  }

  /** Byte for byte, an IPv4 header for TCP data of one byte. */
  predicate IsHeader(ip: Bytes) {
    && |ip| == 20
    && ip[0] == 0x45 && ip[1] == 0 && ip[2] == 0 && ip[3] == 41 && ip[6] == 0 && ip[7] == 0 && ip[8] == 64 && ip[9] == 6
    && ip[12] == 10 && ip[13] == 0 && ip[14] == 0 && ip[15] == 1 && ip[16] == 10 && ip[17] == 0 && ip[18] == 0 && ip[19] == 2
  }

  predicate IsSegment(tcp: Bytes, sequence: nat) {
    && |tcp| == 21
    && tcp[0] == 0 && tcp[1] == 1 && tcp[2] == 0 && tcp[3] == 2
    && tcp[4] == 0 && tcp[5] == 0 && tcp[6] == 0 && tcp[7] == sequence
    && tcp[8] == 0 && tcp[9] == 0 && tcp[10] == 0 && tcp[11] == 0 && tcp[12] == 0x50 && tcp[13] == 0x10
  }

  predicate IsOneByte(b: Bytes, sequence: nat) {
    |b| == 41 && IsHeader(b[..20]) && IsSegment(b[20..], sequence)
  }

  lemma OneByteParts(b: Bytes, sequence: nat)
    requires IsOneByte(b, sequence)
    ensures SrcAddr(b, false) == TCP_SRC && DstAddr(b, false) == TCP_DST
    ensures Be16(b, 20) == 1 && Be16(b, 22) == 2 && Be32(b, 24) == sequence && Be32(b, 28) == 0
  {
    assert b[12..16] == TCP_SRC && b[16..20] == TCP_DST;
  }

  lemma OneByteIsTcp(b: Bytes, sequence: nat)
    requires IsOneByte(b, sequence)
    ensures IsTcpCandidate(b, false) && ParseTcp(b, false) == Some(MetaOf(sequence))
  {
    OneByteParts(b, sequence);
    hide SrcAddr, DstAddr, Be16, Be32;
    CandidateKinds(b, false);
  }

  lemma OneByteIs(ip: Bytes, tcp: Bytes, sequence: nat)
    requires IsHeader(ip) && IsSegment(tcp, sequence)
    ensures |ip + tcp| == 41 && IsOneByte(ip + tcp, sequence) && (ip + tcp)[20..] == tcp
  {
    assert (ip + tcp)[..20] == ip && (ip + tcp)[20..] == tcp;
  }

  lemma IsTcpHeader()
    ensures IsHeader(TCP_IP)
  {
  }

  lemma AreSegments()
    ensures IsSegment(FIRST_SEGMENT, 0) && IsSegment(SECOND_SEGMENT, 1)
  {
  }

  lemma BothAreOneByte()
    ensures |FIRST| == |SECOND| == 41 && IsOneByte(FIRST, 0) && IsOneByte(SECOND, 1)
  {
    hide IsHeader, IsSegment, IsOneByte;
    IsTcpHeader();
    AreSegments();
    OneByteIs(TCP_IP, FIRST_SEGMENT, 0);
    OneByteIs(TCP_IP, SECOND_SEGMENT, 1);
  }

  lemma FirstSum()
    ensures Sum32(FIRST_SEGMENT) == 0x5011_0702
  {
    hide Sum32;
    var tail: Bytes := [7];
    var c: Bytes := [0, 0, 0, 0] + tail;
    var b: Bytes := [0x50, 0x10, 0, 0] + c;
    var a: Bytes := [0, 0, 0, 0] + ([0, 0, 0, 0] + b);
    R.FourBytes(0, 0, 0, 0, tail);
    R.FourBytes(0x50, 0x10, 0, 0, c);
    R.FourBytes(0, 0, 0, 0, b);
    R.FourBytes(0, 0, 0, 0, [0, 0, 0, 0] + b);
    R.FourBytes(0, 1, 0, 2, a);
    assert FIRST_SEGMENT == [0, 1, 0, 2] + a;
    R.OneLeft(7);
  }

  lemma FirstNotIntact()
    ensures !T.Intact(FIRST, MetaOf(0)) && !T.Intact(FIRST, MetaOf(1))
  {
    hide Sum32, SrcAddr, DstAddr;
    OneByteIs(TCP_IP, FIRST_SEGMENT, 0);
    OneByteParts(FIRST, 0);
    FirstSum();
    R.OneLeft(0);
    R.FourBytes(10, 0, 0, 1, []);
    R.FourBytes(10, 0, 0, 2, []);
    assert TCP_SRC == [10, 0, 0, 1] + [] && TCP_DST == [10, 0, 0, 2] + [];
    assert PseudoSum(IPPROTO_TCP, TCP_SRC, TCP_DST, 21) == 0x1400_001E;
  }

  const FIRST_ITEM := NewItem(MetaOf(0), 0)

  /** The second packet would be merged with the first, were it not for the checksum. */
  lemma FirstSpoiled(first: Bytes, second: Bytes)
    requires IsOneByte(first, 0) && IsOneByte(second, 1) && !T.Intact(first, MetaOf(1))
    ensures T.Spoiled(Two(first, second), 10, 1, MetaOf(1), FIRST_ITEM)
  {
    hide T.Intact;
    var bufs := Two(first, second);
    assert bufs[0].pkt == first && bufs[1].pkt == second;
    assert TcpPacketsCanCoalesce(second, MetaOf(1), FIRST_ITEM, first) == CoalesceAppend;
  }

  lemma FirstEnters(first: Bytes, second: Bytes, v: View)
    requires IsOneByte(first, 0) && T.Stepped(Start(Two(first, second)), v, 10) && Inv(v, 10)
    ensures v.bufs == Two(first, second) && v.table == map[TCP_KEY := [FIRST_ITEM]] && 0 in v.live && 0 in v.toWrite
  {
    hide ParseTcp, T.Intact, T.Suits, Inv, T.Refused, T.Joined, PacketIsGroCandidate, IsOneByte;
    OneByteIsTcp(first, 0);
    var start := Start(Two(first, second));
    assert start.bufs[0].pkt == first;
    T.NoItems(start, 10, 0, MetaOf(0));
    T.KeptNone(start.bufs, 10, 0, MetaOf(0));
    assert [] + [FIRST_ITEM] == [FIRST_ITEM];
    assert v.table[TCP_KEY][0].bufsIndex == 0;
    LiveIn(v, 10, TCP_KEY, 0);
  }

  lemma SecondDrops(first: Bytes, second: Bytes, v: View)
    requires IsOneByte(first, 0) && IsOneByte(second, 1) && !T.Intact(first, MetaOf(1))
    requires v.n == 1 && v.bufs == Two(first, second) && v.table == map[TCP_KEY := [FIRST_ITEM]]
    ensures DropsNow(v, 10, 0)
  {
    hide IsTcpCandidate, ParseTcp, T.Spoiled, T.Suits, T.Intact, IsOneByte;
    OneByteIsTcp(second, 1);
    FirstSpoiled(first, second);
    SpoiledDoesNotSuit(v.bufs, 10, 1, MetaOf(1), FIRST_ITEM);
    assert DropsItem(v, 10, MetaOf(1), [FIRST_ITEM], 0, 0);
  }

  lemma StaysWritten(v: View, v': View, offset: nat, w: nat)
    requires T.Stepped(v, v', offset) && w in v.toWrite
    ensures w in v'.toWrite
  {
    hide T.IsOutcome, IsTcpCandidate, PacketIsGroCandidate;
  }

  lemma FirstDropped(first: Bytes, second: Bytes, tv: View, uv: P.UdpView, views: seq<View>, toWrite: seq<nat>)
    requires IsOneByte(first, 0) && IsOneByte(second, 1) && !T.Intact(first, MetaOf(1))
    requires Running(tv, uv, false, 10, Two(first, second), views, toWrite) && tv.n == 2
    ensures Dropped(tv, views, 0) && 0 in toWrite
  {
    hide Inv, T.Stepped, O.Inv, R.RunOf, DropsNow, Joint, IsOneByte, T.Intact, Pick;
    StepOf(views, 10, 0);
    StepOf(views, 10, 1);
    assert Inv(views[1], 10) && Inv(views[2], 10) && views[1].n == 1;
    FirstEnters(first, second, views[1]);
    SecondDrops(first, second, views[1]);
    StepLive(views[1], views[2], 10, 0);
    OneByteIsTcp(first, 0);
    assert tv.orig == views[0].orig && tv.orig[0] == first;
    StaysWritten(views[1], views[2], 10, 0);
    PickIn(2, Both(tv, uv, false), 0);
  }

  lemma HeaderMissing(h: Handler)
    requires h.Finished() && h.start == Two(FIRST, SECOND) && h.offset == 10 && !h.canUdpGro
    ensures 0 in h.toWrite && 0 !in h.vector.vhdrs
  {
    hide Running, Ready, IsOneByte, T.Intact, Dropped;
    BothAreOneByte();
    FirstNotIntact();
    FirstDropped(FIRST, SECOND, h.tcp.view, h.udp.view, h.views, h.toWrite);
    HeaderWritten(h.tcp.view, h.udp.view, false, 10, h.start, h.views, h.toWrite, h.vector.bufs, h.vector.vhdrs, 0);
  }

  /** The first packet is written, and no virtio header is written in front of it. */
  method HeaderNotWritten() returns (ok: bool, toWrite: seq<nat>, vhdrs: map<nat, Option<VirtioNetHdr>>)
    ensures ok && 0 in toWrite && 0 !in vhdrs
  {
    hide *;
    BothAreOneByte();
    TwoFit(FIRST, SECOND);
    var h := new Handler(Two(FIRST, SECOND), 10, false);
    ok := h.HandleGRO();
    toWrite, vhdrs := h.toWrite, h.vector.vhdrs;
    HeaderMissing(h);
  }
}
