/** Two TCP packets that come in the wrong order, of which the later one in the sequence has PSH: it is lost when the earlier
    one is put in front (wireguard/tun/offload_linux.go:450-474). */
module FlagExamples {
  import opened InternetChecksum
  import opened Gso
  import opened GroPackets
  import opened GroGroups
  import opened GroState
  import opened PacketFields
  import opened OffloadState
  import opened Offload
  import T = Gro
  import H = OffloadHeaders
  import M = TcpMerging
  import R = UdpRuns
  import X = OffloadExamples

  /** One byte of data with sequence number 1 and PSH, and the byte before it; both checksums are right. */
  const LATE: Bytes := X.TCP_IP + LATE_SEGMENT
  const EARLY: Bytes := X.TCP_IP + EARLY_SEGMENT

  const LATE_SEGMENT: Bytes := [0, 1, 0, 2, 0, 0, 0, 1, 0, 0, 0, 0, 0x50, 0x18, 0, 0, 0x94, 0xC5, 0, 0, 7]
  const EARLY_SEGMENT: Bytes := [0, 1, 0, 2, 0, 0, 0, 0, 0, 0, 0, 0, 0x50, 0x10, 0, 0, 0x94, 0xCE, 0, 0, 7]

  predicate IsSegment(tcp: Bytes, sequence: nat, flags: Byte) {
    && |tcp| == 21
    && tcp[0] == 0 && tcp[1] == 1 && tcp[2] == 0 && tcp[3] == 2
    && tcp[4] == 0 && tcp[5] == 0 && tcp[6] == 0 && tcp[7] == sequence
    && tcp[8] == 0 && tcp[9] == 0 && tcp[10] == 0 && tcp[11] == 0 && tcp[12] == 0x50 && tcp[13] == flags
  }

  predicate IsOneByte(b: Bytes, sequence: nat, flags: Byte) {
    |b| == 41 && X.IsHeader(b[..20]) && IsSegment(b[20..], sequence, flags)
  }

  lemma OneByteIs(ip: Bytes, tcp: Bytes, sequence: nat, flags: Byte)
    requires X.IsHeader(ip) && IsSegment(tcp, sequence, flags)
    ensures |ip + tcp| == 41 && IsOneByte(ip + tcp, sequence, flags) && (ip + tcp)[20..] == tcp && (ip + tcp)[..20] == ip
  {
    assert (ip + tcp)[..20] == ip && (ip + tcp)[20..] == tcp;
  }

  lemma OneByteIsPlain(b: Bytes, sequence: nat, flags: Byte)
    requires IsOneByte(b, sequence, flags) && (flags == ACK || flags == PSH_ACK)
    ensures PlainTcp(b, false) && Flow(b, false) == X.TCP_KEY && SeqNum(b, false) == sequence && Flags(b, false) == flags
    ensures TcpLen(b, false) == 20 && DataLen(b, false) == 1 && b[1] == 0 && b[6] == 0 && b[8] == 64
  {
    assert b[12..16] == X.TCP_SRC && b[16..20] == X.TCP_DST;
  }

  lemma BothAreOneByte()
    ensures |LATE| == |EARLY| == 41 && IsOneByte(LATE, 1, PSH_ACK) && IsOneByte(EARLY, 0, ACK)
    ensures LATE[20..] == LATE_SEGMENT && EARLY[20..] == EARLY_SEGMENT
  {
    hide X.IsHeader, IsOneByte, IsSegment;
    X.IsTcpHeader();
    AreSegments();
    OneByteIs(X.TCP_IP, LATE_SEGMENT, 1, PSH_ACK);
    OneByteIs(X.TCP_IP, EARLY_SEGMENT, 0, ACK);
  }

  lemma AreSegments()
    ensures IsSegment(LATE_SEGMENT, 1, PSH_ACK) && IsSegment(EARLY_SEGMENT, 0, ACK)
  {
  }

  /** The sum of a segment of 21 bytes with these fields. */
  lemma SegmentSum(sequence: Byte, flags: Byte, high: Byte, low: Byte)
    ensures var segment: Bytes := [0, 1, 0, 2, 0, 0, 0, sequence, 0, 0, 0, 0, 0x50, flags, 0, 0, high, low, 0, 0, 7];
            Sum32(segment) == 0x0001_0002 + sequence + 0x5000_0000 + 0x1_0000 * flags + 0x100_0000 * high + 0x1_0000 * low + 0x700
  {
    hide Sum32;
    var tail: Bytes := [7];
    var d: Bytes := [high, low, 0, 0] + tail;
    var c: Bytes := [0x50, flags, 0, 0] + d;
    var b: Bytes := [0, 0, 0, 0] + c;
    var a: Bytes := [0, 0, 0, sequence] + b;
    R.FourBytes(high, low, 0, 0, tail);
    R.FourBytes(0x50, flags, 0, 0, d);
    R.FourBytes(0, 0, 0, 0, c);
    R.FourBytes(0, 0, 0, sequence, b);
    R.FourBytes(0, 1, 0, 2, a);
    assert [0, 1, 0, 2, 0, 0, 0, sequence, 0, 0, 0, 0, 0x50, flags, 0, 0, high, low, 0, 0, 7] == [0, 1, 0, 2] + a;
    R.OneLeft(7);
  }

  lemma ChecksumsRight()
    ensures M.ChecksumRight(LATE, false) && M.ChecksumRight(EARLY, false)
  {
    hide Sum32, SrcAddr, DstAddr, IsOneByte;
    BothAreOneByte();
    Addresses(LATE, 1, PSH_ACK);
    Addresses(EARLY, 0, ACK);
    SegmentSum(1, 0x18, 0x94, 0xC5);
    SegmentSum(0, 0x10, 0x94, 0xCE);
    R.FourBytes(10, 0, 0, 1, []);
    R.FourBytes(10, 0, 0, 2, []);
    R.OneLeft(0);
    assert X.TCP_SRC == [10, 0, 0, 1] + [] && X.TCP_DST == [10, 0, 0, 2] + [];
    assert PseudoSum(6, X.TCP_SRC, X.TCP_DST, 21) == 0x1400_001E;
  }

  lemma Addresses(b: Bytes, sequence: nat, flags: Byte)
    requires IsOneByte(b, sequence, flags)
    ensures SrcAddr(b, false) == X.TCP_SRC && DstAddr(b, false) == X.TCP_DST
  {
    assert b[12..16] == X.TCP_SRC && b[16..20] == X.TCP_DST;
  }

  lemma EarlyPrecedes(late: Bytes, early: Bytes)
    requires IsOneByte(late, 1, PSH_ACK) && IsOneByte(early, 0, ACK)
    ensures M.AllPlain([late, early], [0], 1, false) && M.Precedes([late, early], [0], 1, false) && !M.Follows([late, early], [0], 1, false)
  {
    OneByteIsPlain(late, 1, PSH_ACK);
    OneByteIsPlain(early, 0, ACK);
    hide IsOneByte, PlainTcp, TcpLen, DataLen, SeqNum, Flags, Flow;
    assert [late, early][0] == late && [late, early][1] == early && [0][0] == 0;
    assert late[40..40] == early[40..40];
  }

  function LateMeta(): TcpMeta {
    TcpMeta(20, 20, 1, true, 1, X.TCP_KEY)
  }

  const LATE_ITEM := NewItem(LateMeta(), 0)

  lemma LateEnters(late: Bytes, early: Bytes, v: View)
    requires IsOneByte(late, 1, PSH_ACK) && T.Stepped(Start(X.Two(late, early)), v, 10) && Inv(v, 10)
    ensures v.bufs == X.Two(late, early) && v.table == map[X.TCP_KEY := [LATE_ITEM]] && v.groups == map[0 := [0]] && v.n == 1
  {
    OneByteIsPlain(late, 1, PSH_ACK);
    hide ParseTcp, T.Intact, T.Suits, Inv, T.Refused, T.Joined, PacketIsGroCandidate, IsOneByte, PlainTcp, TcpLen, DataLen, SeqNum, Flags, Flow;
    PlainTcpIff(late, false);
    var start := Start(X.Two(late, early));
    assert start.bufs[0].pkt == late;
    T.NoItems(start, 10, 0, LateMeta());
    T.KeptNone(start.bufs, 10, 0, LateMeta());
    assert [] + [LATE_ITEM] == [LATE_ITEM];
  }

  lemma EarlyTaken(late: Bytes, early: Bytes, v: View)
    requires IsOneByte(late, 1, PSH_ACK) && IsOneByte(early, 0, ACK) && M.ChecksumRight(late, false)
    requires v.n == 1 && v.orig == [late, early] && v.bufs == X.Two(late, early) && v.table == map[X.TCP_KEY := [LATE_ITEM]] && v.groups == map[0 := [0]]
    ensures M.NewestTaker(v, 10, X.TCP_KEY, 0)
    ensures M.IsItem(v, X.TCP_KEY, 0) && M.GroupsJoined(v, X.TCP_KEY, 0) == map[0 := [1, 0]]
  {
    OneByteIsPlain(late, 1, PSH_ACK);
    OneByteIsPlain(early, 0, ACK);
    EarlyPrecedes(late, early);
    PayloadsStep([late, early], [0], 40);
    PayloadsNone([late, early], 40);
    hide IsOneByte, PlainTcp, TcpLen, DataLen, SeqNum, Flags, Flow, M.AllPlain, M.Precedes, M.Follows, M.ChecksumRight, Payloads;
    assert [0][1..] == [] && [1] + [0] == [1, 0];
    assert v.groups[0 := [1, 0]] == map[0 := [1, 0]];
  }

  lemma PutInFront(late: Bytes, early: Bytes, tv: View, views: seq<View>)
    requires IsOneByte(late, 1, PSH_ACK) && IsOneByte(early, 0, ACK) && M.ChecksumRight(late, false) && M.ChecksumRight(early, false)
    requires History(views, tv, 10, X.Two(late, early)) && tv.n == 2
    ensures tv.orig == [late, early] && tv.groups == map[0 := [1, 0]]
  {
    OneByteIsPlain(early, 0, ACK);
    hide IsOneByte, PlainTcp, TcpLen, DataLen, SeqNum, Flags, Flow, M.ChecksumRight, Inv, T.Stepped, M.NewestTaker, M.IsItem, M.GroupsJoined;
    assert tv.orig == views[0].orig && tv.orig == [late, early];
    H.StepOf(views, 10, 0);
    assert Inv(views[1], 10);
    LateEnters(late, early, views[1]);
    EarlyTaken(late, early, views[1]);
    M.RunGoes(views, tv, 10, X.Two(late, early), 1, false);
  }

  lemma MergedInFront(tv: View)
    requires Inv(tv, 10) && tv.groups == map[0 := [1, 0]]
    ensures TcpMerged(tv, 0)
  {
    hide TableOk, WriteOk, PartitionOk, BufsOk, Tracks;
    assert GroupOk(tv, 0);
    if 0 in tv.live {
      TracksCount(tv.orig, tv.bufs[0].pkt, tv.groups[0], tv.live[0]);
    }
  }

  lemma PshGone(tv: View, seg: Bytes)
    requires tv.orig == [LATE, EARLY] && tv.groups == map[0 := [1, 0]] && 0 in tv.live && !tv.live[0].key.isV6 && T.SamePacket(tv, 0, 1, seg)
    ensures Flags(seg, false) == ACK
  {
    hide IsOneByte, PlainTcp, Flow;
    BothAreOneByte();
    OneByteIsPlain(LATE, 1, PSH_ACK);
    assert tv.groups[0][1] == 0 && tv.groups[0][0] == 1;
  }

  /** A byte with PSH is followed by the byte before it: they are merged, and after segmentation PSH is gone. */
  lemma PshLost(h: Handler, outBuffs: seq<Bytes>, sizes: seq<nat>, n: int, tooMany: bool)
    requires h.Finished() && h.start == X.Two(LATE, EARLY) && h.offset == 10
    requires |outBuffs| == |sizes| == 2
    ensures TcpMerged(h.tcp.view, 0) && 0 in h.tcp.view.groups
    ensures T.Restored(h.tcp.view, 0, outBuffs, sizes, n, tooMany) ==>
              n == 2 && sizes[1] <= |outBuffs[1]| && Flags(LATE, false) == PSH_ACK && Flags(outBuffs[1][..sizes[1]], false) == ACK
  {
    hide Ready, Inv, T.SamePacket, IsOneByte, M.ChecksumRight, Joint, Pick;
    BothAreOneByte();
    ChecksumsRight();
    OneByteIsPlain(LATE, 1, PSH_ACK);
    var tv := h.tcp.view;
    assert Inv(tv, 10);
    PutInFront(LATE, EARLY, tv, h.views);
    MergedInFront(tv);
    LateIsV4(tv);
    if T.Restored(tv, 0, outBuffs, sizes, n, tooMany) {
      PshGone(tv, outBuffs[1][..sizes[1]]);
    }
  }

  lemma LateIsV4(tv: View)
    requires Inv(tv, 10) && 0 in tv.live && tv.orig == [LATE, EARLY] && tv.groups == map[0 := [1, 0]]
    ensures !tv.live[0].key.isV6
  {
    hide Inv;
    M.LiveIsPlain(tv, 10, 0, 1);
  }

  /** The same through handleGRO and gsoSplit. */
  method SplitWithoutPsh() returns (n: int, outBuffs: array<Bytes>, sizes: array<nat>)
    ensures n == outBuffs.Length == sizes.Length == 2 && sizes[1] <= |outBuffs[1]|
    ensures Flags(LATE, false) == PSH_ACK && Flags(outBuffs[1][..sizes[1]], false) == ACK
  {
    hide *;
    BothAreOneByte();
    X.TwoFit(LATE, EARLY);
    var h := new Handler(X.Two(LATE, EARLY), 10, false);
    outBuffs := new Bytes[2](_ => seq(0xFFFF, _ => 0));
    sizes := new nat[2](_ => 0);
    var ok, merged, tooMany;
    ok, merged, n, tooMany := CoalesceThenSplit(h, 0, outBuffs, sizes);
    PshLost(h, outBuffs[..], sizes[..], n, tooMany);
  }
}
