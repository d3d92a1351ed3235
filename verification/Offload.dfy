/** handleGRO with both tables over one vector of packets, and the way back through segmentation
    (wireguard/tun/offload_linux.go:865-983). */
module Offload {
  import opened InternetChecksum
  import opened Options
  import opened Gso
  import opened GroPackets
  import opened GroGroups
  import opened GroState
  import opened OffloadState
  import G = GroGso
  import S = UdpGso
  import T = Gro
  import P = UdpPackets
  import O = UdpOrder
  import R = UdpRuns
  import U = UdpGro

  class Handler {
    const offset: nat
    const canUdpGro: bool
    const vector: Vector
    const tcp: T.TcpGro
    const udp: U.UdpGro
    var toWrite: seq<nat>
    ghost const start: seq<Buf>  // the vector as it came
    ghost var views: seq<View>   // the states of the TCP table before, between and after the packets

    ghost predicate Parts()
      reads this
    {
      tcp.vector == vector && udp.vector == vector && tcp.offset == offset && udp.offset == offset
    }

    ghost predicate Valid()
      reads this, vector, tcp, udp
    {
      && Parts() && tcp.Valid() && udp.Valid()
      && Running(tcp.view, udp.view, canUdpGro, offset, start, views, toWrite)
      && Others(tcp.view.orig, canUdpGro, start, vector.bufs)
      && ZeroHeaders(views, tcp.view.orig, canUdpGro, toWrite, vector.vhdrs)
    }

    constructor (bufs: seq<Buf>, offset: nat, canUdpGro: bool)
      requires R.CapsOk(bufs, offset)
      ensures Valid() && fresh(vector) && fresh(tcp) && fresh(udp) && tcp.view.n == 0 && toWrite == []
      ensures start == bufs && this.offset == offset && this.canUdpGro == canUdpGro
    {
      var vector := new Vector(bufs);
      var tcp := new T.TcpGro(vector, offset);
      var udp := new U.UdpGro(vector, offset);
      this.offset, this.canUdpGro, this.vector, this.tcp, this.udp := offset, canUdpGro, vector, tcp, udp;
      toWrite, start, views := [], bufs, [Start(bufs)];
      new;
      Beginning(canUdpGro, offset, bufs);
    }

    /** Valid once packet `i` has been listed and its header written as `result` asks for. */
    ghost predicate Handled(i: nat, result: GroResult)
      reads this, vector, tcp, udp
    {
      var listed := if result == Coalesced then toWrite else toWrite + [i];
      && Parts() && tcp.Valid() && udp.Valid()
      && Running(tcp.view, udp.view, canUdpGro, offset, start, views, listed)
      && Others(tcp.view.orig, canUdpGro, start, vector.bufs)
      && ZeroHeaders(views, tcp.view.orig, canUdpGro, listed, if result == Noop then vector.vhdrs[i := None] else vector.vhdrs)
    }

    /** A packet for tcpGRO; the UDP table has nothing to do with it. */
    method HandleTcp(i: nat, isV6: bool) returns (result: GroResult)
      requires Valid() && i == tcp.view.n < |start| && i < |tcp.view.orig| && IsTcpCandidate(tcp.view.orig[i], isV6)
      modifies this`views, vector`bufs, tcp`table, tcp`view, udp`view
      ensures Handled(i, result) && tcp.view.n == i + 1
    {
      hide Inv, O.Inv, Running, Others, ZeroHeaders, T.Shows, U.Shows, T.Spares, O.Next, T.Stepped, IsTcpCandidate, IsTcp, IsUdp, P.Udp, Entered;
      ghost var tv, uv, before := tcp.view, udp.view, vector.bufs;
      Here(tv, uv, canUdpGro, offset, start, views, toWrite, before);
      T.TcpIsTcp(tv.orig[i], isV6);
      TcpIsNotUdp(tv.orig[i]);
      result := tcp.HandleTcp(i, isV6);
      TcpSparesUdp(tv.orig, uv, canUdpGro, start, before, vector.bufs);
      if canUdpGro {
        udp.PassOther();
      }
      RunningStep(tv, uv, canUdpGro, offset, start, views, toWrite, tcp.view, udp.view, result == Coalesced, false);
      TcpEntered(views, tcp.view, canUdpGro, i);
      HeadersStep(views, tv.orig, canUdpGro, toWrite, vector.vhdrs, i, tcp.view, result);
      views := views + [tcp.view];
    }

    /** A packet for udpGRO; the TCP table has nothing to do with it. */
    method HandleUdp(i: nat, isV6: bool) returns (result: GroResult)
      requires Valid() && i == tcp.view.n < |start| && i < |tcp.view.orig| && IsUdpCandidate(tcp.view.orig[i], isV6) && canUdpGro
      modifies this`views, vector`bufs, tcp`view, udp`table, udp`view
      ensures Handled(i, result) && tcp.view.n == i + 1
    {
      hide Inv, O.Inv, Running, Others, ZeroHeaders, T.Shows, U.Shows, U.Spares, O.Next, T.Stepped, IsUdpCandidate, IsTcp, IsUdp, P.Udp, Entered;
      ghost var tv, uv, before := tcp.view, udp.view, vector.bufs;
      Here(tv, uv, canUdpGro, offset, start, views, toWrite, before);
      UdpIsUdp(tv.orig[i], isV6);
      UdpIsNotTcp(tv.orig[i]);
      result := udp.UdpGRO(i, isV6);
      UdpSparesTcp(tv.orig, tv, start, before, vector.bufs);
      tcp.PassOther();
      UdpEntered(views, tcp.view, i);
      RunningStep(tv, uv, canUdpGro, offset, start, views, toWrite, tcp.view, udp.view, false, result == Coalesced);
      HeadersStep(views, tv.orig, canUdpGro, toWrite, vector.vhdrs, i, tcp.view, result);
      views := views + [tcp.view];
    }

    /** A packet for neither. */
    ghost method HandleOther()
      requires Valid() && tcp.view.n < |start| && tcp.view.n < |tcp.view.orig|
      requires !IsTcp(tcp.view.orig[tcp.view.n]) && (canUdpGro ==> !IsUdp(tcp.view.orig[tcp.view.n]))
      modifies this`views, tcp`view, udp`view
      ensures Handled(old(tcp.view.n), Noop) && tcp.view.n == old(tcp.view.n) + 1
    {
      hide Inv, O.Inv, Running, Others, ZeroHeaders, T.Shows, U.Shows, O.Next, T.Stepped, IsTcp, IsUdp, P.Udp, Entered;
      var tv, uv := tcp.view, udp.view;
      Here(tv, uv, canUdpGro, offset, start, views, toWrite, vector.bufs);
      tcp.PassOther();
      if canUdpGro {
        U.NotUdp(tv.orig[tv.n]);
        udp.PassOther();
      }
      RunningStep(tv, uv, canUdpGro, offset, start, views, toWrite, tcp.view, udp.view, false, false);
      NotEntered(views, tcp.view, canUdpGro, tv.n);
      HeadersStep(views, tv.orig, canUdpGro, toWrite, vector.vhdrs, tv.n, tcp.view, Noop);
      views := views + [tcp.view];
    }

    /** One iteration of the loop of handleGRO. */
    method HandlePacket(i: nat)
      requires Valid() && i == tcp.view.n < |start|
      modifies this`toWrite, this`views, vector, tcp`table, tcp`view, udp`table, udp`view
      ensures Valid() && tcp.view.n == i + 1
    {
      hide Inv, O.Inv, Running, Others, ZeroHeaders, T.Shows, U.Shows, IsTcp, IsUdp, IsTcpCandidate, IsUdpCandidate;
      Here(tcp.view, udp.view, canUdpGro, offset, start, views, toWrite, vector.bufs);
      CandidateKinds(vector.bufs[i].pkt, canUdpGro);
      var result := Noop;
      match PacketIsGroCandidate(vector.bufs[i].pkt, canUdpGro) {
        case Tcp4Candidate => result := HandleTcp(i, false);
        case Tcp6Candidate => result := HandleTcp(i, true);
        case Udp4Candidate => result := HandleUdp(i, false);
        case Udp6Candidate => result := HandleUdp(i, true);
        case NotGroCandidate => HandleOther();
      }
      if result == Noop {
        vector.vhdrs := vector.vhdrs[i := None];
      }
      if result != Coalesced {
        toWrite := toWrite + [i];
      }
    }

    /** handleGRO: `ok` is false when the offset is too small or a buffer too short for it. */
    method HandleGRO() returns (ok: bool)
      requires Valid() && tcp.view.n == 0
      modifies this`toWrite, this`views, vector, tcp`table, tcp`view, udp`table, udp`view
      ensures ok <==> (start == [] || offset >= VIRTIO_NET_HDR_LEN) && forall j :: 0 <= j < |start| ==> start[j].pkt != []
      ensures ok ==> Finished()
    {
      hide Inv, O.Inv, Running, Others, ZeroHeaders, T.Shows, U.Shows, T.Accounted, U.Accounted, Ready;
      var i := 0;
      Same(tcp.view, udp.view, canUdpGro, offset, start, views, toWrite, vector.bufs);
      while i < |vector.bufs|
        invariant 0 <= i <= |vector.bufs| == |start| && Valid() && tcp.view.n == i
        invariant i > 0 ==> offset >= VIRTIO_NET_HDR_LEN
        invariant forall j :: 0 <= j < i ==> start[j].pkt != []
      {
        Here(tcp.view, udp.view, canUdpGro, offset, start, views, toWrite, vector.bufs);
        if offset < VIRTIO_NET_HDR_LEN || |vector.bufs[i].pkt| == 0 {
          return false;
        }
        HandlePacket(i);
        Same(tcp.view, udp.view, canUdpGro, offset, start, views, toWrite, vector.bufs);
        i := i + 1;
      }
      ghost var b0, h0 := vector.bufs, vector.vhdrs;
      tcp.ApplyTCPCoalesceAccounting();
      ghost var b1, h1 := vector.bufs, vector.vhdrs;
      AccountedSpares(tcp.view, offset, b0, b1, h0, h1);
      Same(tcp.view, udp.view, canUdpGro, offset, start, views, toWrite, b0);
      TcpSparesUdp(tcp.view.orig, udp.view, canUdpGro, start, b0, b1);
      udp.ApplyUDPCoalesceAccounting();
      NowReady(tcp.view, udp.view, canUdpGro, offset, start, views, toWrite, b0, h0, b1, h1, vector.bufs, vector.vhdrs);
      return true;
    }

    /** All packets have been handled, and everything is ready to be written. */
    ghost predicate Finished()
      reads this, vector, tcp, udp
    {
      && Parts() && tcp.view.table == tcp.table && udp.view.table == udp.table && tcp.view.n == |start|
      && Running(tcp.view, udp.view, canUdpGro, offset, start, views, toWrite)
      && Ready(tcp.view, udp.view, canUdpGro, views, toWrite, vector.bufs, vector.vhdrs)
    }
  }

  /** The next packet and its place. */
  lemma Here(tv: View, uv: P.UdpView, canUdpGro: bool, offset: nat, start: seq<Buf>, views: seq<View>, toWrite: seq<nat>, bufs: seq<Buf>)
    requires Running(tv, uv, canUdpGro, offset, start, views, toWrite) && T.Shows(bufs, tv) && U.Shows(bufs, uv)
    requires Others(tv.orig, canUdpGro, start, bufs) && tv.n < |start|
    ensures |bufs| == |tv.orig| == |start| && bufs[tv.n].pkt == tv.orig[tv.n] == start[tv.n].pkt && tv.orig == uv.orig && (canUdpGro ==> uv.n == tv.n)
    ensures |views| == tv.n + 1 && forall w :: w in toWrite ==> w < tv.n
  {
    hide Joint, Others, T.Shows, U.Shows, History, Pick;
    NextPacket(tv, uv, canUdpGro, offset, start, bufs);
    JointOrig(tv, uv, canUdpGro, offset, start);
    ListedBelow(tv, uv, canUdpGro, offset, start, views, toWrite);
  }

  lemma Same(tv: View, uv: P.UdpView, canUdpGro: bool, offset: nat, start: seq<Buf>, views: seq<View>, toWrite: seq<nat>, bufs: seq<Buf>)
    requires Running(tv, uv, canUdpGro, offset, start, views, toWrite) && Others(tv.orig, canUdpGro, start, bufs)
    ensures |bufs| == |start| == |tv.orig| && tv.orig == uv.orig
  {
    hide Joint, History, Pick;
    JointOrig(tv, uv, canUdpGro, offset, start);
  }

  lemma UdpIsUdp(b: Bytes, isV6: bool)
    requires IsUdpCandidate(b, isV6)
    ensures IsUdp(b)
  {
    hide IsUdpCandidate;
  }

  lemma TcpEntered(views: seq<View>, tv': View, canUdpGro: bool, i: nat)
    requires |views| == i + 1 && i < |tv'.orig| && IsTcp(tv'.orig[i])
    ensures Entered(views + [tv'], tv'.orig, canUdpGro, i) <==> i in tv'.live
  {
    hide IsTcp;
  }

  lemma UdpEntered(views: seq<View>, tv': View, i: nat)
    requires |views| == i + 1 && i < |tv'.orig| && !IsTcp(tv'.orig[i])
    ensures Entered(views + [tv'], tv'.orig, true, i) <==> P.Udp(tv'.orig[i]).Some?
  {
    hide IsTcp, P.Udp;
  }

  lemma NotEntered(views: seq<View>, tv': View, canUdpGro: bool, i: nat)
    requires |views| == i + 1 && i < |tv'.orig| && !IsTcp(tv'.orig[i]) && (canUdpGro ==> P.Udp(tv'.orig[i]).None?)
    ensures !Entered(views + [tv'], tv'.orig, canUdpGro, i)
  {
    hide IsTcp, P.Udp;
  }

  // ---------- and back ----------

  /** handleGRO on a vector of packets, then gsoSplit on the written buffer `w`. A buffer into which packets were merged is
      split, and the segments are these packets; any other buffer still holds its own packet, byte by byte. Every packet
      leaves once, and the datagrams of a UDP flow leave in the order in which they came. */
  method CoalesceThenSplit(h: Handler, w: nat, outBuffs: array<Bytes>, sizes: array<nat>)
    returns (ok: bool, merged: bool, n: int, tooMany: bool)
    requires h.Valid() && h.tcp.view.n == 0 && outBuffs.Length <= sizes.Length
    requires forall i :: 0 <= i < outBuffs.Length ==> |outBuffs[i]| >= 0xFFFF - h.offset
    modifies h`toWrite, h`views, h.vector, h.tcp`table, h.tcp`view, h.udp`table, h.udp`view, outBuffs, sizes
    ensures ok <==> (h.start == [] || h.offset >= VIRTIO_NET_HDR_LEN) && forall j :: 0 <= j < |h.start| ==> h.start[j].pkt != []
    ensures ok ==> h.Finished() && Departs(h.tcp.view, h.udp.view, h.canUdpGro, h.toWrite)
    ensures merged <==> ok && (TcpMerged(h.tcp.view, w) || UdpMerged(h.udp.view, w))
    ensures merged && TcpMerged(h.tcp.view, w) ==>
              w in h.tcp.view.groups && T.Restored(h.tcp.view, w, outBuffs[..], sizes[..], n, tooMany)
    ensures merged && UdpMerged(h.udp.view, w) ==> UdpRestored(h.udp.view, w, outBuffs[..], sizes[..], n, tooMany)
    ensures ok && !merged && w in h.toWrite ==>
              w < |h.vector.bufs| && w < |h.start| && h.vector.bufs[w].pkt == h.start[w].pkt && JointGroup(h.tcp.view, h.udp.view, h.canUdpGro, w) == [w]
  {
    hide Running, Ready, Departs, T.Restored, UdpRestored, TcpMerged, UdpMerged, JointGroup, Inv, O.Inv;
    merged, n, tooMany := false, 0, false;
    ok := h.HandleGRO();
    if !ok {
      return;
    }
    ghost var tv, uv := h.tcp.view, h.udp.view;
    AllDepart(tv, uv, h.canUdpGro, h.offset, h.start, h.views, h.toWrite);
    BothOk(tv, uv, h.canUdpGro, h.offset, h.start, h.views, h.toWrite);
    var tcpItems := h.tcp.MergedAt(w);
    var udpItems := h.udp.MergedAt(w);
    Found(tv, uv, h.canUdpGro, h.offset, h.start, h.views, h.toWrite, w, tcpItems, udpItems);
    if tcpItems != {} {
      merged := true;
      var item :| item in tcpItems;
      TcpReady(tv, uv, h.canUdpGro, h.offset, h.views, h.toWrite, h.vector.bufs, h.vector.vhdrs, w);
      n, tooMany := T.SplitWritten(h.vector.bufs[w].pkt, h.vector.vhdrs[w].value, item.key.isV6, outBuffs, sizes, tv, h.offset, w);
    } else if udpItems != {} {
      merged := true;
      var item :| item in udpItems;
      UdpReady(tv, uv, h.canUdpGro, h.offset, h.start, h.views, h.toWrite, h.vector.bufs, h.vector.vhdrs, item);
      n, tooMany := U.SplitItem(h.vector.bufs[w].pkt, h.vector.vhdrs[w].value, outBuffs, sizes, item.key.isV6, uv, h.offset, item.key, item);
      IsRestored(tv, uv, h.canUdpGro, h.offset, h.start, h.views, h.toWrite, item, outBuffs[..], sizes[..], n, tooMany);
    } else if w in h.toWrite {
      UnmergedIsUntouched(tv, uv, h.canUdpGro, h.offset, h.start, h.views, h.toWrite, h.vector.bufs, h.vector.vhdrs, w);
    }
  }

  ghost function Times(s: seq<nat>, x: nat): nat {
    multiset(s)[x]
  }

  /** Every packet leaves once, and the flows are in order. */
  ghost predicate Departs(tv: View, uv: P.UdpView, canUdpGro: bool, toWrite: seq<nat>) {
    var sent := O.Emitted(toWrite, JointGroups(tv, uv, canUdpGro));
    && (forall x: nat :: x < tv.n ==> Times(sent, x) == 1)
    && (canUdpGro ==> forall key {:trigger O.Flow(sent, tv.orig, key)} :: O.Flow(sent, tv.orig, key) == O.Flow(O.Range(tv.n), tv.orig, key))
  }

  /** The segments are the datagrams merged into buffer `w`. */
  ghost predicate UdpRestored(uv: P.UdpView, w: nat, outBuffs: seq<Bytes>, sizes: seq<nat>, n: int, tooMany: bool)
    requires |outBuffs| <= |sizes|
  {
    forall item :: item in U.AllItems(uv.table) && item.bufsIndex == w ==>
                     w in uv.groups && U.Restored(uv, item, outBuffs, sizes, n, tooMany)
  }

  lemma AllDepart(tv: View, uv: P.UdpView, canUdpGro: bool, offset: nat, start: seq<Buf>, views: seq<View>, toWrite: seq<nat>)
    requires Running(tv, uv, canUdpGro, offset, start, views, toWrite)
    ensures Departs(tv, uv, canUdpGro, toWrite)
  {
    hide Joint, History, Pick, Both, JointGroups, O.Emitted, O.Flow;
    var sent := O.Emitted(toWrite, JointGroups(tv, uv, canUdpGro));
    forall x: nat | x < tv.n ensures Times(sent, x) == 1 {
      EveryPacketOnce(tv, uv, canUdpGro, offset, start, x);
    }
    if canUdpGro {
      forall key ensures O.Flow(sent, tv.orig, key) == O.Flow(O.Range(tv.n), tv.orig, key) {
        FlowsInOrder(tv, uv, offset, start, key);
      }
    }
  }

  lemma BothOk(tv: View, uv: P.UdpView, canUdpGro: bool, offset: nat, start: seq<Buf>, views: seq<View>, toWrite: seq<nat>)
    requires Running(tv, uv, canUdpGro, offset, start, views, toWrite)
    ensures Inv(tv, offset) && O.Inv(uv, offset) && |tv.orig| == |start| && forall j :: 0 <= j < |start| ==> tv.orig[j] == start[j].pkt
  {
    JointOrig(tv, uv, canUdpGro, offset, start);
  }

  lemma Found(tv: View, uv: P.UdpView, canUdpGro: bool, offset: nat, start: seq<Buf>, views: seq<View>, toWrite: seq<nat>, w: nat,
              tcpItems: set<Item>, udpItems: set<P.UdpItem>)
    requires Running(tv, uv, canUdpGro, offset, start, views, toWrite)
    requires tcpItems == if w in tv.live && tv.live[w].numMerged > 0 then {tv.live[w]} else {}
    requires udpItems == set item | item in U.AllItems(uv.table) && item.bufsIndex == w && item.numMerged > 0
    ensures (TcpMerged(tv, w) <==> tcpItems != {}) && (UdpMerged(uv, w) <==> udpItems != {})
    ensures TcpMerged(tv, w) ==> !UdpMerged(uv, w)
    ensures forall item :: item in tcpItems ==> item == tv.live[w]
  {
    hide Joint, History, Pick, U.AllItems;
    if UdpMerged(uv, w) {
      var item :| item in U.AllItems(uv.table) && item.bufsIndex == w && item.numMerged > 0;
      assert item in udpItems;
    }
    if TcpMerged(tv, w) {
      NotMergedTwice(tv, uv, canUdpGro, offset, start, w);
    }
  }

  lemma TcpReady(tv: View, uv: P.UdpView, canUdpGro: bool, offset: nat, views: seq<View>, toWrite: seq<nat>, bufs: seq<Buf>,
                 vhdrs: map<nat, Option<VirtioNetHdr>>, w: nat)
    requires Inv(tv, offset) && Ready(tv, uv, canUdpGro, views, toWrite, bufs, vhdrs) && TcpMerged(tv, w)
    ensures w in tv.groups && w < |tv.bufs| && w < |bufs| && ItemShape(tv.live[w]) && w in vhdrs && vhdrs[w] == Some(G.HdrOf(tv.live[w]))
    ensures G.IsAccounted(tv.bufs[w].pkt, tv.live[w], bufs[w].pkt)
  {
    hide Inv, Tracks, G.IsAccounted, U.Written, ReadyAsItCame;
    T.LiveItem(tv, offset, w);
  }

  lemma UdpReady(tv: View, uv: P.UdpView, canUdpGro: bool, offset: nat, start: seq<Buf>, views: seq<View>, toWrite: seq<nat>, bufs: seq<Buf>,
                 vhdrs: map<nat, Option<VirtioNetHdr>>, item: P.UdpItem)
    requires Running(tv, uv, canUdpGro, offset, start, views, toWrite) && Ready(tv, uv, canUdpGro, views, toWrite, bufs, vhdrs)
    requires item in U.AllItems(uv.table) && item.numMerged > 0
    ensures O.ItemOk(uv, item.key, item) && P.UdpItemShape(item) && item.bufsIndex < |bufs| && item.bufsIndex in vhdrs
    ensures vhdrs[item.bufsIndex] == Some(S.UdpHdrOf(item)) && S.IsUdpAccounted(uv.bufs[item.bufsIndex].pkt, item, bufs[item.bufsIndex].pkt)
  {
    hide Joint, History, Pick, T.AccountedAt, ReadyAsItCame, S.IsUdpAccounted, U.AllItems, P.UdpTracks;
    TablesApart(tv, uv, canUdpGro, offset, start, item);
    assert U.Written(uv, item, bufs, vhdrs);
    P.TrackedShape(uv.orig, uv.bufs[item.bufsIndex].pkt, uv.groups[item.bufsIndex], item);
  }

  lemma IsRestored(tv: View, uv: P.UdpView, canUdpGro: bool, offset: nat, start: seq<Buf>, views: seq<View>, toWrite: seq<nat>, item: P.UdpItem,
                   outBuffs: seq<Bytes>, sizes: seq<nat>, n: int, tooMany: bool)
    requires Running(tv, uv, canUdpGro, offset, start, views, toWrite) && |outBuffs| <= |sizes|
    requires item in U.AllItems(uv.table) && item.bufsIndex in uv.groups && U.Restored(uv, item, outBuffs, sizes, n, tooMany)
    ensures UdpRestored(uv, item.bufsIndex, outBuffs, sizes, n, tooMany)
  {
    BothOk(tv, uv, canUdpGro, offset, start, views, toWrite);
    hide Running, O.Inv, U.Restored;
    forall other | other in U.AllItems(uv.table) && other.bufsIndex == item.bufsIndex ensures other == item {
      U.SameBuffer(uv, offset, item, other);
    }
  }
}
