/** The UDP side of receive coalescing as it changes the shared buffers and its table, and the way back through
    segmentation (wireguard/tun/offload_linux.go:205-239, 412-438, 683-739, 786-858). */
module UdpGro {
  import opened InternetChecksum
  import opened Options
  import opened Gso
  import opened GroPackets
  import opened GroGroups
  import opened UdpPackets
  import opened UdpOrder
  import opened UdpRuns
  import opened UdpGso
  import Arith

  class UdpGro {
    const offset: nat
    const vector: Vector
    var table: UdpTable
    ghost var view: UdpView

    ghost predicate Valid()
      reads this, vector
    {
      Shows(vector.bufs, view) && view.table == table && Inv(view, offset)
    }

    constructor (vector: Vector, offset: nat)
      requires CapsOk(vector.bufs, offset)
      ensures Valid() && this.vector == vector && this.offset == offset && table == map[] && view == Start(vector.bufs)
    {
      this.offset, this.vector, table, view := offset, vector, map[], Start(vector.bufs);
      new;
      StartInv(vector.bufs, offset);
    }

    /** coalesceUDPPackets: append packet `pktI` to the buffer of `item`, if length and checksums allow. */
    method CoalesceUDPPackets(pktI: nat, item: UdpItem) returns (result: CoalesceResult, item': UdpItem)
      requires pktI < |vector.bufs| && item.bufsIndex < |vector.bufs| && UdpItemShape(item) && item.numMerged < 0xFFFF
      requires UdpHeadersLen(item) <= |vector.bufs[pktI].pkt| <= 0xFFFF && UdpHeadersLen(item) <= |vector.bufs[item.bufsIndex].pkt| <= 0xFFFF
      modifies vector`bufs
      ensures result == Outcome(old(vector.bufs)[item.bufsIndex], old(vector.bufs)[pktI].pkt, item, offset)
      ensures result != CoalesceSuccess ==> vector.bufs == old(vector.bufs) && item' == item
      ensures result == CoalesceSuccess ==>
                && item' == item.(numMerged := item.numMerged + 1)
                && var head := old(vector.bufs)[item.bufsIndex];
                   vector.bufs == old(vector.bufs)[item.bufsIndex := Buf(head.pkt + Payload(old(vector.bufs)[pktI].pkt, UdpHeadersLen(item)), head.cap)]
    {
      hide HasValidChecksum;
      var head, pkt, headersLen := vector.bufs[item.bufsIndex], vector.bufs[pktI].pkt, item.iphLen + UDPH_LEN;
      var coalescedLen := |head.pkt| + |pkt| - headersLen;
      item' := item;
      if head.cap - 2 * offset < coalescedLen {
        result := InsufficientCap;
        return;
      }
      if item.numMerged == 0 {
        var itemValid := !item.cSumKnownInvalid;
        if itemValid {
          itemValid := ChecksumValid(head.pkt, item.iphLen, IPPROTO_UDP, item.key.isV6);
        }
        if !itemValid {
          result := ItemInvalidCsum;
          return;
        }
      }
      var pktValid := ChecksumValid(pkt, item.iphLen, IPPROTO_UDP, item.key.isV6);
      if !pktValid {
        result := PktInvalidCsum;
        return;
      }
      vector.bufs := vector.bufs[item.bufsIndex := Buf(head.pkt + pkt[headersLen..], head.cap)];
      item' := item.(numMerged := item.numMerged + 1);
      result := CoalesceSuccess;
    }

    /** udpGRO: only the last item of a flow is looked at. */
    method UdpGRO(pktI: nat, isV6: bool) returns (result: GroResult)
      requires Valid() && pktI == view.n < |view.orig| && IsUdpCandidate(view.orig[pktI], isV6)
      modifies vector`bufs, this`table, this`view
      ensures Valid() && view == Next(old(view), offset) && view.orig == old(view.orig) && Spares(view.orig, old(vector.bufs), vector.bufs)
      ensures result == Noop <==> Udp(view.orig[pktI]).None?
      ensures view.toWrite == if result == Coalesced then old(view.toWrite) else old(view.toWrite) + [pktI]
    {
      hide Inv, ParseUdp, Udp, Next, Outcome, CanAppend, IsUdpCandidate, Payload, Shows, Spares;
      ghost var v, before := view, vector.bufs;
      NextInv(v, offset);
      AtN(v, offset);
      ShownPacket(before, v, pktI, isV6);
      SparesAll(v.orig, before);
      NextWrites(v, offset);
      var pkt := vector.bufs[pktI].pkt;
      CandidateParses(pkt, isV6);
      UdpFacts(pkt);
      var parsed := ParseUdp(pkt, isV6);
      view := Next(v, offset);
      if parsed.None? {
        ShownSame(before, v, view);
        return Noop;
      }
      var m := parsed.value;
      NextIs(v, offset);
      if m.key !in table {
        assert Items(v.table, m.key) + [NewItem(v, m, false)] == [NewItem(v, m, false)];
        table := table[m.key := [UdpItem(m.key, pktI, 0, m.gsoSize, m.iphLen, false)]];
        ShownSame(before, v, view);
        return TableInsert;
      }
      var items := table[m.key];
      LastFits(v, offset, m.key);
      ShownLast(before, v, offset, m.key);
      var item := items[|items| - 1];
      var pktCSumKnownInvalid := false;
      if CanAppend(pkt, m, item, vector.bufs[item.bufsIndex].pkt) {
        var outcome, item' := CoalesceUDPPackets(pktI, item);
        match outcome
        case CoalesceSuccess =>
          table := table[m.key := items[|items| - 1 := item']];
          ShownAppend(before, v, item.bufsIndex, vector.bufs[item.bufsIndex], vector.bufs, view);
          return Coalesced;
        case PktInvalidCsum =>
          pktCSumKnownInvalid := true;
        case _ =>
      }
      table := table[m.key := items + [UdpItem(m.key, pktI, 0, m.gsoSize, m.iphLen, pktCSumKnownInvalid)]];
      ShownSame(before, v, view);
      return TableInsert;
    }

    /** The step for a packet that is not given to udpGRO. */
    ghost method PassOther()
      requires Valid() && view.n < |view.orig| && !IsUdp(view.orig[view.n])
      modifies this`view
      ensures Valid() && view == Next(old(view), offset) == PassOn(old(view)) && view.orig == old(view.orig)
    {
      hide Inv, Shows, Next, Udp;
      NotUdp(view.orig[view.n]);
      NextInv(view, offset);
      NextWrites(view, offset);
      ShownSame(vector.bufs, view, Next(view, offset));
      view := Next(view, offset);
    }

    /** The items of buffer `w`, if it holds several datagrams. */
    method MergedAt(w: nat) returns (found: set<UdpItem>)
      requires view.table == table
      ensures found == set item | item in AllItems(view.table) && item.bufsIndex == w && item.numMerged > 0
    {
      found := set key, item | key in table && item in table[key] && item.bufsIndex == w && item.numMerged > 0 :: item;
    }

    /** applyUDPCoalesceAccounting: the order in which it visits the items is not determined. */
    method ApplyUDPCoalesceAccounting()
      requires Valid()
      modifies vector
      ensures Accounted(view, AllItems(view.table), {}, old(vector.bufs), vector.bufs, old(vector.vhdrs), vector.vhdrs)
    {
      hide Inv, Shows, Accounted, ItemsApart;
      var all := set key, item | key in table && item in table[key] :: item;
      var todo := all;
      AllApart(view, offset, vector.bufs, all);
      AccountedNone(view, all, vector.bufs, vector.vhdrs);
      ghost var was, hdrs := vector.bufs, vector.vhdrs;
      while todo != {}
        invariant todo <= all && Accounted(view, all, todo, was, vector.bufs, hdrs, vector.vhdrs)
        decreases todo
      {
        var item :| item in todo;
        AccountedItem(view, all, todo, was, vector.bufs, hdrs, vector.vhdrs, item);
        ghost var bufs, vhdrs := vector.bufs, vector.vhdrs;
        if item.numMerged > 0 {
          var out := AccountUdp(vector.bufs[item.bufsIndex].pkt, item);
          vector.bufs := vector.bufs[item.bufsIndex := vector.bufs[item.bufsIndex].(pkt := out)];
          vector.vhdrs := vector.vhdrs[item.bufsIndex := Some(UdpHdrOf(item))];
        } else {
          vector.vhdrs := vector.vhdrs[item.bufsIndex := None];
        }
        AccountedStep(view, all, todo, was, bufs, hdrs, vhdrs, item, vector.bufs, vector.vhdrs);
        todo := todo - {item};
      }
    }
  }

  // ---------- the shared vector ----------

  /** The vector holds what the view says, at the packets that are given to udpGRO. */
  ghost predicate Shows(bufs: seq<Buf>, v: UdpView) {
    |bufs| == |v.bufs| == |v.orig| && forall j {:trigger bufs[j]} :: 0 <= j < |bufs| && IsUdp(v.orig[j]) ==> bufs[j] == v.bufs[j]
  }

  /** All other buffers are as they were. */
  ghost predicate Spares(orig: seq<Bytes>, before: seq<Buf>, after: seq<Buf>) {
    |before| == |after| == |orig| && forall j {:trigger after[j]} :: 0 <= j < |after| && !IsUdp(orig[j]) ==> after[j] == before[j]
  }

  lemma SparesAll(orig: seq<Bytes>, bufs: seq<Buf>)
    requires |bufs| == |orig|
    ensures Spares(orig, bufs, bufs)
  {
  }

  lemma ShownPacket(bufs: seq<Buf>, v: UdpView, pktI: nat, isV6: bool)
    requires Shows(bufs, v) && pktI < |v.orig| && IsUdpCandidate(v.orig[pktI], isV6)
    ensures |bufs| == |v.bufs| == |v.orig| && bufs[pktI] == v.bufs[pktI]
  {
    hide IsUdpCandidate;
  }

  lemma ShownSame(bufs: seq<Buf>, v: UdpView, w: UdpView)
    requires Shows(bufs, v) && w.bufs == v.bufs && w.orig == v.orig
    ensures Shows(bufs, w)
  {
  }

  lemma NotUdp(b: Bytes)
    requires !IsUdp(b)
    ensures Udp(b).None?
  {
    hide IsUdpCandidate;
  }

  lemma TrackedIsUdp(b: Bytes)
    requires Udp(b).Some?
    ensures IsUdp(b)
  {
    hide IsUdpCandidate;
  }

  /** The buffer of an item is that of a UDP packet. */
  lemma OwnBuffer(v: UdpView, key: UdpKey, item: UdpItem)
    requires ItemOk(v, key, item)
    ensures item.bufsIndex < |v.orig| && item.bufsIndex < |v.bufs| && Udp(v.orig[item.bufsIndex]).Some? && IsUdp(v.orig[item.bufsIndex])
  {
    hide ItemOk, Udp, IsUdp;
    ItemFlow(v, key, item);
    ItemIndex(v, key, item);
    TrackedIsUdp(v.orig[item.bufsIndex]);
  }

  lemma ShownLast(bufs: seq<Buf>, v: UdpView, offset: nat, key: UdpKey)
    requires Inv(v, offset) && Shows(bufs, v) && key in v.table && v.table[key] != []
    ensures var item := v.table[key][|v.table[key]| - 1];
            item.bufsIndex < |bufs| == |v.bufs| && bufs[item.bufsIndex] == v.bufs[item.bufsIndex] && IsUdp(v.orig[item.bufsIndex])
  {
    hide Inv, ItemOk;
    Last(v, offset, key);
    OwnBuffer(v, key, v.table[key][|v.table[key]| - 1]);
  }

  lemma ShownAppend(before: seq<Buf>, v: UdpView, w: nat, buf: Buf, after: seq<Buf>, v': UdpView)
    requires Shows(before, v) && w < |v.bufs| && IsUdp(v.orig[w])
    requires after == before[w := buf] && v'.bufs == v.bufs[w := buf] && v'.orig == v.orig
    ensures Shows(after, v') && Spares(v.orig, before, after)
  {
    hide IsUdp;
  }

  lemma UdpFacts(b: Bytes)
    ensures Udp(b).Some? ==>
              var m := Udp(b).value;
              m.iphLen == (if m.key.isV6 then 40 else 20) && m.iphLen + UDPH_LEN <= |b| <= 0xFFFF
  {
  }

  lemma CandidateParses(b: Bytes, isV6: bool)
    requires IsUdpCandidate(b, isV6)
    ensures Udp(b) == ParseUdp(b, isV6)
  {
    hide ParseUdp;
  }

  lemma LastFits(v: UdpView, offset: nat, key: UdpKey)
    requires Inv(v, offset) && key in v.table && v.table[key] != []
    ensures var item := v.table[key][|v.table[key]| - 1];
            item.bufsIndex < |v.bufs| && UdpItemShape(item) && UdpHeadersLen(item) <= |v.bufs[item.bufsIndex].pkt| <= 0xFFFF
  {
    hide Inv, UdpTracks;
    Last(v, offset, key);
    var item := v.table[key][|v.table[key]| - 1];
    TrackedShape(v.orig, v.bufs[item.bufsIndex].pkt, v.groups[item.bufsIndex], item);
    UdpHead(v.orig, v.bufs[item.bufsIndex].pkt, v.groups[item.bufsIndex], item);
  }

  // ---------- the accounting ----------

  ghost function AllItems(table: UdpTable): set<UdpItem> {
    set key, item | key in table && item in table[key] :: item
  }

  /** The buffer of the item is ready to be written. */
  ghost predicate Written(v: UdpView, item: UdpItem, bufs: seq<Buf>, vhdrs: map<nat, Option<VirtioNetHdr>>) {
    && item.bufsIndex < |v.bufs| && item.bufsIndex < |bufs| && item.bufsIndex in vhdrs
    && if item.numMerged > 0 then
         && IsUdpAccounted(v.bufs[item.bufsIndex].pkt, item, bufs[item.bufsIndex].pkt)
         && item.iphLen <= 40 && vhdrs[item.bufsIndex] == Some(UdpHdrOf(item))
       else bufs[item.bufsIndex] == v.bufs[item.bufsIndex] && vhdrs[item.bufsIndex] == None
  }

  /** Buffer `w` is that of one of the items. */
  ghost predicate In(items: set<UdpItem>, w: nat) {
    exists item :: item in items && item.bufsIndex == w
  }

  /** The items not in `todo` have been accounted for, and nothing else has changed. */
  ghost predicate Accounted(v: UdpView, all: set<UdpItem>, todo: set<UdpItem>, before: seq<Buf>, bufs: seq<Buf>,
                            vhdrsBefore: map<nat, Option<VirtioNetHdr>>, vhdrs: map<nat, Option<VirtioNetHdr>>) {
    && |bufs| == |before| == |v.bufs|
    && (forall item :: item in all && item !in todo ==> Written(v, item, bufs, vhdrs))
    && (forall w {:trigger bufs[w]} :: 0 <= w < |bufs| && !In(all - todo, w) ==> bufs[w] == before[w])
    && (forall w {:trigger w in vhdrs} :: !In(all - todo, w) ==>
          (w in vhdrs <==> w in vhdrsBefore) && (w in vhdrs ==> vhdrs[w] == vhdrsBefore[w]))
  }

  /** Two items are in two buffers, each of which holds more than the headers, and as the vector shows it. */
  ghost predicate ItemsApart(v: UdpView, bufs: seq<Buf>, items: set<UdpItem>) {
    && |bufs| == |v.bufs|
    && (forall item :: item in items ==>
          && item.bufsIndex < |bufs| && bufs[item.bufsIndex] == v.bufs[item.bufsIndex]
          && UdpItemShape(item) && UdpHeadersLen(item) < |v.bufs[item.bufsIndex].pkt| <= 0xFFFF)
    && (forall a, b :: a in items && b in items && a.bufsIndex == b.bufsIndex ==> a == b)
  }

  lemma AccountedNone(v: UdpView, all: set<UdpItem>, bufs: seq<Buf>, vhdrs: map<nat, Option<VirtioNetHdr>>)
    requires ItemsApart(v, bufs, all)
    ensures Accounted(v, all, all, bufs, bufs, vhdrs, vhdrs)
  {
  }

  lemma AccountedItem(v: UdpView, all: set<UdpItem>, todo: set<UdpItem>, before: seq<Buf>, bufs: seq<Buf>,
                      vhdrsBefore: map<nat, Option<VirtioNetHdr>>, vhdrs: map<nat, Option<VirtioNetHdr>>, item: UdpItem)
    requires ItemsApart(v, before, all) && Accounted(v, all, todo, before, bufs, vhdrsBefore, vhdrs) && item in todo && item in all
    ensures item.bufsIndex < |bufs| == |v.bufs| && bufs[item.bufsIndex] == v.bufs[item.bufsIndex]
    ensures UdpItemShape(item) && UdpHeadersLen(item) < |v.bufs[item.bufsIndex].pkt| <= 0xFFFF
  {
    hide Written;
    assert !In(all - todo, item.bufsIndex);
  }

  lemma AccountedStep(v: UdpView, all: set<UdpItem>, todo: set<UdpItem>, before: seq<Buf>, bufs: seq<Buf>,
                      vhdrsBefore: map<nat, Option<VirtioNetHdr>>, vhdrs: map<nat, Option<VirtioNetHdr>>, item: UdpItem,
                      bufs': seq<Buf>, vhdrs': map<nat, Option<VirtioNetHdr>>)
    requires ItemsApart(v, before, all) && Accounted(v, all, todo, before, bufs, vhdrsBefore, vhdrs) && item in todo && item in all
    requires item.bufsIndex < |bufs| && UdpItemShape(item)
    requires item.numMerged == 0 ==> bufs' == bufs && vhdrs' == vhdrs[item.bufsIndex := None]
    requires item.numMerged > 0 ==>
               && |bufs'| == |bufs| && bufs' == bufs[item.bufsIndex := bufs'[item.bufsIndex]] && vhdrs' == vhdrs[item.bufsIndex := Some(UdpHdrOf(item))]
               && IsUdpAccounted(bufs[item.bufsIndex].pkt, item, bufs'[item.bufsIndex].pkt)
    ensures Accounted(v, all, todo - {item}, before, bufs', vhdrsBefore, vhdrs')
  {
    hide Written, IsUdpAccounted, In, UdpHdrOf, UdpItemShape;
    AccountedItem(v, all, todo, before, bufs, vhdrsBefore, vhdrs, item);
    IsNowWritten(v, item, bufs', vhdrs');
    forall other | other in all && other !in todo - {item} ensures Written(v, other, bufs', vhdrs') {
      if other != item {
        StillWritten(v, other, bufs, vhdrs, item.bufsIndex, bufs', vhdrs');
      }
    }
    forall w | !In(all - (todo - {item}), w) ensures !In(all - todo, w) && w != item.bufsIndex {
      Fewer(all, todo, item, w);
    }
  }

  lemma Fewer(all: set<UdpItem>, todo: set<UdpItem>, item: UdpItem, w: nat)
    requires item in all && item in todo && !In(all - (todo - {item}), w)
    ensures !In(all - todo, w) && w != item.bufsIndex
  {
    assert item in all - (todo - {item});
    assert all - todo <= all - (todo - {item});
  }

  lemma IsNowWritten(v: UdpView, item: UdpItem, bufs: seq<Buf>, vhdrs: map<nat, Option<VirtioNetHdr>>)
    requires item.bufsIndex < |v.bufs| && item.bufsIndex < |bufs| && UdpItemShape(item) && item.bufsIndex in vhdrs
    requires item.numMerged > 0 ==>
               && IsUdpAccounted(v.bufs[item.bufsIndex].pkt, item, bufs[item.bufsIndex].pkt)
               && vhdrs[item.bufsIndex] == Some(UdpHdrOf(item))
    requires item.numMerged == 0 ==> bufs[item.bufsIndex] == v.bufs[item.bufsIndex] && vhdrs[item.bufsIndex] == None
    ensures Written(v, item, bufs, vhdrs)
  {
    hide IsUdpAccounted;
  }

  lemma StillWritten(v: UdpView, item: UdpItem, bufs: seq<Buf>, vhdrs: map<nat, Option<VirtioNetHdr>>, w: nat,
                     bufs': seq<Buf>, vhdrs': map<nat, Option<VirtioNetHdr>>)
    requires Written(v, item, bufs, vhdrs) && |bufs'| == |bufs| && item.bufsIndex != w
    requires forall u :: 0 <= u < |bufs| && u != w ==> bufs'[u] == bufs[u]
    requires forall u :: u in vhdrs && u != w ==> u in vhdrs' && vhdrs'[u] == vhdrs[u]
    ensures Written(v, item, bufs', vhdrs')
  {
    hide IsUdpAccounted;
  }

  lemma AllApart(v: UdpView, offset: nat, bufs: seq<Buf>, items: set<UdpItem>)
    requires Inv(v, offset) && Shows(bufs, v) && items == set key, item | key in v.table && item in v.table[key] :: item
    ensures ItemsApart(v, bufs, items) && items == AllItems(v.table)
  {
    hide Inv, ItemOk, Udp;
    forall item | item in items
      ensures item.bufsIndex < |bufs| && bufs[item.bufsIndex] == v.bufs[item.bufsIndex]
      ensures UdpItemShape(item) && UdpHeadersLen(item) < |v.bufs[item.bufsIndex].pkt| <= 0xFFFF
    {
      var key :| key in v.table && item in v.table[key];
      var i: nat :| i < |v.table[key]| && v.table[key][i] == item;
      ItemAt(v, offset, key, i);
      ItemLength(v, key, item);
      OwnBuffer(v, key, item);
    }
    forall a, b | a in items && b in items && a.bufsIndex == b.bufsIndex ensures a == b {
      SameBuffer(v, offset, a, b);
    }
  }

  lemma ItemLength(v: UdpView, key: UdpKey, item: UdpItem)
    requires ItemOk(v, key, item)
    ensures item.bufsIndex < |v.bufs| && UdpItemShape(item) && UdpHeadersLen(item) < |v.bufs[item.bufsIndex].pkt| <= 0xFFFF
  {
    hide UdpTracks;
    UdpLonger(v.orig, v.bufs[item.bufsIndex].pkt, v.groups[item.bufsIndex], item);
  }

  lemma SameBuffer(v: UdpView, offset: nat, a: UdpItem, b: UdpItem)
    requires Inv(v, offset) && a.bufsIndex == b.bufsIndex
    requires exists key :: key in v.table && a in v.table[key]
    requires exists key :: key in v.table && b in v.table[key]
    ensures a == b
  {
    hide Inv, ItemOk, Udp;
    var ka :| ka in v.table && a in v.table[ka];
    var kb :| kb in v.table && b in v.table[kb];
    var i: nat :| i < |v.table[ka]| && v.table[ka][i] == a;
    var j: nat :| j < |v.table[kb]| && v.table[kb][j] == b;
    ItemAt(v, offset, ka, i);
    ItemAt(v, offset, kb, j);
    ItemFlow(v, ka, a);
    ItemFlow(v, kb, b);
    if i < j {
      ItemsRise(v, offset, ka, i, j);
    } else if j < i {
      ItemsRise(v, offset, ka, j, i);
    }
  }

  // ---------- and back ----------

  /** Segment `k` is the `k`-th datagram of the item's buffer: the same length, payload, addresses and ports; the
      same in every byte exactly when the merged packet has kept the other headers; and the same checksum, but
      for 0xFFFF, which comes back as 0. */
  ghost predicate SameDatagram(v: UdpView, item: UdpItem, k: nat, seg: Bytes) {
    && item.bufsIndex in v.groups && UdpItemShape(item)
    && var g := v.groups[item.bufsIndex];
       && k < |g| && g[0] < |v.orig| && g[k] < |v.orig|
       && var head, b, hl := v.orig[g[0]], v.orig[g[k]], UdpHeadersLen(item);
          && hl <= |head| && hl <= |seg| == |b| && seg[hl..] == b[hl..]
          && (forall i: nat {:trigger UdpRestoredByte(item, i)} :: UdpRestoredByte(item, i) ==> seg[i] == b[i])
          && (seg == b <==> KeepsUdp(head, item, b, k))
          && (Be16(b, item.iphLen + 4) as int == |b| - item.iphLen ==>
                Be16(seg, item.iphLen + 6) == var c := Be16(b, item.iphLen + 6); if c == 0xFFFF then 0 else c)
  }

  /** The segments are exactly the datagrams merged into the buffer, in order, if there is room for them. */
  ghost predicate Restored(v: UdpView, item: UdpItem, outBuffs: seq<Bytes>, sizes: seq<nat>, n: int, tooMany: bool)
    requires |outBuffs| <= |sizes| && item.bufsIndex in v.groups
  {
    && (tooMany <==> |outBuffs| < |v.groups[item.bufsIndex]|)
    && (!tooMany ==>
          && n == |v.groups[item.bufsIndex]|
          && forall k: nat :: k < n ==> sizes[k] <= |outBuffs[k]| && SameDatagram(v, item, k, outBuffs[k][..sizes[k]]))
  }

  /** A segment is no longer than the merged packet it comes from, so it fits where that did. */
  lemma UdpSegmentFits(v: UdpView, offset: nat, key: UdpKey, item: UdpItem)
    requires Inv(v, offset) && ItemOk(v, key, item) && item.numMerged > 0
    ensures UdpItemShape(item) && UdpHdrOf(item).hdrLen as int + UdpHdrOf(item).gsoSize as int <= 0xFFFF - offset
  {
    BufferRoom(v, offset, item.bufsIndex);
    hide Inv, UdpTracks, UdpPieces, Payload;
    var pkt, g := v.bufs[item.bufsIndex].pkt, v.groups[item.bufsIndex];
    UdpLonger(v.orig, pkt, g, item);
    UdpLength(v.orig, pkt, g, item);
    Arith.MulMonotone(1, item.numMerged as int, item.gsoSize as int);
  }

  lemma BufferRoom(v: UdpView, offset: nat, w: nat)
    requires Inv(v, offset) && w < |v.bufs|
    ensures |v.bufs[w].pkt| <= 0xFFFF - offset
  {
    hide TableOk, WriteOk, OrderOk;
    assert offset + |v.bufs[w].pkt| <= v.bufs[w].cap;
  }

  /** gsoSplit on the written form of a merged item. */
  method SplitItem(pkt: Bytes, hdr: VirtioNetHdr, outBuffs: array<Bytes>, sizes: array<nat>, isV6: bool,
                   ghost v: UdpView, ghost offset: nat, ghost key: UdpKey, ghost item: UdpItem)
    returns (n: int, tooMany: bool)
    requires Inv(v, offset) && ItemOk(v, key, item) && item.numMerged > 0 && UdpItemShape(item)
    requires IsUdpAccounted(v.bufs[item.bufsIndex].pkt, item, pkt) && hdr == UdpHdrOf(item) && isV6 == item.key.isV6
    requires outBuffs.Length <= sizes.Length && forall i :: 0 <= i < outBuffs.Length ==> |outBuffs[i]| >= 0xFFFF - offset
    modifies outBuffs, sizes
    ensures item.bufsIndex in v.groups && Restored(v, item, outBuffs[..], sizes[..], n, tooMany)
  {
    hide Inv, UdpTracks, IsUdpAccounted, IsSegment, SegmentStart, Splittable, SegmentCount, UdpHdrOf, SameDatagram, UdpItemShape;
    ghost var was := v.bufs[item.bufsIndex].pkt;
    UdpAccountedFacts(was, item, pkt);
    UdpSegmentFits(v, offset, key, item);
    n, tooMany := GsoSplit(pkt, hdr, outBuffs, sizes, isV6);
    GroupCount(v, key, item, pkt, outBuffs.Length);
    if !tooMany {
      SegmentCountUnique(pkt, hdr, n, |v.groups[item.bufsIndex]|);
      forall k: nat | k < n ensures sizes[k] <= |outBuffs[k]| && SameDatagram(v, item, k, outBuffs[k][..sizes[k]]) {
        IsDatagram(v, key, item, pkt, k, outBuffs[k][..sizes[k]]);
      }
    }
  }

  /** How many segments the written form of an item has. */
  lemma GroupCount(v: UdpView, key: UdpKey, item: UdpItem, out: Bytes, room: nat)
    requires ItemOk(v, key, item) && UdpItemShape(item) && IsUdpAccounted(v.bufs[item.bufsIndex].pkt, item, out)
    ensures SegmentCount(out, UdpHdrOf(item), |v.groups[item.bufsIndex]|)
    ensures SegmentStart(UdpHdrOf(item), room) < |out| <==> room < |v.groups[item.bufsIndex]|
  {
    hide UdpTracks, IsUdpAccounted, SegmentStart;
    var pkt, g := v.bufs[item.bufsIndex].pkt, v.groups[item.bufsIndex];
    UdpAccountedFacts(pkt, item, out);
    UdpCount(v.orig, pkt, g, item);
    if room < |g| {
      SegmentStartMonotone(UdpHdrOf(item), room, |g| - 1);
    } else {
      SegmentStartMonotone(UdpHdrOf(item), |g|, room);
    }
  }

  lemma IsDatagram(v: UdpView, key: UdpKey, item: UdpItem, out: Bytes, k: nat, seg: Bytes)
    requires ItemOk(v, key, item) && UdpItemShape(item) && item.numMerged > 0 && k < |v.groups[item.bufsIndex]|
    requires IsUdpSegmentOf(v.bufs[item.bufsIndex].pkt, item, out, k, seg)
    ensures SameDatagram(v, item, k, seg)
  {
    hide UdpTracks, IsUdpSegmentOf, KeepsUdp, Be16;
    UdpByteIdentity(v.orig, v.bufs[item.bufsIndex].pkt, v.groups[item.bufsIndex], item, out, k, seg);
    var b := v.orig[v.groups[item.bufsIndex][k]];
    if Be16(b, item.iphLen + 4) as int == |b| - item.iphLen {
      UdpChecksumBack(v.orig, v.bufs[item.bufsIndex].pkt, v.groups[item.bufsIndex], item, out, k, seg);
    }
  }
}
