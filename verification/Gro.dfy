/** Coalescing of received TCP packets (wireguard/tun/offload_linux.go:440-621, 865-892). */
module Gro {
  import opened Arith
  import opened InternetChecksum
  import opened Gso
  import opened GroPackets
  import opened GroGroups
  import opened GroState
  import opened GroGso
  import opened GroHeaders
  import F = PacketFields
  import opened Options

  /** tcpPacketsCanCoalesce on a packet and the buffer of an item of its flow. */
  function Can(pkt: Bytes, m: TcpMeta, item: Item, target: Bytes): CanCoalesce {
    if m.iphLen + m.tcphLen <= |pkt| && item.iphLen == m.iphLen && HeadersLen(item) <= |target| && 20 <= m.tcphLen && 0 < item.gsoSize
    then TcpPacketsCanCoalesce(pkt, m, item, target)
    else CoalesceUnavailable
  }

  ghost predicate Intact(pkt: Bytes, m: TcpMeta) {
    m.iphLen <= |pkt| && SrcAddrAt(m.key.isV6) + 2 * AddrSize(m.key.isV6) <= m.iphLen && |pkt| <= 0xFFFF
    && HasValidChecksum(pkt, m.iphLen, IPPROTO_TCP, m.key.isV6)
  }

  /** There is room to merge, and a packet with PSH is not put in front. */
  ghost predicate Mergeable(pkt: Buf, m: TcpMeta, item: Item, target: Buf, offset: nat) {
    var prepend := Can(pkt.pkt, m, item, target.pkt) == CoalescePrepend;
    && |target.pkt| + |pkt.pkt| - HeadersLen(item) <= (if prepend then pkt.cap else target.cap) - 2 * offset
    && !(prepend && m.pshSet)
  }

  /** The item would be merged with, if the packet's own checksum is right. */
  ghost predicate Suits(bufs: seq<Buf>, offset: nat, pktI: nat, m: TcpMeta, item: Item)
    requires pktI < |bufs|
  {
    && item.bufsIndex < |bufs|
    && Can(bufs[pktI].pkt, m, item, bufs[item.bufsIndex].pkt) != CoalesceUnavailable
    && Mergeable(bufs[pktI], m, item, bufs[item.bufsIndex], offset)
    && (item.numMerged == 0 ==> Intact(bufs[item.bufsIndex].pkt, m))
  }

  /** The item would be merged with, but the packet it stands for has a bad checksum. */
  ghost predicate Spoiled(bufs: seq<Buf>, offset: nat, pktI: nat, m: TcpMeta, item: Item)
    requires pktI < |bufs|
  {
    && item.bufsIndex < |bufs|
    && Can(bufs[pktI].pkt, m, item, bufs[item.bufsIndex].pkt) != CoalesceUnavailable
    && Mergeable(bufs[pktI], m, item, bufs[item.bufsIndex], offset)
    && item.numMerged == 0 && !Intact(bufs[item.bufsIndex].pkt, m)
  }

  /** The items without the spoiled ones. */
  ghost function Kept(bufs: seq<Buf>, offset: nat, pktI: nat, m: TcpMeta, items: seq<Item>): seq<Item>
    requires pktI < |bufs|
  {
    if items == [] then []
    else (if Spoiled(bufs, offset, pktI, m, items[0]) then [] else [items[0]]) + Kept(bufs, offset, pktI, m, items[1..])
  }

  /** No item from `from` on suits. */
  ghost predicate NoneSuits(v: View, offset: nat, pktI: nat, m: TcpMeta, items: seq<Item>, from: nat)
    requires pktI < |v.bufs|
  {
    forall j {:trigger Suits(v.bufs, offset, pktI, m, items[j])} :: from <= j < |items| ==> !Suits(v.bufs, offset, pktI, m, items[j])
  }

  /** The item after a merge. */
  function MergedItem(mode: CanCoalesce, m: TcpMeta, item: Item): Item {
    if item.numMerged == 0xFFFF || !(0 <= m.gsoSize <= 0xFFFF) then item
    else if mode == CoalescePrepend then PrependedItem(item, m)
    else AppendedItem(item, m)
  }

  /** Its buffer after the merge. */
  function MergedBuf(mode: CanCoalesce, pkt: Buf, m: TcpMeta, item: Item, target: Buf): Buf {
    if mode == CoalescePrepend then Buf(pkt.pkt + Payload(target.pkt, HeadersLen(item)), pkt.cap)
    else if item.iphLen + TCP_FLAGS_OFFSET >= |target.pkt| then target
    else Buf(AppendedPkt(target.pkt, item, m, pkt.pkt), target.cap)
  }

  /** What a step may change: the table, the buffers and which packets they hold. */
  datatype Held = Held(table: Table, bufs: seq<Buf>, groups: map<nat, seq<nat>>)

  ghost function HeldIn(v: View): Held {
    Held(v.table, v.bufs, v.groups)
  }

  /** What becomes of a packet. If it is not plain TCP data, it is passed on. Otherwise the items of its flow are
      tried from the newest on, and spoiled ones are dropped, up to the first that suits. If none suits, the
      packet enters the table. If one does, the packet joins it, at the end its sequence number asks for, or
      is passed on if its own checksum is wrong. Other flows and buffers are left alone. */
  ghost predicate IsOutcome(v: View, offset: nat, pktI: nat, isV6: bool, result: GroResult, after: Held)
    requires pktI < |v.bufs| && IsTcpCandidate(v.bufs[pktI].pkt, isV6)
  {
    var pkt := v.bufs[pktI].pkt;
    var parsed := ParseTcp(pkt, isV6);
    if parsed.None? then result == Noop && after == HeldIn(v)
    else
      var m := parsed.value;
      var items := Listing(v.table, m.key);
      if NoneSuits(v, offset, pktI, m, items, 0) then result == TableInsert && Entered(v, offset, pktI, m, items, after)
      else if !Intact(pkt, m) then result == Noop && exists i :: Refused(v, offset, pktI, m, items, i, after)
      else result == Coalesced && exists i :: Joined(v, offset, pktI, m, items, i, after)
  }

  ghost predicate Entered(v: View, offset: nat, pktI: nat, m: TcpMeta, items: seq<Item>, after: Held)
    requires pktI < |v.bufs|
  {
    && 0 <= m.gsoSize <= 0xFFFF
    && after == Held(v.table[m.key := Kept(v.bufs, offset, pktI, m, items) + [NewItem(m, pktI)]], v.bufs, v.groups[pktI := [pktI]])
  }

  /** Item `i` is the newest that suits. */
  ghost predicate Newest(v: View, offset: nat, pktI: nat, m: TcpMeta, items: seq<Item>, i: nat)
    requires pktI < |v.bufs|
  {
    i < |items| && Suits(v.bufs, offset, pktI, m, items[i]) && NoneSuits(v, offset, pktI, m, items, i + 1)
  }

  ghost predicate Refused(v: View, offset: nat, pktI: nat, m: TcpMeta, items: seq<Item>, i: nat, after: Held)
    requires pktI < |v.bufs|
  {
    && Newest(v, offset, pktI, m, items, i)
    && after == Held(v.table[m.key := items[..i + 1] + Kept(v.bufs, offset, pktI, m, items[i + 1..])], v.bufs, v.groups)
  }

  ghost predicate Joined(v: View, offset: nat, pktI: nat, m: TcpMeta, items: seq<Item>, i: nat, after: Held)
    requires pktI < |v.bufs|
  {
    && Newest(v, offset, pktI, m, items, i)
    && Grown(v, pktI, m, items[i], items[..i], Kept(v.bufs, offset, pktI, m, items[i + 1..]), after)
  }

  /** The packet has been merged into `item`, which stands between the items `below` and `above` of its flow. */
  ghost predicate Grown(v: View, pktI: nat, m: TcpMeta, item: Item, below: seq<Item>, above: seq<Item>, after: Held)
    requires pktI < |v.bufs|
  {
    var w := item.bufsIndex;
    && w < |v.bufs| && w in v.groups
    && var mode := Can(v.bufs[pktI].pkt, m, item, v.bufs[w].pkt);
       var prepend := mode == CoalescePrepend;
       && after.table == v.table[m.key := below + [MergedItem(mode, m, item)] + above]
       && after.bufs == v.bufs[pktI := v.bufs[if prepend then w else pktI]][w := MergedBuf(mode, v.bufs[pktI], m, item, v.bufs[w])]
       && after.groups == v.groups[w := if prepend then [pktI] + v.groups[w] else v.groups[w] + [pktI]]
  }

  /** One iteration of handleGRO took `v` to `w`. */
  ghost predicate Stepped(v: View, w: View, offset: nat) {
    && v.n < |v.bufs| && w.n == v.n + 1 && w.orig == v.orig
    && var c := PacketIsGroCandidate(v.bufs[v.n].pkt, false);
       if c == NotGroCandidate then w == PassOn(v) else Handled(v, w, offset, c == Tcp6Candidate)
  }

  ghost predicate Handled(v: View, w: View, offset: nat, isV6: bool) {
    exists result :: Became(v, w, offset, isV6, result)
  }

  ghost predicate Became(v: View, w: View, offset: nat, isV6: bool, result: GroResult) {
    && v.n < |v.bufs| && IsTcpCandidate(v.bufs[v.n].pkt, isV6)
    && IsOutcome(v, offset, v.n, isV6, result, if result == Noop then HeldIn(w).(groups := v.groups) else HeldIn(w))
    && (result == Noop ==> w.groups == v.groups[v.n := [v.n]])
    && w.toWrite == if result == Coalesced then v.toWrite else v.toWrite + [v.n]
  }

  /** A whole run, packet by packet. */
  ghost predicate IsRun(views: seq<View>, offset: nat) {
    forall i {:trigger Stepped(views[i], views[i + 1], offset)} :: 0 <= i < |views| - 1 ==> Stepped(views[i], views[i + 1], offset)
  }

  lemma NewestUnique(v: View, offset: nat, pktI: nat, m: TcpMeta, items: seq<Item>, i: nat, j: nat)
    requires pktI < |v.bufs| && Newest(v, offset, pktI, m, items, i) && Newest(v, offset, pktI, m, items, j)
    ensures i == j
  {
    hide Suits;
  }

  lemma OutcomeUnique(v: View, offset: nat, pktI: nat, isV6: bool, r1: GroResult, a1: Held, r2: GroResult, a2: Held)
    requires pktI < |v.bufs| && IsTcpCandidate(v.bufs[pktI].pkt, isV6)
    requires IsOutcome(v, offset, pktI, isV6, r1, a1) && IsOutcome(v, offset, pktI, isV6, r2, a2)
    ensures r1 == r2 && a1 == a2
  {
    hide Newest, NoneSuits, Kept, ParseTcp, Intact, Can, MergedItem, MergedBuf, IsTcpCandidate;
    var parsed := ParseTcp(v.bufs[pktI].pkt, isV6);
    if parsed.Some? && !NoneSuits(v, offset, pktI, parsed.value, Listing(v.table, parsed.value.key), 0) {
      var m, items := parsed.value, Listing(v.table, parsed.value.key);
      if Intact(v.bufs[pktI].pkt, m) {
        var i :| Joined(v, offset, pktI, m, items, i, a1);
        var j :| Joined(v, offset, pktI, m, items, j, a2);
        NewestUnique(v, offset, pktI, m, items, i, j);
      } else {
        var i :| Refused(v, offset, pktI, m, items, i, a1);
        var j :| Refused(v, offset, pktI, m, items, j, a2);
        NewestUnique(v, offset, pktI, m, items, i, j);
      }
    }
  }

  /** A step is determined by the state before it: table, buffers, their packets and what is to be written. */
  lemma StepUnique(v: View, w1: View, w2: View, offset: nat)
    requires Stepped(v, w1, offset) && Stepped(v, w2, offset)
    ensures HeldIn(w1) == HeldIn(w2) && w1.toWrite == w2.toWrite && w1.n == w2.n && w1.orig == w2.orig
  {
    hide IsOutcome, PacketIsGroCandidate, IsTcpCandidate;
    var c := PacketIsGroCandidate(v.bufs[v.n].pkt, false);
    if c != NotGroCandidate {
      var isV6 := c == Tcp6Candidate;
      var r1 :| Became(v, w1, offset, isV6, r1);
      var r2 :| Became(v, w2, offset, isV6, r2);
      var a1 := if r1 == Noop then HeldIn(w1).(groups := v.groups) else HeldIn(w1);
      var a2 := if r2 == Noop then HeldIn(w2).(groups := v.groups) else HeldIn(w2);
      OutcomeUnique(v, offset, v.n, isV6, r1, a1, r2, a2);
    }
  }

  lemma RunGrows(views: seq<View>, offset: nat, w: View)
    requires views != [] && IsRun(views, offset) && Stepped(views[|views| - 1], w, offset)
    ensures IsRun(views + [w], offset)
  {
    hide Stepped;
  }

  lemma NoSteps(v: View, offset: nat)
    ensures IsRun([v], offset)
  {
  }

  lemma NoopKeeps(v: View, offset: nat, pktI: nat, isV6: bool, result: GroResult, after: Held)
    requires pktI < |v.bufs| && IsTcpCandidate(v.bufs[pktI].pkt, isV6) && IsOutcome(v, offset, pktI, isV6, result, after)
    ensures result == Noop ==> after.groups == v.groups
  {
    hide Newest, Kept, ParseTcp, Intact, NoneSuits;
  }

  lemma SpoiledUnmerged(bufs: seq<Buf>, offset: nat, pktI: nat, m: TcpMeta, item: Item)
    requires pktI < |bufs| && Spoiled(bufs, offset, pktI, m, item)
    ensures item.numMerged == 0
  {
  }

  lemma MergeGrows(v: View, pktI: nat, m: TcpMeta, i: nat, item': Item, buf: Buf, spare: Buf, g: seq<nat>)
    requires pktI == v.n < |v.bufs| && m.key in v.table && i < |v.table[m.key]|
    requires var item := v.table[m.key][i];
             && item.bufsIndex == item'.bufsIndex < |v.bufs| && item.bufsIndex in v.groups
             && var mode := Can(v.bufs[pktI].pkt, m, item, v.bufs[item.bufsIndex].pkt);
                && item' == MergedItem(mode, m, item) && buf == MergedBuf(mode, v.bufs[pktI], m, item, v.bufs[item.bufsIndex])
                && spare == v.bufs[if mode == CoalescePrepend then item.bufsIndex else pktI]
                && g == if mode == CoalescePrepend then [pktI] + v.groups[item.bufsIndex] else v.groups[item.bufsIndex] + [pktI]
    ensures Grown(v, pktI, m, v.table[m.key][i], v.table[m.key][..i], v.table[m.key][i + 1..], HeldIn(Merge(v, m.key, i, item', buf, spare, g)))
  {
    hide Can, MergedItem, MergedBuf;
    var items := v.table[m.key];
    assert items[i := item'] == items[..i] + [item'] + items[i + 1..];
  }

  /** A merge seen from the state before the spoiled items above were dropped. */
  lemma SameGrown(v: View, u: View, pktI: nat, m: TcpMeta, item: Item, items: seq<Item>, below: seq<Item>, above: seq<Item>, after: Held)
    requires pktI < |v.bufs| && v.bufs == u.bufs && v.groups == u.groups && v.table == u.table[m.key := items]
    requires Grown(v, pktI, m, item, below, above, after)
    ensures Grown(u, pktI, m, item, below, above, after)
  {
    hide Can, MergedItem, MergedBuf;
  }

  lemma KeptNone(bufs: seq<Buf>, offset: nat, pktI: nat, m: TcpMeta)
    requires pktI < |bufs|
    ensures Kept(bufs, offset, pktI, m, []) == []
  {
  }

  lemma NoItems(v: View, offset: nat, pktI: nat, m: TcpMeta)
    requires pktI < |v.bufs|
    ensures NoneSuits(v, offset, pktI, m, [], 0)
  {
  }

  lemma SomeSuits(v: View, offset: nat, pktI: nat, m: TcpMeta, items: seq<Item>, after: Held)
    requires pktI < |v.bufs|
    requires (exists i :: Joined(v, offset, pktI, m, items, i, after)) || (exists i :: Refused(v, offset, pktI, m, items, i, after))
    ensures !NoneSuits(v, offset, pktI, m, items, 0)
  {
    hide Suits, Grown, Kept;
  }

  lemma KeptStep(bufs: seq<Buf>, offset: nat, pktI: nat, m: TcpMeta, items: seq<Item>, i: nat)
    requires pktI < |bufs| && i < |items|
    ensures Kept(bufs, offset, pktI, m, items[i..])
         == (if Spoiled(bufs, offset, pktI, m, items[i]) then [] else [items[i]]) + Kept(bufs, offset, pktI, m, items[i + 1..])
  {
    hide Spoiled;
    assert items[i..][1..] == items[i + 1..];
  }

  lemma NoneBehind(v: View, offset: nat, pktI: nat, m: TcpMeta, items: seq<Item>)
    requires pktI < |v.bufs|
    ensures NoneSuits(v, offset, pktI, m, items, |items|)
  {
  }

  /** Item `i` is the newest that suits, or none suits from there on. */
  lemma OneMoreItem(v: View, offset: nat, pktI: nat, m: TcpMeta, items: seq<Item>, i: nat)
    requires pktI < |v.bufs| && i < |items| && NoneSuits(v, offset, pktI, m, items, i + 1)
    ensures if Suits(v.bufs, offset, pktI, m, items[i]) then Newest(v, offset, pktI, m, items, i) else NoneSuits(v, offset, pktI, m, items, i)
  {
    hide Suits;
  }

  /** The items up to `i` and those kept behind them, seen from item `i`. */
  lemma CutAt(bufs: seq<Buf>, offset: nat, pktI: nat, m: TcpMeta, items: seq<Item>, i: nat)
    requires pktI < |bufs| && i < |items|
    ensures var above := Kept(bufs, offset, pktI, m, items[i + 1..]);
            var list := items[..i + 1] + above;
            && i < |list| && list[i] == items[i] && list[..i] == items[..i] && list[i + 1..] == above
            && items[..i] + Kept(bufs, offset, pktI, m, items[i..]) == if Spoiled(bufs, offset, pktI, m, items[i]) then list[..i] + list[i + 1..] else list
  {
    hide Spoiled, Kept;
    KeptStep(bufs, offset, pktI, m, items, i);
    CutList(items, i, Kept(bufs, offset, pktI, m, items[i + 1..]));
  }

  lemma CutList(items: seq<Item>, i: nat, above: seq<Item>)
    requires i < |items|
    ensures var list := items[..i + 1] + above;
            && list == items[..i] + ([items[i]] + above) && i < |list|
            && list[i] == items[i] && list[..i] == items[..i] && list[i + 1..] == above && [] + above == above
  {
  }

  lemma CanIs(bufs: seq<Buf>, offset: nat, pktI: nat, m: TcpMeta, item: Item)
    requires pktI < |bufs| && item.bufsIndex < |bufs| && m.iphLen + m.tcphLen <= |bufs[pktI].pkt| && item.iphLen == m.iphLen
    requires HeadersLen(item) <= |bufs[item.bufsIndex].pkt| && 20 <= m.tcphLen && 0 < item.gsoSize
    ensures Can(bufs[pktI].pkt, m, item, bufs[item.bufsIndex].pkt) == TcpPacketsCanCoalesce(bufs[pktI].pkt, m, item, bufs[item.bufsIndex].pkt)
    ensures Suits(bufs, offset, pktI, m, item) || Spoiled(bufs, offset, pktI, m, item) ==>
              Can(bufs[pktI].pkt, m, item, bufs[item.bufsIndex].pkt) != CoalesceUnavailable
  {
  }

  class TcpGro {
    const offset: nat
    const vector: Vector
    var table: Table
    ghost var view: View

    ghost predicate Valid()
      reads this, vector
    {
      Shows(vector.bufs, view) && view.table == table && Inv(view, offset)
    }

    constructor (vector: Vector, offset: nat)
      requires forall j {:trigger vector.bufs[j]} :: 0 <= j < |vector.bufs| ==> offset + |vector.bufs[j].pkt| <= vector.bufs[j].cap <= 0xFFFF
      ensures Valid() && this.vector == vector && this.offset == offset && table == map[] && view == Start(vector.bufs)
    {
      this.offset, this.vector, table, view := offset, vector, map[], Start(vector.bufs);
      new;
      StartInv(vector.bufs, offset);
    }

    /** What coalesceTCPPackets tests before it merges. */
    method CoalesceTests(mode: CanCoalesce, pktI: nat, m: TcpMeta, item: Item) returns (result: CoalesceResult)
      requires pktI < |view.orig| == |vector.bufs| && item.bufsIndex < |vector.bufs| && item.bufsIndex in view.groups && vector.bufs[pktI].pkt == view.orig[pktI]
      requires Member(view.orig, item, pktI) && m == Meta(view.orig, item, pktI)
      requires Tracks(view.orig, vector.bufs[item.bufsIndex].pkt, view.groups[item.bufsIndex], item)
      requires mode != CoalesceUnavailable && mode == Can(vector.bufs[pktI].pkt, m, item, vector.bufs[item.bufsIndex].pkt)
      ensures result == ItemInvalidCsum <==> Spoiled(vector.bufs, offset, pktI, m, item)
      ensures result == CoalesceSuccess <==> Suits(vector.bufs, offset, pktI, m, item) && Intact(vector.bufs[pktI].pkt, m)
      ensures result == PktInvalidCsum <==> Suits(vector.bufs, offset, pktI, m, item) && !Intact(vector.bufs[pktI].pkt, m)
    {
      hide Can, Member, Meta, Tracks, HasValidChecksum;
      var pkt, target := vector.bufs[pktI], vector.bufs[item.bufsIndex];
      TracksFirst(view.orig, target.pkt, view.groups[item.bufsIndex], item);
      TracksShape(view.orig, target.pkt, view.groups[item.bufsIndex], item);
      MemberLength(view.orig, item, pktI);
      MemberMeta(view.orig, item, pktI);
      var coalescedLen := |target.pkt| + |pkt.pkt| - (item.iphLen + item.tcphLen);
      var head := if mode == CoalescePrepend then pkt else target;
      if head.cap - 2 * offset < coalescedLen {
        return InsufficientCap;
      }
      if mode == CoalescePrepend && m.pshSet {
        return PshEnding;
      }
      if item.numMerged == 0 {
        var itemValid := ChecksumValid(target.pkt, item.iphLen, IPPROTO_TCP, item.key.isV6);
        if !itemValid {
          return ItemInvalidCsum;
        }
      }
      var pktValid := ChecksumValid(pkt.pkt, item.iphLen, IPPROTO_TCP, item.key.isV6);
      result := if pktValid then CoalesceSuccess else PktInvalidCsum;
    }

    /** coalesceTCPPackets: merge packet `pktI` into the buffer of `item`, if lengths and checksums allow. */
    method CoalesceTCPPackets(mode: CanCoalesce, pktI: nat, m: TcpMeta, item: Item)
      returns (result: CoalesceResult, item': Item, ghost g: seq<nat>, ghost buf: Buf, ghost spare: Buf)
      requires Valid() && pktI == view.n < |view.orig| == |vector.bufs| && item.bufsIndex < |vector.bufs| && item.bufsIndex in view.groups
      requires vector.bufs[pktI].pkt == view.orig[pktI] && CapOk(vector.bufs[pktI], offset) && CapOk(vector.bufs[item.bufsIndex], offset)
      requires Member(view.orig, item, pktI) && m == Meta(view.orig, item, pktI)
      requires Tracks(view.orig, vector.bufs[item.bufsIndex].pkt, view.groups[item.bufsIndex], item) && Later(view.groups[item.bufsIndex], pktI)
      requires mode != CoalesceUnavailable && mode == Can(vector.bufs[pktI].pkt, m, item, vector.bufs[item.bufsIndex].pkt)
      modifies vector`bufs
      ensures result != CoalesceSuccess ==> vector.bufs == old(vector.bufs)
      ensures result == ItemInvalidCsum <==> Spoiled(old(vector.bufs), offset, pktI, m, item)
      ensures result == CoalesceSuccess <==> Suits(old(vector.bufs), offset, pktI, m, item) && Intact(old(vector.bufs)[pktI].pkt, m)
      ensures result == PktInvalidCsum <==> Suits(old(vector.bufs), offset, pktI, m, item) && !Intact(old(vector.bufs)[pktI].pkt, m)
      ensures result == CoalesceSuccess ==>
                && vector.bufs == old(vector.bufs)[pktI := spare][item.bufsIndex := buf] && CapOk(buf, offset) && CapOk(spare, offset)
                && g == (if mode == CoalescePrepend then [pktI] + view.groups[item.bufsIndex] else view.groups[item.bufsIndex] + [pktI])
                && item' == MergedItem(mode, m, item) && item'.bufsIndex == item.bufsIndex && item'.key == item.key
                && buf == MergedBuf(mode, old(vector.bufs)[pktI], m, item, old(vector.bufs)[item.bufsIndex])
                && spare == old(vector.bufs)[if mode == CoalescePrepend then item.bufsIndex else pktI]
                && Tracks(view.orig, buf.pkt, g, item')
    {
      hide Inv, TcpPacketsCanCoalesce, Member, Meta, Tracks, Suits, Spoiled, Intact, AppendedPkt, Payload;
      var pkt, target := vector.bufs[pktI], vector.bufs[item.bufsIndex];
      item' := item;
      g, buf, spare := [], pkt, target;
      result := CoalesceTests(mode, pktI, m, item);
      if result != CoalesceSuccess {
        return;
      }
      var headersLen := item.iphLen + item.tcphLen;
      ghost var members := view.groups[item.bufsIndex];
      Merges(view.orig, pkt, target, offset, vector.bufs, mode, pktI, m, item, members);
      if mode == CoalescePrepend {
        item' := PrependedItem(item, m);
        vector.bufs := vector.bufs[pktI := Buf(pkt.pkt + Payload(target.pkt, headersLen), pkt.cap)];
        vector.bufs := vector.bufs[pktI := vector.bufs[item.bufsIndex]][item.bufsIndex := vector.bufs[pktI]];
        g, buf, spare := [pktI] + members, vector.bufs[item.bufsIndex], target;
      } else {
        item' := AppendedItem(item, m);
        vector.bufs := vector.bufs[item.bufsIndex := Buf(AppendedPkt(target.pkt, item, m, pkt.pkt), target.cap)];
        g, buf, spare := members + [pktI], vector.bufs[item.bufsIndex], pkt;
      }
    }

    /** deleteAt: a single packet is dropped from the table. */
    method DeleteAt(key: FlowKey, i: nat)
      requires Valid() && key in table && i < |table[key]| && table[key][i].numMerged == 0
      modifies this`table, this`view
      ensures Valid() && view.orig == old(view.orig) && view.toWrite == old(view.toWrite) && view.n == old(view.n)
      ensures view.groups == old(view.groups) && view.bufs == old(view.bufs)
      ensures table == old(table)[key := old(table[key][..i] + table[key][i + 1..])]
    {
      hide Inv, Shows;
      table := table[key := table[key][..i] + table[key][i + 1..]];
      DropInv(view, offset, key, i);
      ghost var v := view;
      view := Drop(view, key, i);
      ShownSame(vector.bufs, v, view);
    }

    /** One iteration of the loop of tcpGRO: try item `i` of the flow. */
    method TryItem(pktI: nat, isV6: bool, m: TcpMeta, i: nat) returns (outcome: CoalesceResult)
      requires Valid() && pktI == view.n < |view.orig| && IsTcpCandidate(view.orig[pktI], isV6)
      requires ParseTcp(view.orig[pktI], isV6) == Some(m) && m.key in table && i < |table[m.key]|
      modifies vector`bufs, this`table, this`view
      ensures Valid() && view.orig == old(view.orig) && view.toWrite == old(view.toWrite) && Spares(view.orig, old(vector.bufs), vector.bufs)
      ensures pktI < |old(view.bufs)|
      ensures outcome == CoalesceSuccess <==> Suits(old(view.bufs), offset, pktI, m, old(table[m.key][i])) && Intact(old(view.bufs)[pktI].pkt, m)
      ensures outcome == PktInvalidCsum <==> Suits(old(view.bufs), offset, pktI, m, old(table[m.key][i])) && !Intact(old(view.bufs)[pktI].pkt, m)
      ensures outcome == ItemInvalidCsum <==> Spoiled(old(view.bufs), offset, pktI, m, old(table[m.key][i]))
      ensures outcome == CoalesceSuccess ==>
                view.n == pktI + 1
                && Grown(old(view), pktI, m, old(table[m.key][i]), old(table[m.key][..i]), old(table[m.key][i + 1..]), HeldIn(view))
      ensures outcome != CoalesceSuccess ==>
                view.n == pktI && view.groups == old(view.groups) && view.bufs == old(view.bufs) && vector.bufs == old(vector.bufs)
      ensures outcome != CoalesceSuccess ==>
                table == if outcome == ItemInvalidCsum then old(table)[m.key := old(table[m.key][..i] + table[m.key][i + 1..])] else old(table)
    {
      hide Inv, ParseTcp, IsTcpCandidate, TcpPacketsCanCoalesce, Tracks, Suits, Spoiled, Intact, Can, MergedItem, MergedBuf, Grown, Shows, Spares;
      BufferIsPacket(view, offset);
      NewTracks(view.orig, pktI, isV6);
      ghost var v, before := view, vector.bufs;
      var item := table[m.key][i];
      TableItem(view, offset, m.key, i);
      ShownItem(vector.bufs, view, offset, pktI, isV6, m, i);
      SparesAll(view.orig, vector.bufs);
      CanIs(vector.bufs, offset, pktI, m, item);
      var can := TcpPacketsCanCoalesce(vector.bufs[pktI].pkt, m, item, vector.bufs[item.bufsIndex].pkt);
      if can == CoalesceUnavailable {
        return InsufficientCap;
      }
      CoalescibleMember(view.orig, pktI, isV6, item, vector.bufs[item.bufsIndex].pkt);
      var result, item', g, buf, spare := CoalesceTCPPackets(can, pktI, m, item);
      outcome := result;
      if outcome == CoalesceSuccess {
        table := table[m.key := table[m.key][i := item']];
        MergeInv(v, m.key, i, item', buf, spare, g, offset);
        MergeGrows(v, pktI, m, i, item', buf, spare, g);
        view := Merge(v, m.key, i, item', buf, spare, g);
        ShownMerge(before, v, item.bufsIndex, buf, spare, vector.bufs, view);
      } else if outcome == ItemInvalidCsum {
        SpoiledUnmerged(vector.bufs, offset, pktI, m, item);
        DeleteAt(m.key, i);
      }
    }

    /** The loop of tcpGRO over the items of a flow, newest first. */
    method TryItems(pktI: nat, isV6: bool, m: TcpMeta) returns (outcome: CoalesceResult)
      requires Valid() && pktI == view.n < |view.orig| && IsTcpCandidate(view.orig[pktI], isV6)
      requires ParseTcp(view.orig[pktI], isV6) == Some(m) && m.key in table
      modifies vector`bufs, this`table, this`view
      ensures Valid() && view.orig == old(view.orig) && view.toWrite == old(view.toWrite) && Spares(view.orig, old(vector.bufs), vector.bufs)
      ensures view.n == if outcome == CoalesceSuccess then pktI + 1 else pktI
      ensures pktI < |old(view.bufs)|
      ensures outcome == CoalesceSuccess ==>
                Intact(old(view.bufs)[pktI].pkt, m) && exists i :: Joined(old(view), offset, pktI, m, old(table[m.key]), i, HeldIn(view))
      ensures outcome == PktInvalidCsum ==>
                !Intact(old(view.bufs)[pktI].pkt, m) && exists i :: Refused(old(view), offset, pktI, m, old(table[m.key]), i, HeldIn(view))
      ensures outcome != CoalesceSuccess && outcome != PktInvalidCsum ==>
                && NoneSuits(old(view), offset, pktI, m, old(table[m.key]), 0)
                && HeldIn(view) == Held(old(table)[m.key := Kept(old(view.bufs), offset, pktI, m, old(table[m.key]))], old(view.bufs), old(view.groups))
    {
      hide Inv, ParseTcp, IsTcpCandidate, Tracks, Suits, Spoiled, Kept, Intact, Grown, Shows, Spares, NoneSuits, Newest;
      BufferIsPacket(view, offset);
      ShownPacket(vector.bufs, view, pktI, isV6);
      SparesAll(view.orig, vector.bufs);
      ghost var was := view.bufs;
      var items := table[m.key];
      var i := |items|;
      KeptNone(was, offset, pktI, m);
      NoneBehind(view, offset, pktI, m, items);
      assert items[..i] + [] == items && table[m.key := items] == table;
      while i > 0
        invariant 0 <= i <= |items| && Valid() && view.n == pktI && view.orig == old(view.orig) && view.toWrite == old(view.toWrite)
        invariant table == old(table)[m.key := items[..i] + Kept(was, offset, pktI, m, items[i..])]
        invariant view.bufs == was && vector.bufs == old(vector.bufs) && view.groups == old(view.groups)
        invariant NoneSuits(old(view), offset, pktI, m, items, i)
      {
        i := i - 1;
        ghost var v, above := view, Kept(was, offset, pktI, m, items[i + 1..]);
        CutAt(was, offset, pktI, m, items, i);
        outcome := TryItem(pktI, isV6, m, i);
        OneMoreItem(old(view), offset, pktI, m, items, i);
        if outcome == CoalesceSuccess {
          SameGrown(v, old(view), pktI, m, items[i], items[..i + 1] + above, items[..i], above, HeldIn(view));
          assert Joined(old(view), offset, pktI, m, items, i, HeldIn(view));
          return;
        }
        if outcome == PktInvalidCsum {
          assert Refused(old(view), offset, pktI, m, items, i, HeldIn(view));
          return;
        }
      }
      assert items[0..] == items && items[..0] + Kept(was, offset, pktI, m, items) == Kept(was, offset, pktI, m, items);
      outcome := InsufficientCap;
    }

    /** tcpGRO: try to merge packet `pktI` into an item of its flow. */
    method TcpGRO(pktI: nat, isV6: bool) returns (result: GroResult)
      requires Valid() && pktI == view.n < |view.orig| && IsTcpCandidate(view.orig[pktI], isV6)
      modifies vector`bufs, this`table, this`view
      ensures Valid() && view.orig == old(view.orig) && Spares(view.orig, old(vector.bufs), vector.bufs)
      ensures view.toWrite == if result == TableInsert then old(view.toWrite) + [pktI] else old(view.toWrite)
      ensures view.n == if result == Noop then pktI else pktI + 1
      ensures pktI < |old(view.bufs)| && old(view.bufs)[pktI].pkt == view.orig[pktI]
      ensures IsOutcome(old(view), offset, pktI, isV6, result, HeldIn(view))
      ensures result == TableInsert ==> pktI in view.live
    {
      hide Inv, ParseTcp, IsTcpCandidate, Tracks, Kept, Intact, Grown, NoneSuits, Newest, Shows, Spares;
      BufferIsPacket(view, offset);
      ShownPacket(vector.bufs, view, pktI, isV6);
      SparesAll(view.orig, vector.bufs);
      var parsed := ParseTcp(vector.bufs[pktI].pkt, isV6);
      if parsed.None? {
        return Noop;
      }
      var m := parsed.value;
      NewTracks(view.orig, pktI, isV6);
      KeptNone(view.bufs, offset, pktI, m);
      NoItems(view, offset, pktI, m);
      if m.key in table {
        var outcome := TryItems(pktI, isV6, m);
        if outcome == CoalesceSuccess {
          SomeSuits(old(view), offset, pktI, m, old(table[m.key]), HeldIn(view));
          return Coalesced;
        }
        if outcome == PktInvalidCsum {
          SomeSuits(old(view), offset, pktI, m, old(table[m.key]), HeldIn(view));
          return Noop;
        }
      }
      ghost var v := view;
      table := table[m.key := Listing(table, m.key) + [NewItem(m, pktI)]];
      EnterInv(view, offset, NewItem(m, pktI));
      view := Enter(view, NewItem(m, pktI));
      ShownSame(vector.bufs, v, view);
      return TableInsert;
    }

    /** One iteration of the loop of handleGRO, for a packet that is given to tcpGRO. */
    method HandleTcp(pktI: nat, isV6: bool) returns (result: GroResult)
      requires Valid() && pktI == view.n < |view.orig| && IsTcpCandidate(view.orig[pktI], isV6)
      modifies vector`bufs, this`table, this`view
      ensures Valid() && view.orig == old(view.orig) && view.n == pktI + 1 && Spares(view.orig, old(vector.bufs), vector.bufs)
      ensures Stepped(old(view), view, offset) && view.toWrite == if result == Coalesced then old(view.toWrite) else old(view.toWrite) + [pktI]
      ensures result == TableInsert <==> pktI in view.live
    {
      hide Inv, IsTcpCandidate, IsOutcome, Shows, Spares;
      ghost var v := view;
      LiveWritten(view, offset);
      result := TcpGRO(pktI, isV6);
      LiveWritten(view, offset);
      NoopKeeps(v, offset, pktI, isV6, result, HeldIn(view));
      if result == Noop {
        PassOnInv(view, offset);
        ShownSame(vector.bufs, view, PassOn(view));
        view := PassOn(view);
      }
      assert Became(v, view, offset, isV6, result);
      SteppedTcp(v, view, offset, isV6);
    }

    /** The step for any other packet. */
    ghost method PassOther()
      requires Valid() && view.n < |view.orig| && !IsTcp(view.orig[view.n])
      modifies this`view
      ensures Valid() && view == PassOn(old(view)) && Stepped(old(view), view, offset)
    {
      hide Inv, Shows;
      BufferIsPacket(view, offset);
      SteppedOther(view, offset);
      PassOnInv(view, offset);
      ShownSame(vector.bufs, view, PassOn(view));
      view := PassOn(view);
    }

    /** The item of buffer `w`, if the buffer holds several packets. */
    method MergedAt(w: nat) returns (found: set<Item>)
      requires view.table == table && Inv(view, offset)
      ensures found == if w in view.live && view.live[w].numMerged > 0 then {view.live[w]} else {}
    {
      hide Inv;
      ghost var items := set key, item | key in table && item in table[key] :: item;
      AllLive(view, offset, items);
      found := set key, item | key in table && item in table[key] && item.bufsIndex == w && item.numMerged > 0 :: item;
      forall item ensures item in found <==> item in items && item.bufsIndex == w && item.numMerged > 0 {
      }
    }

    /** applyTCPCoalesceAccounting: the order in which it visits the items is not determined. */
    method ApplyTCPCoalesceAccounting()
      requires Valid()
      modifies vector
      ensures Accounted(view, {}, old(vector.bufs), vector.bufs, old(vector.vhdrs), vector.vhdrs)
    {
      hide Inv, Shows, Accounted;
      var todo := set key, item | key in table && item in table[key] :: item;
      AllLive(view, offset, todo);
      ShownLength(vector.bufs, view);
      AccountedNone(view, todo, vector.bufs, vector.vhdrs);
      ghost var was, hdrs := vector.bufs, vector.vhdrs;
      while todo != {}
        invariant forall item :: item in todo ==> item.bufsIndex in view.live && view.live[item.bufsIndex] == item
        invariant Accounted(view, todo, was, vector.bufs, hdrs, vector.vhdrs)
        decreases todo
      {
        var item :| item in todo;
        AccountedItem(view, offset, todo, was, vector.bufs, hdrs, vector.vhdrs, item);
        ghost var bufs, vhdrs := vector.bufs, vector.vhdrs;
        if item.numMerged > 0 {
          var out := AccountPacket(vector.bufs[item.bufsIndex].pkt, item);
          vector.bufs := vector.bufs[item.bufsIndex := vector.bufs[item.bufsIndex].(pkt := out)];
          vector.vhdrs := vector.vhdrs[item.bufsIndex := Some(HdrOf(item))];
        } else {
          vector.vhdrs := vector.vhdrs[item.bufsIndex := None];
        }
        AccountedStep(view, offset, todo, was, bufs, hdrs, vhdrs, item, vector.bufs, vector.vhdrs);
        todo := todo - {item};
      }
    }
  }

  // ---------- the shared vector ----------

  /** The vector holds what the view says, at the packets that are given to tcpGRO. */
  ghost predicate Shows(bufs: seq<Buf>, v: View) {
    |bufs| == |v.bufs| == |v.orig| && forall j {:trigger bufs[j]} :: 0 <= j < |bufs| && IsTcp(v.orig[j]) ==> bufs[j] == v.bufs[j]
  }

  /** All other buffers are as they were. */
  ghost predicate Spares(orig: seq<Bytes>, before: seq<Buf>, after: seq<Buf>) {
    |before| == |after| == |orig| && forall j {:trigger after[j]} :: 0 <= j < |after| && !IsTcp(orig[j]) ==> after[j] == before[j]
  }

  lemma SparesAll(orig: seq<Bytes>, bufs: seq<Buf>)
    requires |bufs| == |orig|
    ensures Spares(orig, bufs, bufs)
  {
  }

  lemma TcpIsTcp(b: Bytes, isV6: bool)
    requires IsTcpCandidate(b, isV6)
    ensures IsTcp(b)
  {
    hide IsTcpCandidate;
  }

  lemma ShownPacket(bufs: seq<Buf>, v: View, pktI: nat, isV6: bool)
    requires Shows(bufs, v) && pktI < |v.orig| && IsTcpCandidate(v.orig[pktI], isV6)
    ensures |bufs| == |v.bufs| == |v.orig| && bufs[pktI] == v.bufs[pktI]
  {
    TcpIsTcp(v.orig[pktI], isV6);
  }

  lemma ShownLength(bufs: seq<Buf>, v: View)
    requires Shows(bufs, v)
    ensures |bufs| == |v.bufs| == |v.orig|
  {
  }

  /** Items are in buffers that are to be written. */
  lemma LiveWritten(v: View, offset: nat)
    requires Inv(v, offset)
    ensures forall w :: w in v.live ==> w in v.toWrite
    ensures forall w :: w in v.toWrite ==> w < v.n
  {
    hide TableOk, PartitionOk, BufsOk, GroupOk;
  }

  lemma ShownSame(bufs: seq<Buf>, v: View, w: View)
    requires Shows(bufs, v) && w.bufs == v.bufs && w.orig == v.orig
    ensures Shows(bufs, w)
  {
  }

  /** The buffer of an item is that of a TCP packet. */
  lemma OwnBuffer(v: View, offset: nat, w: nat)
    requires Inv(v, offset) && w in v.live
    ensures w < |v.orig| && w in v.groups && w in v.groups[w] && IsTcp(v.orig[w])
  {
    hide TableOk, WriteOk, BufsOk, Contents, Alike, ParseTcp, IsTcpCandidate;
    assert GroupOk(v, w) && HomeOk(v, w);
    var k :| 0 <= k < |v.groups[w]| && v.groups[w][k] == w;
    assert PieceOk(v.orig, v.live[w], v.groups[w], k);
    TcpIsTcp(v.orig[w], v.live[w].key.isV6);
  }

  lemma ItemIsLive(v: View, offset: nat, key: FlowKey, i: nat)
    requires Inv(v, offset) && key in v.table && i < |v.table[key]|
    ensures v.table[key][i].bufsIndex in v.live && v.live[v.table[key][i].bufsIndex] == v.table[key][i]
  {
    hide GroupsOk, WriteOk, PartitionOk, BufsOk;
    assert ItemOk(v, key, v.table[key][i]);
  }

  /** What the vector shows of an item and of the packet to be merged. */
  lemma ShownItem(bufs: seq<Buf>, v: View, offset: nat, pktI: nat, isV6: bool, m: TcpMeta, i: nat)
    requires Inv(v, offset) && Shows(bufs, v) && pktI < |v.orig| && IsTcpCandidate(v.orig[pktI], isV6) && m.key in v.table && i < |v.table[m.key]|
    ensures |bufs| == |v.bufs| == |v.orig| && bufs[pktI] == v.bufs[pktI]
    ensures var item := v.table[m.key][i];
            && item.bufsIndex < |bufs| && bufs[item.bufsIndex] == v.bufs[item.bufsIndex] && IsTcp(v.orig[item.bufsIndex]) && IsTcp(v.orig[pktI])
            && Suits(bufs, offset, pktI, m, item) == Suits(v.bufs, offset, pktI, m, item)
            && Spoiled(bufs, offset, pktI, m, item) == Spoiled(v.bufs, offset, pktI, m, item)
  {
    hide Inv, IsTcpCandidate, Can, Mergeable, Intact;
    ShownPacket(bufs, v, pktI, isV6);
    TcpIsTcp(v.orig[pktI], isV6);
    ItemIsLive(v, offset, m.key, i);
    OwnBuffer(v, offset, v.table[m.key][i].bufsIndex);
  }

  lemma ShownMerge(before: seq<Buf>, v: View, w: nat, buf: Buf, spare: Buf, after: seq<Buf>, v': View)
    requires Shows(before, v) && v.n < |v.bufs| && w < |v.bufs| && IsTcp(v.orig[v.n]) && IsTcp(v.orig[w])
    requires after == before[v.n := spare][w := buf] && v'.bufs == v.bufs[v.n := spare][w := buf] && v'.orig == v.orig
    ensures Shows(after, v') && Spares(v.orig, before, after)
  {
    hide IsTcp;
  }

  lemma SteppedTcp(v: View, w: View, offset: nat, isV6: bool)
    requires v.n < |v.bufs| && w.n == v.n + 1 && w.orig == v.orig && IsTcpCandidate(v.bufs[v.n].pkt, isV6)
    requires exists result :: Became(v, w, offset, isV6, result)
    ensures Stepped(v, w, offset)
  {
    hide Became;
  }

  lemma SteppedOther(v: View, offset: nat)
    requires v.n < |v.bufs| && !IsTcp(v.bufs[v.n].pkt)
    ensures Stepped(v, PassOn(v), offset)
  {
    CandidateKinds(v.bufs[v.n].pkt, false);
  }

  // ---------- the accounting ----------

  /** What the accounting has written for buffer `w`. */
  ghost predicate AccountedAt(v: View, w: nat, buf: Buf, vhdrs: map<nat, Option<VirtioNetHdr>>)
    requires w in v.live
  {
    && w < |v.bufs| && w in vhdrs
    && if v.live[w].numMerged > 0 then
         && IsAccounted(v.bufs[w].pkt, v.live[w], buf.pkt) && buf.cap == v.bufs[w].cap
         && vhdrs[w] == Some(HdrOf(v.live[w]))
       else buf == v.bufs[w] && vhdrs[w] == None
  }

  /** The live items not in `todo` have been accounted for, and nothing else has changed. */
  ghost predicate Accounted(v: View, todo: set<Item>, before: seq<Buf>, bufs: seq<Buf>,
                            vhdrsBefore: map<nat, Option<VirtioNetHdr>>, vhdrs: map<nat, Option<VirtioNetHdr>>) {
    && |bufs| == |before| == |v.bufs|
    && (forall w {:trigger AccountedAt(v, w, bufs[w], vhdrs)} :: w in v.live && w < |bufs| && v.live[w] !in todo ==> AccountedAt(v, w, bufs[w], vhdrs))
    && (forall w {:trigger bufs[w]} :: 0 <= w < |bufs| && !(w in v.live && v.live[w] !in todo) ==> bufs[w] == before[w])
    && (forall w {:trigger w in vhdrs} :: !(w in v.live && v.live[w] !in todo) ==>
          (w in vhdrs <==> w in vhdrsBefore) && (w in vhdrs ==> vhdrs[w] == vhdrsBefore[w]))
  }

  lemma AccountedNone(v: View, todo: set<Item>, bufs: seq<Buf>, vhdrs: map<nat, Option<VirtioNetHdr>>)
    requires |bufs| == |v.bufs| && forall w :: w in v.live ==> v.live[w] in todo
    ensures Accounted(v, todo, bufs, bufs, vhdrs, vhdrs)
  {
  }

  lemma AccountedItem(v: View, offset: nat, todo: set<Item>, before: seq<Buf>, bufs: seq<Buf>,
                      vhdrsBefore: map<nat, Option<VirtioNetHdr>>, vhdrs: map<nat, Option<VirtioNetHdr>>, item: Item)
    requires Inv(v, offset) && Shows(before, v) && Accounted(v, todo, before, bufs, vhdrsBefore, vhdrs)
    requires item in todo && item.bufsIndex in v.live && v.live[item.bufsIndex] == item
    ensures item.bufsIndex < |bufs| && bufs[item.bufsIndex] == v.bufs[item.bufsIndex]
    ensures ItemShape(item) && HeadersLen(item) < |bufs[item.bufsIndex].pkt| <= 0xFFFF
  {
    hide Inv, Tracks, AccountedAt;
    LiveItem(v, offset, item.bufsIndex);
    OwnBuffer(v, offset, item.bufsIndex);
  }

  lemma AccountedStep(v: View, offset: nat, todo: set<Item>, before: seq<Buf>, bufs: seq<Buf>,
                      vhdrsBefore: map<nat, Option<VirtioNetHdr>>, vhdrs: map<nat, Option<VirtioNetHdr>>, item: Item,
                      bufs': seq<Buf>, vhdrs': map<nat, Option<VirtioNetHdr>>)
    requires Inv(v, offset) && Shows(before, v) && Accounted(v, todo, before, bufs, vhdrsBefore, vhdrs)
    requires item in todo && item.bufsIndex in v.live && v.live[item.bufsIndex] == item && item.bufsIndex < |bufs| && ItemShape(item)
    requires bufs[item.bufsIndex] == v.bufs[item.bufsIndex]
    requires item.numMerged == 0 ==> bufs' == bufs && vhdrs' == vhdrs[item.bufsIndex := None]
    requires item.numMerged > 0 ==>
               && |bufs'| == |bufs| && bufs' == bufs[item.bufsIndex := bufs'[item.bufsIndex]] && vhdrs' == vhdrs[item.bufsIndex := Some(HdrOf(item))]
               && IsAccounted(bufs[item.bufsIndex].pkt, item, bufs'[item.bufsIndex].pkt) && bufs'[item.bufsIndex].cap == bufs[item.bufsIndex].cap
    requires forall w :: w in v.live ==> v.live[w].bufsIndex == w
    ensures Accounted(v, todo - {item}, before, bufs', vhdrsBefore, vhdrs')
  {
    hide Inv, Shows, IsAccounted, HdrOf;
    forall w {:trigger AccountedAt(v, w, bufs'[w], vhdrs')} | w in v.live && w < |bufs'| && v.live[w] !in todo - {item}
      ensures AccountedAt(v, w, bufs'[w], vhdrs')
    {
      if w != item.bufsIndex {
        assert AccountedAt(v, w, bufs[w], vhdrs);
      }
    }
  }

  lemma AllLive(v: View, offset: nat, items: set<Item>)
    requires Inv(v, offset) && items == set key, item | key in v.table && item in v.table[key] :: item
    ensures forall item :: item in items ==> item.bufsIndex in v.live && v.live[item.bufsIndex] == item
    ensures forall w :: w in v.live ==> v.live[w] in items && v.live[w].bufsIndex == w
  {
    hide GroupsOk, PartitionOk;
    forall item | item in items
      ensures item.bufsIndex in v.live && v.live[item.bufsIndex] == item
    {
      var key :| key in v.table && item in v.table[key];
      var i :| 0 <= i < |v.table[key]| && v.table[key][i] == item;
      assert ItemOk(v, key, v.table[key][i]);
    }
    forall w | w in v.live
      ensures v.live[w] in items && v.live[w].bufsIndex == w
    {
      assert Listed(v, w);
    }
  }

  lemma LiveItem(v: View, offset: nat, w: nat)
    requires Inv(v, offset) && w in v.live
    ensures w < |v.bufs| && w in v.groups && v.live[w].bufsIndex == w && Tracks(v.orig, v.bufs[w].pkt, v.groups[w], v.live[w])
    ensures ItemShape(v.live[w]) && HeadersLen(v.live[w]) < |v.bufs[w].pkt| <= 0xFFFF
  {
    hide PartitionOk;
    assert GroupOk(v, w);
    assert Listed(v, w);
  }

  /** Every input packet is in exactly one place of exactly one written buffer. */
  lemma EveryPacketLandsOnce(v: View, offset: nat, j: nat) returns (w: nat, k: nat)
    requires Inv(v, offset) && j < v.n
    ensures w in v.toWrite && w in v.groups && k < |v.groups[w]| && v.groups[w][k] == j
    ensures forall w', k' :: w' in v.groups && 0 <= k' < |v.groups[w']| && v.groups[w'][k'] == j ==> w' == w && k' == k
  {
    hide TableOk, GroupsOk, BufsOk;
    w := v.home[j];
    k :| 0 <= k < |v.groups[w]| && v.groups[w][k] == j;
    forall w', k' | w' in v.groups && 0 <= k' < |v.groups[w']| && v.groups[w'][k'] == j
      ensures w' == w && k' == k
    {
      assert HomeOk(v, w') && HomeOk(v, w);
      assert j in v.groups[w'];
    }
  }

  /** What a written buffer gives back: a buffer without merged packets is its own input packet; a
      merged one splits into exactly its packets. */
  lemma WrittenBufferSplitsBack(v: View, offset: nat, w: nat, out: Bytes, k: nat, seg: Bytes)
    requires Inv(v, offset) && w in v.groups && k < |v.groups[w]|
    requires w in v.live && v.live[w].numMerged > 0 ==>
               && w < |v.bufs| && IsAccounted(v.bufs[w].pkt, v.live[w], out)
               && Splittable(out, HdrOf(v.live[w]), v.live[w].key.isV6) && SegmentStart(HdrOf(v.live[w]), k) <= |out|
               && IsSegment(out, HdrOf(v.live[w]), v.live[w].key.isV6, k, seg)
    ensures v.groups[w][k] < |v.orig|
    ensures !(w in v.live && v.live[w].numMerged > 0) ==> w < |v.bufs| && k == 0 && v.groups[w] == [w] && v.bufs[w].pkt == v.orig[w]
    ensures w in v.live && v.live[w].numMerged > 0 ==>
              var item, b := v.live[w], v.orig[v.groups[w][k]];
              && SegmentCount(out, HdrOf(item), |v.groups[w]|)
              && HeadersLen(item) <= |seg| == |b| && seg[HeadersLen(item)..] == b[HeadersLen(item)..]
              && Be32(seg, item.iphLen + 4) == Be32(b, item.iphLen + 4) && SameFlowFields(seg, b, item.key.isV6)
  {
    hide IsAccounted, IsSegment, Splittable, SegmentStart, SegmentCount, TableOk, PartitionOk, SameFlowFields, Pieces;
    assert GroupOk(v, w);
    if w in v.live {
      PieceSize(v.orig, v.bufs[w].pkt, v.groups[w], v.live[w], k);
      if v.live[w].numMerged > 0 {
        GsoUndoesGro(v.orig, v.bufs[w].pkt, v.groups[w], v.live[w], out, k, seg);
      } else {
        TracksCount(v.orig, v.bufs[w].pkt, v.groups[w], v.live[w]);
        LiveItem(v, offset, w);
      }
    }
  }

  /** Segment `k` of the merged buffer `w` is its `k`-th packet: the same payload, sequence and acknowledgement
      numbers, addresses, ports and all other restored header bytes; the same flags, without PSH if
      something was put in front after it joined; and the same in every byte exactly when the head of the group
      has the other headers in common with it. */
  ghost predicate SamePacket(v: View, w: nat, k: nat, seg: Bytes)
    requires w in v.live && w in v.groups && k < |v.groups[w]|
  {
    var item, j := v.live[w], v.groups[w][k];
    && j < |v.orig| && v.groups[w][0] < |v.orig| && ItemShape(item) && HeadersLen(item) <= |v.orig[v.groups[w][0]]|
    && var b := v.orig[j];
       && HeadersLen(item) <= |seg| == |b| && seg[HeadersLen(item)..] == b[HeadersLen(item)..]
       && item.iphLen + 8 <= |seg| && Be32(seg, item.iphLen + 4) == Be32(b, item.iphLen + 4) && SameFlowFields(seg, b, item.key.isV6)
       && (forall i: nat {:trigger RestoredByte(item, i)} :: RestoredByte(item, i) ==> seg[i] == b[i])
       && F.Flags(seg, item.key.isV6) == (if KeepsFlags(v.orig, v.groups[w], item, k) then F.Flags(b, item.key.isV6) else F.ACK)
       && (seg == b <==> KeepsAll(v.orig, v.groups[w], item, k))
  }

  /** The segments are exactly the packets merged into buffer `w`, in order, if there is room for them. */
  ghost predicate Restored(v: View, w: nat, outBuffs: seq<Bytes>, sizes: seq<nat>, n: int, tooMany: bool)
    requires |outBuffs| <= |sizes| && w in v.live && w in v.groups
  {
    && (tooMany <==> |outBuffs| < |v.groups[w]|)
    && (!tooMany ==>
          && n == |v.groups[w]|
          && forall k :: 0 <= k < n ==>
               sizes[k] <= |outBuffs[k]| && SamePacket(v, w, k, outBuffs[k][..sizes[k]]))
  }

  lemma OneOfSeveral(n: nat, size: nat)
    requires n > 0
    ensures size <= n * size
  {
    MulMonotone(1, n, size);
  }

  /** A segment is no longer than the merged packet it comes from, so it fits where that did. */
  lemma SegmentFits(v: View, offset: nat, w: nat)
    requires Inv(v, offset) && w in v.live && v.live[w].numMerged > 0
    ensures ItemShape(v.live[w]) && HdrOf(v.live[w]).hdrLen as int + HdrOf(v.live[w]).gsoSize as int <= 0xFFFF - offset
  {
    LiveItem(v, offset, w);
    BufferRoom(v, offset, w);
    hide Inv, Tracks, Meta;
    var item := v.live[w];
    TracksLength(v.orig, v.bufs[w].pkt, v.groups[w], item);
    OneOfSeveral(item.numMerged as int, item.gsoSize as int);
  }

  lemma BufferRoom(v: View, offset: nat, w: nat)
    requires Inv(v, offset) && w < |v.bufs|
    ensures |v.bufs[w].pkt| <= 0xFFFF - offset
  {
    hide TableOk, GroupsOk, WriteOk, PartitionOk;
    assert offset + |v.bufs[w].pkt| <= v.bufs[w].cap;
  }

  /** gsoSplit on a written buffer that holds several packets. */
  method SplitWritten(pkt: Bytes, hdr: VirtioNetHdr, isV6: bool, outBuffs: array<Bytes>, sizes: array<nat>, ghost v: View, ghost offset: nat, ghost w: nat)
    returns (n: int, tooMany: bool)
    requires Inv(v, offset) && w in v.live && v.live[w].numMerged > 0 && w in v.groups && w < |v.bufs| && ItemShape(v.live[w])
    requires IsAccounted(v.bufs[w].pkt, v.live[w], pkt) && hdr == HdrOf(v.live[w]) && isV6 == v.live[w].key.isV6
    requires outBuffs.Length <= sizes.Length && forall i :: 0 <= i < outBuffs.Length ==> |outBuffs[i]| >= 0xFFFF - offset
    modifies outBuffs, sizes
    ensures Restored(v, w, outBuffs[..], sizes[..], n, tooMany)
  {
    hide Inv, IsAccounted, IsSegment, Splittable, SegmentStart, SegmentCount, SamePacket, HdrOf, ItemShape, Tracks;
    AccountedPayload(v.bufs[w].pkt, v.live[w], pkt);
    SegmentFits(v, offset, w);
    n, tooMany := GsoSplit(pkt, hdr, outBuffs, sizes, isV6);
    SegmentsAreThePackets(v, offset, w, pkt, outBuffs[..], sizes[..], n, tooMany);
  }

  /** A written buffer that holds one packet holds it as it came. */
  lemma SingleIsUntouched(v: View, offset: nat, w: nat)
    requires Inv(v, offset) && !(w in v.live && v.live[w].numMerged > 0)
    ensures w in v.toWrite ==>
              w in v.groups && w < |v.bufs| && w < |v.orig| && v.groups[w] == [w] && v.bufs[w].pkt == v.orig[w]
  {
    hide TableOk, PartitionOk, BufsOk;
    if w in v.toWrite {
      assert GroupOk(v, w);
      if w in v.live {
        assert v.live[w].bufsIndex == w by {
          LiveItem(v, offset, w);
        }
      }
    }
  }

  /** What the segments of a merged buffer are. */
  lemma SegmentsAreThePackets(v: View, offset: nat, w: nat, out: Bytes, outBuffs: seq<Bytes>, sizes: seq<nat>, n: int, tooMany: bool)
    requires Inv(v, offset) && w in v.live && v.live[w].numMerged > 0
    requires w < |v.bufs| && w in v.groups && ItemShape(v.live[w]) && IsAccounted(v.bufs[w].pkt, v.live[w], out)
    requires Splittable(out, HdrOf(v.live[w]), v.live[w].key.isV6) && |outBuffs| <= |sizes|
    requires tooMany <==> SegmentStart(HdrOf(v.live[w]), |outBuffs|) < |out|
    requires !tooMany ==> 0 <= n <= |outBuffs| && SegmentCount(out, HdrOf(v.live[w]), n)
    requires !tooMany ==> forall i :: 0 <= i < n ==> SegmentStart(HdrOf(v.live[w]), i) < |out| && sizes[i] <= |outBuffs[i]|
    requires !tooMany ==> forall i :: 0 <= i < n ==> IsSegment(out, HdrOf(v.live[w]), v.live[w].key.isV6, i, outBuffs[i][..sizes[i]])
    ensures tooMany <==> |outBuffs| < |v.groups[w]|
    ensures !tooMany ==> n == |v.groups[w]|
    ensures !tooMany ==> forall k :: 0 <= k < n ==> SamePacket(v, w, k, outBuffs[k][..sizes[k]])
  {
    hide Inv, IsAccounted, IsSegment, Splittable, HdrOf, SegmentStart, SegmentCount, SamePacket;
    var hdr := HdrOf(v.live[w]);
    AccountedCount(v, offset, w, out);
    RoomForSegments(out, hdr, |v.groups[w]|, |outBuffs|);
    if !tooMany {
      SegmentCountUnique(out, hdr, n, |v.groups[w]|);
      forall k | 0 <= k < n
        ensures SamePacket(v, w, k, outBuffs[k][..sizes[k]])
      {
        SplitBack(v, offset, w, out, k, outBuffs[k][..sizes[k]]);
      }
    }
  }

  lemma AccountedCount(v: View, offset: nat, w: nat, out: Bytes)
    requires Inv(v, offset) && w in v.live && w < |v.bufs| && w in v.groups && ItemShape(v.live[w]) && IsAccounted(v.bufs[w].pkt, v.live[w], out)
    ensures SegmentCount(out, HdrOf(v.live[w]), |v.groups[w]|)
  {
    hide Inv, IsAccounted;
    LiveItem(v, offset, w);
    MergedCount(v.orig, v.bufs[w].pkt, v.groups[w], v.live[w]);
    AccountedLength(v.bufs[w].pkt, v.live[w], out);
  }

  lemma RoomForSegments(pkt: Bytes, hdr: VirtioNetHdr, n: nat, room: nat)
    requires SegmentCount(pkt, hdr, n)
    ensures SegmentStart(hdr, room) < |pkt| <==> room < n
  {
    hide SegmentStart;
    if room < n {
      SegmentStartMonotone(hdr, room, n - 1);
    } else {
      SegmentStartMonotone(hdr, n, room);
    }
  }

  lemma SplitBack(v: View, offset: nat, w: nat, out: Bytes, k: nat, seg: Bytes)
    requires Inv(v, offset) && w in v.live && v.live[w].numMerged > 0 && w < |v.bufs| && w in v.groups && k < |v.groups[w]|
    requires ItemShape(v.live[w]) && IsAccounted(v.bufs[w].pkt, v.live[w], out) && Splittable(out, HdrOf(v.live[w]), v.live[w].key.isV6)
    requires SegmentStart(HdrOf(v.live[w]), k) < |out| && IsSegment(out, HdrOf(v.live[w]), v.live[w].key.isV6, k, seg)
    ensures SamePacket(v, w, k, seg)
  {
    hide Inv, IsAccounted, IsSegment, Splittable, HdrOf, SegmentStart, KeepsAll, KeepsFlags, Tracks, RestoredByte, SameFlowFields, Be32, F.Flags;
    LiveItem(v, offset, w);
    WrittenBufferSplitsBack(v, offset, w, out, k, seg);
    HeadersComeBack(v.orig, v.bufs[w].pkt, v.groups[w], v.live[w], out, k, seg);
    FlagsComeBack(v.orig, v.bufs[w].pkt, v.groups[w], v.live[w], out, k, seg);
    ByteIdentity(v.orig, v.bufs[w].pkt, v.groups[w], v.live[w], out, k, seg);
  }

  /** The packets of a group are done. */
  lemma AllLater(v: View, w: nat)
    requires PartitionOk(v) && w in v.groups
    ensures Later(v.groups[w], v.n)
  {
    forall k {:trigger v.groups[w][k]} | 0 <= k < |v.groups[w]| ensures v.groups[w][k] < v.n {
      assert HomeOk(v, w) && v.groups[w][k] in v.groups[w];
    }
  }

  /** What the invariant says about an item found in the table. */
  lemma TableItem(v: View, offset: nat, key: FlowKey, i: nat)
    requires Inv(v, offset) && key in v.table && i < |v.table[key]|
    ensures var item := v.table[key][i];
            && item.key == key && item.bufsIndex in v.groups && item.bufsIndex < |v.bufs| == |v.orig|
            && Tracks(v.orig, v.bufs[item.bufsIndex].pkt, v.groups[item.bufsIndex], item)
            && HeadersLen(item) < |v.bufs[item.bufsIndex].pkt| && 0 < item.gsoSize
            && item.iphLen == (if key.isV6 then 40 else 20)
            && CapOk(v.bufs[item.bufsIndex], offset) && Later(v.groups[item.bufsIndex], v.n)
  {
    var item := v.table[key][i];
    assert ItemOk(v, key, item);
    assert GroupOk(v, item.bufsIndex);
    AllLater(v, item.bufsIndex);
    hide PartitionOk;
    assert offset + |v.bufs[item.bufsIndex].pkt| <= v.bufs[item.bufsIndex].cap;
  }

  /** A packet that may be merged into an item has the item's header lengths. */
  lemma CoalescibleMember(orig: seq<Bytes>, j: nat, isV6: bool, item: Item, target: Bytes)
    requires j < |orig| && IsTcpCandidate(orig[j], isV6) && ParseTcp(orig[j], isV6).Some?
    requires var m := ParseTcp(orig[j], isV6).value;
             && m.key == item.key && item.iphLen == m.iphLen && HeadersLen(item) <= |target| && 0 < item.gsoSize
             && TcpPacketsCanCoalesce(orig[j], m, item, target) != CoalesceUnavailable
    ensures Member(orig, item, j) && Meta(orig, item, j) == ParseTcp(orig[j], isV6).value
  {
    hide ParseTcp, IsTcpCandidate;
  }

  lemma BufferIsPacket(v: View, offset: nat)
    requires Inv(v, offset) && v.n < |v.orig|
    ensures |v.bufs| == |v.orig| && v.bufs[v.n].pkt == v.orig[v.n] && CapOk(v.bufs[v.n], offset)
  {
    hide TableOk, GroupsOk, WriteOk, PartitionOk;
    assert v.orig[v.n] == v.bufs[v.n].pkt;
  }

  ghost predicate CapOk(buf: Buf, offset: nat) {
    offset + |buf.pkt| <= buf.cap <= 0xFFFF
  }

  lemma TracksFirst(orig: seq<Bytes>, pkt: Bytes, g: seq<nat>, item: Item)
    requires Tracks(orig, pkt, g, item)
    ensures g != [] && g[0] < |orig| && HeadersLen(item) < |pkt| <= 0xFFFF
    ensures item.numMerged == 0 ==> pkt == orig[g[0]]
  {
  }

  lemma AppendedLength(pkt: Bytes, item: Item, m: TcpMeta, b: Bytes)
    requires item.iphLen + TCP_FLAGS_OFFSET < |pkt|
    ensures |AppendedPkt(pkt, item, m, b)| == |pkt| + |Payload(b, HeadersLen(item))|
  {
  }

  lemma TracksShape(orig: seq<Bytes>, pkt: Bytes, g: seq<nat>, item: Item)
    requires Tracks(orig, pkt, g, item)
    ensures ItemShape(item)
  {
    hide Pieces, Contents, Alike;
  }

  lemma MemberMeta(orig: seq<Bytes>, item: Item, j: nat)
    requires Member(orig, item, j)
    ensures var m := Meta(orig, item, j);
            && m.key == item.key && m.iphLen == item.iphLen && m.tcphLen == item.tcphLen
            && 1 <= m.gsoSize && m.iphLen + m.tcphLen + m.gsoSize == |orig[j]| <= 0xFFFF
  {
    hide IsTcpCandidate;
  }

  /** A merge that passed its tests. */
  lemma Merges(orig: seq<Bytes>, pkt: Buf, target: Buf, offset: nat, bufs: seq<Buf>, mode: CanCoalesce, pktI: nat, m: TcpMeta, item: Item, g: seq<nat>)
    requires pktI < |bufs| == |orig| && item.bufsIndex < |bufs| && pkt == bufs[pktI] && target == bufs[item.bufsIndex] && pkt.pkt == orig[pktI]
    requires CapOk(pkt, offset) && CapOk(target, offset) && Member(orig, item, pktI) && m == Meta(orig, item, pktI)
    requires Tracks(orig, target.pkt, g, item) && mode != CoalesceUnavailable && mode == Can(pkt.pkt, m, item, target.pkt)
    requires Suits(bufs, offset, pktI, m, item) && Intact(pkt.pkt, m) && Later(g, pktI)
    ensures item.numMerged < 0xFFFF && m.gsoSize <= 0xFFFF && item.iphLen + TCP_FLAGS_OFFSET < |target.pkt|
    ensures var item', buf := MergedItem(mode, m, item), MergedBuf(mode, pkt, m, item, target);
            && item'.bufsIndex == item.bufsIndex && item'.key == item.key && CapOk(buf, offset)
            && Tracks(orig, buf.pkt, if mode == CoalescePrepend then [pktI] + g else g + [pktI], item')
  {
    hide Can, Member, Meta, Tracks, HasValidChecksum, AppendedPkt, Payload;
    TracksFirst(orig, target.pkt, g, item);
    TracksShape(orig, target.pkt, g, item);
    MemberLength(orig, item, pktI);
    MemberMeta(orig, item, pktI);
    CanIsTest(pkt.pkt, m, item, target.pkt);
    Remainder(target.pkt, HeadersLen(item));
    Remainder(pkt.pkt, HeadersLen(item));
    if mode == CoalescePrepend {
      PrependTracks(orig, target.pkt, g, item, pktI);
    } else {
      AppendTracks(orig, target.pkt, g, item, pktI);
      AppendedLength(target.pkt, item, m, pkt.pkt);
    }
  }

  lemma CanIsTest(pkt: Bytes, m: TcpMeta, item: Item, target: Bytes)
    requires m.iphLen + m.tcphLen <= |pkt| && item.iphLen == m.iphLen && HeadersLen(item) <= |target| && 20 <= m.tcphLen && 0 < item.gsoSize
    ensures Can(pkt, m, item, target) == TcpPacketsCanCoalesce(pkt, m, item, target)
  {
    hide TcpPacketsCanCoalesce;
  }

  lemma Remainder(b: Bytes, hl: nat)
    requires hl <= |b|
    ensures |Payload(b, hl)| == |b| - hl
  {
  }

  lemma MemberLength(orig: seq<Bytes>, item: Item, j: nat)
    requires Member(orig, item, j)
    ensures HeadersLen(item) < |orig[j]| <= 0xFFFF
  {
    hide ParseTcp, IsTcpCandidate;
  }
}
