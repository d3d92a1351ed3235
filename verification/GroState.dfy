/** The state of one coalescing run over a vector of packets, and what every step keeps
    (wireguard/tun/offload_linux.go:68-167, 531-621, 865-892). */
module GroState {
  import opened InternetChecksum
  import Gso
  import opened GroPackets
  import opened GroGroups

  type Table = map<FlowKey, seq<Item>>

  /** `groups[w]` are the packets whose payloads end up in buffer `w`, in sequence order; `home` is
      its inverse; `live[w]` is the table's item for buffer `w`; packets below `n` are done. */
  datatype View = View(orig: seq<Bytes>, bufs: seq<Buf>, table: Table, toWrite: seq<nat>,
                       groups: map<nat, seq<nat>>, home: map<nat, nat>, live: map<nat, Item>, n: nat)

  ghost predicate ItemOk(v: View, key: FlowKey, it: Item) {
    it.key == key && it.bufsIndex in v.live && v.live[it.bufsIndex] == it
  }

  ghost predicate Distinct(items: seq<Item>) {
    forall i, j {:trigger items[i], items[j]} :: 0 <= i < j < |items| ==> items[i].bufsIndex != items[j].bufsIndex
  }

  /** The table lists exactly the live items, each once and under its own flow. */
  ghost predicate TableOk(v: View) {
    && (forall key, i {:trigger v.table[key][i]} :: key in v.table && 0 <= i < |v.table[key]| ==> ItemOk(v, key, v.table[key][i]))
    && (forall key {:trigger v.table[key]} :: key in v.table ==> Distinct(v.table[key]))
    && (forall w {:trigger v.live[w]} :: w in v.live ==> Listed(v, w))
  }

  ghost predicate Listed(v: View, w: nat)
    requires w in v.live
  {
    v.live[w].bufsIndex == w && v.live[w].key in v.table && v.live[w] in v.table[v.live[w].key]
  }

  /** The buffer of a group holds its packets, merged; a group without an item is one untouched packet. */
  ghost predicate GroupOk(v: View, w: nat)
    requires w in v.groups
  {
    && w < |v.bufs|
    && if w in v.live then Tracks(v.orig, v.bufs[w].pkt, v.groups[w], v.live[w])
       else v.groups[w] == [w] && w < |v.orig| && v.bufs[w].pkt == v.orig[w]
  }

  ghost predicate GroupsOk(v: View) {
    && (forall w {:trigger GroupOk(v, w)} :: w in v.groups ==> GroupOk(v, w))
    && v.live.Keys <= v.groups.Keys
  }

  /** The buffers to write are the groups', each once and in order. */
  ghost predicate WriteOk(v: View) {
    && (forall w :: w in v.toWrite ==> w in v.groups)
    && (forall w :: w in v.groups ==> w in v.toWrite && w < v.n)
    && (forall i, j :: 0 <= i < j < |v.toWrite| ==> v.toWrite[i] < v.toWrite[j])
  }

  ghost predicate NoRepeats(g: seq<nat>) {
    forall i, j :: 0 <= i < j < |g| ==> g[i] != g[j]
  }

  /** The members of group `w` are at home there, and packet `w` is one of them. */
  ghost predicate HomeOk(v: View, w: nat)
    requires w in v.groups
  {
    NoRepeats(v.groups[w]) && w in v.groups[w] && forall j :: j in v.groups[w] ==> j in v.home && v.home[j] == w
  }

  /** The groups partition the packets done so far. */
  ghost predicate PartitionOk(v: View) {
    && (forall j :: j in v.home <==> 0 <= j < v.n)
    && (forall j {:trigger v.home[j]} :: j in v.home ==> v.home[j] in v.groups && j in v.groups[v.home[j]])
    && (forall w {:trigger HomeOk(v, w)} :: w in v.groups ==> HomeOk(v, w))
  }

  ghost predicate BufsOk(v: View, offset: nat) {
    && |v.bufs| == |v.orig| && v.n <= |v.orig|
    && (forall j {:trigger v.bufs[j]} :: 0 <= j < |v.bufs| ==> offset + |v.bufs[j].pkt| <= v.bufs[j].cap <= 0xFFFF)
    && (forall j {:trigger v.orig[j]} :: v.n <= j < |v.orig| ==> v.bufs[j].pkt == v.orig[j])
  }

  ghost predicate Inv(v: View, offset: nat) {
    TableOk(v) && GroupsOk(v) && WriteOk(v) && PartitionOk(v) && BufsOk(v, offset)
  }

  /** The state before any packet has been looked at. */
  function Start(bufs: seq<Buf>): (v: View)
    ensures |v.orig| == |bufs| && v.bufs == bufs && v.n == 0 && forall j :: 0 <= j < |bufs| ==> v.orig[j] == bufs[j].pkt
  {
    View(seq(|bufs|, j requires 0 <= j < |bufs| => bufs[j].pkt), bufs, map[], [], map[], map[], map[], 0)
  }

  lemma StartInv(bufs: seq<Buf>, offset: nat)
    requires forall j {:trigger bufs[j]} :: 0 <= j < |bufs| ==> offset + |bufs[j].pkt| <= bufs[j].cap <= 0xFFFF
    ensures Inv(Start(bufs), offset)
  {
  }

  // ---------- the steps ----------

  /** A packet that is written as it is and takes no part in coalescing. */
  ghost function PassOn(v: View): View {
    v.(toWrite := v.toWrite + [v.n], groups := v.groups[v.n := [v.n]], home := v.home[v.n := v.n], n := v.n + 1)
  }

  lemma PassOnGroups(v: View, offset: nat)
    requires Inv(v, offset) && v.n < |v.orig|
    ensures GroupsOk(PassOn(v))
  {
    hide TableOk, PartitionOk, Tracks;
    var t := PassOn(v);
    forall w | w in t.groups ensures GroupOk(t, w) {
      assert w != v.n ==> GroupOk(v, w);
    }
  }

  lemma PassOnWrite(v: View)
    requires WriteOk(v)
    ensures WriteOk(PassOn(v))
  {
    forall i | 0 <= i < |v.toWrite|
      ensures v.toWrite[i] < v.n
    {
      assert v.toWrite[i] in v.toWrite;
      assert v.toWrite[i] in v.groups;
    }
  }

  lemma PassOnPartition(v: View)
    requires WriteOk(v) && PartitionOk(v)
    ensures WriteOk(PassOn(v)) && PartitionOk(PassOn(v))
  {
    PassOnWrite(v);
    assert v.n !in v.groups;
    hide WriteOk, HomeOk;
    var t := PassOn(v);
    forall w | w in t.groups ensures HomeOk(t, w) {
      PassOnHome(v, w);
    }
  }

  lemma PassOnHome(v: View, w: nat)
    requires PartitionOk(v) && v.n !in v.groups && w in PassOn(v).groups
    ensures HomeOk(PassOn(v), w)
  {
    if w != v.n {
      assert HomeOk(v, w);
    }
  }

  lemma PassOnInv(v: View, offset: nat)
    requires Inv(v, offset) && v.n < |v.orig|
    ensures Inv(PassOn(v), offset)
  {
    hide GroupsOk, PartitionOk, WriteOk;
    var t := PassOn(v);
    PassOnGroups(v, offset);
    PassOnPartition(v);
    assert TableOk(t) by {
      forall w | w in t.live ensures Listed(t, w) { assert Listed(v, w); }
      forall key, i | key in t.table && 0 <= i < |t.table[key]| ensures ItemOk(t, key, t.table[key][i]) {
        assert ItemOk(v, key, v.table[key][i]);
      }
    }
  }

  function Listing(table: Table, key: FlowKey): seq<Item> {
    if key in table then table[key] else []
  }

  /** The item tcpGROTable.insert makes for a packet. */
  function NewItem(m: TcpMeta, index: nat): Item
    requires 0 <= m.gsoSize <= 0xFFFF
  {
    Item(m.key, m.seqNum, index, 0, m.gsoSize, m.iphLen, m.tcphLen, m.pshSet)
  }

  /** The packet is written and becomes an item that later packets may be merged into. */
  ghost function Enter(v: View, item: Item): View {
    PassOn(v).(table := v.table[item.key := Listing(v.table, item.key) + [item]], live := v.live[v.n := item])
  }

  lemma NewMember(orig: seq<Bytes>, j: nat, isV6: bool)
    requires j < |orig| && IsTcpCandidate(orig[j], isV6) && ParseTcp(orig[j], isV6).Some?
    ensures var item := NewItem(ParseTcp(orig[j], isV6).value, j);
            Member(orig, item, j) && Meta(orig, item, j) == ParseTcp(orig[j], isV6).value && ItemShape(item)
  {
    hide ParseTcp, IsTcpCandidate;
  }

  lemma NewPieces(orig: seq<Bytes>, item: Item, j: nat)
    requires Member(orig, item, j) && item.numMerged == 0
    requires var m := Meta(orig, item, j); m.seqNum == item.sentSeq < Gso.TWO32 && m.gsoSize == item.gsoSize as int
    ensures Pieces(orig, [j], item)
  {
    hide ParseTcp, IsTcpCandidate, Member;
    assert PieceOk(orig, item, [j], 0);
  }

  lemma NewContents(orig: seq<Bytes>, item: Item, j: nat)
    requires j < |orig| && HeadersLen(item) < |orig[j]| <= 0xFFFF && item.bufsIndex == j
    ensures Contents(orig, orig[j], [j], item)
  {
    PayloadsStep(orig, [j], HeadersLen(item));
    PayloadsNone(orig, HeadersLen(item));
    assert [j][1..] == [];
  }

  lemma NewAlike(orig: seq<Bytes>, item: Item, j: nat)
    requires j < |orig| && HeadersLen(item) < |orig[j]| && item.iphLen + 20 <= HeadersLen(item) && |orig[j]| >= 9
    ensures Alike(orig, [j], item)
  {
  }

  lemma NewTracks(orig: seq<Bytes>, j: nat, isV6: bool)
    requires j < |orig| && IsTcpCandidate(orig[j], isV6) && ParseTcp(orig[j], isV6).Some?
    ensures var item := NewItem(ParseTcp(orig[j], isV6).value, j);
            Tracks(orig, orig[j], [j], item) && Member(orig, item, j)
  {
    hide ParseTcp, IsTcpCandidate, Pieces, Contents, Alike, Member, Meta, GroupFlags;
    var item := NewItem(ParseTcp(orig[j], isV6).value, j);
    NewMember(orig, j, isV6);
    NewPieces(orig, item, j);
    NewContents(orig, item, j);
    NewAlike(orig, item, j);
    NewFlags(orig, item, j);
  }

  lemma EnterListed(v: View, item: Item, w: nat)
    requires TableOk(v) && item.bufsIndex == v.n && v.n !in v.live && w in Enter(v, item).live
    ensures Listed(Enter(v, item), w)
  {
    if w != v.n {
      assert Listed(v, w);
    }
  }

  lemma EnterItem(v: View, item: Item, key: FlowKey, i: nat)
    requires TableOk(v) && item.bufsIndex == v.n && v.n !in v.live
    requires key in Enter(v, item).table && i < |Enter(v, item).table[key]|
    ensures ItemOk(Enter(v, item), key, Enter(v, item).table[key][i])
  {
    if key != item.key || i < |Listing(v.table, key)| {
      assert Enter(v, item).table[key][i] == v.table[key][i];
      assert ItemOk(v, key, v.table[key][i]);
    }
  }

  lemma EnterDistinct(v: View, item: Item, key: FlowKey)
    requires TableOk(v) && item.bufsIndex == v.n && v.n !in v.live && key in Enter(v, item).table
    ensures Distinct(Enter(v, item).table[key])
  {
    var was, now := Listing(v.table, key), Enter(v, item).table[key];
    assert key in v.table ==> Distinct(v.table[key]);
    assert Distinct(was);
    forall i | 0 <= i < |was| ensures was[i].bufsIndex != v.n {
      assert ItemOk(v, key, v.table[key][i]);
    }
    hide TableOk;
    assert now == was || now == was + [item];
  }

  lemma NewcomerNotLive(v: View, offset: nat)
    requires Inv(v, offset)
    ensures v.n !in v.live && v.n !in v.groups
  {
    hide TableOk, PartitionOk, BufsOk, GroupOk;
  }

  lemma EnterTable(v: View, offset: nat, item: Item)
    requires Inv(v, offset) && v.n < |v.orig| && item.bufsIndex == v.n
    ensures TableOk(Enter(v, item))
  {
    NewcomerNotLive(v, offset);
    hide GroupsOk, WriteOk, PartitionOk, BufsOk, Enter, Listed, ItemOk, Distinct;
    var t := Enter(v, item);
    forall w | w in t.live ensures Listed(t, w) {
      EnterListed(v, item, w);
    }
    forall key, i | key in t.table && 0 <= i < |t.table[key]| ensures ItemOk(t, key, t.table[key][i]) {
      EnterItem(v, item, key, i);
    }
    forall key | key in t.table ensures Distinct(t.table[key]) {
      EnterDistinct(v, item, key);
    }
  }

  lemma EnterInv(v: View, offset: nat, item: Item)
    requires Inv(v, offset) && v.n < |v.orig| && item.bufsIndex == v.n && Tracks(v.orig, v.orig[v.n], [v.n], item)
    ensures Inv(Enter(v, item), offset)
  {
    hide PartitionOk, TableOk, Tracks, GroupOk;
    var t := Enter(v, item);
    EnterTable(v, offset, item);
    PassOnPartition(v);
    assert WriteOk(t);
    EnterGroups(v, item);
    assert PartitionOk(t) by { EnterPartition(v, item); }
  }

  lemma EnterGroups(v: View, item: Item)
    requires GroupsOk(v) && v.n < |v.orig| && item.bufsIndex == v.n && Tracks(v.orig, v.orig[v.n], [v.n], item)
    requires |v.bufs| == |v.orig| && v.bufs[v.n].pkt == v.orig[v.n] && v.n !in v.groups
    ensures GroupsOk(Enter(v, item))
  {
    hide Tracks;
    var t := Enter(v, item);
    forall w | w in t.groups ensures GroupOk(t, w) {
      assert w != v.n ==> GroupOk(v, w);
    }
  }

  lemma EnterPartition(v: View, item: Item)
    requires PartitionOk(PassOn(v))
    ensures PartitionOk(Enter(v, item))
  {
    var t := Enter(v, item);
    forall w | w in t.groups ensures HomeOk(t, w) {
      assert HomeOk(PassOn(v), w);
    }
  }

  /** tcpGROTable.deleteAt, for an item whose own packet has a bad checksum. */
  ghost function Drop(v: View, key: FlowKey, i: nat): View
    requires key in v.table && i < |v.table[key]|
  {
    var items := v.table[key];
    v.(table := v.table[key := items[..i] + items[i + 1..]], live := v.live - {items[i].bufsIndex})
  }

  lemma DropListed(v: View, key: FlowKey, i: nat, w: nat)
    requires TableOk(v) && key in v.table && i < |v.table[key]| && w in Drop(v, key, i).live
    ensures Listed(Drop(v, key, i), w)
  {
    var t := Drop(v, key, i);
    var items := v.table[key];
    assert Listed(v, w);
    if t.live[w].key == key {
      var k :| 0 <= k < |items| && items[k] == v.live[w];
      assert k != i;
      assert t.table[key][if k < i then k else k - 1] == items[k];
    }
  }

  lemma DropItem(v: View, key: FlowKey, i: nat, other: FlowKey, k: nat)
    requires TableOk(v) && key in v.table && i < |v.table[key]|
    requires other in Drop(v, key, i).table && k < |Drop(v, key, i).table[other]|
    ensures ItemOk(Drop(v, key, i), other, Drop(v, key, i).table[other][k])
  {
    var items, gone := v.table[key], v.table[key][i];
    assert ItemOk(v, key, gone) && Distinct(items);
    var k' := if other != key || k < i then k else k + 1;
    assert Drop(v, key, i).table[other][k] == v.table[other][k'];
    assert ItemOk(v, other, v.table[other][k']);
    if other == key {
      assert items[k'].bufsIndex != items[i].bufsIndex;
    }
  }

  lemma DropTable(v: View, key: FlowKey, i: nat)
    requires TableOk(v) && key in v.table && i < |v.table[key]|
    ensures TableOk(Drop(v, key, i))
  {
    var t := Drop(v, key, i);
    assert forall w {:trigger t.live[w]} :: w in t.live ==> Listed(t, w) by {
      forall w | w in t.live ensures Listed(t, w) { DropListed(v, key, i, w); }
    }
    assert forall other, k {:trigger t.table[other][k]} :: other in t.table && 0 <= k < |t.table[other]| ==> ItemOk(t, other, t.table[other][k]) by {
      forall other, k | other in t.table && 0 <= k < |t.table[other]| ensures ItemOk(t, other, t.table[other][k]) {
        DropItem(v, key, i, other, k);
      }
    }
    assert forall other {:trigger t.table[other]} :: other in t.table ==> Distinct(t.table[other]) by {
      forall other | other in t.table ensures Distinct(t.table[other]) {
        assert Distinct(v.table[other]);
        DropDistinct(v.table[key], i);
      }
    }
  }

  lemma DropDistinct(items: seq<Item>, i: nat)
    requires i < |items|
    ensures Distinct(items) ==> Distinct(items[..i] + items[i + 1..])
  {
    var rest := items[..i] + items[i + 1..];
    if Distinct(items) {
      forall a, b | 0 <= a < b < |rest|
        ensures rest[a].bufsIndex != rest[b].bufsIndex
      {
        var a', b' := if a < i then a else a + 1, if b < i then b else b + 1;
        assert rest[a] == items[a'] && rest[b] == items[b'];
      }
    }
  }

  lemma DropGroups(v: View, key: FlowKey, i: nat)
    requires TableOk(v) && GroupsOk(v) && key in v.table && i < |v.table[key]| && v.table[key][i].numMerged == 0
    ensures GroupsOk(Drop(v, key, i))
  {
    assert ItemOk(v, key, v.table[key][i]);
    hide TableOk;
    var t := Drop(v, key, i);
    forall w | w in t.groups ensures GroupOk(t, w) {
      assert GroupOk(v, w);
      if w == v.table[key][i].bufsIndex {
        assert PieceOk(v.orig, v.live[w], v.groups[w], 0);
      }
    }
  }

  lemma DropInv(v: View, offset: nat, key: FlowKey, i: nat)
    requires Inv(v, offset) && key in v.table && i < |v.table[key]| && v.table[key][i].numMerged == 0
    ensures Inv(Drop(v, key, i), offset)
  {
    hide TableOk, GroupsOk;
    DropTable(v, key, i);
    DropGroups(v, key, i);
    var t := Drop(v, key, i);
    forall w | w in t.groups ensures HomeOk(t, w) {
      assert HomeOk(v, w);
    }
  }

  /** The packet has been merged into the item at `i`: its buffer and group have grown, and the
      packet's own slot holds a slice that is never written. */
  ghost function Merge(v: View, key: FlowKey, i: nat, item: Item, buf: Buf, spare: Buf, g: seq<nat>): View
    requires key in v.table && i < |v.table[key]| && item.bufsIndex < |v.bufs| && v.n < |v.bufs|
  {
    var w := item.bufsIndex;
    v.(bufs := v.bufs[v.n := spare][w := buf], table := v.table[key := v.table[key][i := item]],
       groups := v.groups[w := g], home := v.home[v.n := w], live := v.live[w := item], n := v.n + 1)
  }

  ghost predicate CanMerge(v: View, key: FlowKey, i: nat, item: Item, buf: Buf, spare: Buf, g: seq<nat>, offset: nat) {
    && key in v.table && i < |v.table[key]| && v.n < |v.orig|
    && item.bufsIndex == v.table[key][i].bufsIndex && item.key == key
    && item.bufsIndex in v.groups
    && (g == v.groups[item.bufsIndex] + [v.n] || g == [v.n] + v.groups[item.bufsIndex])
    && Tracks(v.orig, buf.pkt, g, item)
    && offset + |buf.pkt| <= buf.cap <= 0xFFFF && offset + |spare.pkt| <= spare.cap <= 0xFFFF
  }

  lemma MergeListed(v: View, key: FlowKey, i: nat, item: Item, buf: Buf, spare: Buf, g: seq<nat>, w: nat)
    requires TableOk(v) && item.bufsIndex < |v.bufs| && v.n < |v.bufs|
    requires key in v.table && i < |v.table[key]| && item.bufsIndex == v.table[key][i].bufsIndex && item.key == key
    requires w in Merge(v, key, i, item, buf, spare, g).live
    ensures Listed(Merge(v, key, i, item, buf, spare, g), w)
  {
    var t := Merge(v, key, i, item, buf, spare, g);
    assert ItemOk(v, key, v.table[key][i]);
    if w == item.bufsIndex {
      assert t.table[key][i] == item;
    } else {
      assert Listed(v, w);
      var flow := v.live[w].key;
      var k :| 0 <= k < |v.table[flow]| && v.table[flow][k] == v.live[w];
      assert t.table[flow][k] == v.live[w];
    }
  }

  lemma MergeItem(v: View, key: FlowKey, i: nat, item: Item, buf: Buf, spare: Buf, g: seq<nat>, other: FlowKey, k: nat)
    requires TableOk(v) && item.bufsIndex < |v.bufs| && v.n < |v.bufs|
    requires key in v.table && i < |v.table[key]| && item.bufsIndex == v.table[key][i].bufsIndex && item.key == key
    requires other in v.table && k < |v.table[other]|
    ensures var t := Merge(v, key, i, item, buf, spare, g);
            k < |t.table[other]| && ItemOk(t, other, t.table[other][k])
  {
    assert ItemOk(v, key, v.table[key][i]) && ItemOk(v, other, v.table[other][k]);
    assert Distinct(v.table[key]);
  }

  lemma MergeTable(v: View, key: FlowKey, i: nat, item: Item, buf: Buf, spare: Buf, g: seq<nat>)
    requires TableOk(v) && item.bufsIndex < |v.bufs| && v.n < |v.bufs|
    requires key in v.table && i < |v.table[key]| && item.bufsIndex == v.table[key][i].bufsIndex && item.key == key
    ensures TableOk(Merge(v, key, i, item, buf, spare, g))
  {
    var t := Merge(v, key, i, item, buf, spare, g);
    assert forall w {:trigger t.live[w]} :: w in t.live ==> Listed(t, w) by {
      forall w | w in t.live ensures Listed(t, w) { MergeListed(v, key, i, item, buf, spare, g, w); }
    }
    assert forall other, k {:trigger t.table[other][k]} :: other in t.table && 0 <= k < |t.table[other]| ==> ItemOk(t, other, t.table[other][k]) by {
      forall other, k | other in t.table && 0 <= k < |t.table[other]| ensures ItemOk(t, other, t.table[other][k]) {
        MergeItem(v, key, i, item, buf, spare, g, other, k);
      }
    }
    assert forall other {:trigger t.table[other]} :: other in t.table ==> Distinct(t.table[other]) by {
      forall other | other in t.table ensures Distinct(t.table[other]) {
        assert Distinct(v.table[other]);
      }
    }
  }

  lemma GrownGroup(was: seq<nat>, n: nat, g: seq<nat>)
    requires NoRepeats(was) && n !in was && (g == was + [n] || g == [n] + was)
    ensures NoRepeats(g) && n in g && (forall j :: j in was ==> j in g) && (forall j :: j in g ==> j == n || j in was)
  {
    if g == was + [n] {
      assert g[|was|] == n;
    } else {
      assert g[0] == n;
      forall j | j in was
        ensures j in g
      {
        var k :| 0 <= k < |was| && was[k] == j;
        assert g[k + 1] == j;
      }
    }
  }

  lemma MergePartition(v: View, key: FlowKey, i: nat, item: Item, buf: Buf, spare: Buf, g: seq<nat>, offset: nat)
    requires CanMerge(v, key, i, item, buf, spare, g, offset) && WriteOk(v) && PartitionOk(v) && item.bufsIndex < |v.bufs| && v.n < |v.bufs|
    ensures WriteOk(Merge(v, key, i, item, buf, spare, g)) && PartitionOk(Merge(v, key, i, item, buf, spare, g))
  {
    hide Tracks, HomeOk;
    var t := Merge(v, key, i, item, buf, spare, g);
    forall w | w in t.groups ensures HomeOk(t, w) {
      MergeHome(v, key, i, item, buf, spare, g, offset, w);
    }
  }

  lemma MergeHome(v: View, key: FlowKey, i: nat, item: Item, buf: Buf, spare: Buf, g: seq<nat>, offset: nat, w: nat)
    requires CanMerge(v, key, i, item, buf, spare, g, offset) && PartitionOk(v) && item.bufsIndex < |v.bufs| && v.n < |v.bufs|
    requires w in Merge(v, key, i, item, buf, spare, g).groups
    ensures HomeOk(Merge(v, key, i, item, buf, spare, g), w)
  {
    hide Tracks;
    assert HomeOk(v, item.bufsIndex) && HomeOk(v, w) && v.n !in v.home;
    GrownGroup(v.groups[item.bufsIndex], v.n, g);
  }

  lemma MergeGroups(v: View, key: FlowKey, i: nat, item: Item, buf: Buf, spare: Buf, g: seq<nat>, offset: nat)
    requires CanMerge(v, key, i, item, buf, spare, g, offset) && GroupsOk(v) && WriteOk(v) && BufsOk(v, offset) && item.bufsIndex < |v.bufs|
    ensures GroupsOk(Merge(v, key, i, item, buf, spare, g))
  {
    hide Tracks;
    var t := Merge(v, key, i, item, buf, spare, g);
    forall w | w in t.groups ensures GroupOk(t, w) {
      assert w in v.groups;
      assert GroupOk(v, w);
    }
  }

  lemma GroupIndex(v: View, w: nat)
    requires GroupsOk(v) && w in v.groups
    ensures w < |v.bufs|
  {
    assert GroupOk(v, w);
  }

  lemma MergeInv(v: View, key: FlowKey, i: nat, item: Item, buf: Buf, spare: Buf, g: seq<nat>, offset: nat)
    requires Inv(v, offset) && CanMerge(v, key, i, item, buf, spare, g, offset)
    ensures item.bufsIndex < |v.bufs| && Inv(Merge(v, key, i, item, buf, spare, g), offset)
  {
    hide Tracks, PartitionOk, TableOk, GroupsOk;
    GroupIndex(v, item.bufsIndex);
    MergeTable(v, key, i, item, buf, spare, g);
    MergePartition(v, key, i, item, buf, spare, g, offset);
    MergeGroups(v, key, i, item, buf, spare, g, offset);
  }
}
