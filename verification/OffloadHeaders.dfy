/** Which written packets have no virtio header written in front of them: those whose item is dropped from the TCP table
    (wireguard/tun/offload_linux.go:136-140, 600-616, 625-679, 881-892). */
module OffloadHeaders {
  import opened InternetChecksum
  import opened Options
  import opened GroPackets
  import opened GroGroups
  import opened GroState
  import opened Gro
  import opened OffloadState

  /** One of the items has buffer `w`. */
  ghost predicate Has(items: seq<Item>, w: nat) {
    exists i :: 0 <= i < |items| && items[i].bufsIndex == w
  }

  lemma HasConcat(a: seq<Item>, b: seq<Item>, w: nat)
    ensures Has(a + b, w) <==> Has(a, w) || Has(b, w)
  {
    if Has(a, w) {
      var i :| 0 <= i < |a| && a[i].bufsIndex == w;
      assert (a + b)[i].bufsIndex == w;
    }
    if Has(b, w) {
      var i :| 0 <= i < |b| && b[i].bufsIndex == w;
      assert (a + b)[|a| + i].bufsIndex == w;
    }
  }

  /** The items that are not spoiled are kept. */
  lemma {:induction false} HasKept(bufs: seq<Buf>, offset: nat, pktI: nat, m: TcpMeta, items: seq<Item>, w: nat)
    requires pktI < |bufs|
    ensures Has(Kept(bufs, offset, pktI, m, items), w)
       <==> exists i :: 0 <= i < |items| && items[i].bufsIndex == w && !Spoiled(bufs, offset, pktI, m, items[i])
  {
    hide Spoiled;
    if items != [] {
      var first := if Spoiled(bufs, offset, pktI, m, items[0]) then [] else [items[0]];
      HasKept(bufs, offset, pktI, m, items[1..], w);
      HasConcat(first, Kept(bufs, offset, pktI, m, items[1..]), w);
      if i :| 0 <= i < |items| && items[i].bufsIndex == w && !Spoiled(bufs, offset, pktI, m, items[i]) {
        if i == 0 {
          assert first[0].bufsIndex == w;
        } else {
          assert items[1..][i - 1] == items[i];
        }
      }
      if i :| 0 <= i < |items[1..]| && items[1..][i].bufsIndex == w && !Spoiled(bufs, offset, pktI, m, items[1..][i]) {
        assert items[i + 1] == items[1..][i];
      }
    }
  }

  lemma LiveIn(v: View, offset: nat, key: FlowKey, w: nat)
    requires Inv(v, offset) && Has(Listing(v.table, key), w)
    ensures key in v.table && w in v.live && v.live[w].key == key
  {
    hide GroupsOk, WriteOk, PartitionOk, BufsOk;
    var i :| 0 <= i < |v.table[key]| && v.table[key][i].bufsIndex == w;
    assert ItemOk(v, key, v.table[key][i]);
  }

  lemma LiveHas(v: View, offset: nat, w: nat)
    requires Inv(v, offset) && w in v.live
    ensures Has(Listing(v.table, v.live[w].key), w)
  {
    hide GroupsOk, WriteOk, PartitionOk, BufsOk;
    assert Listed(v, w);
  }

  /** One flow of the table has changed, and there `w` is gone or not. */
  lemma Updated(v: View, v': View, offset: nat, key: FlowKey, list: seq<Item>, w: nat, gone: bool)
    requires Inv(v, offset) && Inv(v', offset) && v'.table == v.table[key := list]
    requires Has(list, w) <==> Has(Listing(v.table, key), w) && !gone
    requires gone ==> Has(Listing(v.table, key), w)
    ensures w in v'.live <==> w in v.live && !gone
  {
    hide Inv, Has;
    if w in v.live {
      LiveHas(v, offset, w);
      if gone {
        LiveIn(v, offset, key, w);
      } else {
        LiveIn(v', offset, v.live[w].key, w);
      }
    }
    if w in v'.live {
      LiveHas(v', offset, w);
      LiveIn(v, offset, v'.live[w].key, w);
      if gone {
        LiveIn(v, offset, key, w);
      }
    }
  }

  // ---------- one packet ----------

  /** Item `i` of the flow is spoiled, and the packet gets to it, since it is merged with no newer one. */
  ghost predicate DropsItem(v: View, offset: nat, m: TcpMeta, items: seq<Item>, w: nat, i: nat)
    requires v.n < |v.bufs|
  {
    i < |items| && items[i].bufsIndex == w && Spoiled(v.bufs, offset, v.n, m, items[i]) && NoneSuits(v, offset, v.n, m, items, i)
  }

  ghost predicate DropsIn(v: View, offset: nat, m: TcpMeta, items: seq<Item>, w: nat)
    requires v.n < |v.bufs|
  {
    exists i: nat :: DropsItem(v, offset, m, items, w, i)
  }

  /** Packet `v.n` makes tcpGRO drop the item of buffer `w`: it is TCP data of that flow that could be merged with the item,
      the item is a single packet with a wrong checksum, and no newer item of the flow suits the packet. */
  ghost predicate DropsNow(v: View, offset: nat, w: nat) {
    && v.n < |v.bufs|
    && var b := v.bufs[v.n].pkt;
       exists isV6: bool {:trigger IsTcpCandidate(b, isV6)} ::
         && IsTcpCandidate(b, isV6) && ParseTcp(b, isV6).Some?
         && var m := ParseTcp(b, isV6).value; DropsIn(v, offset, m, Listing(v.table, m.key), w)
  }

  lemma OneKind(b: Bytes, a: bool, c: bool)
    requires IsTcpCandidate(b, a) && IsTcpCandidate(b, c)
    ensures a == c
  {
  }

  lemma SpoiledDoesNotSuit(bufs: seq<Buf>, offset: nat, pktI: nat, m: TcpMeta, item: Item)
    requires pktI < |bufs| && Spoiled(bufs, offset, pktI, m, item)
    ensures !Suits(bufs, offset, pktI, m, item)
  {
    hide Can, Mergeable, Intact;
  }

  lemma OnlyAt(v: View, offset: nat, key: FlowKey, i: nat, j: nat)
    requires Inv(v, offset) && i < |Listing(v.table, key)| && j < |Listing(v.table, key)|
    requires Listing(v.table, key)[i].bufsIndex == Listing(v.table, key)[j].bufsIndex
    ensures i == j
  {
    hide GroupsOk, WriteOk, PartitionOk, BufsOk;
    assert Distinct(v.table[key]);
  }

  /** A newer item that suits keeps the packet from getting to item `i`. */
  lemma Blocked(v: View, offset: nat, m: TcpMeta, items: seq<Item>, w: nat, from: nat, i: nat)
    requires v.n < |v.bufs| && i < from <= |items| && Suits(v.bufs, offset, v.n, m, items[from - 1])
    ensures !DropsItem(v, offset, m, items, w, i)
  {
    hide Suits, Spoiled;
  }

  /** No item suits from `from` on, and of those the spoiled ones are dropped. */
  lemma KeptFrom(v: View, offset: nat, m: TcpMeta, from: nat, w: nat)
    requires Inv(v, offset) && v.n < |v.bufs| && from <= |Listing(v.table, m.key)|
    requires NoneSuits(v, offset, v.n, m, Listing(v.table, m.key), from)
    requires from == 0 || Suits(v.bufs, offset, v.n, m, Listing(v.table, m.key)[from - 1])
    ensures var items := Listing(v.table, m.key);
            Has(items[..from] + Kept(v.bufs, offset, v.n, m, items[from..]), w) <==> Has(items, w) && !DropsIn(v, offset, m, items, w)
  {
    hide Inv, Suits, Spoiled;
    var items := Listing(v.table, m.key);
    HasConcat(items[..from], Kept(v.bufs, offset, v.n, m, items[from..]), w);
    HasKept(v.bufs, offset, v.n, m, items[from..], w);
    if Has(items, w) {
      var i: nat :| i < |items| && items[i].bufsIndex == w;
      forall j: nat | j < |items| && items[j].bufsIndex == w ensures j == i {
        OnlyAt(v, offset, m.key, i, j);
      }
      if i < from {
        assert items[..from][i].bufsIndex == w;
        Blocked(v, offset, m, items, w, from, i);
      } else {
        assert items[from..][i - from] == items[i];
        assert Spoiled(v.bufs, offset, v.n, m, items[i]) ==> DropsItem(v, offset, m, items, w, i);
      }
    }
  }

  lemma SameHas(a: seq<Item>, item: Item, item': Item, b: seq<Item>, w: nat)
    requires item.bufsIndex == item'.bufsIndex
    ensures Has(a + [item'] + b, w) <==> Has(a + [item] + b, w)
  {
    HasConcat(a + [item'], b, w);
    HasConcat(a + [item], b, w);
    HasConcat(a, [item'], w);
    HasConcat(a, [item], w);
    assert Has([item'], w) <==> item'.bufsIndex == w by {
      assert [item'][0] == item';
    }
    assert Has([item], w) <==> item.bufsIndex == w by {
      assert [item][0] == item;
    }
  }

  lemma MergedKeepsIndex(mode: CanCoalesce, m: TcpMeta, item: Item)
    ensures MergedItem(mode, m, item).bufsIndex == item.bufsIndex
  {
  }

  /** What the flow of the packet lists afterwards. */
  lemma OutcomeLists(v: View, v': View, offset: nat, isV6: bool, result: GroResult, after: Held, m: TcpMeta, w: nat) returns (list: seq<Item>)
    requires Inv(v, offset) && v.n < |v.bufs| && IsTcpCandidate(v.bufs[v.n].pkt, isV6) && ParseTcp(v.bufs[v.n].pkt, isV6) == Some(m)
    requires IsOutcome(v, offset, v.n, isV6, result, after) && after.table == v'.table && w < v.n
    ensures v'.table == v.table[m.key := list]
    ensures Has(list, w) <==> Has(Listing(v.table, m.key), w) && !DropsIn(v, offset, m, Listing(v.table, m.key), w)
  {
    hide Inv, ParseTcp, IsTcpCandidate, Suits, Spoiled, Intact, Kept, NoneSuits, DropsIn, Has, MergedItem, MergedBuf, Can;
    var items := Listing(v.table, m.key);
    if NoneSuits(v, offset, v.n, m, items, 0) {
      KeptFrom(v, offset, m, 0, w);
      list := Kept(v.bufs, offset, v.n, m, items) + [NewItem(m, v.n)];
      assert items[0..] == items && items[..0] + Kept(v.bufs, offset, v.n, m, items) == Kept(v.bufs, offset, v.n, m, items);
      HasConcat(Kept(v.bufs, offset, v.n, m, items), [NewItem(m, v.n)], w);
      HasNew(m, v.n, w);
    } else if !Intact(v.bufs[v.n].pkt, m) {
      var i: nat :| Refused(v, offset, v.n, m, items, i, after);
      KeptFrom(v, offset, m, i + 1, w);
      list := items[..i + 1] + Kept(v.bufs, offset, v.n, m, items[i + 1..]);
    } else {
      var i: nat :| Joined(v, offset, v.n, m, items, i, after);
      KeptFrom(v, offset, m, i + 1, w);
      list := JoinedList(v, offset, m, items, i, after, w);
    }
  }

  lemma HasNew(m: TcpMeta, n: nat, w: nat)
    requires w != n && 0 <= m.gsoSize <= 0xFFFF
    ensures !Has([NewItem(m, n)], w)
  {
  }

  lemma JoinedList(v: View, offset: nat, m: TcpMeta, items: seq<Item>, i: nat, after: Held, w: nat) returns (list: seq<Item>)
    requires v.n < |v.bufs| && Joined(v, offset, v.n, m, items, i, after)
    ensures i < |items| && after.table == v.table[m.key := list]
    ensures Has(list, w) <==> Has(items[..i + 1] + Kept(v.bufs, offset, v.n, m, items[i + 1..]), w)
  {
    hide Suits, Kept, NoneSuits, Has, MergedItem, MergedBuf, Can;
    var above := Kept(v.bufs, offset, v.n, m, items[i + 1..]);
    var mode := Can(v.bufs[v.n].pkt, m, items[i], v.bufs[items[i].bufsIndex].pkt);
    MergedKeepsIndex(mode, m, items[i]);
    list := items[..i] + [MergedItem(mode, m, items[i])] + above;
    SameHas(items[..i], items[i], MergedItem(mode, m, items[i]), above, w);
    assert items[..i] + [items[i]] == items[..i + 1];
  }

  lemma SameTable(v: View, v': View, offset: nat, w: nat)
    requires Inv(v, offset) && Inv(v', offset) && v'.table == v.table
    ensures w in v'.live <==> w in v.live
  {
    hide Inv, Has;
    if w in v.live {
      LiveHas(v, offset, w);
      LiveIn(v', offset, v.live[w].key, w);
    }
    if w in v'.live {
      LiveHas(v', offset, w);
      LiveIn(v, offset, v'.live[w].key, w);
    }
  }

  /** A TCP candidate drops what it drops in its own flow. */
  lemma DropsOwnFlow(v: View, offset: nat, isV6: bool, w: nat)
    requires v.n < |v.bufs| && IsTcpCandidate(v.bufs[v.n].pkt, isV6)
    ensures var parsed := ParseTcp(v.bufs[v.n].pkt, isV6);
            DropsNow(v, offset, w) <==> parsed.Some? && DropsIn(v, offset, parsed.value, Listing(v.table, parsed.value.key), w)
  {
    hide ParseTcp, DropsIn, IsTcpCandidate;
    forall other: bool | IsTcpCandidate(v.bufs[v.n].pkt, other) ensures other == isV6 {
      OneKind(v.bufs[v.n].pkt, other, isV6);
    }
  }

  lemma DropsHas(v: View, offset: nat, m: TcpMeta, items: seq<Item>, w: nat)
    requires v.n < |v.bufs| && DropsIn(v, offset, m, items, w)
    ensures Has(items, w)
  {
    hide Spoiled, NoneSuits;
  }

  lemma HandledLive(v: View, v': View, offset: nat, isV6: bool, result: GroResult, w: nat)
    requires Inv(v, offset) && Inv(v', offset) && Became(v, v', offset, isV6, result) && w < v.n
    ensures w in v'.live <==> w in v.live && !DropsNow(v, offset, w)
  {
    hide Inv, ParseTcp, IsTcpCandidate, DropsIn, DropsNow, Has, NoneSuits, Gro.Entered, Refused, Joined, Intact;
    DropsOwnFlow(v, offset, isV6, w);
    var parsed := ParseTcp(v.bufs[v.n].pkt, isV6);
    var after := if result == Noop then HeldIn(v').(groups := v.groups) else HeldIn(v');
    if parsed.None? {
      SameTable(v, v', offset, w);
    } else {
      var m := parsed.value;
      var list := OutcomeLists(v, v', offset, isV6, result, after, m, w);
      var gone := DropsIn(v, offset, m, Listing(v.table, m.key), w);
      if gone {
        DropsHas(v, offset, m, Listing(v.table, m.key), w);
      }
      Updated(v, v', offset, m.key, list, w, gone);
    }
  }

  lemma NoTcpNoDrop(v: View, offset: nat, w: nat)
    requires v.n < |v.bufs| && PacketIsGroCandidate(v.bufs[v.n].pkt, false) == NotGroCandidate
    ensures !DropsNow(v, offset, w)
  {
    hide ParseTcp, DropsIn;
    CandidateKinds(v.bufs[v.n].pkt, false);
  }

  /** A packet stays in the table unless the next packet makes tcpGRO drop it. */
  lemma StepLive(v: View, v': View, offset: nat, w: nat)
    requires Inv(v, offset) && Inv(v', offset) && Stepped(v, v', offset) && w < v.n
    ensures w in v'.live <==> w in v.live && !DropsNow(v, offset, w)
  {
    hide Inv, IsTcpCandidate, IsOutcome, PacketIsGroCandidate, DropsNow, Became;
    if PacketIsGroCandidate(v.bufs[v.n].pkt, false) == NotGroCandidate {
      NoTcpNoDrop(v, offset, w);
    } else {
      var isV6 := PacketIsGroCandidate(v.bufs[v.n].pkt, false) == Tcp6Candidate;
      var result :| Became(v, v', offset, isV6, result);
      HandledLive(v, v', offset, isV6, result, w);
    }
  }

  // ---------- a whole run ----------

  /** Packet `k` makes tcpGRO drop the item of buffer `w`. */
  ghost predicate DropsAt(views: seq<View>, offset: nat, w: nat, k: nat) {
    k < |views| && DropsNow(views[k], offset, w)
  }

  lemma StepOf(views: seq<View>, offset: nat, i: nat)
    requires IsRun(views, offset) && i + 1 < |views|
    ensures Stepped(views[i], views[i + 1], offset)
  {
    hide Stepped;
  }

  lemma {:induction false} LiveUntil(views: seq<View>, tv: View, offset: nat, start: seq<Buf>, w: nat, n: nat)
    requires History(views, tv, offset, start) && w < n < |views|
    ensures w in views[n].live <==> w in views[w + 1].live && forall k: nat {:trigger DropsAt(views, offset, w, k)} :: w < k < n ==> !DropsAt(views, offset, w, k)
    decreases n
  {
    hide Inv, Stepped, DropsNow;
    if n > w + 1 {
      LiveUntil(views, tv, offset, start, w, n - 1);
      StepOf(views, offset, n - 1);
      assert Inv(views[n - 1], offset) && Inv(views[n], offset);
      StepLive(views[n - 1], views[n], offset, w);
      assert DropsAt(views, offset, w, n - 1) == DropsNow(views[n - 1], offset, w);
    }
  }

  /** A packet that was entered is dropped if and only if one of the later packets makes tcpGRO do so. */
  lemma DroppedIff(views: seq<View>, tv: View, offset: nat, start: seq<Buf>, w: nat)
    requires History(views, tv, offset, start) && w < tv.n && w < |tv.orig| && IsTcp(tv.orig[w])
    ensures Dropped(tv, views, w) <==> w in views[w + 1].live && exists k: nat {:trigger DropsAt(views, offset, w, k)} :: w < k < tv.n && DropsAt(views, offset, w, k)
  {
    hide Inv, IsRun, DropsAt, IsTcp;
    LiveUntil(views, tv, offset, start, w, tv.n);
  }
}
