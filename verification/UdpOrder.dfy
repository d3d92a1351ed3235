/** What every step of UDP receive coalescing keeps, the order of the datagrams of a flow above all
    (wireguard/tun/offload_linux.go:832-835). */
module UdpOrder {
  import opened InternetChecksum
  import opened Options
  import opened GroPackets
  import opened GroGroups
  import opened UdpPackets

  // ---------- the order of writing ----------

  function Group(groups: map<nat, seq<nat>>, w: nat): seq<nat> {
    if w in groups then groups[w] else []
  }

  /** The packets in the order in which they leave, once merged packets have been split again. */
  function Emitted(toWrite: seq<nat>, groups: map<nat, seq<nat>>): seq<nat> {
    if toWrite == [] then []
    else Emitted(toWrite[..|toWrite| - 1], groups) + Group(groups, toWrite[|toWrite| - 1])
  }

  predicate InFlow(orig: seq<Bytes>, key: UdpKey, j: nat) {
    j < |orig| && Udp(orig[j]).Some? && Udp(orig[j]).value.key == key
  }

  /** Those of the packets `s` that are tracked datagrams of the flow. */
  function Flow(s: seq<nat>, orig: seq<Bytes>, key: UdpKey): seq<nat> {
    if s == [] then []
    else Flow(s[..|s| - 1], orig, key) + if InFlow(orig, key, s[|s| - 1]) then [s[|s| - 1]] else []
  }

  function Range(n: nat): (r: seq<nat>)
    ensures |r| == n && forall i :: 0 <= i < n ==> r[i] == i
  {
    seq(n, i => i)
  }

  lemma {:induction false} FlowConcat(a: seq<nat>, b: seq<nat>, orig: seq<Bytes>, key: UdpKey)
    ensures Flow(a + b, orig, key) == Flow(a, orig, key) + Flow(b, orig, key)
  {
    hide InFlow;
    if b == [] {
      assert a + b == a;
    } else {
      var n := |b| - 1;
      FlowConcat(a, b[..n], orig, key);
      assert (a + b)[..|a + b| - 1] == a + b[..n];
    }
  }

  lemma {:induction false} FlowNone(s: seq<nat>, orig: seq<Bytes>, key: UdpKey)
    requires forall i :: 0 <= i < |s| ==> !InFlow(orig, key, s[i])
    ensures Flow(s, orig, key) == []
  {
    hide InFlow;
    if s != [] {
      FlowNone(s[..|s| - 1], orig, key);
    }
  }

  lemma FlowOne(j: nat, orig: seq<Bytes>, key: UdpKey)
    ensures Flow([j], orig, key) == if InFlow(orig, key, j) then [j] else []
  {
    hide InFlow;
    assert [j][..0] == [];
  }

  lemma RangeGrows(n: nat)
    ensures Range(n + 1) == Range(n) + [n]
  {
  }

  lemma {:induction false} EmittedSame(toWrite: seq<nat>, groups: map<nat, seq<nat>>, groups': map<nat, seq<nat>>)
    requires forall i :: 0 <= i < |toWrite| ==> Group(groups, toWrite[i]) == Group(groups', toWrite[i])
    ensures Emitted(toWrite, groups) == Emitted(toWrite, groups')
  {
    hide Group;
    if toWrite != [] {
      EmittedSame(toWrite[..|toWrite| - 1], groups, groups');
    }
  }

  ghost predicate Rising(s: seq<nat>) {
    forall i, j :: 0 <= i < j < |s| ==> s[i] < s[j]
  }

  /** A packet that is written by itself comes last. */
  lemma EmittedNew(toWrite: seq<nat>, groups: map<nat, seq<nat>>, n: nat)
    requires n !in toWrite
    ensures Emitted(toWrite + [n], groups[n := [n]]) == Emitted(toWrite, groups) + [n]
  {
    EmittedSame(toWrite, groups, groups[n := [n]]);
    assert (toWrite + [n])[..|toWrite + [n]| - 1] == toWrite;
  }

  lemma EmittedNone(groups: map<nat, seq<nat>>)
    ensures Emitted([], groups) == []
  {
  }

  lemma EmittedStep(toWrite: seq<nat>, groups: map<nat, seq<nat>>)
    requires toWrite != []
    ensures Emitted(toWrite, groups) == Emitted(toWrite[..|toWrite| - 1], groups) + Group(groups, toWrite[|toWrite| - 1])
  {
    hide Group;
  }

  lemma FrontOf(toWrite: seq<nat>, w: nat)
    requires Rising(toWrite) && w in toWrite
    ensures toWrite != [] && Rising(toWrite[..|toWrite| - 1])
    ensures var front, u := toWrite[..|toWrite| - 1], toWrite[|toWrite| - 1];
            if u == w then w !in front else w in front && u > w
  {
    var front, u := toWrite[..|toWrite| - 1], toWrite[|toWrite| - 1];
    assert toWrite == front + [u];
  }

  lemma EmittedElsewhere(toWrite: seq<nat>, groups: map<nat, seq<nat>>, w: nat, g: seq<nat>)
    requires w !in toWrite
    ensures Emitted(toWrite, groups[w := g]) == Emitted(toWrite, groups)
  {
    hide Emitted;
    EmittedSame(toWrite, groups, groups[w := g]);
  }

  /** No buffer behind `w` holds a datagram of the flow. */
  ghost predicate NoneBehind(toWrite: seq<nat>, groups: map<nat, seq<nat>>, w: nat, orig: seq<Bytes>, key: UdpKey) {
    forall i {:trigger toWrite[i]} :: 0 <= i < |toWrite| && toWrite[i] > w ==> Flow(Group(groups, toWrite[i]), orig, key) == []
  }

  lemma NoneBehindFront(toWrite: seq<nat>, groups: map<nat, seq<nat>>, w: nat, orig: seq<Bytes>, key: UdpKey)
    requires toWrite != [] && NoneBehind(toWrite, groups, w, orig, key)
    ensures NoneBehind(toWrite[..|toWrite| - 1], groups, w, orig, key)
    ensures toWrite[|toWrite| - 1] > w ==> Flow(Group(groups, toWrite[|toWrite| - 1]), orig, key) == []
  {
    hide Flow, Group;
  }

  /** A packet that joins the buffer of `w` comes behind all others of its flow, if no buffer behind `w` holds
      any of that flow. */
  lemma {:induction false} EmittedJoin(toWrite: seq<nat>, groups: map<nat, seq<nat>>, w: nat, j: nat, orig: seq<Bytes>, key: UdpKey)
    requires Rising(toWrite) && w in toWrite && w in groups
    requires InFlow(orig, key, j) ==> NoneBehind(toWrite, groups, w, orig, key)
    ensures Flow(Emitted(toWrite, groups[w := groups[w] + [j]]), orig, key) == Flow(Emitted(toWrite, groups), orig, key) + Flow([j], orig, key)
  {
    hide InFlow, Flow, Emitted, Rising, NoneBehind;
    var groups' := groups[w := groups[w] + [j]];
    FrontOf(toWrite, w);
    var front, u := toWrite[..|toWrite| - 1], toWrite[|toWrite| - 1];
    EmittedStep(toWrite, groups);
    EmittedStep(toWrite, groups');
    FlowConcat(Emitted(front, groups), Group(groups, u), orig, key);
    FlowConcat(Emitted(front, groups'), Group(groups', u), orig, key);
    if u == w {
      EmittedElsewhere(front, groups, w, groups[w] + [j]);
      FlowConcat(groups[w], [j], orig, key);
    } else {
      if InFlow(orig, key, j) {
        NoneBehindFront(toWrite, groups, w, orig, key);
      }
      EmittedJoin(front, groups, w, j, orig, key);
      FlowOne(j, orig, key);
    }
  }

  lemma {:induction false} EmittedCount(toWrite: seq<nat>, groups: map<nat, seq<nat>>, w: nat, j: nat)
    requires Rising(toWrite) && w in toWrite && w in groups
    ensures multiset(Emitted(toWrite, groups[w := groups[w] + [j]])) == multiset(Emitted(toWrite, groups)) + multiset{j}
  {
    hide Emitted, Rising;
    var groups' := groups[w := groups[w] + [j]];
    FrontOf(toWrite, w);
    var front, u := toWrite[..|toWrite| - 1], toWrite[|toWrite| - 1];
    EmittedStep(toWrite, groups);
    EmittedStep(toWrite, groups');
    if u == w {
      EmittedElsewhere(front, groups, w, groups[w] + [j]);
    } else {
      EmittedCount(front, groups, w, j);
    }
  }

  // ---------- the invariant ----------

  ghost predicate BufsOk(v: UdpView, offset: nat) {
    && |v.bufs| == |v.orig| && v.n <= |v.orig|
    && (forall j {:trigger v.bufs[j]} :: 0 <= j < |v.bufs| ==> offset + |v.bufs[j].pkt| <= v.bufs[j].cap <= 0xFFFF)
    && (forall j {:trigger v.orig[j]} :: v.n <= j < |v.orig| ==> v.bufs[j].pkt == v.orig[j])
  }

  ghost predicate ItemOk(v: UdpView, key: UdpKey, item: UdpItem) {
    && item.key == key && item.bufsIndex in v.groups && item.bufsIndex < v.n && item.bufsIndex < |v.bufs|
    && UdpTracks(v.orig, v.bufs[item.bufsIndex].pkt, v.groups[item.bufsIndex], item)
    && Rising(v.groups[item.bufsIndex] + [v.n])
  }

  ghost predicate FlowOk(v: UdpView, key: UdpKey)
    requires key in v.table
  {
    && v.table[key] != []
    && (forall i {:trigger v.table[key][i]} :: 0 <= i < |v.table[key]| ==> ItemOk(v, key, v.table[key][i]))
    && (forall i, k {:trigger v.table[key][i], v.table[key][k]} :: 0 <= i < k < |v.table[key]| ==> v.table[key][i].bufsIndex < v.table[key][k].bufsIndex)
  }

  ghost predicate TableOk(v: UdpView) {
    forall key {:trigger FlowOk(v, key)} :: key in v.table ==> FlowOk(v, key)
  }

  /** The buffer belongs to an item of its flow, or holds a packet that was passed on. */
  ghost predicate HeadOf(v: UdpView, w: nat) {
    w < |v.orig| && w < |v.bufs| && w in v.groups &&
    if Udp(v.orig[w]).Some? then
      var key := Udp(v.orig[w]).value.key;
      key in v.table && exists i {:trigger v.table[key][i]} :: 0 <= i < |v.table[key]| && v.table[key][i].bufsIndex == w
    else v.groups[w] == [w] && v.bufs[w].pkt == v.orig[w]
  }

  ghost predicate WriteOk(v: UdpView) {
    && Rising(v.toWrite) && (forall w {:trigger HeadOf(v, w)} :: w in v.toWrite ==> w < v.n && HeadOf(v, w))
    && (forall w :: w in v.groups <==> w in v.toWrite)
  }

  /** The datagrams of each flow leave in the order in which they came. */
  ghost predicate InOrder(v: UdpView, key: UdpKey) {
    Flow(Emitted(v.toWrite, v.groups), v.orig, key) == Flow(Range(v.n), v.orig, key)
  }

  ghost predicate OrderOk(v: UdpView) {
    && (forall key {:trigger InOrder(v, key)} :: InOrder(v, key))
    && multiset(Emitted(v.toWrite, v.groups)) == multiset(Range(v.n))
  }

  ghost predicate Inv(v: UdpView, offset: nat) {
    BufsOk(v, offset) && TableOk(v) && WriteOk(v) && OrderOk(v)
  }

  lemma Last(v: UdpView, offset: nat, key: UdpKey)
    requires Inv(v, offset) && key in v.table
    ensures v.table[key] != [] && ItemOk(v, key, v.table[key][|v.table[key]| - 1])
    ensures var item := v.table[key][|v.table[key]| - 1];
            item.key == key && item.gsoSize > 0 && item.numMerged < 0xFFFF && item.bufsIndex < |v.bufs| && item.bufsIndex in v.groups
  {
    hide UdpTracks, BufsOk, WriteOk, OrderOk;
    assert FlowOk(v, key);
    var item := v.table[key][|v.table[key]| - 1];
    NumMergedFits(v.orig, v.bufs[item.bufsIndex].pkt, v.groups[item.bufsIndex], item);
    TrackedShape(v.orig, v.bufs[item.bufsIndex].pkt, v.groups[item.bufsIndex], item);
  }

  /** udpGRO on the next packet. */
  ghost function Next(v: UdpView, offset: nat): UdpView
    requires Inv(v, offset) && v.n < |v.orig|
  {
    var pkt := v.bufs[v.n].pkt;
    match Udp(pkt)
    case None => PassOn(v)
    case Some(m) =>
      if m.key !in v.table then Enter(v, m, false)
      else
        Last(v, offset, m.key);
        var item := v.table[m.key][|v.table[m.key]| - 1];
        var head := v.bufs[item.bufsIndex];
        if !CanAppend(pkt, m, item, head.pkt) then Enter(v, m, false)
        else
          match Outcome(head, pkt, item, offset)
          case CoalesceSuccess => Append(v, item)
          case PktInvalidCsum => Enter(v, m, true)
          case _ => Enter(v, m, false)
  }

  // ---------- passing on and entering ----------

  lemma PassOnBufs(v: UdpView, offset: nat)
    requires Inv(v, offset) && v.n < |v.orig|
    ensures BufsOk(PassOn(v), offset)
  {
    hide TableOk, WriteOk, OrderOk;
  }

  /** An item stays what it is while another buffer gets a group. */
  lemma ItemStays(v: UdpView, w: UdpView, key: UdpKey, item: UdpItem)
    requires ItemOk(v, key, item) && w.orig == v.orig && v.n <= w.n && |w.bufs| == |v.bufs|
    requires w.bufs[item.bufsIndex] == v.bufs[item.bufsIndex]
    requires item.bufsIndex in w.groups && w.groups[item.bufsIndex] == v.groups[item.bufsIndex]
    ensures ItemOk(w, key, item)
  {
    hide UdpTracks;
    LaterRises(v.groups[item.bufsIndex], v.n, w.n);
  }

  lemma LaterRises(g: seq<nat>, n: nat, m: nat)
    requires Rising(g + [n]) && n <= m
    ensures Rising(g + [m])
  {
    forall i, j | 0 <= i < j < |g + [m]| ensures (g + [m])[i] < (g + [m])[j] {
      assert (g + [n])[i] < (g + [n])[j];
    }
  }

  lemma JoinRises(g: seq<nat>, n: nat)
    requires Rising(g + [n])
    ensures Rising(g + [n] + [n + 1])
  {
    var s := g + [n] + [n + 1];
    forall i, j | 0 <= i < j < |s| ensures s[i] < s[j] {
      if j <= |g| {
        assert (g + [n])[i] < (g + [n])[j];
      } else if i < |g| {
        assert (g + [n])[i] < (g + [n])[|g|];
      }
    }
  }

  lemma FlowStays(v: UdpView, w: UdpView, key: UdpKey)
    requires key in v.table && FlowOk(v, key) && key in w.table && w.table[key] == v.table[key]
    requires w.orig == v.orig && w.bufs == v.bufs && w.n == v.n + 1 && w.groups == v.groups[v.n := [v.n]]
    ensures FlowOk(w, key)
  {
    hide ItemOk;
    forall i {:trigger w.table[key][i]} | 0 <= i < |w.table[key]| ensures ItemOk(w, key, w.table[key][i]) {
      var item := v.table[key][i];
      assert ItemOk(v, key, item);
      ItemIndex(v, key, item);
      ItemStays(v, w, key, item);
    }
    forall i, k {:trigger w.table[key][i], w.table[key][k]} | 0 <= i < k < |w.table[key]|
      ensures w.table[key][i].bufsIndex < w.table[key][k].bufsIndex
    {
      assert v.table[key][i].bufsIndex < v.table[key][k].bufsIndex;
    }
  }

  lemma ItemIndex(v: UdpView, key: UdpKey, item: UdpItem)
    requires ItemOk(v, key, item)
    ensures item.key == key && item.bufsIndex < v.n && item.bufsIndex < |v.bufs| && item.bufsIndex in v.groups
  {
    hide UdpTracks;
  }

  lemma Below(v: UdpView, offset: nat)
    requires Inv(v, offset)
    ensures Rising(v.toWrite) && forall i :: 0 <= i < |v.toWrite| ==> v.toWrite[i] < v.n
    ensures v.n !in v.toWrite && forall w :: w in v.groups <==> w in v.toWrite
  {
    hide BufsOk, TableOk, OrderOk;
    forall i | 0 <= i < |v.toWrite| ensures v.toWrite[i] < v.n {
      assert v.toWrite[i] in v.toWrite;
      assert HeadOf(v, v.toWrite[i]);
    }
  }

  /** The write list and the order, when packet `n` is written by itself. */
  lemma NewOrder(v: UdpView, offset: nat, w: UdpView)
    requires Inv(v, offset) && v.n < |v.orig|
    requires w.orig == v.orig && w.n == v.n + 1 && w.toWrite == v.toWrite + [v.n] && w.groups == v.groups[v.n := [v.n]]
    ensures OrderOk(w)
  {
    Below(v, offset);
    hide BufsOk, TableOk, WriteOk, Flow, Emitted;
    EmittedNew(v.toWrite, v.groups, v.n);
    RangeGrows(v.n);
    forall key ensures InOrder(w, key) {
      assert InOrder(v, key);
      FlowConcat(Emitted(v.toWrite, v.groups), [v.n], v.orig, key);
      FlowConcat(Range(v.n), [v.n], v.orig, key);
    }
  }

  /** The buffers written so far keep their place when packet `n` gets a group of its own. */
  lemma HeadStays(v: UdpView, w: UdpView, u: nat)
    requires HeadOf(v, u) && u < v.n && w.orig == v.orig && w.bufs == v.bufs && w.groups == v.groups[v.n := [v.n]]
    requires forall key :: key in v.table ==> key in w.table && v.table[key] <= w.table[key]
    ensures HeadOf(w, u)
  {
    hide Udp;
    if Udp(v.orig[u]).Some? {
      var key := Udp(v.orig[u]).value.key;
      var i :| 0 <= i < |v.table[key]| && v.table[key][i].bufsIndex == u;
      assert w.table[key][i].bufsIndex == u;
    }
  }

  lemma NewWrite(v: UdpView, offset: nat, w: UdpView)
    requires Inv(v, offset) && v.n < |v.orig| && w.orig == v.orig && w.bufs == v.bufs
    requires w.n == v.n + 1 && w.toWrite == v.toWrite + [v.n] && w.groups == v.groups[v.n := [v.n]]
    requires forall key :: key in v.table ==> key in w.table && v.table[key] <= w.table[key]
    requires HeadOf(w, v.n)
    ensures WriteOk(w)
  {
    Below(v, offset);
    hide BufsOk, TableOk, OrderOk, HeadOf;
    forall u | u in w.toWrite ensures u < w.n && HeadOf(w, u) {
      if u != v.n {
        assert u in v.toWrite && HeadOf(v, u);
        HeadStays(v, w, u);
      }
    }
  }

  lemma PassOnInv(v: UdpView, offset: nat)
    requires Inv(v, offset) && v.n < |v.orig| && Udp(v.orig[v.n]).None?
    ensures Inv(PassOn(v), offset)
  {
    var w := PassOn(v);
    PassOnBufs(v, offset);
    NewOrder(v, offset, w);
    assert HeadOf(w, v.n) by { AtN(v, offset); }
    NewWrite(v, offset, w);
    hide BufsOk, WriteOk, OrderOk, FlowOk;
    forall key {:trigger FlowOk(w, key)} | key in w.table ensures FlowOk(w, key) {
      assert FlowOk(v, key);
      FlowStays(v, w, key);
    }
  }

  lemma AtN(v: UdpView, offset: nat)
    requires Inv(v, offset) && v.n < |v.orig|
    ensures v.n < |v.bufs| && v.bufs[v.n].pkt == v.orig[v.n]
    ensures |v.bufs| == |v.orig| && offset + |v.bufs[v.n].pkt| <= v.bufs[v.n].cap <= 0xFFFF
  {
    hide TableOk, WriteOk, OrderOk;
    assert v.bufs[v.n].pkt == v.orig[v.n];
  }

  lemma EnteredItem(v: UdpView, offset: nat, m: UdpMeta, invalid: bool)
    requires Inv(v, offset) && v.n < |v.orig| && Udp(v.orig[v.n]) == Some(m) && (invalid ==> !Intact(v.orig[v.n], m.key.isV6))
    ensures ItemOk(Enter(v, m, invalid), m.key, NewItem(v, m, invalid))
  {
    hide Inv, UdpTracks, Udp, Intact;
    AtN(v, offset);
    NewUdpTracks(v, m, invalid);
  }

  lemma OldItem(v: UdpView, offset: nat, m: UdpMeta, invalid: bool, i: nat)
    requires Inv(v, offset) && v.n < |v.orig| && i < |Items(v.table, m.key)|
    ensures var item := Items(v.table, m.key)[i]; item.bufsIndex < v.n && ItemOk(Enter(v, m, invalid), m.key, item)
  {
    hide BufsOk, WriteOk, OrderOk, ItemOk;
    assert FlowOk(v, m.key);
    var item := v.table[m.key][i];
    ItemIndex(v, m.key, item);
    ItemStays(v, Enter(v, m, invalid), m.key, item);
  }

  lemma ItemsRise(v: UdpView, offset: nat, key: UdpKey, i: nat, k: nat)
    requires Inv(v, offset) && i < k < |Items(v.table, key)|
    ensures Items(v.table, key)[i].bufsIndex < Items(v.table, key)[k].bufsIndex
  {
    hide BufsOk, WriteOk, OrderOk, ItemOk;
    assert FlowOk(v, key);
    assert v.table[key][i].bufsIndex < v.table[key][k].bufsIndex;
  }

  lemma EnteredFlow(v: UdpView, offset: nat, m: UdpMeta, invalid: bool)
    requires Inv(v, offset) && v.n < |v.orig| && Udp(v.orig[v.n]) == Some(m) && (invalid ==> !Intact(v.orig[v.n], m.key.isV6))
    ensures FlowOk(Enter(v, m, invalid), m.key)
  {
    hide Inv, ItemOk, Udp, Intact;
    var w, items := Enter(v, m, invalid), Items(v.table, m.key);
    EnteredItem(v, offset, m, invalid);
    forall i {:trigger w.table[m.key][i]} | 0 <= i < |w.table[m.key]| ensures ItemOk(w, m.key, w.table[m.key][i]) {
      if i < |items| {
        OldItem(v, offset, m, invalid, i);
      }
    }
    forall i, k {:trigger w.table[m.key][i], w.table[m.key][k]} | 0 <= i < k < |w.table[m.key]|
      ensures w.table[m.key][i].bufsIndex < w.table[m.key][k].bufsIndex
    {
      OldItem(v, offset, m, invalid, i);
      if k < |items| {
        ItemsRise(v, offset, m.key, i, k);
      }
    }
  }

  lemma EnteredHead(v: UdpView, offset: nat, m: UdpMeta, invalid: bool)
    requires Inv(v, offset) && v.n < |v.orig| && Udp(v.orig[v.n]) == Some(m)
    ensures HeadOf(Enter(v, m, invalid), v.n)
  {
    hide Inv, Udp;
    AtN(v, offset);
    var w := Enter(v, m, invalid);
    assert w.table[m.key][|w.table[m.key]| - 1].bufsIndex == v.n;
  }

  lemma EnterInv(v: UdpView, offset: nat, m: UdpMeta, invalid: bool)
    requires Inv(v, offset) && v.n < |v.orig| && Udp(v.orig[v.n]) == Some(m) && (invalid ==> !Intact(v.orig[v.n], m.key.isV6))
    ensures Inv(Enter(v, m, invalid), offset)
  {
    var w := Enter(v, m, invalid);
    EnteredBufs(v, offset, m, invalid);
    NewOrder(v, offset, w);
    EnteredFlow(v, offset, m, invalid);
    EnteredHead(v, offset, m, invalid);
    NewWrite(v, offset, w);
    hide BufsOk, WriteOk, OrderOk, FlowOk, Udp;
    forall key {:trigger FlowOk(w, key)} | key in w.table ensures FlowOk(w, key) {
      if key != m.key {
        assert FlowOk(v, key);
        FlowStays(v, w, key);
      }
    }
  }

  lemma EnteredBufs(v: UdpView, offset: nat, m: UdpMeta, invalid: bool)
    requires Inv(v, offset) && v.n < |v.orig|
    ensures BufsOk(Enter(v, m, invalid), offset)
  {
    hide TableOk, WriteOk, OrderOk;
  }

  // ---------- joining the last item ----------

  ghost predicate Joins(v: UdpView, offset: nat, m: UdpMeta, item: UdpItem) {
    && Inv(v, offset) && v.n < |v.orig| && Udp(v.orig[v.n]) == Some(m) && m.key in v.table
    && v.table[m.key] != [] && item == v.table[m.key][|v.table[m.key]| - 1] && ItemOk(v, m.key, item) && item.gsoSize > 0 && item.numMerged < 0xFFFF
    && CanAppend(v.orig[v.n], m, item, v.bufs[item.bufsIndex].pkt) && Outcome(v.bufs[item.bufsIndex], v.orig[v.n], item, offset) == CoalesceSuccess
  }

  lemma JoinFacts(v: UdpView, offset: nat, m: UdpMeta, item: UdpItem)
    requires Joins(v, offset, m, item)
    ensures Inv(v, offset) && m.key in v.table && v.table[m.key] != [] && item == v.table[m.key][|v.table[m.key]| - 1]
    ensures item.gsoSize > 0 && item.numMerged < 0xFFFF
    ensures item.key == m.key && item.bufsIndex < v.n < |v.bufs| == |v.orig| && item.bufsIndex in v.groups
    ensures v.bufs[v.n].pkt == v.orig[v.n] && UdpHeadersLen(item) <= |v.orig[v.n]|
    ensures var head := v.bufs[item.bufsIndex];
            head.cap <= 0xFFFF && offset + |head.pkt| + |Payload(v.orig[v.n], UdpHeadersLen(item))| <= head.cap
  {
    hide TableOk, WriteOk, OrderOk, UdpTracks, CanAppend, Intact;
    AtN(v, offset);
    ItemIndex(v, m.key, item);
    TrackedShape(v.orig, v.bufs[item.bufsIndex].pkt, v.groups[item.bufsIndex], item);
    PayloadIsSuffix(v.orig[v.n], UdpHeadersLen(item));
  }

  lemma JoinedBufs(v: UdpView, offset: nat, m: UdpMeta, item: UdpItem)
    requires Joins(v, offset, m, item)
    ensures item.key in v.table && item.bufsIndex < |v.bufs| && item.bufsIndex in v.groups && v.n < |v.bufs|
    ensures BufsOk(Append(v, item), offset)
  {
    hide TableOk, WriteOk, OrderOk, UdpTracks, CanAppend, Outcome, Udp, Payload;
    JoinFacts(v, offset, m, item);
  }

  lemma JoinedItem(v: UdpView, offset: nat, m: UdpMeta, item: UdpItem)
    requires Joins(v, offset, m, item)
    ensures item.key in v.table && item.bufsIndex < |v.bufs| && item.bufsIndex in v.groups && v.n < |v.bufs|
    ensures ItemOk(Append(v, item), m.key, item.(numMerged := item.numMerged + 1))
  {
    hide Inv, UdpTracks, CanAppend, Udp, Payload, Intact;
    JoinFacts(v, offset, m, item);
    UdpAppendTracks(v.orig, v.bufs[item.bufsIndex].pkt, v.groups[item.bufsIndex], item, v.n, m);
    JoinRises(v.groups[item.bufsIndex], v.n);
  }

  lemma ItemFlow(v: UdpView, key: UdpKey, item: UdpItem)
    requires ItemOk(v, key, item)
    ensures InFlow(v.orig, key, item.bufsIndex)
  {
    hide Udp, UdpContents;
    assert UdpPieceOk(v.orig, item, v.groups[item.bufsIndex], 0);
  }

  lemma OtherItem(v: UdpView, offset: nat, m: UdpMeta, item: UdpItem, key: UdpKey, i: nat)
    requires Joins(v, offset, m, item) && i < |Items(v.table, key)| && (key == m.key ==> i < |v.table[key]| - 1)
    ensures item.key in v.table && item.bufsIndex < |v.bufs| && item.bufsIndex in v.groups && v.n < |v.bufs|
    ensures Items(v.table, key)[i].bufsIndex != item.bufsIndex
    ensures ItemOk(Append(v, item), key, Items(v.table, key)[i])
  {
    hide BufsOk, WriteOk, OrderOk, ItemOk, CanAppend, Outcome, Udp, Payload;
    JoinFacts(v, offset, m, item);
    assert FlowOk(v, key);
    var other := v.table[key][i];
    ItemIndex(v, key, other);
    ItemFlow(v, key, other);
    ItemFlow(v, m.key, item);
    if key == m.key {
      ItemsRise(v, offset, key, i, |v.table[key]| - 1);
    }
    ItemStays(v, Append(v, item), key, other);
  }

  lemma JoinedFlow(v: UdpView, offset: nat, m: UdpMeta, item: UdpItem, key: UdpKey)
    requires Joins(v, offset, m, item) && key in v.table
    ensures item.key in v.table && item.bufsIndex < |v.bufs| && item.bufsIndex in v.groups && v.n < |v.bufs|
    ensures key in Append(v, item).table && FlowOk(Append(v, item), key)
  {
    hide Joins, ItemOk, Inv, Payload;
    JoinFacts(v, offset, m, item);
    var w, last := Append(v, item), |v.table[key]| - 1;
    NotEmpty(v, offset, key);
    forall i {:trigger w.table[key][i]} | 0 <= i < |w.table[key]| ensures ItemOk(w, key, w.table[key][i]) {
      if key == m.key && i == last {
        JoinedItem(v, offset, m, item);
      } else {
        OtherItem(v, offset, m, item, key, i);
      }
    }
    forall i, k {:trigger w.table[key][i], w.table[key][k]} | 0 <= i < k < |w.table[key]|
      ensures w.table[key][i].bufsIndex < w.table[key][k].bufsIndex
    {
      ItemsRise(v, offset, key, i, k);
    }
  }

  lemma NotEmpty(v: UdpView, offset: nat, key: UdpKey)
    requires Inv(v, offset) && key in v.table
    ensures v.table[key] != []
  {
    hide BufsOk, WriteOk, OrderOk, ItemOk;
    assert FlowOk(v, key);
  }

  lemma HeadKept(v: UdpView, offset: nat, m: UdpMeta, item: UdpItem, u: nat)
    requires Joins(v, offset, m, item) && HeadOf(v, u)
    ensures item.key in v.table && item.bufsIndex < |v.bufs| && item.bufsIndex in v.groups && v.n < |v.bufs|
    ensures HeadOf(Append(v, item), u)
  {
    hide Inv, ItemOk, CanAppend, Outcome, Udp, Payload;
    JoinFacts(v, offset, m, item);
    ItemFlow(v, m.key, item);
    var w := Append(v, item);
    if Udp(v.orig[u]).Some? {
      var key := Udp(v.orig[u]).value.key;
      var i :| 0 <= i < |v.table[key]| && v.table[key][i].bufsIndex == u;
      assert w.table[key][i].bufsIndex == u;
    }
  }

  lemma JoinedWrite(v: UdpView, offset: nat, m: UdpMeta, item: UdpItem)
    requires Joins(v, offset, m, item)
    ensures item.key in v.table && item.bufsIndex < |v.bufs| && item.bufsIndex in v.groups && v.n < |v.bufs|
    ensures WriteOk(Append(v, item))
  {
    hide BufsOk, TableOk, OrderOk, HeadOf, ItemOk, CanAppend, Outcome, Udp;
    JoinFacts(v, offset, m, item);
    var w := Append(v, item);
    forall u | u in w.toWrite ensures u < w.n && HeadOf(w, u) {
      assert HeadOf(v, u);
      HeadKept(v, offset, m, item, u);
    }
  }

  /** The members of a group are all of one flow. */
  lemma GroupFlow(v: UdpView, key: UdpKey, item: UdpItem, other: UdpKey)
    requires ItemOk(v, key, item) && other != key
    ensures Flow(v.groups[item.bufsIndex], v.orig, other) == []
  {
    hide Udp, UdpContents, Flow;
    var g := v.groups[item.bufsIndex];
    forall i | 0 <= i < |g| ensures !InFlow(v.orig, other, g[i]) {
      assert UdpPieceOk(v.orig, item, g, i);
    }
    FlowNone(g, v.orig, other);
  }

  lemma BehindLast(v: UdpView, offset: nat, m: UdpMeta, item: UdpItem, u: nat)
    requires Joins(v, offset, m, item) && HeadOf(v, u) && u > item.bufsIndex
    ensures Flow(Group(v.groups, u), v.orig, m.key) == []
  {
    hide BufsOk, WriteOk, OrderOk, ItemOk, CanAppend, Outcome, Udp, Flow;
    if Udp(v.orig[u]).Some? {
      var key := Udp(v.orig[u]).value.key;
      var i :| 0 <= i < |v.table[key]| && v.table[key][i].bufsIndex == u;
      assert FlowOk(v, key);
      if key != m.key {
        GroupFlow(v, key, v.table[key][i], m.key);
      } else {
        LastIsLast(v, offset, m, item, i);
      }
    } else {
      FlowOne(u, v.orig, m.key);
    }
  }

  lemma LastIsLast(v: UdpView, offset: nat, m: UdpMeta, item: UdpItem, i: nat)
    requires Joins(v, offset, m, item) && i < |v.table[m.key]|
    ensures v.table[m.key][i].bufsIndex <= item.bufsIndex
  {
    hide Inv, ItemOk, CanAppend, Outcome, Udp;
    if i < |v.table[m.key]| - 1 {
      ItemsRise(v, offset, m.key, i, |v.table[m.key]| - 1);
    }
  }

  lemma NoneBehindLast(v: UdpView, offset: nat, m: UdpMeta, item: UdpItem)
    requires Joins(v, offset, m, item)
    ensures NoneBehind(v.toWrite, v.groups, item.bufsIndex, v.orig, m.key)
  {
    hide Joins, Inv, HeadOf, Flow, Group;
    JoinFacts(v, offset, m, item);
    forall i {:trigger v.toWrite[i]} | 0 <= i < |v.toWrite| && v.toWrite[i] > item.bufsIndex
      ensures Flow(Group(v.groups, v.toWrite[i]), v.orig, m.key) == []
    {
      WrittenHead(v, offset, i);
      BehindLast(v, offset, m, item, v.toWrite[i]);
    }
  }

  lemma WrittenHead(v: UdpView, offset: nat, i: nat)
    requires Inv(v, offset) && i < |v.toWrite|
    ensures HeadOf(v, v.toWrite[i])
  {
    hide BufsOk, TableOk, OrderOk, HeadOf;
    assert v.toWrite[i] in v.toWrite;
  }

  lemma JoinedInOrder(v: UdpView, offset: nat, m: UdpMeta, item: UdpItem, key: UdpKey)
    requires Joins(v, offset, m, item)
    ensures item.key in v.table && item.bufsIndex < |v.bufs| && item.bufsIndex in v.groups && v.n < |v.bufs|
    ensures InOrder(Append(v, item), key)
  {
    hide Joins, Inv, Flow, Emitted, Rising, NoneBehind, Payload;
    JoinFacts(v, offset, m, item);
    Below(v, offset);
    NoneBehindLast(v, offset, m, item);
    OnlyFlow(v, offset, m, item, key);
    OrderHolds(v, offset, key);
    EmittedJoin(v.toWrite, v.groups, item.bufsIndex, v.n, v.orig, key);
    RangeGrows(v.n);
    FlowConcat(Range(v.n), [v.n], v.orig, key);
  }

  lemma OnlyFlow(v: UdpView, offset: nat, m: UdpMeta, item: UdpItem, key: UdpKey)
    requires Joins(v, offset, m, item)
    ensures InFlow(v.orig, key, v.n) ==> key == m.key
  {
    hide Inv, ItemOk, CanAppend, Outcome, Udp;
  }

  lemma JoinedOrder(v: UdpView, offset: nat, m: UdpMeta, item: UdpItem)
    requires Joins(v, offset, m, item)
    ensures item.key in v.table && item.bufsIndex < |v.bufs| && item.bufsIndex in v.groups && v.n < |v.bufs|
    ensures OrderOk(Append(v, item))
  {
    hide Joins, Inv, Flow, Emitted, Rising, Payload, InOrder;
    JoinFacts(v, offset, m, item);
    Below(v, offset);
    EmittedCount(v.toWrite, v.groups, item.bufsIndex, v.n);
    RangeGrows(v.n);
    OrderHolds(v, offset, m.key);
    forall key ensures InOrder(Append(v, item), key) {
      JoinedInOrder(v, offset, m, item, key);
    }
  }

  lemma JoinInv(v: UdpView, offset: nat, m: UdpMeta, item: UdpItem)
    requires Joins(v, offset, m, item)
    ensures item.key in v.table && item.bufsIndex < |v.bufs| && item.bufsIndex in v.groups && v.n < |v.bufs|
    ensures Inv(Append(v, item), offset)
  {
    JoinFacts(v, offset, m, item);
    hide BufsOk, WriteOk, OrderOk, FlowOk, ItemOk, Joins;
    JoinedBufs(v, offset, m, item);
    JoinedWrite(v, offset, m, item);
    JoinedOrder(v, offset, m, item);
    var w := Append(v, item);
    forall key {:trigger FlowOk(w, key)} | key in w.table ensures FlowOk(w, key) {
      JoinedFlow(v, offset, m, item, key);
    }
  }

  lemma NotIntact(head: Buf, pkt: Bytes, item: UdpItem, offset: nat)
    requires Outcome(head, pkt, item, offset) == PktInvalidCsum
    ensures !Intact(pkt, item.key.isV6)
  {
    hide Intact;
  }

  /** Every packet keeps the invariant. */
  lemma NextInv(v: UdpView, offset: nat)
    requires Inv(v, offset) && v.n < |v.orig|
    ensures Inv(Next(v, offset), offset) && Next(v, offset).n == v.n + 1 && Next(v, offset).orig == v.orig
  {
    hide BufsOk, TableOk, WriteOk, OrderOk, ItemOk, CanAppend, Outcome, Udp, Intact;
    AtN(v, offset);
    match Udp(v.orig[v.n])
    case None => PassOnInv(v, offset);
    case Some(m) =>
      EnterInv(v, offset, m, false);
      if m.key in v.table {
        Last(v, offset, m.key);
        var item := v.table[m.key][|v.table[m.key]| - 1];
        if Outcome(v.bufs[item.bufsIndex], v.orig[v.n], item, offset) == PktInvalidCsum {
          NotIntact(v.bufs[item.bufsIndex], v.orig[v.n], item, offset);
          EnterInv(v, offset, m, true);
        }
        if CanAppend(v.orig[v.n], m, item, v.bufs[item.bufsIndex].pkt) && Outcome(v.bufs[item.bufsIndex], v.orig[v.n], item, offset) == CoalesceSuccess {
          JoinInv(v, offset, m, item);
        }
      }
  }

  // ---------- all packets ----------

  /** The state before any packet has been looked at. */
  function Start(bufs: seq<Buf>): (v: UdpView)
    ensures |v.orig| == |bufs| && forall j :: 0 <= j < |bufs| ==> v.orig[j] == bufs[j].pkt
  {
    UdpView(seq(|bufs|, j requires 0 <= j < |bufs| => bufs[j].pkt), bufs, map[], [], map[], 0)
  }

  lemma StartInv(bufs: seq<Buf>, offset: nat)
    requires forall j {:trigger bufs[j]} :: 0 <= j < |bufs| ==> offset + |bufs[j].pkt| <= bufs[j].cap <= 0xFFFF
    ensures Inv(Start(bufs), offset)
  {
    var v := Start(bufs);
    forall key ensures InOrder(v, key) {
      assert Range(0) == [];
    }
    assert Range(0) == [];
  }

  lemma OrderHolds(v: UdpView, offset: nat, key: UdpKey)
    requires Inv(v, offset)
    ensures Flow(Emitted(v.toWrite, v.groups), v.orig, key) == Flow(Range(v.n), v.orig, key)
    ensures multiset(Emitted(v.toWrite, v.groups)) == multiset(Range(v.n))
  {
    hide BufsOk, TableOk, WriteOk, Flow, Emitted;
    assert InOrder(v, key);
  }

  // ---------- who overtakes whom ----------

  ghost predicate LeavesBefore(s: seq<nat>, a: nat, b: nat) {
    exists i, j :: 0 <= i < j < |s| && s[i] == a && s[j] == b
  }

  lemma {:induction false} EmittedHas(toWrite: seq<nat>, groups: map<nat, seq<nat>>, w: nat, a: nat)
    requires w in toWrite && a in Group(groups, w)
    ensures a in Emitted(toWrite, groups)
  {
    hide Group;
    if w != toWrite[|toWrite| - 1] {
      assert w in toWrite[..|toWrite| - 1];
      EmittedHas(toWrite[..|toWrite| - 1], groups, w, a);
    }
  }

  lemma LeavesBeforeConcat(s: seq<nat>, t: seq<nat>, a: nat, b: nat)
    requires a in s && b in t
    ensures LeavesBefore(s + t, a, b)
  {
    var i :| 0 <= i < |s| && s[i] == a;
    var j :| 0 <= j < |t| && t[j] == b;
    assert (s + t)[i] == a && (s + t)[|s| + j] == b;
  }

  lemma LeavesBeforePart(s: seq<nat>, t: seq<nat>, a: nat, b: nat)
    requires LeavesBefore(s, a, b) || LeavesBefore(t, a, b)
    ensures LeavesBefore(s + t, a, b)
  {
    if LeavesBefore(s, a, b) {
      var i, j :| 0 <= i < j < |s| && s[i] == a && s[j] == b;
      assert (s + t)[i] == a && (s + t)[j] == b;
    } else {
      var i, j :| 0 <= i < j < |t| && t[i] == a && t[j] == b;
      assert (s + t)[|s| + i] == a && (s + t)[|s| + j] == b;
    }
  }

  /** The packets of an earlier buffer leave before those of a later one. */
  lemma {:induction false} EarlierBuffer(toWrite: seq<nat>, groups: map<nat, seq<nat>>, wa: nat, wb: nat, a: nat, b: nat)
    requires Rising(toWrite) && wa in toWrite && wb in toWrite && a in Group(groups, wa) && b in Group(groups, wb)
    requires wa < wb || (wa == wb && LeavesBefore(Group(groups, wa), a, b))
    ensures LeavesBefore(Emitted(toWrite, groups), a, b)
  {
    hide Group, Emitted, LeavesBefore, Rising;
    FrontOf(toWrite, wa);
    FrontOf(toWrite, wb);
    EmittedStep(toWrite, groups);
    var front, u := toWrite[..|toWrite| - 1], toWrite[|toWrite| - 1];
    if u == wb {
      if wa < wb {
        EmittedHas(front, groups, wa, a);
        LeavesBeforeConcat(Emitted(front, groups), Group(groups, u), a, b);
      } else {
        LeavesBeforePart(Emitted(front, groups), Group(groups, u), a, b);
      }
    } else {
      EarlierBuffer(front, groups, wa, wb, a, b);
      LeavesBeforePart(Emitted(front, groups), Group(groups, u), a, b);
    }
  }

  lemma NotBoth(s: seq<nat>, n: nat, a: nat, b: nat)
    requires multiset(s) == multiset(Range(n)) && a < n && b < n && a != b && LeavesBefore(s, a, b)
    ensures !LeavesBefore(s, b, a)
  {
    if LeavesBefore(s, b, a) {
      var i, j :| 0 <= i < j < |s| && s[i] == a && s[j] == b;
      var k, l :| 0 <= k < l < |s| && s[k] == b && s[l] == a;
      OnceEach(s, n, i, l);
      OnceEach(s, n, j, k);
    }
  }

  lemma OnceEach(s: seq<nat>, n: nat, i: nat, j: nat)
    requires multiset(s) == multiset(Range(n)) && i < |s| && j < |s| && s[i] == s[j]
    ensures i == j
  {
    if i != j {
      var lo, hi := if i < j then i else j, if i < j then j else i;
      assert s == s[..hi] + s[hi..] && s[lo] == s[..hi][lo] && s[hi..][0] == s[hi];
      assert multiset(s)[s[i]] == multiset(s[..hi])[s[i]] + multiset(s[hi..])[s[i]];
      assert s[i] in multiset(s[..hi]) && s[i] in multiset(s[hi..]);
      RangeOnce(n, s[i]);
    }
  }

  lemma {:induction false} RangeOnce(n: nat, x: nat)
    ensures multiset(Range(n))[x] == if x < n then 1 else 0
  {
    if n == 0 {
      assert Range(0) == [];
    } else {
      RangeOnce(n - 1, x);
      RangeGrows(n - 1);
    }
  }

  lemma GroupRises(v: UdpView, offset: nat, w: nat)
    requires Inv(v, offset) && w in v.toWrite
    ensures w in v.groups && Rising(v.groups[w]) && forall i :: 0 <= i < |v.groups[w]| ==> v.groups[w][i] < v.n
  {
    hide BufsOk, OrderOk, Udp, UdpTracks;
    assert HeadOf(v, w);
    if Udp(v.orig[w]).Some? {
      var key := Udp(v.orig[w]).value.key;
      var i :| 0 <= i < |v.table[key]| && v.table[key][i].bufsIndex == w;
      assert FlowOk(v, key);
      assert ItemOk(v, key, v.table[key][i]);
      PrefixRises(v.groups[w], v.n);
    }
  }

  lemma PrefixRises(g: seq<nat>, n: nat)
    requires Rising(g + [n])
    ensures Rising(g) && forall i :: 0 <= i < |g| ==> g[i] < n
  {
    forall i, j | 0 <= i < j < |g| ensures g[i] < g[j] {
      assert (g + [n])[i] < (g + [n])[j];
    }
    forall i | 0 <= i < |g| ensures g[i] < n {
      assert (g + [n])[i] < (g + [n])[|g|];
    }
  }

  /** Of two packets the one in the earlier buffer leaves first, and inside a buffer the one that came first. */
  lemma HomesDecide(v: UdpView, offset: nat, wa: nat, wb: nat, a: nat, b: nat)
    requires Inv(v, offset) && wa in v.toWrite && wb in v.toWrite && a < b
    requires wa in v.groups && wb in v.groups && a in v.groups[wa] && b in v.groups[wb]
    ensures LeavesBefore(Emitted(v.toWrite, v.groups), b, a) <==> wb < wa
  {
    Below(v, offset);
    GroupRises(v, offset, wa);
    GroupRises(v, offset, wb);
    hide BufsOk, TableOk, WriteOk, Emitted;
    if wb < wa {
      EarlierBuffer(v.toWrite, v.groups, wb, wa, b, a);
    } else {
      if wa == wb {
        InRisingOrder(v.groups[wa], a, b);
      }
      EarlierBuffer(v.toWrite, v.groups, wa, wb, a, b);
      NotBoth(Emitted(v.toWrite, v.groups), v.n, a, b);
    }
  }

  lemma InRisingOrder(g: seq<nat>, a: nat, b: nat)
    requires Rising(g) && a in g && b in g && a < b
    ensures LeavesBefore(g, a, b)
  {
    var i :| 0 <= i < |g| && g[i] == a;
    var j :| 0 <= j < |g| && g[j] == b;
    assert j < i ==> g[j] < g[i];
  }

  lemma ItemAt(v: UdpView, offset: nat, key: UdpKey, i: nat)
    requires Inv(v, offset) && i < |Items(v.table, key)|
    ensures ItemOk(v, key, Items(v.table, key)[i])
  {
    hide BufsOk, WriteOk, OrderOk, ItemOk;
    assert FlowOk(v, key);
  }
}
