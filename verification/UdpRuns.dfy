/** Whole runs of UDP receive coalescing over a vector of packets: the order in which they leave, and who
    overtakes whom (wireguard/tun/offload_linux.go:786-892). */
module UdpRuns {
  import opened InternetChecksum
  import opened Options
  import opened Gso
  import opened GroPackets
  import opened GroGroups
  import opened UdpPackets
  import opened UdpOrder

  /** The state after the first `n` packets. */
  ghost function Run(v: UdpView, offset: nat, n: nat): (w: UdpView)
    requires Inv(v, offset) && v.n <= n <= |v.orig|
    ensures Inv(w, offset) && w.n == n && w.orig == v.orig
    decreases n - v.n
  {
    if v.n == n then v
    else
      NextInv(v, offset);
      Run(Next(v, offset), offset, n)
  }

  lemma {:induction false} RunStep(v: UdpView, offset: nat, n: nat)
    requires Inv(v, offset) && v.n <= n < |v.orig|
    ensures Run(v, offset, n + 1) == Next(Run(v, offset, n), offset)
    decreases n - v.n
  {
    hide Inv, Next;
    NextInv(v, offset);
    if v.n < n {
      RunStep(Next(v, offset), offset, n);
    }
  }

  lemma Lengths(v: UdpView, offset: nat)
    requires Inv(v, offset)
    ensures |v.bufs| == |v.orig| && v.n <= |v.orig|
  {
    hide TableOk, WriteOk, OrderOk;
  }

  lemma NextWrites(v: UdpView, offset: nat)
    requires Inv(v, offset) && v.n < |v.orig|
    ensures var w := Next(v, offset);
            && (w.toWrite == v.toWrite || w.toWrite == v.toWrite + [v.n])
            && (Udp(v.orig[v.n]).None? ==> w == PassOn(v) && w.bufs == v.bufs && w.table == v.table)
    ensures v.toWrite + [v.n] != v.toWrite
  {
    hide Inv, Udp, CanAppend, Outcome;
    AtN(v, offset);
    assert |v.toWrite + [v.n]| == |v.toWrite| + 1;
  }

  lemma NextIs(v: UdpView, offset: nat)
    requires Inv(v, offset) && v.n < |v.orig| && Udp(v.orig[v.n]).Some?
    ensures var m := Udp(v.orig[v.n]).value;
            if m.key !in v.table then Next(v, offset) == Enter(v, m, false)
            else
              && v.table[m.key] != []
              && var item := v.table[m.key][|v.table[m.key]| - 1];
                 && item.bufsIndex < |v.bufs| && item.gsoSize > 0 && item.numMerged < 0xFFFF && item.bufsIndex in v.groups && item.key == m.key
                 && v.n < |v.bufs|
                 && var head := v.bufs[item.bufsIndex];
                    var result := if CanAppend(v.orig[v.n], m, item, head.pkt) then Outcome(head, v.orig[v.n], item, offset) else InsufficientCap;
                    if result == CoalesceSuccess then Next(v, offset) == Append(v, item)
                    else Next(v, offset) == Enter(v, m, result == PktInvalidCsum)
  {
    hide Inv, Udp, CanAppend, Outcome, Enter, Append;
    AtN(v, offset);
    var m := Udp(v.orig[v.n]).value;
    if m.key in v.table {
      Last(v, offset, m.key);
    }
  }

  ghost predicate CapsOk(bufs: seq<Buf>, offset: nat) {
    forall j {:trigger bufs[j]} :: 0 <= j < |bufs| ==> offset + |bufs[j].pkt| <= bufs[j].cap <= 0xFFFF
  }

  /** The state after the first `n` packets of a vector. */
  ghost function RunOf(bufs: seq<Buf>, offset: nat, n: nat): (v: UdpView)
    requires CapsOk(bufs, offset) && n <= |bufs|
    ensures Inv(v, offset) && v.n == n && v.orig == Start(bufs).orig
  {
    StartInv(bufs, offset);
    Run(Start(bufs), offset, n)
  }

  lemma RunOfStep(bufs: seq<Buf>, offset: nat, n: nat)
    requires CapsOk(bufs, offset) && n < |bufs|
    ensures RunOf(bufs, offset, n + 1) == Next(RunOf(bufs, offset, n), offset)
  {
    hide Inv, Next, Run;
    StartInv(bufs, offset);
    RunStep(Start(bufs), offset, n);
  }

  /** After any packets, the datagrams of any flow, as they leave once merged packets are split, are those that came, in
      the order in which they came; and every packet leaves exactly once. */
  lemma FlowsInOrder(bufs: seq<Buf>, offset: nat, n: nat, key: UdpKey)
    requires CapsOk(bufs, offset) && n <= |bufs|
    ensures var v := RunOf(bufs, offset, n);
            && Flow(Emitted(v.toWrite, v.groups), v.orig, key) == Flow(Range(n), v.orig, key)
            && multiset(Emitted(v.toWrite, v.groups)) == multiset(Range(n))
  {
    hide Inv, Flow, Emitted, RunOf;
    OrderHolds(RunOf(bufs, offset, n), offset, key);
  }

  // ---------- who overtakes whom ----------

  /** What is written and what the buffers hold only grows. */
  ghost predicate Extends(v: UdpView, w: UdpView) {
    && (forall u :: u in v.toWrite ==> u in w.toWrite)
    && (forall u :: u in v.groups ==> u in w.groups && v.groups[u] <= w.groups[u])
  }

  lemma StillThere(v: UdpView, w: UdpView, u: nat, a: nat)
    requires Extends(v, w) && u in v.toWrite && u in v.groups && a in v.groups[u]
    ensures u in w.toWrite && u in w.groups && a in w.groups[u]
  {
    assert v.groups[u] <= w.groups[u];
    var k :| 0 <= k < |v.groups[u]| && v.groups[u][k] == a;
    assert w.groups[u][k] == a;
  }

  lemma NextExtends(v: UdpView, offset: nat)
    requires Inv(v, offset) && v.n < |v.orig|
    ensures Extends(v, Next(v, offset))
  {
    Below(v, offset);
    hide Inv, Udp, CanAppend, Outcome;
    NextWrites(v, offset);
    if Udp(v.orig[v.n]).Some? {
      NextIs(v, offset);
    }
  }

  lemma {:induction false} RunExtends(bufs: seq<Buf>, offset: nat, m: nat, n: nat)
    requires CapsOk(bufs, offset) && m <= n <= |bufs|
    ensures Extends(RunOf(bufs, offset, m), RunOf(bufs, offset, n))
    decreases n - m
  {
    hide Inv, RunOf, Next;
    if m < n {
      RunExtends(bufs, offset, m, n - 1);
      RunOfStep(bufs, offset, n - 1);
      NextExtends(RunOf(bufs, offset, n - 1), offset);
    }
  }

  /** Packet `v.n` is merged into an item whose buffer is before `w`: it is a datagram with a payload, the last item of
      its flow has an earlier buffer, and that item takes it. */
  ghost predicate MergesBefore(v: UdpView, offset: nat, w: nat)
    requires v.n < |v.orig|
  {
    var b := v.orig[v.n];
    && Udp(b).Some? && Udp(b).value.key in v.table && v.table[Udp(b).value.key] != []
    && var m := Udp(b).value;
       var item := v.table[m.key][|v.table[m.key]| - 1];
       && item.bufsIndex < w && item.bufsIndex < |v.bufs| && item.gsoSize > 0
       && CanAppend(b, m, item, v.bufs[item.bufsIndex].pkt) && Outcome(v.bufs[item.bufsIndex], b, item, offset) == CoalesceSuccess
  }

  lemma AppendHome(v: UdpView, item: UdpItem)
    requires item.key in v.table && v.table[item.key] != [] && item.bufsIndex < |v.bufs| && v.n < |v.bufs| && item.bufsIndex in v.groups
    requires item.numMerged < 0xFFFF
    ensures item.bufsIndex in Append(v, item).groups && v.n in Append(v, item).groups[item.bufsIndex] && Append(v, item).toWrite == v.toWrite
  {
    var g := v.groups[item.bufsIndex];
    assert (g + [v.n])[|g|] == v.n;
  }

  /** Where packet `v.n` goes. */
  lemma NextHome(v: UdpView, offset: nat, w: nat) returns (u: nat)
    requires Inv(v, offset) && v.n < |v.orig| && w < v.n
    ensures var t := Next(v, offset); u in t.toWrite && u in t.groups && v.n in t.groups[u]
    ensures u < w <==> MergesBefore(v, offset, w)
  {
    hide Inv, Udp, CanAppend, Outcome, Next, Append;
    Below(v, offset);
    NextWrites(v, offset);
    u := v.n;
    if Udp(v.orig[v.n]).Some? {
      NextIs(v, offset);
      var m := Udp(v.orig[v.n]).value;
      if m.key in v.table {
        var item := v.table[m.key][|v.table[m.key]| - 1];
        if CanAppend(v.orig[v.n], m, item, v.bufs[item.bufsIndex].pkt) && Outcome(v.bufs[item.bufsIndex], v.orig[v.n], item, offset) == CoalesceSuccess {
          u := item.bufsIndex;
          AppendHome(v, item);
        }
      }
    }
  }

  /** Packet `b` overtakes the earlier packet `a`, which was put into buffer `wa`, if and only if, when `b` comes, it is
      merged into an item with a buffer before `wa`. */
  lemma OvertakesBuffer(bufs: seq<Buf>, offset: nat, n: nat, a: nat, b: nat, wa: nat)
    requires CapsOk(bufs, offset) && a < b < n <= |bufs|
    requires var v := RunOf(bufs, offset, b); wa in v.toWrite && wa in v.groups && a in v.groups[wa]
    ensures var t := RunOf(bufs, offset, n);
            LeavesBefore(Emitted(t.toWrite, t.groups), b, a) <==> MergesBefore(RunOf(bufs, offset, b), offset, wa)
  {
    hide Inv, RunOf, Next, MergesBefore, LeavesBefore, Emitted, Extends;
    var v, t := RunOf(bufs, offset, b), RunOf(bufs, offset, n);
    Below(v, offset);
    var wb := NextHome(v, offset, wa);
    RunOfStep(bufs, offset, b);
    RunExtends(bufs, offset, b, n);
    RunExtends(bufs, offset, b + 1, n);
    StillThere(v, t, wa, a);
    StillThere(Next(v, offset), t, wb, b);
    HomesDecide(t, offset, wa, wb, a, b);
  }

  lemma PassedHome(bufs: seq<Buf>, offset: nat, n: nat, a: nat)
    requires CapsOk(bufs, offset) && a < n <= |bufs| && Udp(bufs[a].pkt).None?
    ensures var v := RunOf(bufs, offset, n); a in v.toWrite && a in v.groups && a in v.groups[a]
  {
    hide Inv, RunOf, Next, Udp;
    var v := RunOf(bufs, offset, a);
    NextWrites(v, offset);
    RunOfStep(bufs, offset, a);
    RunExtends(bufs, offset, a + 1, n);
    StillThere(PassOn(v), RunOf(bufs, offset, n), a, a);
  }

  /** A packet that is not tracked, such as a datagram without payload, is overtaken by a later one if and only if that
      is a datagram that, when it comes, joins the last item of its flow and that item's buffer is an earlier one. */
  lemma OvertakesIff(bufs: seq<Buf>, offset: nat, n: nat, a: nat, b: nat)
    requires CapsOk(bufs, offset) && a < b < n <= |bufs| && Udp(bufs[a].pkt).None?
    ensures var t := RunOf(bufs, offset, n);
            LeavesBefore(Emitted(t.toWrite, t.groups), b, a) <==> MergesBefore(RunOf(bufs, offset, b), offset, a)
  {
    hide Inv, RunOf, MergesBefore, LeavesBefore, Emitted, Udp;
    PassedHome(bufs, offset, b, a);
    OvertakesBuffer(bufs, offset, n, a, b, a);
  }

  // ---------- an empty datagram is overtaken ----------

  const ONE_BYTE: Bytes :=
    [0x45, 0, 0, 29, 0, 0, 0, 0, 64, 17, 0, 0, 10, 0, 0, 1, 10, 0, 0, 2, 0, 1, 0, 2, 0, 9, 0xE4, 0xD6, 7]

  const NO_BYTES: Bytes :=
    [0x45, 0, 0, 28, 0, 0, 0, 0, 64, 17, 0, 0, 10, 0, 0, 1, 10, 0, 0, 2, 0, 1, 0, 2, 0, 8, 0, 0]

  lemma OneByteIsUdp()
    ensures |ONE_BYTE| == 29 && Udp(ONE_BYTE).Some? && Udp(ONE_BYTE).value.gsoSize == 1 && Udp(ONE_BYTE).value.iphLen == 20
    ensures !Udp(ONE_BYTE).value.key.isV6
  {
  }

  lemma NoBytesIsNot()
    ensures Udp(NO_BYTES).None?
  {
  }

  const ONE_BYTE_SEGMENT: Bytes := [0, 1, 0, 2, 0, 9, 0xE4, 0xD6, 7]

  lemma OneByteParts()
    ensures |ONE_BYTE| == 29 && SrcAddr(ONE_BYTE, false) == [10, 0, 0, 1] && DstAddr(ONE_BYTE, false) == [10, 0, 0, 2]
    ensures ONE_BYTE[20..] == ONE_BYTE_SEGMENT
  {
    var ip: Bytes := [0x45, 0, 0, 29, 0, 0, 0, 0, 64, 17, 0, 0];
    var src: Bytes, dst: Bytes := [10, 0, 0, 1], [10, 0, 0, 2];
    assert ONE_BYTE == ip + src + dst + ONE_BYTE_SEGMENT;
  }

  lemma FourBytes(a: Byte, b: Byte, c: Byte, d: Byte, rest: Bytes)
    ensures Sum32([a, b, c, d] + rest) == ((a as int * 256 + b as int) * 256 + c as int) * 256 + d as int + Sum32(rest)
  {
    assert ([a, b, c, d] + rest)[4..] == rest;
  }

  lemma OneByteSum()
    ensures Sum32(ONE_BYTE_SEGMENT) == 0xA_EBD8
  {
    hide Sum32;
    var tail: Bytes := [7];
    FourBytes(0, 9, 0xE4, 0xD6, tail);
    FourBytes(0, 1, 0, 2, [0, 9, 0xE4, 0xD6] + tail);
    assert ONE_BYTE_SEGMENT == [0, 1, 0, 2] + ([0, 9, 0xE4, 0xD6] + tail);
    OneLeft(7);
  }

  lemma OneLeft(a: Byte)
    ensures Sum32([a]) == a as int * 256 && Sum32([]) == 0
  {
  }

  lemma OneByteIntact()
    ensures Intact(ONE_BYTE, false)
  {
    hide Sum32, SrcAddr, DstAddr;
    OneByteParts();
    OneByteSum();
    OneLeft(0);
    FourBytes(10, 0, 0, 1, []);
    FourBytes(10, 0, 0, 2, []);
    var src: Bytes, dst: Bytes := [10, 0, 0, 1], [10, 0, 0, 2];
    assert src == [10, 0, 0, 1] + [] && dst == [10, 0, 0, 2] + [];
    assert PseudoSum(IPPROTO_UDP, src, dst, 9) == 0x1400_001D;
  }

  /** An empty datagram is passed on, and a later one of the same flow is merged into one that came before it. */
  lemma EmptyOvertaken()
    ensures var bufs := [Buf(ONE_BYTE, 2000), Buf(NO_BYTES, 2000), Buf(ONE_BYTE, 2000)];
            && Inv(Start(bufs), 10)
            && var v := Run(Start(bufs), 10, 3);
               Emitted(v.toWrite, v.groups) == [0, 2, 1]
  {
    hide Udp, Inv, Outcome, CanAppend, ParseUdp, Next, Run, Emitted, Payload;
    OneByteIsUdp();
    NoBytesIsNot();
    assert |NO_BYTES| == 28;
    var bufs := [Buf(ONE_BYTE, 2000), Buf(NO_BYTES, 2000), Buf(ONE_BYTE, 2000)];
    var m := Udp(ONE_BYTE).value;
    var item := UdpItem(m.key, 0, 0, 1, 20, false);
    var v0 := Start(bufs);
    StartInv(bufs, 10);
    var v1 := UdpView(v0.orig, bufs, map[m.key := [item]], [0], map[0 := [0]], 1);
    NextIs(v0, 10);
    NextInv(v0, 10);
    assert Enter(v0, m, false) == v1 by {
      assert Items(v0.table, m.key) + [item] == [item];
    }
    var v2 := UdpView(v0.orig, bufs, map[m.key := [item]], [0, 1], map[0 := [0], 1 := [1]], 2);
    NextWrites(v1, 10);
    NextInv(v1, 10);
    assert PassOn(v1) == v2;
    OneByteJoins(item, m);
    NextIs(v2, 10);
    RunStep(v0, 10, 0);
    RunStep(v0, 10, 1);
    RunStep(v0, 10, 2);
    RunStart(v0, 10);
    ThreeEmitted(Append(v2, item).groups);
  }

  lemma RunStart(v: UdpView, offset: nat)
    requires Inv(v, offset)
    ensures v.n <= |v.orig| && Run(v, offset, v.n) == v
  {
    Lengths(v, offset);
  }

  lemma ThreeEmitted(groups: map<nat, seq<nat>>)
    requires 0 in groups && 1 in groups && groups[0] == [0] + [2] && groups[1] == [1]
    ensures Emitted([0, 1], groups) == [0, 2, 1]
  {
    var both: seq<nat>, first: seq<nat> := [0, 1], [0];
    EmittedStep(both, groups);
    EmittedStep(first, groups);
    assert both[..1] == first && first[..0] == [] && Emitted(first[..0], groups) == [];
    assert groups[0] + groups[1] == [0, 2, 1];
  }

  lemma OneByteJoins(item: UdpItem, m: UdpMeta)
    requires Udp(ONE_BYTE) == Some(m) && item == UdpItem(m.key, 0, 0, 1, 20, false)
    ensures CanAppend(ONE_BYTE, m, item, ONE_BYTE) && Outcome(Buf(ONE_BYTE, 2000), ONE_BYTE, item, 10) == CoalesceSuccess
  {
    hide Udp, Intact;
    OneByteIsUdp();
    OneByteIntact();
  }
}
