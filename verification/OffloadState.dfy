/** The two tables of receive coalescing over one vector of packets: what the states of the two together say, and in
    which order the packets leave (wireguard/tun/offload_linux.go:865-896). */
module OffloadState {
  import opened InternetChecksum
  import opened Options
  import opened Gso
  import opened GroPackets
  import opened GroGroups
  import opened GroState
  import T = Gro
  import P = UdpPackets
  import O = UdpOrder
  import R = UdpRuns
  import U = UdpGro

  // ---------- picking buffers in order ----------

  /** The numbers below `n` that are in `s`, in order. */
  function Pick(n: nat, s: set<nat>): seq<nat> {
    if n == 0 then [] else Pick(n - 1, s) + if n - 1 in s then [n - 1] else []
  }

  lemma {:induction false} PickSame(n: nat, s: set<nat>, t: set<nat>)
    requires forall i: nat :: i < n ==> (i in s <==> i in t)
    ensures Pick(n, s) == Pick(n, t)
  {
    if n > 0 {
      PickSame(n - 1, s, t);
    }
  }

  ghost function Elems(w: seq<nat>): set<nat> {
    set x | x in w
  }

  lemma {:induction false} PickRising(n: nat, w: seq<nat>)
    requires O.Rising(w) && forall i :: 0 <= i < |w| ==> w[i] < n
    ensures Pick(n, Elems(w)) == w
  {
    hide O.Rising;
    if n == 0 {
      assert w == [];
    } else if n - 1 in w {
      LastOf(n, w);
      var front := w[..|w| - 1];
      PickRising(n - 1, front);
      PickSame(n - 1, Elems(w), Elems(front));
    } else {
      PickRising(n - 1, w);
    }
  }

  lemma AtMostLast(w: seq<nat>, k: nat)
    requires O.Rising(w) && k < |w|
    ensures w[k] <= w[|w| - 1]
  {
  }

  lemma LastOf(n: nat, w: seq<nat>)
    requires n > 0 && O.Rising(w) && (forall i :: 0 <= i < |w| ==> w[i] < n) && n - 1 in w
    ensures w != [] && w[|w| - 1] == n - 1 && w == w[..|w| - 1] + [n - 1] && O.Rising(w[..|w| - 1])
    ensures forall i :: 0 <= i < |w| - 1 ==> w[i] < n - 1
  {
    var k: nat :| k < |w| && w[k] == n - 1;
    var last := |w| - 1;
    AtMostLast(w, k);
    forall i | 0 <= i < last ensures w[i] < n - 1 {
      assert w[i] < w[last];
    }
  }

  /** What buffer `i` sends. */
  ghost function Part(s: set<nat>, groups: map<nat, seq<nat>>, i: nat): seq<nat> {
    if i in s then O.Group(groups, i) else []
  }

  /** All that the buffers below `n` send, in order. */
  ghost function Sent(n: nat, s: set<nat>, groups: map<nat, seq<nat>>): seq<nat> {
    if n == 0 then [] else Sent(n - 1, s, groups) + Part(s, groups, n - 1)
  }

  lemma {:induction false} SentIsEmitted(n: nat, s: set<nat>, groups: map<nat, seq<nat>>)
    ensures O.Emitted(Pick(n, s), groups) == Sent(n, s, groups)
  {
    hide O.Emitted, O.Group;
    if n == 0 {
      O.EmittedNone(groups);
    } else {
      SentIsEmitted(n - 1, s, groups);
      var before := Pick(n - 1, s);
      if n - 1 in s {
        O.EmittedStep(before + [n - 1], groups);
        assert (before + [n - 1])[..|before|] == before;
      } else {
        assert Pick(n, s) == before;
      }
    }
  }

  /** How often `x` is sent follows from how often each buffer sends it. */
  lemma {:induction false} SameCount(n: nat, s: set<nat>, g: map<nat, seq<nat>>, t: set<nat>, h: map<nat, seq<nat>>, x: nat)
    requires forall i: nat {:trigger Part(s, g, i)} :: i < n ==> multiset(Part(s, g, i))[x] == multiset(Part(t, h, i))[x]
    ensures multiset(Sent(n, s, g))[x] == multiset(Sent(n, t, h))[x]
  {
    hide Part;
    if n > 0 {
      SameCount(n - 1, s, g, t, h, x);
      assert multiset(Part(s, g, n - 1))[x] == multiset(Part(t, h, n - 1))[x];
    }
  }

  lemma {:induction false} SameFlow(n: nat, s: set<nat>, g: map<nat, seq<nat>>, t: set<nat>, h: map<nat, seq<nat>>, orig: seq<Bytes>, key: P.UdpKey)
    requires forall i: nat {:trigger Part(s, g, i)} :: i < n ==> O.Flow(Part(s, g, i), orig, key) == O.Flow(Part(t, h, i), orig, key)
    ensures O.Flow(Sent(n, s, g), orig, key) == O.Flow(Sent(n, t, h), orig, key)
  {
    hide Part, O.Flow;
    if n > 0 {
      SameFlow(n - 1, s, g, t, h, orig, key);
      assert O.Flow(Part(s, g, n - 1), orig, key) == O.Flow(Part(t, h, n - 1), orig, key);
      O.FlowConcat(Sent(n - 1, s, g), Part(s, g, n - 1), orig, key);
      O.FlowConcat(Sent(n - 1, t, h), Part(t, h, n - 1), orig, key);
    }
  }

  // ---------- the TCP side ----------

  ghost function TcpSet(tv: View): set<nat> {
    Elems(tv.toWrite)
  }

  ghost function UdpSet(uv: P.UdpView): set<nat> {
    Elems(uv.toWrite)
  }

  /** A buffer of the TCP run holds its own packet alone, or is that of a TCP packet and holds TCP packets. */
  lemma TcpMembers(tv: View, offset: nat, w: nat, x: nat)
    requires Inv(tv, offset) && w in tv.groups && x in tv.groups[w]
    ensures x < |tv.orig| && w < |tv.orig|
    ensures tv.groups[w] == [w] || (IsTcp(tv.orig[x]) && IsTcp(tv.orig[w]))
  {
    hide TableOk, WriteOk, PartitionOk, Contents, Alike, ParseTcp, IsTcpCandidate, IsTcp;
    assert GroupOk(tv, w);
    if w in tv.live {
      T.OwnBuffer(tv, offset, w);
      var k :| 0 <= k < |tv.groups[w]| && tv.groups[w][k] == x;
      assert PieceOk(tv.orig, tv.live[w], tv.groups[w], k);
      T.TcpIsTcp(tv.orig[x], tv.live[w].key.isV6);
    }
  }

  lemma TcpHome(tv: View, offset: nat, x: nat)
    requires Inv(tv, offset) && x < tv.n
    ensures x in tv.home && tv.home[x] in tv.groups && x in tv.groups[tv.home[x]] && tv.home[x] in tv.toWrite && tv.home[x] < tv.n
    ensures tv.n <= |tv.orig|
  {
    hide TableOk, GroupsOk;
  }

  /** Other packets are passed on. */
  lemma TcpPasses(tv: View, offset: nat, i: nat)
    requires Inv(tv, offset) && i < tv.n && i < |tv.orig| && !IsTcp(tv.orig[i])
    ensures i in tv.toWrite && i in tv.groups && tv.groups[i] == [i]
  {
    hide Inv, IsTcp;
    TcpHome(tv, offset, i);
    TcpMembers(tv, offset, tv.home[i], i);
  }

  lemma CountInGroup(tv: View, offset: nat, w: nat, x: nat)
    requires Inv(tv, offset) && x < tv.n
    ensures multiset(Part(TcpSet(tv), tv.groups, w))[x] == if x in tv.home && tv.home[x] == w then 1 else 0
  {
    hide TableOk, GroupsOk, BufsOk;
    if w in tv.toWrite {
      assert HomeOk(tv, w);
      OnceIn(tv.groups[w], x);
    }
  }

  lemma {:induction false} OnceIn(g: seq<nat>, x: nat)
    requires NoRepeats(g)
    ensures multiset(g)[x] == if x in g then 1 else 0
  {
    if g != [] {
      var front, last := g[..|g| - 1], g[|g| - 1];
      assert g == front + [last];
      assert NoRepeats(front) && last !in front;
      OnceIn(front, x);
    }
  }

  lemma {:induction false} TcpCount(tv: View, offset: nat, n: nat, x: nat)
    requires Inv(tv, offset) && x < tv.n
    ensures x in tv.home && multiset(Sent(n, TcpSet(tv), tv.groups))[x] == if tv.home[x] < n then 1 else 0
  {
    hide Inv, Part, TcpSet;
    TcpHome(tv, offset, x);
    if n > 0 {
      TcpCount(tv, offset, n - 1, x);
      CountInGroup(tv, offset, n - 1, x);
    }
  }

  lemma TcpWritten(tv: View, offset: nat)
    requires Inv(tv, offset)
    ensures O.Rising(tv.toWrite) && forall i :: 0 <= i < |tv.toWrite| ==> tv.toWrite[i] < tv.n
    ensures forall w :: w in tv.groups <==> w in tv.toWrite
  {
    hide TableOk, GroupsOk, PartitionOk, BufsOk;
    forall i | 0 <= i < |tv.toWrite| ensures tv.toWrite[i] < tv.n {
      assert tv.toWrite[i] in tv.toWrite;
    }
  }

  // ---------- the UDP side ----------

  lemma UdpMembers(uv: P.UdpView, offset: nat, w: nat, x: nat)
    requires O.Inv(uv, offset) && w in uv.groups && x in uv.groups[w]
    ensures x < |uv.orig| && w < |uv.orig|
    ensures uv.groups[w] == [w] || (IsUdp(uv.orig[x]) && IsUdp(uv.orig[w]))
  {
    O.Below(uv, offset);
    hide O.BufsOk, O.TableOk, O.OrderOk, P.Udp, IsUdp, P.UdpContents, O.Rising;
    assert O.HeadOf(uv, w);
    if P.Udp(uv.orig[w]).Some? {
      var key := P.Udp(uv.orig[w]).value.key;
      var i: nat :| i < |uv.table[key]| && uv.table[key][i].bufsIndex == w;
      O.ItemAt(uv, offset, key, i);
      U.OwnBuffer(uv, key, uv.table[key][i]);
      var k :| 0 <= k < |uv.groups[w]| && uv.groups[w][k] == x;
      assert P.UdpPieceOk(uv.orig, uv.table[key][i], uv.groups[w], k);
      U.TrackedIsUdp(uv.orig[x]);
    }
  }

  lemma UdpPasses(bufs: seq<Buf>, offset: nat, n: nat, i: nat)
    requires R.CapsOk(bufs, offset) && i < n <= |bufs| && !IsUdp(bufs[i].pkt)
    ensures var uv := R.RunOf(bufs, offset, n); i in uv.toWrite && i in uv.groups && uv.groups[i] == [i]
  {
    hide O.Inv, R.RunOf, IsUdp;
    U.NotUdp(bufs[i].pkt);
    R.PassedHome(bufs, offset, n, i);
    UdpMembers(R.RunOf(bufs, offset, n), offset, i, i);
  }

  // ---------- both together ----------

  /** `tv` and `uv` are the states of the two tables after the same packets of the vector `start`; with UDP coalescing
      off, the UDP table has seen none. */
  ghost predicate Joint(tv: View, uv: P.UdpView, canUdpGro: bool, offset: nat, start: seq<Buf>) {
    && R.CapsOk(start, offset) && Inv(tv, offset) && tv.n <= |start| && tv.orig == Start(start).orig
    && uv == R.RunOf(start, offset, if canUdpGro then tv.n else 0)
  }

  /** The buffers that are written: those that neither table has merged into another. */
  ghost function Both(tv: View, uv: P.UdpView, canUdpGro: bool): set<nat> {
    set w | w in tv.toWrite && (canUdpGro ==> w in uv.toWrite)
  }

  /** The packets that end up in buffer `w`. */
  ghost function JointGroup(tv: View, uv: P.UdpView, canUdpGro: bool, w: nat): seq<nat> {
    if canUdpGro && w < |tv.orig| && !IsTcp(tv.orig[w]) then O.Group(uv.groups, w) else O.Group(tv.groups, w)
  }

  ghost function JointGroups(tv: View, uv: P.UdpView, canUdpGro: bool): (g: map<nat, seq<nat>>)
    ensures forall w: nat {:trigger O.Group(g, w)} :: w < tv.n ==> O.Group(g, w) == JointGroup(tv, uv, canUdpGro, w)
  {
    map w: nat | w < tv.n :: JointGroup(tv, uv, canUdpGro, w)
  }

  lemma JointOrig(tv: View, uv: P.UdpView, canUdpGro: bool, offset: nat, start: seq<Buf>)
    requires Joint(tv, uv, canUdpGro, offset, start)
    ensures |tv.orig| == |start| && tv.orig == uv.orig && O.Inv(uv, offset) && (canUdpGro ==> uv.n == tv.n)
    ensures forall j :: 0 <= j < |start| ==> tv.orig[j] == start[j].pkt
  {
    hide Inv, O.Inv, R.RunOf;
    assert O.Start(start).orig == Start(start).orig;
  }

  /** Each buffer sends what it sends in the run of the table it belongs to, and itself in the other. */
  lemma JointPart(tv: View, uv: P.UdpView, canUdpGro: bool, offset: nat, start: seq<Buf>, i: nat)
    requires Joint(tv, uv, canUdpGro, offset, start) && i < tv.n
    ensures i < |tv.orig|
    ensures var part := Part(Both(tv, uv, canUdpGro), JointGroups(tv, uv, canUdpGro), i);
            var t, u := Part(TcpSet(tv), tv.groups, i), Part(UdpSet(uv), uv.groups, i);
            if IsTcp(tv.orig[i]) || !canUdpGro then part == t && (canUdpGro ==> u == [i]) else part == u && t == [i]
  {
    hide Inv, O.Inv, IsTcp, IsUdp, R.RunOf;
    JointOrig(tv, uv, canUdpGro, offset, start);
    assert O.Group(JointGroups(tv, uv, canUdpGro), i) == JointGroup(tv, uv, canUdpGro, i);
    if !IsTcp(tv.orig[i]) {
      TcpPasses(tv, offset, i);
    } else if canUdpGro {
      TcpIsNotUdp(tv.orig[i]);
      UdpPasses(start, offset, tv.n, i);
    }
  }

  lemma TcpIsNotUdp(b: Bytes)
    requires IsTcp(b)
    ensures !IsUdp(b)
  {
    CandidateKinds(b, true);
  }

  lemma PartMembers(tv: View, uv: P.UdpView, canUdpGro: bool, offset: nat, start: seq<Buf>, i: nat, x: nat)
    requires Joint(tv, uv, canUdpGro, offset, start) && i < |tv.orig|
    ensures x in Part(TcpSet(tv), tv.groups, i) ==> x < |tv.orig| && (x == i || (IsTcp(tv.orig[x]) && IsTcp(tv.orig[i])))
    ensures x in Part(UdpSet(uv), uv.groups, i) ==> x < |tv.orig| && (x == i || (!IsTcp(tv.orig[x]) && !IsTcp(tv.orig[i])))
  {
    hide Inv, O.Inv, IsTcp, IsUdp, R.RunOf;
    JointOrig(tv, uv, canUdpGro, offset, start);
    if x in Part(TcpSet(tv), tv.groups, i) {
      TcpMembers(tv, offset, i, x);
    }
    if x in Part(UdpSet(uv), uv.groups, i) {
      UdpMembers(uv, offset, i, x);
      if IsUdp(uv.orig[x]) && IsUdp(uv.orig[i]) {
        UdpIsNotTcp(uv.orig[x]);
        UdpIsNotTcp(uv.orig[i]);
      }
    }
  }

  lemma UdpIsNotTcp(b: Bytes)
    requires IsUdp(b)
    ensures !IsTcp(b)
  {
    CandidateKinds(b, true);
  }

  /** A packet is sent as often as in the run of its own table. */
  lemma PartCount(tv: View, uv: P.UdpView, canUdpGro: bool, offset: nat, start: seq<Buf>, i: nat, x: nat)
    requires Joint(tv, uv, canUdpGro, offset, start) && i < tv.n && x < |tv.orig|
    ensures var part := Part(Both(tv, uv, canUdpGro), JointGroups(tv, uv, canUdpGro), i);
            var other := if IsTcp(tv.orig[x]) || !canUdpGro then Part(TcpSet(tv), tv.groups, i) else Part(UdpSet(uv), uv.groups, i);
            multiset(part)[x] == multiset(other)[x]
  {
    hide Joint, IsTcp, Part, Both, JointGroups, TcpSet, UdpSet;
    JointPart(tv, uv, canUdpGro, offset, start, i);
    PartMembers(tv, uv, canUdpGro, offset, start, i, x);
  }

  lemma UdpCount(uv: P.UdpView, offset: nat, x: nat)
    requires O.Inv(uv, offset) && x < uv.n
    ensures multiset(Sent(uv.n, UdpSet(uv), uv.groups))[x] == 1
  {
    hide O.Inv, O.Emitted, UdpSet;
    UdpPicked(uv, offset);
    SentIsEmitted(uv.n, UdpSet(uv), uv.groups);
    O.OrderHolds(uv, offset, P.UdpKey([], [], 0, 0, false));
    O.RangeOnce(uv.n, x);
  }

  lemma CountAsTcp(tv: View, uv: P.UdpView, canUdpGro: bool, offset: nat, start: seq<Buf>, x: nat)
    requires Joint(tv, uv, canUdpGro, offset, start) && x < tv.n && x < |tv.orig| && (IsTcp(tv.orig[x]) || !canUdpGro)
    ensures multiset(Sent(tv.n, Both(tv, uv, canUdpGro), JointGroups(tv, uv, canUdpGro)))[x] == 1
  {
    hide Inv, R.RunOf, IsTcp, Both, JointGroups, TcpSet, Part, Sent;
    var s, g := Both(tv, uv, canUdpGro), JointGroups(tv, uv, canUdpGro);
    forall i: nat | i < tv.n ensures multiset(Part(s, g, i))[x] == multiset(Part(TcpSet(tv), tv.groups, i))[x] {
      PartCount(tv, uv, canUdpGro, offset, start, i, x);
    }
    SameCount(tv.n, s, g, TcpSet(tv), tv.groups, x);
    TcpHome(tv, offset, x);
    TcpCount(tv, offset, tv.n, x);
  }

  lemma CountAsUdp(tv: View, uv: P.UdpView, offset: nat, start: seq<Buf>, x: nat)
    requires Joint(tv, uv, true, offset, start) && x < tv.n && x < |tv.orig| && !IsTcp(tv.orig[x])
    ensures multiset(Sent(tv.n, Both(tv, uv, true), JointGroups(tv, uv, true)))[x] == 1
  {
    hide Joint, O.Inv, IsTcp, Both, JointGroups, UdpSet, Part, Sent;
    JointOrig(tv, uv, true, offset, start);
    var s, g := Both(tv, uv, true), JointGroups(tv, uv, true);
    forall i: nat | i < tv.n ensures multiset(Part(s, g, i))[x] == multiset(Part(UdpSet(uv), uv.groups, i))[x] {
      PartCount(tv, uv, true, offset, start, i, x);
    }
    SameCount(tv.n, s, g, UdpSet(uv), uv.groups, x);
    UdpCount(uv, offset, x);
  }

  /** Every packet leaves exactly once. */
  lemma EveryPacketOnce(tv: View, uv: P.UdpView, canUdpGro: bool, offset: nat, start: seq<Buf>, x: nat)
    requires Joint(tv, uv, canUdpGro, offset, start) && x < tv.n
    ensures multiset(O.Emitted(Pick(tv.n, Both(tv, uv, canUdpGro)), JointGroups(tv, uv, canUdpGro)))[x] == 1
  {
    hide Inv, R.RunOf, IsTcp, Both, JointGroups, Sent, O.Emitted;
    JointOrig(tv, uv, canUdpGro, offset, start);
    SentIsEmitted(tv.n, Both(tv, uv, canUdpGro), JointGroups(tv, uv, canUdpGro));
    if IsTcp(tv.orig[x]) || !canUdpGro {
      CountAsTcp(tv, uv, canUdpGro, offset, start, x);
    } else {
      CountAsUdp(tv, uv, offset, start, x);
    }
  }

  lemma NotInFlow(orig: seq<Bytes>, key: P.UdpKey, x: nat)
    requires x < |orig| && IsTcp(orig[x])
    ensures !O.InFlow(orig, key, x)
  {
    hide IsTcp, IsUdp, P.Udp;
    TcpIsNotUdp(orig[x]);
    U.NotUdp(orig[x]);
  }

  lemma PartFlow(tv: View, uv: P.UdpView, offset: nat, start: seq<Buf>, i: nat, key: P.UdpKey)
    requires Joint(tv, uv, true, offset, start) && i < tv.n
    ensures O.Flow(Part(Both(tv, uv, true), JointGroups(tv, uv, true), i), uv.orig, key) == O.Flow(Part(UdpSet(uv), uv.groups, i), uv.orig, key)
  {
    JointOrig(tv, uv, true, offset, start);
    hide Joint, IsTcp, Part, Both, JointGroups, TcpSet, UdpSet, O.Flow, O.InFlow, O.Inv;
    JointPart(tv, uv, true, offset, start, i);
    if IsTcp(tv.orig[i]) {
      var t := Part(TcpSet(tv), tv.groups, i);
      forall k | 0 <= k < |t| ensures !O.InFlow(uv.orig, key, t[k]) {
        PartMembers(tv, uv, true, offset, start, i, t[k]);
        NotInFlow(uv.orig, key, t[k]);
      }
      O.FlowNone(t, uv.orig, key);
      NotInFlow(uv.orig, key, i);
      O.FlowNone([i], uv.orig, key);
    }
  }

  /** With TCP packets in between, merged or not, the datagrams of every UDP flow still leave in the order in which they
      came. */
  lemma FlowsInOrder(tv: View, uv: P.UdpView, offset: nat, start: seq<Buf>, key: P.UdpKey)
    requires Joint(tv, uv, true, offset, start)
    ensures O.Flow(O.Emitted(Pick(tv.n, Both(tv, uv, true)), JointGroups(tv, uv, true)), tv.orig, key) == O.Flow(O.Range(tv.n), tv.orig, key)
  {
    JointOrig(tv, uv, true, offset, start);
    O.Below(uv, offset);
    O.OrderHolds(uv, offset, key);
    hide Joint, Both, JointGroups, UdpSet, Part, O.Flow, O.Emitted, O.Inv;
    var s, g := Both(tv, uv, true), JointGroups(tv, uv, true);
    SentIsEmitted(tv.n, s, g);
    SentIsEmitted(tv.n, UdpSet(uv), uv.groups);
    UdpPicked(uv, offset);
    forall i: nat | i < tv.n ensures O.Flow(Part(s, g, i), tv.orig, key) == O.Flow(Part(UdpSet(uv), uv.groups, i), tv.orig, key) {
      PartFlow(tv, uv, offset, start, i, key);
    }
    SameFlow(tv.n, s, g, UdpSet(uv), uv.groups, tv.orig, key);
  }

  lemma UdpPicked(uv: P.UdpView, offset: nat)
    requires O.Inv(uv, offset)
    ensures Pick(uv.n, UdpSet(uv)) == uv.toWrite
  {
    hide O.Inv;
    O.Below(uv, offset);
    PickRising(uv.n, uv.toWrite);
  }

  // ---------- while packets are handled ----------

  /** Packets that are for neither table are as they came. */
  ghost predicate Others(orig: seq<Bytes>, canUdpGro: bool, start: seq<Buf>, bufs: seq<Buf>) {
    && |bufs| == |start| == |orig|
    && forall j {:trigger bufs[j]} :: 0 <= j < |bufs| && !IsTcp(orig[j]) && !(canUdpGro && IsUdp(orig[j])) ==> bufs[j] == start[j]
  }

  /** `views` are the states of the TCP table before, between and after the packets. */
  ghost predicate History(views: seq<View>, tv: View, offset: nat, start: seq<Buf>) {
    && |views| == tv.n + 1 && views[0] == Start(start) && views[tv.n] == tv && T.IsRun(views, offset)
    && forall k {:trigger views[k]} :: 0 <= k < |views| ==> Inv(views[k], offset) && views[k].n == k && views[k].orig == tv.orig
  }

  /** Packet `w` was entered in a table. */
  ghost predicate Entered(views: seq<View>, orig: seq<Bytes>, canUdpGro: bool, w: nat) {
    && w < |orig| && w + 1 < |views|
    && if IsTcp(orig[w]) then w in views[w + 1].live else canUdpGro && P.Udp(orig[w]).Some?
  }

  /** A zero header has been written in front of the packets that are written and were not entered. */
  ghost predicate ZeroHeaders(views: seq<View>, orig: seq<Bytes>, canUdpGro: bool, toWrite: seq<nat>, vhdrs: map<nat, Option<VirtioNetHdr>>) {
    && (forall w {:trigger w in vhdrs} :: w in vhdrs <==> w in toWrite && !Entered(views, orig, canUdpGro, w))
    && (forall w {:trigger vhdrs[w]} :: w in vhdrs ==> vhdrs[w] == None)
  }

  ghost predicate Running(tv: View, uv: P.UdpView, canUdpGro: bool, offset: nat, start: seq<Buf>, views: seq<View>, toWrite: seq<nat>) {
    && Joint(tv, uv, canUdpGro, offset, start) && History(views, tv, offset, start)
    && toWrite == Pick(tv.n, Both(tv, uv, canUdpGro))
  }

  lemma Beginning(canUdpGro: bool, offset: nat, start: seq<Buf>)
    requires R.CapsOk(start, offset)
    ensures Running(Start(start), O.Start(start), canUdpGro, offset, start, [Start(start)], [])
  {
    StartInv(start, offset);
    O.StartInv(start, offset);
    R.RunStart(O.Start(start), offset);
    T.NoSteps(Start(start), offset);
  }

  /** The next packet is where it came. */
  lemma NextPacket(tv: View, uv: P.UdpView, canUdpGro: bool, offset: nat, start: seq<Buf>, bufs: seq<Buf>)
    requires Joint(tv, uv, canUdpGro, offset, start) && T.Shows(bufs, tv) && U.Shows(bufs, uv) && Others(tv.orig, canUdpGro, start, bufs)
    requires tv.n < |start|
    ensures |bufs| == |tv.orig| == |start| && bufs[tv.n].pkt == tv.orig[tv.n] && tv.orig == uv.orig && (canUdpGro ==> uv.n == tv.n)
  {
    hide Inv, O.Inv, R.RunOf, IsTcp, IsUdp;
    JointOrig(tv, uv, canUdpGro, offset, start);
    if IsTcp(tv.orig[tv.n]) {
      T.BufferIsPacket(tv, offset);
    } else if canUdpGro && IsUdp(tv.orig[tv.n]) {
      O.AtN(uv, offset);
    }
  }

  lemma ListedBelow(tv: View, uv: P.UdpView, canUdpGro: bool, offset: nat, start: seq<Buf>, views: seq<View>, toWrite: seq<nat>)
    requires Running(tv, uv, canUdpGro, offset, start, views, toWrite)
    ensures |views| == tv.n + 1 && forall w :: w in toWrite ==> w < tv.n
  {
    hide Joint, T.IsRun, Both;
    forall w | w in toWrite ensures w < tv.n {
      PickIn(tv.n, Both(tv, uv, canUdpGro), w);
    }
  }

  lemma TcpSparesUdp(orig: seq<Bytes>, uv: P.UdpView, canUdpGro: bool, start: seq<Buf>, before: seq<Buf>, after: seq<Buf>)
    requires T.Spares(orig, before, after) && U.Shows(before, uv) && uv.orig == orig && Others(orig, canUdpGro, start, before)
    ensures U.Shows(after, uv) && Others(orig, canUdpGro, start, after)
  {
    hide IsTcp, IsUdp;
    forall j {:trigger after[j]} | 0 <= j < |after| && IsUdp(orig[j]) ensures after[j] == before[j] {
      UdpIsNotTcp(orig[j]);
    }
  }

  lemma UdpSparesTcp(orig: seq<Bytes>, tv: View, start: seq<Buf>, before: seq<Buf>, after: seq<Buf>)
    requires U.Spares(orig, before, after) && T.Shows(before, tv) && tv.orig == orig && Others(orig, true, start, before)
    ensures T.Shows(after, tv) && Others(orig, true, start, after)
  {
    hide IsTcp, IsUdp;
    forall j {:trigger after[j]} | 0 <= j < |after| && IsTcp(orig[j]) ensures after[j] == before[j] {
      TcpIsNotUdp(orig[j]);
    }
  }

  /** What the next packet does to the list to write: it is added unless one of the tables has merged it. */
  ghost predicate Lists(before: seq<nat>, after: seq<nat>, n: nat, merged: bool) {
    after == if merged then before else before + [n]
  }

  lemma PickStep(tv: View, uv: P.UdpView, canUdpGro: bool, tv': View, uv': P.UdpView, byTcp: bool, byUdp: bool)
    requires tv'.n == tv.n + 1 && (forall w :: w in tv.toWrite ==> w < tv.n) && (canUdpGro ==> forall w :: w in uv.toWrite ==> w < tv.n)
    requires Lists(tv.toWrite, tv'.toWrite, tv.n, byTcp) && (canUdpGro ==> Lists(uv.toWrite, uv'.toWrite, tv.n, byUdp))
    ensures Lists(Pick(tv.n, Both(tv, uv, canUdpGro)), Pick(tv'.n, Both(tv', uv', canUdpGro)), tv.n, byTcp || (canUdpGro && byUdp))
  {
    PickSame(tv.n, Both(tv, uv, canUdpGro), Both(tv', uv', canUdpGro));
  }

  lemma BelowN(tv: View, uv: P.UdpView, canUdpGro: bool, offset: nat, start: seq<Buf>)
    requires Joint(tv, uv, canUdpGro, offset, start)
    ensures (forall w :: w in tv.toWrite ==> w < tv.n) && (canUdpGro ==> forall w :: w in uv.toWrite ==> w < tv.n)
  {
    JointOrig(tv, uv, canUdpGro, offset, start);
    hide Inv, O.Inv, R.RunOf;
    TcpWritten(tv, offset);
    O.Below(uv, offset);
  }

  lemma HistoryGrows(views: seq<View>, tv: View, offset: nat, start: seq<Buf>, tv': View)
    requires History(views, tv, offset, start) && T.Stepped(tv, tv', offset) && Inv(tv', offset) && tv'.n == tv.n + 1 && tv'.orig == tv.orig
    ensures History(views + [tv'], tv', offset, start)
  {
    hide Inv, T.Stepped, T.IsRun;
    T.RunGrows(views, offset, tv');
  }

  /** One more packet. */
  lemma RunningStep(tv: View, uv: P.UdpView, canUdpGro: bool, offset: nat, start: seq<Buf>, views: seq<View>, toWrite: seq<nat>,
                    tv': View, uv': P.UdpView, byTcp: bool, byUdp: bool)
    requires Running(tv, uv, canUdpGro, offset, start, views, toWrite) && tv.n < |start| && O.Inv(uv, offset)
    requires T.Stepped(tv, tv', offset) && Inv(tv', offset) && tv'.n == tv.n + 1 && tv'.orig == tv.orig
    requires if canUdpGro then uv.n < |uv.orig| && uv' == O.Next(uv, offset) else uv' == uv
    requires Lists(tv.toWrite, tv'.toWrite, tv.n, byTcp) && (canUdpGro ==> Lists(uv.toWrite, uv'.toWrite, tv.n, byUdp))
    ensures Running(tv', uv', canUdpGro, offset, start, views + [tv'], if byTcp || (canUdpGro && byUdp) then toWrite else toWrite + [tv.n])
  {
    hide Inv, O.Inv, R.RunOf, O.Next, T.Stepped, History, Both, Pick;
    BelowN(tv, uv, canUdpGro, offset, start);
    PickStep(tv, uv, canUdpGro, tv', uv', byTcp, byUdp);
    HistoryGrows(views, tv, offset, start, tv');
    if canUdpGro {
      R.RunOfStep(start, offset, tv.n);
    }
  }

  lemma HeadersStep(views: seq<View>, orig: seq<Bytes>, canUdpGro: bool, toWrite: seq<nat>, vhdrs: map<nat, Option<VirtioNetHdr>>,
                    n: nat, tv': View, result: GroResult)
    requires ZeroHeaders(views, orig, canUdpGro, toWrite, vhdrs) && |views| == n + 1 && n < |orig| && forall w :: w in toWrite ==> w < n
    requires (result == Noop ==> !Entered(views + [tv'], orig, canUdpGro, n)) && (result == TableInsert ==> Entered(views + [tv'], orig, canUdpGro, n))
    ensures ZeroHeaders(views + [tv'], orig, canUdpGro, if result == Coalesced then toWrite else toWrite + [n],
                        if result == Noop then vhdrs[n := None] else vhdrs)
  {
    hide IsTcp, P.Udp;
    forall w: nat | w < n ensures Entered(views + [tv'], orig, canUdpGro, w) == Entered(views, orig, canUdpGro, w) {
    }
  }

  // ---------- when all packets have been handled ----------

  /** Everything is ready to be written: items of either table are accounted for, other packets are as they came, with
      the headers written when they were handled. */
  ghost predicate Ready(tv: View, uv: P.UdpView, canUdpGro: bool, views: seq<View>, toWrite: seq<nat>, bufs: seq<Buf>,
                        vhdrs: map<nat, Option<VirtioNetHdr>>) {
    && |bufs| == |tv.bufs| == |tv.orig|
    && (forall w {:trigger w in tv.live} :: w in tv.live && w < |bufs| ==> T.AccountedAt(tv, w, bufs[w], vhdrs))
    && (forall item {:trigger U.Written(uv, item, bufs, vhdrs)} :: item in U.AllItems(uv.table) ==> U.Written(uv, item, bufs, vhdrs))
    && (forall w {:trigger w in toWrite} :: w in toWrite && w !in tv.live && !(canUdpGro && w < |tv.orig| && P.Udp(tv.orig[w]).Some?) ==>
          ReadyAsItCame(tv, canUdpGro, views, bufs, vhdrs, w))
  }

  ghost predicate ReadyAsItCame(tv: View, canUdpGro: bool, views: seq<View>, bufs: seq<Buf>, vhdrs: map<nat, Option<VirtioNetHdr>>, w: nat) {
    && w < |bufs| && w < |tv.orig| && bufs[w].pkt == tv.orig[w]
    && (w in vhdrs <==> !Entered(views, tv.orig, canUdpGro, w)) && (w in vhdrs ==> vhdrs[w] == None)
  }

  /** The accounting of the TCP table spares all other buffers. */
  lemma AccountedSpares(tv: View, offset: nat, before: seq<Buf>, after: seq<Buf>,
                        vhdrsBefore: map<nat, Option<VirtioNetHdr>>, vhdrs: map<nat, Option<VirtioNetHdr>>)
    requires Inv(tv, offset) && T.Shows(before, tv) && T.Accounted(tv, {}, before, after, vhdrsBefore, vhdrs)
    ensures T.Spares(tv.orig, before, after)
  {
    hide Inv, T.AccountedAt, IsTcp;
    forall j {:trigger after[j]} | 0 <= j < |after| && !IsTcp(tv.orig[j]) ensures after[j] == before[j] {
      if j in tv.live {
        T.OwnBuffer(tv, offset, j);
      }
    }
  }

  /** No item of the UDP table is in a buffer of the TCP table. */
  lemma TablesApart(tv: View, uv: P.UdpView, canUdpGro: bool, offset: nat, start: seq<Buf>, item: P.UdpItem)
    requires Joint(tv, uv, canUdpGro, offset, start) && item in U.AllItems(uv.table)
    ensures item.bufsIndex !in tv.live && item.bufsIndex < |tv.orig| && P.Udp(tv.orig[item.bufsIndex]).Some? && !IsTcp(tv.orig[item.bufsIndex])
    ensures canUdpGro && O.ItemOk(uv, item.key, item)
  {
    JointOrig(tv, uv, canUdpGro, offset, start);
    NoneYet(tv, uv, canUdpGro, offset, start);
    hide Inv, O.Inv, R.RunOf, IsTcp, IsUdp, P.Udp, O.ItemOk;
    var key :| key in uv.table && item in uv.table[key];
    var i: nat :| i < |uv.table[key]| && uv.table[key][i] == item;
    O.ItemAt(uv, offset, key, i);
    O.ItemIndex(uv, key, item);
    U.OwnBuffer(uv, key, item);
    UdpIsNotTcp(tv.orig[item.bufsIndex]);
    if item.bufsIndex in tv.live {
      T.OwnBuffer(tv, offset, item.bufsIndex);
    }
  }

  lemma NoneYet(tv: View, uv: P.UdpView, canUdpGro: bool, offset: nat, start: seq<Buf>)
    requires Joint(tv, uv, canUdpGro, offset, start)
    ensures !canUdpGro ==> uv == O.Start(start) && U.AllItems(uv.table) == {}
  {
    hide Inv, O.Inv;
    if !canUdpGro {
      O.StartInv(start, offset);
      R.RunStart(O.Start(start), offset);
    }
  }

  lemma SinglePacket(tv: View, uv: P.UdpView, canUdpGro: bool, offset: nat, start: seq<Buf>, toWrite: seq<nat>, bufs: seq<Buf>, w: nat)
    requires Joint(tv, uv, canUdpGro, offset, start) && toWrite == Pick(tv.n, Both(tv, uv, canUdpGro)) && w in toWrite && w !in tv.live
    requires T.Shows(bufs, tv) && U.Shows(bufs, uv) && Others(tv.orig, canUdpGro, start, bufs)
    requires !(canUdpGro && w < |tv.orig| && P.Udp(tv.orig[w]).Some?)
    ensures w < |bufs| == |tv.orig| && bufs[w].pkt == tv.orig[w]
  {
    PickIn(tv.n, Both(tv, uv, canUdpGro), w);
    JointOrig(tv, uv, canUdpGro, offset, start);
    hide Inv, O.Inv, R.RunOf, IsTcp, IsUdp, P.Udp, Pick;
    if IsTcp(tv.orig[w]) {
      T.SingleIsUntouched(tv, offset, w);
    } else if canUdpGro && IsUdp(tv.orig[w]) {
      PassedBuffer(uv, offset, w);
    }
  }

  lemma {:induction false} PickIn(n: nat, s: set<nat>, w: nat)
    ensures w in Pick(n, s) <==> w < n && w in s
  {
    if n > 0 {
      PickIn(n - 1, s, w);
    }
  }

  lemma PassedBuffer(uv: P.UdpView, offset: nat, w: nat)
    requires O.Inv(uv, offset) && w in uv.toWrite && w < |uv.orig| && P.Udp(uv.orig[w]).None?
    ensures w < |uv.bufs| && w in uv.groups && uv.groups[w] == [w] && uv.bufs[w].pkt == uv.orig[w]
  {
    hide O.BufsOk, O.TableOk, O.OrderOk, P.Udp, O.Rising;
    assert O.HeadOf(uv, w);
  }

  /** After the accounting of both tables everything is ready. */
  lemma NowReady(tv: View, uv: P.UdpView, canUdpGro: bool, offset: nat, start: seq<Buf>, views: seq<View>, toWrite: seq<nat>,
                 b0: seq<Buf>, h0: map<nat, Option<VirtioNetHdr>>, b1: seq<Buf>, h1: map<nat, Option<VirtioNetHdr>>,
                 b2: seq<Buf>, h2: map<nat, Option<VirtioNetHdr>>)
    requires Running(tv, uv, canUdpGro, offset, start, views, toWrite)
    requires T.Shows(b0, tv) && U.Shows(b0, uv) && Others(tv.orig, canUdpGro, start, b0) && ZeroHeaders(views, tv.orig, canUdpGro, toWrite, h0)
    requires T.Accounted(tv, {}, b0, b1, h0, h1) && U.Accounted(uv, U.AllItems(uv.table), {}, b1, b2, h1, h2)
    ensures Ready(tv, uv, canUdpGro, views, toWrite, b2, h2)
  {
    hide Inv, O.Inv, R.RunOf, IsTcp, IsUdp, P.Udp, T.AccountedAt, U.Written, T.IsRun, Pick, Both, Entered, U.In;
    forall w {:trigger w in tv.live} | w in tv.live && w < |b2| ensures T.AccountedAt(tv, w, b2[w], h2) {
      NotInUdp(tv, uv, canUdpGro, offset, start, w);
      assert T.AccountedAt(tv, w, b1[w], h1);
      StillAccounted(tv, w, b2[w], h1, h2);
    }
    forall w {:trigger w in toWrite} | w in toWrite && w !in tv.live && !(canUdpGro && w < |tv.orig| && P.Udp(tv.orig[w]).Some?)
      ensures ReadyAsItCame(tv, canUdpGro, views, b2, h2, w)
    {
      SinglePacket(tv, uv, canUdpGro, offset, start, toWrite, b0, w);
      NotTrackedNotIn(tv, uv, canUdpGro, offset, start, w);
      assert b2[w] == b1[w] == b0[w];
      assert (w in h2 <==> w in h1) && (w in h1 <==> w in h0);
    }
  }

  lemma NotInUdp(tv: View, uv: P.UdpView, canUdpGro: bool, offset: nat, start: seq<Buf>, w: nat)
    requires Joint(tv, uv, canUdpGro, offset, start) && w in tv.live
    ensures !U.In(U.AllItems(uv.table) - {}, w)
  {
    hide Joint, U.AllItems;
    if U.In(U.AllItems(uv.table) - {}, w) {
      var item :| item in U.AllItems(uv.table) - {} && item.bufsIndex == w;
      TablesApart(tv, uv, canUdpGro, offset, start, item);
    }
  }

  lemma NotTrackedNotIn(tv: View, uv: P.UdpView, canUdpGro: bool, offset: nat, start: seq<Buf>, w: nat)
    requires Joint(tv, uv, canUdpGro, offset, start) && !(canUdpGro && w < |tv.orig| && P.Udp(tv.orig[w]).Some?)
    ensures !U.In(U.AllItems(uv.table) - {}, w)
  {
    hide Joint, U.AllItems, P.Udp;
    if U.In(U.AllItems(uv.table) - {}, w) {
      var item :| item in U.AllItems(uv.table) - {} && item.bufsIndex == w;
      TablesApart(tv, uv, canUdpGro, offset, start, item);
    }
  }

  lemma StillAccounted(tv: View, w: nat, buf: Buf, h1: map<nat, Option<VirtioNetHdr>>, h2: map<nat, Option<VirtioNetHdr>>)
    requires w in tv.live && T.AccountedAt(tv, w, buf, h1) && (w in h1 ==> w in h2 && h2[w] == h1[w])
    ensures T.AccountedAt(tv, w, buf, h2)
  {
  }

  // ---------- what is written ----------

  ghost predicate TcpMerged(tv: View, w: nat) {
    w in tv.live && tv.live[w].numMerged > 0
  }

  /** Buffer `w` holds several datagrams. */
  ghost predicate UdpMerged(uv: P.UdpView, w: nat) {
    exists item :: item in U.AllItems(uv.table) && item.bufsIndex == w && item.numMerged > 0
  }

  /** The item of a written datagram. */
  lemma ItemOf(uv: P.UdpView, offset: nat, w: nat) returns (item: P.UdpItem)
    requires O.Inv(uv, offset) && w in uv.toWrite && w < |uv.orig| && P.Udp(uv.orig[w]).Some?
    ensures item in U.AllItems(uv.table) && item.bufsIndex == w && O.ItemOk(uv, item.key, item)
  {
    hide O.BufsOk, O.TableOk, O.OrderOk, P.Udp, O.Rising, O.ItemOk;
    assert O.HeadOf(uv, w);
    var key := P.Udp(uv.orig[w]).value.key;
    var i: nat :| i < |uv.table[key]| && uv.table[key][i].bufsIndex == w;
    item := uv.table[key][i];
    assert item in uv.table[key];
    O.ItemAt(uv, offset, key, i);
    O.ItemIndex(uv, key, item);
  }

  lemma SingleDatagram(uv: P.UdpView, item: P.UdpItem)
    requires O.ItemOk(uv, item.key, item) && item.numMerged == 0
    ensures item.bufsIndex < |uv.bufs| && item.bufsIndex < |uv.orig| && item.bufsIndex in uv.groups
    ensures uv.groups[item.bufsIndex] == [item.bufsIndex] && uv.bufs[item.bufsIndex].pkt == uv.orig[item.bufsIndex]
  {
    hide P.UdpTracks;
    var w := item.bufsIndex;
    P.TrackedShape(uv.orig, uv.bufs[w].pkt, uv.groups[w], item);
    P.UdpSingle(uv.orig, uv.bufs[w].pkt, uv.groups[w], item);
  }

  /** A written buffer into which nothing was merged holds its own packet, byte by byte. */
  lemma UnmergedIsUntouched(tv: View, uv: P.UdpView, canUdpGro: bool, offset: nat, start: seq<Buf>, views: seq<View>, toWrite: seq<nat>,
                            bufs: seq<Buf>, vhdrs: map<nat, Option<VirtioNetHdr>>, w: nat)
    requires Running(tv, uv, canUdpGro, offset, start, views, toWrite) && Ready(tv, uv, canUdpGro, views, toWrite, bufs, vhdrs)
    requires w in toWrite && !TcpMerged(tv, w) && !UdpMerged(uv, w)
    ensures w < |bufs| && w < |tv.orig| && bufs[w].pkt == tv.orig[w] && JointGroup(tv, uv, canUdpGro, w) == [w]
  {
    PickIn(tv.n, Both(tv, uv, canUdpGro), w);
    JointOrig(tv, uv, canUdpGro, offset, start);
    hide Inv, O.Inv, R.RunOf, IsTcp, IsUdp, P.Udp, T.IsRun, Pick, Entered, O.ItemOk;
    T.SingleIsUntouched(tv, offset, w);
    if canUdpGro && !IsTcp(tv.orig[w]) {
      if P.Udp(tv.orig[w]).Some? {
        var item := ItemOf(uv, offset, w);
        SingleDatagram(uv, item);
        assert U.Written(uv, item, bufs, vhdrs);
      } else {
        PassedBuffer(uv, offset, w);
        NotLive(tv, offset, w);
      }
    } else if canUdpGro {
      TcpNotTracked(tv.orig[w]);
    }
  }

  lemma TcpNotTracked(b: Bytes)
    requires IsTcp(b)
    ensures P.Udp(b).None?
  {
    hide IsTcp, IsUdp, P.Udp;
    TcpIsNotUdp(b);
    U.NotUdp(b);
  }

  lemma NotLive(tv: View, offset: nat, w: nat)
    requires Inv(tv, offset) && w < |tv.orig| && !IsTcp(tv.orig[w])
    ensures w !in tv.live
  {
    hide Inv, IsTcp;
    if w in tv.live {
      T.OwnBuffer(tv, offset, w);
    }
  }

  /** The packet was entered in the TCP table and dropped again, because its checksum was wrong when another
      packet could have been merged with it. */
  ghost predicate Dropped(tv: View, views: seq<View>, w: nat) {
    w < |tv.orig| && w + 1 < |views| && IsTcp(tv.orig[w]) && w in views[w + 1].live && w !in tv.live
  }

  /** A written buffer has a virtio header written in front of it if and only if it is not that of a dropped packet; the
      header is all zero if and only if nothing was merged into the buffer. */
  lemma HeaderWritten(tv: View, uv: P.UdpView, canUdpGro: bool, offset: nat, start: seq<Buf>, views: seq<View>, toWrite: seq<nat>,
                      bufs: seq<Buf>, vhdrs: map<nat, Option<VirtioNetHdr>>, w: nat)
    requires Running(tv, uv, canUdpGro, offset, start, views, toWrite) && Ready(tv, uv, canUdpGro, views, toWrite, bufs, vhdrs) && w in toWrite
    ensures w in vhdrs <==> !Dropped(tv, views, w)
    ensures w in vhdrs ==> (vhdrs[w].Some? <==> TcpMerged(tv, w) || UdpMerged(uv, w))
  {
    PickIn(tv.n, Both(tv, uv, canUdpGro), w);
    JointOrig(tv, uv, canUdpGro, offset, start);
    hide Inv, O.Inv, R.RunOf, IsTcp, IsUdp, P.Udp, T.IsRun, Pick, O.ItemOk;
    if w in tv.live {
      T.LiveItem(tv, offset, w);
      NotMergedTwice(tv, uv, canUdpGro, offset, start, w);
    } else if canUdpGro && P.Udp(tv.orig[w]).Some? {
      var item := ItemOf(uv, offset, w);
      assert U.Written(uv, item, bufs, vhdrs);
      OneItem(tv, uv, canUdpGro, offset, start, item);
      TablesApart(tv, uv, canUdpGro, offset, start, item);
    } else {
      NotTracked(tv, uv, canUdpGro, offset, start, w);
    }
  }

  lemma NotMergedTwice(tv: View, uv: P.UdpView, canUdpGro: bool, offset: nat, start: seq<Buf>, w: nat)
    requires Joint(tv, uv, canUdpGro, offset, start) && w in tv.live
    ensures !UdpMerged(uv, w)
  {
    hide Joint, U.AllItems;
    if UdpMerged(uv, w) {
      var item :| item in U.AllItems(uv.table) && item.bufsIndex == w && item.numMerged > 0;
      TablesApart(tv, uv, canUdpGro, offset, start, item);
    }
  }

  lemma NotTracked(tv: View, uv: P.UdpView, canUdpGro: bool, offset: nat, start: seq<Buf>, w: nat)
    requires Joint(tv, uv, canUdpGro, offset, start) && !(canUdpGro && w < |tv.orig| && P.Udp(tv.orig[w]).Some?)
    ensures !UdpMerged(uv, w)
  {
    hide Joint, U.AllItems, P.Udp;
    if UdpMerged(uv, w) {
      var item :| item in U.AllItems(uv.table) && item.bufsIndex == w && item.numMerged > 0;
      TablesApart(tv, uv, canUdpGro, offset, start, item);
    }
  }

  lemma OneItem(tv: View, uv: P.UdpView, canUdpGro: bool, offset: nat, start: seq<Buf>, item: P.UdpItem)
    requires Joint(tv, uv, canUdpGro, offset, start) && item in U.AllItems(uv.table)
    ensures UdpMerged(uv, item.bufsIndex) <==> item.numMerged > 0
  {
    JointOrig(tv, uv, canUdpGro, offset, start);
    hide Joint, O.Inv;
    if UdpMerged(uv, item.bufsIndex) {
      var other :| other in U.AllItems(uv.table) && other.bufsIndex == item.bufsIndex && other.numMerged > 0;
      U.SameBuffer(uv, offset, item, other);
    }
  }
}
