/** What the trie means: a routing table from prefixes to peers. A prefix is an address family
    and a bit string; the walk of `lookup` and `nodePlacement` meets exactly the nodes whose
    prefix covers the address (wireguard/device/allowedips.go:88-99, 191-205). */
module TrieRoutes {
  import opened IpBits
  import opened Trie

  datatype Prefix = Prefix(v6: bool, path: seq<bool>)

  type Routes = map<Prefix, Peer>

  ghost function AllBits(ip: Ip): (addr: seq<bool>)
    ensures |addr| == 8 * |ip|
  {
    Take(ip, 8 * |ip|)
  }

  ghost predicate Covers(k: Prefix, ip: Ip) {
    k.v6 == (|ip| == IPV6_LEN) && k.path <= AllBits(ip)
  }

  /** `peer` is what the plain longest-prefix match over `routes` answers; null for no match. */
  ghost predicate IsLongestMatch(routes: Routes, ip: Ip, peer: Peer?) {
    if peer == null then forall k :: k in routes ==> !Covers(k, ip)
    else exists k :: k in routes && IsBest(routes, ip, k) && routes[k] == peer
  }

  ghost predicate IsBest(routes: Routes, ip: Ip, k: Prefix) {
    Covers(k, ip) && forall other :: other in routes && Covers(other, ip) ==> |other.path| <= |k.path|
  }

  /** Longest-prefix match has one answer. */
  lemma LongestMatchUnique(routes: Routes, ip: Ip, p: Peer?, q: Peer?)
    requires IsLongestMatch(routes, ip, p) && IsLongestMatch(routes, ip, q)
    ensures p == q
  {
    if p != null && q != null {
      var k :| k in routes && IsBest(routes, ip, k) && routes[k] == p;
      var l :| l in routes && IsBest(routes, ip, l) && routes[l] == q;
      assert k.path == l.path;
      assert k == l;
    }
  }

  ghost function KeyOf(n: TrieEntry): Prefix {
    Prefix(|n.bits| == IPV6_LEN, n.path)
  }

  /** The nodes that carry a peer. */
  ghost function PeerMap(s: State): map<TrieEntry, Peer?> {
    map n | n in s.cells && s.cells[n].peer != null :: if n in s.cells then s.cells[n].peer else null
  }

  ghost predicate Represents(carried: map<TrieEntry, Peer?>, routes: Routes) {
    && (forall n {:trigger KeyOf(n)} :: n in carried ==> KeyOf(n) in routes && routes[KeyOf(n)] == carried[n])
    && (forall k :: k in routes ==> Carried(carried, k))
  }

  ghost predicate Carried(carried: map<TrieEntry, Peer?>, k: Prefix) {
    exists n {:trigger KeyOf(n)} :: n in carried && KeyOf(n) == k
  }

  // ---------- the walk ----------

  lemma ChildBelow(s: State, n: TrieEntry, bit: bool)
    requires UpOk(s) && DownOk(s) && n in s.cells
    ensures var c := s.cells[n].child.Get(bit);
            c != null ==> c in s.cells && Below(n, bit, c) && s.cells[c].parent == ChildSlot(n, bit)
  {
    assert Holds(s, ChildSlot(n, bit));
    var c := s.cells[n].child.Get(bit);
    if c != null {
      assert Linked(s, c);
    }
  }

  /** The nodes met from `n` downward when following `addr`. */
  ghost function Walk(s: State, n: TrieEntry?, addr: seq<bool>, len: nat): seq<TrieEntry>
    requires UpOk(s) && DownOk(s) && |addr| == 8 * len
    requires n != null ==> n in s.cells && |n.bits| == len
    decreases if n == null || |n.path| > |addr| then 0 else 1 + |addr| - |n.path|
  {
    if n == null || !(n.path <= addr) then []
    else if |n.path| == |addr| then [n]
    else
      ChildBelow(s, n, addr[|n.path|]);
      [n] + Walk(s, s.cells[n].child.Get(addr[|n.path|]), addr, len)
  }

  /** The walk stays in the trie, meets only covering nodes, and goes strictly deeper. */
  lemma {:induction false} WalkSound(s: State, n: TrieEntry?, addr: seq<bool>, len: nat)
    requires UpOk(s) && DownOk(s) && |addr| == 8 * len
    requires n != null ==> n in s.cells && |n.bits| == len
    ensures forall m :: m in Walk(s, n, addr, len) ==>
              m in s.cells && |m.bits| == len && n != null && |n.path| <= |m.path| && m.path <= addr
    ensures forall a, b :: a in Walk(s, n, addr, len) && b in Walk(s, n, addr, len) && a.path == b.path ==> a == b
    decreases if n == null || |n.path| > |addr| then 0 else 1 + |addr| - |n.path|
  {
    if n != null && n.path <= addr && |n.path| < |addr| {
      ChildBelow(s, n, addr[|n.path|]);
      WalkSound(s, s.cells[n].child.Get(addr[|n.path|]), addr, len);
    }
  }

  lemma {:induction false} WalkFollows(s: State, n: TrieEntry?, addr: seq<bool>, len: nat, p: TrieEntry)
    requires UpOk(s) && DownOk(s) && |addr| == 8 * len
    requires n != null ==> n in s.cells && |n.bits| == len
    requires p in Walk(s, n, addr, len) && |p.path| < |addr| && p in s.cells
    ensures var c := s.cells[p].child.Get(addr[|p.path|]);
            c != null && c.path <= addr ==> c in Walk(s, n, addr, len)
    decreases if n == null || |n.path| > |addr| then 0 else 1 + |addr| - |n.path|
  {
    ChildBelow(s, n, addr[|n.path|]);
    if p != n {
      WalkFollows(s, s.cells[n].child.Get(addr[|n.path|]), addr, len, p);
    }
  }

  /** Every node that covers the address is on the walk from the root. */
  lemma {:induction false} WalkComplete(s: State, v6: bool, addr: seq<bool>, len: nat, m: TrieEntry)
    requires UpOk(s) && DownOk(s) && |addr| == 8 * len && len == (if v6 then IPV6_LEN else IPV4_LEN)
    requires m in s.cells && |m.bits| == len && m.path <= addr
    ensures RootFits(s, v6) && m in Walk(s, s.Root(v6), addr, len)
    decreases |m.path|
  {
    RootOk(s, v6);
    assert Linked(s, m);
    var up := s.cells[m].parent;
    if up.ChildSlot? {
      WalkComplete(s, v6, addr, len, up.node);
      WalkFollows(s, s.Root(v6), addr, len, up.node);
    }
  }

  ghost predicate RootFits(s: State, v6: bool) {
    var r := s.Root(v6);
    r != null ==> r in s.cells && |r.bits| == if v6 then IPV6_LEN else IPV4_LEN
  }

  lemma RootOk(s: State, v6: bool)
    requires UpOk(s) && DownOk(s)
    ensures RootFits(s, v6)
  {
    assert Holds(s, RootSlot(v6));
    if s.Root(v6) != null {
      assert Linked(s, s.Root(v6));
    }
  }

  /** No two nodes of a trie carry the same prefix. */
  lemma UniqueKey(s: State, a: TrieEntry, b: TrieEntry)
    requires UpOk(s) && DownOk(s) && a in s.cells && b in s.cells && KeyOf(a) == KeyOf(b)
    ensures a == b
  {
    assert WellFormed(a) && WellFormed(b);
    var v6 := |a.bits| == IPV6_LEN;
    var addr := AllBits(a.bits);
    assert a.path <= addr;
    WalkComplete(s, v6, addr, |a.bits|, a);
    WalkComplete(s, v6, addr, |a.bits|, b);
    WalkSound(s, s.Root(v6), addr, |a.bits|);
  }

  lemma RepresentsSet(t: State, carried: map<TrieEntry, Peer?>, routes: Routes, n: TrieEntry, peer: Peer)
    requires UpOk(t) && DownOk(t) && PeerMap(t) == carried[n := peer]
    requires Represents(carried, routes)
    ensures Represents(PeerMap(t), routes[KeyOf(n) := peer])
  {
    var routes' := routes[KeyOf(n) := peer];
    assert n in PeerMap(t);
    forall m | m in PeerMap(t)
      ensures KeyOf(m) in routes' && routes'[KeyOf(m)] == PeerMap(t)[m]
    {
      if KeyOf(m) == KeyOf(n) {
        UniqueKey(t, m, n);
      }
    }
    forall k | k in routes'
      ensures Carried(PeerMap(t), k)
    {
      if k != KeyOf(n) {
        var m :| m in carried && KeyOf(m) == k;
        assert m in PeerMap(t);
      } else {
        assert n in PeerMap(t);
      }
    }
  }

  lemma RepresentsClear(s: State, carried: map<TrieEntry, Peer?>, routes: Routes, n: TrieEntry)
    requires UpOk(s) && DownOk(s) && PeerMap(s) == carried && n in carried
    requires Represents(carried, routes)
    ensures Represents(carried - {n}, routes - {KeyOf(n)})
  {
    forall m | m in carried - {n}
      ensures KeyOf(m) in routes - {KeyOf(n)}
    {
      if KeyOf(m) == KeyOf(n) {
        UniqueKey(s, m, n);
      }
    }
    forall k | k in routes - {KeyOf(n)}
      ensures Carried(carried - {n}, k)
    {
      var m :| m in carried && KeyOf(m) == k;
      assert m in carried - {n};
    }
  }

  /** Below every node of a well-shaped trie there is one that carries a peer. */
  lemma {:induction false} SomePeerBelow(s: State, n: TrieEntry) returns (m: TrieEntry)
    requires Shape(s, null) && n in s.cells
    ensures m in PeerMap(s)
    decreases 8 * |n.bits| - |n.path|
  {
    if s.cells[n].peer != null {
      m := n;
    } else {
      assert Useful(s.cells[n]);
      ChildBelow(s, n, false);
      assert WellFormed(s.cells[n].child.zero);
      m := SomePeerBelow(s, s.cells[n].child.zero);
    }
  }

  /** A trie without routes has no nodes left, and both roots are nil. */
  lemma NoRoutesNoNodes(s: State, routes: Routes)
    requires Shape(s, null) && Represents(PeerMap(s), routes) && routes == map[]
    ensures s == State(map[], null, null)
  {
    if n :| n in s.cells {
      var m := SomePeerBelow(s, n);
      var k := KeyOf(m);
      assert false;
    }
    RootOk(s, false);
    RootOk(s, true);
  }

  /** Longest-prefix match read off a walk: `found` is the deepest peer among the visited nodes,
      and the visited nodes are all that cover the address. */
  lemma DeepestIsLongest(s: State, routes: Routes, ip: Ip, best: TrieEntry?)
    requires IsIp(ip) && Shape(s, null) && Represents(PeerMap(s), routes)
    requires best != null ==> best in PeerMap(s) && |best.bits| == |ip| && best.path <= AllBits(ip)
    requires forall m :: m in PeerMap(s) && |m.bits| == |ip| && m.path <= AllBits(ip) ==> best != null && |m.path| <= |best.path|
    ensures IsLongestMatch(routes, ip, if best == null then null else PeerMap(s)[best])
  {
    forall k | k in routes && Covers(k, ip)
      ensures best != null && |k.path| <= |best.path|
    {
      var m :| m in PeerMap(s) && KeyOf(m) == k;
      assert WellFormed(m);
    }
    if best != null {
      assert KeyOf(best) in routes && IsBest(routes, ip, KeyOf(best));
    }
  }

  /** The loop state of `lookup`: `visited` is the walk so far, `node` is where it goes on, and
      `best` is the deepest visited node with a peer. */
  ghost predicate Visiting(s: State, ip: Ip, visited: seq<TrieEntry>, node: TrieEntry?, best: TrieEntry?)
    requires UpOk(s) && DownOk(s) && RootFits(s, |ip| == IPV6_LEN) && IsIp(ip)
  {
    var addr := AllBits(ip);
    && (node != null ==> node in s.cells && |node.bits| == |ip|)
    && Walk(s, s.Root(|ip| == IPV6_LEN), addr, |ip|) == visited + Walk(s, node, addr, |ip|)
    && (best != null ==> best in visited)
    && (forall m :: m in visited ==>
          m in s.cells && |m.bits| == |ip| && m.path <= addr && (node != null ==> |m.path| < |node.path|))
    && (best != null ==> s.cells[best].peer != null)
    && (forall m :: m in visited && s.cells[m].peer != null ==> best != null && |m.path| <= |best.path|)
  }

  lemma VisitStep(s: State, ip: Ip, visited: seq<TrieEntry>, node: TrieEntry, best: TrieEntry?)
    requires UpOk(s) && DownOk(s) && RootFits(s, |ip| == IPV6_LEN) && IsIp(ip)
    requires Visiting(s, ip, visited, node, best) && node.path <= AllBits(ip)
    ensures var best' := if s.cells[node].peer != null then node else best;
            if |node.path| == 8 * |ip| then Visiting(s, ip, visited + [node], null, best')
            else Visiting(s, ip, visited + [node], s.cells[node].child.Get(AllBits(ip)[|node.path|]), best')
  {
    if |node.path| < 8 * |ip| {
      ChildBelow(s, node, AllBits(ip)[|node.path|]);
    }
  }

  lemma VisitEnd(s: State, routes: Routes, ip: Ip, visited: seq<TrieEntry>, node: TrieEntry?, best: TrieEntry?)
    requires Shape(s, null) && RootFits(s, |ip| == IPV6_LEN) && IsIp(ip) && Represents(PeerMap(s), routes)
    requires Visiting(s, ip, visited, node, best)
    requires node == null || !(node.path <= AllBits(ip))
    ensures IsLongestMatch(routes, ip, if best == null then null else s.cells[best].peer)
  {
    forall m | m in PeerMap(s) && |m.bits| == |ip| && m.path <= AllBits(ip)
      ensures best != null && |m.path| <= |best.path|
    {
      WalkComplete(s, |ip| == IPV6_LEN, AllBits(ip), |ip|, m);
    }
    DeepestIsLongest(s, routes, ip, best);
  }

  // ---------- placement ----------

  /** Where `insert` continues: the slot below the deepest node that the new prefix extends. */
  ghost function PlaceSlot(parent: TrieEntry?, ip: Ip): Slot
    requires parent != null ==> |parent.path| < 8 * |ip|
  {
    if parent == null then RootSlot(|ip| == IPV6_LEN) else ChildSlot(parent, Bit(ip, |parent.path|))
  }

  /** The loop state of `nodePlacement`: the new prefix properly extends `parent`, and `next` sits
      in the slot the prefix leads to. */
  ghost predicate Placing(s: State, ip: Ip, cidr: nat, parent: TrieEntry?, next: TrieEntry?) {
    && IsIp(ip) && cidr <= 8 * |ip|
    && (parent != null ==> parent in s.cells && |parent.bits| == |ip| && parent.path <= AllBits(ip) && |parent.path| < cidr)
    && next == Load(s, PlaceSlot(parent, ip))
    && (next != null ==> next in s.cells && |next.bits| == |ip|)
  }

  /** The loop of `nodePlacement` has to stop at `next`. */
  ghost predicate Stops(ip: Ip, cidr: nat, next: TrieEntry?) {
    next == null || cidr < |next.path| || !(next.path <= AllBits(ip))
  }

  lemma PlaceStep(s: State, ip: Ip, cidr: nat, parent: TrieEntry?, next: TrieEntry)
    requires UpOk(s) && DownOk(s) && Placing(s, ip, cidr, parent, next)
    requires |next.path| < cidr && next.path <= AllBits(ip)
    ensures var child := s.cells[next].child.Get(Bit(ip, |next.path|));
            Placing(s, ip, cidr, next, child) && (child != null ==> |next.path| < |child.path|)
  {
    ChildBelow(s, next, Bit(ip, |next.path|));
  }

  lemma PlaceFits(ip: Ip, cidr: nat, parent: TrieEntry?)
    requires IsIp(ip) && cidr <= 8 * |ip|
    requires parent != null ==> |parent.bits| == |ip| && parent.path <= AllBits(ip) && |parent.path| < cidr
    ensures FitsPath(PlaceSlot(parent, ip), |ip|, Take(ip, cidr))
  {
  }

  lemma PlaceAbove(s: State, ip: Ip, cidr: nat, parent: TrieEntry?, down: TrieEntry, common: nat, n: TrieEntry)
    requires Shape(s, null) && Placing(s, ip, cidr, parent, down) && Stops(ip, cidr, down)
    requires IsCommonLength(down.bits, ip, common) && cidr <= common
    requires n !in s.cells && WellFormed(n) && |n.bits| == |ip| && n.path == Take(ip, cidr)
    ensures cidr < |down.path| <= 8 * |down.bits|
    ensures CanAddAbove(s, PlaceSlot(parent, ip), n, down, Bit(down.bits, cidr))
  {
    assert WellFormed(down);
    PlaceFits(ip, cidr, parent);
    assert down.path == Take(down.bits, |down.path|);
    assert |down.path| <= cidr ==> down.path <= AllBits(ip);
    assert n.path + [Bit(down.bits, cidr)] <= down.path;
  }

  /** What the descent has passed is common to the new prefix and `down`. */
  lemma PlaceAgrees(s: State, ip: Ip, cidr: nat, parent: TrieEntry, down: TrieEntry, common: nat)
    requires Shape(s, null) && Placing(s, ip, cidr, parent, down) && IsCommonLength(down.bits, ip, common)
    ensures |parent.path| < common
  {
    assert WellFormed(down);
    AnyHolds(s, PlaceSlot(parent, ip));
    assert Linked(s, down);
    var b := Bit(ip, |parent.path|);
    assert parent.path + [b] <= down.path;
    assert down.path == Take(down.bits, |down.path|);
    assert Bit(down.bits, |parent.path|) == b;
    forall i: nat | i < |parent.path|
      ensures Bit(down.bits, i) == Bit(ip, i)
    {
      assert parent.path[i] == down.path[i] && parent.path[i] == AllBits(ip)[i];
    }
  }

  lemma PlaceGlue(s: State, ip: Ip, cidr: nat, parent: TrieEntry?, down: TrieEntry, common: nat,
                  glue: TrieEntry, n: TrieEntry)
    requires Shape(s, null) && Placing(s, ip, cidr, parent, down) && Stops(ip, cidr, down)
    requires IsCommonLength(down.bits, ip, common) && common < cidr
    requires glue !in s.cells && WellFormed(glue) && |glue.bits| == |ip| && glue.path == Take(ip, common)
    requires |n.bits| == |ip| && n.path == Take(ip, cidr)
    ensures common < |down.path| <= 8 * |down.bits| && Bit(down.bits, common) != Bit(ip, common)
    ensures CanAddAbove(s, PlaceSlot(parent, ip), glue, down, Bit(down.bits, common))
    ensures Below(glue, !Bit(down.bits, common), n)
  {
    assert WellFormed(down);
    assert down.path == Take(down.bits, |down.path|);
    if parent != null {
      PlaceAgrees(s, ip, cidr, parent, down, common);
    }
    PlaceFits(ip, common, parent);
    assert glue.path + [Bit(down.bits, common)] <= down.path;
  }

  // ---------- the rewrites, seen as routes ----------

  /** A well-shaped trie that stands for this routing table. */
  ghost predicate Means(s: State, routes: Routes) {
    Shape(s, null) && Represents(PeerMap(s), routes)
  }

  lemma AddLeafPeers(s: State, slot: Slot, n: TrieEntry, peer: Peer)
    requires HasSlot(s, slot) && n !in s.cells
    ensures PeerMap(AddLeaf(s, slot, n, peer)) == PeerMap(s)[n := peer]
  {
  }

  lemma AddAbovePeers(s: State, slot: Slot, n: TrieEntry, peer: Peer?, down: TrieEntry, bit: bool)
    requires HasSlot(s, slot) && n !in s.cells && down in s.cells
    ensures PeerMap(AddAbove(s, slot, n, peer, down, bit)) == if peer == null then PeerMap(s) else PeerMap(s)[n := peer]
  {
  }

  lemma AddLeafMeans(s: State, routes: Routes, slot: Slot, n: TrieEntry, peer: Peer)
    requires Means(s, routes) && CanAddLeaf(s, slot, n, null)
    ensures Means(AddLeaf(s, slot, n, peer), routes[KeyOf(n) := peer])
  {
    var t := AddLeaf(s, slot, n, peer);
    AddLeafShape(s, slot, n, peer, null);
    AddLeafPeers(s, slot, n, peer);
    RepresentsSet(t, PeerMap(s), routes, n, peer);
  }

  lemma AddAboveMeans(s: State, routes: Routes, slot: Slot, n: TrieEntry, peer: Peer, down: TrieEntry, bit: bool)
    requires Means(s, routes) && CanAddAbove(s, slot, n, down, bit)
    ensures Means(AddAbove(s, slot, n, peer, down, bit), routes[KeyOf(n) := peer])
  {
    var t := AddAbove(s, slot, n, peer, down, bit);
    AddAboveShape(s, slot, n, peer, down, bit);
    AddAbovePeers(s, slot, n, peer, down, bit);
    RepresentsSet(t, PeerMap(s), routes, n, peer);
  }

  lemma AddGlueMeans(s: State, routes: Routes, slot: Slot, glue: TrieEntry, down: TrieEntry, bit: bool, n: TrieEntry, peer: Peer)
    requires Means(s, routes) && CanAddAbove(s, slot, glue, down, bit)
    requires n !in s.cells && n != glue && WellFormed(n) && Below(glue, !bit, n)
    ensures var t := AddAbove(s, slot, glue, null, down, bit);
            HasSlot(t, ChildSlot(glue, !bit)) && n !in t.cells
            && Means(AddLeaf(t, ChildSlot(glue, !bit), n, peer), routes[KeyOf(n) := peer])
  {
    var t := AddAbove(s, slot, glue, null, down, bit);
    AddAboveShape(s, slot, glue, null, down, bit);
    assert CanAddLeaf(t, ChildSlot(glue, !bit), n, glue);
    AddLeafShape(t, ChildSlot(glue, !bit), n, peer, glue);
    var u := AddLeaf(t, ChildSlot(glue, !bit), n, peer);
    AddAbovePeers(s, slot, glue, null, down, bit);
    AddLeafPeers(t, ChildSlot(glue, !bit), n, peer);
    RepresentsSet(u, PeerMap(s), routes, n, peer);
  }

  lemma SetPeerMeans(s: State, routes: Routes, n: TrieEntry, peer: Peer)
    requires Means(s, routes) && n in s.cells
    ensures Means(SetPeer(s, n, peer), routes[KeyOf(n) := peer])
  {
    var t := SetPeer(s, n, peer);
    SetPeerShape(s, n, peer);
    assert PeerMap(t) == PeerMap(s)[n := peer];
    RepresentsSet(t, PeerMap(s), routes, n, peer);
  }

  // ---------- removing a node ----------

  /** One round of `RemoveByPeer`: the node loses its peer, goes away unless it branches, and takes a
      peerless parent with it that no longer branches. */
  ghost function RemoveNode(s: State, n: TrieEntry): State
    requires Shape(s, null) && n in s.cells
  {
    SetPeerShape(s, n, null);
    Collapse(SetPeer(s, n, null), n)
  }

  ghost function Collapse(s: State, n: TrieEntry): State
    requires Shape(s, n) && n in s.cells
  {
    var c := s.cells[n];
    if c.child.zero != null && c.child.one != null then s
    else
      SpliceShape(s, n);
      SpliceLinks(s, n);
      var t := Splice(s, n);
      if OnlyChild(c) != null || !c.parent.ChildSlot? || t.cells[c.parent.node].peer != null then t
      else Splice(t, c.parent.node)
  }

  lemma UsefulShape(s: State, n: TrieEntry)
    requires Shape(s, n) && n in s.cells && Useful(s.cells[n])
    ensures Shape(s, null)
  {
  }

  /** After its childless child `n` is gone, a branching parent has one child left. */
  lemma ParentOfRemoved(s: State, n: TrieEntry)
    requires CanSplice(s, n) && OnlyChild(s.cells[n]) == null && s.cells[n].parent.ChildSlot?
    ensures var p := s.cells[n].parent.node;
            var t := Splice(s, n);
            p in s.cells && p != n && p in t.cells && Shape(t, p) && t.cells[p].peer == s.cells[p].peer
            && (t.cells[p].peer == null ==> CanSplice(t, p) && OnlyChild(t.cells[p]) != null)
  {
    SpliceLinks(s, n);
    SpliceShape(s, n);
    var p := s.cells[n].parent.node;
    assert Useful(s.cells[p]);
    assert Linked(s, n);
  }

  lemma RemoveNodeShape(s: State, n: TrieEntry)
    requires Shape(s, null) && n in s.cells
    ensures Shape(RemoveNode(s, n), null)
  {
    hide UpOk, DownOk, AllUseful;
    SetPeerShape(s, n, null);
    var s1 := SetPeer(s, n, null);
    var c := s1.cells[n];
    if c.child.zero != null && c.child.one != null {
      UsefulShape(s1, n);
    } else {
      SpliceShape(s1, n);
      SpliceLinks(s1, n);
      if OnlyChild(c) == null && c.parent.ChildSlot? {
        ParentOfRemoved(s1, n);
        var s2 := Splice(s1, n);
        if s2.cells[c.parent.node].peer != null {
          UsefulShape(s2, c.parent.node);
        } else {
          SpliceShape(s2, c.parent.node);
        }
      }
    }
  }

  lemma SplicePeers(s: State, n: TrieEntry)
    requires CanSplice(s, n) && s.cells[n].peer == null
    ensures PeerMap(Splice(s, n)) == PeerMap(s)
  {
    SpliceLinks(s, n);
  }

  lemma RemoveNodePeers(s: State, n: TrieEntry)
    requires Shape(s, null) && n in s.cells
    ensures PeerMap(RemoveNode(s, n)) == PeerMap(s) - {n}
  {
    hide UpOk, DownOk, AllUseful;
    SetPeerShape(s, n, null);
    var s1 := SetPeer(s, n, null);
    assert PeerMap(s1) == PeerMap(s) - {n};
    var c := s1.cells[n];
    if c.child.zero == null || c.child.one == null {
      SplicePeers(s1, n);
      if OnlyChild(c) == null && c.parent.ChildSlot? {
        ParentOfRemoved(s1, n);
        var s2 := Splice(s1, n);
        if s2.cells[c.parent.node].peer == null {
          SplicePeers(s2, c.parent.node);
        }
      }
    }
  }

  lemma RemoveNodeMeans(s: State, routes: Routes, n: TrieEntry)
    requires Means(s, routes) && n in PeerMap(s)
    ensures Means(RemoveNode(s, n), routes - {KeyOf(n)})
  {
    hide AllUseful, RemoveNode, Represents;
    RemoveNodeShape(s, n);
    RemoveNodePeers(s, n);
    RepresentsClear(s, PeerMap(s), routes, n);
  }
}
