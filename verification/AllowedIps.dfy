/** The routing table object: two tries that are rewritten in place, and a list of trie nodes
    per peer (wireguard/device/allowedips.go:58-86, 101-294). */
module AllowedIps {
  import opened IpBits
  import opened Trie
  import opened TrieRoutes

  type Lists = map<Peer, seq<TrieEntry>>

  ghost function Entries(lists: Lists, p: Peer): seq<TrieEntry> {
    if p in lists then lists[p] else []
  }

  /** Each peer's list holds exactly the nodes that carry the peer, each of them once. */
  ghost predicate ListsOk(carried: map<TrieEntry, Peer?>, lists: Lists) {
    && (forall n {:trigger carried[n]} :: n in carried ==> carried[n] != null && n in Entries(lists, carried[n]))
    && (forall p, n {:trigger n in lists[p]} :: p in lists && n in lists[p] ==> n in carried && carried[n] == p)
    && (forall p {:trigger NoRepeats(lists[p])} :: p in lists ==> NoRepeats(lists[p]))
  }

  lemma ListsAdd(carried: map<TrieEntry, Peer?>, lists: Lists, n: TrieEntry, peer: Peer)
    requires ListsOk(carried, lists) && n !in carried
    ensures ListsOk(carried[n := peer], lists[peer := Entries(lists, peer) + [n]])
  {
    assert peer in lists ==> NoRepeats(lists[peer]) && n !in lists[peer];
    var lists' := lists[peer := Entries(lists, peer) + [n]];
    forall p | p in lists'
      ensures NoRepeats(lists'[p])
    {
      assert p != peer ==> NoRepeats(lists[p]);
    }
  }

  lemma ListsRemove(carried: map<TrieEntry, Peer?>, lists: Lists, n: TrieEntry)
    requires ListsOk(carried, lists) && n in carried
    ensures var p := carried[n];
            p in lists && ListsOk(carried - {n}, lists[p := Without(lists[p], n)])
  {
  }

  ghost predicate NoRepeats(s: seq<TrieEntry>) {
    forall i, j :: 0 <= i < j < |s| ==> s[i] != s[j]
  }

  /** The list without the element `x`. */
  function Without(s: seq<TrieEntry>, x: TrieEntry): (r: seq<TrieEntry>)
    ensures forall n :: n in r ==> n in s
    ensures forall n :: n in s && n != x ==> n in r
    ensures NoRepeats(s) ==> NoRepeats(r) && x !in r
  {
    if s == [] then []
    else
      assert NoRepeats(s) ==> NoRepeats(s[1..]) && s[0] !in s[1..];
      if s[0] == x then s[1..] else [s[0]] + Without(s[1..], x)
  }

  /** The comparison both loops make decides whether a node covers the address. */
  lemma CoversByCommon(s: State, n: TrieEntry, ip: Ip, common: nat)
    requires UpOk(s) && n in s.cells && |n.bits| == |ip| && IsCommonLength(n.bits, ip, common)
    ensures WellFormed(n) && n.cidr == |n.path|
    ensures n.cidr <= common <==> n.path <= AllBits(ip)
  {
    assert WellFormed(n);
  }

  ghost predicate Coherent(s: State, lists: Lists, routes: Routes) {
    Means(s, routes) && ListsOk(PeerMap(s), lists)
  }

  lemma CoherentShape(s: State, lists: Lists, routes: Routes)
    requires Coherent(s, lists, routes)
    ensures Shape(s, null)
  {
  }

  lemma AddLeafCoherent(s: State, lists: Lists, routes: Routes, slot: Slot, n: TrieEntry, peer: Peer)
    requires Coherent(s, lists, routes) && CanAddLeaf(s, slot, n, null)
    ensures Coherent(AddLeaf(s, slot, n, peer), lists[peer := Entries(lists, peer) + [n]], routes[KeyOf(n) := peer])
  {
    AddLeafMeans(s, routes, slot, n, peer);
    AddLeafPeers(s, slot, n, peer);
    ListsAdd(PeerMap(s), lists, n, peer);
  }

  lemma AddAboveCoherent(s: State, lists: Lists, routes: Routes, slot: Slot, n: TrieEntry, peer: Peer, down: TrieEntry, bit: bool)
    requires Coherent(s, lists, routes) && CanAddAbove(s, slot, n, down, bit)
    ensures Coherent(AddAbove(s, slot, n, peer, down, bit), lists[peer := Entries(lists, peer) + [n]], routes[KeyOf(n) := peer])
  {
    AddAboveMeans(s, routes, slot, n, peer, down, bit);
    AddAbovePeers(s, slot, n, peer, down, bit);
    ListsAdd(PeerMap(s), lists, n, peer);
  }

  lemma AddGlueCoherent(s: State, lists: Lists, routes: Routes,
                        slot: Slot, glue: TrieEntry, down: TrieEntry, bit: bool, n: TrieEntry, peer: Peer)
    requires Coherent(s, lists, routes) && CanAddAbove(s, slot, glue, down, bit)
    requires n !in s.cells && n != glue && WellFormed(n) && Below(glue, !bit, n)
    ensures var t := AddAbove(s, slot, glue, null, down, bit);
            HasSlot(t, ChildSlot(glue, !bit)) && n !in t.cells
            && Coherent(AddLeaf(t, ChildSlot(glue, !bit), n, peer),
                        lists[peer := Entries(lists, peer) + [n]], routes[KeyOf(n) := peer])
  {
    AddGlueMeans(s, routes, slot, glue, down, bit, n, peer);
    AddAbovePeers(s, slot, glue, null, down, bit);
    AddLeafPeers(AddAbove(s, slot, glue, null, down, bit), ChildSlot(glue, !bit), n, peer);
    ListsAdd(PeerMap(s), lists, n, peer);
  }

  /** The glue node of `insert`: it fits above `down` and the new node. */
  lemma GlueCoherent(s: State, lists: Lists, routes: Routes, ip: Ip, cidr: nat, parent: TrieEntry?, down: TrieEntry, common: nat,
                     glue: TrieEntry, n: TrieEntry, peer: Peer)
    requires Coherent(s, lists, routes) && Placing(s, ip, cidr, parent, down) && Stops(ip, cidr, down)
    requires IsCommonLength(down.bits, ip, common) && common < cidr
    requires glue !in s.cells && WellFormed(glue) && |glue.bits| == |ip| && glue.path == Take(ip, common)
    requires n !in s.cells && n != glue && WellFormed(n) && |n.bits| == |ip| && n.path == Take(ip, cidr)
    ensures common < 8 * |down.bits| && down in s.cells && HasSlot(s, PlaceSlot(parent, ip))
    ensures var bit := Bit(down.bits, common);
            var t := AddAbove(s, PlaceSlot(parent, ip), glue, null, down, bit);
            HasSlot(t, ChildSlot(glue, !bit)) && n !in t.cells
            && Coherent(AddLeaf(t, ChildSlot(glue, !bit), n, peer),
                        lists[peer := Entries(lists, peer) + [n]], routes[KeyOf(n) := peer])
  {
    hide Coherent, Shape, Stops, IsCommonLength, WellFormed, Entries, Load, AddAbove, AddLeaf, Below;
    CoherentShape(s, lists, routes);
    PlaceGlue(s, ip, cidr, parent, down, common, glue, n);
    AddGlueCoherent(s, lists, routes, PlaceSlot(parent, ip), glue, down, Bit(down.bits, common), n, peer);
  }

  /** The lists before and after an exact match. */
  lemma SetPeerLists(carried: map<TrieEntry, Peer?>, lists: Lists, n: TrieEntry, peer: Peer)
    requires ListsOk(carried, lists)
    ensures n in carried ==> carried[n] in lists
    ensures var lists1 := if n in carried then lists[carried[n] := Without(lists[carried[n]], n)] else lists;
            ListsOk(carried[n := peer], lists1[peer := Entries(lists1, peer) + [n]])
  {
    if n in carried {
      ListsRemove(carried, lists, n);
      ListsAdd(carried - {n}, lists[carried[n] := Without(lists[carried[n]], n)], n, peer);
      assert (carried - {n})[n := peer] == carried[n := peer];
    } else {
      ListsAdd(carried, lists, n, peer);
    }
  }

  lemma SetPeerCoherent(s: State, lists: Lists, routes: Routes, n: TrieEntry, peer: Peer)
    requires Coherent(s, lists, routes) && n in s.cells
    ensures s.cells[n].peer != null ==> s.cells[n].peer in lists
    ensures var p := s.cells[n].peer;
            var lists1 := if p == null then lists else lists[p := Without(lists[p], n)];
            Coherent(SetPeer(SetPeer(s, n, null), n, peer), lists1[peer := Entries(lists1, peer) + [n]], routes[KeyOf(n) := peer])
  {
    assert SetPeer(SetPeer(s, n, null), n, peer) == SetPeer(s, n, peer);
    SetPeerMeans(s, routes, n, peer);
    SetPeerLists(PeerMap(s), lists, n, peer);
    SetPeerPeers(s, n, peer);
  }

  lemma SetPeerPeers(s: State, n: TrieEntry, peer: Peer)
    requires n in s.cells
    ensures PeerMap(SetPeer(s, n, peer)) == PeerMap(s)[n := peer]
  {
  }

  class AllowedIPs {
    var ipv4: TrieEntry?
    var ipv6: TrieEntry?
    ghost var nodes: set<TrieEntry>
    ghost var trie: State    // what the nodes hold
    ghost var lists: Lists   // what the peers' lists hold
    ghost var routes: Routes // the routing table this stands for

    /** The heap holds what `trie` and `lists` say. */
    ghost predicate Reflects()
      reads this`ipv4, this`ipv6, this`trie, this`nodes, this`lists
      reads nodes`peer, nodes`child, nodes`parent, nodes`perPeerElem, lists.Keys`trieEntries
    {
      && nodes == trie.cells.Keys && ipv4 == trie.root4 && ipv6 == trie.root6
      && (forall n {:trigger trie.cells[n]} :: n in nodes ==> trie.cells[n] == Cell(n.peer, n.child, n.parent))
      && (forall n {:trigger n.perPeerElem} :: n in nodes ==> (n.perPeerElem <==> n.peer != null))
      && (forall p {:trigger lists[p]} :: p in lists ==> p.trieEntries == lists[p])
    }

    /** The same, but for the list element of `node`. */
    ghost predicate ReflectsBut(node: TrieEntry)
      reads this`ipv4, this`ipv6, this`trie, this`nodes, this`lists
      reads nodes`peer, nodes`child, nodes`parent, nodes`perPeerElem, lists.Keys`trieEntries
    {
      && nodes == trie.cells.Keys && ipv4 == trie.root4 && ipv6 == trie.root6
      && (forall n {:trigger trie.cells[n]} :: n in nodes ==> trie.cells[n] == Cell(n.peer, n.child, n.parent))
      && (forall n {:trigger n.perPeerElem} :: n in nodes && n != node ==> (n.perPeerElem <==> n.peer != null))
      && (forall p {:trigger lists[p]} :: p in lists ==> p.trieEntries == lists[p])
    }

    ghost predicate Valid()
      reads this, nodes, lists.Keys
    {
      Reflects() && Coherent(trie, lists, routes)
    }

    constructor ()
      ensures Valid() && routes == map[] && nodes == {} && lists == map[]
    {
      ipv4, ipv6 := null, null;
      nodes, trie, lists, routes := {}, State(map[], null, null), map[], map[];
    }

    // ---------- Lookup ----------

    method Lookup(ip: Ip) returns (found: Peer?)
      requires Valid() && IsIp(ip)
      ensures IsLongestMatch(routes, ip, found)
    {
      ghost var visited: seq<TrieEntry>, best: TrieEntry? := [], null;
      RootOk(trie, |ip| == IPV6_LEN);
      var node := if |ip| == IPV6_LEN then ipv6 else ipv4;
      found := null;
      while node != null
        invariant Visiting(trie, ip, visited, node, best)
        invariant found == if best == null then null else trie.cells[best].peer
        decreases if node == null || |node.path| > 8 * |ip| then 0 else 1 + 8 * |ip| - |node.path|
      {
        var common := CommonBits(node.bits, ip);
        CoversByCommon(trie, node, ip, common);
        if common < node.cidr {
          break;
        }
        VisitStep(trie, ip, visited, node, best);
        visited := visited + [node];
        if node.peer != null {
          found := node.peer;
          best := node;
        }
        if node.bitAtByte == |ip| {
          node := null;
          break;
        }
        var bit := node.Choose(ip);
        ChildBelow(trie, node, bit);
        node := node.child.Get(bit);
      }
      VisitEnd(trie, routes, ip, visited, node, best);
    }

    // ---------- Insert ----------

    method NodePlacement(root: TrieEntry, ip: Ip, cidr: nat) returns (parent: TrieEntry?, exact: bool)
      requires Reflects() && Shape(trie, null) && IsIp(ip) && cidr <= 8 * |ip| && root == trie.Root(|ip| == IPV6_LEN)
      ensures parent != null ==> parent in nodes && WellFormed(parent) && parent.cidr == |parent.path|
      ensures exact ==> parent != null && |parent.bits| == |ip| && parent.path == Take(ip, cidr)
      ensures !exact ==> (parent != null ==> |parent.path| < cidr)
      ensures !exact ==> var next := Load(trie, PlaceSlot(parent, ip));
                         Placing(trie, ip, cidr, parent, next) && Stops(ip, cidr, next)
    {
      RootOk(trie, |ip| == IPV6_LEN);
      parent, exact := null, false;
      var node: TrieEntry? := root;
      while node != null && node.cidr <= cidr
        invariant Placing(trie, ip, cidr, parent, node)
        decreases if node == null || |node.path| > 8 * |ip| then 0 else 1 + 8 * |ip| - |node.path|
      {
        var common := CommonBits(node.bits, ip);
        CoversByCommon(trie, node, ip, common);
        if common < node.cidr {
          return;
        }
        if node.cidr == cidr {
          parent, exact := node, true;
          return;
        }
        PlaceStep(trie, ip, cidr, parent, node);
        parent := node;
        var bit := node.Choose(ip);
        node := node.child.Get(bit);
      }
      assert node != null ==> WellFormed(node);
      assert parent != null ==> WellFormed(parent);
    }

    /** node.addToPeerEntries() */
    method AddToPeerEntries(node: TrieEntry, peer: Peer)
      requires ReflectsBut(node) && node.peer == peer && (peer in lists || peer.trieEntries == [])
      modifies this`lists, node`perPeerElem, peer`trieEntries
      ensures Reflects() && node.perPeerElem && lists == old(lists)[peer := Entries(old(lists), peer) + [node]]
      ensures lists.Keys == old(lists.Keys) + {peer}
    {
      lists := lists[peer := Entries(lists, peer) + [node]];
      peer.trieEntries := peer.trieEntries + [node];
      node.perPeerElem := true;
    }

    /** A new node for a prefix: masked, entered in its peer's list, not linked into the trie yet. */
    method NewNode(ip: Ip, cidr: nat, peer: Peer) returns (n: TrieEntry)
      requires IsIp(ip) && cidr <= 8 * |ip| && Reflects() && (peer in lists || peer.trieEntries == [])
      modifies this`lists, peer`trieEntries
      ensures fresh(n) && n !in nodes && n !in trie.cells && WellFormed(n) && |n.bits| == |ip|
      ensures n.cidr == cidr && n.path == Take(ip, cidr)
      ensures nodes == old(nodes) && trie == old(trie) && routes == old(routes)
      ensures n.peer == peer && n.child == Children(null, null)
      ensures Reflects() && n.perPeerElem && lists == old(lists)[peer := Entries(old(lists), peer) + [n]]
      ensures lists.Keys == old(lists.Keys) + {peer}
    {
      n := new TrieEntry(ip, cidr, peer, NoSlot);
      AddToPeerEntries(n, peer);
    }

    /** A new node for a prefix, and a peerless one for a shorter prefix. */
    method NewPair(ip: Ip, cidr: nat, peer: Peer, common: nat) returns (n: TrieEntry, glue: TrieEntry)
      requires IsIp(ip) && common < cidr <= 8 * |ip| && Reflects() && (peer in lists || peer.trieEntries == [])
      modifies this`lists, peer`trieEntries
      ensures fresh(n) && fresh(glue) && n != glue && n !in nodes && n !in trie.cells && glue !in nodes && glue !in trie.cells
      ensures WellFormed(n) && |n.bits| == |ip| && n.path == Take(ip, cidr)
      ensures WellFormed(glue) && |glue.bits| == |ip| && glue.cidr == common && glue.path == Take(ip, common)
      ensures n.peer == peer && n.perPeerElem && n.child == Children(null, null)
      ensures glue.peer == null && !glue.perPeerElem && glue.child == Children(null, null)
      ensures Reflects() && lists == old(lists)[peer := Entries(old(lists), peer) + [n]]
      ensures lists.Keys == old(lists.Keys) + {peer}
    {
      hide WellFormed;
      n := NewNode(ip, cidr, peer);
      glue := new TrieEntry(ip, common, null, NoSlot);
    }

    /** Write through a parent indirection. */
    method StoreSlot(slot: Slot, n: TrieEntry?)
      requires Reflects() && HasSlot(trie, slot)
      modifies this`ipv4, this`ipv6, this`trie, (if slot.ChildSlot? then {slot.node} else {})`child
      ensures Reflects() && trie == Store(old(trie), slot, n) && trie.cells.Keys == old(trie.cells.Keys)
    {
      trie := Store(trie, slot, n);
      match slot
      case RootSlot(v6) => if v6 { ipv6 := n; } else { ipv4 := n; }
      case ChildSlot(p, bit) => p.child := p.child.Set(bit, n);
    }

    /** Link a new node, with the children it already has, into a slot. */
    method LinkNew(slot: Slot, n: TrieEntry)
      requires Reflects() && HasSlot(trie, slot) && n !in nodes && (n.perPeerElem <==> n.peer != null)
      modifies this`ipv4, this`ipv6, this`nodes, this`trie, nodes`child, n`parent, n`child
      ensures Reflects() && nodes == old(nodes) + {n} && trie.cells.Keys == old(trie.cells.Keys) + {n}
      ensures lists == old(lists) && routes == old(routes)
      ensures trie == Store(old(trie).(cells := old(trie).cells[n := Cell(n.peer, old(n.child), slot)]), slot, n)
    {
      n.parent := slot;
      nodes := nodes + {n};
      trie := trie.(cells := trie.cells[n := Cell(n.peer, n.child, slot)]);
      StoreSlot(slot, n);
    }

    /** Put `down` below a node that is not in the trie yet. */
    method HangBelow(n: TrieEntry, down: TrieEntry, bit: bool)
      requires Reflects() && n !in nodes && down in nodes
      modifies this`trie, down`parent, n`child
      ensures n.child == old(n.child).Set(bit, down)
      ensures Reflects() && trie == Reparent(old(trie), down, ChildSlot(n, bit)) && trie.cells.Keys == old(trie.cells.Keys)
    {
      trie := Reparent(trie, down, ChildSlot(n, bit));
      down.parent := ChildSlot(n, bit);
      n.child := n.child.Set(bit, down);
    }

    /** Put a new node into the slot of `down`, and `down` below it. */
    method LinkAbove(slot: Slot, n: TrieEntry, down: TrieEntry, bit: bool)
      requires Reflects() && HasSlot(trie, slot) && n !in nodes && n !in trie.cells && down in nodes && down in trie.cells
      requires n.child == Children(null, null) && (n.perPeerElem <==> n.peer != null)
      modifies this`ipv4, this`ipv6, this`nodes, this`trie, nodes`child, down`parent, n`parent, n`child
      ensures Reflects() && nodes == old(nodes) + {n} && trie.cells.Keys == old(trie.cells.Keys) + {n}
      ensures lists == old(lists) && routes == old(routes)
      ensures trie == AddAbove(old(trie), slot, n, n.peer, down, bit)
    {
      hide Reflects, Store, Reparent;
      HangBelow(n, down, bit);
      LinkNew(slot, n);
    }

    /** Put a peerless node into the slot of `down`, with `down` and a new node below it. */
    method LinkGlue(slot: Slot, glue: TrieEntry, down: TrieEntry, bit: bool, n: TrieEntry)
      requires Reflects() && HasSlot(trie, slot) && glue !in nodes && glue !in trie.cells && down in nodes && down in trie.cells
      requires glue.child == Children(null, null) && !glue.perPeerElem && glue.peer == null
      requires n !in nodes && n !in trie.cells && n != glue && n.peer != null && n.perPeerElem && n.child == Children(null, null)
      modifies this`ipv4, this`ipv6, this`nodes, this`trie, nodes`child, down`parent, glue`parent, glue`child, n`parent, n`child
      ensures Reflects() && nodes == old(nodes) + {glue, n}
      ensures lists == old(lists) && routes == old(routes)
      ensures var t := AddAbove(old(trie), slot, glue, null, down, bit);
              HasSlot(t, ChildSlot(glue, !bit)) && n !in t.cells && trie == AddLeaf(t, ChildSlot(glue, !bit), n, n.peer)
    {
      hide Reflects, Store, AddAbove;
      LinkAbove(slot, glue, down, bit);
      LinkNew(ChildSlot(glue, !bit), n);
    }

    /** Take the element out of its peer's list. */
    method DropFromList(node: TrieEntry)
      requires Reflects() && node in nodes && node.peer != null && node.peer in lists
      modifies this`lists, node`perPeerElem, node.peer`trieEntries
      ensures ReflectsBut(node) && !node.perPeerElem && lists == old(lists)[node.peer := Without(old(lists)[node.peer], node)]
      ensures lists.Keys == old(lists.Keys)
    {
      hide Without;
      lists := lists[node.peer := Without(lists[node.peer], node)];
      node.peer.trieEntries := Without(node.peer.trieEntries, node);
      node.perPeerElem := false;
    }

    method ClearPeer(node: TrieEntry)
      requires ReflectsBut(node) && node in nodes && !node.perPeerElem
      modifies this`trie, node`peer
      ensures Reflects() && node.peer == null && trie == SetPeer(old(trie), node, null)
    {
      trie := SetPeer(trie, node, null);
      node.peer := null;
    }

    /** node.removeFromPeerEntries(); the node is left without a peer. */
    method RemoveFromPeerEntries(node: TrieEntry)
      requires Reflects() && node in nodes && (node.peer != null ==> node.peer in lists)
      modifies this`trie, this`lists, node`peer, node`perPeerElem, lists.Keys`trieEntries
      ensures Reflects() && node.peer == null && trie == SetPeer(old(trie), node, null)
      ensures var p := old(node.peer);
              lists == if p == null then old(lists) else old(lists)[p := Without(old(lists)[p], node)]
      ensures lists.Keys == old(lists.Keys) && routes == old(routes) && nodes == old(nodes)
    {
      assert node.perPeerElem <==> node.peer != null;
      hide Without, SetPeer;
      if node.perPeerElem {
        DropFromList(node);
      }
      ClearPeer(node);
    }

    /** node.peer = peer; node.addToPeerEntries() */
    method GiveToPeer(node: TrieEntry, peer: Peer)
      requires Reflects() && node in nodes && node.peer == null && (peer in lists || peer.trieEntries == [])
      modifies this`lists, this`trie, node`peer, node`perPeerElem, peer`trieEntries
      ensures Reflects() && trie == SetPeer(old(trie), node, peer)
      ensures lists == old(lists)[peer := Entries(old(lists), peer) + [node]]
      ensures lists.Keys == old(lists.Keys) + {peer} && routes == old(routes) && nodes == old(nodes)
    {
      trie := SetPeer(trie, node, peer);
      node.peer := peer;
      AddToPeerEntries(node, peer);
    }

    method Insert(ip: Ip, cidr: nat, peer: Peer)
      requires Valid() && IsIp(ip) && cidr <= 8 * |ip| && (peer in lists || peer.trieEntries == [])
      modifies this, nodes, lists.Keys, peer
      ensures Valid() && lists.Keys == old(lists.Keys) + {peer} && fresh(nodes - old(nodes))
      ensures routes == old(routes)[Prefix(|ip| == IPV6_LEN, Take(ip, cidr)) := peer]
    {
      hide Coherent, UpOk, DownOk, AllUseful, IsCommonLength, WellFormed, Stops;
      CoherentShape(trie, lists, routes);
      var root := if |ip| == IPV6_LEN then ipv6 else ipv4;
      if root == null {
        InsertLeaf(RootSlot(|ip| == IPV6_LEN), ip, cidr, peer);
        return;
      }
      var node, exact := NodePlacement(root, ip, cidr);
      if exact {
        ReplacePeer(node, peer);
        return;
      }
      var slot := if node == null then RootSlot(|ip| == IPV6_LEN) else ChildSlot(node, node.Choose(ip));
      var down := if node == null then root else node.child.Get(node.Choose(ip));
      InsertAt(slot, ip, cidr, peer, node, down);
    }

    /** No node has the prefix: a new one goes into the slot where the descent ended, above what is there. */
    method InsertAt(slot: Slot, ip: Ip, cidr: nat, peer: Peer, ghost parent: TrieEntry?, down: TrieEntry?)
      requires Valid() && IsIp(ip) && cidr <= 8 * |ip| && (peer in lists || peer.trieEntries == [])
      requires Placing(trie, ip, cidr, parent, down) && slot == PlaceSlot(parent, ip) && Stops(ip, cidr, down)
      requires down != null ==> down in nodes
      modifies this, nodes, lists.Keys, peer
      ensures Valid() && lists.Keys == old(lists.Keys) + {peer} && fresh(nodes - old(nodes))
      ensures routes == old(routes)[Prefix(|ip| == IPV6_LEN, Take(ip, cidr)) := peer]
    {
      hide Reflects, Coherent, UpOk, DownOk, AllUseful, IsCommonLength, WellFormed, Stops, Load;
      if down == null {
        PlaceFits(ip, cidr, parent);
        InsertLeaf(slot, ip, cidr, peer);
        return;
      }
      var common := CommonBits(down.bits, ip);
      if cidr <= common {
        InsertAbove(slot, ip, cidr, peer, parent, down, common);
      } else {
        InsertGlue(slot, ip, cidr, peer, parent, down, common);
      }
    }

    /** The exact match of `insert`: the node changes its peer. */
    method ReplacePeer(node: TrieEntry, peer: Peer)
      requires Valid() && node in nodes && (peer in lists || peer.trieEntries == [])
      modifies this, nodes, lists.Keys, peer
      ensures Valid() && lists.Keys == old(lists.Keys) + {peer} && nodes == old(nodes)
      ensures routes == old(routes)[KeyOf(node) := peer]
    {
      assert node in trie.cells && trie.cells[node].peer == node.peer;
      hide Reflects, Means, ListsOk, PeerMap, SetPeer, Without, KeyOf;
      SetPeerCoherent(trie, lists, routes, node, peer);
      routes := routes[KeyOf(node) := peer];
      RemoveFromPeerEntries(node);
      GiveToPeer(node, peer);
    }

    /** A new node for an empty slot. */
    method InsertLeaf(slot: Slot, ip: Ip, cidr: nat, peer: Peer)
      requires Valid() && IsIp(ip) && cidr <= 8 * |ip| && (peer in lists || peer.trieEntries == [])
      requires HasSlot(trie, slot) && Load(trie, slot) == null && FitsPath(slot, |ip|, Take(ip, cidr))
      modifies this, nodes, lists.Keys, peer
      ensures Valid() && lists.Keys == old(lists.Keys) + {peer} && fresh(nodes - old(nodes))
      ensures routes == old(routes)[Prefix(|ip| == IPV6_LEN, Take(ip, cidr)) := peer]
    {
      hide Reflects, Shape, Represents, ListsOk, PeerMap, Store, WellFormed, Entries;
      var n := NewNode(ip, cidr, peer);
      AddLeafCoherent(trie, old(lists), routes, slot, n, peer);
      routes := routes[KeyOf(n) := peer];
      LinkNew(slot, n);
    }

    /** The new prefix is one of `down`: the new node takes the slot and `down` hangs below it. */
    method InsertAbove(slot: Slot, ip: Ip, cidr: nat, peer: Peer, ghost parent: TrieEntry?, down: TrieEntry, ghost common: nat)
      requires Valid() && IsIp(ip) && cidr <= 8 * |ip| && (peer in lists || peer.trieEntries == [])
      requires Placing(trie, ip, cidr, parent, down) && slot == PlaceSlot(parent, ip) && Stops(ip, cidr, down)
      requires IsCommonLength(down.bits, ip, common) && cidr <= common && down in nodes
      modifies this, nodes, lists.Keys, peer
      ensures Valid() && lists.Keys == old(lists.Keys) + {peer} && fresh(nodes - old(nodes))
      ensures routes == old(routes)[Prefix(|ip| == IPV6_LEN, Take(ip, cidr)) := peer]
    {
      hide Reflects, Shape, Represents, ListsOk, PeerMap, IsCommonLength, Stops, Store, Reparent, WellFormed, Agree,
           Entries, CanAddAbove, Load, Fits, AddAbove, Coherent;
      CoherentShape(trie, lists, routes);
      var n := NewNode(ip, cidr, peer);
      PlaceAbove(trie, ip, cidr, parent, down, common, n);
      var bit := n.Choose(down.bits);
      AddAboveCoherent(trie, old(lists), routes, slot, n, peer, down, bit);
      routes := routes[KeyOf(n) := peer];
      LinkAbove(slot, n, down, bit);
    }

    /** The new prefix and `down` part ways at bit `common`: a peerless node is put above both. */
    method InsertGlue(slot: Slot, ip: Ip, cidr: nat, peer: Peer, ghost parent: TrieEntry?, down: TrieEntry, common: nat)
      requires Valid() && IsIp(ip) && cidr <= 8 * |ip| && (peer in lists || peer.trieEntries == [])
      requires Placing(trie, ip, cidr, parent, down) && slot == PlaceSlot(parent, ip) && Stops(ip, cidr, down)
      requires IsCommonLength(down.bits, ip, common) && common < cidr && down in nodes
      modifies this, nodes, lists.Keys, peer
      ensures Valid() && lists.Keys == old(lists.Keys) + {peer} && fresh(nodes - old(nodes))
      ensures routes == old(routes)[Prefix(|ip| == IPV6_LEN, Take(ip, cidr)) := peer]
    {
      hide Reflects, Placing, Stops, IsCommonLength, WellFormed, Entries, Load, Store, AddAbove, AddLeaf, Coherent;
      var n, glue := NewPair(ip, cidr, peer, common);
      GlueCoherent(trie, old(lists), routes, ip, cidr, parent, down, common, glue, n, peer);
      var bit := glue.Choose(down.bits);
      routes := routes[KeyOf(n) := peer];
      LinkGlue(slot, glue, down, bit, n);
      assert nodes - old(nodes) <= {glue, n};
    }

    // ---------- RemoveByPeer ----------

    /** child.parent = slot, where there is a child. */
    method SetParent(child: TrieEntry?, slot: Slot)
      requires Reflects() && (child != null ==> child in nodes && child in trie.cells)
      modifies this`trie, (if child == null then {} else {child})`parent
      ensures Reflects() && trie == Reparent(old(trie), child, slot) && trie.cells.Keys == old(trie.cells.Keys)
    {
      if child != null {
        trie := Reparent(trie, child, slot);
        child.parent := slot;
      }
    }

    /** The node is no longer part of the trie. */
    ghost method Forget(n: TrieEntry)
      requires Reflects()
      modifies this`nodes, this`trie
      ensures Reflects() && nodes == old(nodes) - {n} && trie == old(trie).(cells := old(trie).cells - {n})
    {
      nodes := nodes - {n};
      trie := trie.(cells := trie.cells - {n});
    }

    /** Let the slot of `n` hold the child of `n` instead. */
    method SpliceOut(n: TrieEntry, child: TrieEntry?)
      requires Reflects() && CanSplice(trie, n) && n in nodes && child == OnlyChild(trie.cells[n])
      modifies this`ipv4, this`ipv6, this`nodes, this`trie, nodes`child, nodes`parent
      ensures Reflects() && trie == Splice(old(trie), n) && nodes == old(nodes) - {n}
      ensures n.parent == old(n.parent) && n.child == old(n.child)
      ensures lists == old(lists) && routes == old(routes)
    {
      SpliceLinks(trie, n);
      var up := n.parent;
      assert trie.cells[n].parent == up && trie.cells[n].child == n.child && nodes == trie.cells.Keys;
      hide Shape, CanSplice, Reparent, Store, Reflects;
      SetParent(child, up);
      StoreSlot(up, child);
      Forget(n);
    }

    /** Take a node that has lost its peer out of the trie, and a parent that no longer branches. */
    method Unlink(node: TrieEntry)
      requires Reflects() && Shape(trie, node) && node in nodes && node in trie.cells
      modifies this`ipv4, this`ipv6, this`nodes, this`trie, nodes`child, nodes`parent
      ensures Reflects() && trie == Collapse(old(trie), node) && nodes <= old(nodes)
      ensures lists == old(lists) && routes == old(routes)
    {
      ghost var s := trie;
      assert s.cells[node] == Cell(node.peer, node.child, node.parent);
      if node.child.zero != null && node.child.one != null {
        return;
      }
      hide UpOk, DownOk, AllUseful;
      var child := if node.child.zero == null then node.child.one else node.child.zero;
      SpliceLinks(s, node);
      SpliceShape(s, node);
      SpliceOut(node, child);
      if child != null || !node.parent.ChildSlot? {
        return;
      }
      ParentOfRemoved(s, node);
      var parent := node.parent.node;
      assert trie.cells[parent] == Cell(parent.peer, parent.child, parent.parent);
      if parent.peer != null {
        return;
      }
      child := if parent.child.zero == null then parent.child.one else parent.child.zero;
      SpliceOut(parent, child);
    }

    /** One round of the loop of `RemoveByPeer`. */
    method RemoveNode(node: TrieEntry)
      requires Valid() && node in nodes && node.peer != null
      modifies this, nodes, lists.Keys
      ensures Valid() && nodes <= old(nodes)
      ensures var p := old(node.peer);
              p in old(lists) && lists == old(lists)[p := Without(old(lists)[p], node)]
      ensures routes == old(routes) - {KeyOf(node)}
    {
      assert node in trie.cells && trie.cells[node].peer == node.peer;
      RemoveNodeCoherent(trie, lists, routes, node);
      SetPeerShape(trie, node, null);
      hide Reflects, Means, ListsOk, PeerMap, Shape, Without, KeyOf, Collapse;
      routes := routes - {KeyOf(node)};
      RemoveFromPeerEntries(node);
      Unlink(node);
    }

    method RemoveByPeer(peer: Peer)
      requires Valid() && (peer in lists || peer.trieEntries == [])
      modifies this, nodes, lists.Keys
      ensures Valid() && nodes <= old(nodes) && lists.Keys == old(lists.Keys) && peer.trieEntries == []
      ensures routes == DropPeer(old(routes), peer)
    {
      hide Means, ListsOk, Without;
      ghost var before, listed := routes, lists.Keys;
      assert peer in lists ==> lists[peer] == peer.trieEntries;
      while peer.trieEntries != []
        invariant Valid() && nodes <= old(nodes) && lists.Keys == listed && Entries(lists, peer) == peer.trieEntries
        invariant forall k :: k in routes ==> k in before && routes[k] == before[k]
        invariant forall k :: k in before && before[k] != peer ==> k in routes
        decreases |peer.trieEntries|
      {
        ghost var entries := peer.trieEntries;
        var node := peer.trieEntries[0];
        FirstEntry(trie, lists, routes, peer);
        RemoveNode(node);
        assert lists[peer] == entries[1..];
      }
      NoEntries(trie, lists, routes, peer);
    }
  }

  /** EntriesForPeer without a callback that stops early: the prefixes of one peer, each once. */
  method EntriesForPeer(table: AllowedIPs, peer: Peer) returns (entries: seq<(Ip, nat)>)
    requires table.Valid() && (peer in table.lists || peer.trieEntries == [])
    ensures forall e :: e in entries ==> IsIp(e.0) && e.1 <= 8 * |e.0| && Masked(e.0, e.1)
    ensures forall k :: (k in table.routes && table.routes[k] == peer) <==> (exists e :: e in entries && KeyOfEntry(e) == k)
    ensures forall i, j :: 0 <= i < j < |entries| ==> KeyOfEntry(entries[i]) != KeyOfEntry(entries[j])
  {
    entries := [];
    var list := peer.trieEntries;
    for i := 0 to |list|
      invariant |entries| == i
      invariant forall j :: 0 <= j < i ==> entries[j] == (list[j].bits, list[j].cidr)
    {
      entries := entries + [(list[i].bits, list[i].cidr)];
    }
    assert Entries(table.lists, peer) == list;
    ListedEntries(table.trie, table.lists, table.routes, peer, entries);
  }

  /** What a peer's list of nodes says about the routes. */
  lemma ListedEntries(s: State, lists: Lists, routes: Routes, peer: Peer, entries: seq<(Ip, nat)>)
    requires Coherent(s, lists, routes)
    requires |entries| == |Entries(lists, peer)|
    requires forall j :: 0 <= j < |entries| ==> entries[j] == (Entries(lists, peer)[j].bits, Entries(lists, peer)[j].cidr)
    ensures forall e :: e in entries ==> IsIp(e.0) && e.1 <= 8 * |e.0| && Masked(e.0, e.1)
    ensures forall k :: (k in routes && routes[k] == peer) <==> (exists e :: e in entries && KeyOfEntry(e) == k)
    ensures forall i, j :: 0 <= i < j < |entries| ==> KeyOfEntry(entries[i]) != KeyOfEntry(entries[j])
  {
    hide Coherent, KeyOf, KeyOfEntry, Masked, IsIp, Entries;
    var list := Entries(lists, peer);
    forall j | 0 <= j < |list|
      ensures KeyOf(list[j]) == KeyOfEntry(entries[j]) && KeyOf(list[j]) in routes && routes[KeyOf(list[j])] == peer
      ensures IsIp(entries[j].0) && entries[j].1 <= 8 * |entries[j].0| && Masked(entries[j].0, entries[j].1)
    {
      ListedNode(s, lists, routes, peer, list[j]);
    }
    forall k | k in routes && routes[k] == peer
      ensures exists e :: e in entries && KeyOfEntry(e) == k
    {
      var j := RouteInList(s, lists, routes, peer, k);
      assert entries[j] in entries;
    }
    forall i, j | 0 <= i < j < |entries|
      ensures KeyOfEntry(entries[i]) != KeyOfEntry(entries[j])
    {
      KeysDiffer(s, lists, routes, peer, i, j);
    }
  }

  lemma RouteInList(s: State, lists: Lists, routes: Routes, peer: Peer, k: Prefix) returns (j: nat)
    requires Coherent(s, lists, routes) && k in routes && routes[k] == peer
    ensures j < |Entries(lists, peer)| && KeyOf(Entries(lists, peer)[j]) == k
  {
    var n :| n in PeerMap(s) && KeyOf(n) == k;
    assert n in Entries(lists, PeerMap(s)[n]);
    j :| 0 <= j < |Entries(lists, peer)| && Entries(lists, peer)[j] == n;
  }

  lemma KeysDiffer(s: State, lists: Lists, routes: Routes, peer: Peer, i: nat, j: nat)
    requires Coherent(s, lists, routes) && i < j < |Entries(lists, peer)|
    ensures KeyOf(Entries(lists, peer)[i]) != KeyOf(Entries(lists, peer)[j])
  {
    var a, b := Entries(lists, peer)[i], Entries(lists, peer)[j];
    assert NoRepeats(lists[peer]) && a != b;
    ListedNode(s, lists, routes, peer, a);
    ListedNode(s, lists, routes, peer, b);
    if KeyOf(a) == KeyOf(b) {
      UniqueKey(s, a, b);
    }
  }

  lemma ListedNode(s: State, lists: Lists, routes: Routes, peer: Peer, n: TrieEntry)
    requires Coherent(s, lists, routes) && n in Entries(lists, peer)
    ensures n in s.cells && WellFormed(n) && IsIp(n.bits) && n.cidr <= 8 * |n.bits| && Masked(n.bits, n.cidr)
    ensures KeyOf(n) == KeyOfEntry((n.bits, n.cidr)) && KeyOf(n) in routes && routes[KeyOf(n)] == peer
  {
    assert n in lists[peer];
    assert WellFormed(n);
  }

  ghost function KeyOfEntry(e: (Ip, nat)): Prefix {
    Prefix(|e.0| == IPV6_LEN, if e.1 <= 8 * |e.0| then Take(e.0, e.1) else [])
  }

  // ---------- whole runs ----------

  datatype Op = InsertOp(ip: Ip, cidr: nat, peer: Peer) | RemoveOp(peer: Peer)

  ghost predicate ValidOp(op: Op) {
    op.InsertOp? ==> IsIp(op.ip) && op.cidr <= 8 * |op.ip|
  }

  ghost function OpKey(op: Op): Prefix
    requires op.InsertOp? && ValidOp(op)
  {
    Prefix(|op.ip| == IPV6_LEN, Take(op.ip, op.cidr))
  }

  ghost function ApplyOp(routes: Routes, op: Op): Routes
    requires ValidOp(op)
  {
    match op
    case InsertOp(_, _, peer) => routes[OpKey(op) := peer]
    case RemoveOp(peer) => DropPeer(routes, peer)
  }

  ghost function RoutesAfter(ops: seq<Op>): Routes
    requires forall op :: op in ops ==> ValidOp(op)
  {
    if ops == [] then map[] else ApplyOp(RoutesAfter(ops[..|ops| - 1]), ops[|ops| - 1])
  }

  /** The operation at `i` inserted `k` for `peer`, and nothing after it inserted `k` again or
      removed the peer. */
  ghost predicate Survives(ops: seq<Op>, i: nat, k: Prefix, peer: Peer)
    requires forall op :: op in ops ==> ValidOp(op)
  {
    && i < |ops| && ops[i].InsertOp? && OpKey(ops[i]) == k && ops[i].peer == peer
    && forall j :: i < j < |ops| ==> if ops[j].InsertOp? then OpKey(ops[j]) != k else ops[j].peer != peer
  }

  lemma SurvivesInit(ops: seq<Op>, i: nat, k: Prefix, peer: Peer)
    requires forall op :: op in ops ==> ValidOp(op)
    requires i + 1 < |ops|
    ensures var last := ops[|ops| - 1];
            Survives(ops, i, k, peer) <==>
            Survives(ops[..|ops| - 1], i, k, peer) && (if last.InsertOp? then OpKey(last) != k else last.peer != peer)
  {
  }

  /** What a run of operations leaves behind, said in terms of the run. */
  lemma {:induction false} RoutesAfterMeaning(ops: seq<Op>, k: Prefix, peer: Peer)
    requires forall op :: op in ops ==> ValidOp(op)
    ensures k in RoutesAfter(ops) && RoutesAfter(ops)[k] == peer <==> exists i: nat :: Survives(ops, i, k, peer)
  {
    if ops != [] {
      var n := |ops| - 1;
      var last := ops[n];
      RoutesAfterMeaning(ops[..n], k, peer);
      forall i: nat | i < n
        ensures Survives(ops, i, k, peer) <==>
                Survives(ops[..n], i, k, peer) && (if last.InsertOp? then OpKey(last) != k else last.peer != peer)
      {
        SurvivesInit(ops, i, k, peer);
      }
      if last.InsertOp? && OpKey(last) == k {
        assert Survives(ops, n, k, last.peer);
      } else if i: nat :| Survives(ops[..n], i, k, peer) {
        assert last.InsertOp? || last.peer != peer ==> Survives(ops, i, k, peer);
      }
    }
  }

  /** Any run of operations on an empty table, followed by any lookup. */
  method RunThenLookup(ops: seq<Op>, ip: Ip) returns (table: AllowedIPs, found: Peer?)
    requires forall op :: op in ops ==> ValidOp(op) && op.peer.trieEntries == []
    requires IsIp(ip)
    modifies set op | op in ops :: op.peer
    ensures fresh(table) && table.Valid() && table.routes == RoutesAfter(ops)
    ensures IsLongestMatch(RoutesAfter(ops), ip, found)
  {
    hide AllowedIPs.Valid, IsLongestMatch;
    table := new AllowedIPs();
    for i := 0 to |ops|
      invariant fresh(table) && fresh(table.nodes) && table.Valid() && table.routes == RoutesAfter(ops[..i])
      invariant table.lists.Keys <= set op | op in ops :: op.peer
      invariant forall op :: op in ops ==> op.peer in table.lists || op.peer.trieEntries == []
    {
      var op := ops[i];
      assert ops[..i + 1][..i] == ops[..i];
      match op
      case InsertOp(at, cidr, peer) => table.Insert(at, cidr, peer);
      case RemoveOp(peer) => table.RemoveByPeer(peer);
    }
    assert ops[..|ops|] == ops;
    found := table.Lookup(ip);
  }

  /** Removing every peer leaves nothing in either trie. */
  method RemoveAllPeers(table: AllowedIPs, peers: seq<Peer>)
    requires table.Valid() && table.lists.Keys == set p | p in peers
    modifies table, table.nodes, table.lists.Keys
    ensures table.Valid() && table.routes == map[] && table.nodes == {}
    ensures table.ipv4 == null && table.ipv6 == null
  {
    hide Means, ListsOk;
    for i := 0 to |peers|
      invariant table.Valid() && table.nodes <= old(table.nodes) && table.lists.Keys == old(table.lists.Keys)
      invariant forall k, j :: k in table.routes && 0 <= j < i ==> table.routes[k] != peers[j]
    {
      table.RemoveByPeer(peers[i]);
    }
    NothingLeft(table.trie, table.lists, table.routes);
  }

  lemma RouteListed(s: State, lists: Lists, routes: Routes, k: Prefix)
    requires Coherent(s, lists, routes) && k in routes
    ensures routes[k] in lists
  {
    var n :| n in PeerMap(s) && KeyOf(n) == k;
    assert n in Entries(lists, PeerMap(s)[n]);
  }

  lemma NothingLeft(s: State, lists: Lists, routes: Routes)
    requires Coherent(s, lists, routes) && forall k :: k in routes ==> routes[k] !in lists
    ensures routes == map[] && s == State(map[], null, null)
  {
    if k :| k in routes {
      RouteListed(s, lists, routes, k);
      assert false;
    }
    NoRoutesNoNodes(s, routes);
  }

  ghost function DropPeer(routes: Routes, peer: Peer): Routes {
    routes - (set k | k in routes && routes[k] == peer)
  }

  /** A peer with an empty list has no routes. */
  lemma NoEntries(s: State, lists: Lists, routes: Routes, peer: Peer)
    requires Coherent(s, lists, routes) && Entries(lists, peer) == []
    ensures forall k :: k in routes ==> routes[k] != peer
  {
    forall k | k in routes
      ensures routes[k] != peer
    {
      var n :| n in PeerMap(s) && KeyOf(n) == k;
      assert n in Entries(lists, PeerMap(s)[n]);
    }
  }

  lemma FirstEntry(s: State, lists: Lists, routes: Routes, peer: Peer)
    requires Coherent(s, lists, routes) && peer in lists && lists[peer] != []
    ensures var n := lists[peer][0];
            n in s.cells && s.cells[n].peer == peer && KeyOf(n) in routes && routes[KeyOf(n)] == peer
            && Without(lists[peer], n) == lists[peer][1..]
  {
    var n := lists[peer][0];
    assert n in lists[peer];
  }

  lemma RemoveNodeCoherent(s: State, lists: Lists, routes: Routes, n: TrieEntry)
    requires Coherent(s, lists, routes) && n in s.cells && s.cells[n].peer != null
    ensures var p := s.cells[n].peer;
            p in lists && Coherent(TrieRoutes.RemoveNode(s, n), lists[p := Without(lists[p], n)], routes - {KeyOf(n)})
  {
    RemoveNodeMeans(s, routes, n);
    RemoveNodePeers(s, n);
    ListsRemove(PeerMap(s), lists, n);
  }
}
