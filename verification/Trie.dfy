/** The cryptokey routing trie as a value: what every node's fields hold at one moment, the
    shape invariant, and the four ways `insert` and `RemoveByPeer` rewrite it
    (wireguard/device/allowedips.go:24-33, 88-189, 226-266). */
module Trie {
  import opened IpBits

  /** A slot that holds a pointer to a trie node: the source's `parentIndirection`, where bit
      type 2 is one of the two table roots and a nil pointer is no slot at all. */
  datatype Slot = RootSlot(v6: bool) | ChildSlot(node: TrieEntry, bit: bool) | NoSlot

  datatype Children = Children(zero: TrieEntry?, one: TrieEntry?) {
    function Get(bit: bool): TrieEntry? {
      if bit then one else zero
    }

    function Set(bit: bool, n: TrieEntry?): Children {
      if bit then this.(one := n) else this.(zero := n)
    }
  }

  class Peer {
    var trieEntries: seq<TrieEntry>

    constructor ()
      ensures trieEntries == []
    {
      trieEntries := [];
    }
  }

  class TrieEntry {
    ghost const path: seq<bool>  // the prefix as a bit string
    const bits: Ip
    const cidr: nat
    const bitAtByte: nat
    const bitAtShift: nat
    var peer: Peer?
    var child: Children
    var parent: Slot
    var perPeerElem: bool  // whether the node is linked into its peer's list

    constructor (ip: Ip, cidr: nat, peer: Peer?, parent: Slot)
      requires IsIp(ip) && cidr <= 8 * |ip|
      ensures WellFormed(this) && |this.bits| == |ip| && this.cidr == cidr && this.path == Take(ip, cidr)
      ensures this.peer == peer && this.child == Children(null, null) && this.parent == parent
      ensures !this.perPeerElem
    {
      var masked := MaskSelf(ip, cidr);
      assert Take(masked, cidr) == Take(ip, cidr);
      this.path := Take(ip, cidr);
      this.bits := masked;
      this.cidr := cidr;
      this.bitAtByte := cidr / 8;
      this.bitAtShift := 7 - cidr % 8;
      this.peer := peer;
      this.child := Children(null, null);
      this.parent := parent;
      this.perPeerElem := false;
    }

    /** The child to follow for `ip`: the bit right after this node's prefix. */
    function Choose(ip: Ip): (bit: bool)
      requires WellFormed(this) && cidr < 8 * |ip|
      ensures bit == Bit(ip, cidr)
    {
      (ip[bitAtByte] >> bitAtShift) & 1 == 1
    }
  }

  ghost predicate WellFormed(n: TrieEntry) {
    && IsIp(n.bits)
    && n.cidr <= 8 * |n.bits|
    && n.path == Take(n.bits, n.cidr)
    && Masked(n.bits, n.cidr)
    && n.bitAtByte == n.cidr / 8
    && n.bitAtShift == 7 - n.cidr % 8
  }

  // ---------- the trie as a value ----------

  datatype Cell = Cell(peer: Peer?, child: Children, parent: Slot)

  datatype State = State(cells: map<TrieEntry, Cell>, root4: TrieEntry?, root6: TrieEntry?) {
    function Root(v6: bool): TrieEntry? {
      if v6 then root6 else root4
    }
  }

  /** The slot exists in this trie. */
  ghost predicate HasSlot(s: State, slot: Slot) {
    slot.RootSlot? || (slot.ChildSlot? && slot.node in s.cells)
  }

  ghost function Load(s: State, slot: Slot): TrieEntry?
    requires HasSlot(s, slot)
  {
    match slot
    case RootSlot(v6) => s.Root(v6)
    case ChildSlot(p, bit) => s.cells[p].child.Get(bit)
  }

  ghost function Store(s: State, slot: Slot, n: TrieEntry?): State
    requires HasSlot(s, slot)
  {
    match slot
    case RootSlot(v6) => if v6 then s.(root6 := n) else s.(root4 := n)
    case ChildSlot(p, bit) => s.(cells := s.cells[p := s.cells[p].(child := s.cells[p].child.Set(bit, n))])
  }

  ghost function Reparent(s: State, n: TrieEntry?, slot: Slot): State
    requires n != null ==> n in s.cells
  {
    if n == null then s else s.(cells := s.cells[n := s.cells[n].(parent := slot)])
  }

  /** `n` extends the prefix of `p`, and its next bit after that prefix is `bit`. */
  ghost predicate Below(p: TrieEntry, bit: bool, n: TrieEntry) {
    |p.bits| == |n.bits| && p.path + [bit] <= n.path
  }

  /** A node with `len` address bytes and this prefix may be stored in this slot. */
  ghost predicate FitsPath(slot: Slot, len: nat, path: seq<bool>) {
    match slot
    case NoSlot => false
    case RootSlot(v6) => len == if v6 then IPV6_LEN else IPV4_LEN
    case ChildSlot(p, bit) => |p.bits| == len && p.path + [bit] <= path
  }

  ghost predicate Fits(slot: Slot, n: TrieEntry) {
    FitsPath(slot, |n.bits|, n.path)
  }

  /** The parent link of `n` is exact: it names an existing slot, and that slot holds `n`. */
  ghost predicate Linked(s: State, n: TrieEntry)
    requires n in s.cells
  {
    var up := s.cells[n].parent;
    HasSlot(s, up) && Load(s, up) == n && Fits(up, n)
  }

  /** Whatever a slot holds is a node of the trie whose parent link names that slot. */
  ghost predicate Holds(s: State, slot: Slot)
    requires HasSlot(s, slot)
  {
    var n := Load(s, slot);
    n != null ==> n in s.cells && s.cells[n].parent == slot
  }

  /** A node carries a peer, or it is a branching point with two children. */
  ghost predicate Useful(c: Cell) {
    c.peer != null || (c.child.zero != null && c.child.one != null)
  }

  /** The shape invariant; the node `except` may lack a peer and children for the moment. */
  ghost predicate Shape(s: State, except: TrieEntry?) {
    UpOk(s) && DownOk(s) && AllUseful(s, except)
  }

  ghost predicate UpOk(s: State) {
    forall n {:trigger WellFormed(n)} {:trigger Linked(s, n)} :: n in s.cells ==> WellFormed(n) && Linked(s, n)
  }

  ghost predicate DownOk(s: State) {
    && (forall n, bit {:trigger Holds(s, ChildSlot(n, bit))} :: n in s.cells ==> Holds(s, ChildSlot(n, bit)))
    && (forall v6 {:trigger Holds(s, RootSlot(v6))} :: Holds(s, RootSlot(v6)))
  }

  lemma AnyHolds(s: State, at: Slot)
    requires DownOk(s) && HasSlot(s, at)
    ensures Holds(s, at)
  {
    match at
    case RootSlot(v6) => assert Holds(s, RootSlot(v6));
    case ChildSlot(n, bit) => assert Holds(s, ChildSlot(n, bit));
  }

  ghost predicate AllUseful(s: State, except: TrieEntry?) {
    forall n {:trigger Useful(s.cells[n])} :: n in s.cells && n != except ==> Useful(s.cells[n])
  }

  // ---------- the four rewrites ----------

  /** Put a new node with no children into an empty slot. */
  ghost function AddLeaf(s: State, slot: Slot, n: TrieEntry, peer: Peer): State
    requires HasSlot(s, slot) && n !in s.cells
  {
    Store(s.(cells := s.cells[n := Cell(peer, Children(null, null), slot)]), slot, n)
  }

  /** Put a new node into the slot of `down`, with `down` as its child. */
  ghost function AddAbove(s: State, slot: Slot, n: TrieEntry, peer: Peer?, down: TrieEntry, bit: bool): State
    requires HasSlot(s, slot) && n !in s.cells && down in s.cells
  {
    var s1 := Reparent(s, down, ChildSlot(n, bit));
    Store(s1.(cells := s1.cells[n := Cell(peer, Children(null, null).Set(bit, down), slot)]), slot, n)
  }

  ghost function SetPeer(s: State, n: TrieEntry, peer: Peer?): State
    requires n in s.cells
  {
    s.(cells := s.cells[n := s.cells[n].(peer := peer)])
  }

  /** The child that replaces a node with at most one child. */
  ghost function OnlyChild(c: Cell): TrieEntry? {
    if c.child.zero == null then c.child.one else c.child.zero
  }

  /** Take a node with at most one child out of the trie and move the child up. */
  ghost function Splice(s: State, n: TrieEntry): State
    requires Shape(s, n) && n in s.cells
  {
    var up := s.cells[n].parent;
    assert Linked(s, n);
    var only := OnlyChild(s.cells[n]);
    assert Holds(s, ChildSlot(n, false)) && Holds(s, ChildSlot(n, true));
    var s1 := Store(Reparent(s, only, up), up, only);
    s1.(cells := s1.cells - {n})
  }

  ghost predicate CanAddLeaf(s: State, slot: Slot, n: TrieEntry, except: TrieEntry?) {
    && Shape(s, except) && HasSlot(s, slot) && n !in s.cells
    && WellFormed(n) && Fits(slot, n) && Load(s, slot) == null
    && (except != null ==>
          except in s.cells && slot.ChildSlot? && slot.node == except && s.cells[except].child.Get(!slot.bit) != null)
  }

  lemma AddLeafLinked(s: State, slot: Slot, n: TrieEntry, peer: Peer, except: TrieEntry?, m: TrieEntry)
    requires CanAddLeaf(s, slot, n, except) && m in AddLeaf(s, slot, n, peer).cells
    ensures WellFormed(m) && Linked(AddLeaf(s, slot, n, peer), m)
  {
    assert m in s.cells ==> Linked(s, m);
  }

  lemma AddLeafHolds(s: State, slot: Slot, n: TrieEntry, peer: Peer, except: TrieEntry?, at: Slot)
    requires CanAddLeaf(s, slot, n, except) && HasSlot(AddLeaf(s, slot, n, peer), at)
    ensures Holds(AddLeaf(s, slot, n, peer), at)
  {
    if HasSlot(s, at) {
      AnyHolds(s, at);
    }
  }

  lemma AddLeafShape(s: State, slot: Slot, n: TrieEntry, peer: Peer, except: TrieEntry?)
    requires CanAddLeaf(s, slot, n, except)
    ensures Shape(AddLeaf(s, slot, n, peer), null)
  {
    var t := AddLeaf(s, slot, n, peer);
    assert UpOk(t) by {
      forall m | m in t.cells ensures WellFormed(m) && Linked(t, m) {
        AddLeafLinked(s, slot, n, peer, except, m);
      }
    }
    assert DownOk(t) by {
      forall m, bit | m in t.cells ensures Holds(t, ChildSlot(m, bit)) {
        AddLeafHolds(s, slot, n, peer, except, ChildSlot(m, bit));
      }
      forall v6 ensures Holds(t, RootSlot(v6)) {
        AddLeafHolds(s, slot, n, peer, except, RootSlot(v6));
      }
    }
    forall m | m in t.cells ensures Useful(t.cells[m]) {
      assert m in s.cells && m != except ==> Useful(s.cells[m]);
    }
  }

  ghost predicate CanAddAbove(s: State, slot: Slot, n: TrieEntry, down: TrieEntry, bit: bool) {
    && Shape(s, null) && HasSlot(s, slot) && n !in s.cells && down in s.cells
    && WellFormed(n) && Fits(slot, n) && Load(s, slot) == down && Below(n, bit, down)
  }

  lemma AddAboveLinked(s: State, slot: Slot, n: TrieEntry, peer: Peer?, down: TrieEntry, bit: bool, m: TrieEntry)
    requires CanAddAbove(s, slot, n, down, bit) && m in AddAbove(s, slot, n, peer, down, bit).cells
    ensures WellFormed(m) && Linked(AddAbove(s, slot, n, peer, down, bit), m)
  {
    AnyHolds(s, slot);
    assert m in s.cells ==> Linked(s, m);
  }

  lemma AddAboveHolds(s: State, slot: Slot, n: TrieEntry, peer: Peer?, down: TrieEntry, bit: bool, at: Slot)
    requires CanAddAbove(s, slot, n, down, bit) && HasSlot(AddAbove(s, slot, n, peer, down, bit), at)
    ensures Holds(AddAbove(s, slot, n, peer, down, bit), at)
  {
    AnyHolds(s, slot);
    if HasSlot(s, at) {
      AnyHolds(s, at);
    }
  }

  lemma AddAboveShape(s: State, slot: Slot, n: TrieEntry, peer: Peer?, down: TrieEntry, bit: bool)
    requires CanAddAbove(s, slot, n, down, bit)
    ensures Shape(AddAbove(s, slot, n, peer, down, bit), if peer == null then n else null)
  {
    var t := AddAbove(s, slot, n, peer, down, bit);
    assert UpOk(t) by {
      forall m | m in t.cells ensures WellFormed(m) && Linked(t, m) {
        AddAboveLinked(s, slot, n, peer, down, bit, m);
      }
    }
    assert DownOk(t) by {
      forall m, b | m in t.cells ensures Holds(t, ChildSlot(m, b)) {
        AddAboveHolds(s, slot, n, peer, down, bit, ChildSlot(m, b));
      }
      forall v6 ensures Holds(t, RootSlot(v6)) {
        AddAboveHolds(s, slot, n, peer, down, bit, RootSlot(v6));
      }
    }
    forall m | m in t.cells ensures m != n || peer != null ==> Useful(t.cells[m]) {
      assert m in s.cells ==> Useful(s.cells[m]);
    }
  }

  lemma SetPeerShape(s: State, n: TrieEntry, peer: Peer?)
    requires Shape(s, null) && n in s.cells
    ensures Shape(SetPeer(s, n, peer), if peer == null then n else null)
  {
    var t := SetPeer(s, n, peer);
    assert UpOk(t) by {
      forall m | m in t.cells ensures WellFormed(m) && Linked(t, m) {
        assert Linked(s, m);
      }
    }
    assert DownOk(t) by {
      forall m, b | m in t.cells ensures Holds(t, ChildSlot(m, b)) {
        assert Holds(s, ChildSlot(m, b));
      }
      forall v6 ensures Holds(t, RootSlot(v6)) {
        assert Holds(s, RootSlot(v6));
      }
    }
    forall m | m in t.cells ensures m != n || peer != null ==> Useful(t.cells[m]) {
      assert Useful(s.cells[m]);
    }
  }

  /** `n` has lost its peer and has at most one child. */
  ghost predicate CanSplice(s: State, n: TrieEntry) {
    && Shape(s, n) && n in s.cells
    && (s.cells[n].child.zero == null || s.cells[n].child.one == null)
  }

  lemma SpliceLinks(s: State, n: TrieEntry)
    requires CanSplice(s, n)
    ensures var only := OnlyChild(s.cells[n]);
            var up := s.cells[n].parent;
            && HasSlot(s, up) && (up.ChildSlot? ==> up.node != n)
            && (only != null ==> only in s.cells && only != n && Fits(up, only))
            && (only != null ==> s.cells[only].parent.ChildSlot? && s.cells[only].parent.node == n)
            && Splice(s, n).cells.Keys == s.cells.Keys - {n}
  {
    assert Linked(s, n);
    var only := OnlyChild(s.cells[n]);
    if only != null {
      assert Holds(s, ChildSlot(n, false)) && Holds(s, ChildSlot(n, true));
      assert Linked(s, only);
    }
  }

  lemma SpliceLinked(s: State, n: TrieEntry, m: TrieEntry)
    requires CanSplice(s, n) && m in Splice(s, n).cells
    ensures WellFormed(m) && Linked(Splice(s, n), m)
  {
    SpliceLinks(s, n);
    assert Linked(s, n) && Linked(s, m);
    if m == OnlyChild(s.cells[n]) {
      assert Splice(s, n).cells[m].parent == s.cells[n].parent;
    } else {
      assert Splice(s, n).cells[m].parent == s.cells[m].parent;
    }
  }

  lemma SpliceHolds(s: State, n: TrieEntry, at: Slot)
    requires CanSplice(s, n) && HasSlot(Splice(s, n), at)
    ensures Holds(Splice(s, n), at)
  {
    SpliceLinks(s, n);
    assert Linked(s, n);
    AnyHolds(s, at);
  }

  /** Splicing a node out keeps the shape; only a parent that has lost its last reason to exist
      may be left over. */
  lemma SpliceShape(s: State, n: TrieEntry)
    requires CanSplice(s, n)
    ensures var up := s.cells[n].parent;
            Shape(Splice(s, n), if OnlyChild(s.cells[n]) == null && up.ChildSlot? then up.node else null)
  {
    var t := Splice(s, n);
    SpliceLinks(s, n);
    assert UpOk(t) by {
      forall m | m in t.cells ensures WellFormed(m) && Linked(t, m) {
        SpliceLinked(s, n, m);
      }
    }
    assert DownOk(t) by {
      forall m, b | m in t.cells ensures Holds(t, ChildSlot(m, b)) {
        SpliceHolds(s, n, ChildSlot(m, b));
      }
      forall v6 ensures Holds(t, RootSlot(v6)) {
        SpliceHolds(s, n, RootSlot(v6));
      }
    }
    var up := s.cells[n].parent;
    forall m | m in t.cells
      ensures OnlyChild(s.cells[n]) != null || !up.ChildSlot? || up.node != m ==> Useful(t.cells[m])
    {
      assert Useful(s.cells[m]);
    }
  }
}
