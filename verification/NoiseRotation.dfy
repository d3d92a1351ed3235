/** The shared index table and the keypair slots of all peers as a value, and what every step of
    the protocol keeps (wireguard/device/indextable.go; wireguard/device/keypair.go;
    wireguard/device/noise-protocol.go:118-160, 575-625; wireguard/device/peer.go:225-268). */
module NoiseRotation {
  import opened NoiseTerms
  import opened NoiseHandshake
  import opened Options

  datatype HandshakeState = HandshakeZeroed | InitiationCreated | InitiationConsumed | ResponseCreated | ResponseConsumed

  datatype Handshake = Handshake(state: HandshakeState, hash: Term, chainKey: Term, presharedKey: Term,
                                 localEphemeral: Option<PrivateKey>, localIndex: nat, remoteIndex: nat,
                                 remoteStatic: PublicKey, remoteEphemeral: PublicKey, staticStatic: Option<Term>, lastTimestamp: nat)
  {
    /** Handshake.Clear */
    function Clear(): Handshake {
      this.(localEphemeral := None, remoteEphemeral := LowOrder(0), chainKey := Zeroed, hash := Zeroed,
            localIndex := 0, state := HandshakeZeroed)
    }

    function Transcript(): Transcript {
      NoiseHandshake.Transcript(hash, chainKey)
    }
  }

  class Keypair {
    const send: Term
    const receive: Term
    const isInitiator: bool
    const localIndex: nat
    const remoteIndex: nat
    var expired: bool  // sendNonce has been set to RejectAfterMessages

    constructor (keys: (Term, Term), isInitiator: bool, localIndex: nat, remoteIndex: nat)
      ensures send == keys.0 && receive == keys.1 && this.isInitiator == isInitiator
      ensures this.localIndex == localIndex && this.remoteIndex == remoteIndex && !expired
    {
      send, receive := keys.0, keys.1;
      this.isInitiator, this.localIndex, this.remoteIndex := isInitiator, localIndex, remoteIndex;
      expired := false;
    }
  }

  class Peer {
    var handshake: Handshake
    var current: Keypair?
    var previous: Keypair?
    var next: Keypair?
    var staged: seq<nat>         // the packets waiting for a session
    var lastSentHandshake: int

    constructor (remoteStatic: PublicKey, staticStatic: Option<Term>, presharedKey: Term)
      ensures handshake == Handshake(HandshakeZeroed, Zeroed, Zeroed, presharedKey, None, 0, 0, remoteStatic, LowOrder(0), staticStatic, 0)
      ensures current == null && previous == null && next == null
    {
      handshake := Handshake(HandshakeZeroed, Zeroed, Zeroed, presharedKey, None, 0, 0, remoteStatic, LowOrder(0), staticStatic, 0);
      current, previous, next := null, null, null;
      staged, lastSentHandshake := [], 0;
    }
  }

  /** An index names a peer's handshake in progress, or one of its keypairs. */
  datatype IndexTableEntry = IndexTableEntry(peer: Peer, keypair: Keypair?)

  type IndexTable = map<nat, IndexTableEntry>

  /** DeleteKeypair */
  function Without(table: IndexTable, kp: Keypair?): IndexTable {
    if kp == null then table else table - {kp.localIndex}
  }

  /** The handshake states in which the handshake owns an index. */
  predicate InProgress(s: HandshakeState) {
    s == InitiationCreated || s == ResponseCreated || s == ResponseConsumed
  }

  /** What a peer holds that the table refers to. */
  datatype Slots = Slots(index: nat, inProgress: bool, current: Keypair?, previous: Keypair?, next: Keypair?) {
    predicate Has(kp: Keypair) {
      kp == current || kp == previous || kp == next
    }
  }

  /** `confirmed` are the keypairs under which an authenticated packet has been received, `verified` the peers whose
      response has been authenticated and not yet stored, by consumer. */
  datatype Net = Net(table: IndexTable, slots: map<Peer, Slots>, confirmed: set<Keypair>, verified: map<nat, Peer>)

  /** A keypair in a slot of `p` is in the table under its own index, if it has one. */
  ghost predicate Listed(t: IndexTable, p: Peer, kp: Keypair?) {
    kp != null && kp.localIndex != 0 ==> kp.localIndex in t && t[kp.localIndex] == IndexTableEntry(p, kp)
  }

  ghost predicate Apart(a: Keypair?, b: Keypair?) {
    a != null ==> a != b
  }

  /** The peer's handshake and its three slots are in the table under the indices they have; the slots share no
      keypair; a current keypair that was derived as responder has been confirmed. */
  ghost predicate PeerOk(v: Net, p: Peer)
    requires p in v.slots
  {
    var s := v.slots[p];
    && (s.index != 0 ==> s.index in v.table && v.table[s.index] == IndexTableEntry(p, null))
    && Listed(v.table, p, s.current) && Listed(v.table, p, s.previous) && Listed(v.table, p, s.next)
    && Apart(s.current, s.previous) && Apart(s.current, s.next) && Apart(s.previous, s.next)
    && (s.current != null && !s.current.isInitiator ==> s.current in v.confirmed)
  }

  /** A table entry is the handshake in progress with that index, or a keypair in a slot of its peer. */
  ghost predicate EntryOk(v: Net, i: nat)
    requires i in v.table
  {
    var e := v.table[i];
    && e.peer in v.slots
    && if e.keypair == null then v.slots[e.peer].index == i else e.keypair.localIndex == i && v.slots[e.peer].Has(e.keypair)
  }

  /** No index leads to anything but its owner. */
  ghost predicate Sound(v: Net) {
    && 0 !in v.table
    && (forall p {:trigger PeerOk(v, p)} :: p in v.slots ==> PeerOk(v, p))
    && (forall i {:trigger EntryOk(v, i)} :: i in v.table ==> EntryOk(v, i))
    && (forall c {:trigger v.verified[c]} :: c in v.verified ==> v.verified[c] in v.slots)
  }

  ghost predicate HasIndex(kp: Keypair?) {
    kp != null ==> kp.localIndex != 0
  }

  /** A handshake in progress and the keypairs in the slots have an index. */
  ghost predicate Owned(s: Slots) {
    && (s.inProgress ==> s.index != 0)
    && HasIndex(s.current) && HasIndex(s.previous) && HasIndex(s.next)
  }

  ghost predicate Complete(v: Net) {
    forall p {:trigger v.slots[p]} :: p in v.slots ==> Owned(v.slots[p])
  }

  /** The index table invariant: an index leads to its owner, and every owner is found. */
  ghost predicate NetOk(v: Net) {
    Sound(v) && Complete(v)
  }

  // ---------- the steps ----------

  /** A new peer, with nothing in the table. */
  ghost function AddPeer(v: Net, p: Peer): Net {
    v.(slots := v.slots[p := Slots(0, false, null, null, null)])
  }

  lemma AddPeerOk(v: Net, p: Peer)
    requires Sound(v) && p !in v.slots
    ensures Sound(AddPeer(v, p))
  {
    var w := AddPeer(v, p);
    forall q | q in w.slots ensures PeerOk(w, q) {
      assert q != p ==> PeerOk(v, q);
    }
    forall i | i in w.table ensures EntryOk(w, i) {
      assert EntryOk(v, i);
    }
  }

  /** The handshake gives up its index and gets a new one. */
  ghost function Reindex(v: Net, p: Peer, index: nat): Net
    requires p in v.slots
  {
    var s := v.slots[p];
    v.(table := (v.table - {s.index})[index := IndexTableEntry(p, null)], slots := v.slots[p := s.(index := index, inProgress := true)])
  }

  lemma ReindexOk(v: Net, p: Peer, index: nat)
    requires Sound(v) && p in v.slots && index != 0 && index !in v.table - {v.slots[p].index}
    ensures Sound(Reindex(v, p, index))
  {
    var w := Reindex(v, p, index);
    assert PeerOk(v, p);
    forall q | q in w.slots ensures PeerOk(w, q) {
      assert PeerOk(v, q);
    }
    forall i | i in w.table ensures EntryOk(w, i) {
      assert i != index ==> EntryOk(v, i);
    }
  }

  /** The handshake moves to a state with or without an index of its own. */
  ghost function Mark(v: Net, p: Peer, inProgress: bool): Net
    requires p in v.slots
  {
    v.(slots := v.slots[p := v.slots[p].(inProgress := inProgress)])
  }

  lemma MarkOk(v: Net, p: Peer, inProgress: bool)
    requires Sound(v) && p in v.slots
    ensures Sound(Mark(v, p, inProgress))
  {
    var w := Mark(v, p, inProgress);
    forall q | q in w.slots ensures PeerOk(w, q) {
      assert PeerOk(v, q);
    }
    forall i | i in w.table ensures EntryOk(w, i) {
      assert EntryOk(v, i);
    }
  }

  /** The handshake is cleared and its index given up. */
  ghost function ClearHandshake(v: Net, p: Peer): Net
    requires p in v.slots
  {
    var s := v.slots[p];
    v.(table := v.table - {s.index}, slots := v.slots[p := s.(index := 0, inProgress := false)])
  }

  lemma ClearHandshakeOk(v: Net, p: Peer)
    requires Sound(v) && p in v.slots
    ensures Sound(ClearHandshake(v, p))
  {
    var w := ClearHandshake(v, p);
    assert PeerOk(v, p);
    forall q | q in w.slots ensures PeerOk(w, q) {
      assert PeerOk(v, q);
    }
    forall i | i in w.table ensures EntryOk(w, i) {
      assert EntryOk(v, i);
    }
  }

  /** All three keypairs are dropped. */
  ghost function DropKeypairs(v: Net, p: Peer): Net
    requires p in v.slots
  {
    var s := v.slots[p];
    v.(table := Without(Without(Without(v.table, s.previous), s.current), s.next),
       slots := v.slots[p := s.(current := null, previous := null, next := null)])
  }

  lemma DropKeypairsOk(v: Net, p: Peer)
    requires Sound(v) && p in v.slots
    ensures Sound(DropKeypairs(v, p))
  {
    var w := DropKeypairs(v, p);
    assert PeerOk(v, p);
    forall q | q in w.slots ensures PeerOk(w, q) {
      assert PeerOk(v, q);
    }
    forall i | i in w.table ensures EntryOk(w, i) {
      assert EntryOk(v, i);
    }
  }

  /** The slots of the peer after a new keypair has been derived. */
  function Rotated(s: Slots, kp: Keypair): Slots {
    if kp.isInitiator then
      Slots(0, false, kp, if s.next != null then s.next else s.current, null)
    else
      Slots(0, false, s.current, null, kp)
  }

  /** The keypairs that lose their slot. */
  function Displaced(s: Slots, kp: Keypair): (Keypair?, Keypair?) {
    if kp.isInitiator then (if s.next != null then s.current else null, s.previous) else (s.next, s.previous)
  }

  /** A keypair that has just been made. */
  ghost predicate Fresh(v: Net, kp: Keypair) {
    && kp !in v.confirmed
    && (forall i {:trigger v.table[i]} :: i in v.table ==> v.table[i].keypair != kp)
    && (forall p {:trigger v.slots[p]} :: p in v.slots ==> !v.slots[p].Has(kp))
  }

  /** SwapIndexForKeypair */
  function Swapped(table: IndexTable, i: nat, kp: Keypair): IndexTable {
    if i in table then table[i := table[i].(keypair := kp)] else table
  }

  /** BeginSymmetricSession: the handshake's index becomes the keypair's. */
  ghost function Rotate(v: Net, p: Peer, kp: Keypair): Net
    requires p in v.slots
  {
    var s := v.slots[p];
    var (gone1, gone2) := Displaced(s, kp);
    v.(table := Without(Without(Swapped(v.table, s.index, kp), gone1), gone2), slots := v.slots[p := Rotated(s, kp)])
  }

  lemma RotateOwner(v: Net, p: Peer, kp: Keypair)
    requires Sound(v) && p in v.slots && v.slots[p].index == kp.localIndex && Fresh(v, kp)
    ensures PeerOk(Rotate(v, p, kp), p)
  {
    assert PeerOk(v, p);
  }

  lemma RotateOther(v: Net, p: Peer, kp: Keypair, q: Peer)
    requires Sound(v) && p in v.slots && v.slots[p].index == kp.localIndex && q in v.slots && q != p
    ensures PeerOk(Rotate(v, p, kp), q)
  {
    assert PeerOk(v, p) && PeerOk(v, q);
  }

  lemma RotateEntry(v: Net, p: Peer, kp: Keypair, i: nat)
    requires Sound(v) && p in v.slots && v.slots[p].index == kp.localIndex && Fresh(v, kp) && i in Rotate(v, p, kp).table
    ensures EntryOk(Rotate(v, p, kp), i)
  {
    assert PeerOk(v, p) && EntryOk(v, i);
  }

  lemma RotateOk(v: Net, p: Peer, kp: Keypair)
    requires Sound(v) && p in v.slots && v.slots[p].index == kp.localIndex && Fresh(v, kp)
    ensures Sound(Rotate(v, p, kp))
  {
    hide PeerOk, EntryOk, Fresh;
    var w := Rotate(v, p, kp);
    forall q | q in w.slots ensures PeerOk(w, q) {
      if q == p {
        RotateOwner(v, p, kp);
      } else {
        RotateOther(v, p, kp, q);
      }
    }
    forall i | i in w.table ensures EntryOk(w, i) {
      RotateEntry(v, p, kp, i);
    }
  }

  /** ReceivedWithKeypair with the keypair in `next`: it is confirmed and becomes the current one. */
  ghost function Promote(v: Net, p: Peer, kp: Keypair): Net
    requires p in v.slots
  {
    var s := v.slots[p];
    if s.next == kp then
      v.(table := Without(v.table, s.previous), confirmed := v.confirmed + {kp},
         slots := v.slots[p := s.(previous := s.current, current := kp, next := null)])
    else v.(confirmed := v.confirmed + {kp})
  }

  lemma PromoteOk(v: Net, p: Peer, kp: Keypair)
    requires Sound(v) && p in v.slots
    ensures Sound(Promote(v, p, kp))
  {
    var w := Promote(v, p, kp);
    assert PeerOk(v, p);
    forall q | q in w.slots ensures PeerOk(w, q) {
      assert PeerOk(v, q);
    }
    forall i | i in w.table ensures EntryOk(w, i) {
      assert EntryOk(v, i);
    }
  }

  // ---------- every run ----------

  /** The regions under the lock of a handshake or of a peer's keypairs; BeginSymmetricSession, which takes the
      second lock inside the first, is one step. ConsumeMessageResponse has two regions: Verify and Store. */
  datatype Step =
    | NewPeer(peer: Peer)
    | NewIndex(peer: Peer, index: nat, inProgress: bool)
    | SetState(peer: Peer, inProgress: bool)
    | Verify(c: nat, peer: Peer)
    | Store(c: nat)
    | Forget(peer: Peer)
    | Flush(peer: Peer)
    | Derive(peer: Peer, keypair: Keypair)
    | Receive(peer: Peer, keypair: Keypair)

  /** Store and Derive look at the state of the handshake, if at anything, and not at its index. */
  ghost predicate Enabled(v: Net, s: Step) {
    match s
    case NewPeer(p) => p !in v.slots
    case NewIndex(p, i, _) => p in v.slots && i != 0 && i !in v.table - {v.slots[p].index}
    case SetState(p, busy) => p in v.slots && (busy ==> v.slots[p].index != 0)
    case Verify(c, p) => c !in v.verified && p in v.slots && v.slots[p].inProgress
    case Store(c) => c in v.verified && v.verified[c] in v.slots
    case Forget(p) => p in v.slots
    case Flush(p) => p in v.slots
    case Derive(p, kp) => p in v.slots && v.slots[p].inProgress && v.slots[p].index == kp.localIndex && Fresh(v, kp)
    case Receive(p, _) => p in v.slots
  }

  ghost function Apply(v: Net, s: Step): Net
    requires Enabled(v, s)
  {
    match s
    case NewPeer(p) => AddPeer(v, p)
    case NewIndex(p, i, busy) => Mark(Reindex(v, p, i), p, busy)
    case SetState(p, busy) => Mark(v, p, busy)
    case Verify(c, p) => v.(verified := v.verified[c := p])
    case Store(c) => Mark(v.(verified := v.verified - {c}), v.verified[c], true)
    case Forget(p) => ClearHandshake(v, p)
    case Flush(p) => DropKeypairs(v, p)
    case Derive(p, kp) => Rotate(v, p, kp)
    case Receive(p, kp) => Promote(v, p, kp)
  }

  lemma VerifiedOk(v: Net, verified: map<nat, Peer>)
    requires Sound(v) && forall c {:trigger verified[c]} :: c in verified ==> verified[c] in v.slots
    ensures Sound(v.(verified := verified))
  {
    var w := v.(verified := verified);
    forall q | q in w.slots ensures PeerOk(w, q) {
      assert PeerOk(v, q);
    }
    forall i | i in w.table ensures EntryOk(w, i) {
      assert EntryOk(v, i);
    }
  }

  lemma StoreOk(v: Net, c: nat)
    requires Sound(v) && c in v.verified
    ensures v.verified[c] in v.slots && Sound(Mark(v.(verified := v.verified - {c}), v.verified[c], true))
  {
    VerifiedOk(v, v.verified - {c});
    MarkOk(v.(verified := v.verified - {c}), v.verified[c], true);
  }

  lemma ApplyOk(v: Net, s: Step)
    requires Sound(v) && Enabled(v, s)
    ensures Sound(Apply(v, s))
  {
    if s.Verify? {
      VerifiedOk(v, v.verified[s.c := s.peer]);
    }
    hide Sound, Fresh, Reindex, Mark, Rotate, Promote, DropKeypairs, ClearHandshake;
    match s
    case NewPeer(p) => AddPeerOk(v, p);
    case NewIndex(p, i, busy) =>
      ReindexOk(v, p, i);
      ReindexIndex(v, p, i);
      MarkOk(Reindex(v, p, i), p, busy);
    case SetState(p, busy) => MarkOk(v, p, busy);
    case Verify(c, p) =>
    case Store(c) => StoreOk(v, c);
    case Forget(p) => ClearHandshakeOk(v, p);
    case Flush(p) => DropKeypairsOk(v, p);
    case Derive(p, kp) => RotateOk(v, p, kp);
    case Receive(p, kp) => PromoteOk(v, p, kp);
  }

  /** A step that is not Store, or that finds the index still there. */
  ghost predicate Timely(v: Net, s: Step)
    requires Enabled(v, s)
  {
    s.Store? ==> v.slots[v.verified[s.c]].index != 0
  }

  /** The one step that can leave a handshake without its index is a Store that comes after the index has been
      given up, and it always does. */
  lemma ApplyComplete(v: Net, s: Step)
    requires Complete(v) && Enabled(v, s)
    ensures Complete(Apply(v, s)) <==> Timely(v, s)
  {
    hide Fresh, Without, Swapped;
    var w := Apply(v, s);
    if Timely(v, s) {
      forall p {:trigger w.slots[p]} | p in w.slots ensures Owned(w.slots[p]) {
        assert p in v.slots ==> Owned(v.slots[p]);
      }
    } else {
      assert !Owned(w.slots[v.verified[s.c]]);
    }
  }

  lemma ReindexIndex(v: Net, p: Peer, index: nat)
    requires p in v.slots
    ensures p in Reindex(v, p, index).slots && Reindex(v, p, index).slots[p].index == index
  {
  }

  lemma MarkReindex(v: Net, p: Peer, index: nat, busy: bool)
    requires p in v.slots
    ensures p in Reindex(v, p, index).slots
    ensures Mark(Mark(Reindex(v, p, index), p, busy), p, true) == Reindex(v, p, index)
  {
    var w := Reindex(v, p, index);
    assert w.slots[p := w.slots[p].(inProgress := busy)][p := w.slots[p]] == w.slots;
  }

  const EMPTY := Net(map[], map[], {}, map[])

  ghost predicate Possible(v: Net, run: seq<Step>)
    decreases |run|
  {
    run == [] || (Enabled(v, run[0]) && Possible(Apply(v, run[0]), run[1..]))
  }

  ghost function After(v: Net, run: seq<Step>): Net
    requires Possible(v, run)
    decreases |run|
  {
    if run == [] then v else After(Apply(v, run[0]), run[1..])
  }

  lemma {:induction false} OneMore(v: Net, run: seq<Step>, s: Step)
    requires Possible(v, run) && Enabled(After(v, run), s)
    ensures Possible(v, run + [s]) && After(v, run + [s]) == Apply(After(v, run), s)
    decreases |run|
  {
    hide Enabled, Apply;
    if run == [] {
      assert (run + [s])[1..] == [];
    } else {
      OneMore(Apply(v, run[0]), run[1..], s);
      assert (run + [s])[1..] == run[1..] + [s];
    }
  }

  lemma {:induction false} RunOk(v: Net, run: seq<Step>)
    requires Sound(v) && Possible(v, run)
    ensures Sound(After(v, run))
    decreases |run|
  {
    hide Sound, Enabled, Apply;
    if run != [] {
      ApplyOk(v, run[0]);
      RunOk(Apply(v, run[0]), run[1..]);
    }
  }

  ghost predicate AlwaysComplete(v: Net, run: seq<Step>)
    requires Possible(v, run)
    decreases |run|
  {
    Complete(v) && (run == [] || AlwaysComplete(Apply(v, run[0]), run[1..]))
  }

  /** Every Store of the run finds the index of its handshake still there. */
  ghost predicate TimelyStores(v: Net, run: seq<Step>)
    requires Possible(v, run)
    decreases |run|
  {
    run == [] || (Timely(v, run[0]) && TimelyStores(Apply(v, run[0]), run[1..]))
  }

  /** Throughout a run every handshake in progress and every keypair in a slot is found in the table, if and only
      if no response is stored after the handshake has given up its index. */
  lemma {:induction false} CompleteIffTimely(v: Net, run: seq<Step>)
    requires Complete(v) && Possible(v, run)
    ensures AlwaysComplete(v, run) <==> TimelyStores(v, run)
    decreases |run|
  {
    hide Complete, Enabled, Apply, Timely;
    if run != [] {
      ApplyComplete(v, run[0]);
      if Timely(v, run[0]) {
        CompleteIffTimely(Apply(v, run[0]), run[1..]);
      } else {
        NotComplete(Apply(v, run[0]), run[1..]);
      }
    }
  }

  lemma NotComplete(v: Net, run: seq<Step>)
    requires Possible(v, run) && !Complete(v)
    ensures !AlwaysComplete(v, run)
  {
  }

  lemma KeepsIndex(v: Net, s: Step, p: Peer)
    requires Enabled(v, s) && p in v.slots && v.slots[p].index != 0
    requires s != Forget(p) && !(s.Derive? && s.peer == p)
    ensures p in Apply(v, s).slots && Apply(v, s).slots[p].index != 0
  {
    hide Fresh, Without, Swapped;
  }

  /** A handshake keeps an index until it is cleared or a keypair is derived from it; so a response may be stored
      as long as neither has happened since it was verified. */
  lemma {:induction false} IndexLasts(v: Net, run: seq<Step>, p: Peer)
    requires Possible(v, run) && p in v.slots && v.slots[p].index != 0
    requires forall k :: 0 <= k < |run| ==> run[k] != Forget(p) && !(run[k].Derive? && run[k].peer == p)
    ensures p in After(v, run).slots && After(v, run).slots[p].index != 0
    decreases |run|
  {
    hide Enabled, Apply;
    if run != [] {
      KeepsIndex(v, run[0], p);
      IndexLasts(Apply(v, run[0]), run[1..], p);
    }
  }

  /** ExpireCurrentKeypairs between the two regions of ConsumeMessageResponse: the new keypair becomes the current
      one with index 0, and no index leads to it. */
  lemma ForgottenInBetween(p: Peer, kp: Keypair, i: nat) returns (run: seq<Step>)
    requires i != 0 && kp.localIndex == 0 && kp.isInitiator
    ensures Possible(EMPTY, run) && p in After(EMPTY, run).slots
    ensures After(EMPTY, run).slots[p].current == kp && After(EMPTY, run).table == map[]
    ensures !TimelyStores(EMPTY, run)
  {
    var v1 := Net(map[], map[p := Slots(0, false, null, null, null)], {}, map[]);
    var v2 := Net(map[i := IndexTableEntry(p, null)], map[p := Slots(i, true, null, null, null)], {}, map[]);
    var v4 := v1.(verified := map[0 := p]);
    var v5 := v1.(slots := map[p := Slots(0, true, null, null, null)]);
    assert Apply(EMPTY, NewPeer(p)) == v1;
    assert Apply(v1, NewIndex(p, i, true)) == v2;
    assert Apply(v2, Verify(0, p)) == v2.(verified := map[0 := p]);
    assert Apply(v2.(verified := map[0 := p]), Forget(p)) == v4;
    assert Apply(v4, Store(0)) == v5 && !Timely(v4, Store(0));
    assert Apply(v5, Derive(p, kp)).table == map[] && Apply(v5, Derive(p, kp)).slots == map[p := Slots(0, false, kp, null, null)];
    hide Enabled, Apply, Timely, TimelyStores;
    run := [];
    run := Before(v5, Derive(p, kp), run);
    run := Before(v4, Store(0), run);
    run := Before(v2.(verified := map[0 := p]), Forget(p), run);
    run := Before(v2, Verify(0, p), run);
    run := Before(v1, NewIndex(p, i, true), run);
    run := Before(EMPTY, NewPeer(p), run);
  }

  lemma Before(v: Net, s: Step, rest: seq<Step>) returns (run: seq<Step>)
    requires Enabled(v, s) && Possible(Apply(v, s), rest)
    ensures run == [s] + rest && Possible(v, run) && After(v, run) == After(Apply(v, s), rest)
    ensures TimelyStores(v, run) <==> Timely(v, s) && TimelyStores(Apply(v, s), rest)
  {
    hide Enabled, Apply, Timely;
    run := [s] + rest;
    assert run[1..] == rest;
  }

  lemma {:induction false} CompleteAfter(v: Net, run: seq<Step>)
    requires Possible(v, run) && AlwaysComplete(v, run)
    ensures Complete(After(v, run))
    decreases |run|
  {
    hide Enabled, Apply, Complete;
    if run != [] {
      CompleteAfter(Apply(v, run[0]), run[1..]);
    }
  }

  /** After a run without late stores, a handshake in progress and the keypairs in the slots are all found. */
  lemma OwnersFound(run: seq<Step>, p: Peer)
    requires Possible(EMPTY, run) && TimelyStores(EMPTY, run) && p in After(EMPTY, run).slots
    ensures var v := After(EMPTY, run);
            var s := v.slots[p];
            && (s.inProgress ==> s.index in v.table && v.table[s.index] == IndexTableEntry(p, null))
            && (forall kp {:trigger s.Has(kp)} :: s.Has(kp) ==> kp.localIndex in v.table && v.table[kp.localIndex] == IndexTableEntry(p, kp))
  {
    CompleteIffTimely(EMPTY, run);
    CompleteAfter(EMPTY, run);
    RunOk(EMPTY, run);
    assert PeerOk(After(EMPTY, run), p) && Owned(After(EMPTY, run).slots[p]);
  }

  /** A keypair counts as confirmed only once a packet was received under it. */
  lemma {:induction false} ConfirmedWasReceived(v: Net, run: seq<Step>, kp: Keypair)
    requires Possible(v, run) && kp in After(v, run).confirmed && kp !in v.confirmed
    ensures exists k :: 0 <= k < |run| && run[k].Receive? && run[k].keypair == kp
    decreases |run|
  {
    hide Enabled;
    if run[0].Receive? && run[0].keypair == kp {
    } else {
      ConfirmedWasReceived(Apply(v, run[0]), run[1..], kp);
      var k :| 0 <= k < |run[1..]| && run[1..][k].Receive? && run[1..][k].keypair == kp;
      assert run[k + 1] == run[1..][k];
    }
  }

  /** Key confirmation: in every run, a keypair that was derived as responder is the current one only
      after a packet authenticated under it has been received. */
  lemma KeyConfirmation(run: seq<Step>, p: Peer)
    requires Possible(EMPTY, run) && p in After(EMPTY, run).slots
    requires var c := After(EMPTY, run).slots[p].current; c != null && !c.isInitiator
    ensures exists k :: 0 <= k < |run| && run[k].Receive? && run[k].keypair == After(EMPTY, run).slots[p].current
  {
    RunOk(EMPTY, run);
    assert PeerOk(After(EMPTY, run), p);
    ConfirmedWasReceived(EMPTY, run, After(EMPTY, run).slots[p].current);
  }

  /** In every run, however the two regions of ConsumeMessageResponse are interleaved with others, looking an
      index up gives the owner of that index and nothing stale, and whatever has an index is found under it. */
  lemma LookupExact(run: seq<Step>, i: nat, p: Peer, kp: Keypair?)
    requires Possible(EMPTY, run) && p in After(EMPTY, run).slots
    ensures var v := After(EMPTY, run);
            var s := v.slots[p];
            && (kp != null ==>
                  (i in v.table && v.table[i] == IndexTableEntry(p, kp) <==> kp.localIndex == i != 0 && s.Has(kp)))
            && (i in v.table && v.table[i] == IndexTableEntry(p, null) <==> i != 0 && s.index == i)
  {
    RunOk(EMPTY, run);
    var v := After(EMPTY, run);
    assert PeerOk(v, p);
    assert i in v.table ==> EntryOk(v, i);
  }

  /** In every run, no index is shared: two slots, of any peers, hold keypairs with the same index other than 0
      only if they are the same keypair of the same peer. */
  lemma IndicesApart(run: seq<Step>, p: Peer, kp: Keypair, q: Peer, kq: Keypair)
    requires Possible(EMPTY, run) && p in After(EMPTY, run).slots && q in After(EMPTY, run).slots
    requires After(EMPTY, run).slots[p].Has(kp) && After(EMPTY, run).slots[q].Has(kq) && kp.localIndex == kq.localIndex != 0
    ensures p == q && kp == kq && kp.localIndex != After(EMPTY, run).slots[p].index
  {
    RunOk(EMPTY, run);
    assert PeerOk(After(EMPTY, run), p) && PeerOk(After(EMPTY, run), q);
  }
}
