/** The handshake methods of one device, each one step over its peers and the shared index table
    (wireguard/device/noise-protocol.go:177-626; wireguard/device/peer.go:64-116, 225-268). */
module NoiseDevice {
  import opened NoiseTerms
  import opened NoiseHandshake
  import opened NoiseRotation
  import opened Options
  import Timestamps

  const MAX_PEERS := 65536

  /** The peer's slots are `s`; an initiation in flight has its ephemeral key; the peer is filed under its key in
      `keys`, and the secret it shares with the owner of `sk` has been computed. */
  ghost predicate Holds(p: Peer, s: Slots, keys: map<PublicKey, Peer>, sk: PrivateKey)
    reads p
  {
    var hs := p.handshake;
    && s == Slots(hs.localIndex, InProgress(hs.state), p.current, p.previous, p.next)
    && (hs.state == InitiationCreated ==> hs.localEphemeral.Some?)
    && hs.remoteStatic in keys && keys[hs.remoteStatic] == p && hs.staticStatic == SharedSecret(sk, hs.remoteStatic)
  }

  lemma HoldsStill(p: Peer, s: Slots, keys: map<PublicKey, Peer>, sk: PrivateKey, pk: PublicKey, other: Peer)
    requires Holds(p, s, keys, sk) && pk !in keys
    ensures Holds(p, s, keys[pk := other], sk)
  {
  }

  lemma FirstHolds(p: Peer, keys: map<PublicKey, Peer>, sk: PrivateKey)
    requires p.handshake.state == HandshakeZeroed && p.handshake.localIndex == 0 && p.current == null && p.previous == null && p.next == null
    requires p.handshake.remoteStatic in keys && keys[p.handshake.remoteStatic] == p
    requires p.handshake.staticStatic == SharedSecret(sk, p.handshake.remoteStatic)
    ensures Holds(p, Slots(0, false, null, null, null), keys, sk)
  {
  }

  class Device {
    const staticKey: PrivateKey
    var indexTable: IndexTable
    var keyMap: map<PublicKey, Peer>
    ghost var peers: set<Peer>
    ghost var net: Net
    ghost var run: seq<Step>

    /** The heap holds what `net` says. */
    ghost predicate Reflects()
      reads this, peers
    {
      && indexTable == net.table && peers == net.slots.Keys
      && (forall pk :: pk in keyMap ==> keyMap[pk] in peers)
      && (forall p {:trigger Holds(p, net.slots[p], keyMap, staticKey)} :: p in peers ==> Holds(p, net.slots[p], keyMap, staticKey))
    }

    ghost predicate Valid()
      reads this, peers
    {
      Reflects() && NetOk(net) && Happened()
    }

    /** The steps taken since the device was made. */
    ghost predicate Happened()
      reads this
    {
      Possible(EMPTY, run) && After(EMPTY, run) == net
    }

    ghost method Take(s: Step)
      requires NetOk(net) && Happened() && Enabled(net, s) && !s.Store?
      modifies this`net, this`run
      ensures NetOk(net) && Happened() && net == Apply(old(net), s) && run == old(run) + [s]
    {
      hide SharedSecret, Sound, Complete, Possible, After, Enabled, Apply;
      ApplyOk(net, s);
      ApplyComplete(net, s);
      OneMore(EMPTY, run, s);
      net, run := Apply(net, s), run + [s];
    }

    constructor (staticKey: PrivateKey)
      ensures Valid() && this.staticKey == staticKey && keyMap == map[] && peers == {} && net == EMPTY
    {
      this.staticKey := staticKey;
      indexTable, keyMap := map[], map[];
      peers, net, run := {}, EMPTY, [];
    }

    /** NewPeer: no more than MAX_PEERS of them, and one for each key. */
    method NewPeer(pk: PublicKey, psk: Term, closed: bool) returns (peer: Peer?)
      requires Valid()
      modifies this`keyMap, this`peers, this`net, this`run
      ensures Valid()
      ensures peer == null <==> closed || |old(keyMap)| >= MAX_PEERS || pk in old(keyMap)
      ensures peer == null ==> peers == old(peers) && net == old(net) && keyMap == old(keyMap)
      ensures peer != null ==>
                && fresh(peer) && peers == old(peers) + {peer} && keyMap == old(keyMap)[pk := peer] && net == AddPeer(old(net), peer)
                && peer.handshake.remoteStatic == pk && peer.handshake.staticStatic == SharedSecret(staticKey, pk)
                && peer.handshake.presharedKey == psk
    {
      hide SharedSecret, NetOk, Possible, After, Reflects, AddPeer;
      if closed || |keyMap| >= MAX_PEERS || pk in keyMap {
        return null;
      }
      peer := FilePeer(pk, psk);
    }

    /** The shared secret of the two static keys is computed once, when the peer is filed. */
    method FilePeer(pk: PublicKey, psk: Term) returns (peer: Peer)
      requires Valid() && pk !in keyMap
      modifies this`keyMap, this`peers, this`net, this`run
      ensures Valid() && fresh(peer) && peers == old(peers) + {peer} && keyMap == old(keyMap)[pk := peer] && net == AddPeer(old(net), peer)
      ensures peer.handshake.remoteStatic == pk && peer.handshake.staticStatic == SharedSecret(staticKey, pk)
      ensures peer.handshake.presharedKey == psk
    {
      hide SharedSecret, NetOk, Possible, After, Holds;
      peer := new Peer(pk, SharedSecret(staticKey, pk), psk);
      forall p | p in peers ensures Holds(p, net.slots[p], keyMap[pk := peer], staticKey) {
        HoldsStill(p, net.slots[p], keyMap, staticKey, pk, peer);
      }
      FirstHolds(peer, keyMap[pk := peer], staticKey);
      keyMap := keyMap[pk := peer];
      peers := peers + {peer};
      Take(Step.NewPeer(peer));
    }

    /** NewIndexForHandshake: draw random indices until an unused one turns up. */
    method NewIndexForHandshake(peer: Peer, draws: seq<nat>) returns (index: nat)
      requires 0 !in draws && exists d :: d in draws && d !in indexTable
      modifies this`indexTable
      ensures index !in old(indexTable) && index != 0
      ensures exists i :: 0 <= i < |draws| && draws[i] == index && forall j :: 0 <= j < i ==> draws[j] in old(indexTable)
      ensures indexTable == old(indexTable)[index := IndexTableEntry(peer, null)]
    {
      var i := 0;
      while true
        invariant 0 <= i < |draws| && indexTable == old(indexTable)
        invariant forall j :: 0 <= j < i ==> draws[j] in indexTable
        invariant exists k :: i <= k < |draws| && draws[k] !in indexTable
        decreases |draws| - i
      {
        index := draws[i];
        if index !in indexTable {
          indexTable := indexTable[index := IndexTableEntry(peer, null)];
          return;
        }
        i := i + 1;
      }
    }

    /** Give the handshake a new index: Delete, then NewIndexForHandshake. */
    method AssignIndex(peer: Peer, draws: seq<nat>)
      requires Valid() && peer in peers && 0 !in draws && exists d :: d in draws && d !in indexTable
      modifies this`indexTable, this`net, this`run, peer`handshake
      ensures Valid() && peer.handshake == old(peer.handshake).(localIndex := peer.handshake.localIndex)
      ensures peer.handshake.localIndex in draws
      ensures net == Mark(Reindex(old(net), peer, peer.handshake.localIndex), peer, InProgress(peer.handshake.state))
    {
      hide SharedSecret, NetOk, Possible, After;
      assert Holds(peer, net.slots[peer], keyMap, staticKey);
      indexTable := indexTable - {peer.handshake.localIndex};
      var index := NewIndexForHandshake(peer, draws);
      Take(NewIndex(peer, index, InProgress(peer.handshake.state)));
      peer.handshake := peer.handshake.(localIndex := index);
    }

    /** Change handshake fields other than the index. */
    method UpdateHandshake(peer: Peer, hs: Handshake)
      requires Valid() && peer in peers && hs.localIndex == peer.handshake.localIndex
      requires InProgress(hs.state) ==> hs.localIndex != 0
      requires hs.state == InitiationCreated ==> hs.localEphemeral.Some?
      requires hs.remoteStatic == peer.handshake.remoteStatic && hs.staticStatic == peer.handshake.staticStatic
      modifies this`net, this`run, peer`handshake
      ensures Valid() && peer.handshake == hs && net == Mark(old(net), peer, InProgress(hs.state))
    {
      hide SharedSecret, NetOk, Possible, After;
      assert Holds(peer, net.slots[peer], keyMap, staticKey);
      Take(SetState(peer, InProgress(hs.state)));
      peer.handshake := hs;
    }

    method CreateMessageInitiation(peer: Peer, e: PrivateKey, now: nat, draws: seq<nat>) returns (msg: Option<MessageInitiation>)
      requires Valid() && peer in peers && 0 !in draws && exists d :: d in draws && d !in indexTable
      modifies this`indexTable, this`net, this`run, peer`handshake
      ensures Valid()
      ensures var hs := old(peer.handshake);
              var boxes := InitiationFor(staticKey, hs.remoteStatic, hs.staticStatic, e, now);
              && (msg.Some? <==> boxes.Some?)
              && (msg.Some? ==>
                    && msg.value == MessageInitiation(peer.handshake.localIndex, PublicOf(e), boxes.value.staticBox, boxes.value.stampBox)
                    && peer.handshake == hs.(hash := boxes.value.transcript.hash, chainKey := boxes.value.transcript.chainKey,
                                             localEphemeral := Some(e), localIndex := peer.handshake.localIndex, state := InitiationCreated)
                    && peer.handshake.localIndex in draws && net == Reindex(old(net), peer, peer.handshake.localIndex))
              && (msg.None? ==> net == old(net) && peer.handshake.state == hs.state)
    {
      hide SharedSecret, NetOk, Possible, After, Reindex;
      var hs := peer.handshake;
      hs := hs.(hash := INITIAL_HASH, chainKey := INITIAL_CHAIN_KEY, localEphemeral := Some(e));
      hs := hs.(hash := MixHash(hs.hash, Key(hs.remoteStatic)));
      hs := hs.(chainKey := MixKey(hs.chainKey, Key(PublicOf(e))));
      hs := hs.(hash := MixHash(hs.hash, Key(PublicOf(e))));
      var ss := SharedSecret(e, hs.remoteStatic);
      if ss.None? {
        SlotsOf(peer);
        UpdateHandshake(peer, hs);
        return None;
      }
      var (ck1, key1) := Kdf2(hs.chainKey, ss.value);
      var staticBox := Seal(key1, Key(PublicOf(staticKey)), hs.hash);
      hs := hs.(chainKey := ck1, hash := MixHash(hs.hash, staticBox));
      if hs.staticStatic.None? {
        SlotsOf(peer);
        UpdateHandshake(peer, hs);
        return None;
      }
      var (ck2, key2) := Kdf2(hs.chainKey, hs.staticStatic.value);
      var stampBox := Seal(key2, Stamp(now), hs.hash);
      AssignIndex(peer, draws);
      MarkReindex(old(net), peer, peer.handshake.localIndex, InProgress(peer.handshake.state));
      hs := hs.(chainKey := ck2, hash := MixHash(hs.hash, stampBox), localIndex := peer.handshake.localIndex, state := InitiationCreated);
      UpdateHandshake(peer, hs);
      return Some(MessageInitiation(hs.localIndex, PublicOf(e), staticBox, stampBox));
    }

    /** `running` and `flood` are peer.isRunning and the rate check on lastInitiationConsumption. */
    method ConsumeMessageInitiation(msg: MessageInitiation, running: bool, flood: bool) returns (peer: Peer?)
      requires Valid()
      modifies this`net, this`run, peers`handshake
      ensures Valid() && indexTable == old(indexTable)
      ensures var pk := InitiatorOf(staticKey, msg);
              peer != null <==>
                && pk.Some? && pk.value in keyMap && running && !flood
                && var hs := old(keyMap[pk.value].handshake);
                   var got := ConsumeInitiation(staticKey, hs.staticStatic, msg);
                   got.Some? && got.value.timestamp > hs.lastTimestamp
      ensures peer != null ==>
                && peer in peers && peer == keyMap[InitiatorOf(staticKey, msg).value]
                && var hs := old(keyMap[InitiatorOf(staticKey, msg).value].handshake);
                   var got := ConsumeInitiation(staticKey, hs.staticStatic, msg).value;
                   peer.handshake == hs.(hash := got.transcript.hash, chainKey := got.transcript.chainKey, remoteIndex := msg.sender,
                                         remoteEphemeral := msg.ephemeral, lastTimestamp := got.timestamp, state := InitiationConsumed)
                   && net == Mark(old(net), peer, false)
      ensures peer == null ==> net == old(net)
      ensures forall p :: p in peers && p != peer ==> p.handshake == old(p.handshake)
    {
      hide SharedSecret, NetOk, Possible, After;
      var t := Opening(PublicOf(staticKey), msg.ephemeral);
      var hash, chainKey := t.hash, t.chainKey;
      var es := SharedSecret(staticKey, msg.ephemeral);
      if es.None? {
        return null;
      }
      var (ck1, key1) := Kdf2(chainKey, es.value);
      var static_ := Open(key1, msg.staticBox, hash);
      if static_.None? || !static_.value.Key? {
        return null;
      }
      hash := MixHash(hash, msg.staticBox);
      var pk := static_.value.pk;
      if pk !in keyMap || !running {
        return null;
      }
      var found := keyMap[pk];
      var hs := found.handshake;
      if hs.staticStatic.None? {
        return null;
      }
      var (ck2, key2) := Kdf2(ck1, hs.staticStatic.value);
      var stamp := Open(key2, msg.stampBox, hash);
      if stamp.None? || !stamp.value.Stamp? {
        return null;
      }
      hash := MixHash(hash, msg.stampBox);
      var replay := !(stamp.value.t > hs.lastTimestamp);
      if replay || flood {
        return null;
      }
      UpdateHandshake(found, hs.(hash := hash, chainKey := ck2, remoteIndex := msg.sender, remoteEphemeral := msg.ephemeral,
                                 lastTimestamp := stamp.value.t, state := InitiationConsumed));
      return found;
    }

    /** On an error after the index was drawn, the handshake keeps that index and its state. */
    method CreateMessageResponse(peer: Peer, e: PrivateKey, draws: seq<nat>) returns (msg: Option<MessageResponse>)
      requires Valid() && peer in peers && 0 !in draws && exists d :: d in draws && d !in indexTable
      modifies this`indexTable, this`net, this`run, peer`handshake
      ensures Valid()
      ensures var hs := old(peer.handshake);
              var box := ResponseFor(hs.Transcript(), hs.remoteEphemeral, hs.remoteStatic, hs.presharedKey, e);
              && (msg.Some? <==> hs.state == InitiationConsumed && box.Some?)
              && (msg.Some? ==>
                    && msg.value == MessageResponse(peer.handshake.localIndex, hs.remoteIndex, PublicOf(e), box.value.emptyBox)
                    && peer.handshake == hs.(hash := box.value.transcript.hash, chainKey := box.value.transcript.chainKey,
                                             localEphemeral := Some(e), localIndex := peer.handshake.localIndex, state := ResponseCreated)
                    && peer.handshake.localIndex in draws && net == Reindex(old(net), peer, peer.handshake.localIndex))
              && (msg.None? ==> peer.handshake.state == hs.state)
              && (hs.state != InitiationConsumed ==> peer.handshake == hs && net == old(net))
    {
      hide SharedSecret, NetOk, Possible, After, Reindex;
      if peer.handshake.state != InitiationConsumed {
        return None;
      }
      AssignIndex(peer, draws);
      MarkReindex(old(net), peer, peer.handshake.localIndex, InProgress(peer.handshake.state));
      var hs := peer.handshake;
      msg := Some(MessageResponse(hs.localIndex, hs.remoteIndex, PublicOf(e), Nil));
      hs := hs.(localEphemeral := Some(e), hash := MixHash(hs.hash, Key(PublicOf(e))), chainKey := MixKey(hs.chainKey, Key(PublicOf(e))));
      var ee := SharedSecret(e, hs.remoteEphemeral);
      if ee.None? {
        UpdateHandshake(peer, hs);
        return None;
      }
      hs := hs.(chainKey := MixKey(hs.chainKey, ee.value));
      var se := SharedSecret(e, hs.remoteStatic);
      if se.None? {
        UpdateHandshake(peer, hs);
        return None;
      }
      hs := hs.(chainKey := MixKey(hs.chainKey, se.value));
      var (ck, tau, key) := Kdf3(hs.chainKey, hs.presharedKey);
      hs := hs.(chainKey := ck, hash := MixHash(hs.hash, tau));
      var emptyBox := Seal(key, Nil, hs.hash);
      hs := hs.(hash := MixHash(hs.hash, emptyBox), state := ResponseCreated);
      UpdateHandshake(peer, hs);
      msg := Some(msg.value.(emptyBox := emptyBox));
    }

    method ConsumeMessageResponse(msg: MessageResponse) returns (peer: Peer?)
      requires Valid()
      modifies this`net, this`run, peers`handshake
      ensures Valid() && indexTable == old(indexTable) && net == old(net)
      ensures peer != null <==>
                && msg.receiver in indexTable && indexTable[msg.receiver].keypair == null
                && var hs := old(indexTable[msg.receiver].peer.handshake);
                   hs.state == InitiationCreated && hs.localEphemeral.Some?
                   && ConsumeResponse(hs.Transcript(), hs.localEphemeral.value, staticKey, hs.presharedKey, msg).Some?
      ensures peer != null ==>
                && peer in peers && peer == indexTable[msg.receiver].peer
                && var hs := old(indexTable[msg.receiver].peer.handshake);
                   var got := ConsumeResponse(hs.Transcript(), hs.localEphemeral.value, staticKey, hs.presharedKey, msg).value;
                   peer.handshake == hs.(hash := got.hash, chainKey := got.chainKey, remoteIndex := msg.sender, state := ResponseConsumed)
      ensures forall p :: p in peers && p != peer ==> p.handshake == old(p.handshake)
    {
      hide Reindex;
      if msg.receiver !in indexTable || indexTable[msg.receiver].keypair != null {
        return null;
      }
      assert EntryOk(net, msg.receiver);
      hide SharedSecret, NetOk, Possible, After;
      var found := indexTable[msg.receiver].peer;
      var hs := found.handshake;
      if hs.state != InitiationCreated {
        return null;
      }
      assert Holds(found, net.slots[found], keyMap, staticKey);
      SlotsOf(found);
      var hash, chainKey := MixHash(hs.hash, Key(msg.ephemeral)), MixKey(hs.chainKey, Key(msg.ephemeral));
      var ee := SharedSecret(hs.localEphemeral.value, msg.ephemeral);
      if ee.None? {
        return null;
      }
      chainKey := MixKey(chainKey, ee.value);
      var se := SharedSecret(staticKey, msg.ephemeral);
      if se.None? {
        return null;
      }
      chainKey := MixKey(chainKey, se.value);
      var (ck, tau, key) := Kdf3(chainKey, hs.presharedKey);
      hash := MixHash(hash, tau);
      if Open(key, msg.emptyBox, hash) != Some(Nil) {
        return null;
      }
      hash := MixHash(hash, msg.emptyBox);
      UpdateHandshake(found, hs.(hash := hash, chainKey := ck, remoteIndex := msg.sender, state := ResponseConsumed));
      return found;
    }

    /** Derive a keypair from a finished handshake, hand the handshake's index over to it and rotate the
        three slots; null is the error return. */
    method BeginSymmetricSession(peer: Peer) returns (keypair: Keypair?)
      requires Valid() && peer in peers
      modifies this`indexTable, this`net, this`run, peer
      ensures Valid()
      ensures keypair == null <==> old(peer.handshake).state != ResponseConsumed && old(peer.handshake).state != ResponseCreated
      ensures keypair == null ==> peer.handshake == old(peer.handshake) && net == old(net)
      ensures keypair != null ==>
                var hs := old(peer.handshake);
                && fresh(keypair) && keypair.isInitiator == (hs.state == ResponseConsumed) && !keypair.expired
                && (keypair.send, keypair.receive) == SessionKeys(hs.chainKey, keypair.isInitiator)
                && keypair.localIndex == hs.localIndex && keypair.remoteIndex == hs.remoteIndex
                && net == Rotate(old(net), peer, keypair)
                && peer.handshake == hs.(chainKey := Zeroed, hash := Zeroed, localEphemeral := None, localIndex := 0, state := HandshakeZeroed)
    {
      hide SharedSecret, NetOk, Possible, After;
      var hs := peer.handshake;
      var sendKey, recvKey, isInitiator;
      if hs.state == ResponseConsumed {
        var (k1, k2) := Kdf2(hs.chainKey, Nil);
        sendKey, recvKey, isInitiator := k1, k2, true;
      } else if hs.state == ResponseCreated {
        var (k1, k2) := Kdf2(hs.chainKey, Nil);
        recvKey, sendKey, isInitiator := k1, k2, false;
      } else {
        return null;
      }
      keypair := new Keypair((sendKey, recvKey), isInitiator, hs.localIndex, hs.remoteIndex);
      InstallKeypair(peer, keypair);
    }

    /** Remap the index, clear the handshake and rotate. */
    method InstallKeypair(peer: Peer, keypair: Keypair)
      requires Valid() && peer in peers && peer.handshake.localIndex == keypair.localIndex && InProgress(peer.handshake.state)
      requires Fresh(net, keypair)
      modifies this`indexTable, this`net, this`run, peer
      ensures Valid() && net == Rotate(old(net), peer, keypair)
      ensures peer.handshake == old(peer.handshake).(chainKey := Zeroed, hash := Zeroed, localEphemeral := None, localIndex := 0, state := HandshakeZeroed)
    {
      hide SharedSecret, NetOk, Possible, After, Fresh, Without, Swapped;
      assert Holds(peer, net.slots[peer], keyMap, staticKey);
      indexTable := Swapped(indexTable, peer.handshake.localIndex, keypair);
      peer.handshake := peer.handshake.(chainKey := Zeroed, hash := Zeroed, localEphemeral := None, localIndex := 0, state := HandshakeZeroed);
      RotateSlots(peer, keypair);
      Take(Derive(peer, keypair));
    }

    method RotateSlots(peer: Peer, keypair: Keypair)
      modifies this`indexTable, peer`current, peer`previous, peer`next
      ensures var s := Slots(0, false, old(peer.current), old(peer.previous), old(peer.next));
              && Slots(0, false, peer.current, peer.previous, peer.next) == Rotated(s, keypair)
              && indexTable == Without(Without(old(indexTable), Displaced(s, keypair).0), Displaced(s, keypair).1)
    {
      var previous, next, current := peer.previous, peer.next, peer.current;
      if keypair.isInitiator {
        if next != null {
          peer.next := null;
          peer.previous := next;
          indexTable := Without(indexTable, current);
        } else {
          peer.previous := current;
        }
        indexTable := Without(indexTable, previous);
        peer.current := keypair;
      } else {
        peer.next := keypair;
        indexTable := Without(indexTable, next);
        peer.previous := null;
        indexTable := Without(indexTable, previous);
      }
    }

    /** A packet authenticated under `keypair` arrived from `peer`. */
    method ReceivedWithKeypair(peer: Peer, keypair: Keypair) returns (promoted: bool)
      requires Valid() && peer in peers
      modifies this`indexTable, this`net, this`run, peer`current, peer`previous, peer`next
      ensures Valid() && net == Promote(old(net), peer, keypair)
      ensures promoted <==> old(peer.next) == keypair
      ensures promoted ==> peer.current == keypair && peer.previous == old(peer.current) && peer.next == null
      ensures !promoted ==> peer.current == old(peer.current) && peer.previous == old(peer.previous) && peer.next == old(peer.next)
    {
      hide SharedSecret, NetOk, Possible, After, Without;
      assert Holds(peer, net.slots[peer], keyMap, staticKey);
      Take(Receive(peer, keypair));
      if peer.next != keypair {
        return false;
      }
      var gone := peer.previous;
      peer.previous := peer.current;
      indexTable := Without(indexTable, gone);
      peer.current := peer.next;
      peer.next := null;
      return true;
    }

    method FlushKeypairs(peer: Peer)
      requires Valid() && peer in peers
      modifies this`indexTable, this`net, this`run, peer`current, peer`previous, peer`next
      ensures Valid() && net == DropKeypairs(old(net), peer) && peer.current == null && peer.previous == null && peer.next == null
    {
      hide SharedSecret, NetOk, Possible, After, Without;
      assert Holds(peer, net.slots[peer], keyMap, staticKey);
      Take(Flush(peer));
      indexTable := Without(Without(Without(indexTable, peer.previous), peer.current), peer.next);
      peer.previous, peer.current, peer.next := null, null, null;
    }

    method ForgetHandshake(peer: Peer)
      requires Valid() && peer in peers
      modifies this`indexTable, this`net, this`run, peer`handshake
      ensures Valid() && net == ClearHandshake(old(net), peer)
      ensures peer.handshake == old(peer.handshake).(state := HandshakeZeroed, hash := Zeroed, chainKey := Zeroed, localEphemeral := None, remoteEphemeral := LowOrder(0), localIndex := 0)
    {
      hide SharedSecret, NetOk, Possible, After;
      assert Holds(peer, net.slots[peer], keyMap, staticKey);
      Take(Forget(peer));
      indexTable := indexTable - {peer.handshake.localIndex};
      peer.handshake := peer.handshake.Clear();
    }

    /** Drop the three keypairs, clear the handshake and drop the packets that wait for a session. */
    method ZeroAndFlushAll(peer: Peer)
      requires Valid() && peer in peers
      modifies this`indexTable, this`net, this`run, peer
      ensures Valid() && net == ClearHandshake(DropKeypairs(old(net), peer), peer)
      ensures peer.handshake == old(peer.handshake).(state := HandshakeZeroed, hash := Zeroed, chainKey := Zeroed, localEphemeral := None, remoteEphemeral := LowOrder(0), localIndex := 0)
      ensures peer.current == null && peer.previous == null && peer.next == null
      ensures peer.staged == []
    {
      hide SharedSecret, NetOk, Possible, After, DropKeypairs, ClearHandshake;
      FlushKeypairs(peer);
      ForgetHandshake(peer);
      assert Holds(peer, net.slots[peer], keyMap, staticKey);
      peer.staged := [];
    }

    /** No more packets are sent with the keypairs at hand, and the next handshake may start at once. */
    method StopSending(peer: Peer, now: int)
      modifies peer`lastSentHandshake, peer.current, peer.next
      ensures (peer.current != null ==> peer.current.expired) && (peer.next != null ==> peer.next.expired)
      ensures now - peer.lastSentHandshake >= Timestamps.REKEY_TIMEOUT && peer.lastSentHandshake == now - (Timestamps.REKEY_TIMEOUT + Timestamps.SECOND)
    {
      peer.lastSentHandshake := now - (Timestamps.REKEY_TIMEOUT + Timestamps.SECOND);
      if peer.current != null {
        peer.current.expired := true;
      }
      if peer.next != null {
        peer.next.expired := true;
      }
    }

    /** Clear the handshake, allow the next one at once, and let no more packets be sent with the keypairs at
        hand. */
    method ExpireCurrentKeypairs(peer: Peer, now: int)
      requires Valid() && peer in peers
      modifies this`indexTable, this`net, this`run, peer`handshake, peer`lastSentHandshake, peer.current, peer.next
      ensures Valid() && net == ClearHandshake(old(net), peer)
      ensures peer.handshake == old(peer.handshake).(state := HandshakeZeroed, hash := Zeroed, chainKey := Zeroed, localEphemeral := None, remoteEphemeral := LowOrder(0), localIndex := 0)
      ensures (peer.current != null ==> peer.current.expired) && (peer.next != null ==> peer.next.expired)
      ensures now - peer.lastSentHandshake >= Timestamps.REKEY_TIMEOUT && peer.lastSentHandshake == now - (Timestamps.REKEY_TIMEOUT + Timestamps.SECOND)
    {
      hide SharedSecret, NetOk, Possible, After, ClearHandshake;
      ForgetHandshake(peer);
      assert Holds(peer, net.slots[peer], keyMap, staticKey);
      StopSending(peer, now);
    }

    /** What the device answers to an initiation: the response and the keypair behind it, or nothing. */
    ghost function Answer(hs: Handshake, msg: MessageInitiation, e: PrivateKey): Option<ResponseBox> {
      var got := ConsumeInitiation(staticKey, hs.staticStatic, msg);
      if got.None? || got.value.timestamp <= hs.lastTimestamp then None
      else ResponseFor(got.value.transcript, msg.ephemeral, hs.remoteStatic, hs.presharedKey, e)
    }

    /** An initiation arrives: consume it, create the response and derive the keypair. */
    method HandleInitiation(msg: MessageInitiation, running: bool, flood: bool, e: PrivateKey, draws: seq<nat>)
      returns (resp: Option<MessageResponse>, keypair: Keypair?)
      requires Valid() && 0 !in draws && exists d :: d in draws && d !in indexTable
      modifies this`indexTable, this`net, this`run, peers
      ensures Valid()
      ensures resp.Some? <==>
                var pk := InitiatorOf(staticKey, msg);
                running && !flood && pk.Some? && pk.value in keyMap && Answer(old(keyMap[pk.value].handshake), msg, e).Some?
      ensures resp.Some? ==>
                var peer := keyMap[InitiatorOf(staticKey, msg).value];
                var box := Answer(old(keyMap[InitiatorOf(staticKey, msg).value].handshake), msg, e).value;
                && keypair != null && peer in peers && peer.next == keypair && !keypair.isInitiator
                && resp.value == MessageResponse(keypair.localIndex, msg.sender, PublicOf(e), box.emptyBox)
                && keypair.remoteIndex == msg.sender
                && (keypair.send, keypair.receive) == SessionKeys(box.transcript.chainKey, false)
    {
      hide SharedSecret, NetOk, Possible, After, Reindex, Mark, InitiationFor, ConsumeInitiation, InitiatorOf, ResponseFor, SessionKeys;
      resp, keypair := None, null;
      var peer := ConsumeMessageInitiation(msg, running, flood);
      if peer == null {
        return;
      }
      resp := CreateMessageResponse(peer, e, draws);
      if resp.Some? {
        keypair := BeginSymmetricSession(peer);
        assert Holds(peer, net.slots[peer], keyMap, staticKey);
      }
    }

    /** A response arrives: consume it and derive the keypair. */
    method HandleResponse(msg: MessageResponse) returns (keypair: Keypair?)
      requires Valid()
      modifies this`indexTable, this`net, this`run, peers
      ensures Valid()
      ensures keypair != null <==>
                && msg.receiver in old(indexTable) && old(indexTable)[msg.receiver].keypair == null
                && var hs := old(indexTable[msg.receiver].peer.handshake);
                   hs.state == InitiationCreated && hs.localEphemeral.Some?
                   && ConsumeResponse(hs.Transcript(), hs.localEphemeral.value, staticKey, hs.presharedKey, msg).Some?
      ensures keypair != null ==>
                && var peer := old(indexTable)[msg.receiver].peer;
                   var hs := old(indexTable[msg.receiver].peer.handshake);
                   var got := ConsumeResponse(hs.Transcript(), hs.localEphemeral.value, staticKey, hs.presharedKey, msg).value;
                   && peer in peers && peer.current == keypair && keypair.isInitiator
                   && keypair.localIndex == hs.localIndex && keypair.remoteIndex == msg.sender
                   && (keypair.send, keypair.receive) == SessionKeys(got.chainKey, true)
    {
      hide SharedSecret, NetOk, Possible, After, Mark, ConsumeResponse, SessionKeys;
      var peer := ConsumeMessageResponse(msg);
      if peer == null {
        return null;
      }
      keypair := BeginSymmetricSession(peer);
      assert Holds(peer, net.slots[peer], keyMap, staticKey);
    }

    lemma IndexOfKeypair(peer: Peer, kp: Keypair)
      requires Valid() && peer in peers && (peer.current == kp || peer.previous == kp || peer.next == kp)
      ensures kp.localIndex in indexTable && indexTable[kp.localIndex] == IndexTableEntry(peer, kp)
    {
      assert PeerOk(net, peer);
      assert Holds(peer, net.slots[peer], keyMap, staticKey);
    }

    lemma IndexOfHandshake(peer: Peer)
      requires Valid() && peer in peers && InProgress(peer.handshake.state)
      ensures peer.handshake.localIndex in indexTable && indexTable[peer.handshake.localIndex] == IndexTableEntry(peer, null)
    {
      assert PeerOk(net, peer);
      assert Holds(peer, net.slots[peer], keyMap, staticKey);
    }

    lemma FiledUnder(peer: Peer)
      requires Valid() && peer in peers
      ensures var hs := peer.handshake;
              hs.remoteStatic in keyMap && keyMap[hs.remoteStatic] == peer && hs.staticStatic == SharedSecret(staticKey, hs.remoteStatic)
    {
      assert Holds(peer, net.slots[peer], keyMap, staticKey);
    }

    lemma SlotsOf(peer: Peer)
      requires Valid() && peer in peers
      ensures InProgress(peer.handshake.state) ==> peer.handshake.localIndex != 0
      ensures Mark(net, peer, InProgress(peer.handshake.state)) == net
    {
      assert PeerOk(net, peer);
      assert Holds(peer, net.slots[peer], keyMap, staticKey);
      assert net.slots[peer := net.slots[peer]] == net.slots;
    }
  }

  /** The three messages of two devices that know each other: `a` initiates, `b` answers. The initiator gets
      a keypair exactly when the preshared keys agree; then the transport keys and indices of the two new
      keypairs are crossed, and each end finds its keypair under the index the other end will send. */
  method FullHandshake(a: Device, pa: Peer, b: Device, pb: Peer, eA: PrivateKey, eB: PrivateKey, now: nat,
                       drawsA: seq<nat>, drawsB: seq<nat>) returns (ka: Keypair?, kb: Keypair?)
    requires a.Valid() && b.Valid() && a != b && a.peers !! b.peers && pa in a.peers && pb in b.peers
    requires pa.handshake.remoteStatic == PublicOf(b.staticKey) && pb.handshake.remoteStatic == PublicOf(a.staticKey)
    requires now > pb.handshake.lastTimestamp
    requires 0 !in drawsA && exists d :: d in drawsA && d !in a.indexTable
    requires 0 !in drawsB && exists d :: d in drawsB && d !in b.indexTable
    modifies a`indexTable, a`net, a`run, b`indexTable, b`net, b`run, a.peers, b.peers
    ensures a.Valid() && b.Valid() && kb != null
    ensures ka != null <==> old(pa.handshake.presharedKey) == old(pb.handshake.presharedKey)
    ensures ka != null ==>
              && ka.send == kb.receive && ka.receive == kb.send && ka.send != ka.receive
              && ka.remoteIndex == kb.localIndex && kb.remoteIndex == ka.localIndex
              && pa.current == ka && pb.next == kb
              && kb.remoteIndex in a.indexTable && a.indexTable[kb.remoteIndex] == IndexTableEntry(pa, ka)
              && ka.remoteIndex in b.indexTable && b.indexTable[ka.remoteIndex] == IndexTableEntry(pb, kb)
  {
    hide SharedSecret, Device.Valid, Reindex, Mark, InitiationFor, ConsumeInitiation, InitiatorOf, ResponseFor, ConsumeResponse, SessionKeys;
    a.FiledUnder(pa);
    b.FiledUnder(pb);
    ghost var pskA, pskB := pa.handshake.presharedKey, pb.handshake.presharedKey;
    SessionAgreement(a.staticKey, b.staticKey, eA, eB, pskA, pskB, now, 0, 0);
    var init := a.CreateMessageInitiation(pa, eA, now, drawsA);
    SessionAgreement(a.staticKey, b.staticKey, eA, eB, pskA, pskB, now, init.value.sender, 0);
    a.IndexOfHandshake(pa);
    var resp;
    resp, kb := b.HandleInitiation(init.value, true, false, eB, drawsB);
    SessionAgreement(a.staticKey, b.staticKey, eA, eB, pskA, pskB, now, init.value.sender, kb.localIndex);
    ka := a.HandleResponse(resp.value);
    if ka != null {
      a.IndexOfKeypair(pa, ka);
      b.IndexOfKeypair(pb, kb);
    }
  }
}
