/** Which keypairs of a peer are found in the index table after any run, told by the run alone: when a new one is derived,
    confirmed or dropped, and which older ones stay (wireguard/device/noise-protocol.go:575-626). */
module NoiseLookups {
  import opened NoiseRotation

  /** The index of the keypair leads to it. */
  ghost predicate Found(v: Net, p: Peer, kp: Keypair) {
    kp.localIndex in v.table && v.table[kp.localIndex] == IndexTableEntry(p, kp)
  }

  ghost function Current(v: Net, p: Peer): Keypair? {
    if p in v.slots then v.slots[p].current else null
  }

  /** The keypair of the peer's last Derive, unless its keypairs were flushed since. */
  function Newest(run: seq<Step>, p: Peer): Keypair? {
    if run == [] then null
    else
      var last := run[|run| - 1];
      if last.Derive? && last.peer == p then last.keypair
      else if last == Flush(p) then null
      else Newest(run[..|run| - 1], p)
  }

  /** That keypair, if it was derived as responder and no packet has been received under it yet. */
  function Unconfirmed(run: seq<Step>, p: Peer): Keypair? {
    if run == [] then null
    else
      var last := run[|run| - 1];
      if last.Derive? && last.peer == p then (if last.keypair.isInitiator then null else last.keypair)
      else if last == Flush(p) then null
      else
        var before := Unconfirmed(run[..|run| - 1], p);
        if before != null && last == Receive(p, before) then null else before
  }

  /** A run without its last step. */
  lemma {:induction false} Shorter(v: Net, run: seq<Step>, s: Step)
    requires Possible(v, run + [s])
    ensures Possible(v, run) && Enabled(After(v, run), s) && After(v, run + [s]) == Apply(After(v, run), s)
    decreases |run|
  {
    hide Enabled, Apply;
    if run == [] {
      assert (run + [s])[1..] == [];
    } else {
      assert (run + [s])[1..] == run[1..] + [s];
      Shorter(Apply(v, run[0]), run[1..], s);
    }
  }

  lemma NewestStep(run: seq<Step>, s: Step, p: Peer)
    ensures Newest(run + [s], p) == (if s.Derive? && s.peer == p then s.keypair else if s == Flush(p) then null else Newest(run, p))
    ensures var before := Unconfirmed(run, p);
            Unconfirmed(run + [s], p) == (if s.Derive? && s.peer == p then (if s.keypair.isInitiator then null else s.keypair)
                                          else if s == Flush(p) then null
                                          else if before != null && s == Receive(p, before) then null else before)
  {
    assert (run + [s])[..|run + [s]| - 1] == run;
  }

  /** What the slots of a peer hold, told by the run. */
  ghost predicate Tells(run: seq<Step>, v: Net, p: Peer) {
    if p in v.slots then
      var s := v.slots[p];
      s.next == Unconfirmed(run, p) && Newest(run, p) == if s.next != null then s.next else s.current
    else Unconfirmed(run, p) == null && Newest(run, p) == null
  }

  lemma TellsStep(run: seq<Step>, v: Net, s: Step, p: Peer)
    requires Enabled(v, s) && Tells(run, v, p)
    ensures Tells(run + [s], Apply(v, s), p)
  {
    hide Without, Swapped, Fresh, Newest, Unconfirmed;
    NewestStep(run, s, p);
  }

  lemma {:induction false} RunTells(run: seq<Step>, p: Peer)
    requires Possible(EMPTY, run)
    ensures Tells(run, After(EMPTY, run), p)
    decreases |run|
  {
    if run != [] {
      hide Tells, Possible, After, Enabled, Apply;
      var before, s := run[..|run| - 1], run[|run| - 1];
      assert before + [s] == run;
      Shorter(EMPTY, before, s);
      RunTells(before, p);
      TellsStep(before, After(EMPTY, before), s, p);
    }
  }

  lemma FoundIs(run: seq<Step>, p: Peer, kp: Keypair)
    requires Possible(EMPTY, run) && p in After(EMPTY, run).slots
    ensures Found(After(EMPTY, run), p, kp) <==> kp.localIndex != 0 && After(EMPTY, run).slots[p].Has(kp)
  {
    hide Possible, After;
    LookupExact(run, kp.localIndex, p, kp);
  }

  /** After a keypair has been derived as initiator, it is the current one, and of the others exactly the one that was
      derived last is still found. */
  lemma AfterInitiator(run: seq<Step>, p: Peer, kp: Keypair, x: Keypair)
    requires Possible(EMPTY, run + [Derive(p, kp)]) && kp.isInitiator
    ensures var w := After(EMPTY, run + [Derive(p, kp)]);
            && Current(w, p) == kp
            && (Found(w, p, x) <==> x.localIndex != 0 && (x == kp || x == Newest(run, p)))
  {
    hide Possible, After, Without, Swapped, Fresh, Newest, Unconfirmed, Found;
    Shorter(EMPTY, run, Derive(p, kp));
    RunTells(run, p);
    FoundIs(run + [Derive(p, kp)], p, x);
  }

  /** After a keypair has been derived as responder, the current one is still the current one, and of the others
      exactly this one is still found. */
  lemma AfterResponder(run: seq<Step>, p: Peer, kp: Keypair, x: Keypair)
    requires Possible(EMPTY, run + [Derive(p, kp)]) && !kp.isInitiator
    ensures Possible(EMPTY, run)
    ensures var current := Current(After(EMPTY, run), p);
            var w := After(EMPTY, run + [Derive(p, kp)]);
            && Current(w, p) == current
            && (Found(w, p, x) <==> x.localIndex != 0 && (x == kp || x == current))
  {
    hide Possible, After, Without, Swapped, Fresh, Found;
    Shorter(EMPTY, run, Derive(p, kp));
    FoundIs(run + [Derive(p, kp)], p, x);
  }

  /** After the first packet under a keypair that was derived as responder, it is the current one, and of the others
      exactly the one that was current before is still found. */
  lemma AfterConfirmation(run: seq<Step>, p: Peer, kp: Keypair, x: Keypair)
    requires Possible(EMPTY, run + [Receive(p, kp)]) && Unconfirmed(run, p) == kp
    ensures Possible(EMPTY, run)
    ensures var current := Current(After(EMPTY, run), p);
            var w := After(EMPTY, run + [Receive(p, kp)]);
            && Current(w, p) == kp
            && (Found(w, p, x) <==> x.localIndex != 0 && (x == kp || x == current))
  {
    hide Possible, After, Without, Swapped, Fresh, Newest, Unconfirmed, Found;
    Shorter(EMPTY, run, Receive(p, kp));
    RunTells(run, p);
    FoundIs(run + [Receive(p, kp)], p, x);
  }

  /** After a flush none is left. */
  lemma AfterFlush(run: seq<Step>, p: Peer, x: Keypair)
    requires Possible(EMPTY, run + [Flush(p)])
    ensures var w := After(EMPTY, run + [Flush(p)]); Current(w, p) == null && !Found(w, p, x)
  {
    hide Possible, After, Without, Swapped, Fresh, Found;
    Shorter(EMPTY, run, Flush(p));
    FoundIs(run + [Flush(p)], p, x);
  }

  /** No other step changes which keypairs of the peer are found, or which is the current one. */
  lemma AfterOther(run: seq<Step>, s: Step, p: Peer, x: Keypair)
    requires Possible(EMPTY, run + [s]) && !(s.Derive? && s.peer == p) && s != Flush(p)
    requires !(s.Receive? && s.peer == p && s.keypair == Unconfirmed(run, p))
    ensures Possible(EMPTY, run)
    ensures var v, w := After(EMPTY, run), After(EMPTY, run + [s]);
            Current(w, p) == Current(v, p) && (Found(w, p, x) <==> Found(v, p, x))
  {
    hide Possible, After, Without, Swapped, Fresh, Newest, Unconfirmed, Found;
    Shorter(EMPTY, run, s);
    RunTells(run, p);
    if p in After(EMPTY, run).slots {
      FoundIs(run, p, x);
      FoundIs(run + [s], p, x);
    } else {
      NotFound(run, p, x);
      if p in After(EMPTY, run + [s]).slots {
        FoundIs(run + [s], p, x);
      } else {
        NotFound(run + [s], p, x);
      }
    }
  }

  lemma NotFound(run: seq<Step>, p: Peer, x: Keypair)
    requires Possible(EMPTY, run) && p !in After(EMPTY, run).slots
    ensures !Found(After(EMPTY, run), p, x)
  {
    hide Possible, After;
    RunOk(EMPTY, run);
    assert x.localIndex in After(EMPTY, run).table ==> EntryOk(After(EMPTY, run), x.localIndex);
  }

  /** In particular, the keypair derived last is found until the keypairs are flushed. */
  lemma NewestFound(run: seq<Step>, p: Peer, kp: Keypair)
    requires Possible(EMPTY, run) && Newest(run, p) == kp && kp.localIndex != 0
    ensures Found(After(EMPTY, run), p, kp)
  {
    hide Possible, After, Newest, Unconfirmed, Found;
    RunTells(run, p);
    FoundIs(run, p, kp);
  }

  // ---------- the index of a handshake ----------

  /** The index the peer's handshake got last, unless it was cleared or a keypair was derived from it since; 0 is none. */
  function HandshakeIndex(run: seq<Step>, p: Peer): nat {
    if run == [] then 0
    else
      var last := run[|run| - 1];
      if last.NewIndex? && last.peer == p then last.index
      else if (last.Derive? && last.peer == p) || last == Forget(p) then 0
      else HandshakeIndex(run[..|run| - 1], p)
  }

  lemma IndexStep(run: seq<Step>, v: Net, s: Step, p: Peer)
    requires Enabled(v, s) && HandshakeIndex(run, p) == if p in v.slots then v.slots[p].index else 0
    ensures var w := Apply(v, s); HandshakeIndex(run + [s], p) == if p in w.slots then w.slots[p].index else 0
  {
    hide Without, Swapped, Fresh, HandshakeIndex;
    IndexUnfolds(run, s, p);
  }

  lemma IndexUnfolds(run: seq<Step>, s: Step, p: Peer)
    ensures HandshakeIndex(run + [s], p) == (if s.NewIndex? && s.peer == p then s.index
                                             else if (s.Derive? && s.peer == p) || s == Forget(p) then 0
                                             else HandshakeIndex(run, p))
  {
    assert (run + [s])[..|run + [s]| - 1] == run;
  }

  lemma {:induction false} IndexIs(run: seq<Step>, p: Peer)
    requires Possible(EMPTY, run)
    ensures var v := After(EMPTY, run); HandshakeIndex(run, p) == if p in v.slots then v.slots[p].index else 0
    decreases |run|
  {
    if run != [] {
      hide Possible, After, Enabled, Apply, HandshakeIndex;
      var before, s := run[..|run| - 1], run[|run| - 1];
      assert before + [s] == run;
      Shorter(EMPTY, before, s);
      IndexIs(before, p);
      IndexStep(before, After(EMPTY, before), s, p);
    }
  }

  /** After any run, an index leads to the handshake of a peer if and only if it is the one that handshake got last. */
  lemma HandshakeFound(run: seq<Step>, p: Peer, i: nat)
    requires Possible(EMPTY, run)
    ensures var v := After(EMPTY, run);
            i in v.table && v.table[i] == IndexTableEntry(p, null) <==> i != 0 && HandshakeIndex(run, p) == i
  {
    hide Possible, After, HandshakeIndex;
    IndexIs(run, p);
    if p in After(EMPTY, run).slots {
      LookupExact(run, i, p, null);
    } else {
      RunOk(EMPTY, run);
      assert i in After(EMPTY, run).table ==> EntryOk(After(EMPTY, run), i);
    }
  }
}
