/** The send nonces of one keypair: any number of sending goroutines share an atomic 64-bit counter and
    interleave at its loads, adds and stores (wireguard/device/send.go:421-486; wireguard/device/peer.go:251-268;
    wireguard/device/constants.go:16-17). */
module Nonces {
  import opened Arith

  const REJECT_AFTER_MESSAGES := TWO_64 - 8192 - 1

  /** `sending` goroutines have passed the check at the top and are handing out nonces; those in
      `mustStore` drew a nonce that is too large and have not yet stored the limit back; `sent` are
      the nonces that went out with a packet, in order. */
  datatype State = State(counter: nat, sending: set<nat>, mustStore: set<nat>, sent: seq<nat>)

  const INIT := State(0, {}, {}, [])

  datatype Step =
    | Check(t: nat)   // sendNonce.Load() at the top of SendStagedPackets
    | Draw(t: nat)    // sendNonce.Add(1) - 1, for one element
    | Store(t: nat)   // sendNonce.Store(RejectAfterMessages)
    | Leave(t: nat)   // the goroutine returns
    | Expire          // ExpireCurrentKeypairs stores the limit

  predicate Enabled(n: nat, s: State, step: Step) {
    match step
    case Check(t) => t < n && t !in s.sending && t !in s.mustStore
    case Draw(t) => t in s.sending
    case Store(t) => t in s.mustStore
    case Leave(t) => t in s.sending
    case Expire => true
  }

  function Apply(s: State, step: Step): State {
    match step
    case Check(t) => if s.counter >= REJECT_AFTER_MESSAGES then s else s.(sending := s.sending + {t})
    case Draw(t) =>
      var s' := s.(counter := (s.counter + 1) % TWO_64);
      if s.counter >= REJECT_AFTER_MESSAGES then s'.(sending := s.sending - {t}, mustStore := s.mustStore + {t})
      else s'.(sent := s.sent + [s.counter])
    case Store(t) => s.(counter := REJECT_AFTER_MESSAGES, mustStore := s.mustStore - {t}, sending := s.sending + {t})
    case Leave(t) => s.(sending := s.sending - {t})
    case Expire => s.(counter := REJECT_AFTER_MESSAGES)
  }

  /** `run` is an interleaving of `n` goroutines from `s` on. */
  predicate Possible(n: nat, s: State, run: seq<Step>)
    decreases |run|
  {
    run == [] || (Enabled(n, s, run[0]) && Possible(n, Apply(s, run[0]), run[1..]))
  }

  function After(s: State, run: seq<Step>): State
    decreases |run|
  {
    if run == [] then s else After(Apply(s, run[0]), run[1..])
  }

  predicate Distinct(a: seq<nat>) {
    forall i, j :: 0 <= i < j < |a| ==> a[i] != a[j]
  }

  // ---------- up to 2^13 + 1 goroutines ----------

  /** The counter overshoots the limit by no more than the number of stores still to come, and is above
      every nonce sent; only when 2^13 + 1 stores are outstanding may it have wrapped around. */
  ghost predicate Inv(n: nat, s: State) {
    && (forall t :: t in s.sending || t in s.mustStore ==> t < n)
    && s.sending !! s.mustStore
    && s.counter < TWO_64
    && (forall i :: 0 <= i < |s.sent| ==> s.sent[i] < REJECT_AFTER_MESSAGES)
    && Distinct(s.sent)
    && (|s.mustStore| > 8192 || (s.counter <= REJECT_AFTER_MESSAGES + |s.mustStore| && forall i :: 0 <= i < |s.sent| ==> s.sent[i] < s.counter))
  }

  lemma {:induction false} Bounded(a: set<nat>, n: nat)
    requires forall t :: t in a ==> t < n
    ensures |a| <= n
    decreases n
  {
    if n > 0 {
      var b := a - {n - 1};
      Bounded(b, n - 1);
      assert a <= b + {n - 1};
      assert |a| <= |b| + 1 by {
        if n - 1 in a {
          assert a == b + {n - 1};
        } else {
          assert a == b;
        }
      }
    } else {
      assert a == {};
    }
  }

  lemma DrawInv(n: nat, s: State, t: nat)
    requires n <= 8193 && Inv(n, s) && t in s.sending
    ensures Inv(n, Apply(s, Draw(t)))
  {
    assert |s.mustStore + {t}| == |s.mustStore| + 1;
    assert |s.mustStore| <= 8192 by {
      Bounded(s.mustStore + {t}, n);
    }
    var s' := Apply(s, Draw(t));
    assert s.counter < REJECT_AFTER_MESSAGES ==> s'.sent == s.sent + [s.counter] && s'.counter == s.counter + 1;
  }

  lemma StepInv(n: nat, s: State, step: Step)
    requires n <= 8193 && Inv(n, s) && Enabled(n, s, step)
    ensures Inv(n, Apply(s, step))
  {
    if step.Draw? {
      DrawInv(n, s, step.t);
    }
  }

  lemma {:induction false} RunInv(n: nat, s: State, run: seq<Step>)
    requires n <= 8193 && Inv(n, s) && Possible(n, s, run)
    ensures Inv(n, After(s, run))
    decreases |run|
  {
    hide Inv;
    if run != [] {
      StepInv(n, s, run[0]);
      RunInv(n, Apply(s, run[0]), run[1..]);
    }
  }

  // ---------- from 2^13 + 2 goroutines on ----------

  lemma {:induction false} Append(n: nat, s: State, a: seq<Step>, b: seq<Step>)
    ensures Possible(n, s, a + b) <==> Possible(n, s, a) && Possible(n, After(s, a), b)
    ensures After(s, a + b) == After(After(s, a), b)
    decreases |a|
  {
    hide Enabled, Apply;
    if a == [] {
      assert a + b == b;
    } else {
      assert (a + b)[0] == a[0] && (a + b)[1..] == a[1..] + b;
      Append(n, Apply(s, a[0]), a[1..], b);
    }
  }

  lemma Snoc(n: nat, s: State, a: seq<Step>, step: Step)
    requires Possible(n, s, a) && Enabled(n, After(s, a), step)
    ensures Possible(n, s, a + [step]) && After(s, a + [step]) == Apply(After(s, a), step)
  {
    hide Enabled, Apply;
    Append(n, s, a, [step]);
    assert Possible(n, Apply(After(s, a), step), [step][1..]);
  }

  function Ids(k: nat): (s: set<nat>)
    ensures forall t: nat :: t in s <==> t < k
  {
    if k == 0 then {} else Ids(k - 1) + {k - 1}
  }

  /** Goroutines 0 .. k - 1 pass the check while the counter is 0. */
  lemma {:induction false} AllCheck(n: nat, k: nat) returns (run: seq<Step>)
    requires k <= n
    ensures Possible(n, INIT, run) && After(INIT, run) == State(0, Ids(k), {}, [])
  {
    if k == 0 {
      run := [];
    } else {
      run := AllCheck(n, k - 1);
      Snoc(n, INIT, run, Check(k - 1));
      run := run + [Check(k - 1)];
    }
  }

  /** With the counter at the limit, goroutines 0 .. k - 1 of `m` each draw once and do not get to store. */
  lemma {:induction false} AllDraw(n: nat, m: nat, k: nat, sent: seq<nat>) returns (run: seq<Step>)
    requires k <= 8193 && k <= m
    ensures var s := State(REJECT_AFTER_MESSAGES, Ids(m), {}, sent);
            Possible(n, s, run) && After(s, run) == State((REJECT_AFTER_MESSAGES + k) % TWO_64, Ids(m) - Ids(k), Ids(k), sent)
  {
    var s := State(REJECT_AFTER_MESSAGES, Ids(m), {}, sent);
    if k == 0 {
      run := [];
      assert Ids(m) - Ids(0) == Ids(m);
    } else {
      hide Possible, After, Apply, Enabled, Ids;
      run := AllDraw(n, m, k - 1, sent);
      DrawNext(n, m, k - 1, sent);
      Snoc(n, s, run, Draw(k - 1));
      run := run + [Draw(k - 1)];
    }
  }

  /** Goroutine `k` draws after 0 .. k - 1 have. */
  lemma DrawNext(n: nat, m: nat, k: nat, sent: seq<nat>)
    requires k <= 8192 && k < m
    ensures var s := State((REJECT_AFTER_MESSAGES + k) % TWO_64, Ids(m) - Ids(k), Ids(k), sent);
            && Enabled(n, s, Draw(k))
            && Apply(s, Draw(k)) == State((REJECT_AFTER_MESSAGES + k + 1) % TWO_64, Ids(m) - Ids(k + 1), Ids(k + 1), sent)
  {
    assert Ids(m) - Ids(k) - {k} == Ids(m) - Ids(k + 1);
  }

  /** 2^13 + 2 goroutines: one sends with nonce 0, the keypair is expired, the others wrap the counter
      around, and the first sends with nonce 0 again. */
  lemma ReuseRun(n: nat, last: nat) returns (run: seq<Step>)
    requires last == 8193 && n > last
    ensures Possible(n, INIT, run) && After(INIT, run).sent == [0, 0]
  {
    hide Possible, After;
    run := AllCheck(n, last + 1);
    Snoc(n, INIT, run, Draw(last));
    run := run + [Draw(last)];
    Snoc(n, INIT, run, Expire);
    run := run + [Expire];
    assert [] + [0] == [0];
    assert After(INIT, run) == State(REJECT_AFTER_MESSAGES, Ids(last + 1), {}, [0]);
    var draws := AllDraw(n, last + 1, last, [0]);
    Append(n, INIT, run, draws);
    run := run + draws;
    assert After(INIT, run) == State(0, Ids(last + 1) - Ids(last), Ids(last), [0]);
    Snoc(n, INIT, run, Draw(last));
    run := run + [Draw(last)];
  }

  /** The keypair never uses a nonce twice, in any interleaving, if and only if at most 2^13 + 1
      goroutines send with it at the same time. */
  lemma NonceReuse(n: nat)
    ensures (forall run :: Possible(n, INIT, run) ==> Distinct(After(INIT, run).sent)) <==> n <= 8193
  {
    if n <= 8193 {
      forall run | Possible(n, INIT, run) ensures Distinct(After(INIT, run).sent) {
        RunInv(n, INIT, run);
      }
    } else {
      var run := ReuseRun(n, 8193);
      var sent := After(INIT, run).sent;
      assert sent[0] == sent[1];
    }
  }

  /** However many goroutines there are, a packet is only ever sent with a nonce below the limit. */
  lemma {:induction false} SentBelowLimit(n: nat, s: State, run: seq<Step>)
    requires Possible(n, s, run) && forall i :: 0 <= i < |s.sent| ==> s.sent[i] < REJECT_AFTER_MESSAGES
    ensures forall i :: 0 <= i < |After(s, run).sent| ==> After(s, run).sent[i] < REJECT_AFTER_MESSAGES
    decreases |run|
  {
    if run != [] {
      SentBelowLimit(n, Apply(s, run[0]), run[1..]);
    }
  }

  /** Step `i` of the run takes the counter from 2^64 - 1 to 0. */
  predicate WrapsAt(run: seq<Step>, i: nat) {
    i < |run| && run[i].Draw? && After(INIT, run[..i]).counter == TWO_64 - 1
  }

  lemma FewNeverWrap(n: nat, run: seq<Step>, i: nat)
    requires n <= 8192 && Possible(n, INIT, run)
    ensures !WrapsAt(run, i)
  {
    if i < |run| && run[i].Draw? {
      assert run == run[..i] + run[i..];
      Append(n, INIT, run[..i], run[i..]);
      var s, t := After(INIT, run[..i]), run[i].t;
      RunInv(n, INIT, run[..i]);
      Bounded(s.mustStore + {t}, n);
      assert |s.mustStore + {t}| == |s.mustStore| + 1;
    }
  }

  /** 2^13 + 1 goroutines pass the check, the keypair is expired, and all of them draw. */
  lemma WrapRun(n: nat, last: nat) returns (run: seq<Step>)
    requires last == 8192 && n > last
    ensures Possible(n, INIT, run) && run != [] && WrapsAt(run, |run| - 1)
  {
    hide Possible, After;
    run := AllCheck(n, last + 1);
    Snoc(n, INIT, run, Expire);
    run := run + [Expire];
    assert After(INIT, run) == State(REJECT_AFTER_MESSAGES, Ids(last + 1), {}, []);
    var draws := AllDraw(n, last + 1, last, []);
    Append(n, INIT, run, draws);
    run := run + draws;
    assert After(INIT, run) == State(TWO_64 - 1, Ids(last + 1) - Ids(last), Ids(last), []);
    Snoc(n, INIT, run, Draw(last));
    assert (run + [Draw(last)])[..|run|] == run;
    run := run + [Draw(last)];
  }

  /** The 64-bit counter never wraps around, in any interleaving, if and only if at most 2^13 goroutines send
      at the same time. */
  lemma NoWrap(n: nat)
    ensures (forall run, i :: Possible(n, INIT, run) ==> !WrapsAt(run, i)) <==> n <= 8192
  {
    if n <= 8192 {
      forall run, i | Possible(n, INIT, run) ensures !WrapsAt(run, i) {
        FewNeverWrap(n, run, i);
      }
    } else {
      var run := WrapRun(n, 8192);
      assert WrapsAt(run, |run| - 1);
    }
  }

  /** Then a keypair that has reached the limit stays there: a store takes the counter back to the limit, but
      never below, so no further goroutine passes the check. */
  lemma {:induction false} StaysExhausted(n: nat, s: State, run: seq<Step>)
    requires n <= 8192 && Inv(n, s) && Possible(n, s, run) && s.counter >= REJECT_AFTER_MESSAGES
    ensures After(s, run).counter >= REJECT_AFTER_MESSAGES
    decreases |run|
  {
    if run != [] {
      var step := run[0];
      StepInv(n, s, step);
      if step.Draw? {
        Bounded(s.mustStore + {step.t}, n);
        assert |s.mustStore + {step.t}| == |s.mustStore| + 1;
      }
      StaysExhausted(n, Apply(s, step), run[1..]);
    }
  }

  /** What has been sent are the nonces from 0 on, and below the limit the counter is the next of them. */
  ghost predicate Counting(s: State) {
    (s.counter < REJECT_AFTER_MESSAGES ==> s.counter == |s.sent|) && forall i :: 0 <= i < |s.sent| ==> s.sent[i] == i
  }

  /** Nothing more is sent, and no goroutine has come in. */
  ghost predicate Exhausted(s: State, s': State) {
    s'.counter >= REJECT_AFTER_MESSAGES && s'.sent == s.sent && s'.sending + s'.mustStore <= s.sending + s.mustStore
  }

  lemma CountingDraw(n: nat, s: State, t: nat)
    requires n <= 8192 && Inv(n, s) && Counting(s) && t in s.sending
    ensures Counting(Apply(s, Draw(t)))
    ensures s.counter >= REJECT_AFTER_MESSAGES ==> Exhausted(s, Apply(s, Draw(t)))
  {
    assert |s.mustStore| < 8192 by {
      Bounded(s.mustStore + {t}, n);
      assert |s.mustStore + {t}| == |s.mustStore| + 1;
    }
    hide Inv;
    var s' := Apply(s, Draw(t));
    if s.counter < REJECT_AFTER_MESSAGES {
      assert s'.sent == s.sent + [s.counter] && s'.counter == s.counter + 1;
    } else {
      assert s'.counter == s.counter + 1 by {
        NoOverflow(n, s);
      }
    }
  }

  lemma NoOverflow(n: nat, s: State)
    requires Inv(n, s) && |s.mustStore| < 8192
    ensures (s.counter + 1) % TWO_64 == s.counter + 1
  {
  }

  lemma CountingStep(n: nat, s: State, step: Step)
    requires n <= 8192 && Inv(n, s) && Counting(s) && Enabled(n, s, step)
    ensures Counting(Apply(s, step))
    ensures s.counter >= REJECT_AFTER_MESSAGES ==> Exhausted(s, Apply(s, step))
  {
    hide Inv;
    if step.Draw? {
      CountingDraw(n, s, step.t);
    }
  }

  /** With at most 2^13 goroutines, the nonces of a keypair go out as 0, 1, 2 and so on, without a gap; and once the limit
      has been reached, no further goroutine passes the check and nothing more is sent. */
  lemma {:induction false} NoncesInOrder(n: nat, s: State, run: seq<Step>)
    requires n <= 8192 && Inv(n, s) && Counting(s) && Possible(n, s, run)
    ensures forall i :: 0 <= i < |After(s, run).sent| ==> After(s, run).sent[i] == i
    ensures s.counter >= REJECT_AFTER_MESSAGES ==> Exhausted(s, After(s, run))
    decreases |run|
  {
    if run != [] {
      hide Inv, Counting, Enabled, Apply;
      CountingStep(n, s, run[0]);
      StepInv(n, s, run[0]);
      NoncesInOrder(n, Apply(s, run[0]), run[1..]);
    }
  }

  /** Nothing is sent with a keypair after it has been expired. */
  lemma NothingAfterExpire(n: nat, before: seq<Step>, later: seq<Step>)
    requires n <= 8192 && Possible(n, INIT, before + [Expire] + later)
    ensures After(INIT, before + [Expire] + later).sent == After(INIT, before).sent
  {
    hide Possible, After, Inv, Counting, Exhausted;
    Append(n, INIT, before + [Expire], later);
    Append(n, INIT, before, [Expire]);
    StartCounting(n);
    RunInv(n, INIT, before);
    CountingRun(n, INIT, before);
    var s := After(INIT, before);
    OneStep(n, s, Expire);
    StepInv(n, s, Expire);
    CountingStep(n, s, Expire);
    NoncesInOrder(n, Apply(s, Expire), later);
    SameSent(Apply(s, Expire), After(Apply(s, Expire), later));
  }

  lemma SameSent(s: State, s': State)
    ensures Exhausted(s, s') ==> s'.sent == s.sent
  {
  }

  lemma OneStep(n: nat, s: State, step: Step)
    requires Possible(n, s, [step])
    ensures Enabled(n, s, step) && After(s, [step]) == Apply(s, step)
  {
    assert [step][1..] == [];
  }

  lemma StartCounting(n: nat)
    ensures Inv(n, INIT) && Counting(INIT)
  {
  }

  lemma {:induction false} CountingRun(n: nat, s: State, run: seq<Step>)
    requires n <= 8192 && Inv(n, s) && Counting(s) && Possible(n, s, run)
    ensures Counting(After(s, run))
    decreases |run|
  {
    if run != [] {
      hide Inv, Counting, Enabled, Apply;
      CountingStep(n, s, run[0]);
      StepInv(n, s, run[0]);
      CountingRun(n, Apply(s, run[0]), run[1..]);
    }
  }

  // ---------- one container of packets ----------

  datatype Element = Element(packet: int, nonce: nat)

  /** The elements whose nonce is usable (`keep`) or not, with their nonces, in order. */
  function Select(elems: seq<Element>, nonces: seq<nat>, keep: bool): seq<Element>
    requires |elems| == |nonces|
  {
    if elems == [] then []
    else
      var k := |elems| - 1;
      var rest := Select(elems[..k], nonces[..k], keep);
      if (nonces[k] < REJECT_AFTER_MESSAGES) == keep then rest + [elems[k].(nonce := nonces[k])] else rest
  }

  /** The loop of SendStagedPackets over a container: the usable elements are moved to the front of the same
      slice, the others are staged again. `nonces` are what the atomic adds return. */
  method AssignNonces(elems: array<Element>, nonces: seq<nat>) returns (i: nat, outOfOrder: seq<Element>)
    requires |nonces| == elems.Length
    modifies elems
    ensures i <= elems.Length && elems[..i] == Select(old(elems[..]), nonces, true)
    ensures outOfOrder == Select(old(elems[..]), nonces, false)
  {
    i, outOfOrder := 0, [];
    ghost var was := elems[..];
    assert was[..0] == [] && nonces[..0] == [];
    for k := 0 to elems.Length
      invariant i <= k && forall j :: k <= j < elems.Length ==> elems[j] == was[j]
      invariant elems[..i] == Select(was[..k], nonces[..k], true) && outOfOrder == Select(was[..k], nonces[..k], false)
    {
      assert was[..k + 1][..k] == was[..k] && nonces[..k + 1][..k] == nonces[..k];
      var elem := elems[k].(nonce := nonces[k]);
      if elem.nonce >= REJECT_AFTER_MESSAGES {
        outOfOrder := outOfOrder + [elem];
      } else {
        elems[i] := elem;
        assert elems[..i + 1] == elems[..i] + [elem];
        i := i + 1;
      }
    }
    assert was[..elems.Length] == was && nonces[..elems.Length] == nonces;
  }

  /** The places of the elements with the right kind of nonce. */
  function Places(nonces: seq<nat>, keep: bool): seq<nat> {
    if nonces == [] then []
    else
      var k: nat := |nonces| - 1;
      Places(nonces[..k], keep) + if (nonces[k] < REJECT_AFTER_MESSAGES) == keep then [k] else []
  }

  lemma {:induction false} PlaceIff(nonces: seq<nat>, keep: bool, k: nat)
    ensures k in Places(nonces, keep) <==> k < |nonces| && (nonces[k] < REJECT_AFTER_MESSAGES) == keep
  {
    if nonces != [] {
      PlaceIff(nonces[..|nonces| - 1], keep, k);
    }
  }

  lemma {:induction false} PlacesRise(nonces: seq<nat>, keep: bool, i: nat, j: nat)
    requires i < j < |Places(nonces, keep)|
    ensures Places(nonces, keep)[i] < Places(nonces, keep)[j]
  {
    var k: nat := |nonces| - 1;
    var before := Places(nonces[..k], keep);
    if j < |before| {
      PlacesRise(nonces[..k], keep, i, j);
    } else {
      PlaceIff(nonces[..k], keep, before[i]);
      assert before[i] in before;
    }
  }

  /** The selected elements are those with the right kind of nonce, in the order in which they were. */
  lemma {:induction false} SelectInOrder(elems: seq<Element>, nonces: seq<nat>, keep: bool, i: nat)
    requires |elems| == |nonces| && i < |Select(elems, nonces, keep)|
    ensures |Places(nonces, keep)| == |Select(elems, nonces, keep)|
    ensures var at := Places(nonces, keep)[i];
            && at < |elems| && (nonces[at] < REJECT_AFTER_MESSAGES) == keep
            && Select(elems, nonces, keep)[i] == elems[at].(nonce := nonces[at])
            && forall j: nat :: i < j < |Places(nonces, keep)| ==> at < Places(nonces, keep)[j]
  {
    SelectCount(elems, nonces, keep);
    var at := Places(nonces, keep)[i];
    assert at in Places(nonces, keep);
    PlaceIff(nonces, keep, at);
    SelectAt(elems, nonces, keep, i);
    forall j: nat | i < j < |Places(nonces, keep)| ensures at < Places(nonces, keep)[j] {
      PlacesRise(nonces, keep, i, j);
    }
  }

  lemma {:induction false} SelectCount(elems: seq<Element>, nonces: seq<nat>, keep: bool)
    requires |elems| == |nonces|
    ensures |Places(nonces, keep)| == |Select(elems, nonces, keep)|
  {
    if elems != [] {
      SelectCount(elems[..|elems| - 1], nonces[..|elems| - 1], keep);
    }
  }

  lemma {:induction false} SelectAt(elems: seq<Element>, nonces: seq<nat>, keep: bool, i: nat)
    requires |elems| == |nonces| && i < |Select(elems, nonces, keep)| == |Places(nonces, keep)|
    requires Places(nonces, keep)[i] < |elems|
    ensures Select(elems, nonces, keep)[i] == elems[Places(nonces, keep)[i]].(nonce := nonces[Places(nonces, keep)[i]])
  {
    var k: nat := |elems| - 1;
    SelectCount(elems[..k], nonces[..k], keep);
    if i < |Places(nonces[..k], keep)| {
      var at := Places(nonces[..k], keep)[i];
      assert at in Places(nonces[..k], keep);
      PlaceIff(nonces[..k], keep, at);
      SelectAt(elems[..k], nonces[..k], keep, i);
    }
  }

  /** No element is lost or made up, and every one carries its own nonce. */
  lemma {:induction false} SelectPartitions(elems: seq<Element>, nonces: seq<nat>)
    requires |elems| == |nonces|
    ensures multiset(Select(elems, nonces, true)) + multiset(Select(elems, nonces, false))
         == multiset(seq(|elems|, k requires 0 <= k < |elems| => elems[k].(nonce := nonces[k])))
  {
    var all := seq(|elems|, k requires 0 <= k < |elems| => elems[k].(nonce := nonces[k]));
    if elems == [] {
    } else {
      var k := |elems| - 1;
      SelectPartitions(elems[..k], nonces[..k]);
      var init := seq(k, j requires 0 <= j < k => elems[..k][j].(nonce := nonces[..k][j]));
      assert all == init + [elems[k].(nonce := nonces[k])];
    }
  }
}
