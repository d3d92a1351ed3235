/** The timestamps of handshake initiations: their byte order, their spacing at the sender and the replay
    test at the receiver (wireguard/tai64n/tai64n.go:14-37; wireguard/device/send.go:172-196, 223-226;
    wireguard/device/noise-protocol.go:314-336). Times are nanoseconds of the Unix epoch. */
module Timestamps {
  import opened Arith
  import opened Options

  type Byte = b: nat | b < 256

  const BASE := 0x4000_0000_0000_000a
  const WHITENER := 0x100_0000
  const SECOND := 1_000_000_000
  const REKEY_TIMEOUT := 10 * SECOND

  // ---------- bytes ----------

  /** binary.BigEndian.PutUint64 and PutUint32 */
  function PutUint(x: nat, size: nat): (b: seq<Byte>)
    ensures |b| == size
  {
    if size == 0 then [] else PutUint(x / 256, size - 1) + [x % 256]
  }

  function Value(b: seq<Byte>): nat {
    if b == [] then 0 else Value(b[..|b| - 1]) * 256 + b[|b| - 1]
  }

  function Power256(n: nat): (p: nat)
    ensures p > 0
  {
    if n == 0 then 1 else 256 * Power256(n - 1)
  }

  lemma {:induction false} PutValue(x: nat, size: nat)
    requires x < Power256(size)
    ensures Value(PutUint(x, size)) == x
  {
    if size > 0 {
      PutValue(x / 256, size - 1);
      var b := PutUint(x, size);
      assert b[..size - 1] == PutUint(x / 256, size - 1);
    }
  }

  lemma {:induction false} ValueBound(b: seq<Byte>)
    ensures Value(b) < Power256(|b|)
  {
    if b != [] {
      ValueBound(b[..|b| - 1]);
    }
  }

  lemma Carry(v: nat, p: nat, u: nat, x: nat)
    ensures (v * p + u) * 256 + x == v * (256 * p) + (u * 256 + x)
  {
  }

  lemma ValueStep(b: seq<Byte>)
    requires b != []
    ensures Value(b) == Value(b[..|b| - 1]) * 256 + b[|b| - 1]
  {
  }

  lemma {:induction false} ValueAppend(a: seq<Byte>, b: seq<Byte>)
    ensures Value(a + b) == Value(a) * Power256(|b|) + Value(b)
  {
    if b == [] {
      assert a + b == a;
    } else {
      hide Value;
      var n := |b| - 1;
      ValueAppend(a, b[..n]);
      ValueStep(a + b);
      ValueStep(b);
      assert Power256(|b|) == 256 * Power256(n);
      assert (a + b)[..|a + b| - 1] == a + b[..n];
      Carry(Value(a), Power256(n), Value(b[..n]), b[n]);
    }
  }

  /** bytes.Compare on strings of the same length */
  function Compare(a: seq<Byte>, b: seq<Byte>): int
    requires |a| == |b|
  {
    if a == [] then 0
    else if a[0] < b[0] then -1
    else if a[0] > b[0] then 1
    else Compare(a[1..], b[1..])
  }

  /** Comparing the bytes from the first on is comparing the numbers. */
  lemma {:induction false} CompareIsNumeric(a: seq<Byte>, b: seq<Byte>)
    requires |a| == |b|
    ensures Compare(a, b) > 0 <==> Value(a) > Value(b)
    ensures Compare(a, b) == 0 <==> Value(a) == Value(b)
  {
    if a != [] {
      CompareIsNumeric(a[1..], b[1..]);
      assert a == [a[0]] + a[1..] && b == [b[0]] + b[1..];
      ValueAppend([a[0]], a[1..]);
      ValueAppend([b[0]], b[1..]);
      ValueBound(a[1..]);
      ValueBound(b[1..]);
      assert Value([a[0]]) == a[0] && Value([b[0]]) == b[0];
      FirstDecides(a[0], b[0], Value(a[1..]), Value(b[1..]), Power256(|a| - 1));
    }
  }

  lemma FirstDecides(x: nat, y: nat, u: nat, v: nat, p: nat)
    requires u < p && v < p
    ensures x < y ==> x * p + u < y * p + v
    ensures x > y ==> x * p + u > y * p + v
  {
    if x < y {
      MulMonotone(x + 1, y, p);
    } else if x > y {
      MulMonotone(y + 1, x, p);
    }
  }

  // ---------- stamps ----------

  /** Times whose seconds do not wrap around when BASE is added. */
  predicate InRange(t: int) {
    -BASE <= t / SECOND < TWO_64 - BASE
  }

  function Whitened(nanos: nat): nat {
    nanos / WHITENER * WHITENER
  }

  /** stamp */
  function Stamp(t: int): (b: seq<Byte>)
    ensures |b| == 12
  {
    PutUint((BASE + t / SECOND) % TWO_64, 8) + PutUint(Whitened(t % SECOND), 4)
  }

  function After(s1: seq<Byte>, s2: seq<Byte>): bool
    requires |s1| == |s2|
  {
    Compare(s1, s2) > 0
  }

  lemma Powers()
    ensures Power256(8) == TWO_64 && Power256(4) == 0x1_0000_0000
  {
    assert Power256(4) == 256 * (256 * (256 * (256 * Power256(0))));
    assert Power256(8) == 256 * (256 * (256 * (256 * Power256(4))));
  }

  lemma StampValue(t: int)
    requires InRange(t)
    ensures Value(Stamp(t)) == (BASE + t / SECOND) * 0x1_0000_0000 + Whitened(t % SECOND)
  {
    hide Value, PutUint, Power256;
    Powers();
    var secs, nanos := BASE + t / SECOND, Whitened(t % SECOND);
    PutValue(secs, 8);
    PutValue(nanos, 4);
    ValueAppend(PutUint(secs, 8), PutUint(nanos, 4));
  }

  /** A stamp is a TAI64N label: eight bytes with 2^62 and 10 and the seconds of the Unix epoch, and four with the
      nanoseconds, of which the lower 24 bits are zero. */
  lemma StampFormat(t: int)
    requires InRange(t)
    ensures Value(Stamp(t)[..8]) == 0x4000_0000_0000_0000 + 10 + t / SECOND
    ensures var nanos := Value(Stamp(t)[8..]); nanos % 0x100_0000 == 0 && nanos <= t % SECOND < nanos + 0x100_0000
  {
    hide Value, PutUint, Power256;
    Powers();
    var secs, nanos := BASE + t / SECOND, Whitened(t % SECOND);
    PutValue(secs, 8);
    PutValue(nanos, 4);
    assert Stamp(t)[..8] == PutUint(secs, 8) && Stamp(t)[8..] == PutUint(nanos, 4);
  }

  /** One stamp is after another exactly when its whitened time is. */
  lemma StampOrder(t1: int, t2: int)
    requires InRange(t1) && InRange(t2)
    ensures After(Stamp(t2), Stamp(t1)) <==>
              t2 / SECOND > t1 / SECOND || (t2 / SECOND == t1 / SECOND && Whitened(t2 % SECOND) > Whitened(t1 % SECOND))
  {
    hide Compare, Value, Stamp;
    CompareIsNumeric(Stamp(t2), Stamp(t1));
    StampValue(t1);
    StampValue(t2);
  }

  /** Two moments within one whitening interval have the same stamp. */
  lemma SameStamp()
    ensures Stamp(1) == Stamp(0) && !After(Stamp(1), Stamp(0))
  {
    assert Whitened(1) == Whitened(0);
    StampOrder(0, 1);
  }

  /** Stamps taken at least one whitening interval apart increase. */
  lemma StampsIncrease(t1: int, t2: int)
    requires InRange(t1) && InRange(t2) && t2 >= t1 + WHITENER
    ensures After(Stamp(t2), Stamp(t1))
  {
    StampOrder(t1, t2);
  }

  // ---------- the sender ----------

  /** An initiation: when the elapsed time was checked, when lastSentHandshake was set, when the message was
      stamped, and how often lastSentHandshake had been put back before. */
  datatype Sent = Sent(checked: int, stored: int, at: int, epoch: nat) {
    predicate InOrder() {
      checked <= stored <= at && InRange(at)
    }

    /** It was stamped early enough to be told from the next one. */
    predicate Prompt() {
      at <= stored + REKEY_TIMEOUT - WHITENER
    }
  }

  class Sender {
    var lastSentHandshake: int
    ghost var sent: seq<Sent>  // the initiations sent so far
    ghost var epoch: nat

    ghost predicate Valid()
      reads this
    {
      && (forall i :: 0 <= i < |sent| ==> sent[i].InOrder() && sent[i].epoch <= epoch)
      && (forall i :: 0 <= i < |sent| && sent[i].epoch == epoch ==> sent[i].stored <= lastSentHandshake)
      && (forall i, j :: 0 <= i < j < |sent| && sent[i].epoch == sent[j].epoch ==> sent[i].stored + REKEY_TIMEOUT <= sent[j].checked)
    }

    constructor (lastSent: int)
      ensures Valid() && lastSentHandshake == lastSent && sent == [] && epoch == 0
    {
      lastSentHandshake, sent, epoch := lastSent, [], 0;
    }

    /** The clock is read when the elapsed time is checked, again when lastSentHandshake is set, which is after
        any junk packets have been sent, and again when the message is stamped. */
    method SendHandshakeInitiation(checked: int, stored: int, at: int) returns (stamp: Option<seq<Byte>>)
      requires Valid() && checked <= stored <= at && InRange(at)
      modifies this
      ensures Valid() && epoch == old(epoch) && (stamp.Some? <==> checked - old(lastSentHandshake) >= REKEY_TIMEOUT)
      ensures stamp.Some? ==> stamp.value == Stamp(at) && sent == old(sent) + [Sent(checked, stored, at, epoch)] && lastSentHandshake == stored
      ensures stamp.None? ==> sent == old(sent) && lastSentHandshake == old(lastSentHandshake)
    {
      if checked - lastSentHandshake < REKEY_TIMEOUT {
        return None;
      }
      lastSentHandshake := stored;
      sent := sent + [Sent(checked, stored, at, epoch)];
      return Some(Stamp(at));
    }

    /** Sending a response also moves lastSentHandshake. */
    method SendHandshakeResponse(now: int)
      requires Valid() && now >= lastSentHandshake
      modifies this`lastSentHandshake
      ensures Valid() && lastSentHandshake == now
    {
      lastSentHandshake := now;
    }

    /** Starting the peer and expiring its keypairs put lastSentHandshake back, so that an initiation may be
        sent at once. */
    method AllowAtOnce(now: int)
      requires Valid()
      modifies this`lastSentHandshake, this`epoch
      ensures Valid() && epoch == old(epoch) + 1 && lastSentHandshake == now - (REKEY_TIMEOUT + SECOND)
    {
      lastSentHandshake := now - (REKEY_TIMEOUT + SECOND);
      epoch := epoch + 1;
    }
  }

  /** Of any two initiations of a sender between which lastSentHandshake was not put back, the later one carries
      the later stamp if the earlier one was stamped promptly, whatever else was sent in between. */
  lemma SentIncrease(sender: Sender, i: nat, j: nat)
    requires sender.Valid() && i < j < |sender.sent| && sender.sent[i].Prompt() && sender.sent[i].epoch == sender.sent[j].epoch
    ensures After(Stamp(sender.sent[j].at), Stamp(sender.sent[i].at))
  {
    assert sender.sent[i].InOrder() && sender.sent[j].InOrder();
    StampsIncrease(sender.sent[i].at, sender.sent[j].at);
  }

  /** Two initiations the sender lets through, the earlier one stamped at most `d` after it set lastSentHandshake. */
  ghost predicate Successive(s1: Sent, s2: Sent, d: nat) {
    s1.InOrder() && s2.InOrder() && s1.at <= s1.stored + d && s1.stored + REKEY_TIMEOUT <= s2.checked
  }

  /** What delay between setting lastSentHandshake and stamping the message keeps the stamps of successive
      initiations increasing: exactly the timeout less one whitening interval. */
  lemma DelayBound(d: nat)
    ensures (forall s1, s2 :: Successive(s1, s2, d) ==> After(Stamp(s2.at), Stamp(s1.at))) <==> d <= REKEY_TIMEOUT - WHITENER
  {
    hide Stamp, After;
    if d <= REKEY_TIMEOUT - WHITENER {
      forall s1, s2 | Successive(s1, s2, d) ensures After(Stamp(s2.at), Stamp(s1.at)) {
        StampsIncrease(s1.at, s2.at);
      }
    } else {
      var s1 := Sent(LATE.0, LATE.0, LATE.1, 0);
      var s2 := Sent(LATE.2, LATE.2, LATE.2, 0);
      LateStamp();
      assert Successive(s1, s2, d) && !After(Stamp(s2.at), Stamp(s1.at));
    }
  }

  /** lastSentHandshake is set, the message is stamped one nanosecond too late, and the next one goes out as
      soon as it may. */
  const LATE := (WHITENER - 1, REKEY_TIMEOUT, REKEY_TIMEOUT + WHITENER - 1)

  lemma LateStamp()
    ensures LATE.1 == LATE.0 + REKEY_TIMEOUT - WHITENER + 1 && LATE.2 == LATE.0 + REKEY_TIMEOUT
    ensures InRange(LATE.1) && InRange(LATE.2) && Stamp(LATE.2) == Stamp(LATE.1) && !After(Stamp(LATE.2), Stamp(LATE.1))
  {
    hide PutUint;
    assert REKEY_TIMEOUT / SECOND == (REKEY_TIMEOUT + WHITENER - 1) / SECOND == 10;
    assert REKEY_TIMEOUT % SECOND == 0 && (REKEY_TIMEOUT + WHITENER - 1) % SECOND == WHITENER - 1;
    assert Whitened(WHITENER - 1) == Whitened(0);
    StampOrder(LATE.1, LATE.2);
  }

  /** A sender that is one nanosecond too slow sends the same stamp twice. */
  method LateInitiation() returns (sender: Sender, first: Option<seq<Byte>>, second: Option<seq<Byte>>)
    ensures first.Some? && second == first && sender.Valid()
    ensures |sender.sent| == 2 && sender.sent[0].at == sender.sent[0].stored + REKEY_TIMEOUT - WHITENER + 1
    ensures sender.sent[1].checked == sender.sent[0].stored + REKEY_TIMEOUT
  {
    LateStamp();
    sender := new Sender(-REKEY_TIMEOUT);
    first := sender.SendHandshakeInitiation(LATE.0, LATE.0, LATE.1);
    second := sender.SendHandshakeInitiation(LATE.2, LATE.2, LATE.2);
  }

  /** Once lastSentHandshake has been put back, even a prompt sender may send the same stamp twice. */
  method AtOnce() returns (sender: Sender, first: Option<seq<Byte>>, second: Option<seq<Byte>>)
    ensures first.Some? && second == first && sender.Valid()
    ensures |sender.sent| == 2 && sender.sent[0].Prompt() && sender.sent[1].epoch == sender.sent[0].epoch + 1
  {
    SameStamp();
    sender := new Sender(-REKEY_TIMEOUT);
    first := sender.SendHandshakeInitiation(0, 0, 0);
    sender.AllowAtOnce(1);
    second := sender.SendHandshakeInitiation(1, 1, 1);
  }

  // ---------- the receiver ----------

  type Timestamp = b: seq<Byte> | |b| == 12 witness [0, 0, 0, 0, 0, 0, 0, 0, 0, 0, 0, 0]

  /** A peer's lastTimestamp, and the initiations that have passed the replay test under the read lock and
      have not yet been recorded under the write lock, by consumer. */
  datatype Receiver = Receiver(last: Timestamp, passed: map<nat, Timestamp>)

  datatype Step =
    | Test(c: nat, ts: Timestamp)  // the replay test
    | Record(c: nat)               // the update of the handshake
    | Zero                         // Handshake.Clear, which leaves lastTimestamp alone

  predicate Enabled(r: Receiver, step: Step) {
    match step
    case Test(c, _) => c !in r.passed
    case Record(c) => c in r.passed
    case Zero => true
  }

  function Apply(r: Receiver, step: Step): Receiver
    requires Enabled(r, step)
  {
    match step
    case Test(c, ts) => if After(ts, r.last) then r.(passed := r.passed[c := ts]) else r
    case Record(c) => Receiver(if After(r.passed[c], r.last) then r.passed[c] else r.last, r.passed - {c})
    case Zero => r
  }

  ghost predicate Possible(r: Receiver, run: seq<Step>)
    decreases |run|
  {
    run == [] || (Enabled(r, run[0]) && Possible(Apply(r, run[0]), run[1..]))
  }

  ghost function Final(r: Receiver, run: seq<Step>): Receiver
    requires Possible(r, run)
    decreases |run|
  {
    if run == [] then r else Final(Apply(r, run[0]), run[1..])
  }

  lemma AfterIsValue(a: Timestamp, b: Timestamp)
    ensures After(a, b) <==> Value(a) > Value(b)
  {
    CompareIsNumeric(a, b);
  }

  lemma StepGrows(r: Receiver, step: Step)
    requires Enabled(r, step)
    ensures Value(Apply(r, step).last) >= Value(r.last)
  {
    if step.Record? {
      AfterIsValue(r.passed[step.c], r.last);
    }
  }

  lemma {:induction false} LastGrows(r: Receiver, run: seq<Step>)
    requires Possible(r, run)
    ensures Value(Final(r, run).last) >= Value(r.last)
    decreases |run|
  {
    hide Enabled, Apply, Value;
    if run != [] {
      StepGrows(r, run[0]);
      LastGrows(Apply(r, run[0]), run[1..]);
    }
  }

  /** lastTimestamp never goes back, over any interleaving of consumers and zeroing. */
  lemma NeverDecreases(r: Receiver, run: seq<Step>)
    requires Possible(r, run)
    ensures !After(r.last, Final(r, run).last)
  {
    LastGrows(r, run);
    AfterIsValue(r.last, Final(r, run).last);
  }

  /** Once an initiation has been recorded, whatever happens since, no initiation that is not after it
      passes the test. */
  lemma RecordedStaysRejected(r: Receiver, c: nat, run: seq<Step>, ts: Timestamp)
    requires Enabled(r, Record(c)) && Possible(Apply(r, Record(c)), run) && !After(ts, r.passed[c])
    ensures var now := Final(Apply(r, Record(c)), run);
            !After(ts, now.last) && forall d :: d !in now.passed ==> d !in Apply(now, Test(d, ts)).passed
  {
    var r' := Apply(r, Record(c));
    LastGrows(r', run);
    AfterIsValue(r.passed[c], r.last);
    AfterIsValue(ts, r.passed[c]);
    AfterIsValue(ts, Final(r', run).last);
  }

  /** An initiation with a stamp after everything tested so far passes. */
  lemma {:induction false} LaterPasses(r: Receiver, run: seq<Step>, ts: Timestamp)
    requires Possible(r, run) && After(ts, r.last)
    requires forall c :: c in r.passed ==> After(ts, r.passed[c])
    requires forall i :: 0 <= i < |run| && run[i].Test? ==> After(ts, run[i].ts)
    ensures After(ts, Final(r, run).last)
    decreases |run|
  {
    if run != [] {
      assert run[0].Test? ==> After(ts, run[0].ts);
      LaterPasses(Apply(r, run[0]), run[1..], ts);
    }
  }

  /** The next initiation of a sender passes the test of a receiver that has seen only earlier ones, in whatever
      way it interleaves them, if each was stamped promptly and since lastSentHandshake was last put back, or else
      a whitening interval before. */
  lemma NextInitiationPasses(sender: Sender, j: nat, r: Receiver, run: seq<Step>)
    requires sender.Valid() && j < |sender.sent| && r.passed == map[] && Possible(r, run)
    requires forall k :: 0 <= k < j ==>
                           var s := sender.sent[k];
                           (s.Prompt() && s.epoch == sender.sent[j].epoch) || s.at + WHITENER <= sender.sent[j].at
    requires After(Stamp(sender.sent[j].at), r.last)
    requires forall i :: 0 <= i < |run| && run[i].Test? ==> exists k :: 0 <= k < j && run[i].ts == Stamp(sender.sent[k].at)
    ensures var now := Final(r, run);
            && After(Stamp(sender.sent[j].at), now.last)
            && forall d :: d !in now.passed ==> d in Apply(now, Test(d, Stamp(sender.sent[j].at))).passed
  {
    hide Stamp, After, Possible, Final;
    forall i | 0 <= i < |run| && run[i].Test? ensures After(Stamp(sender.sent[j].at), run[i].ts) {
      var k :| 0 <= k < j && run[i].ts == Stamp(sender.sent[k].at);
      if sender.sent[k].Prompt() && sender.sent[k].epoch == sender.sent[j].epoch {
        SentIncrease(sender, k, j);
      } else {
        assert sender.sent[k].InOrder() && sender.sent[j].InOrder();
        StampsIncrease(sender.sent[k].at, sender.sent[j].at);
      }
    }
    LaterPasses(r, run, Stamp(sender.sent[j].at));
  }
}
