/** The rate limiter under concurrent calls for one address: looking an entry up, making one, inserting it and
    using it are separate regions (wireguard/ratelimiter/ratelimiter.go:80-137). */
module RatelimiterRace {
  import opened Options
  import R = Ratelimiter

  const COST := R.PACKET_COST
  const MAX := R.MAX_TOKENS

  /** What a call has done so far: found no entry, made one that is not in the table yet, or found entry `e`. */
  datatype Caller = Idle | Missing | Made(e: nat) | Found(e: nat)

  /** `entries` are all entries ever made for the address; `table` is the one in the table. */
  datatype State = State(table: Option<nat>, entries: seq<R.Entry>, callers: seq<Caller>, clock: int)

  /** A packet is let through when its call reads the clock, in Make or in Use; Collect is a collection that removes
      the entry. */
  datatype Step = Lookup(g: nat) | Make(g: nat, now: int) | Insert(g: nat) | Use(g: nat, now: int) | Collect(now: int)

  predicate EntryOk(s: State, e: nat) {
    e < |s.entries| && 0 <= s.entries[e].tokens <= MAX && s.entries[e].lastTime <= s.clock
  }

  predicate CallerOk(s: State, c: Caller) {
    (c.Made? || c.Found?) ==> c.e < |s.entries|
  }

  ghost predicate Inv(s: State) {
    && (forall e: nat {:trigger EntryOk(s, e)} :: e < |s.entries| ==> EntryOk(s, e))
    && (forall g {:trigger s.callers[g]} :: 0 <= g < |s.callers| ==> CallerOk(s, s.callers[g]))
    && (s.table.Some? ==> s.table.value < |s.entries|)
  }

  predicate Enabled(s: State, step: Step) {
    match step
    case Lookup(g) => g < |s.callers| && s.callers[g] == Idle
    case Make(g, now) => g < |s.callers| && s.callers[g] == Missing && s.clock <= now
    case Insert(g) => g < |s.callers| && s.callers[g].Made?
    case Use(g, now) => g < |s.callers| && s.callers[g].Found? && s.callers[g].e < |s.entries| && s.clock <= now
    case Collect(now) =>
      && s.table.Some? && s.table.value < |s.entries| && s.clock <= now
      && now - s.entries[s.table.value].lastTime > R.GARBAGE_COLLECT_TIME
  }

  function Apply(s: State, step: Step): State
    requires Enabled(s, step)
  {
    match step
    case Lookup(g) => s.(callers := s.callers[g := if s.table.None? then Missing else Found(s.table.value)])
    case Make(g, now) =>
      s.(entries := s.entries + [R.Entry(now, MAX - COST)], callers := s.callers[g := Made(|s.entries|)], clock := now)
    case Insert(g) => s.(table := Some(s.callers[g].e), callers := s.callers[g := Idle])
    case Use(g, now) =>
      var e := s.callers[g].e;
      s.(entries := s.entries[e := R.Refill(s.entries[e], now).0], callers := s.callers[g := Idle], clock := now)
    case Collect(now) => s.(table := None, clock := now)
  }

  /** Whether the step lets a packet through. */
  predicate Grants(s: State, step: Step)
    requires Enabled(s, step)
  {
    step.Make? || (step.Use? && R.Refill(s.entries[s.callers[step.g].e], step.now).1)
  }

  lemma StepInv(s: State, step: Step)
    requires Inv(s) && Enabled(s, step)
    ensures Inv(Apply(s, step)) && |Apply(s, step).callers| == |s.callers| && s.clock <= Apply(s, step).clock
  {
    var t := Apply(s, step);
    forall e: nat | e < |t.entries| ensures EntryOk(t, e) {
      assert e < |s.entries| ==> EntryOk(s, e);
    }
    forall g {:trigger t.callers[g]} | 0 <= g < |t.callers| ensures CallerOk(t, t.callers[g]) {
      assert CallerOk(s, s.callers[g]);
    }
  }

  // ---------- runs ----------

  ghost predicate Possible(s: State, run: seq<Step>)
    decreases |run|
  {
    run == [] || (Enabled(s, run[0]) && Possible(Apply(s, run[0]), run[1..]))
  }

  ghost function After(s: State, run: seq<Step>): State
    requires Possible(s, run)
    decreases |run|
  {
    if run == [] then s else After(Apply(s, run[0]), run[1..])
  }

  /** How many packets the run lets through. */
  ghost function Granted(s: State, run: seq<Step>): nat
    requires Possible(s, run)
    decreases |run|
  {
    if run == [] then 0 else (if Grants(s, run[0]) then 1 else 0) + Granted(Apply(s, run[0]), run[1..])
  }

  function Collections(run: seq<Step>): nat {
    if run == [] then 0 else (if run[0].Collect? then 1 else 0) + Collections(run[1..])
  }

  lemma Before(s: State, step: Step, rest: seq<Step>) returns (run: seq<Step>)
    requires Enabled(s, step) && Possible(Apply(s, step), rest)
    ensures run == [step] + rest && Possible(s, run) && After(s, run) == After(Apply(s, step), rest)
    ensures Granted(s, run) == (if Grants(s, step) then 1 else 0) + Granted(Apply(s, step), rest)
    ensures Collections(run) == (if step.Collect? then 1 else 0) + Collections(rest)
  {
    hide Enabled, Apply, Grants;
    run := [step] + rest;
    assert run[1..] == rest;
  }

  lemma Nothing(s: State)
    ensures Possible(s, []) && After(s, []) == s && Granted(s, []) == 0 && Collections([]) == 0
  {
  }

  lemma Unfold(s: State, run: seq<Step>)
    requires Possible(s, run) && run != []
    ensures Enabled(s, run[0]) && Possible(Apply(s, run[0]), run[1..]) && After(s, run) == After(Apply(s, run[0]), run[1..])
    ensures Granted(s, run) == (if Grants(s, run[0]) then 1 else 0) + Granted(Apply(s, run[0]), run[1..])
    ensures Collections(run) == (if run[0].Collect? then 1 else 0) + Collections(run[1..])
  {
    hide Enabled, Apply, Grants;
  }

  lemma {:induction false} Join(s: State, a: seq<Step>, b: seq<Step>)
    requires Possible(s, a) && Possible(After(s, a), b)
    ensures Possible(s, a + b) && After(s, a + b) == After(After(s, a), b)
    ensures Granted(s, a + b) == Granted(s, a) + Granted(After(s, a), b) && Collections(a + b) == Collections(a) + Collections(b)
    decreases |a|
  {
    hide Enabled, Apply, Grants, Possible, After, Granted, Collections;
    if a == [] {
      Nothing(s);
      assert a + b == b;
    } else {
      Unfold(s, a);
      Join(Apply(s, a[0]), a[1..], b);
      var run := Before(s, a[0], a[1..] + b);
      assert run == a + b;
    }
  }

  // ---------- one call, not interrupted ----------

  /** The table `t` of the limiter has for `ip` what the state has. */
  ghost predicate Agrees(s: State, t: R.Table, ip: R.Addr) {
    if s.table.None? then ip !in t else s.table.value < |s.entries| && ip in t && t[ip] == s.entries[s.table.value]
  }

  /** A call whose regions follow each other is one step of the limiter. */
  lemma CallIsStep(s: State, g: nat, now: int, t: R.Table, ip: R.Addr) returns (run: seq<Step>)
    requires g < |s.callers| && s.callers[g] == Idle && s.clock <= now && Agrees(s, t, ip)
    ensures Possible(s, run) && Granted(s, run) == (if R.Step(t, ip, now).1 then 1 else 0)
    ensures After(s, run).callers == s.callers && After(s, run).clock == now && Agrees(After(s, run), R.Step(t, ip, now).0, ip)
  {
    var looked := Apply(s, Lookup(g));
    if s.table.None? {
      var made := Apply(looked, Make(g, now));
      assert Apply(made, Insert(g)).callers == s.callers;
      Nothing(Apply(made, Insert(g)));
      run := Before(made, Insert(g), []);
      run := Before(looked, Make(g, now), run);
    } else {
      assert Apply(looked, Use(g, now)).callers == s.callers;
      Nothing(Apply(looked, Use(g, now)));
      run := Before(looked, Use(g, now), []);
    }
    run := Before(s, Lookup(g), run);
  }

  // ---------- what an entry is worth ----------

  /** The tokens of an entry at `now`. */
  function Worth(e: R.Entry, now: int): int {
    var sum := e.tokens + (now - e.lastTime);
    if sum > MAX then MAX else sum
  }

  lemma UsePays(e: R.Entry, before: int, now: int)
    requires e.lastTime <= before <= now && 0 <= e.tokens <= MAX
    ensures var (e', ok) := R.Refill(e, now);
            Worth(e', now) + R.Cost(ok) <= Worth(e, before) + (now - before)
    ensures 0 <= Worth(e, before) <= MAX && Worth(e, now) <= Worth(e, before) + (now - before)
  {
  }

  // ---------- the bound for any number of callers ----------

  /** What one of `n` callers may still cost when its own entry replaces another: a full bucket, and a packet for
      each caller that holds the replaced one. */
  function Bucket(n: nat): nat {
    MAX + n * COST
  }

  /** What a caller may still cost beyond the entry in the table. */
  function Weight(table: Option<nat>, c: Caller, n: nat): nat {
    match c
    case Idle => if table.None? then Bucket(n) + COST else 0
    case Missing => Bucket(n) + COST
    case Made(_) => Bucket(n)
    case Found(e) => if table.None? then Bucket(n) + 2 * COST else if table == Some(e) then 0 else COST
  }

  function Sum(table: Option<nat>, callers: seq<Caller>, n: nat): nat {
    if callers == [] then 0 else Weight(table, callers[0], n) + Sum(table, callers[1..], n)
  }

  /** What `n` callers may cost at once. */
  function Burst(n: nat): nat {
    n * (Bucket(n) + 2 * COST)
  }

  ghost function Potential(s: State): int
    requires Inv(s)
  {
    (if s.table.Some? then Worth(s.entries[s.table.value], s.clock) else 0) + Sum(s.table, s.callers, |s.callers|)
  }

  lemma {:induction false} SumUpdate(table: Option<nat>, callers: seq<Caller>, n: nat, g: nat, c: Caller)
    requires g < |callers|
    ensures Sum(table, callers[g := c], n) == Sum(table, callers, n) - Weight(table, callers[g], n) + Weight(table, c, n)
  {
    hide Weight;
    if g == 0 {
      assert callers[0 := c][1..] == callers[1..];
    } else {
      SumUpdate(table, callers[1..], n, g - 1, c);
      assert callers[g := c][1..] == callers[1..][g - 1 := c];
    }
  }

  lemma SumStep(table: Option<nat>, callers: seq<Caller>, n: nat)
    ensures Sum(table, callers, n) == if callers == [] then 0 else Weight(table, callers[0], n) + Sum(table, callers[1..], n)
  {
    hide Weight;
  }

  lemma WeightReplaced(table: Option<nat>, e: nat, c: Caller, n: nat)
    ensures Weight(Some(e), c, n) <= Weight(table, c, n) + COST
  {
    hide Bucket;
  }

  /** Another entry in the table costs each caller at most one packet more. */
  lemma {:induction false} SumReplaced(table: Option<nat>, e: nat, callers: seq<Caller>, n: nat)
    ensures Sum(Some(e), callers, n) <= Sum(table, callers, n) + |callers| * COST
  {
    hide Sum, Weight;
    SumStep(table, callers, n);
    SumStep(Some(e), callers, n);
    if callers != [] {
      SumReplaced(table, e, callers[1..], n);
      WeightReplaced(table, e, callers[0], n);
    }
  }

  lemma {:induction false} SumBound(table: Option<nat>, callers: seq<Caller>, n: nat)
    ensures Sum(table, callers, n) <= |callers| * (Bucket(n) + 2 * COST)
  {
    hide Bucket;
    if callers != [] {
      SumBound(table, callers[1..], n);
      var each := Bucket(n) + 2 * COST;
      assert |callers| * each == each + |callers[1..]| * each;
    }
  }

  lemma PotentialBound(s: State)
    requires Inv(s)
    ensures Potential(s) <= MAX + Burst(|s.callers|)
  {
    hide Sum, Bucket;
    SumBound(s.table, s.callers, |s.callers|);
  }

  /** What one step lets through is paid for by the potential and the time that passes; a collection makes up to
      a burst possible again. */
  lemma StepPays(s: State, step: Step)
    requires Inv(s) && Enabled(s, step)
    ensures Inv(Apply(s, step))
    ensures var t := Apply(s, step);
            Potential(t) + R.Cost(Grants(s, step)) <= Potential(s) + (t.clock - s.clock) + if step.Collect? then Burst(|s.callers|) else 0
  {
    hide Sum, Bucket;
    StepInv(s, step);
    var n := |s.callers|;
    var t := Apply(s, step);
    if s.table.Some? {
      assert EntryOk(s, s.table.value);
      UsePays(s.entries[s.table.value], s.clock, t.clock);
    }
    match step
    case Lookup(g) => SumUpdate(s.table, s.callers, n, g, t.callers[g]);
    case Make(g, now) => SumUpdate(s.table, s.callers, n, g, t.callers[g]);
    case Insert(g) => InsertPays(s, g);
    case Use(g, now) => SumUpdate(s.table, s.callers, n, g, Idle);
    case Collect(now) => SumBound(None, s.callers, n);
  }

  lemma InsertPays(s: State, g: nat)
    requires Inv(s) && Enabled(s, Insert(g)) && Inv(Apply(s, Insert(g)))
    ensures Potential(Apply(s, Insert(g))) <= Potential(s)
  {
    hide Sum;
    var n, e := |s.callers|, s.callers[g].e;
    assert CallerOk(s, s.callers[g]);
    assert EntryOk(s, e);
    assert s.table.Some? ==> EntryOk(s, s.table.value);
    SumUpdate(Some(e), s.callers, n, g, Idle);
    SumReplaced(s.table, e, s.callers, n);
  }

  lemma {:induction false} RunPays(s: State, run: seq<Step>)
    requires Inv(s) && Possible(s, run)
    ensures Granted(s, run) * COST <= Potential(s) + (After(s, run).clock - s.clock) + Collections(run) * Burst(|s.callers|)
    decreases |run|
  {
    hide Enabled, Apply, Grants, Burst, Potential;
    if run == [] {
      PotentialNonneg(s);
    } else {
      var step := run[0];
      StepPays(s, step);
      StepInv(s, step);
      RunPays(Apply(s, step), run[1..]);
      Distribute(if step.Collect? then 1 else 0, Collections(run[1..]), Burst(|s.callers|));
      Distribute(if Grants(s, step) then 1 else 0, Granted(Apply(s, step), run[1..]), COST);
    }
  }

  lemma Distribute(a: nat, b: nat, x: nat)
    ensures (a + b) * x == a * x + b * x
  {
  }

  lemma PotentialNonneg(s: State)
    requires Inv(s)
    ensures Potential(s) >= 0
  {
    if s.table.Some? {
      assert EntryOk(s, s.table.value);
    }
  }

  /** From any state, with any interleaving of any number of callers and with collections in between, the packets
      let through cost no more than a full bucket, the time that passes, and one burst of the callers to begin with
      and one for each time the entry is collected. */
  lemma RaceBound(s: State, run: seq<Step>)
    requires Inv(s) && Possible(s, run)
    ensures Granted(s, run) * COST <= MAX + (After(s, run).clock - s.clock) + (1 + Collections(run)) * Burst(|s.callers|)
  {
    hide Burst, Potential, Granted, After;
    RunPays(s, run);
    PotentialBound(s);
    Distribute(1, Collections(run), Burst(|s.callers|));
  }

  // ---------- the bound of a limiter called by one at a time ----------

  /** Nothing in the table and `n` callers that have not begun. */
  function Init(n: nat, clock: int): State {
    State(None, [], seq(n, _ => Idle), clock)
  }

  lemma InitInv(n: nat, clock: int)
    ensures Inv(Init(n, clock))
  {
  }

  /** The tokens of an entry at `now`, were there no limit to them. */
  function Uncapped(e: R.Entry, now: int): int {
    e.tokens + (now - e.lastTime)
  }

  /** What a single caller may cost: its entry; or a full bucket while it has none, and one packet more while it
      holds an entry that has been collected. */
  ghost function Alone(s: State): int
    requires Inv(s) && |s.callers| <= 1
  {
    if s.table.Some? then Uncapped(s.entries[s.table.value], s.clock)
    else if s.callers != [] && s.callers[0].Made? then assert CallerOk(s, s.callers[0]); Uncapped(s.entries[s.callers[0].e], s.clock)
    else if s.callers != [] && s.callers[0].Found? then MAX + COST
    else MAX
  }

  /** A single caller never holds an entry while another one is in the table. */
  ghost predicate InHand(s: State) {
    && |s.callers| <= 1
    && (s.callers != [] && s.callers[0].Found? ==> s.table == Some(s.callers[0].e) || s.table.None?)
    && (s.callers != [] && (s.callers[0].Made? || s.callers[0].Missing?) ==> s.table.None?)
  }

  lemma RefillPays(e: R.Entry, now: int)
    requires e.lastTime <= now && 0 <= e.tokens <= MAX
    ensures var (e', ok) := R.Refill(e, now); Uncapped(e', now) + R.Cost(ok) <= Uncapped(e, now)
  {
  }

  /** The time an entry has been idle before it is collected pays for the next bucket and a packet. */
  lemma CollectPays(s: State, now: int)
    requires Inv(s) && InHand(s) && Enabled(s, Collect(now)) && Inv(Apply(s, Collect(now)))
    ensures InHand(Apply(s, Collect(now))) && Alone(Apply(s, Collect(now))) <= Alone(s) + (now - s.clock)
  {
    assert EntryOk(s, s.table.value);
  }

  lemma AlonePays(s: State, step: Step)
    requires Inv(s) && InHand(s) && Enabled(s, step)
    ensures Inv(Apply(s, step)) && InHand(Apply(s, step))
    ensures var t := Apply(s, step); Alone(t) + R.Cost(Grants(s, step)) <= Alone(s) + (t.clock - s.clock)
  {
    StepInv(s, step);
    if step.Collect? {
      CollectPays(s, step.now);
    } else {
      assert CallerOk(s, s.callers[0]);
      if step.Use? {
        var e := s.callers[step.g].e;
        assert EntryOk(s, e);
        RefillPays(s.entries[e], step.now);
      }
    }
  }

  lemma {:induction false} AloneBound(s: State, run: seq<Step>)
    requires Inv(s) && InHand(s) && Possible(s, run)
    ensures Granted(s, run) * COST <= Alone(s) + (After(s, run).clock - s.clock)
    decreases |run|
  {
    hide Enabled, Apply, Grants, InHand, Inv, Alone, Possible, After, Granted, Collections;
    if run == [] {
      Nothing(s);
      AloneNonneg(s);
    } else {
      Unfold(s, run);
      AlonePays(s, run[0]);
      AloneBound(Apply(s, run[0]), run[1..]);
    }
  }

  lemma AloneNonneg(s: State)
    requires Inv(s) && InHand(s)
    ensures Alone(s) >= 0
  {
    if s.table.Some? {
      assert EntryOk(s, s.table.value);
    } else if s.callers != [] && s.callers[0].Made? {
      assert CallerOk(s, s.callers[0]) && EntryOk(s, s.callers[0].e);
    }
  }

  // ---------- more callers get more ----------

  /** The first `k` of `n` callers are done and the others are not. */
  function Split(n: nat, k: nat, done: Caller, other: Caller): (c: seq<Caller>)
    ensures |c| == n && forall i :: 0 <= i < n ==> c[i] == if i < k then done else other
  {
    seq(n, i => if i < k then done else other)
  }

  /** All callers have found no entry, and the first `k` have each inserted one and used it up. */
  function Used(n: nat, k: nat, t: int): State {
    State(if k == 0 then None else Some(k - 1), seq(k, _ => R.Entry(t, COST)), Split(n, k, Idle, Missing), t)
  }

  /** Everyone looks the address up before anyone makes an entry. */
  lemma {:induction false} AllLookUp(n: nat, k: nat, t: int) returns (run: seq<Step>)
    requires k <= n
    ensures Possible(Init(n, t), run) && Granted(Init(n, t), run) == 0 && Collections(run) == 0
    ensures After(Init(n, t), run) == State(None, [], Split(n, k, Missing, Idle), t)
  {
    if k == 0 {
      run := [];
      assert Init(n, t).callers == Split(n, 0, Missing, Idle);
    } else {
      var s := State(None, [], Split(n, k - 1, Missing, Idle), t);
      run := AllLookUp(n, k - 1, t);
      assert Apply(s, Lookup(k - 1)).callers == Split(n, k, Missing, Idle);
      hide Enabled, Apply, Grants;
      var last := Before(s, Lookup(k - 1), []);
      Join(Init(n, t), run, last);
      run := run + last;
    }
  }

  /** Looking the entry up and using it. */
  lemma UseOnce(s: State, g: nat, e: nat) returns (run: seq<Step>)
    requires g < |s.callers| && s.callers[g] == Idle && s.table == Some(e) && e < |s.entries|
    requires s.entries[e].lastTime == s.clock && COST < s.entries[e].tokens <= MAX
    ensures Possible(s, run) && Granted(s, run) == 1 && Collections(run) == 0
    ensures After(s, run) == s.(entries := s.entries[e := R.Entry(s.clock, s.entries[e].tokens - COST)])
  {
    var found := s.(callers := s.callers[g := Found(e)]);
    var used := s.(entries := s.entries[e := R.Entry(s.clock, s.entries[e].tokens - COST)]);
    assert Apply(s, Lookup(g)) == found;
    assert found.callers[g := Idle] == s.callers;
    assert Apply(found, Use(g, s.clock)) == used && Grants(found, Use(g, s.clock));
    hide Enabled, Apply;
    run := Before(found, Use(g, s.clock), []);
    run := Before(s, Lookup(g), run);
  }

  /** Caller `k` has inserted its entry, which has `packets` packets left. */
  function Fresh(n: nat, k: nat, t: int, packets: nat): State {
    State(Some(k), seq(k, _ => R.Entry(t, COST)) + [R.Entry(t, packets * COST)], Split(n, k + 1, Idle, Missing), t)
  }

  lemma MakeAndInsert(n: nat, k: nat, t: int) returns (run: seq<Step>)
    requires k < n
    ensures Possible(Used(n, k, t), run) && Granted(Used(n, k, t), run) == 1 && Collections(run) == 0
    ensures After(Used(n, k, t), run) == Fresh(n, k, t, 4)
  {
    var s := Used(n, k, t);
    var made := s.(entries := s.entries + [R.Entry(t, MAX - COST)], callers := s.callers[k := Made(k)]);
    assert Apply(s, Make(k, t)) == made && Grants(s, Make(k, t));
    assert made.callers[k := Idle] == Fresh(n, k, t, 4).callers;
    assert Apply(made, Insert(k)) == Fresh(n, k, t, 4);
    Nothing(Fresh(n, k, t, 4));
    hide Enabled, Apply, Possible, After, Granted, Collections, Used, Fresh;
    run := Before(made, Insert(k), []);
    run := Before(s, Make(k, t), run);
  }

  lemma UseFresh(n: nat, k: nat, t: int, packets: nat) returns (run: seq<Step>)
    requires k < n && 1 < packets <= 4
    ensures Possible(Fresh(n, k, t, packets), run) && Granted(Fresh(n, k, t, packets), run) == 1 && Collections(run) == 0
    ensures After(Fresh(n, k, t, packets), run) == Fresh(n, k, t, packets - 1)
  {
    hide Possible, After, Granted, Collections;
    var s := Fresh(n, k, t, packets);
    run := UseOnce(s, k, k);
    assert s.entries[k := R.Entry(t, (packets - 1) * COST)] == Fresh(n, k, t, packets - 1).entries;
  }

  lemma FreshIsUsed(n: nat, k: nat, t: int)
    ensures Fresh(n, k, t, 1) == Used(n, k + 1, t)
  {
    assert Fresh(n, k, t, 1).entries == Used(n, k + 1, t).entries;
  }

  lemma {:induction false} UseUp(n: nat, k: nat, t: int, packets: nat) returns (run: seq<Step>)
    requires k < n && 1 <= packets <= 4
    ensures Possible(Fresh(n, k, t, packets), run) && Granted(Fresh(n, k, t, packets), run) == packets - 1 && Collections(run) == 0
    ensures After(Fresh(n, k, t, packets), run) == Fresh(n, k, t, 1)
  {
    hide Possible, After, Granted, Collections, Fresh;
    if packets == 1 {
      run := [];
      Nothing(Fresh(n, k, t, 1));
    } else {
      run := UseFresh(n, k, t, packets);
      var rest := UseUp(n, k, t, packets - 1);
      Join(Fresh(n, k, t, packets), run, rest);
      run := run + rest;
    }
  }

  /** A caller that found no entry makes one, inserts it and lets four packets through. */
  lemma OneRound(n: nat, k: nat, t: int) returns (run: seq<Step>)
    requires k < n
    ensures Possible(Used(n, k, t), run) && Granted(Used(n, k, t), run) == 4 && Collections(run) == 0
    ensures After(Used(n, k, t), run) == Used(n, k + 1, t)
  {
    hide Possible, After, Granted, Collections, Used, Fresh;
    FreshIsUsed(n, k, t);
    run := MakeAndInsert(n, k, t);
    var rest := UseUp(n, k, t, 4);
    Join(Used(n, k, t), run, rest);
    run := run + rest;
  }

  lemma {:induction false} Rounds(n: nat, k: nat, t: int) returns (run: seq<Step>)
    requires k <= n
    ensures Possible(Used(n, 0, t), run) && Granted(Used(n, 0, t), run) == 4 * k && Collections(run) == 0
    ensures After(Used(n, 0, t), run) == Used(n, k, t)
  {
    hide Possible, After, Granted, Collections, Used;
    if k == 0 {
      run := [];
      Nothing(Used(n, 0, t));
    } else {
      run := Rounds(n, k - 1, t);
      var last := OneRound(n, k - 1, t);
      Join(Used(n, 0, t), run, last);
      run := run + last;
    }
  }

  /** `n` callers get four packets each at one moment, where one after the other they would get four in all. */
  lemma FourEach(n: nat, t: int) returns (run: seq<Step>)
    ensures Possible(Init(n, t), run) && Granted(Init(n, t), run) == 4 * n && Collections(run) == 0 && After(Init(n, t), run).clock == t
  {
    var a := AllLookUp(n, n, t);
    var b := Rounds(n, n, t);
    assert After(Init(n, t), a) == Used(n, 0, t) by {
      assert Split(n, n, Missing, Idle) == Split(n, 0, Idle, Missing);
    }
    hide Enabled, Apply, Grants;
    Join(Init(n, t), a, b);
    run := a + b;
  }

  /** The bound that holds for one call at a time: a full bucket and the time. */
  ghost predicate WithinBucket(n: nat, t: int, run: seq<Step>)
    requires Possible(Init(n, t), run)
  {
    Granted(Init(n, t), run) * COST <= MAX + (After(Init(n, t), run).clock - t)
  }

  /** That bound holds in every run of `n` concurrent callers and the collector if and only if there is no more
      than one caller. */
  lemma OneCallerOnly(n: nat, t: int)
    ensures (forall run :: Possible(Init(n, t), run) ==> WithinBucket(n, t, run)) <==> n <= 1
  {
    hide Enabled, Apply, Grants, Granted, After;
    if n <= 1 {
      InitInv(n, t);
      forall run | Possible(Init(n, t), run) ensures WithinBucket(n, t, run) {
        AloneBound(Init(n, t), run);
      }
    } else {
      var run := FourEach(n, t);
      assert !WithinBucket(n, t, run);
    }
  }
}
