/** The token bucket of the handshake rate limiter, whose idle entries are collected
    (wireguard/ratelimiter/ratelimiter.go:14-137). Times and tokens are in nanoseconds. */
module Ratelimiter {
  const PACKET_COST := 1_000_000_000 / 20
  const MAX_TOKENS := PACKET_COST * 5
  const GARBAGE_COLLECT_TIME := 1_000_000_000

  type Addr = nat

  datatype Entry = Entry(lastTime: int, tokens: int)

  type Table = map<Addr, Entry>

  // ---------- a limiter that never forgets ----------

  /** The entry after a packet at time `now`, and whether the packet is allowed. */
  function Refill(e: Entry, now: int): (Entry, bool) {
    var sum := e.tokens + (now - e.lastTime);
    var tokens := if sum > MAX_TOKENS then MAX_TOKENS else sum;
    if tokens > PACKET_COST then (Entry(now, tokens - PACKET_COST), true) else (Entry(now, tokens), false)
  }

  function Step(t: Table, ip: Addr, now: int): (Table, bool) {
    if ip in t then
      var (e, ok) := Refill(t[ip], now);
      (t[ip := e], ok)
    else (t[ip := Entry(now, MAX_TOKENS - PACKET_COST)], true)
  }

  ghost predicate TableOk(t: Table, now: int) {
    forall ip :: ip in t ==> 0 <= t[ip].tokens <= MAX_TOKENS && t[ip].lastTime <= now
  }

  lemma StepOk(t: Table, ip: Addr, now: int)
    requires TableOk(t, now)
    ensures TableOk(Step(t, ip, now).0, now)
  {
  }

  // ---------- how much is let through ----------

  /** A packet from `ip` at time `now`, or a collection between two readings of the clock. */
  datatype Op = Packet(ip: Addr, now: int) | Collect(from: int, until: int)

  /** The operations come in order of time, from `start` to `end`. */
  ghost predicate Timely(ops: seq<Op>, start: int, end: int)
    decreases |ops|
  {
    start <= end &&
    (ops == [] ||
     match ops[0]
     case Packet(_, now) => start <= now && Timely(ops[1..], now, end)
     case Collect(from, until) => start <= from <= until && Timely(ops[1..], until, end))
  }

  /** The answers of a limiter that never forgets; a collection has the answer false. */
  function Answers(t: Table, ops: seq<Op>): (oks: seq<bool>)
    ensures |oks| == |ops|
    decreases |ops|
  {
    if ops == [] then []
    else
      match ops[0]
      case Packet(ip, now) => var (t', ok) := Step(t, ip, now); [ok] + Answers(t', ops[1..])
      case Collect(_, _) => [false] + Answers(t, ops[1..])
  }

  /** How many of the packets from `ip` are allowed. */
  function Granted(ops: seq<Op>, oks: seq<bool>, ip: Addr): nat
    requires |oks| == |ops|
    decreases |ops|
  {
    if ops == [] then 0
    else Granted(ops[1..], oks[1..], ip) + if ops[0].Packet? && ops[0].ip == ip && oks[0] then 1 else 0
  }

  function Cost(allowed: bool): nat {
    if allowed then PACKET_COST else 0
  }

  /** What the allowed packets of `ip` cost. */
  function Spent(t: Table, ops: seq<Op>, ip: Addr): nat {
    Granted(ops, Answers(t, ops), ip) * PACKET_COST
  }

  lemma SpentStep(t: Table, ops: seq<Op>, ip: Addr)
    requires ops != []
    ensures match ops[0]
            case Packet(from, now) =>
              var (t', ok) := Step(t, from, now);
              Spent(t, ops, ip) == Spent(t', ops[1..], ip) + Cost(from == ip && ok)
            case Collect(_, _) => Spent(t, ops, ip) == Spent(t, ops[1..], ip)
  {
    hide Step;
    var oks := Answers(t, ops);
    match ops[0]
    case Packet(from, now) => assert oks[1..] == Answers(Step(t, from, now).0, ops[1..]);
    case Collect(_, _) => assert oks[1..] == Answers(t, ops[1..]);
  }

  /** What a packet does to the entry of `ip`: its tokens pay for it. */
  lemma StepPays(t: Table, from: Addr, now: int, ip: Addr)
    requires TableOk(t, now)
    ensures var (t', ok) := Step(t, from, now);
            && TableOk(t', now)
            && (from != ip ==> (ip in t' <==> ip in t) && (ip in t ==> t'[ip] == t[ip]))
            && (from == ip ==>
                  && ip in t' && t'[ip].lastTime == now && t'[ip].tokens + Cost(ok) <= MAX_TOKENS
                  && (ip in t ==> t'[ip].tokens + Cost(ok) <= t[ip].tokens + (now - t[ip].lastTime)))
  {
    StepOk(t, from, now);
  }

  lemma Later(t: Table, start: int, now: int)
    requires TableOk(t, start) && start <= now
    ensures TableOk(t, now)
  {
  }

  lemma TimelyEnd(ops: seq<Op>, start: int, end: int)
    requires Timely(ops, start, end) && ops != []
    ensures start <= end
    ensures match ops[0]
            case Packet(_, now) => start <= now <= end && Timely(ops[1..], now, end)
            case Collect(_, until) => start <= until <= end && Timely(ops[1..], until, end)
  {
  }

  /** An address with an entry is let through no more than its tokens and the time since allow. */
  lemma {:induction false} KnownBound(t: Table, ops: seq<Op>, ip: Addr, start: int, end: int)
    requires TableOk(t, start) && Timely(ops, start, end) && ip in t
    ensures Spent(t, ops, ip) <= t[ip].tokens + (end - t[ip].lastTime)
    decreases |ops|
  {
    if ops == [] {
      assert Spent(t, ops, ip) == 0;
    } else {
      hide Step, Timely, Spent, TableOk;
      TimelyEnd(ops, start, end);
      SpentStep(t, ops, ip);
      match ops[0]
      case Packet(from, now) =>
        Later(t, start, now);
        StepPays(t, from, now, ip);
        KnownBound(Step(t, from, now).0, ops[1..], ip, now, end);
      case Collect(_, until) =>
        Later(t, start, until);
        KnownBound(t, ops[1..], ip, until, end);
    }
  }

  /** From any state of the limiter, with collections in between, the packets of an address that are allowed
      from `start` to `end` cost no more than a full bucket and the time. */
  lemma {:induction false} WindowBound(t: Table, ops: seq<Op>, ip: Addr, start: int, end: int)
    requires TableOk(t, start) && Timely(ops, start, end)
    ensures Spent(t, ops, ip) <= MAX_TOKENS + (end - start)
    decreases |ops|
  {
    if ops == [] {
      assert Spent(t, ops, ip) == 0;
    } else {
      hide Step, Timely, Spent, TableOk;
      TimelyEnd(ops, start, end);
      SpentStep(t, ops, ip);
      match ops[0]
      case Packet(from, now) =>
        Later(t, start, now);
        StepPays(t, from, now, ip);
        if from == ip {
          KnownBound(Step(t, from, now).0, ops[1..], ip, now, end);
        } else {
          WindowBound(Step(t, from, now).0, ops[1..], ip, now, end);
        }
      case Collect(_, until) =>
        Later(t, start, until);
        WindowBound(t, ops[1..], ip, until, end);
    }
  }

  // ---------- garbage collection ----------

  /** An entry may be missing only if it has been idle for longer than the collection time. */
  ghost predicate Collected(t: Table, full: Table, now: int) {
    && t.Keys <= full.Keys
    && (forall ip :: ip in t ==> t[ip] == full[ip])
    && (forall ip :: ip in full && ip !in t ==> now - full[ip].lastTime > GARBAGE_COLLECT_TIME)
  }

  /** A packet is answered the same whether or not idle entries have been collected. */
  lemma CollectionUnobservable(t: Table, full: Table, before: int, ip: Addr, now: int)
    requires Collected(t, full, before) && TableOk(full, before) && before <= now
    ensures Step(t, ip, now).1 == Step(full, ip, now).1
    ensures Collected(Step(t, ip, now).0, Step(full, ip, now).0, now)
  {
  }

  class Limiter {
    var table: Table
    ghost var full: Table    // the table had nothing ever been collected
    ghost var clock: int     // the last reading of the clock

    ghost predicate Valid()
      reads this
    {
      Collected(table, full, clock) && TableOk(full, clock)
    }

    constructor (ghost now: int)
      ensures Valid() && table == map[] && full == map[] && clock == now
    {
      table, full, clock := map[], map[], now;
    }

    method Allow(ip: Addr, now: int) returns (ok: bool)
      requires Valid() && clock <= now
      modifies this
      ensures Valid() && clock == now && (full, ok) == Step(old(full), ip, now)
    {
      CollectionUnobservable(table, full, clock, ip, now);
      StepOk(full, ip, now);
      full, clock := Step(full, ip, now).0, now;
      if ip !in table {
        table := table[ip := Entry(now, MAX_TOKENS - PACKET_COST)];
        return true;
      }
      var entry := table[ip];
      entry := Entry(now, entry.tokens + (now - entry.lastTime));
      if entry.tokens > MAX_TOKENS {
        entry := entry.(tokens := MAX_TOKENS);
      }
      if entry.tokens > PACKET_COST {
        table := table[ip := entry.(tokens := entry.tokens - PACKET_COST)];
        return true;
      }
      table := table[ip := entry];
      return false;
    }

    /** The clock is read at each entry, some time between `from` and `until`; the entries come in any
        order. */
    method Cleanup(from: int, until: int) returns (empty: bool)
      requires Valid() && clock <= from <= until
      modifies this
      ensures Valid() && full == old(full) && clock == until && empty == (table == map[])
      ensures forall ip :: ip in table ==> ip in old(table) && table[ip] == old(table)[ip] && from - table[ip].lastTime <= GARBAGE_COLLECT_TIME
      ensures forall ip :: ip in old(table) && ip !in table ==> until - old(table)[ip].lastTime > GARBAGE_COLLECT_TIME
    {
      hide TableOk, Collected;
      CollectNone(table, full, clock, from);
      var keys, now := table.Keys, from;
      while keys != {}
        invariant keys <= table.Keys && full == old(full) && from <= now <= until
        invariant forall ip :: ip in table ==> ip in old(table) && table[ip] == old(table)[ip]
        invariant forall ip :: ip in table && ip !in keys ==> from - table[ip].lastTime <= GARBAGE_COLLECT_TIME
        invariant forall ip :: ip in old(table) && ip !in table ==> until - old(table)[ip].lastTime > GARBAGE_COLLECT_TIME
        invariant Collected(table, full, now) && TableOk(full, now)
        decreases |keys|
      {
        var key :| key in keys;
        var reading :| now <= reading <= until;
        CollectNone(table, full, now, reading);
        now := reading;
        if now - table[key].lastTime > GARBAGE_COLLECT_TIME {
          CollectOne(table, full, now, key);
          table := table - {key};
        }
        keys := keys - {key};
      }
      CollectNone(table, full, now, until);
      clock := until;
      empty := |table| == 0;
    }
  }

  lemma CollectNone(t: Table, full: Table, before: int, now: int)
    requires Collected(t, full, before) && TableOk(full, before) && before <= now
    ensures Collected(t, full, now) && TableOk(full, now)
  {
  }

  lemma CollectOne(t: Table, full: Table, now: int, key: Addr)
    requires Collected(t, full, now) && key in t && now - t[key].lastTime > GARBAGE_COLLECT_TIME
    ensures Collected(t - {key}, full, now)
  {
  }

  /** Whatever is collected and when, the answers are those of a limiter that never forgets; so, from any state
      and in any window, the packets an address is allowed cost no more than a full bucket and the length
      of the window; and a new limiter refuses exactly what finds its bucket used up. */
  method Serve(limiter: Limiter, ops: seq<Op>, ghost start: int, ghost end: int) returns (oks: seq<bool>)
    requires limiter.Valid() && limiter.clock <= start && Timely(ops, start, end)
    modifies limiter
    ensures limiter.Valid() && limiter.clock <= end && oks == Answers(old(limiter.full), ops)
    ensures forall ip :: Granted(ops, oks, ip) * PACKET_COST <= MAX_TOKENS + (end - start)
    ensures old(limiter.full) == map[] ==> forall k :: 0 <= k < |ops| && ops[k].Packet? ==> (!oks[k] <==> UsedUp(ops, oks, k))
    decreases |ops|
  {
    hide UsedUp, Answers, Timely;
    ghost var t := limiter.full;
    oks := ServeAll(limiter, ops, start, end);
    Later(t, old(limiter.clock), start);
    forall ip ensures Granted(ops, oks, ip) * PACKET_COST <= MAX_TOKENS + (end - start) {
      WindowBound(t, ops, ip, start, end);
    }
    if t == map[] {
      forall k | 0 <= k < |ops| && ops[k].Packet? ensures !oks[k] <==> UsedUp(ops, oks, k) {
        RefusedIff(ops, k);
      }
    }
  }

  method ServeAll(limiter: Limiter, ops: seq<Op>, ghost start: int, ghost end: int) returns (oks: seq<bool>)
    requires limiter.Valid() && limiter.clock <= start && Timely(ops, start, end)
    modifies limiter
    ensures limiter.Valid() && limiter.clock <= end && oks == Answers(old(limiter.full), ops)
    decreases |ops|
  {
    hide Collected, TableOk, Step;
    if ops == [] {
      return [];
    }
    match ops[0]
    case Packet(ip, now) =>
      var ok := limiter.Allow(ip, now);
      var rest := ServeAll(limiter, ops[1..], now, end);
      return [ok] + rest;
    case Collect(from, until) =>
      var empty := limiter.Cleanup(from, until);
      var rest := ServeAll(limiter, ops[1..], until, end);
      return [false] + rest;
  }

  // ---------- a window inside a longer run ----------

  function TableAfter(t: Table, ops: seq<Op>): Table
    decreases |ops|
  {
    if ops == [] then t
    else
      match ops[0]
      case Packet(ip, now) => TableAfter(Step(t, ip, now).0, ops[1..])
      case Collect(_, _) => TableAfter(t, ops[1..])
  }

  /** The table after the first operation. */
  function First(t: Table, ops: seq<Op>): Table
    requires ops != []
  {
    if ops[0].Packet? then Step(t, ops[0].ip, ops[0].now).0 else t
  }

  lemma TableUnfolds(t: Table, ops: seq<Op>, lo: nat)
    requires 0 < lo <= |ops|
    ensures TableAfter(t, ops[..lo]) == TableAfter(First(t, ops), ops[1..][..lo - 1])
  {
    hide Step;
    assert ops[..lo][1..] == ops[1..][..lo - 1];
  }

  lemma AnswersUnfold(t: Table, ops: seq<Op>, lo: nat)
    requires 0 < lo <= |ops|
    ensures Answers(t, ops)[lo..] == Answers(First(t, ops), ops[1..])[lo - 1..]
  {
    hide Step;
    assert Answers(t, ops)[1..] == Answers(First(t, ops), ops[1..]);
    assert Answers(t, ops)[lo..] == Answers(t, ops)[1..][lo - 1..];
  }

  lemma FirstOk(t: Table, ops: seq<Op>, start: int, end: int) returns (now: int)
    requires ops != [] && TableOk(t, start) && Timely(ops, start, end)
    ensures start <= now <= end && TableOk(First(t, ops), now) && Timely(ops[1..], now, end)
  {
    hide Step, TableOk, Timely;
    TimelyEnd(ops, start, end);
    match ops[0]
    case Packet(ip, at) =>
      now := at;
      Later(t, start, at);
      StepPays(t, ip, at, ip);
    case Collect(_, until) =>
      now := until;
      Later(t, start, until);
  }

  /** The answers from operation `lo` on are those of the limiter in the state it has then. */
  lemma {:induction false} AnswersFrom(t: Table, ops: seq<Op>, lo: nat)
    requires lo <= |ops|
    ensures Answers(t, ops)[lo..] == Answers(TableAfter(t, ops[..lo]), ops[lo..])
    decreases lo
  {
    if lo == 0 {
      assert ops[0..] == ops && Answers(t, ops)[0..] == Answers(t, ops);
    } else {
      hide First, Answers, TableAfter;
      AnswersFrom(First(t, ops), ops[1..], lo - 1);
      TableUnfolds(t, ops, lo);
      AnswersUnfold(t, ops, lo);
      assert ops[1..][lo - 1..] == ops[lo..];
    }
  }

  /** That state is in order at some time between. */
  lemma {:induction false} TableThen(t: Table, ops: seq<Op>, lo: nat, start: int, end: int) returns (now: int)
    requires lo <= |ops| && TableOk(t, start) && Timely(ops, start, end)
    ensures start <= now <= end && TableOk(TableAfter(t, ops[..lo]), now) && Timely(ops[lo..], now, end)
    decreases lo
  {
    if lo == 0 {
      now := start;
      assert ops[0..] == ops;
    } else {
      hide First, TableOk, TableAfter, Timely;
      var at := FirstOk(t, ops, start, end);
      now := TableThen(First(t, ops), ops[1..], lo - 1, at, end);
      TableUnfolds(t, ops, lo);
      assert ops[1..][lo - 1..] == ops[lo..];
    }
  }

  lemma {:induction false} Prefix(t: Table, ops: seq<Op>, n: nat, start: int, end: int)
    requires n <= |ops| && Timely(ops, start, end)
    ensures Answers(t, ops)[..n] == Answers(t, ops[..n]) && Timely(ops[..n], start, end)
    decreases n
  {
    if n > 0 {
      hide Step;
      TimelyEnd(ops, start, end);
      assert ops[..n][1..] == ops[1..][..n - 1];
      match ops[0]
      case Packet(ip, now) =>
        var (t', ok) := Step(t, ip, now);
        Prefix(t', ops[1..], n - 1, now, end);
        assert Answers(t, ops)[..n] == [ok] + Answers(t', ops[1..])[..n - 1];
      case Collect(_, until) =>
        Prefix(t, ops[1..], n - 1, until, end);
        assert Answers(t, ops)[..n] == [false] + Answers(t, ops[1..])[..n - 1];
    }
  }

  lemma LaterStart(ops: seq<Op>, a: int, b: int, c: int, d: int)
    requires Timely(ops, a, b) && Timely(ops, c, d) && ops != []
    ensures Timely(ops, if a > c then a else c, b)
  {
    TimelyEnd(ops, a, b);
    TimelyEnd(ops, c, d);
  }

  lemma EmptyWindow(ops: seq<Op>, a: int, b: int)
    requires Timely(ops, a, b)
    ensures a <= b
  {
  }

  /** In any run, the packets of an address allowed by the operations from `lo` to `hi`, which lie between the
      times `a` and `b`, cost no more than a full bucket and the length of that window. */
  lemma RunWindowBound(t: Table, ops: seq<Op>, lo: nat, hi: nat, ip: Addr, start: int, end: int, a: int, b: int)
    requires lo <= hi <= |ops| && TableOk(t, start) && Timely(ops, start, end) && Timely(ops[lo..hi], a, b)
    ensures Granted(ops[lo..hi], Answers(t, ops)[lo..hi], ip) * PACKET_COST <= MAX_TOKENS + (b - a)
  {
    hide TableOk, Step, Timely;
    AnswersFrom(t, ops, lo);
    var t' := TableAfter(t, ops[..lo]);
    var now := TableThen(t, ops, lo, start, end);
    Prefix(t', ops[lo..], hi - lo, now, end);
    assert ops[lo..][..hi - lo] == ops[lo..hi] && Answers(t, ops)[lo..][..hi - lo] == Answers(t, ops)[lo..hi];
    if lo < hi {
      var from := if a > now then a else now;
      LaterStart(ops[lo..hi], a, b, now, end);
      Later(t', now, from);
      WindowBound(t', ops[lo..hi], ip, from, b);
    } else {
      EmptyWindow(ops[lo..hi], a, b);
    }
  }

  // ---------- who is refused ----------

  /** Operation `i` is a packet of `ip`. */
  predicate IsFrom(ops: seq<Op>, ip: Addr, i: nat) {
    i < |ops| && ops[i].Packet? && ops[i].ip == ip
  }

  /** What the packets of `ip` that are allowed from operation `i` on, and before operation `k`, cost. */
  function SpentFrom(ops: seq<Op>, oks: seq<bool>, ip: Addr, i: nat, k: nat): nat
    requires i <= k <= |ops| == |oks|
  {
    Granted(ops[i..k], oks[i..k], ip) * PACKET_COST
  }

  /** Since its earlier packet `i`, the address has been allowed so much that a further packet before operation `k`, at time
      `now`, costs as much as a full bucket and the time since, or more. */
  predicate UsedUpSince(ops: seq<Op>, oks: seq<bool>, ip: Addr, i: nat, k: nat, now: int)
    requires i <= k <= |ops| == |oks|
  {
    IsFrom(ops, ip, i) && (1 + Granted(ops[i..k], oks[i..k], ip)) * PACKET_COST >= MAX_TOKENS + (now - ops[i].now)
  }

  /** Packet `k` finds the bucket of its address used up since one of its earlier packets. */
  ghost predicate UsedUp(ops: seq<Op>, oks: seq<bool>, k: nat)
    requires k < |ops| == |oks| && ops[k].Packet?
  {
    exists i: nat {:trigger UsedUpSince(ops, oks, ops[k].ip, i, k, ops[k].now)} :: i < k && UsedUpSince(ops, oks, ops[k].ip, i, k, ops[k].now)
  }

  /** The entry of `ip` before operation `k`: what is left of a full bucket and the time since one of the earlier packets,
      namely the one that leaves least. */
  ghost predicate LeastLeft(ops: seq<Op>, oks: seq<bool>, ip: Addr, k: nat, t: Table)
    requires k <= |ops| == |oks|
  {
    && (ip in t <==> exists i {:trigger IsFrom(ops, ip, i)} :: 0 <= i < k && IsFrom(ops, ip, i))
    && (ip in t ==> forall i: nat {:trigger Left(ops, oks, ip, k, i)} :: i < k && IsFrom(ops, ip, i) ==> t[ip].tokens - t[ip].lastTime <= Left(ops, oks, ip, k, i))
    && (ip in t ==> exists i: nat {:trigger Left(ops, oks, ip, k, i)} :: i < k && IsFrom(ops, ip, i) && t[ip].tokens - t[ip].lastTime == Left(ops, oks, ip, k, i))
  }

  /** A full bucket at the time of packet `i`, less what has been spent from then on, less that time. */
  function Left(ops: seq<Op>, oks: seq<bool>, ip: Addr, k: nat, i: nat): int
    requires k <= |ops| == |oks|
  {
    if i < k && IsFrom(ops, ip, i) then MAX_TOKENS - SpentFrom(ops, oks, ip, i, k) - ops[i].now else 0
  }

  lemma {:induction false} GrantedSnoc(ops: seq<Op>, oks: seq<bool>, op: Op, ok: bool, ip: Addr)
    requires |ops| == |oks|
    ensures Granted(ops + [op], oks + [ok], ip) == Granted(ops, oks, ip) + if op.Packet? && op.ip == ip && ok then 1 else 0
    decreases |ops|
  {
    if ops == [] {
      assert ops + [op] == [op] && oks + [ok] == [ok];
    } else {
      GrantedSnoc(ops[1..], oks[1..], op, ok, ip);
      assert (ops + [op])[1..] == ops[1..] + [op] && (oks + [ok])[1..] == oks[1..] + [ok];
    }
  }

  lemma SpentOneMore(ops: seq<Op>, oks: seq<bool>, ip: Addr, i: nat, k: nat)
    requires i <= k < |ops| == |oks|
    ensures SpentFrom(ops, oks, ip, i, k + 1) == SpentFrom(ops, oks, ip, i, k) + Cost(IsFrom(ops, ip, k) && oks[k])
  {
    GrantedSnoc(ops[i..k], oks[i..k], ops[k], oks[k], ip);
    assert ops[i..k + 1] == ops[i..k] + [ops[k]] && oks[i..k + 1] == oks[i..k] + [oks[k]];
  }

  lemma SpentNothing(ops: seq<Op>, oks: seq<bool>, ip: Addr, k: nat)
    requires k <= |ops| == |oks|
    ensures SpentFrom(ops, oks, ip, k, k) == 0
  {
  }

  /** Operation `k` is answered in the state it finds. */
  lemma AnswerThen(t: Table, ops: seq<Op>, k: nat)
    requires k < |ops|
    ensures var t' := TableAfter(t, ops[..k]);
            && TableAfter(t, ops[..k + 1]) == (if ops[k].Packet? then Step(t', ops[k].ip, ops[k].now).0 else t')
            && Answers(t, ops)[k] == (ops[k].Packet? && Step(t', ops[k].ip, ops[k].now).1)
  {
    hide Step;
    AnswersFrom(t, ops, k);
    var t' := TableAfter(t, ops[..k]);
    assert Answers(t, ops)[k] == Answers(t, ops)[k..][0] && ops[k..][0] == ops[k];
    TableSnoc(t, ops[..k], ops[k]);
    assert ops[..k] + [ops[k]] == ops[..k + 1];
  }

  lemma {:induction false} TableSnoc(t: Table, ops: seq<Op>, op: Op)
    ensures TableAfter(t, ops + [op]) == if op.Packet? then Step(TableAfter(t, ops), op.ip, op.now).0 else TableAfter(t, ops)
    decreases |ops|
  {
    hide Step;
    if ops == [] {
      assert ops + [op] == [op] && [op][1..] == [];
    } else {
      TableSnoc(First(t, ops), ops[1..], op);
      assert (ops + [op])[1..] == ops[1..] + [op];
    }
  }

  lemma LeftOneMore(ops: seq<Op>, oks: seq<bool>, ip: Addr, k: nat, i: nat)
    requires k < |ops| == |oks| && i < k && IsFrom(ops, ip, i)
    ensures Left(ops, oks, ip, k + 1, i) == Left(ops, oks, ip, k, i) - Cost(IsFrom(ops, ip, k) && oks[k])
  {
    SpentOneMore(ops, oks, ip, i, k);
  }

  lemma LeftNow(ops: seq<Op>, oks: seq<bool>, ip: Addr, k: nat)
    requires k < |ops| == |oks| && IsFrom(ops, ip, k)
    ensures Left(ops, oks, ip, k + 1, k) == MAX_TOKENS - Cost(oks[k]) - ops[k].now
  {
    SpentNothing(ops, oks, ip, k);
    SpentOneMore(ops, oks, ip, k, k);
  }

  /** What a packet of `ip` does to its entry: the level is capped, and the packet is paid if it is allowed. */
  lemma StepLevel(t: Table, ip: Addr, now: int)
    ensures var (t', ok) := Step(t, ip, now);
            && ip in t' && t'[ip].lastTime == now
            && var level := if ip in t then t[ip].tokens + (now - t[ip].lastTime) else MAX_TOKENS;
               var capped := if level > MAX_TOKENS then MAX_TOKENS else level;
               t'[ip].tokens == capped - Cost(ok) && (ok <==> capped > PACKET_COST)
  {
  }

  lemma StepElsewhere(t: Table, from: Addr, now: int, ip: Addr)
    requires from != ip
    ensures var t' := Step(t, from, now).0; (ip in t' <==> ip in t) && (ip in t ==> t'[ip] == t[ip])
  {
  }

  lemma LeastLeftOther(ops: seq<Op>, oks: seq<bool>, ip: Addr, k: nat, t: Table, t': Table)
    requires k < |ops| == |oks| && LeastLeft(ops, oks, ip, k, t) && !IsFrom(ops, ip, k)
    requires (ip in t' <==> ip in t) && (ip in t ==> t'[ip] == t[ip])
    ensures LeastLeft(ops, oks, ip, k + 1, t')
  {
    hide Left;
    forall i: nat | i < k && IsFrom(ops, ip, i) ensures Left(ops, oks, ip, k + 1, i) == Left(ops, oks, ip, k, i) {
      LeftOneMore(ops, oks, ip, k, i);
    }
  }

  lemma LeastLeftOwn(ops: seq<Op>, oks: seq<bool>, ip: Addr, k: nat, t: Table)
    requires k < |ops| == |oks| && LeastLeft(ops, oks, ip, k, t) && IsFrom(ops, ip, k) && Step(t, ip, ops[k].now).1 == oks[k]
    ensures LeastLeft(ops, oks, ip, k + 1, Step(t, ip, ops[k].now).0)
  {
    hide Left, Step;
    var now := ops[k].now;
    var t' := Step(t, ip, now).0;
    StepLevel(t, ip, now);
    LeftNow(ops, oks, ip, k);
    forall i: nat | i < k && IsFrom(ops, ip, i) ensures Left(ops, oks, ip, k + 1, i) == Left(ops, oks, ip, k, i) - Cost(oks[k]) {
      LeftOneMore(ops, oks, ip, k, i);
    }
    if ip in t && t[ip].tokens + (now - t[ip].lastTime) <= MAX_TOKENS {
      var i: nat :| i < k && IsFrom(ops, ip, i) && t[ip].tokens - t[ip].lastTime == Left(ops, oks, ip, k, i);
      assert t'[ip].tokens - t'[ip].lastTime == Left(ops, oks, ip, k + 1, i);
    } else {
      assert t'[ip].tokens - t'[ip].lastTime == Left(ops, oks, ip, k + 1, k);
    }
  }

  lemma {:induction false} LeastLeftThen(ops: seq<Op>, ip: Addr, k: nat)
    requires k <= |ops|
    ensures LeastLeft(ops, Answers(map[], ops), ip, k, TableAfter(map[], ops[..k]))
    decreases k
  {
    hide LeastLeft, Step, Answers;
    if k == 0 {
      LeastLeftStart(ops, Answers(map[], ops), ip);
    } else {
      LeastLeftThen(ops, ip, k - 1);
      AnswerThen(map[], ops, k - 1);
      var t := TableAfter(map[], ops[..k - 1]);
      if IsFrom(ops, ip, k - 1) {
        LeastLeftOwn(ops, Answers(map[], ops), ip, k - 1, t);
      } else {
        if ops[k - 1].Packet? {
          StepElsewhere(t, ops[k - 1].ip, ops[k - 1].now, ip);
        }
        LeastLeftOther(ops, Answers(map[], ops), ip, k - 1, t, TableAfter(map[], ops[..k]));
      }
    }
  }

  lemma LeastLeftStart(ops: seq<Op>, oks: seq<bool>, ip: Addr)
    requires |ops| == |oks|
    ensures LeastLeft(ops, oks, ip, 0, TableAfter(map[], ops[..0]))
  {
  }

  lemma UsedUpIs(ops: seq<Op>, oks: seq<bool>, ip: Addr, k: nat, i: nat, now: int)
    requires i < k <= |ops| == |oks| && IsFrom(ops, ip, i)
    ensures UsedUpSince(ops, oks, ip, i, k, now) <==> Left(ops, oks, ip, k, i) + now <= PACKET_COST
  {
  }

  /** In any run of a new limiter, collections included, a packet is refused if and only if there is an earlier packet of
      its address such that what has been allowed since, with this packet, costs a full bucket and the time since
      then, or more. */
  lemma RefusedIff(ops: seq<Op>, k: nat)
    requires k < |ops| && ops[k].Packet?
    ensures !Answers(map[], ops)[k] <==> UsedUp(ops, Answers(map[], ops), k)
  {
    hide Step, Answers, Left, UsedUpSince, TableAfter;
    var oks, ip, now := Answers(map[], ops), ops[k].ip, ops[k].now;
    var t := TableAfter(map[], ops[..k]);
    AnswerThen(map[], ops, k);
    LeastLeftThen(ops, ip, k);
    StepLevel(t, ip, now);
    if !oks[k] {
      var i: nat :| i < k && IsFrom(ops, ip, i) && t[ip].tokens - t[ip].lastTime == Left(ops, oks, ip, k, i);
      UsedUpIs(ops, oks, ip, k, i, now);
    }
    if i: nat :| i < k && UsedUpSince(ops, oks, ip, i, k, now) {
      IsUsedUp(ops, oks, ip, i, k, now);
      UsedUpIs(ops, oks, ip, k, i, now);
      assert t[ip].tokens - t[ip].lastTime <= Left(ops, oks, ip, k, i);
    }
  }

  lemma IsUsedUp(ops: seq<Op>, oks: seq<bool>, ip: Addr, i: nat, k: nat, now: int)
    requires i <= k <= |ops| == |oks| && UsedUpSince(ops, oks, ip, i, k, now)
    ensures IsFrom(ops, ip, i)
  {
  }
}
