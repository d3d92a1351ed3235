/** The anti-replay filter: a ring of bit blocks that slides with the newest counter
    (wireguard/replay/replay.go:9-62). */
module Replay {
  const BLOCK_BITS := 64
  const RING_BLOCKS := 128
  const WINDOW_SIZE := (RING_BLOCKS - 1) * BLOCK_BITS

  type Block = bv64

  // ---------- the reference filter: remember every accepted counter ----------

  datatype Window = Window(last: nat, accepted: set<nat>)

  predicate Accepts(w: Window, counter: nat, limit: nat) {
    counter < limit && counter !in w.accepted && w.last <= counter + WINDOW_SIZE
  }

  function Next(w: Window, counter: nat, limit: nat): Window {
    if Accepts(w, counter, limit)
    then Window(if counter > w.last then counter else w.last, w.accepted + {counter})
    else w
  }

  datatype Call = Call(counter: nat, limit: nat)

  /** The answers to a sequence of calls. */
  function Answers(w: Window, calls: seq<Call>): (oks: seq<bool>)
    ensures |oks| == |calls|
    decreases |calls|
  {
    if calls == [] then []
    else [Accepts(w, calls[0].counter, calls[0].limit)] + Answers(Next(w, calls[0].counter, calls[0].limit), calls[1..])
  }

  /** The call `j` is accepted exactly when its counter is under the limit, has not been accepted by an
      earlier call, and is at most WINDOW_SIZE behind every counter accepted by an earlier call. */
  ghost predicate Fair(w: Window, calls: seq<Call>, oks: seq<bool>, j: nat)
    requires |oks| == |calls| && j < |calls|
  {
    oks[j] <==>
      && calls[j].counter < calls[j].limit
      && calls[j].counter !in w.accepted && w.last <= calls[j].counter + WINDOW_SIZE
      && forall i :: 0 <= i < j && oks[i] ==> calls[i].counter != calls[j].counter && calls[i].counter <= calls[j].counter + WINDOW_SIZE
  }

  lemma {:induction false} AnswersFair(w: Window, calls: seq<Call>, j: nat)
    requires j < |calls|
    ensures Fair(w, calls, Answers(w, calls), j)
    decreases j
  {
    var oks := Answers(w, calls);
    if j > 0 {
      var c := calls[0];
      var w' := Next(w, c.counter, c.limit);
      var rest := Answers(w', calls[1..]);
      AnswersFair(w', calls[1..], j - 1);
      assert calls[1..][j - 1] == calls[j] && rest[j - 1] == oks[j];
      forall i | 0 <= i < j - 1
        ensures rest[i] == oks[i + 1] && calls[1..][i] == calls[i + 1] {
      }
      if forall i :: 0 <= i < j && oks[i] ==> calls[i].counter != calls[j].counter && calls[i].counter <= calls[j].counter + WINDOW_SIZE {
        assert oks[0] ==> c.counter != calls[j].counter && c.counter <= calls[j].counter + WINDOW_SIZE;
        forall i | 0 <= i < j - 1 && rest[i]
          ensures calls[1..][i].counter != calls[j].counter && calls[1..][i].counter <= calls[j].counter + WINDOW_SIZE {
          assert oks[i + 1];
        }
      } else {
        var i :| 0 <= i < j && oks[i] && !(calls[i].counter != calls[j].counter && calls[i].counter <= calls[j].counter + WINDOW_SIZE);
        if i > 0 {
          assert rest[i - 1] && calls[1..][i - 1] == calls[i];
        }
      }
    }
  }

  /** No counter is accepted twice between two resets, in any sequence of calls. */
  lemma NoReplay(calls: seq<Call>, i: nat, j: nat)
    requires i < j < |calls| && calls[i].counter == calls[j].counter
    ensures !(Answers(Window(0, {}), calls)[i] && Answers(Window(0, {}), calls)[j])
  {
    AnswersFair(Window(0, {}), calls, j);
  }

  // ---------- bits of a block ----------

  predicate HasBit(b: Block, n: bv7)
    requires n < 64
  {
    (b >> n) & 1 == 1
  }

  function WithBit(b: Block, n: bv7): Block
    requires n < 64
  {
    b | (1 << n)
  }

  lemma OrShift(b: Block, n: bv7, m: bv7)
    requires n < 64 && m < 64
    ensures ((b | (1 << n)) >> m) & 1 == ((b >> m) & 1) | (((1 << n) >> m) & 1)
  {
  }

  lemma OneShift(n: bv7, m: bv7)
    requires n < 64 && m < 64
    ensures (((1 as Block) << n) >> m) & 1 == if n == m then 1 else 0
  {
  }

  lemma SetHasBit(b: Block, n: bv7, m: bv7)
    requires n < 64 && m < 64
    ensures HasBit(WithBit(b, n), m) <==> m == n || HasBit(b, m)
  {
    OrShift(b, n, m);
    OneShift(n, m);
  }

  lemma ZeroHasNoBit(n: bv7)
    requires n < 64
    ensures !HasBit(0, n)
  {
  }

  lemma OrChanges(b: Block, n: bv7)
    requires n < 64
    ensures WithBit(b, n) != b <==> !HasBit(b, n)
  {
  }

  function BitNumber(r: nat): (n: bv7)
    requires r < BLOCK_BITS
    ensures n as nat == r
  {
    r as bv7
  }

  lemma BitNumberSmall(n: bv7)
    requires n as nat < BLOCK_BITS
    ensures n < 64
  {
  }

  function Shift(counter: nat): (n: bv7)
    ensures n < 64
  {
    BitNumberSmall(BitNumber(counter % BLOCK_BITS));
    BitNumber(counter % BLOCK_BITS)
  }

  lemma ShiftInjective(c: nat, d: nat)
    ensures Shift(c) == Shift(d) <==> c % BLOCK_BITS == d % BLOCK_BITS
  {
    hide BitNumber;
  }

  // ---------- what the ring means ----------

  function Slot(counter: nat): (s: nat)
    ensures s < RING_BLOCKS
  {
    counter / BLOCK_BITS % RING_BLOCKS
  }

  /** The counters whose bit is in the ring: those of the newest block and of the 127 blocks before it. */
  predicate InRing(last: nat, counter: nat) {
    counter / BLOCK_BITS <= last / BLOCK_BITS < counter / BLOCK_BITS + RING_BLOCKS
  }

  ghost predicate BitOk(ring: seq<Block>, w: Window, c: nat)
    requires |ring| == RING_BLOCKS
  {
    InRing(w.last, c) ==> (HasBit(ring[Slot(c)], Shift(c)) <==> c in w.accepted)
  }

  /** Blocks outside the ring's reach may hold anything. */
  ghost predicate Represents(ring: seq<Block>, w: Window) {
    && |ring| == RING_BLOCKS
    && (forall c :: c in w.accepted ==> c <= w.last)
    && (forall c: nat :: BitOk(ring, w, c))
  }

  /** `s` is the slot of one of the blocks from block `lo` up to block `hi`. */
  predicate Cleared(s: nat, lo: nat, hi: nat) {
    (s - lo) % RING_BLOCKS < hi - lo
  }

  lemma SlotCleared(c: nat, lo: nat, n: nat)
    requires n <= RING_BLOCKS
    ensures lo <= c / BLOCK_BITS < lo + n ==> Cleared(Slot(c), lo, lo + n)
    ensures n == RING_BLOCKS ==> Cleared(Slot(c), lo, lo + n)
    ensures c / BLOCK_BITS < lo && lo + n <= c / BLOCK_BITS + RING_BLOCKS ==> !Cleared(Slot(c), lo, lo + n)
  {
    var b := c / BLOCK_BITS;
    var q := b / RING_BLOCKS;
    assert b % RING_BLOCKS == b - RING_BLOCKS * q;
    assert (b % RING_BLOCKS - lo) % RING_BLOCKS == (b - lo) % RING_BLOCKS;
  }

  /** Moving the window forward over cleared blocks keeps what the ring means. */
  lemma AdvanceOk(ring: seq<Block>, w: Window, counter: nat, diff: nat, ring': seq<Block>)
    requires Represents(ring, w) && counter > w.last && |ring'| == RING_BLOCKS
    requires var d := counter / BLOCK_BITS - w.last / BLOCK_BITS; diff == if d > RING_BLOCKS then RING_BLOCKS else d
    requires forall s :: 0 <= s < RING_BLOCKS ==> ring'[s] == if Cleared(s, w.last / BLOCK_BITS + 1, w.last / BLOCK_BITS + 1 + diff) then 0 else ring[s]
    ensures Represents(ring', w.(last := counter))
  {
    hide Represents, Shift, HasBit;
    forall c: nat ensures BitOk(ring', w.(last := counter), c) {
      AdvanceBit(ring, w, counter, diff, ring', c);
    }
    assert Represents(ring', w.(last := counter)) by {
      AdvanceAccepted(ring, w, counter);
      MakeRepresents(ring', w.(last := counter));
    }
  }

  lemma AdvanceAccepted(ring: seq<Block>, w: Window, counter: nat)
    requires Represents(ring, w) && counter > w.last
    ensures forall c :: c in w.accepted ==> c <= counter
  {
  }

  lemma MakeRepresents(ring: seq<Block>, w: Window)
    requires |ring| == RING_BLOCKS && (forall c :: c in w.accepted ==> c <= w.last) && forall c: nat :: BitOk(ring, w, c)
    ensures Represents(ring, w)
  {
  }

  lemma AdvanceBit(ring: seq<Block>, w: Window, counter: nat, diff: nat, ring': seq<Block>, c: nat)
    requires Represents(ring, w) && counter > w.last && |ring'| == RING_BLOCKS
    requires var d := counter / BLOCK_BITS - w.last / BLOCK_BITS; diff == if d > RING_BLOCKS then RING_BLOCKS else d
    requires forall s :: 0 <= s < RING_BLOCKS ==> ring'[s] == if Cleared(s, w.last / BLOCK_BITS + 1, w.last / BLOCK_BITS + 1 + diff) then 0 else ring[s]
    ensures BitOk(ring', w.(last := counter), c)
  {
    hide Shift, HasBit, Slot, Cleared;
    if InRing(counter, c) {
      assert BitOk(ring, w, c);
      SlotCleared(c, w.last / BLOCK_BITS + 1, diff);
      ZeroHasNoBit(Shift(c));
    }
  }

  /** Setting the bit of a counter in the ring records it, and the block changes exactly when it is new. */
  lemma SetOk(ring: seq<Block>, w: Window, counter: nat)
    requires Represents(ring, w) && counter <= w.last && InRing(w.last, counter)
    ensures var new_ := WithBit(ring[Slot(counter)], Shift(counter));
            && Represents(ring[Slot(counter) := new_], w.(accepted := w.accepted + {counter}))
            && (new_ != ring[Slot(counter)] <==> counter !in w.accepted)
  {
    hide HasBit, WithBit, Shift;
    var new_ := WithBit(ring[Slot(counter)], Shift(counter));
    var w' := w.(accepted := w.accepted + {counter});
    assert BitOk(ring, w, counter);
    OrChanges(ring[Slot(counter)], Shift(counter));
    var ring' := ring[Slot(counter) := new_];
    forall c: nat ensures BitOk(ring', w', c) {
      SetBitOk(ring, w, counter, c);
    }
  }

  lemma SetBitOk(ring: seq<Block>, w: Window, counter: nat, c: nat)
    requires |ring| == RING_BLOCKS && BitOk(ring, w, c) && InRing(w.last, counter)
    ensures BitOk(ring[Slot(counter) := WithBit(ring[Slot(counter)], Shift(counter))], w.(accepted := w.accepted + {counter}), c)
  {
    hide Shift, HasBit, WithBit, Slot, InRing;
    if InRing(w.last, c) && Slot(c) == Slot(counter) {
      SetHasBit(ring[Slot(counter)], Shift(counter), Shift(c));
      ShiftInjective(counter, c);
      SameBlock(w.last, counter, c);
    }
  }

  lemma SameBlock(last: nat, c: nat, d: nat)
    requires InRing(last, c) && InRing(last, d) && Slot(c) == Slot(d)
    ensures c / BLOCK_BITS == d / BLOCK_BITS
    ensures c % BLOCK_BITS == d % BLOCK_BITS <==> c == d
  {
  }

  // ---------- the filter ----------

  class Filter {
    var last: nat
    const ring: array<Block>
    ghost var accepted: set<nat>

    ghost function View(): Window
      reads this
    {
      Window(last, accepted)
    }

    ghost predicate Valid()
      reads this, ring
    {
      ring.Length == RING_BLOCKS && Represents(ring[..], View())
    }

    constructor ()
      ensures Valid() && fresh(ring) && View() == Window(0, {})
    {
      ring := new Block[RING_BLOCKS](_ => 0);
      last, accepted := 0, {};
      new;
      ResetOk(ring[..]);
    }

    /** Only the first block is cleared: the others are cleared when the window reaches them. */
    method Reset()
      requires ring.Length == RING_BLOCKS
      modifies this`last, this`accepted, ring
      ensures Valid() && View() == Window(0, {})
    {
      last, accepted := 0, {};
      ring[0] := 0;
      ResetOk(ring[..]);
    }

    method ValidateCounter(counter: nat, limit: nat) returns (ok: bool)
      requires Valid()
      modifies this`last, this`accepted, ring
      ensures Valid() && ok == Accepts(old(View()), counter, limit) && View() == Next(old(View()), counter, limit)
    {
      hide Represents, Shift, HasBit, WithBit, Cleared;
      if counter >= limit {
        return false;
      }
      var indexBlock := counter / BLOCK_BITS;
      ghost var w := View();
      AcceptedBelow(ring[..], w, counter);
      if counter > last {
        var current := last / BLOCK_BITS;
        var diff := indexBlock - current;
        if diff > RING_BLOCKS {
          diff := RING_BLOCKS;
        }
        ClearBlocks(current + 1, diff);
        AdvanceOk(old(ring[..]), w, counter, diff, ring[..]);
        last := counter;
      } else if last - counter > WINDOW_SIZE {
        return false;
      }
      SetOk(ring[..], View(), counter);
      indexBlock := indexBlock % RING_BLOCKS;
      var block := ring[indexBlock];
      var changed := WithBit(block, Shift(counter));
      ghost var before := ring[..];
      ring[indexBlock] := changed;
      assert ring[..] == before[Slot(counter) := changed];
      accepted := accepted + {counter};
      assert !Accepts(w, counter, limit) ==> accepted == w.accepted;
      return block != changed;
    }

    method ClearBlocks(lo: nat, n: nat)
      requires ring.Length == RING_BLOCKS && n <= RING_BLOCKS
      modifies ring
      ensures forall s :: 0 <= s < RING_BLOCKS ==> ring[s] == if Cleared(s, lo, lo + n) then 0 else old(ring[s])
    {
      var i := lo;
      while i < lo + n
        invariant lo <= i <= lo + n
        invariant forall s :: 0 <= s < RING_BLOCKS ==> ring[s] == if Cleared(s, lo, i) then 0 else old(ring[s])
      {
        ClearOne(lo, i);
        ring[i % RING_BLOCKS] := 0;
        i := i + 1;
      }
    }
  }

  lemma ClearOne(lo: nat, i: nat)
    requires lo <= i < lo + RING_BLOCKS
    ensures forall s :: 0 <= s < RING_BLOCKS ==> (Cleared(s, lo, i + 1) <==> Cleared(s, lo, i) || s == i % RING_BLOCKS)
  {
  }

  lemma AcceptedBelow(ring: seq<Block>, w: Window, counter: nat)
    requires Represents(ring, w)
    ensures counter > w.last ==> counter !in w.accepted
  {
  }

  lemma ResetOk(ring: seq<Block>)
    requires |ring| == RING_BLOCKS && ring[0] == 0
    ensures Represents(ring, Window(0, {}))
  {
    var w := Window(0, {});
    forall c: nat ensures BitOk(ring, w, c) {
      ZeroHasNoBit(Shift(c));
    }
  }

  /** A filter in use answers every sequence of calls as the reference filter does. */
  method ValidateAll(f: Filter, calls: seq<Call>) returns (oks: seq<bool>)
    requires f.Valid()
    modifies f`last, f`accepted, f.ring
    ensures f.Valid() && oks == Answers(old(f.View()), calls)
    decreases |calls|
  {
    if calls == [] {
      return [];
    }
    var ok := f.ValidateCounter(calls[0].counter, calls[0].limit);
    var rest := ValidateAll(f, calls[1..]);
    return [ok] + rest;
  }
}
