/** Batching of UDP datagrams: equal-sized datagrams are put together in one message for the kernel to
    segment, and messages the kernel has put together are split in place
    (wireguard/conn/bind_std.go:437-544). */
module Datagrams {
  import opened Arith

  type Bytes = seq<bv8>

  const MAX_IPV4_PAYLOAD := 65535 - 20 - 8
  const MAX_IPV6_PAYLOAD := 65535 - 8
  const UDP_SEGMENT_MAX_DATAGRAMS := 64

  // ---------- segmentation ----------

  /** What the kernel makes of a message with segmentation size `size`. */
  function Chunks(data: Bytes, size: nat): (r: seq<Bytes>)
    requires size > 0
    ensures |r| > 0
    decreases |data|
  {
    if |data| <= size then [data] else [data[..size]] + Chunks(data[size..], size)
  }

  function Flatten(parts: seq<Bytes>): Bytes {
    if parts == [] then [] else Flatten(parts[..|parts| - 1]) + parts[|parts| - 1]
  }

  lemma FlattenStep(parts: seq<Bytes>)
    requires parts != []
    ensures Flatten(parts) == Flatten(parts[..|parts| - 1]) + parts[|parts| - 1]
  {
  }

  lemma {:induction false} FlattenFront(parts: seq<Bytes>)
    requires parts != []
    ensures Flatten(parts) == parts[0] + Flatten(parts[1..])
  {
    var n := |parts| - 1;
    if n == 0 {
      assert Flatten(parts[..0]) == [] && Flatten(parts[1..]) == [];
    } else {
      hide Flatten;
      var rest := parts[1..];
      FlattenStep(parts);
      FlattenStep(rest);
      FlattenFront(parts[..n]);
      assert parts[..n][1..] == rest[..n - 1];
      var a, b, c := parts[0], Flatten(rest[..n - 1]), parts[n];
      assert (a + b) + c == a + (b + c);
    }
  }

  lemma {:induction false} ChunksJoin(data: Bytes, size: nat)
    requires size > 0
    ensures Flatten(Chunks(data, size)) == data
    decreases |data|
  {
    if |data| <= size {
      assert Flatten([data][..0]) == [];
    } else {
      ChunksJoin(data[size..], size);
      FlattenFront(Chunks(data, size));
      assert Chunks(data, size)[1..] == Chunks(data[size..], size);
    }
  }

  /** Equal-sized parts, the last one possibly shorter but not empty, are the chunks of their concatenation. */
  lemma {:induction false} ChunksOfParts(parts: seq<Bytes>, size: nat)
    requires parts != [] && size > 0
    requires forall i :: 0 <= i < |parts| - 1 ==> |parts[i]| == size
    requires 0 < |parts[|parts| - 1]| <= size
    ensures Chunks(Flatten(parts), size) == parts
    decreases |parts|
  {
    FlattenFront(parts);
    if |parts| == 1 {
      assert parts[1..] == [] && Flatten(parts) == parts[0];
    } else {
      var rest := parts[1..];
      ChunksOfParts(rest, size);
      FlattenLonger(rest);
      var data := Flatten(parts);
      assert data[..size] == parts[0] && data[size..] == Flatten(rest);
    }
  }

  lemma FlattenLonger(parts: seq<Bytes>)
    requires parts != []
    ensures |Flatten(parts)| >= |parts[|parts| - 1]|
  {
  }

  lemma {:induction false} ChunkCount(data: Bytes, size: nat)
    requires size > 0 && data != []
    ensures |Chunks(data, size)| == (|data| + size - 1) / size
    decreases |data|
  {
    var n := |data| + size - 1;
    if |data| <= size {
      DivModUnique(n, 1, |data| - 1, size);
    } else {
      ChunkCount(data[size..], size);
      DivMod(n - size, size);
      var q := (n - size) / size;
      assert (q + 1) * size == q * size + size;
      DivModUnique(n, q + 1, (n - size) % size, size);
    }
  }

  // ---------- coalescing ----------

  /** A buffer to send: its contents, and how much room its backing array has. */
  datatype Buffer = Buffer(data: Bytes, cap: nat)

  /** A message for the kernel: its buffer, the segmentation sizes and the source address written to its control
      data, and where it goes. */
  datatype Message = Message(buffer: Buffer, gso: seq<nat>, src: Endpoint, addr: Endpoint)

  type Endpoint = nat

  function Contents(bufs: seq<Buffer>): (r: seq<Bytes>)
    ensures |r| == |bufs| && forall i :: 0 <= i < |r| ==> r[i] == bufs[i].data
  {
    seq(|bufs|, i requires 0 <= i < |bufs| => bufs[i].data)
  }

  /** Buffer `i` can join the message that holds the buffers from `s` on. */
  predicate Joins(bufs: seq<Buffer>, max: nat, s: nat, i: nat)
    requires s < i < |bufs|
  {
    var size := |Flatten(Contents(bufs[s..i]))| + |bufs[i].data|;
    && size <= max && size <= bufs[s].cap && |bufs[i].data| <= |bufs[s].data|
    && i - s < UDP_SEGMENT_MAX_DATAGRAMS
    && |bufs[i - 1].data| == |bufs[s].data|
  }

  /** The buffers from `s` up to `e` make one message, which is as long as it can be. */
  ghost predicate IsBatch(bufs: seq<Buffer>, max: nat, s: nat, e: nat) {
    && s < e <= |bufs|
    && (forall i :: s < i < e ==> Joins(bufs, max, s, i))
    && (e < |bufs| ==> !Joins(bufs, max, s, e))
  }

  /** The message is the batch from `s` to `e`, with its segmentation size set once if it needs one. */
  predicate Holds(bufs: seq<Buffer>, s: nat, e: nat, msg: Message)
    requires s < e <= |bufs|
  {
    && msg.buffer.data == Flatten(Contents(bufs[s..e]))
    && msg.gso == if e - s > 1 then [|bufs[s].data|] else []
  }

  /** Message `k` is the batch from one start to the next. */
  ghost predicate BatchAt(bufs: seq<Buffer>, max: nat, starts: seq<nat>, msgs: seq<Message>, k: nat)
    requires k + 1 < |starts| && k < |msgs|
  {
    IsBatch(bufs, max, starts[k], starts[k + 1]) && Holds(bufs, starts[k], starts[k + 1], msgs[k])
  }

  ghost predicate AllBatches(bufs: seq<Buffer>, max: nat, starts: seq<nat>, msgs: seq<Message>, n: nat)
    requires n < |starts| && n <= |msgs|
  {
    forall k: nat {:trigger BatchAt(bufs, max, starts, msgs, k)} :: k < n ==> BatchAt(bufs, max, starts, msgs, k)
  }

  /** `starts` cuts the buffers into batches, one for each message. */
  ghost predicate Batches(bufs: seq<Buffer>, max: nat, starts: seq<nat>, msgs: seq<Message>) {
    |starts| == |msgs| + 1 && starts[0] == 0 && starts[|msgs|] == |bufs| && AllBatches(bufs, max, starts, msgs, |msgs|)
  }

  lemma BatchGrows(bufs: seq<Buffer>, s: nat, i: nat)
    requires s < i < |bufs|
    ensures Flatten(Contents(bufs[s..i + 1])) == Flatten(Contents(bufs[s..i])) + bufs[i].data
  {
    var parts := Contents(bufs[s..i + 1]);
    assert parts[..|parts| - 1] == Contents(bufs[s..i]);
  }

  lemma BatchStarts(bufs: seq<Buffer>, i: nat)
    requires i < |bufs|
    ensures Flatten(Contents(bufs[i..i + 1])) == bufs[i].data
  {
    var parts := Contents(bufs[i..i + 1]);
    assert parts == [bufs[i].data];
    assert Flatten(parts[..0]) == [];
  }

  /** The batch being built, before buffer `i`. */
  ghost predicate Building(bufs: seq<Buffer>, max: nat, s: nat, i: nat, msg: Message, gsoSize: nat, dgramCnt: nat, endBatch: bool) {
    && s < i <= |bufs|
    && (forall j :: s < j < i ==> Joins(bufs, max, s, j))
    && msg.buffer == Buffer(Flatten(Contents(bufs[s..i])), bufs[s].cap)
    && msg.gso == (if i == |bufs| && i - s > 1 then [gsoSize] else [])
    && gsoSize == |bufs[s].data| && dgramCnt == i - s
    && endBatch == (|bufs[i - 1].data| != |bufs[s].data|)
  }

  /** Nothing but the messages from `n` on and the starts after `n` has changed. */
  lemma StillBatches(bufs: seq<Buffer>, max: nat, starts: seq<nat>, msgs: seq<Message>, starts': seq<nat>, msgs': seq<Message>, n: nat)
    requires n < |starts| && n <= |msgs| && AllBatches(bufs, max, starts, msgs, n)
    requires starts <= starts' && |msgs'| >= n && msgs'[..n] == msgs[..n]
    ensures AllBatches(bufs, max, starts', msgs', n)
  {
    hide IsBatch, Holds;
    forall k: nat | k < n ensures BatchAt(bufs, max, starts', msgs', k) {
      assert BatchAt(bufs, max, starts, msgs, k);
      assert msgs'[k] == msgs'[..n][k] == msgs[k];
    }
  }

  /** The batch being built is closed before buffer `e`, and its segmentation size is set if need be. */
  lemma CloseBatch(bufs: seq<Buffer>, max: nat, starts: seq<nat>, msgs: seq<Message>, n: nat, e: nat,
                   gsoSize: nat, dgramCnt: nat, endBatch: bool, msg: Message)
    requires n + 1 == |starts| && n < |msgs| && AllBatches(bufs, max, starts, msgs, n) && e <= |bufs|
    requires Building(bufs, max, starts[n], e, msg, gsoSize, dgramCnt, endBatch) && (e < |bufs| ==> !Joins(bufs, max, starts[n], e))
    requires msgs[n] == if e < |bufs| && dgramCnt > 1 then msg.(gso := msg.gso + [gsoSize]) else msg
    ensures AllBatches(bufs, max, starts + [e], msgs, n + 1)
  {
    hide Flatten, Contents, Joins;
    StillBatches(bufs, max, starts, msgs, starts + [e], msgs, n);
    assert BatchAt(bufs, max, starts + [e], msgs, n);
  }

  /** coalesceMessages: the first `n` messages are the batches of the buffers, in order. The control data of
      the messages is empty to begin with. The first buffer always starts a message, so its turn is taken
      out of the loop. */
  method CoalesceMessages(addr: Endpoint, src: Endpoint, is6: bool, bufs: seq<Buffer>, msgs: array<Message>)
    returns (n: nat, ghost starts: seq<nat>)
    requires msgs.Length >= |bufs| && forall k :: 0 <= k < msgs.Length ==> msgs[k].gso == []
    modifies msgs
    ensures n <= msgs.Length
    ensures Batches(bufs, if is6 then MAX_IPV6_PAYLOAD else MAX_IPV4_PAYLOAD, starts, msgs[..n])
    ensures forall k :: 0 <= k < n ==> msgs[k].addr == addr && msgs[k].src == src
  {
    hide Flatten, Contents, Joins, AllBatches, BatchAt, Building, JoinTest;
    var maxPayloadLen := MAX_IPV4_PAYLOAD;
    if is6 {
      maxPayloadLen := MAX_IPV6_PAYLOAD;
    }
    starts := [];
    if bufs == [] {
      starts := [0];
      NoBatches(bufs, maxPayloadLen, starts, msgs[..0]);
      return 0, starts;
    }
    var base: nat, gsoSize: nat, dgramCnt: nat, endBatch := 0, |bufs[0].data|, 1, false;
    msgs[0] := msgs[0].(src := src, buffer := bufs[0], addr := addr);
    starts := [0];
    StartKeeps(bufs, maxPayloadLen, 0, msgs[0]);
    NoBatches(bufs, maxPayloadLen, starts, msgs[..]);
    for i := 1 to |bufs|
      invariant 0 <= base < i && |starts| == base + 1 && starts[0] == 0
      invariant forall k :: base < k < msgs.Length ==> msgs[k].gso == []
      invariant forall k :: 0 <= k <= base ==> msgs[k].addr == addr && msgs[k].src == src
      invariant AllBatches(bufs, maxPayloadLen, starts, msgs[..], base)
      invariant Building(bufs, maxPayloadLen, starts[base], i, msgs[base], gsoSize, dgramCnt, endBatch)
    {
      var buf := bufs[i];
      var msgLen := |buf.data|;
      ghost var before, msg := msgs[..], msgs[base];
      JoinStep(bufs, maxPayloadLen, starts[base], i, msg, gsoSize, dgramCnt, endBatch);
      if JoinTest(msgs[base], msgLen, gsoSize, maxPayloadLen, dgramCnt, endBatch) {
        msgs[base] := msgs[base].(buffer := msgs[base].buffer.(data := msgs[base].buffer.data + buf.data));
        if i == |bufs| - 1 {
          msgs[base] := msgs[base].(gso := msgs[base].gso + [gsoSize]);
        }
        dgramCnt := dgramCnt + 1;
        if msgLen < gsoSize {
          endBatch := true;
        }
        JoinKeeps(bufs, maxPayloadLen, starts[base], i, msg, gsoSize, dgramCnt - 1, false, msgs[base]);
        StillBatches(bufs, maxPayloadLen, starts, before, starts, msgs[..], base);
      } else {
        if dgramCnt > 1 {
          msgs[base] := msgs[base].(gso := msgs[base].gso + [gsoSize]);
        }
        StillBatches(bufs, maxPayloadLen, starts, before, starts, msgs[..], base);
        CloseBatch(bufs, maxPayloadLen, starts, msgs[..], base, i, gsoSize, dgramCnt, endBatch, msg);
        starts := starts + [i];
        before := msgs[..];
        endBatch := false;
        base := base + 1;
        gsoSize := |buf.data|;
        msgs[base] := msgs[base].(src := src, buffer := buf, addr := addr);
        dgramCnt := 1;
        StartKeeps(bufs, maxPayloadLen, i, msgs[base]);
        StillBatches(bufs, maxPayloadLen, starts, before, starts, msgs[..], base);
      }
    }
    n := base + 1;
    CloseBatch(bufs, maxPayloadLen, starts, msgs[..], base, |bufs|, gsoSize, dgramCnt, endBatch, msgs[base]);
    starts := starts + [|bufs|];
    StillBatches(bufs, maxPayloadLen, starts, msgs[..], starts, msgs[..n], n);
  }

  lemma NoBatches(bufs: seq<Buffer>, max: nat, starts: seq<nat>, msgs: seq<Message>)
    requires starts != []
    ensures AllBatches(bufs, max, starts, msgs, 0)
  {
  }

  /** The five conditions under which a buffer joins the message. */
  predicate JoinTest(msg: Message, msgLen: nat, gsoSize: nat, max: nat, dgramCnt: nat, endBatch: bool) {
    var baseLenBefore := |msg.buffer.data|;
    var freeBaseCap := msg.buffer.cap - baseLenBefore;
    msgLen + baseLenBefore <= max && msgLen <= gsoSize && msgLen <= freeBaseCap && dgramCnt < UDP_SEGMENT_MAX_DATAGRAMS && !endBatch
  }

  lemma JoinKeeps(bufs: seq<Buffer>, max: nat, s: nat, i: nat, msg: Message, gsoSize: nat, dgramCnt: nat, endBatch: bool, msg': Message)
    requires Building(bufs, max, s, i, msg, gsoSize, dgramCnt, endBatch) && i < |bufs|
    requires JoinTest(msg, |bufs[i].data|, gsoSize, max, dgramCnt, endBatch)
    requires msg'.buffer == msg.buffer.(data := msg.buffer.data + bufs[i].data)
    requires msg'.gso == if i == |bufs| - 1 then msg.gso + [gsoSize] else msg.gso
    ensures Building(bufs, max, s, i + 1, msg', gsoSize, dgramCnt + 1, |bufs[i].data| < gsoSize)
  {
    hide Flatten, Contents, Joins;
    JoinStep(bufs, max, s, i, msg, gsoSize, dgramCnt, endBatch);
  }

  lemma StartKeeps(bufs: seq<Buffer>, max: nat, i: nat, msg: Message)
    requires i < |bufs| && msg.buffer == bufs[i] && msg.gso == []
    ensures Building(bufs, max, i, i + 1, msg, |bufs[i].data|, 1, false)
  {
    hide Flatten, Contents, Joins;
    BatchStarts(bufs, i);
  }

  lemma JoinStep(bufs: seq<Buffer>, max: nat, s: nat, i: nat, msg: Message, gsoSize: nat, dgramCnt: nat, endBatch: bool)
    requires Building(bufs, max, s, i, msg, gsoSize, dgramCnt, endBatch) && i < |bufs|
    ensures JoinTest(msg, |bufs[i].data|, gsoSize, max, dgramCnt, endBatch) == Joins(bufs, max, s, i)
    ensures Flatten(Contents(bufs[s..i + 1])) == msg.buffer.data + bufs[i].data
    ensures JoinTest(msg, |bufs[i].data|, gsoSize, max, dgramCnt, endBatch) ==> !endBatch
    ensures !endBatch && |bufs[i].data| <= gsoSize ==> (|bufs[i].data| < gsoSize <==> |bufs[i].data| != |bufs[s].data|)
  {
    BatchGrows(bufs, s, i);
  }

  // ---------- the kernel's segmentation undoes the coalescing ----------

  /** The datagrams of a message. */
  function Segments(data: Bytes, gso: nat): (r: seq<Bytes>)
    ensures |r| > 0
  {
    if gso == 0 then [data] else Chunks(data, gso)
  }

  function SizeOf(msg: Message): nat {
    if msg.gso == [] then 0 else msg.gso[0]
  }

  function SegmentAll(msgs: seq<Message>): seq<Bytes> {
    if msgs == [] then []
    else
      var k := |msgs| - 1;
      SegmentAll(msgs[..k]) + Segments(msgs[k].buffer.data, SizeOf(msgs[k]))
  }

  /** A batch that is segmented back: a single buffer, or one whose last buffer is not empty. */
  predicate KeepsTail(bufs: seq<Buffer>, s: nat, e: nat)
    requires s < e <= |bufs|
  {
    e - s == 1 || bufs[e - 1].data != []
  }

  lemma SingleSplitsBack(bufs: seq<Buffer>, s: nat, e: nat, msg: Message)
    requires s < e <= |bufs| && e - s == 1 && Holds(bufs, s, e, msg)
    ensures Segments(msg.buffer.data, SizeOf(msg)) == Contents(bufs[s..e])
  {
    hide Flatten, Chunks;
    BatchStarts(bufs, s);
    assert Contents(bufs[s..e]) == [bufs[s].data];
  }

  /** The sizes and the limits of a batch of several buffers. */
  lemma BatchSizes(bufs: seq<Buffer>, max: nat, s: nat, e: nat)
    requires IsBatch(bufs, max, s, e) && e - s > 1
    ensures var parts := Contents(bufs[s..e]);
            && (forall i :: 0 <= i < |parts| - 1 ==> |parts[i]| == |bufs[s].data|)
            && |parts[|parts| - 1]| <= |bufs[s].data|
            && e - s <= UDP_SEGMENT_MAX_DATAGRAMS && |Flatten(parts)| <= max && |Flatten(parts)| <= bufs[s].cap
  {
    hide Flatten;
    assert Joins(bufs, max, s, e - 1);
    BatchGrows(bufs, s, e - 1);
    var parts := Contents(bufs[s..e]);
    forall i | 0 <= i < |parts| - 1 ensures |parts[i]| == |bufs[s].data| {
      assert Joins(bufs, max, s, s + i + 1);
    }
  }

  /** Equal-sized parts with an empty one behind them are chunked into one part less. */
  lemma EmptyTailChunks(parts: seq<Bytes>, size: nat)
    requires |parts| > 1 && parts[|parts| - 1] == [] && forall i :: 0 <= i < |parts| - 1 ==> |parts[i]| == size
    ensures |Segments(Flatten(parts), size)| < |parts|
  {
    hide Flatten, Chunks;
    if size > 0 {
      FlattenStep(parts);
      ChunksOfParts(parts[..|parts| - 1], size);
      assert Flatten(parts) == Flatten(parts[..|parts| - 1]);
    }
  }

  /** A batch is segmented back into its buffers if and only if it is a single buffer or its last buffer is
      not empty; otherwise into fewer datagrams. */
  lemma BatchSplitsBack(bufs: seq<Buffer>, max: nat, s: nat, e: nat, msg: Message)
    requires IsBatch(bufs, max, s, e) && Holds(bufs, s, e, msg)
    ensures var datagrams := Segments(msg.buffer.data, SizeOf(msg));
            && (datagrams == Contents(bufs[s..e]) <==> KeepsTail(bufs, s, e))
            && (!KeepsTail(bufs, s, e) ==> |datagrams| < e - s)
    ensures e - s > 1 ==> e - s <= UDP_SEGMENT_MAX_DATAGRAMS && |msg.buffer.data| <= max && |msg.buffer.data| <= bufs[s].cap
  {
    hide Flatten, Chunks, Joins;
    if e - s == 1 {
      SingleSplitsBack(bufs, s, e, msg);
    } else {
      BatchSizes(bufs, max, s, e);
      if bufs[e - 1].data != [] {
        ChunksOfParts(Contents(bufs[s..e]), |bufs[s].data|);
      } else {
        EmptyTailChunks(Contents(bufs[s..e]), |bufs[s].data|);
      }
    }
  }

  /** The buffers from `s` up to `e` may be one message: as many datagrams and bytes as the kernel and the first buffer take,
      all of one size but for the last, which may be smaller. */
  ghost predicate Legal(bufs: seq<Buffer>, max: nat, s: nat, e: nat) {
    && s < e <= |bufs| && e - s <= UDP_SEGMENT_MAX_DATAGRAMS
    && |Flatten(Contents(bufs[s..e]))| <= max && |Flatten(Contents(bufs[s..e]))| <= bufs[s].cap
    && (forall i :: s <= i < e - 1 ==> |bufs[i].data| == |bufs[s].data|) && |bufs[e - 1].data| <= |bufs[s].data|
  }

  lemma LegalShorter(bufs: seq<Buffer>, max: nat, s: nat, e: nat)
    requires Legal(bufs, max, s, e) && s + 1 < e
    ensures Legal(bufs, max, s, e - 1) && Joins(bufs, max, s, e - 1)
  {
    hide Flatten, Contents;
    BatchGrows(bufs, s, e - 1);
  }

  lemma {:induction false} AllShorter(bufs: seq<Buffer>, max: nat, s: nat, e: nat, i: nat)
    requires Legal(bufs, max, s, e) && s < i < e
    ensures Joins(bufs, max, s, i)
    decreases e
  {
    hide Legal, Joins;
    LegalBounds(bufs, max, s, e);
    LegalShorter(bufs, max, s, e);
    if i < e - 1 {
      AllShorter(bufs, max, s, e - 1, i);
    }
  }

  lemma LegalBounds(bufs: seq<Buffer>, max: nat, s: nat, e: nat)
    requires Legal(bufs, max, s, e)
    ensures s < e <= |bufs|
  {
  }

  /** A batch is the longest list of buffers that may be one message, or a single buffer if there is none. */
  lemma BatchIsLongest(bufs: seq<Buffer>, max: nat, s: nat, e: nat)
    requires IsBatch(bufs, max, s, e)
    ensures Legal(bufs, max, s, e) || e == s + 1
    ensures forall e' :: e < e' ==> !Legal(bufs, max, s, e')
  {
    hide Flatten, Contents;
    if e > s + 1 {
      BatchSizes(bufs, max, s, e);
      BatchLegal(bufs, max, s, e);
    }
    forall e' | e < e' ensures !Legal(bufs, max, s, e') {
      if Legal(bufs, max, s, e') {
        AllShorter(bufs, max, s, e', e);
      }
    }
  }

  lemma BatchLegal(bufs: seq<Buffer>, max: nat, s: nat, e: nat)
    requires IsBatch(bufs, max, s, e) && e > s + 1
    ensures Legal(bufs, max, s, e)
  {
    hide Flatten;
    BatchSizes(bufs, max, s, e);
    var parts := Contents(bufs[s..e]);
    forall i | s <= i < e - 1 ensures |bufs[i].data| == |bufs[s].data| {
      assert parts[i - s] == bufs[i].data;
    }
    assert parts[|parts| - 1] == bufs[e - 1].data;
  }

  /** An empty buffer at the end of a batch is not segmented back. */
  lemma EmptyTailLost()
    ensures var bufs, msg := [Buffer([7], 10), Buffer([], 10)], Message(Buffer([7], 10), [1], 0, 0);
            && IsBatch(bufs, MAX_IPV4_PAYLOAD, 0, 2) && Holds(bufs, 0, 2, msg)
            && Segments(msg.buffer.data, SizeOf(msg)) == [[7]] && Contents(bufs[0..2]) == [[7], []]
  {
    var bufs := [Buffer([7], 10), Buffer([], 10)];
    BatchStarts(bufs, 0);
    BatchGrows(bufs, 0, 1);
    assert bufs[0..2] == bufs && bufs[0..1] == [bufs[0]];
    assert Joins(bufs, MAX_IPV4_PAYLOAD, 0, 1);
  }

  /** `starts` cuts the buffers into batches. */
  ghost predicate Cuts(bufs: seq<Buffer>, max: nat, starts: seq<nat>) {
    && starts != [] && starts[0] == 0 && starts[|starts| - 1] == |bufs|
    && forall k {:trigger starts[k]} :: 0 <= k < |starts| - 1 ==> IsBatch(bufs, max, starts[k], starts[k + 1])
  }

  lemma Inside(bufs: seq<Buffer>, max: nat, s: nat, e: nat, i: nat)
    requires IsBatch(bufs, max, s, e) && s < i < e
    ensures Joins(bufs, max, s, i)
  {
  }

  lemma BatchUnique(bufs: seq<Buffer>, max: nat, s: nat, e: nat, e': nat)
    requires IsBatch(bufs, max, s, e) && IsBatch(bufs, max, s, e')
    ensures e == e'
  {
    if e < e' {
      Inside(bufs, max, s, e', e);
    } else if e' < e {
      Inside(bufs, max, s, e, e');
    }
  }

  lemma {:induction false} SameStart(bufs: seq<Buffer>, max: nat, a: seq<nat>, b: seq<nat>, k: nat)
    requires Cuts(bufs, max, a) && Cuts(bufs, max, b) && k < |a| && k < |b|
    ensures a[k] == b[k]
  {
    hide IsBatch;
    if k > 0 {
      SameStart(bufs, max, a, b, k - 1);
      assert IsBatch(bufs, max, a[k - 1], a[k - 1 + 1]) && IsBatch(bufs, max, b[k - 1], b[k - 1 + 1]);
      BatchUnique(bufs, max, a[k - 1], a[k], b[k]);
    }
  }

  /** The buffers alone decide where the batches are cut. */
  lemma CutsUnique(bufs: seq<Buffer>, max: nat, a: seq<nat>, b: seq<nat>)
    requires Cuts(bufs, max, a) && Cuts(bufs, max, b)
    ensures a == b
  {
    hide IsBatch;
    forall k: nat | k < |a| && k < |b| ensures a[k] == b[k] {
      SameStart(bufs, max, a, b, k);
    }
    if |a| < |b| {
      BatchBounds(bufs, max, b[|a| - 1], b[|a| - 1 + 1]);
    } else if |b| < |a| {
      BatchBounds(bufs, max, a[|b| - 1], a[|b| - 1 + 1]);
    }
  }

  lemma BatchesCut(bufs: seq<Buffer>, max: nat, starts: seq<nat>, msgs: seq<Message>)
    requires Batches(bufs, max, starts, msgs)
    ensures Cuts(bufs, max, starts)
  {
    hide IsBatch, Holds;
    forall k {:trigger starts[k]} | 0 <= k < |starts| - 1 ensures IsBatch(bufs, max, starts[k], starts[k + 1]) {
      assert BatchAt(bufs, max, starts, msgs, k);
    }
  }

  /** Whether each of the first `k` batches is segmented back. */
  ghost predicate AllKeepTails(bufs: seq<Buffer>, starts: seq<nat>, k: nat)
    requires k < |starts|
  {
    forall j: nat {:trigger starts[j]} :: j < k ==> starts[j] < starts[j + 1] <= |bufs| && KeepsTail(bufs, starts[j], starts[j + 1])
  }

  lemma OneMoreKeeps(bufs: seq<Buffer>, starts: seq<nat>, k: nat)
    requires 0 < k < |starts| && starts[k - 1] < starts[k] <= |bufs|
    ensures AllKeepTails(bufs, starts, k) <==> AllKeepTails(bufs, starts, k - 1) && KeepsTail(bufs, starts[k - 1], starts[k])
  {
    hide KeepsTail;
    if AllKeepTails(bufs, starts, k) {
      assert starts[k - 1] < starts[k - 1 + 1] && KeepsTail(bufs, starts[k - 1], starts[k - 1 + 1]);
    }
  }

  /** The datagrams of the first `k` messages: their buffers, or fewer. */
  ghost predicate SegmentedBack(bufs: seq<Buffer>, starts: seq<nat>, msgs: seq<Message>, k: nat)
    requires k < |starts| && k <= |msgs|
  {
    && starts[k] <= |bufs|
    && if AllKeepTails(bufs, starts, k) then SegmentAll(msgs[..k]) == Contents(bufs)[..starts[k]]
       else |SegmentAll(msgs[..k])| < starts[k]
  }

  lemma AppendSegments(bufs: seq<Buffer>, starts: seq<nat>, msgs: seq<Message>, k: nat)
    requires 0 < k < |starts| && k <= |msgs| && starts[k - 1] < starts[k] <= |bufs|
    ensures SegmentAll(msgs[..k]) == SegmentAll(msgs[..k - 1]) + Segments(msgs[k - 1].buffer.data, SizeOf(msgs[k - 1]))
    ensures Contents(bufs)[..starts[k]] == Contents(bufs)[..starts[k - 1]] + Contents(bufs[starts[k - 1]..starts[k]])
  {
    hide Segments;
    assert msgs[..k][..k - 1] == msgs[..k - 1];
  }

  lemma {:induction false} SegmentsUpTo(bufs: seq<Buffer>, max: nat, starts: seq<nat>, msgs: seq<Message>, k: nat)
    requires Batches(bufs, max, starts, msgs) && k <= |msgs|
    ensures SegmentedBack(bufs, starts, msgs, k)
  {
    hide Segments, Contents, IsBatch, Holds, KeepsTail, SizeOf;
    if k > 0 {
      SegmentsUpTo(bufs, max, starts, msgs, k - 1);
      assert BatchAt(bufs, max, starts, msgs, k - 1);
      BatchBounds(bufs, max, starts[k - 1], starts[k]);
      AppendSegments(bufs, starts, msgs, k);
      OneMoreKeeps(bufs, starts, k);
      BatchSplitsBack(bufs, max, starts[k - 1], starts[k], msgs[k - 1]);
    }
  }

  /** Segmenting all the messages gives back the buffers, in order, if and only if no batch of several buffers
      ends with an empty one. */
  lemma SegmentationUndoesCoalescing(bufs: seq<Buffer>, max: nat, starts: seq<nat>, msgs: seq<Message>)
    requires Batches(bufs, max, starts, msgs)
    ensures SegmentAll(msgs) == Contents(bufs) <==> AllKeepTails(bufs, starts, |msgs|)
    ensures (forall i :: 0 <= i < |bufs| ==> bufs[i].data != []) ==> SegmentAll(msgs) == Contents(bufs)
  {
    SegmentsUpTo(bufs, max, starts, msgs, |msgs|);
    hide Segments, IsBatch, Holds, SegmentAll;
    assert msgs[..|msgs|] == msgs && Contents(bufs)[..|bufs|] == Contents(bufs);
    if forall i :: 0 <= i < |bufs| ==> bufs[i].data != [] {
      forall j: nat {:trigger starts[j]} | j < |msgs| ensures starts[j] < starts[j + 1] <= |bufs| && KeepsTail(bufs, starts[j], starts[j + 1]) {
        assert BatchAt(bufs, max, starts, msgs, j);
        BatchBounds(bufs, max, starts[j], starts[j + 1]);
      }
    }
  }

  lemma BatchBounds(bufs: seq<Buffer>, max: nat, s: nat, e: nat)
    requires IsBatch(bufs, max, s, e)
    ensures s < e <= |bufs|
  {
  }

  /** coalesceMessages followed by segmentation, for any list of buffers. */
  method SendAll(addr: Endpoint, src: Endpoint, is6: bool, bufs: seq<Buffer>) returns (datagrams: seq<Bytes>, ghost starts: seq<nat>)
    ensures Cuts(bufs, if is6 then MAX_IPV6_PAYLOAD else MAX_IPV4_PAYLOAD, starts)
    ensures datagrams == Contents(bufs) <==> AllKeepTails(bufs, starts, |starts| - 1)
    ensures (forall i :: 0 <= i < |bufs| ==> bufs[i].data != []) ==> datagrams == Contents(bufs)
  {
    hide Segments, Contents, IsBatch, Holds, SegmentAll, AllKeepTails, AllBatches;
    var msgs := new Message[|bufs|](_ => Message(Buffer([], 0), [], 0, 0));
    var n;
    n, starts := CoalesceMessages(addr, src, is6, bufs, msgs);
    datagrams := SegmentAll(msgs[..n]);
    var max := if is6 then MAX_IPV6_PAYLOAD else MAX_IPV4_PAYLOAD;
    BatchesCut(bufs, max, starts, msgs[..n]);
    SegmentationUndoesCoalescing(bufs, max, starts, msgs[..n]);
  }
}
