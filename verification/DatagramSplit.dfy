/** Splitting of received messages in place: the datagrams of later messages are copied into the buffers
    of earlier ones (wireguard/conn/bind_std.go:502-544). */
module DatagramSplit {
  import opened Arith
  import opened Datagrams
  import opened Options

  /** One received message: its buffer, of which the first `n` bytes were received, the segmentation size
      found in its control data (None: the control data does not parse), and where it came from. */
  datatype Received = Received(buf: Bytes, n: nat, gso: Option<nat>, addr: int) {
    predicate Ok() {
      n <= |buf| && (gso.Some? ==> gso.value <= |buf|)
    }
  }

  datatype Packet = Packet(data: Bytes, addr: int)

  datatype SplitError = NoError | BadControl | Overflow

  datatype Outcome = Outcome(packets: seq<Packet>, err: SplitError)

  /** The pieces the loop cuts a message into: the first one is not clamped to the received bytes. */
  function Pieces(r: Received): (p: seq<Bytes>)
    requires r.Ok() && r.gso.Some?
    ensures |p| > 0
  {
    var gso := r.gso.value;
    if gso == 0 then [r.buf[..r.n]] else if gso > r.n then [r.buf[..gso]] else Chunks(r.buf[..r.n], gso)
  }

  /** The pieces are the datagrams the kernel put together if and only if the segmentation size is not
      larger than the message. */
  lemma PiecesAreSegments(r: Received)
    requires r.Ok() && r.gso.Some?
    ensures Pieces(r) == Segments(r.buf[..r.n], r.gso.value) <==> r.gso.value <= r.n
  {
    if r.gso.value > r.n {
      assert |Pieces(r)[0]| == r.gso.value != r.n == |Segments(r.buf[..r.n], r.gso.value)[0]|;
    }
  }

  /** A one-byte message with segmentation size 2 yields a stale second byte. */
  lemma StaleByte()
    ensures Pieces(Received([7, 9], 1, Some(2), 0)) == [[7, 9]] && Segments([7, 9][..1], 2) == [[7]]
  {
    var r := Received([7, 9], 1, Some(2), 0);
    assert r.buf[..1] == [7] && r.buf[..2] == [7, 9];
  }

  function Packets(pieces: seq<Bytes>, addr: int): (r: seq<Packet>)
    ensures |r| == |pieces| && forall i :: 0 <= i < |r| ==> r[i] == Packet(pieces[i], addr)
  {
    seq(|pieces|, i requires 0 <= i < |pieces| => Packet(pieces[i], addr))
  }

  function NumToSplit(n: nat, gsoSize: nat): nat
    requires gsoSize > 0
  {
    (n + gsoSize - 1) / gsoSize
  }

  ghost predicate AllOk(src: seq<Received>, i: nat) {
    forall k :: i <= k < |src| ==> src[k].Ok()
  }

  /** The packets of the messages from `i` on, up to the first empty one, after `out`. */
  ghost function SplitFrom(src: seq<Received>, i: nat, out: seq<Packet>): Outcome
    requires AllOk(src, i)
    decreases |src| - i
  {
    if i >= |src| || src[i].n == 0 then Outcome(out, NoError)
    else if src[i].gso.None? then Outcome(out, BadControl)
    else
      var all := out + Packets(Pieces(src[i]), src[i].addr);
      if |all| > i + 1 then Outcome(all[..i + 1], Overflow) else SplitFrom(src, i + 1, all)
  }

  // ---------- walking through one message ----------

  /** `start` and `end` delimit piece `j`. */
  ghost predicate At(r: Received, j: nat, start: nat, end: nat)
    requires r.Ok() && r.gso.Some?
  {
    var gso := r.gso.value;
    var pieces := Pieces(r);
    j < |pieces| && start <= end <= |r.buf|
    && if gso == 0 || gso > r.n then j == 0 && start == 0 && end == (if gso == 0 then r.n else gso)
       else
         && end == (if start + gso > r.n then r.n else start + gso) && end <= r.n
         && pieces[j..] == Chunks(r.buf[..r.n][start..], gso)
  }

  lemma AtStart(r: Received)
    requires r.Ok() && r.gso.Some? && r.n > 0
    ensures At(r, 0, 0, if r.gso.value > 0 then r.gso.value else r.n)
    ensures r.gso.value > 0 ==> |Pieces(r)| == NumToSplit(r.n, r.gso.value)
    ensures r.gso.value == 0 ==> |Pieces(r)| == 1
  {
    var gso := r.gso.value;
    if 0 < gso <= r.n {
      ChunkCount(r.buf[..r.n], gso);
      assert r.buf[..r.n][0..] == r.buf[..r.n];
    } else if gso > r.n {
      DivModUnique(r.n + gso - 1, 1, r.n - 1, gso);
    }
  }

  lemma Bounds(r: Received, j: nat, start: nat, end: nat)
    requires r.Ok() && r.gso.Some? && At(r, j, start, end)
    ensures j < |Pieces(r)| && start <= end <= |r.buf|
  {
  }

  lemma AtPiece(r: Received, j: nat, start: nat, end: nat)
    requires r.Ok() && r.gso.Some? && At(r, j, start, end)
    ensures Pieces(r)[j] == r.buf[start..end]
    ensures j + 1 < |Pieces(r)| ==>
              var next := end + r.gso.value;
              At(r, j + 1, end, if next > r.n then r.n else next)
  {
    var gso := r.gso.value;
    var pieces := Pieces(r);
    if 0 < gso <= r.n {
      var data := r.buf[..r.n];
      var rest := data[start..];
      assert pieces[j] == pieces[j..][0];
      assert |rest| > gso ==> rest[..gso] == r.buf[start..end];
      assert |rest| <= gso ==> rest == r.buf[start..end];
      if j + 1 < |pieces| {
        assert pieces[j + 1..] == pieces[j..][1..];
        assert rest[gso..] == data[end..];
      }
    }
  }

  // ---------- the messages ----------

  class Msg {
    const buffer: array<bv8>
    const gso: Option<nat>
    var n: nat
    var addr: int

    constructor (buffer: array<bv8>, gso: Option<nat>, n: nat, addr: int)
      ensures this.buffer == buffer && this.gso == gso && this.n == n && this.addr == addr
    {
      this.buffer, this.gso, this.n, this.addr := buffer, gso, n, addr;
    }

    ghost function View(): Received
      reads this, buffer
    {
      Received(buffer[..], n, gso, addr)
    }

    /** copy: overlapping is fine, and what does not fit is left out. */
    method Copy(data: Bytes, from: int)
      modifies this, buffer
      ensures View() == Put(old(View()), Packet(data, from))
    {
      var copied := if |data| < buffer.Length then |data| else buffer.Length;
      ghost var was := buffer[..];
      forall k | 0 <= k < copied {
        buffer[k] := data[k];
      }
      assert buffer[..] == data[..copied] + was[copied..];
      n := copied;
      addr := from;
    }
  }

  function Put(r: Received, p: Packet): Received {
    var m := if |p.data| < |r.buf| then |p.data| else |r.buf|;
    r.(buf := p.data[..m] + r.buf[m..], n := m, addr := p.addr)
  }

  /** The message holds the packet, as far as it fits into its buffer. */
  predicate Delivered(r: Received, p: Packet) {
    && r.n == (if |p.data| < |r.buf| then |p.data| else |r.buf|)
    && r.buf[..r.n] == p.data[..r.n] && r.addr == p.addr
  }

  lemma PutDelivers(r: Received, p: Packet)
    ensures Delivered(Put(r, p), p)
  {
  }

  ghost predicate Apart(msgs: seq<Msg>) {
    forall a, b {:trigger msgs[a], msgs[b]} :: 0 <= a < b < |msgs| ==> msgs[a] != msgs[b] && msgs[a].buffer != msgs[b].buffer
  }

  ghost function Buffers(msgs: seq<Msg>): set<object> {
    set m | m in msgs :: m.buffer
  }

  lemma InBuffers(msgs: seq<Msg>, k: nat)
    requires k < |msgs|
    ensures msgs[k].buffer in Buffers(msgs)
  {
  }

  ghost function Cells(msgs: seq<Msg>): (c: seq<Received>)
    reads msgs, Buffers(msgs)
    ensures |c| == |msgs| && forall k :: 0 <= k < |c| ==> c[k] == msgs[k].View()
  {
    seq(|msgs|, k requires 0 <= k < |msgs| reads msgs, Buffers(msgs) => msgs[k].View())
  }

  /** Copying a packet into message `k` changes that message alone. */
  method Deliver(msgs: seq<Msg>, k: nat, data: Bytes, from: int)
    requires Apart(msgs) && k < |msgs|
    modifies msgs[k], msgs[k].buffer
    ensures Cells(msgs) == old(Cells(msgs))[k := Put(old(msgs[k].View()), Packet(data, from))]
  {
    msgs[k].Copy(data, from);
    forall j | 0 <= j < |msgs| && j != k ensures msgs[j].View() == old(msgs[j].View()) {
      assert msgs[j] != msgs[k] && msgs[j].buffer != msgs[k].buffer;
    }
  }

  // ---------- the loops ----------

  ghost predicate AllDelivered(cells: seq<Received>, out: seq<Packet>) {
    |out| <= |cells| && forall k {:trigger cells[k]} :: 0 <= k < |out| ==> Delivered(cells[k], out[k])
  }

  lemma DeliverNext(cells: seq<Received>, out: seq<Packet>, p: Packet)
    requires AllDelivered(cells, out) && |out| < |cells|
    ensures AllDelivered(cells[|out| := Put(cells[|out|], p)], out + [p])
  {
    hide Put, Delivered;
    PutDelivers(cells[|out|], p);
  }

  /** The first `j` of `packets` have been delivered after `out`, and nothing further on has changed. */
  ghost predicate Progress(cells: seq<Received>, was: seq<Received>, out: seq<Packet>, packets: seq<Packet>, j: nat) {
    && |cells| == |was| && j <= |packets| && |out| + j <= |cells|
    && (forall k :: |out| + j <= k < |cells| ==> cells[k] == was[k])
    && AllDelivered(cells, out + packets[..j])
  }

  lemma ProgressStart(was: seq<Received>, out: seq<Packet>, packets: seq<Packet>)
    requires AllDelivered(was, out)
    ensures Progress(was, was, out, packets, 0)
  {
    assert out + packets[..0] == out;
  }

  lemma ProgressStep(cells: seq<Received>, was: seq<Received>, out: seq<Packet>, packets: seq<Packet>, j: nat)
    requires Progress(cells, was, out, packets, j) && |out| + j < |cells| && j < |packets|
    ensures Progress(cells[|out| + j := Put(cells[|out| + j], packets[j])], was, out, packets, j + 1)
  {
    hide Put, Delivered, AllDelivered;
    DeliverNext(cells, out + packets[..j], packets[j]);
    assert out + packets[..j + 1] == out + packets[..j] + [packets[j]];
  }

  lemma ProgressRest(cells: seq<Received>, was: seq<Received>, out: seq<Packet>, packets: seq<Packet>, j: nat)
    requires Progress(cells, was, out, packets, j)
    ensures |cells| == |was| && forall k :: |out| + j <= k < |cells| ==> cells[k] == was[k]
    ensures j <= |packets| && AllDelivered(cells, (out + packets)[..|out| + j])
  {
    assert (out + packets)[..|out| + j] == out + packets[..j];
  }

  /** One round: piece `j` of message `i` becomes message `n`. */
  method DeliverPiece(msgs: seq<Msg>, i: nat, n: nat, start: nat, end: nat,
                      ghost r: Received, ghost was: seq<Received>, ghost out: seq<Packet>, ghost j: nat)
    requires Apart(msgs) && n == |out| + j <= i < |msgs| == |was| && r == was[i] && r.Ok() && r.gso.Some?
    requires At(r, j, start, end) && Progress(Cells(msgs), was, out, Packets(Pieces(r), r.addr), j)
    modifies msgs[n], msgs[n].buffer
    ensures Progress(Cells(msgs), was, out, Packets(Pieces(r), r.addr), j + 1)
  {
    hide Pieces, At, Put, AllDelivered, Progress, Buffers, Apart, Cells, Packets;
    AtPiece(r, j, start, end);
    Bounds(r, j, start, end);
    ProgressRest(Cells(msgs), was, out, Packets(Pieces(r), r.addr), j);
    ProgressStep(Cells(msgs), was, out, Packets(Pieces(r), r.addr), j);
    Deliver(msgs, n, msgs[i].buffer[start..end], msgs[i].addr);
  }

  /** The inner loop: the pieces of message `i` become the next packets. */
  method SplitOne(msgs: seq<Msg>, i: nat, at: nat, ghost out: seq<Packet>) returns (n: nat, overflow: bool)
    requires Apart(msgs) && at == |out| <= i < |msgs| && msgs[i].View().Ok() && msgs[i].n > 0 && msgs[i].gso.Some?
    requires AllDelivered(Cells(msgs), out)
    modifies msgs, Buffers(msgs)
    ensures var r := old(msgs[i].View());
            var all := out + Packets(Pieces(r), r.addr);
            && overflow == (|all| > i + 1) && n == (if overflow then i + 1 else |all|)
            && AllDelivered(Cells(msgs), all[..n])
    ensures forall k :: n <= k < |msgs| ==> Cells(msgs)[k] == old(Cells(msgs))[k]
  {
    hide Pieces, At, Put, AllDelivered, Progress, Buffers, Apart, Cells, NumToSplit, Packets;
    var msg := msgs[i];
    ghost var r, was := msg.View(), Cells(msgs);
    ghost var packets := Packets(Pieces(r), r.addr);
    AtStart(r);
    ProgressStart(was, out, packets);
    var gsoSize: nat, start: nat, end: nat, numToSplit: nat := msg.gso.value, 0, msg.n, 1;
    if gsoSize > 0 {
      numToSplit := NumToSplit(msg.n, gsoSize);
      end := gsoSize;
    }
    n := at;
    for j := 0 to numToSplit
      invariant n == at + j <= i + 1
      invariant Progress(Cells(msgs), was, out, packets, j)
      invariant n <= i && j < numToSplit ==> At(r, j, start, end)
    {
      ProgressRest(Cells(msgs), was, out, packets, j);
      if n > i {
        return n, true;
      }
      AtPiece(r, j, start, end);
      InBuffers(msgs, n);
      DeliverPiece(msgs, i, n, start, end, r, was, out, j);
      ProgressRest(Cells(msgs), was, out, packets, j + 1);
      start := end;
      end := end + gsoSize;
      if end > msg.n {
        end := msg.n;
      }
      n := n + 1;
    }
    ProgressRest(Cells(msgs), was, out, packets, numToSplit);
    overflow := false;
  }

  /** The message at which the loop stops: the first empty one. */
  function Stop(src: seq<Received>, i: nat): nat
    decreases |src| - i
  {
    if i >= |src| || src[i].n == 0 then i else Stop(src, i + 1)
  }

  /** splitCoalescedMessages: whatever the outcome, the first `n` messages are the packets of the original
      messages in order; on success, the messages that were read and not written again are empty. */
  method SplitCoalescedMessages(msgs: seq<Msg>, firstMsgAt: nat) returns (n: nat, err: SplitError)
    requires Apart(msgs) && AllOk(Cells(msgs), firstMsgAt)
    modifies msgs, Buffers(msgs)
    ensures var o := SplitFrom(old(Cells(msgs)), firstMsgAt, []);
            n == |o.packets| && err == o.err && AllDelivered(Cells(msgs), o.packets)
    ensures err == NoError ==>
              forall k :: firstMsgAt <= k < Stop(old(Cells(msgs)), firstMsgAt) && n <= k < |msgs| ==> Cells(msgs)[k].n == 0
  {
    hide Pieces, AllDelivered, Buffers, Apart, Cells, SplitFrom, Stop;
    ghost var src, out: seq<Packet> := Cells(msgs), [];
    n := 0;
    var i := firstMsgAt;
    NothingDelivered(src);
    while i < |msgs|
      invariant firstMsgAt <= i && n == |out| <= i && (i > |msgs| ==> i == firstMsgAt)
      invariant forall k :: i <= k < |msgs| ==> Cells(msgs)[k] == src[k]
      invariant AllDelivered(Cells(msgs), out)
      invariant SplitFrom(src, i, out) == SplitFrom(src, firstMsgAt, []) && Stop(src, i) == Stop(src, firstMsgAt)
      invariant forall k :: firstMsgAt <= k < i && n <= k < |msgs| ==> Cells(msgs)[k].n == 0
    {
      var msg := msgs[i];
      SplitStep(src, i, out);
      if msg.n == 0 {
        return n, NoError;
      }
      if msg.gso.None? {
        return n, BadControl;
      }
      ghost var before := Cells(msgs);
      var overflow;
      n, overflow := SplitOne(msgs, i, n, out);
      ghost var all := out + Packets(Pieces(src[i]), src[i].addr);
      out := all[..n];
      assert all[..|all|] == all;
      if overflow {
        return n, Overflow;
      }
      if i != n - 1 {
        EmptyMessage(msgs, i, out);
      }
      i := i + 1;
    }
    SplitStep(src, i, out);
    return n, NoError;
  }

  /** One step of the outer loop. */
  lemma SplitStep(src: seq<Received>, i: nat, out: seq<Packet>)
    requires AllOk(src, i)
    ensures i >= |src| || src[i].n == 0 ==> SplitFrom(src, i, out) == Outcome(out, NoError) && Stop(src, i) == i
    ensures i < |src| && src[i].n != 0 ==> Stop(src, i) == Stop(src, i + 1)
    ensures i < |src| && src[i].n != 0 && src[i].gso.None? ==> SplitFrom(src, i, out) == Outcome(out, BadControl)
    ensures i < |src| && src[i].n != 0 && src[i].gso.Some? ==>
              var all := out + Packets(Pieces(src[i]), src[i].addr);
              SplitFrom(src, i, out) == if |all| > i + 1 then Outcome(all[..i + 1], Overflow) else SplitFrom(src, i + 1, all)
  {
    hide Pieces, Packets;
  }

  method EmptyMessage(msgs: seq<Msg>, i: nat, ghost out: seq<Packet>)
    requires Apart(msgs) && |out| <= i < |msgs| && AllDelivered(Cells(msgs), out)
    modifies msgs[i]
    ensures Cells(msgs) == old(Cells(msgs))[i := old(Cells(msgs))[i].(n := 0)] && AllDelivered(Cells(msgs), out)
  {
    ghost var was := Cells(msgs);
    msgs[i].n := 0;
    forall j | 0 <= j < |msgs| && j != i ensures msgs[j].View() == was[j] {
      assert msgs[j] != msgs[i];
    }
    assert Cells(msgs) == was[i := was[i].(n := 0)];
  }

  lemma NothingDelivered(cells: seq<Received>)
    ensures AllDelivered(cells, [])
  {
  }

  // ---------- what success means ----------

  /** All packets of the messages from `i` up to `e`. */
  ghost function PacketsOf(src: seq<Received>, i: nat, e: nat): seq<Packet>
    requires AllOk(src, i) && i <= e <= |src| && AllParse(src, i, e)
    decreases e - i
  {
    if i == e then [] else Packets(Pieces(src[i]), src[i].addr) + PacketsOf(src, i + 1, e)
  }

  lemma {:induction false} StopBounds(src: seq<Received>, i: nat)
    requires i <= |src|
    ensures i <= Stop(src, i) <= |src|
    decreases |src| - i
  {
    if i < |src| && src[i].n != 0 {
      StopBounds(src, i + 1);
    }
  }

  ghost predicate AllParse(src: seq<Received>, i: nat, e: nat)
    requires e <= |src|
  {
    forall k :: i <= k < e ==> src[k].gso.Some?
  }

  /** Up to message `e`, there is a message for every packet, `before` of which came earlier. */
  ghost predicate Room(src: seq<Received>, i: nat, before: nat, e: nat)
    requires AllOk(src, i) && i <= e <= |src| && AllParse(src, i, e)
  {
    before + |PacketsOf(src, i, e)| <= e
  }

  /** Everything parses and fits. */
  ghost predicate Splittable(src: seq<Received>, i: nat, before: nat)
    requires AllOk(src, i) && i <= Stop(src, i) <= |src|
  {
    && AllParse(src, i, Stop(src, i))
    && forall e {:trigger Room(src, i, before, e)} :: i <= e <= Stop(src, i) ==> Room(src, i, before, e)
  }

  lemma RoomStep(src: seq<Received>, i: nat, before: nat, e: nat)
    requires AllOk(src, i) && i < e <= |src| && AllParse(src, i, e)
    ensures Room(src, i, before, e) == Room(src, i + 1, before + |Pieces(src[i])|, e)
  {
    hide Pieces;
  }

  lemma SplittableStep(src: seq<Received>, i: nat, before: nat)
    requires AllOk(src, i) && i < |src| && src[i].n != 0 && src[i].gso.Some? && before <= i
    requires i + 1 <= Stop(src, i) == Stop(src, i + 1) <= |src|
    ensures Splittable(src, i, before) <==> before + |Pieces(src[i])| <= i + 1 && Splittable(src, i + 1, before + |Pieces(src[i])|)
  {
    hide Pieces, Room;
    var stop, i', next := Stop(src, i), i + 1, before + |Pieces(src[i])|;
    if AllParse(src, i, stop) {
      forall e | i' <= e <= stop ensures Room(src, i, before, e) == Room(src, i', next, e) {
        RoomStep(src, i, before, e);
      }
      RoomEmpty(src, i, before);
      RoomEmpty(src, i + 1, next);
      if Splittable(src, i, before) {
        assert Room(src, i, before, i + 1);
        forall e | i' <= e <= stop ensures Room(src, i', next, e) {
          assert Room(src, i, before, e);
        }
      }
      if next <= i + 1 && Splittable(src, i + 1, next) {
        forall e | i <= e <= stop ensures Room(src, i, before, e) {
          assert e > i ==> Room(src, i', next, e);
        }
      }
    }
  }

  lemma RoomEmpty(src: seq<Received>, i: nat, before: nat)
    requires AllOk(src, i) && i <= |src|
    ensures AllParse(src, i, i) && Room(src, i, before, i) == (before <= i)
  {
  }

  /** Splitting succeeds exactly when every message up to the first empty one parses and at no message have
      more packets come out than messages gone in (counting those before the first); then the packets are
      those of all these messages, in order. */
  lemma {:induction false} SplitSucceeds(src: seq<Received>, i: nat, out: seq<Packet>)
    requires AllOk(src, i) && i <= |src| && |out| <= i
    ensures i <= Stop(src, i) <= |src|
    ensures SplitFrom(src, i, out).err == NoError <==> Splittable(src, i, |out|)
    ensures SplitFrom(src, i, out).err == NoError ==> SplitFrom(src, i, out).packets == out + PacketsOf(src, i, Stop(src, i))
    decreases |src| - i
  {
    hide Pieces, Splittable, Room;
    StopBounds(src, i);
    if i < |src| && src[i].n != 0 {
      StopBounds(src, i + 1);
      SplitsParse(src, i, |out|);
      if src[i].gso.Some? {
        SplittableStep(src, i, |out|);
        var here := Packets(Pieces(src[i]), src[i].addr);
        assert |out + here| == |out| + |Pieces(src[i])|;
        if |out + here| <= i + 1 {
          SplitSucceeds(src, i + 1, out + here);
          SplitsParse(src, i + 1, |out + here|);
          assert SplitFrom(src, i, out) == SplitFrom(src, i + 1, out + here);
          if Splittable(src, i, |out|) {
            assert out + here + PacketsOf(src, i + 1, Stop(src, i)) == out + (here + PacketsOf(src, i + 1, Stop(src, i)));
          }
        }
      }
    } else {
      SplittableAtStop(src, i, |out|);
    }
  }

  /** Message `e` is the first that does not parse, or whose packets do not fit. */
  ghost predicate FailsAt(src: seq<Received>, i: nat, before: nat, e: nat)
    requires AllOk(src, i)
  {
    && i <= e < Stop(src, i) <= |src| && AllParse(src, i, e)
    && (forall k {:trigger Room(src, i, before, k)} :: i <= k <= e ==> Room(src, i, before, k))
    && (src[e].gso.Some? ==> AllParse(src, i, e + 1) && !Room(src, i, before, e + 1))
  }

  lemma FailsStep(src: seq<Received>, i: nat, before: nat, e: nat)
    requires AllOk(src, i) && FailsAt(src, i, before, e) && i < e && src[i].n != 0
    ensures src[i].gso.Some? && before + |Pieces(src[i])| <= i + 1 && FailsAt(src, i + 1, before + |Pieces(src[i])|, e)
  {
    hide Pieces;
    var next := before + |Pieces(src[i])|;
    assert Room(src, i, before, i + 1);
    RoomStep(src, i, before, i + 1);
    RoomEmpty(src, i + 1, next);
    hide Room;
    forall k {:trigger Room(src, i + 1, next, k)} | i + 1 <= k <= e ensures Room(src, i + 1, next, k) {
      RoomStep(src, i, before, k);
      assert Room(src, i, before, k);
    }
    if src[e].gso.Some? {
      RoomStep(src, i, before, e + 1);
    }
  }

  /** The first message that does not parse or does not fit decides the error; the packets before it are delivered, and
      those of its own that fit. */
  lemma {:induction false} SplitFails(src: seq<Received>, i: nat, out: seq<Packet>, e: nat)
    requires AllOk(src, i) && |out| <= i && FailsAt(src, i, |out|, e)
    ensures SplitFrom(src, i, out).err == (if src[e].gso.None? then BadControl else Overflow)
    ensures src[e].gso.None? ==> SplitFrom(src, i, out).packets == out + PacketsOf(src, i, e)
    ensures src[e].gso.Some? ==> SplitFrom(src, i, out).packets == (out + PacketsOf(src, i, e + 1))[..e + 1]
    decreases e - i
  {
    hide Pieces, Room, PacketsOf, SplitFrom;
    SplitStep(src, i, out);
    if i < e {
      FailsStep(src, i, |out|, e);
      hide FailsAt;
      var here := Packets(Pieces(src[i]), src[i].addr);
      assert |out + here| == |out| + |Pieces(src[i])|;
      SplitFails(src, i + 1, out + here, e);
      PacketsStep(src, i, e);
      assert out + here + PacketsOf(src, i + 1, e) == out + (here + PacketsOf(src, i + 1, e));
      if src[e].gso.Some? {
        PacketsStep(src, i, e + 1);
        assert out + here + PacketsOf(src, i + 1, e + 1) == out + (here + PacketsOf(src, i + 1, e + 1));
      }
    } else if src[e].gso.Some? {
      RoomStep(src, i, |out|, i + 1);
      RoomEmpty(src, i + 1, |out| + |Pieces(src[i])|);
      PacketsStep(src, i, i + 1);
      PacketsNone(src, i + 1);
    } else {
      PacketsNone(src, i);
    }
  }

  lemma PacketsStep(src: seq<Received>, i: nat, e: nat)
    requires AllOk(src, i) && i < e <= |src| && AllParse(src, i, e)
    ensures PacketsOf(src, i, e) == Packets(Pieces(src[i]), src[i].addr) + PacketsOf(src, i + 1, e)
  {
    hide Pieces, Packets;
  }

  lemma PacketsNone(src: seq<Received>, i: nat)
    requires AllOk(src, i) && i <= |src|
    ensures AllParse(src, i, i) && PacketsOf(src, i, i) == []
  {
  }

  lemma SplittableAtStop(src: seq<Received>, i: nat, before: nat)
    requires AllOk(src, i) && i <= |src| && Stop(src, i) == i && before <= i
    ensures Splittable(src, i, before)
  {
    RoomEmpty(src, i, before);
  }

  lemma SplitsParse(src: seq<Received>, i: nat, before: nat)
    requires AllOk(src, i) && i <= Stop(src, i) <= |src|
    ensures Splittable(src, i, before) ==> AllParse(src, i, Stop(src, i))
  {
  }

  /** The datagrams the kernel put together in the messages from `i` up to `e`. */
  ghost function DatagramsOf(src: seq<Received>, i: nat, e: nat): seq<Packet>
    requires AllOk(src, i) && i <= e <= |src| && AllParse(src, i, e)
    decreases e - i
  {
    if i == e then [] else Packets(Segments(src[i].buf[..src[i].n], src[i].gso.value), src[i].addr) + DatagramsOf(src, i + 1, e)
  }

  /** No segmentation size exceeds the length of its message. */
  ghost predicate SizesFit(src: seq<Received>, i: nat, e: nat)
    requires i <= e <= |src| && AllParse(src, i, e)
  {
    forall k :: i <= k < e ==> src[k].gso.value <= src[k].n
  }

  lemma SizesFitNone(src: seq<Received>, i: nat)
    requires i <= |src|
    ensures AllParse(src, i, i) && SizesFit(src, i, i)
  {
  }

  lemma SizesFitStep(src: seq<Received>, i: nat, e: nat)
    requires i < e <= |src| && AllParse(src, i, e)
    ensures SizesFit(src, i, e) <==> src[i].gso.value <= src[i].n && SizesFit(src, i + 1, e)
  {
  }

  lemma SamePackets(r: Received)
    requires r.Ok() && r.gso.Some?
    ensures var a, b := Packets(Pieces(r), r.addr), Packets(Segments(r.buf[..r.n], r.gso.value), r.addr);
            |a| == |b| && (a == b <==> r.gso.value <= r.n)
  {
    PiecesAreSegments(r);
    var p, q := Pieces(r), Segments(r.buf[..r.n], r.gso.value);
    if Packets(p, r.addr) == Packets(q, r.addr) {
      forall k | 0 <= k < |p| ensures p[k] == q[k] {
        assert Packets(p, r.addr)[k] == Packets(q, r.addr)[k];
      }
      assert p == q;
    }
  }

  lemma SplitEqual<T>(a: seq<T>, b: seq<T>, c: seq<T>, d: seq<T>)
    requires |a| == |c|
    ensures a + b == c + d <==> a == c && b == d
  {
    if a + b == c + d {
      assert a == (a + b)[..|a|] && c == (c + d)[..|a|] && b == (a + b)[|a|..] && d == (c + d)[|a|..];
    }
  }

  /** The packets of the messages are their datagrams, in order, if and only if no segmentation size exceeds the
      length of its message. */
  lemma {:induction false} PacketsAreDatagrams(src: seq<Received>, i: nat, e: nat)
    requires AllOk(src, i) && i <= e <= |src| && AllParse(src, i, e)
    ensures PacketsOf(src, i, e) == DatagramsOf(src, i, e) <==> SizesFit(src, i, e)
    decreases e - i
  {
    hide Pieces, Segments, Packets, SizesFit;
    if i < e {
      var r := src[i];
      var a, b := Packets(Pieces(r), r.addr), Packets(Segments(r.buf[..r.n], r.gso.value), r.addr);
      assert PacketsOf(src, i, e) == a + PacketsOf(src, i + 1, e) && DatagramsOf(src, i, e) == b + DatagramsOf(src, i + 1, e);
      SizesFitStep(src, i, e);
      SamePackets(r);
      PacketsAreDatagrams(src, i + 1, e);
      SplitEqual(a, PacketsOf(src, i + 1, e), b, DatagramsOf(src, i + 1, e));
    } else {
      SizesFitNone(src, i);
    }
  }

  /** A successful split returns exactly the datagrams the kernel had put together, in order, if and only if no
      segmentation size exceeds the length of its message. */
  lemma SplitUndoesCoalescing(src: seq<Received>, i: nat)
    requires AllOk(src, i) && i <= |src| && SplitFrom(src, i, []).err == NoError
    ensures i <= Stop(src, i) <= |src| && AllParse(src, i, Stop(src, i))
    ensures SplitFrom(src, i, []).packets == DatagramsOf(src, i, Stop(src, i))
       <==> SizesFit(src, i, Stop(src, i))
  {
    hide SplitFrom, Splittable;
    SplitSucceeds(src, i, []);
    SplitsParse(src, i, 0);
    PacketsAreDatagrams(src, i, Stop(src, i));
    assert [] + PacketsOf(src, i, Stop(src, i)) == PacketsOf(src, i, Stop(src, i));
  }
}
