/**
 * Flow control of one relay direction, on values: per-stream output buffers
 * behind a stream window and the shared connection window. Every function here
 * is what one critical section under the relay's flow mutex does.
 */
module RelayFlow {
  import opened Bytes
  import opened H2Frames

  const DEFAULT_WINDOW := 65535

  datatype OutputBuffer = OutputBuffer(windowSize: int, queue: seq<QueuedFrame>)

  /**
   * The fields the flow mutex guards. `output` is the whole history of the output
   * channel: the frames already released for sending, in order.
   */
  datatype Flow = Flow(
    initial: nat,
    conn: int,
    buffers: map<StreamId, OutputBuffer>,
    output: seq<QueuedFrame>
  )

  const INITIAL_FLOW := Flow(DEFAULT_WINDOW, DEFAULT_WINDOW, map[], [])

  // ----- sizes and projections of frame sequences

  function FlowBytes(fs: seq<QueuedFrame>): nat {
    if fs == [] then 0 else fs[0].FlowControlSize() + FlowBytes(fs[1..])
  }

  lemma {:induction false} FlowBytesConcat(a: seq<QueuedFrame>, b: seq<QueuedFrame>)
    ensures FlowBytes(a + b) == FlowBytes(a) + FlowBytes(b)
  {
    if a == [] {
      assert a + b == b;
    } else {
      assert (a + b)[1..] == a[1..] + b;
      FlowBytesConcat(a[1..], b);
    }
  }

  /** The DATA octets carried by a sequence of frames. */
  function DataBytes(fs: seq<QueuedFrame>): bytes {
    if fs == [] then [] else (if fs[0].QueuedData? then fs[0].data else []) + DataBytes(fs[1..])
  }

  lemma {:induction false} DataBytesConcat(a: seq<QueuedFrame>, b: seq<QueuedFrame>)
    ensures DataBytes(a + b) == DataBytes(a) + DataBytes(b)
  {
    if a == [] {
      assert a + b == b;
    } else {
      assert (a + b)[1..] == a[1..] + b;
      DataBytesConcat(a[1..], b);
    }
  }

  /** The frames of one stream, in order. */
  function OfStream(fs: seq<QueuedFrame>, id: StreamId): seq<QueuedFrame> {
    if fs == [] then []
    else (if fs[0].id == id then [fs[0]] else []) + OfStream(fs[1..], id)
  }

  lemma {:induction false} OfStreamConcat(a: seq<QueuedFrame>, b: seq<QueuedFrame>, id: StreamId)
    ensures OfStream(a + b, id) == OfStream(a, id) + OfStream(b, id)
  {
    if a == [] {
      assert a + b == b;
    } else {
      assert (a + b)[1..] == a[1..] + b;
      OfStreamConcat(a[1..], b, id);
      ConcatAssoc(if a[0].id == id then [a[0]] else [], OfStream(a[1..], id), OfStream(b, id));
    }
  }

  predicate AllOf(fs: seq<QueuedFrame>, id: StreamId) {
    forall i :: 0 <= i < |fs| ==> fs[i].id == id
  }

  lemma {:induction false} OfStreamOwn(fs: seq<QueuedFrame>, id: StreamId, other: StreamId)
    requires AllOf(fs, id)
    ensures OfStream(fs, other) == if other == id then fs else []
  {
    if fs == [] {
    } else {
      OfStreamOwn(fs[1..], id, other);
    }
  }

  // ----- emitting the eligible frames of one buffer

  predicate Eligible(f: QueuedFrame, window: int, conn: int) {
    f.FlowControlSize() <= conn && f.FlowControlSize() <= window
  }

  /** Nothing can be released: the queue is empty or its head exceeds a window. */
  predicate Blocked(w: OutputBuffer, conn: int) {
    w.queue != [] ==> !Eligible(w.queue[0], w.windowSize, conn)
  }

  datatype Emission = Emission(buffer: OutputBuffer, conn: int, out: seq<QueuedFrame>)

  /** How many frames at the front of a queue can be released one after the other. */
  function EligibleCount(queue: seq<QueuedFrame>, window: int, conn: int): (k: nat)
    ensures k <= |queue|
  {
    if queue == [] || !Eligible(queue[0], window, conn) then 0
    else
      var size := queue[0].FlowControlSize();
      1 + EligibleCount(queue[1..], window - size, conn - size)
  }

  /** emitEligibleFrames: the released frames leave the queue and are paid for by both windows. */
  function Emit(w: OutputBuffer, conn: int): Emission {
    var k := EligibleCount(w.queue, w.windowSize, conn);
    var size := FlowBytes(w.queue[..k]);
    Emission(OutputBuffer(w.windowSize - size, w.queue[k..]), conn - size, w.queue[..k])
  }

  /** Both windows cover what is released, and the frame left in front does not fit. */
  lemma {:induction false} EligibleCountFits(queue: seq<QueuedFrame>, window: int, conn: int)
    ensures var k := EligibleCount(queue, window, conn);
      && (k > 0 ==> FlowBytes(queue[..k]) <= window && FlowBytes(queue[..k]) <= conn)
      && (k < |queue| ==> !Eligible(queue[k], window - FlowBytes(queue[..k]), conn - FlowBytes(queue[..k])))
  {
    if queue == [] || !Eligible(queue[0], window, conn) {
    } else {
      var size := queue[0].FlowControlSize();
      var k := EligibleCount(queue, window, conn);
      EligibleCountFits(queue[1..], window - size, conn - size);
      assert queue[..k][1..] == queue[1..][..k-1];
    }
  }

  lemma EmitMeaning(w: OutputBuffer, conn: int)
    ensures var r := Emit(w, conn);
      && r.out + r.buffer.queue == w.queue
      && r.conn == conn - FlowBytes(r.out)
      && r.buffer.windowSize == w.windowSize - FlowBytes(r.out)
      && (r.out != [] ==> r.conn >= 0 && r.buffer.windowSize >= 0)
      && Blocked(r.buffer, r.conn)
  {
    EligibleCountFits(w.queue, w.windowSize, conn);
  }

  lemma {:induction false} FlowBytesPrefix(queue: seq<QueuedFrame>, i: nat, j: nat)
    requires i <= j <= |queue|
    ensures FlowBytes(queue[..i]) <= FlowBytes(queue[..j])
  {
    assert queue[..j] == queue[..i] + queue[i..j];
    FlowBytesConcat(queue[..i], queue[i..j]);
  }

  /**
   * What is released is the longest prefix of the queue whose total size fits
   * both windows: no shorter one, and no frame is skipped or overtaken.
   */
  lemma EmitLongestPrefix(w: OutputBuffer, conn: int, k: nat)
    requires k <= |w.queue|
    ensures k <= |Emit(w, conn).out| <==> k == 0 || FlowBytes(w.queue[..k]) <= Min(w.windowSize, conn)
  {
    var n := EligibleCount(w.queue, w.windowSize, conn);
    EligibleCountFits(w.queue, w.windowSize, conn);
    if k <= n {
      FlowBytesPrefix(w.queue, k, n);
    } else {
      FlowBytesPrefix(w.queue, n + 1, k);
      assert w.queue[..n+1] == w.queue[..n] + [w.queue[n]];
      FlowBytesConcat(w.queue[..n], [w.queue[n]]);
    }
  }

  // ----- the critical sections

  /** outputBuffer: find the stream's buffer, creating it at the current initial size. */
  function Open(s: Flow, id: StreamId): Flow {
    if id in s.buffers then s else s.(buffers := s.buffers[id := OutputBuffer(s.initial, [])])
  }

  function EmitAt(s: Flow, id: StreamId): Flow
    requires id in s.buffers
  {
    var e := Emit(s.buffers[id], s.conn);
    s.(conn := e.conn, buffers := s.buffers[id := e.buffer], output := s.output + e.out)
  }

  function Push(s: Flow, f: QueuedFrame): Flow {
    var o := Open(s, f.id);
    var w := o.buffers[f.id];
    o.(buffers := o.buffers[f.id := w.(queue := w.queue + [f])])
  }

  /** enqueueFrame, and one round of the loop of data. */
  function Enqueue(s: Flow, f: QueuedFrame): Flow {
    EmitAt(Push(s, f), f.id)
  }

  function Grant(s: Flow, id: StreamId, increment: nat): Flow {
    var o := Open(s, id);
    var w := o.buffers[id];
    o.(buffers := o.buffers[id := w.(windowSize := w.windowSize + increment)])
  }

  /** The stream-level part of updateWindow; it also runs for stream 0. */
  function CreditStream(s: Flow, id: StreamId, increment: nat): Flow {
    EmitAt(Grant(s, id, increment), id)
  }

  /** The connection-level part of updateWindow, before its sweep. */
  function CreditConn(s: Flow, increment: nat): Flow {
    s.(conn := s.conn + increment)
  }

  /** updateInitialWindowSize before its sweep: every open stream moves by the difference. */
  function SetInitial(s: Flow, v: nat): Flow {
    s.(initial := v,
       buffers := map id | id in s.buffers :: s.buffers[id].(windowSize := s.buffers[id].windowSize + v - s.initial))
  }

  /** An order in which a range over the buffer map may visit the keys. */
  ghost predicate IsOrder(order: seq<StreamId>, keys: set<StreamId>) {
    && (forall id :: id in order <==> id in keys)
    && (forall i, j :: 0 <= i < j < |order| ==> order[i] != order[j])
  }

  /** sendQueuedFramesUnderWindowSize, for one iteration order of the map. */
  function Sweep(s: Flow, order: seq<StreamId>): (r: Flow)
    requires forall id :: id in order ==> id in s.buffers
    ensures r.buffers.Keys == s.buffers.Keys
    decreases |order|
  {
    if order == [] then s
    else
      var t := EmitAt(s, order[0]);
      assert order[0] in order;
      assert forall id :: id in order[1..] ==> id in order;
      Sweep(t, order[1..])
  }

  // ----- splitting DATA to the peer's frame size

  function ChunkLength(data: bytes, max: nat): (n: nat)
    ensures n <= |data|
  {
    if |data| > max then max else |data|
  }

  /** The frame the next round of the loop of data enqueues. */
  function NextChunk(id: StreamId, data: bytes, ended: bool, max: nat): QueuedFrame {
    var n := ChunkLength(data, max);
    QueuedData(id, ended && n == |data|, data[..n])
  }

  /** The frames one call of data enqueues, if it ends. */
  function DataFrames(id: StreamId, data: bytes, ended: bool, max: nat): seq<QueuedFrame>
    decreases |data|
  {
    [NextChunk(id, data, ended, max)]
    + if |data| <= max || max == 0 then [] else DataFrames(id, data[max..], ended, max)
  }

  /** The split keeps every octet in order. */
  lemma {:induction false} DataFramesCarry(id: StreamId, data: bytes, ended: bool, max: nat)
    requires max > 0
    ensures DataBytes(DataFrames(id, data, ended, max)) == data
    decreases |data|
  {
    var head := NextChunk(id, data, ended, max);
    assert [head][1..] == [];
    if |data| <= max {
      assert DataFrames(id, data, ended, max) == [head];
    } else {
      DataFramesCarry(id, data[max..], ended, max);
      var tail := DataFrames(id, data[max..], ended, max);
      DataBytesConcat([head], tail);
      assert DataFrames(id, data, ended, max) == [head] + tail && DataBytes([head]) == data[..max];
      assert data == data[..max] + data[max..];
    }
  }

  /**
   * The split fills every frame but the last, never exceeds the frame size, and
   * marks END_STREAM on the last frame only.
   */
  lemma {:induction false} DataFramesShape(id: StreamId, data: bytes, ended: bool, max: nat)
    requires max > 0
    ensures var fs := DataFrames(id, data, ended, max);
      && fs != []
      && (forall i :: 0 <= i < |fs| ==> fs[i].QueuedData? && fs[i].id == id && |fs[i].data| <= max)
      && (forall i :: 0 <= i < |fs| - 1 ==> |fs[i].data| == max && !fs[i].endStream)
      && fs[|fs|-1].endStream == ended
    decreases |data|
  {
    if |data| <= max {
    } else {
      DataFramesShape(id, data[max..], ended, max);
    }
  }

  /** The loop of data ends. */
  predicate LoopEnds(data: bytes, max: nat) {
    max > 0 || data == []
  }

  /** What the first `rounds` rounds of the loop enqueue. */
  function FirstFrames(id: StreamId, data: bytes, ended: bool, max: nat, rounds: nat): seq<QueuedFrame>
    decreases rounds
  {
    if rounds == 0 then []
    else
      var rest := data[ChunkLength(data, max)..];
      [NextChunk(id, data, ended, max)] + if rest == [] then [] else FirstFrames(id, rest, ended, max, rounds - 1)
  }

  /** The loop is over within `rounds` rounds. */
  predicate EndsWithin(data: bytes, max: nat, rounds: nat)
    decreases rounds
  {
    rounds > 0 && var rest := data[ChunkLength(data, max)..]; rest == [] || EndsWithin(rest, max, rounds - 1)
  }

  lemma PrefixCons<T>(x: T, s: seq<T>, n: nat)
    ensures ([x] + s)[..Min(1 + |s|, n + 1)] == [x] + s[..Min(|s|, n)]
  {
  }

  /** A loop that ends takes one round per frame, and has enqueued them in order after any number of rounds. */
  lemma {:induction false} RoundsOfEndingLoop(id: StreamId, data: bytes, ended: bool, max: nat, rounds: nat)
    requires LoopEnds(data, max)
    ensures var fs := DataFrames(id, data, ended, max);
      && (EndsWithin(data, max, rounds) <==> |fs| <= rounds)
      && FirstFrames(id, data, ended, max, rounds) == fs[..Min(|fs|, rounds)]
    decreases rounds
  {
    var head := NextChunk(id, data, ended, max);
    if rounds == 0 {
    } else if |data| <= max {
      assert data[|data|..] == [];
      assert FirstFrames(id, data, ended, max, rounds) == [head] == DataFrames(id, data, ended, max);
    } else {
      var tail := DataFrames(id, data[max..], ended, max);
      RoundsOfEndingLoop(id, data[max..], ended, max, rounds - 1);
      assert FirstFrames(id, data, ended, max, rounds) == [head] + FirstFrames(id, data[max..], ended, max, rounds - 1);
      PrefixCons(head, tail, rounds - 1);
    }
  }

  /** Any other loop is not over after any number of rounds, and enqueues an empty frame in each. */
  lemma {:induction false} RoundsOfEndlessLoop(id: StreamId, data: bytes, ended: bool, max: nat, rounds: nat)
    requires !LoopEnds(data, max)
    ensures !EndsWithin(data, max, rounds)
    ensures FirstFrames(id, data, ended, max, rounds) == seq(rounds, _ => QueuedData(id, false, []))
    decreases rounds
  {
    if rounds == 0 {
    } else {
      assert data[0..] == data;
      RoundsOfEndlessLoop(id, data, ended, max, rounds - 1);
    }
  }

  // ----- work conservation

  /** No stream has a frame that both windows would let through. */
  ghost predicate Conserving(s: Flow) {
    forall id :: id in s.buffers ==> Blocked(s.buffers[id], s.conn)
  }

  /** Emitting for one stream blocks it and leaves every other blocked stream blocked. */
  lemma EmitAtBlocks(s: Flow, id: StreamId)
    requires id in s.buffers
    ensures Blocked(EmitAt(s, id).buffers[id], EmitAt(s, id).conn)
    ensures EmitAt(s, id).conn <= s.conn
    ensures forall other :: other in s.buffers && other != id ==> EmitAt(s, id).buffers[other] == s.buffers[other]
    ensures forall other :: other in s.buffers && Blocked(s.buffers[other], s.conn)
              ==> Blocked(EmitAt(s, id).buffers[other], EmitAt(s, id).conn)
  {
    EmitMeaning(s.buffers[id], s.conn);
  }

  /** A sweep blocks every stream it visits, whatever the order. */
  lemma {:induction false} SweepBlocks(s: Flow, order: seq<StreamId>)
    requires forall id :: id in order ==> id in s.buffers
    ensures forall id :: id in s.buffers && (id in order || Blocked(s.buffers[id], s.conn))
              ==> Blocked(Sweep(s, order).buffers[id], Sweep(s, order).conn)
    decreases |order|
  {
    if order == [] {
    } else {
      var t := EmitAt(s, order[0]);
      assert order[0] in order;
      assert forall id :: id in order[1..] ==> id in order;
      assert forall id :: id in order ==> id == order[0] || id in order[1..];
      EmitAtBlocks(s, order[0]);
      SweepBlocks(t, order[1..]);
    }
  }

  lemma SweepConserves(s: Flow, order: seq<StreamId>)
    requires IsOrder(order, s.buffers.Keys)
    ensures Conserving(Sweep(s, order))
  {
    SweepBlocks(s, order);
  }

  /** Emitting for the one stream that may have become eligible is enough. */
  lemma EmitAtConserves(s: Flow, id: StreamId)
    requires id in s.buffers
    requires forall other :: other in s.buffers && other != id ==> Blocked(s.buffers[other], s.conn)
    ensures Conserving(EmitAt(s, id))
  {
    EmitAtBlocks(s, id);
  }

  /** Enqueueing looks at one stream only and still leaves no stream with an eligible head. */
  lemma EnqueueConserves(s: Flow, f: QueuedFrame)
    requires Conserving(s)
    ensures Conserving(Enqueue(s, f))
  {
    var p := Push(s, f);
    assert forall other :: other in p.buffers && other != f.id ==> p.buffers[other] == s.buffers[other];
    EmitAtConserves(p, f.id);
  }

  /** The same for a window update of one stream. */
  lemma CreditStreamConserves(s: Flow, id: StreamId, increment: nat)
    requires Conserving(s)
    ensures Conserving(CreditStream(s, id, increment))
  {
    var p := Grant(s, id, increment);
    assert forall other :: other in p.buffers && other != id ==> p.buffers[other] == s.buffers[other];
    EmitAtConserves(p, id);
  }

  lemma OpenConserves(s: Flow, id: StreamId)
    requires Conserving(s)
    ensures Conserving(Open(s, id))
  {
  }

  // ----- ledgers of one stream and of the connection

  function QueueOf(s: Flow, id: StreamId): seq<QueuedFrame> {
    if id in s.buffers then s.buffers[id].queue else []
  }

  /**
   * The books of stream `id` balance, given the `credit` its window updates have
   * granted so far and the frames that were `entered` for it so far.
   */
  ghost predicate StreamBalanced(s: Flow, id: StreamId, credit: nat, entered: seq<QueuedFrame>) {
    && OfStream(s.output, id) + QueueOf(s, id) == entered
    && AllOf(QueueOf(s, id), id)
    && (if id in s.buffers then
          s.buffers[id].windowSize == s.initial + credit - FlowBytes(OfStream(s.output, id))
        else
          credit == 0 && OfStream(s.output, id) == [])
  }

  /** The books of the connection balance, and its window is not overdrawn. */
  ghost predicate ConnBalanced(s: Flow, credit: nat) {
    s.conn == DEFAULT_WINDOW + credit - FlowBytes(s.output) && s.conn >= 0
  }

  lemma OpenBalanced(s: Flow, i: StreamId, id: StreamId, credit: nat, entered: seq<QueuedFrame>)
    requires StreamBalanced(s, id, credit, entered)
    ensures StreamBalanced(Open(s, i), id, credit, entered)
  {
  }

  lemma PushBalanced(s: Flow, f: QueuedFrame, id: StreamId, credit: nat, entered: seq<QueuedFrame>)
    requires StreamBalanced(s, id, credit, entered)
    ensures StreamBalanced(Push(s, f), id, credit, entered + OfStream([f], id))
  {
    OpenBalanced(s, f.id, id, credit, entered);
    OfStreamOwn([f], f.id, id);
    if id == f.id {
      var o := Open(s, f.id);
      ConcatAssoc(OfStream(o.output, id), QueueOf(o, id), [f]);
      assert QueueOf(Push(s, f), id) == QueueOf(o, id) + [f];
    } else {
      assert entered + [] == entered;
    }
  }

  lemma GrantBalanced(s: Flow, i: StreamId, increment: nat, id: StreamId, credit: nat, entered: seq<QueuedFrame>)
    requires StreamBalanced(s, id, credit, entered)
    ensures StreamBalanced(Grant(s, i, increment), id, credit + (if id == i then increment else 0), entered)
  {
    OpenBalanced(s, i, id, credit, entered);
  }

  lemma SetInitialBalanced(s: Flow, v: nat, id: StreamId, credit: nat, entered: seq<QueuedFrame>)
    requires StreamBalanced(s, id, credit, entered)
    ensures StreamBalanced(SetInitial(s, v), id, credit, entered)
  {
  }

  lemma EmitKeepsOwner(w: OutputBuffer, conn: int, i: StreamId)
    requires AllOf(w.queue, i)
    ensures AllOf(Emit(w, conn).out, i) && AllOf(Emit(w, conn).buffer.queue, i)
  {
  }

  /** Emitting for stream `i` releases frames of stream `i` only. */
  lemma EmitAtOutput(s: Flow, i: StreamId, id: StreamId)
    requires i in s.buffers && AllOf(s.buffers[i].queue, i)
    ensures OfStream(EmitAt(s, i).output, id)
         == OfStream(s.output, id) + if id == i then Emit(s.buffers[i], s.conn).out else []
  {
    var e := Emit(s.buffers[i], s.conn);
    EmitKeepsOwner(s.buffers[i], s.conn, i);
    OfStreamConcat(s.output, e.out, id);
    OfStreamOwn(e.out, i, id);
  }

  /** Moving `out` from the queue to the output, at the expense of the window, keeps the balance. */
  lemma MoveBalanced(
      sent: seq<QueuedFrame>, out: seq<QueuedFrame>, rest: seq<QueuedFrame>,
      queue: seq<QueuedFrame>, entered: seq<QueuedFrame>)
    requires out + rest == queue && sent + queue == entered
    ensures sent + out + rest == entered
    ensures FlowBytes(sent + out) == FlowBytes(sent) + FlowBytes(out)
  {
    FlowBytesConcat(sent, out);
  }

  lemma BalancedAfterMove(
      t: Flow, i: StreamId, credit: nat, entered: seq<QueuedFrame>,
      sent: seq<QueuedFrame>, out: seq<QueuedFrame>, window: int, queue: seq<QueuedFrame>)
    requires i in t.buffers && OfStream(t.output, i) == sent + out
    requires t.buffers[i].windowSize == window - FlowBytes(out) && AllOf(t.buffers[i].queue, i)
    requires out + t.buffers[i].queue == queue && sent + queue == entered
    requires window == t.initial + credit - FlowBytes(sent)
    ensures StreamBalanced(t, i, credit, entered)
  {
    MoveBalanced(sent, out, t.buffers[i].queue, queue, entered);
  }

  lemma EmitAtBalancedOwn(s: Flow, i: StreamId, credit: nat, entered: seq<QueuedFrame>)
    requires i in s.buffers
    requires StreamBalanced(s, i, credit, entered)
    ensures StreamBalanced(EmitAt(s, i), i, credit, entered)
  {
    var w := s.buffers[i];
    EmitAtOutput(s, i, i);
    EmitKeepsOwner(w, s.conn, i);
    EmitMeaning(w, s.conn);
    BalancedAfterMove(EmitAt(s, i), i, credit, entered,
                      OfStream(s.output, i), Emit(w, s.conn).out, w.windowSize, w.queue);
  }

  lemma EmitAtBalanced(s: Flow, i: StreamId, id: StreamId, credit: nat, entered: seq<QueuedFrame>)
    requires i in s.buffers && AllOf(s.buffers[i].queue, i)
    requires StreamBalanced(s, id, credit, entered)
    ensures StreamBalanced(EmitAt(s, i), id, credit, entered)
  {
    if id == i {
      EmitAtBalancedOwn(s, i, credit, entered);
    } else {
      EmitAtOutput(s, i, id);
      assert OfStream(s.output, id) + [] == OfStream(s.output, id);
    }
  }

  lemma EmitAtConnBalanced(s: Flow, i: StreamId, credit: nat)
    requires i in s.buffers
    requires ConnBalanced(s, credit)
    ensures ConnBalanced(EmitAt(s, i), credit)
  {
    var e := Emit(s.buffers[i], s.conn);
    EmitMeaning(s.buffers[i], s.conn);
    FlowBytesConcat(s.output, e.out);
  }

  ghost predicate OwnQueues(s: Flow) {
    forall id :: id in s.buffers ==> AllOf(s.buffers[id].queue, id)
  }

  lemma EmitAtOwnQueues(s: Flow, i: StreamId)
    requires i in s.buffers && OwnQueues(s)
    ensures OwnQueues(EmitAt(s, i))
  {
    EmitKeepsOwner(s.buffers[i], s.conn, i);
  }

  lemma {:induction false} SweepBalanced(
      s: Flow, order: seq<StreamId>, id: StreamId, credit: nat, entered: seq<QueuedFrame>)
    requires forall i :: i in order ==> i in s.buffers
    requires OwnQueues(s)
    requires StreamBalanced(s, id, credit, entered)
    ensures StreamBalanced(Sweep(s, order), id, credit, entered)
    decreases |order|
  {
    if order == [] {
    } else {
      assert order[0] in order;
      assert forall i :: i in order[1..] ==> i in order;
      EmitAtBalanced(s, order[0], id, credit, entered);
      EmitAtOwnQueues(s, order[0]);
      SweepBalanced(EmitAt(s, order[0]), order[1..], id, credit, entered);
    }
  }

  lemma {:induction false} SweepConnBalanced(s: Flow, order: seq<StreamId>, credit: nat)
    requires forall i :: i in order ==> i in s.buffers
    requires ConnBalanced(s, credit)
    ensures ConnBalanced(Sweep(s, order), credit)
    decreases |order|
  {
    if order == [] {
    } else {
      assert order[0] in order;
      assert forall i :: i in order[1..] ==> i in order;
      EmitAtConnBalanced(s, order[0], credit);
      SweepConnBalanced(EmitAt(s, order[0]), order[1..], credit);
    }
  }

  // ----- nothing is released into a stream window that does not cover it

  /** If anything was released for `id` between `s` and `t`, its window still covers it in `t`. */
  ghost predicate WindowRespected(s: Flow, t: Flow, id: StreamId) {
    OfStream(t.output, id) != OfStream(s.output, id) ==> id in t.buffers && t.buffers[id].windowSize >= 0
  }

  lemma EmitAtRespects(s: Flow, i: StreamId, id: StreamId)
    requires i in s.buffers && AllOf(s.buffers[i].queue, i)
    ensures WindowRespected(s, EmitAt(s, i), id)
    ensures OfStream(s.output, id) <= OfStream(EmitAt(s, i).output, id)
    ensures id in s.buffers && |OfStream(EmitAt(s, i).output, id)| == |OfStream(s.output, id)| ==>
              EmitAt(s, i).buffers[id].windowSize == s.buffers[id].windowSize
  {
    EmitAtOutput(s, i, id);
    EmitMeaning(s.buffers[i], s.conn);
    assert OfStream(s.output, id) + [] == OfStream(s.output, id);
  }

  lemma {:induction false} SweepRespects(s: Flow, order: seq<StreamId>, id: StreamId)
    requires forall i :: i in order ==> i in s.buffers
    requires OwnQueues(s)
    ensures WindowRespected(s, Sweep(s, order), id)
    ensures OfStream(s.output, id) <= OfStream(Sweep(s, order).output, id)
    ensures id in s.buffers && |OfStream(Sweep(s, order).output, id)| == |OfStream(s.output, id)| ==>
              Sweep(s, order).buffers[id].windowSize == s.buffers[id].windowSize
    decreases |order|
  {
    if order == [] {
    } else {
      assert order[0] in order;
      assert forall i :: i in order[1..] ==> i in order;
      var t := EmitAt(s, order[0]);
      EmitAtRespects(s, order[0], id);
      EmitAtOwnQueues(s, order[0]);
      SweepRespects(t, order[1..], id);
    }
  }
}
