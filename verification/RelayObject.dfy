/**
 * The relay and its stream buffers as objects that are updated in place. Every
 * method is proved against the functions of RelayFlow, so what is proved there
 * about values holds of the objects.
 */
module RelayObject {
  import opened Bytes
  import opened H2Frames
  import opened RelayFlow
  import opened HeaderBlocks

  class StreamOutput {
    var windowSize: int
    var queue: seq<QueuedFrame>

    function Value(): OutputBuffer
      reads this
    {
      OutputBuffer(windowSize, queue)
    }

    constructor (initialWindowSize: int)
      ensures Value() == OutputBuffer(initialWindowSize, [])
    {
      windowSize := initialWindowSize;
      queue := [];
    }

    method PushBack(f: QueuedFrame)
      modifies this
      ensures Value() == OutputBuffer(old(windowSize), old(queue) + [f])
    {
      queue := queue + [f];
    }

    method Shift(delta: int)
      modifies this`windowSize
      ensures windowSize == old(windowSize) + delta
    {
      windowSize := windowSize + delta;
    }

    /** The connection window goes in by value and comes back updated. */
    method EmitEligibleFrames(connectionWindowSize: int) returns (conn: int, emitted: seq<QueuedFrame>)
      modifies this
      ensures Emission(Value(), conn, emitted) == Emit(old(Value()), connectionWindowSize)
    {
      conn, emitted := connectionWindowSize, [];
      ghost var all, k := queue, 0;
      assert all[..0] == [];
      while queue != []
        invariant k <= |all| && queue == all[k..] && emitted == all[..k]
        invariant windowSize == old(windowSize) - FlowBytes(all[..k])
        invariant conn == connectionWindowSize - FlowBytes(all[..k])
        invariant EligibleCount(all, old(windowSize), connectionWindowSize)
             == k + EligibleCount(queue, windowSize, conn)
        decreases |queue|
      {
        var f := queue[0];
        if f.FlowControlSize() > conn || f.FlowControlSize() > windowSize {
          break;
        }
        emitted := emitted + [f];
        assert all[..k+1] == all[..k] + [f];
        FlowBytesConcat(all[..k], [f]);
        conn := conn - f.FlowControlSize();
        windowSize := windowSize - f.FlowControlSize();
        queue := queue[1..];
        k := k + 1;
      }
    }
  }

  function EnqueueAll(s: Flow, fs: seq<QueuedFrame>): Flow
    decreases |fs|
  {
    if fs == [] then s else EnqueueAll(Enqueue(s, fs[0]), fs[1..])
  }

  lemma {:induction false} EnqueueAllConserves(s: Flow, fs: seq<QueuedFrame>)
    requires Conserving(s)
    ensures Conserving(EnqueueAll(s, fs))
    decreases |fs|
  {
    if fs == [] {
    } else {
      EnqueueConserves(s, fs[0]);
      EnqueueAllConserves(Enqueue(s, fs[0]), fs[1..]);
    }
  }

  lemma OneRound(s: Flow, id: StreamId, data: bytes, ended: bool, max: nat, rounds: nat)
    requires rounds > 0
    ensures var rest, t := data[ChunkLength(data, max)..], Enqueue(s, NextChunk(id, data, ended, max));
      && EnqueueAll(s, FirstFrames(id, data, ended, max, rounds))
         == (if rest == [] then t else EnqueueAll(t, FirstFrames(id, rest, ended, max, rounds - 1)))
      && (EndsWithin(data, max, rounds) <==> rest == [] || EndsWithin(rest, max, rounds - 1))
  {
    var rest, fs := data[ChunkLength(data, max)..], FirstFrames(id, data, ended, max, rounds);
    assert fs[0] == NextChunk(id, data, ended, max);
    assert fs[1..] == if rest == [] then [] else FirstFrames(id, rest, ended, max, rounds - 1);
  }

  lemma {:induction false} SweepSnoc(s: Flow, order: seq<StreamId>, id: StreamId)
    requires forall i :: i in order ==> i in s.buffers
    requires id in s.buffers
    ensures forall i :: i in order + [id] ==> i in s.buffers
    ensures Sweep(s, order + [id]) == EmitAt(Sweep(s, order), id)
    decreases |order|
  {
    if order == [] {
    } else {
      assert order[0] in order;
      assert forall i :: i in order[1..] ==> i in order;
      assert (order + [id])[1..] == order[1..] + [id];
      SweepSnoc(EmitAt(s, order[0]), order[1..], id);
    }
  }

  lemma OrderSnoc(order: seq<StreamId>, visited: set<StreamId>, id: StreamId)
    requires IsOrder(order, visited) && id !in visited
    ensures IsOrder(order + [id], visited + {id})
  {
  }

  lemma MoveOver(keys: set<StreamId>, todo: set<StreamId>, id: StreamId)
    requires id in todo && todo <= keys
    ensures keys - (todo - {id}) == (keys - todo) + {id}
    ensures |todo - {id}| < |todo|
  {
  }

  function ShiftAt(s: Flow, id: StreamId, delta: int): Flow
    requires id in s.buffers
  {
    s.(buffers := s.buffers[id := s.buffers[id].(windowSize := s.buffers[id].windowSize + delta)])
  }

  /** All windows shifted but those still to do. */
  function ShiftedBut(s: Flow, delta: int, todo: set<StreamId>): Flow {
    s.(buffers := map id | id in s.buffers ::
         if id in todo then s.buffers[id] else s.buffers[id].(windowSize := s.buffers[id].windowSize + delta))
  }

  lemma ShiftedButStep(s: Flow, delta: int, todo: set<StreamId>, id: StreamId)
    requires id in todo && id in s.buffers
    ensures ShiftAt(ShiftedBut(s, delta, todo), id, delta) == ShiftedBut(s, delta, todo - {id})
  {
    assert ShiftAt(ShiftedBut(s, delta, todo), id, delta).buffers == ShiftedBut(s, delta, todo - {id}).buffers;
  }

  lemma ShiftedButAll(s: Flow, delta: int)
    ensures ShiftedBut(s, delta, s.buffers.Keys) == s
  {
    assert ShiftedBut(s, delta, s.buffers.Keys).buffers == s.buffers;
  }

  lemma ShiftedButNone(s: Flow, v: nat)
    ensures ShiftedBut(s.(initial := v), v - s.initial, {}) == SetInitial(s, v)
  {
    assert ShiftedBut(s.(initial := v), v - s.initial, {}).buffers == SetInitial(s, v).buffers;
  }

  class Relay {
    var initialWindowSize: nat
    var connectionWindowSize: int
    var outputBuffers: map<StreamId, StreamOutput>
    var maxFrameSize: Word
    var output: seq<QueuedFrame>

    /** No two streams share a buffer. */
    ghost predicate Valid()
      reads this
    {
      forall i, j :: i in outputBuffers && j in outputBuffers && i != j ==> outputBuffers[i] != outputBuffers[j]
    }

    ghost function View(): Flow
      reads this, outputBuffers.Values
    {
      Flow(initialWindowSize, connectionWindowSize,
           map id | id in outputBuffers :: outputBuffers[id].Value(), output)
    }

    /** A stream keeps its buffer object for good; new streams get fresh ones. */
    twostate predicate BuffersKept()
      reads this
    {
      && (forall id :: id in old(outputBuffers) ==> id in outputBuffers && outputBuffers[id] == old(outputBuffers)[id])
      && (forall id :: id in outputBuffers && id !in old(outputBuffers) ==> fresh(outputBuffers[id]))
    }

    constructor ()
      ensures Valid() && View() == INITIAL_FLOW && maxFrameSize == 16384
    {
      initialWindowSize := DEFAULT_WINDOW;
      connectionWindowSize := DEFAULT_WINDOW;
      outputBuffers := map[];
      maxFrameSize := 16384;
      output := [];
    }

    method OutputBufferFor(id: StreamId) returns (w: StreamOutput)
      requires Valid()
      modifies this`outputBuffers
      ensures Valid() && BuffersKept()
      ensures id in outputBuffers && w == outputBuffers[id]
      ensures View() == Open(old(View()), id)
    {
      if id in outputBuffers {
        w := outputBuffers[id];
      } else {
        w := new StreamOutput(initialWindowSize);
        outputBuffers := outputBuffers[id := w];
        assert View().buffers == Open(old(View()), id).buffers;
      }
    }

    /** When one buffer changes, the others, being other objects, do not. */
    twostate lemma OneChanged(id: StreamId)
      requires Valid() && id in outputBuffers && outputBuffers == old(outputBuffers)
      requires forall i :: i in outputBuffers && outputBuffers[i] != outputBuffers[id] ==>
                 outputBuffers[i].Value() == old(outputBuffers[i].Value())
      ensures View().buffers == old(View()).buffers[id := outputBuffers[id].Value()]
    {
    }

    method EmitFrom(id: StreamId)
      requires Valid() && id in outputBuffers
      modifies this`connectionWindowSize, this`output, outputBuffers[id]
      ensures Valid() && outputBuffers == old(outputBuffers) && maxFrameSize == old(maxFrameSize)
      ensures View() == EmitAt(old(View()), id)
    {
      var w := outputBuffers[id];
      ghost var before, value := View(), w.Value();
      assert before.buffers[id] == value;
      var conn, emitted := w.EmitEligibleFrames(connectionWindowSize);
      ghost var e := Emit(value, before.conn);
      assert w.Value() == e.buffer && conn == e.conn && emitted == e.out;
      connectionWindowSize := conn;
      output := output + emitted;
      OneChanged(id);
    }

    method PushFrame(f: QueuedFrame)
      requires Valid()
      modifies this`outputBuffers, outputBuffers.Values
      ensures Valid() && BuffersKept() && f.id in outputBuffers && maxFrameSize == old(maxFrameSize)
      ensures View() == Push(old(View()), f)
    {
      var w := OutputBufferFor(f.id);
      label Found:
      assert w.Value() == View().buffers[f.id];
      w.PushBack(f);
      OneChanged@Found(f.id);
    }

    method EnqueueFrame(f: QueuedFrame)
      requires Valid()
      modifies this, outputBuffers.Values
      ensures Valid() && BuffersKept() && maxFrameSize == old(maxFrameSize)
      ensures View() == Enqueue(old(View()), f)
    {
      PushFrame(f);
      ghost var pushed := View();
      EmitFrom(f.id);
      assert View() == EmitAt(pushed, f.id);
    }

    /** One round of the sweep. */
    method SweepOne(id: StreamId, ghost start: Flow, ghost order: seq<StreamId>)
      requires Valid() && id in outputBuffers && id in start.buffers
      requires (forall i :: i in order ==> i in start.buffers) && View() == Sweep(start, order)
      modifies this`connectionWindowSize, this`output, outputBuffers[id]
      ensures forall i :: i in order + [id] ==> i in start.buffers
      ensures View() == Sweep(start, order + [id])
    {
      SweepSnoc(start, order, id);
      EmitFrom(id);
    }

    /** The range over the map may visit the buffers in any order; `order` is the one it took. */
    method SendQueuedFramesUnderWindowSize() returns (ghost order: seq<StreamId>)
      requires Valid()
      modifies this`connectionWindowSize, this`output, outputBuffers.Values
      ensures IsOrder(order, outputBuffers.Keys)
      ensures View() == Sweep(old(View()), order)
    {
      ghost var start := View();
      order := [];
      var keys := outputBuffers.Keys;
      assert start.buffers.Keys == keys;
      var todo := keys;
      while todo != {}
        invariant todo <= keys
        invariant IsOrder(order, keys - todo)
        invariant View() == Sweep(start, order)
        decreases |todo|
      {
        var id :| id in todo;
        OrderSnoc(order, keys - todo, id);
        MoveOver(keys, todo, id);
        SweepOne(id, start, order);
        todo := todo - {id};
        order := order + [id];
      }
    }

    method GrantWindow(id: StreamId, increment: nat)
      requires Valid()
      modifies this`outputBuffers, outputBuffers.Values
      ensures Valid() && BuffersKept() && id in outputBuffers && maxFrameSize == old(maxFrameSize)
      ensures View() == Grant(old(View()), id, increment)
    {
      var w := OutputBufferFor(id);
      label Found:
      assert w.Value() == View().buffers[id];
      w.Shift(increment);
      OneChanged@Found(id);
    }

    /** The stream-level part of an update. */
    method CreditStreamWindow(id: StreamId, increment: nat)
      requires Valid()
      modifies this, outputBuffers.Values
      ensures Valid() && BuffersKept() && maxFrameSize == old(maxFrameSize)
      ensures View() == CreditStream(old(View()), id, increment)
    {
      GrantWindow(id, increment);
      ghost var granted := View();
      EmitFrom(id);
      assert View() == EmitAt(granted, id);
    }

    /** An update of stream 0 falls through to the stream-level part as well. */
    method UpdateWindow(id: StreamId, increment: nat) returns (ghost order: seq<StreamId>)
      requires Valid()
      modifies this, outputBuffers.Values
      ensures Valid() && BuffersKept() && maxFrameSize == old(maxFrameSize)
      ensures id == 0 ==> IsOrder(order, old(outputBuffers).Keys)
      ensures id == 0 ==> View() == CreditStream(Sweep(CreditConn(old(View()), increment), order), id, increment)
      ensures id != 0 ==> View() == CreditStream(old(View()), id, increment)
    {
      ghost var start := View();
      order := [];
      if id == 0 {
        connectionWindowSize := connectionWindowSize + increment;
        assert View() == CreditConn(start, increment);
        order := SendQueuedFramesUnderWindowSize();
      }
      CreditStreamWindow(id, increment);
    }

    method ShiftOne(id: StreamId, delta: int)
      requires Valid() && id in outputBuffers
      modifies outputBuffers[id]
      ensures View() == ShiftAt(old(View()), id, delta)
    {
      ghost var start := View();
      assert start.buffers[id] == outputBuffers[id].Value();
      outputBuffers[id].Shift(delta);
      assert View().buffers == ShiftAt(start, id, delta).buffers;
    }

    method ShiftAll(delta: int)
      requires Valid()
      modifies outputBuffers.Values
      ensures View() == ShiftedBut(old(View()), delta, {})
    {
      ghost var start := View();
      var keys := outputBuffers.Keys;
      assert start.buffers.Keys == keys;
      ShiftedButAll(start, delta);
      var todo := keys;
      while todo != {}
        invariant todo <= keys
        invariant View() == ShiftedBut(start, delta, todo)
        decreases |todo|
      {
        var id :| id in todo;
        MoveOver(keys, todo, id);
        ShiftedButStep(start, delta, todo, id);
        ShiftOne(id, delta);
        todo := todo - {id};
      }
    }

    /** The section of updateInitialWindowSize under the mutex. */
    method MoveInitialWindow(v: nat)
      requires Valid()
      modifies this`initialWindowSize, outputBuffers.Values
      ensures View() == SetInitial(old(View()), v)
    {
      ghost var start := View();
      var delta := v - initialWindowSize;
      initialWindowSize := v;
      assert View() == start.(initial := v);
      ShiftAll(delta);
      ShiftedButNone(start, v);
    }

    method UpdateInitialWindowSize(v: nat) returns (ghost order: seq<StreamId>)
      requires Valid()
      modifies this, outputBuffers.Values
      ensures Valid() && outputBuffers == old(outputBuffers) && maxFrameSize == old(maxFrameSize)
      ensures IsOrder(order, outputBuffers.Keys)
      ensures View() == Sweep(SetInitial(old(View()), v), order)
    {
      MoveInitialWindow(v);
      order := SendQueuedFramesUnderWindowSize();
    }

    /** One round of the loop of data. */
    method EnqueueNext(id: StreamId, data: bytes, streamEnded: bool, maxPayloadLength: nat) returns (rest: bytes)
      requires Valid()
      modifies this, outputBuffers.Values
      ensures Valid() && BuffersKept() && maxFrameSize == old(maxFrameSize)
      ensures View() == Enqueue(old(View()), NextChunk(id, data, streamEnded, maxPayloadLength))
      ensures rest == data[ChunkLength(data, maxPayloadLength)..]
    {
      var nextPayloadLength := |data|;
      if nextPayloadLength > maxPayloadLength {
        nextPayloadLength := maxPayloadLength;
      }
      var nextPayload := data[..nextPayloadLength];
      rest := data[nextPayloadLength..];
      EnqueueFrame(QueuedData(id, streamEnded && rest == [], nextPayload));
    }

    /**
     * data, watched for `rounds` rounds of its loop: the frames it has enqueued by then,
     * and whether it has ended. It splits to the frame size in force on entry.
     */
    method Data(id: StreamId, data: bytes, streamEnded: bool, rounds: nat) returns (done: bool)
      requires Valid()
      modifies this, outputBuffers.Values
      ensures Valid() && BuffersKept() && maxFrameSize == old(maxFrameSize)
      ensures done <==> EndsWithin(data, maxFrameSize, rounds)
      ensures View() == EnqueueAll(Open(old(View()), id), FirstFrames(id, data, streamEnded, maxFrameSize, rounds))
    {
      var maxPayloadLength := maxFrameSize;
      var _ := OutputBufferFor(id);
      ghost var goal := EnqueueAll(View(), FirstFrames(id, data, streamEnded, maxPayloadLength, rounds));
      var rest, left := data, rounds;
      done := false;
      while !done && left > 0
        invariant Valid() && BuffersKept() && maxFrameSize == maxPayloadLength
        invariant EndsWithin(data, maxPayloadLength, rounds) <==> done || EndsWithin(rest, maxPayloadLength, left)
        invariant goal == if done then View()
                          else EnqueueAll(View(), FirstFrames(id, rest, streamEnded, maxPayloadLength, left))
        decreases left
      {
        OneRound(View(), id, rest, streamEnded, maxPayloadLength, left);
        rest := EnqueueNext(id, rest, streamEnded, maxPayloadLength);
        left := left - 1;
        done := rest == [];
      }
    }

    /** header; the block is what the encoder made of the header fields. A split that does not end queues nothing. */
    method QueueHeader(id: StreamId, block: bytes, streamEnded: bool, priority: Priority, rounds: nat)
        returns (done: bool)
      requires Valid()
      modifies this, outputBuffers.Values
      ensures Valid() && BuffersKept() && maxFrameSize == old(maxFrameSize)
      ensures done <==> Splittable(maxFrameSize, HeaderMetadata(priority), block)
                        && |HeaderFor(id, block, streamEnded, priority, maxFrameSize).chunks| <= rounds + 1
      ensures View() == if done then Enqueue(old(View()), HeaderFor(id, block, streamEnded, priority, maxFrameSize))
                        else old(View())
    {
      var f := MakeHeader(maxFrameSize, id, block, streamEnded, priority, rounds);
      if f.Some? {
        EnqueueFrame(f.value);
      }
      done := f.Some?;
    }

    /** pushPromise */
    method QueuePushPromise(id: StreamId, promiseId: StreamId, block: bytes, rounds: nat) returns (done: bool)
      requires Valid()
      modifies this, outputBuffers.Values
      ensures Valid() && BuffersKept() && maxFrameSize == old(maxFrameSize)
      ensures done <==> Splittable(maxFrameSize, PUSH_PROMISE_METADATA, block)
                        && |PushPromiseFor(id, promiseId, block, maxFrameSize).chunks| <= rounds + 1
      ensures View() == if done then Enqueue(old(View()), PushPromiseFor(id, promiseId, block, maxFrameSize))
                        else old(View())
    {
      var f := MakePushPromise(maxFrameSize, id, promiseId, block, rounds);
      if f.Some? {
        EnqueueFrame(f.value);
      }
      done := f.Some?;
    }
  }
}
