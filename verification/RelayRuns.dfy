/**
 * One relay direction as a state machine: one step per critical section, in any
 * interleaving of any number of goroutines that hand frames to the relay (its own
 * reader first of all) with the peer's reader, which applies WINDOW_UPDATE and
 * SETTINGS. The theorems hold after every run.
 */
module RelayRuns {
  import opened Bytes
  import opened H2Frames
  import opened RelayFlow

  type CallerId = nat

  // The relay's own reader.
  const READER: CallerId := 0

  // Where a caller of the relay stands.
  datatype CallerPc =
    | Idle
    | Credited(id: StreamId, data: bytes, ended: bool)              // sendWindowUpdates is done
    | Sized(id: StreamId, data: bytes, ended: bool, max: nat)       // data has read maxFrameSize
    | Splitting(id: StreamId, data: bytes, ended: bool, max: nat)   // inside the loop of data
    | Broken                                                        // a window update could not be written

  // Where the peer's reader stands while it applies an update to this relay.
  datatype PeerPc =
    | Quiet
    | OweSweep(zero: Option<nat>)  // sendQueuedFramesUnderWindowSize comes next
    | OweZero(increment: nat)      // the stream-level part of an update of stream 0 comes next

  /** `back` is what sendWindowUpdates wrote towards the source of the data. */
  datatype State = State(
    flow: Flow, maxFrameSize: nat, callers: map<CallerId, CallerPc>, peer: PeerPc, back: seq<WireFrame>)

  const INITIAL_MAX_FRAME := 16384

  const INITIAL_STATE := State(INITIAL_FLOW, INITIAL_MAX_FRAME, map[], Quiet, [])

  datatype Event =
    | ReceiveData(id: StreamId, data: bytes, ended: bool)
    | ReceiveBroken(id: StreamId, data: bytes, half: bool)  // `half`: the update of the connection was written
    | CallData(c: CallerId, id: StreamId, data: bytes, ended: bool)
    | OpenBuffer(c: CallerId)
    | EnqueueChunk(c: CallerId)
    | EnqueueOther(c: CallerId, frame: QueuedFrame)
    | ConnUpdate(increment: nat)
    | ZeroUpdate
    | StreamUpdate(id: StreamId, increment: nat)
    | InitialWindow(v: nat)
    | SweepAll(order: seq<StreamId>)
    | MaxFrame(v: nat)

  function PcOf(s: State, c: CallerId): CallerPc {
    if c in s.callers then s.callers[c] else Idle
  }

  /** Not inside a call; a processor may ignore the DATA frame that was credited. */
  predicate Free(plain: bool, pc: CallerPc) {
    pc.Idle? || (!plain && pc.Credited?)
  }

  /**
   * With `plain`, the stream's processor is the relay adapter itself: the relay's
   * reader alone calls, and hands every received DATA frame on. Otherwise processors
   * may make any goroutine call, with anything.
   */
  ghost predicate Enabled(plain: bool, s: State, e: Event) {
    match e
    case ReceiveData(id, _, _) => id != 0 && Free(plain, PcOf(s, READER))
    case ReceiveBroken(id, data, _) => id != 0 && data != [] && Free(plain, PcOf(s, READER))
    case CallData(c, id, data, ended) =>
      if plain then c == READER && PcOf(s, c) == Credited(id, data, ended) else Free(plain, PcOf(s, c))
    case OpenBuffer(c) => PcOf(s, c).Sized?
    case EnqueueChunk(c) => PcOf(s, c).Splitting?
    case EnqueueOther(c, f) => !f.QueuedData? && Free(plain, PcOf(s, c)) && (plain ==> c == READER)
    case ConnUpdate(_) => s.peer.Quiet?
    case ZeroUpdate => s.peer.OweZero?
    case StreamUpdate(id, _) => id != 0 && s.peer.Quiet?
    case InitialWindow(_) => s.peer.Quiet?
    case SweepAll(order) => s.peer.OweSweep? && IsOrder(order, s.flow.buffers.Keys)
    case MaxFrame(_) => s.peer.Quiet?
  }

  predicate AllOpen(flow: Flow, order: seq<StreamId>) {
    forall i :: i in order ==> i in flow.buffers
  }

  function FlowAfter(s: State, e: Event): Flow {
    match e
    case OpenBuffer(c) => if PcOf(s, c).Sized? then Open(s.flow, PcOf(s, c).id) else s.flow
    case EnqueueChunk(c) => if PcOf(s, c).Splitting? then Enqueue(s.flow, ChunkOf(PcOf(s, c))) else s.flow
    case EnqueueOther(_, f) => Enqueue(s.flow, f)
    case ConnUpdate(increment) => CreditConn(s.flow, increment)
    case ZeroUpdate => if s.peer.OweZero? then CreditStream(s.flow, 0, s.peer.increment) else s.flow
    case StreamUpdate(id, increment) => CreditStream(s.flow, id, increment)
    case InitialWindow(v) => SetInitial(s.flow, v)
    case SweepAll(order) => if AllOpen(s.flow, order) then Sweep(s.flow, order) else s.flow
    case _ => s.flow
  }

  /** The frame a caller inside the loop of data enqueues next, and where that leaves the caller. */
  function ChunkOf(pc: CallerPc): QueuedFrame
    requires pc.Splitting?
  {
    NextChunk(pc.id, pc.data, pc.ended, pc.max)
  }

  function AfterChunk(pc: CallerPc): CallerPc
    requires pc.Splitting?
  {
    var rest := pc.data[ChunkLength(pc.data, pc.max)..];
    if rest == [] then Idle else Splitting(pc.id, rest, pc.ended, pc.max)
  }

  function CallersAfter(s: State, e: Event): map<CallerId, CallerPc> {
    match e
    case ReceiveData(id, data, ended) => s.callers[READER := Credited(id, data, ended)]
    case ReceiveBroken(_, _, _) => s.callers[READER := Broken]
    case CallData(c, id, data, ended) => s.callers[c := Sized(id, data, ended, s.maxFrameSize)]
    case OpenBuffer(c) =>
      var pc := PcOf(s, c);
      if pc.Sized? then s.callers[c := Splitting(pc.id, pc.data, pc.ended, pc.max)] else s.callers
    case EnqueueChunk(c) => if PcOf(s, c).Splitting? then s.callers[c := AfterChunk(PcOf(s, c))] else s.callers
    case _ => s.callers
  }

  function PeerAfter(s: State, e: Event): PeerPc {
    match e
    case ConnUpdate(increment) => OweSweep(Some(increment))
    case ZeroUpdate => Quiet
    case InitialWindow(_) => OweSweep(None)
    case SweepAll(_) => if s.peer.OweSweep? && s.peer.zero.Some? then OweZero(s.peer.zero.value) else Quiet
    case _ => s.peer
  }

  function BackAfter(s: State, e: Event): seq<WireFrame> {
    if e.ReceiveData? && e.data != [] then s.back + [WindowUpdate(0, |e.data|), WindowUpdate(e.id, |e.data|)]
    else if e.ReceiveBroken? && e.half then s.back + [WindowUpdate(0, |e.data|)]
    else s.back
  }

  function Apply(s: State, e: Event): State {
    State(FlowAfter(s, e), if e.MaxFrame? then e.v else s.maxFrameSize,
          CallersAfter(s, e), PeerAfter(s, e), BackAfter(s, e))
  }

  function After(es: seq<Event>): State {
    if es == [] then INITIAL_STATE else Apply(After(es[..|es|-1]), es[|es|-1])
  }

  ghost predicate IsRun(plain: bool, es: seq<Event>) {
    es == [] || (IsRun(plain, es[..|es|-1]) && Enabled(plain, After(es[..|es|-1]), es[|es|-1]))
  }

  // ----- ledgers, read off the run alone

  function ConnGrant(e: Event): nat {
    if e.ConnUpdate? then e.increment else 0
  }

  function StreamGrant(s: State, e: Event, id: StreamId): nat {
    if e.StreamUpdate? && e.id == id then e.increment
    else if e.ZeroUpdate? && s.peer.OweZero? && id == 0 then s.peer.increment
    else 0
  }

  /** The frame an event adds to a stream's queue. */
  function Entering(s: State, e: Event): seq<QueuedFrame> {
    if e.EnqueueOther? then [e.frame]
    else if e.EnqueueChunk? && PcOf(s, e.c).Splitting? then [ChunkOf(PcOf(s, e.c))]
    else []
  }

  /** Credit the destination has granted on the connection. */
  function ConnCredit(es: seq<Event>): nat {
    if es == [] then 0 else ConnCredit(es[..|es|-1]) + ConnGrant(es[|es|-1])
  }

  /** Credit the destination has granted on one stream. */
  function StreamCredit(es: seq<Event>, id: StreamId): nat {
    if es == [] then 0
    else StreamCredit(es[..|es|-1], id) + StreamGrant(After(es[..|es|-1]), es[|es|-1], id)
  }

  /** All frames ever enqueued for one stream, in order. */
  function Entered(es: seq<Event>, id: StreamId): seq<QueuedFrame> {
    if es == [] then []
    else Entered(es[..|es|-1], id) + OfStream(Entering(After(es[..|es|-1]), es[|es|-1]), id)
  }

  function Payload(e: Event, id: StreamId): bytes {
    if e.ReceiveData? && e.id == id then e.data else []
  }

  /** All DATA octets received from the source on one stream. */
  function Received(es: seq<Event>, id: StreamId): bytes {
    if es == [] then [] else Received(es[..|es|-1], id) + Payload(es[|es|-1], id)
  }

  function ReceivedTotal(es: seq<Event>): nat {
    if es == [] then 0
    else ReceivedTotal(es[..|es|-1]) + if es[|es|-1].ReceiveData? then |es[|es|-1].data| else 0
  }

  /** Credit returned to the source for stream `id` (0: for the connection). */
  function Returned(back: seq<WireFrame>, id: StreamId): nat {
    if back == [] then 0
    else
      var f := back[0];
      (if f.WindowUpdate? && f.id == id then f.increment else 0) + Returned(back[1..], id)
  }

  /** Received octets of stream `id` that the reader has not enqueued yet. */
  function InHand(pc: CallerPc, id: StreamId): bytes {
    if !pc.Idle? && !pc.Broken? && pc.id == id then pc.data else []
  }

  // ----- the invariant and its preservation, part by part

  ghost predicate Books(s: State, es: seq<Event>) {
    && ConnBalanced(s.flow, ConnCredit(es))
    && forall id :: StreamBalanced(s.flow, id, StreamCredit(es, id), Entered(es, id))
  }

  lemma BooksOwnQueues(s: State, es: seq<Event>)
    requires Books(s, es)
    ensures OwnQueues(s.flow)
  {
    forall id | id in s.flow.buffers ensures AllOf(s.flow.buffers[id].queue, id) {
      assert StreamBalanced(s.flow, id, StreamCredit(es, id), Entered(es, id));
    }
  }

  /** How the ledgers grow by one event. */
  lemma LedgerStep(es: seq<Event>, e: Event, id: StreamId)
    ensures After(es + [e]) == Apply(After(es), e)
    ensures ConnCredit(es + [e]) == ConnCredit(es) + ConnGrant(e)
    ensures StreamCredit(es + [e], id) == StreamCredit(es, id) + StreamGrant(After(es), e, id)
    ensures Entered(es + [e], id) == Entered(es, id) + OfStream(Entering(After(es), e), id)
  {
    assert (es + [e])[..|es|] == es;
  }

  lemma EnqueueBalanced(s: Flow, f: QueuedFrame, id: StreamId, credit: nat, entered: seq<QueuedFrame>)
    requires StreamBalanced(s, id, credit, entered)
    requires OwnQueues(s)
    ensures StreamBalanced(Enqueue(s, f), id, credit, entered + OfStream([f], id))
  {
    PushBalanced(s, f, id, credit, entered);
    var p := Push(s, f);
    assert AllOf(p.buffers[f.id].queue, f.id);
    EmitAtBalanced(p, f.id, id, credit, entered + OfStream([f], id));
  }

  lemma CreditStreamBalanced(s: Flow, i: StreamId, increment: nat, id: StreamId, credit: nat, entered: seq<QueuedFrame>)
    requires StreamBalanced(s, id, credit, entered)
    requires OwnQueues(s)
    ensures StreamBalanced(CreditStream(s, i, increment), id, credit + (if id == i then increment else 0), entered)
  {
    GrantBalanced(s, i, increment, id, credit, entered);
    var p := Grant(s, i, increment);
    assert AllOf(p.buffers[i].queue, i);
    EmitAtBalanced(p, i, id, credit + (if id == i then increment else 0), entered);
  }

  // One kind of step each keeps the books of one stream.

  lemma SweepStepStream(s: State, order: seq<StreamId>, id: StreamId, credit: nat, entered: seq<QueuedFrame>)
    requires OwnQueues(s.flow)
    requires StreamBalanced(s.flow, id, credit, entered)
    ensures StreamBalanced(FlowAfter(s, SweepAll(order)), id, credit, entered)
  {
    if AllOpen(s.flow, order) {
      SweepBalanced(s.flow, order, id, credit, entered);
    }
  }

  lemma ZeroStepStream(s: State, id: StreamId, credit: nat, entered: seq<QueuedFrame>)
    requires OwnQueues(s.flow)
    requires StreamBalanced(s.flow, id, credit, entered)
    ensures StreamBalanced(FlowAfter(s, ZeroUpdate), id, credit + StreamGrant(s, ZeroUpdate, id), entered)
  {
    if s.peer.OweZero? {
      CreditStreamBalanced(s.flow, 0, s.peer.increment, id, credit, entered);
    }
  }

  lemma UpdateStepStream(s: State, i: StreamId, increment: nat, id: StreamId, credit: nat, entered: seq<QueuedFrame>)
    requires OwnQueues(s.flow)
    requires StreamBalanced(s.flow, id, credit, entered)
    ensures StreamBalanced(FlowAfter(s, StreamUpdate(i, increment)), id,
      credit + StreamGrant(s, StreamUpdate(i, increment), id), entered)
  {
    CreditStreamBalanced(s.flow, i, increment, id, credit, entered);
  }

  lemma SettingStepStream(s: State, e: Event, id: StreamId, credit: nat, entered: seq<QueuedFrame>)
    requires e.ConnUpdate? || e.InitialWindow? || e.MaxFrame?
    requires StreamBalanced(s.flow, id, credit, entered)
    ensures StreamBalanced(FlowAfter(s, e), id, credit, entered)
  {
    if e.InitialWindow? {
      SetInitialBalanced(s.flow, e.v, id, credit, entered);
    }
  }

  lemma OpenStepStream(s: State, c: CallerId, id: StreamId, credit: nat, entered: seq<QueuedFrame>)
    requires StreamBalanced(s.flow, id, credit, entered)
    ensures StreamBalanced(FlowAfter(s, OpenBuffer(c)), id, credit, entered)
  {
    if PcOf(s, c).Sized? {
      OpenBalanced(s.flow, PcOf(s, c).id, id, credit, entered);
    }
  }

  lemma ChunkStepStream(s: State, c: CallerId, id: StreamId, credit: nat, entered: seq<QueuedFrame>)
    requires OwnQueues(s.flow)
    requires StreamBalanced(s.flow, id, credit, entered)
    ensures StreamBalanced(FlowAfter(s, EnqueueChunk(c)), id, credit,
      entered + OfStream(Entering(s, EnqueueChunk(c)), id))
  {
    if PcOf(s, c).Splitting? {
      EnqueueBalanced(s.flow, ChunkOf(PcOf(s, c)), id, credit, entered);
    } else {
      assert entered + [] == entered;
    }
  }

  lemma CallerStepStream(s: State, e: Event, id: StreamId, credit: nat, entered: seq<QueuedFrame>)
    requires e.OpenBuffer? || e.EnqueueChunk? || e.EnqueueOther?
    requires OwnQueues(s.flow)
    requires StreamBalanced(s.flow, id, credit, entered)
    ensures StreamBalanced(FlowAfter(s, e), id, credit, entered + OfStream(Entering(s, e), id))
  {
    match e
    case OpenBuffer(c) =>
      OpenStepStream(s, c, id, credit, entered);
      assert entered + [] == entered;
    case EnqueueChunk(c) => ChunkStepStream(s, c, id, credit, entered);
    case EnqueueOther(_, f) => EnqueueBalanced(s.flow, f, id, credit, entered);
  }

  lemma PeerStepStream(s: State, e: Event, id: StreamId, credit: nat, entered: seq<QueuedFrame>)
    requires e.ConnUpdate? || e.ZeroUpdate? || e.StreamUpdate? || e.InitialWindow? || e.SweepAll? || e.MaxFrame?
    requires OwnQueues(s.flow)
    requires StreamBalanced(s.flow, id, credit, entered)
    ensures StreamBalanced(FlowAfter(s, e), id, credit + StreamGrant(s, e, id), entered)
  {
    match e
    case ZeroUpdate => ZeroStepStream(s, id, credit, entered);
    case StreamUpdate(i, increment) => UpdateStepStream(s, i, increment, id, credit, entered);
    case SweepAll(order) => SweepStepStream(s, order, id, credit, entered);
    case _ => SettingStepStream(s, e, id, credit, entered);
  }

  /** One step keeps the books of one stream. */
  lemma StepStream(s: State, e: Event, id: StreamId, credit: nat, entered: seq<QueuedFrame>)
    requires OwnQueues(s.flow)
    requires StreamBalanced(s.flow, id, credit, entered)
    ensures StreamBalanced(FlowAfter(s, e), id, credit + StreamGrant(s, e, id), entered + OfStream(Entering(s, e), id))
  {
    if e.OpenBuffer? || e.EnqueueChunk? || e.EnqueueOther? {
      CallerStepStream(s, e, id, credit, entered);
    } else {
      assert entered + [] == entered;
      if !e.ReceiveData? && !e.ReceiveBroken? && !e.CallData? {
        PeerStepStream(s, e, id, credit, entered);
      }
    }
  }

  /** One step keeps the books of the connection. */
  lemma StepConn(plain: bool, s: State, e: Event, credit: nat)
    requires Enabled(plain, s, e)
    requires ConnBalanced(s.flow, credit)
    ensures ConnBalanced(FlowAfter(s, e), credit + ConnGrant(e))
  {
    match e
    case EnqueueChunk(c) =>
      var f := ChunkOf(PcOf(s, c));
      EmitAtConnBalanced(Push(s.flow, f), f.id, credit);
    case EnqueueOther(_, f) => EmitAtConnBalanced(Push(s.flow, f), f.id, credit);
    case ZeroUpdate => EmitAtConnBalanced(Grant(s.flow, 0, s.peer.increment), 0, credit);
    case StreamUpdate(i, increment) => EmitAtConnBalanced(Grant(s.flow, i, increment), i, credit);
    case SweepAll(order) => SweepConnBalanced(s.flow, order, credit);
    case _ =>
  }

  lemma StepBooks(plain: bool, es: seq<Event>, e: Event)
    requires Enabled(plain, After(es), e)
    requires Books(After(es), es)
    ensures Books(After(es + [e]), es + [e])
  {
    var s := After(es);
    BooksOwnQueues(s, es);
    StepConn(plain, s, e, ConnCredit(es));
    forall id ensures StreamBalanced(After(es + [e]).flow, id, StreamCredit(es + [e], id), Entered(es + [e], id)) {
      LedgerStep(es, e, id);
      StepStream(s, e, id, StreamCredit(es, id), Entered(es, id));
    }
    LedgerStep(es, e, 0);
  }

  lemma RunPrefix(plain: bool, es: seq<Event>)
    requires IsRun(plain, es) && es != []
    ensures var pre := es[..|es|-1];
      es == pre + [es[|es|-1]] && IsRun(plain, pre) && Enabled(plain, After(pre), es[|es|-1])
  {
  }

  lemma {:induction false} RunBooks(plain: bool, es: seq<Event>)
    requires IsRun(plain, es)
    ensures Books(After(es), es)
  {
    if es == [] {
    } else {
      RunPrefix(plain, es);
      RunBooks(plain, es[..|es|-1]);
      StepBooks(plain, es[..|es|-1], es[|es|-1]);
    }
  }

  // ----- theorems over all runs

  /**
   * The connection window is 65535 plus all connection credit minus all octets
   * released, and never negative. Each open stream's window is the current initial
   * size plus that stream's credit minus its octets released, no matter how often
   * SETTINGS moved the initial size or how late the stream's buffer was created.
   */
  lemma WindowsBalance(plain: bool, es: seq<Event>, id: StreamId)
    requires IsRun(plain, es)
    ensures var s := After(es).flow;
      && s.conn == DEFAULT_WINDOW + ConnCredit(es) - FlowBytes(s.output)
      && s.conn >= 0
      && (id in s.buffers ==>
            s.buffers[id].windowSize == s.initial + StreamCredit(es, id) - FlowBytes(OfStream(s.output, id)))
      && (id !in s.buffers ==> StreamCredit(es, id) == 0 && OfStream(s.output, id) == [])
  {
    RunBooks(plain, es);
    assert StreamBalanced(After(es).flow, id, StreamCredit(es, id), Entered(es, id));
  }

  /** What was released for a stream, then what is still queued, is what was enqueued, in order. */
  lemma PerStreamOrder(plain: bool, es: seq<Event>, id: StreamId)
    requires IsRun(plain, es)
    ensures OfStream(After(es).flow.output, id) + QueueOf(After(es).flow, id) == Entered(es, id)
  {
    RunBooks(plain, es);
    assert StreamBalanced(After(es).flow, id, StreamCredit(es, id), Entered(es, id));
  }

  lemma EnqueueRespects(s: Flow, f: QueuedFrame, id: StreamId)
    requires OwnQueues(s)
    ensures WindowRespected(s, Enqueue(s, f), id)
  {
    var p := Push(s, f);
    assert AllOf(p.buffers[f.id].queue, f.id);
    EmitAtRespects(p, f.id, id);
  }

  lemma CreditStreamRespects(s: Flow, i: StreamId, increment: nat, id: StreamId)
    requires OwnQueues(s)
    ensures WindowRespected(s, CreditStream(s, i, increment), id)
  {
    var p := Grant(s, i, increment);
    assert AllOf(p.buffers[i].queue, i);
    EmitAtRespects(p, i, id);
  }

  lemma StepRespects(s: State, e: Event, id: StreamId)
    requires OwnQueues(s.flow)
    ensures WindowRespected(s.flow, FlowAfter(s, e), id)
  {
    match e
    case EnqueueChunk(c) =>
      if PcOf(s, c).Splitting? {
        EnqueueRespects(s.flow, ChunkOf(PcOf(s, c)), id);
      }
    case EnqueueOther(_, f) => EnqueueRespects(s.flow, f, id);
    case ZeroUpdate =>
      if s.peer.OweZero? {
        CreditStreamRespects(s.flow, 0, s.peer.increment, id);
      }
    case StreamUpdate(i, increment) => CreditStreamRespects(s.flow, i, increment, id);
    case SweepAll(order) =>
      if AllOpen(s.flow, order) {
        SweepRespects(s.flow, order, id);
      }
    case _ =>
  }

  /**
   * A step that releases anything for a stream leaves that stream's total within
   * the credit it has at that very moment, although SETTINGS may have driven the
   * window below zero earlier in the run.
   */
  lemma NeverBeyondTheStreamWindow(plain: bool, es: seq<Event>, e: Event, id: StreamId)
    requires IsRun(plain, es + [e])
    ensures var s, t := After(es).flow, After(es + [e]).flow;
      OfStream(t.output, id) != OfStream(s.output, id) ==>
        FlowBytes(OfStream(t.output, id)) <= t.initial + StreamCredit(es + [e], id)
  {
    RunPrefix(plain, es + [e]);
    assert (es + [e])[..|es|] == es;
    RunBooks(plain, es);
    BooksOwnQueues(After(es), es);
    StepRespects(After(es), e, id);
    LedgerStep(es, e, id);
    WindowsBalance(plain, es + [e], id);
  }

  lemma StepConserves(plain: bool, s: State, e: Event)
    requires Enabled(plain, s, e)
    requires !s.peer.OweSweep? ==> Conserving(s.flow)
    ensures !Apply(s, e).peer.OweSweep? ==> Conserving(Apply(s, e).flow)
  {
    if !s.peer.OweSweep? {
      match e
      case OpenBuffer(c) => OpenConserves(s.flow, PcOf(s, c).id);
      case EnqueueChunk(c) => EnqueueConserves(s.flow, ChunkOf(PcOf(s, c)));
      case EnqueueOther(_, f) => EnqueueConserves(s.flow, f);
      case ZeroUpdate => CreditStreamConserves(s.flow, 0, s.peer.increment);
      case StreamUpdate(id, increment) => CreditStreamConserves(s.flow, id, increment);
      case _ =>
    } else if e.SweepAll? {
      SweepConserves(s.flow, e.order);
    }
  }

  /**
   * Work conservation: unless the peer's reader is between an update of all windows
   * and the sweep that follows it, no stream has a frame in front that both windows
   * would let through, whatever order the map iterations took.
   */
  lemma {:induction false} WorkConserving(plain: bool, es: seq<Event>)
    requires IsRun(plain, es)
    ensures !After(es).peer.OweSweep? ==> Conserving(After(es).flow)
  {
    if es == [] {
    } else {
      RunPrefix(plain, es);
      WorkConserving(plain, es[..|es|-1]);
      StepConserves(plain, After(es[..|es|-1]), es[|es|-1]);
    }
  }

  // ----- conservation of octets

  /** With the relay adapter, octets received are octets enqueued plus those in hand. */
  ghost predicate Carried(s: State, es: seq<Event>, id: StreamId) {
    Received(es, id) == DataBytes(Entered(es, id)) + InHand(PcOf(s, READER), id)
  }

  /** With the relay adapter nobody but the reader is ever inside a call. */
  ghost predicate ReaderOnly(s: State) {
    forall c :: c in s.callers ==> c == READER
  }

  lemma ChunkCarried(received: bytes, entered: seq<QueuedFrame>, f: QueuedFrame, data: bytes, n: nat)
    requires n <= |data| && f.QueuedData? && f.data == data[..n]
    requires received == DataBytes(entered) + data
    ensures received == DataBytes(entered + [f]) + data[n..]
  {
    DataBytesConcat(entered, [f]);
    assert DataBytes([f]) == f.data by { assert [f][1..] == []; }
    assert data == data[..n] + data[n..];
  }

  lemma OtherCarried(received: bytes, entered: seq<QueuedFrame>, f: QueuedFrame, rest: bytes)
    requires !f.QueuedData?
    requires received == DataBytes(entered) + rest
    ensures received == DataBytes(entered + [f]) + rest
  {
    DataBytesConcat(entered, [f]);
    assert DataBytes([f]) == [] by { assert [f][1..] == []; }
    assert DataBytes(entered) + [] == DataBytes(entered);
  }

  lemma ReceivedStep(es: seq<Event>, e: Event, id: StreamId)
    ensures Received(es + [e], id) == Received(es, id) + Payload(e, id)
    ensures ReceivedTotal(es + [e]) == ReceivedTotal(es) + if e.ReceiveData? then |e.data| else 0
  {
    assert (es + [e])[..|es|] == es;
  }

  lemma ChunkStepCarried(s: State, id: StreamId, received: bytes, entered: seq<QueuedFrame>)
    requires PcOf(s, READER).Splitting?
    requires received == DataBytes(entered) + InHand(PcOf(s, READER), id)
    ensures received == DataBytes(entered + OfStream(Entering(s, EnqueueChunk(READER)), id))
                      + InHand(PcOf(Apply(s, EnqueueChunk(READER)), READER), id)
  {
    var pc := PcOf(s, READER);
    var f := ChunkOf(pc);
    OfStreamOwn([f], pc.id, id);
    if pc.id == id {
      ChunkCarried(received, entered, f, pc.data, ChunkLength(pc.data, pc.max));
    } else {
      assert entered + [] == entered;
    }
  }

  lemma OtherStepCarried(s: State, f: QueuedFrame, id: StreamId, received: bytes, entered: seq<QueuedFrame>)
    requires !f.QueuedData?
    requires received == DataBytes(entered) + InHand(PcOf(s, READER), id)
    ensures received == DataBytes(entered + OfStream([f], id)) + InHand(PcOf(s, READER), id)
  {
    OfStreamOwn([f], f.id, id);
    if f.id == id {
      OtherCarried(received, entered, f, InHand(PcOf(s, READER), id));
    } else {
      assert entered + [] == entered;
    }
  }

  lemma ReceiveStepCarried(s: State, e: Event, id: StreamId, received: bytes, entered: seq<QueuedFrame>)
    requires Enabled(true, s, e) && ReaderOnly(s) && !e.EnqueueChunk? && !e.EnqueueOther?
    requires received == DataBytes(entered) + InHand(PcOf(s, READER), id)
    ensures received + Payload(e, id) == DataBytes(entered) + InHand(PcOf(Apply(s, e), READER), id)
  {
    assert received + [] == received;
    assert DataBytes(entered) + [] == DataBytes(entered);
  }

  lemma StateStepCarried(s: State, e: Event, id: StreamId, received: bytes, entered: seq<QueuedFrame>)
    requires Enabled(true, s, e) && ReaderOnly(s)
    requires received == DataBytes(entered) + InHand(PcOf(s, READER), id)
    ensures received + Payload(e, id)
         == DataBytes(entered + OfStream(Entering(s, e), id)) + InHand(PcOf(Apply(s, e), READER), id)
  {
    if e.EnqueueChunk? {
      ChunkStepCarried(s, id, received, entered);
      assert received + [] == received;
    } else if e.EnqueueOther? {
      OtherStepCarried(s, e.frame, id, received, entered);
      assert received + [] == received;
    } else {
      ReceiveStepCarried(s, e, id, received, entered);
      assert entered + [] == entered;
    }
  }

  lemma StepCarried(es: seq<Event>, e: Event, id: StreamId)
    requires Enabled(true, After(es), e) && ReaderOnly(After(es))
    requires Carried(After(es), es, id)
    ensures Carried(After(es + [e]), es + [e], id) && ReaderOnly(After(es + [e]))
  {
    LedgerStep(es, e, id);
    ReceivedStep(es, e, id);
    StateStepCarried(After(es), e, id, Received(es, id), Entered(es, id));
  }

  lemma {:induction false} RunCarried(es: seq<Event>, id: StreamId)
    requires IsRun(true, es)
    ensures Carried(After(es), es, id) && ReaderOnly(After(es))
  {
    if es == [] {
    } else {
      RunPrefix(true, es);
      RunCarried(es[..|es|-1], id);
      StepCarried(es[..|es|-1], es[|es|-1], id);
    }
  }

  /**
   * With the relay adapter, the octets received on a stream are, in order, the
   * octets released for it, then those queued, then those the reader still holds.
   */
  lemma DataConserved(es: seq<Event>, id: StreamId)
    requires IsRun(true, es)
    ensures var s := After(es);
      Received(es, id)
        == DataBytes(OfStream(s.flow.output, id)) + DataBytes(QueueOf(s.flow, id)) + InHand(PcOf(s, READER), id)
  {
    RunCarried(es, id);
    PerStreamOrder(true, es, id);
    DataBytesConcat(OfStream(After(es).flow.output, id), QueueOf(After(es).flow, id));
  }

  lemma {:induction false} ReturnedConcat(a: seq<WireFrame>, b: seq<WireFrame>, id: StreamId)
    ensures Returned(a + b, id) == Returned(a, id) + Returned(b, id)
  {
    if a == [] {
      assert a + b == b;
    } else {
      assert (a + b)[1..] == a[1..] + b;
      ReturnedConcat(a[1..], b, id);
    }
  }

  lemma ReturnedPair(n: nat, i: StreamId, id: StreamId)
    requires i != 0
    ensures Returned([WindowUpdate(0, n), WindowUpdate(i, n)], id) == if id == 0 || id == i then n else 0
  {
    var back := [WindowUpdate(0, n), WindowUpdate(i, n)];
    assert back[1..] == [WindowUpdate(i, n)];
    assert back[1..][1..] == [];
    assert Returned(back[1..], id) == if id == i then n else 0;
  }

  lemma ReturnedOne(n: nat, i: StreamId, id: StreamId)
    ensures Returned([WindowUpdate(i, n)], id) == if id == i then n else 0
  {
    assert [WindowUpdate(i, n)][1..] == [];
  }

  function HalfReturned(e: Event): nat {
    if e.ReceiveBroken? && e.half then |e.data| else 0
  }

  /** Octets that were credited to the connection by a pair of updates whose second write failed. */
  function HalfReturnedTotal(es: seq<Event>): nat {
    if es == [] then 0 else HalfReturnedTotal(es[..|es|-1]) + HalfReturned(es[|es|-1])
  }

  lemma BackStep(s: State, e: Event, id: StreamId)
    requires e.ReceiveData? || e.ReceiveBroken? ==> e.id != 0
    ensures Returned(BackAfter(s, e), id) == Returned(s.back, id)
      + if id == 0 then (if e.ReceiveData? then |e.data| else 0) + HalfReturned(e) else |Payload(e, id)|
  {
    if e.ReceiveData? && e.data != [] {
      ReturnedConcat(s.back, [WindowUpdate(0, |e.data|), WindowUpdate(e.id, |e.data|)], id);
      ReturnedPair(|e.data|, e.id, id);
    } else if e.ReceiveBroken? && e.half {
      ReturnedConcat(s.back, [WindowUpdate(0, |e.data|)], id);
      ReturnedOne(|e.data|, 0, id);
    }
  }

  /**
   * Credit is returned to the source octet for octet: per stream exactly what was
   * received on it, for the connection exactly what was received in all, plus the
   * octets of the one frame whose second update failed. Then the reader is broken.
   */
  lemma {:induction false} CreditReturned(plain: bool, es: seq<Event>, id: StreamId)
    requires IsRun(plain, es)
    ensures Returned(After(es).back, id)
         == if id == 0 then ReceivedTotal(es) + HalfReturnedTotal(es) else |Received(es, id)|
    ensures HalfReturnedTotal(es) > 0 ==> PcOf(After(es), READER).Broken?
  {
    if es == [] {
    } else {
      var pre, e := es[..|es|-1], es[|es|-1];
      RunPrefix(plain, es);
      CreditReturned(plain, pre, id);
      ReceivedStep(pre, e, id);
      BackStep(After(pre), e, id);
    }
  }

  // ----- calls that end, and calls that do not

  /** The caller is in a round of the loop of data that gets nowhere. */
  predicate Stuck(pc: CallerPc) {
    pc.Splitting? && !LoopEnds(pc.data, pc.max)
  }

  lemma StuckStays(plain: bool, s: State, e: Event, c: CallerId)
    requires Enabled(plain, s, e) && Stuck(PcOf(s, c))
    ensures PcOf(Apply(s, e), c) == PcOf(s, c)
  {
    var pc := PcOf(s, c);
    assert pc.data[0..] == pc.data;
  }

  /** With a frame size of 0 and octets to send, the loop of data goes on through every continuation of the run. */
  lemma {:induction false} ZeroSizeNeverEnds(plain: bool, es: seq<Event>, k: nat, c: CallerId)
    requires IsRun(plain, es) && k <= |es|
    requires Stuck(PcOf(After(es[..k]), c))
    ensures PcOf(After(es), c) == PcOf(After(es[..k]), c)
  {
    if k == |es| {
      assert es[..k] == es;
    } else {
      RunPrefix(plain, es);
      var pre := es[..|es|-1];
      assert pre[..k] == es[..k];
      ZeroSizeNeverEnds(plain, pre, k, c);
      StuckStays(plain, After(pre), es[|es|-1], c);
    }
  }

  lemma RoundAdvances(s: State, c: CallerId)
    requires PcOf(s, c).Splitting? && !Stuck(PcOf(s, c))
    ensures var pc, next := PcOf(s, c), PcOf(Apply(s, EnqueueChunk(c)), c);
      next == if |pc.data| <= pc.max then Idle else Splitting(pc.id, pc.data[pc.max..], pc.ended, pc.max)
  {
  }

  lemma RunExtends(plain: bool, pre: seq<Event>, s: State, es: seq<Event>, e: Event)
    requires es != [] && es[..|es|-1] == pre && es[|es|-1] == e
    requires IsRun(plain, pre) && s == After(pre) && Enabled(plain, s, e)
    ensures IsRun(plain, es) && After(es) == Apply(s, e)
  {
  }

  lemma RunSnoc(plain: bool, es: seq<Event>, e: Event)
    requires IsRun(plain, es) && Enabled(plain, After(es), e)
    ensures IsRun(plain, es + [e]) && After(es + [e]) == Apply(After(es), e)
  {
    assert (es + [e])[..|es|] == es;
    RunExtends(plain, es, After(es), es + [e], e);
  }

  /** SETTINGS set the size to 0, and a DATA frame with one octet is relayed: its reader is stuck. */
  lemma ZeroSizeIsReachable(x: byte)
    ensures var es := [MaxFrame(0), ReceiveData(1, [x], false), CallData(READER, 1, [x], false), OpenBuffer(READER)];
      IsRun(true, es) && Stuck(PcOf(After(es), READER))
  {
    var e0, e1, e2, e3 := MaxFrame(0), ReceiveData(1, [x], false), CallData(READER, 1, [x], false), OpenBuffer(READER);
    RunSnoc(true, [], e0);
    assert [] + [e0] == [e0];
    RunSnoc(true, [e0], e1);
    assert [e0] + [e1] == [e0, e1];
    RunSnoc(true, [e0, e1], e2);
    assert [e0, e1] + [e2] == [e0, e1, e2];
    RunSnoc(true, [e0, e1, e2], e3);
    assert [e0, e1, e2] + [e3] == [e0, e1, e2, e3];
  }

  /** The rounds of the loop that a caller has gone through from the k-th event on. */
  function RoundsFrom(es: seq<Event>, k: nat, c: CallerId): nat {
    if |es| <= k then 0
    else RoundsFrom(es[..|es|-1], k, c) + if es[|es|-1] == EnqueueChunk(c) then 1 else 0
  }

  /** How many rounds a caller inside the loop has to go. */
  function RoundsLeft(pc: CallerPc): nat
    requires pc.Splitting?
  {
    |DataFrames(pc.id, pc.data, pc.ended, pc.max)|
  }

  lemma OthersKeepLoop(plain: bool, s: State, e: Event, c: CallerId)
    requires Enabled(plain, s, e) && PcOf(s, c).Splitting? && e != EnqueueChunk(c)
    ensures PcOf(Apply(s, e), c) == PcOf(s, c)
  {
  }

  lemma OneRoundLess(s: State, c: CallerId)
    requires PcOf(s, c).Splitting? && !Stuck(PcOf(s, c))
    ensures var next := PcOf(Apply(s, EnqueueChunk(c)), c);
      if RoundsLeft(PcOf(s, c)) == 1 then next.Idle?
      else next.Splitting? && !Stuck(next) && RoundsLeft(next) == RoundsLeft(PcOf(s, c)) - 1
  {
    RoundAdvances(s, c);
    var pc := PcOf(s, c);
    if |pc.data| > pc.max {
      assert |DataFrames(pc.id, pc.data[pc.max..], pc.ended, pc.max)| >= 1;
    }
  }

  /**
   * Any other call gets ahead in every run, whatever steps of others come in between:
   * each of its rounds is one less to go.
   */
  lemma {:induction false} CallGetsAhead(plain: bool, es: seq<Event>, k: nat, c: CallerId)
    requires IsRun(plain, es) && k <= |es|
    requires var pc := PcOf(After(es[..k]), c); pc.Splitting? && !Stuck(pc) && RoundsFrom(es, k, c) < RoundsLeft(pc)
    ensures var pc := PcOf(After(es), c);
      pc.Splitting? && !Stuck(pc) && RoundsLeft(pc) == RoundsLeft(PcOf(After(es[..k]), c)) - RoundsFrom(es, k, c)
  {
    if k == |es| {
      assert es[..k] == es;
    } else {
      RunPrefix(plain, es);
      var pre, e := es[..|es|-1], es[|es|-1];
      assert pre[..k] == es[..k];
      CallGetsAhead(plain, pre, k, c);
      if e == EnqueueChunk(c) {
        OneRoundLess(After(pre), c);
      } else {
        OthersKeepLoop(plain, After(pre), e, c);
      }
    }
  }

  /** So it is over right after as many rounds as it had frames. */
  lemma CallEnds(plain: bool, es: seq<Event>, k: nat, c: CallerId)
    requires IsRun(plain, es + [EnqueueChunk(c)]) && k <= |es|
    requires var pc := PcOf(After(es[..k]), c);
      pc.Splitting? && !Stuck(pc) && RoundsFrom(es, k, c) == RoundsLeft(pc) - 1
    ensures PcOf(After(es + [EnqueueChunk(c)]), c).Idle?
  {
    var e := EnqueueChunk(c);
    RunPrefix(plain, es + [e]);
    assert (es + [e])[..|es|] == es;
    CallGetsAhead(plain, es, k, c);
    OneRoundLess(After(es), c);
  }

  // ----- the calls of data, frame by frame

  /** The frames that a call hands to the relay for sending, if it ends. */
  function Calling(s: State, e: Event): seq<QueuedFrame> {
    if e.EnqueueOther? then [e.frame]
    else if e.CallData? && LoopEnds(e.data, s.maxFrameSize) then DataFrames(e.id, e.data, e.ended, s.maxFrameSize)
    else []
  }

  /** The empty frame of a round that gets nowhere. */
  function Spinning(s: State, e: Event): seq<QueuedFrame> {
    if e.EnqueueChunk? && Stuck(PcOf(s, e.c)) then [ChunkOf(PcOf(s, e.c))] else []
  }

  /** The event is a step of caller `c`, in its own goroutine. */
  predicate IsBy(e: Event, c: CallerId) {
    (e.CallData? || e.OpenBuffer? || e.EnqueueChunk? || e.EnqueueOther?) && e.c == c
  }

  function EnteringBy(s: State, e: Event, c: CallerId): seq<QueuedFrame> {
    if IsBy(e, c) then Entering(s, e) else []
  }

  function CallingBy(s: State, e: Event, c: CallerId): seq<QueuedFrame> {
    if IsBy(e, c) then Calling(s, e) else []
  }

  function SpinningBy(s: State, e: Event, c: CallerId): seq<QueuedFrame> {
    if IsBy(e, c) then Spinning(s, e) else []
  }

  /** The frames a caller's calls have handed over for one stream, in call order. */
  function Called(es: seq<Event>, c: CallerId, id: StreamId): seq<QueuedFrame> {
    if es == [] then []
    else Called(es[..|es|-1], c, id) + OfStream(CallingBy(After(es[..|es|-1]), es[|es|-1], c), id)
  }

  /** The frames a caller has enqueued for one stream, in order. */
  function EnteredBy(es: seq<Event>, c: CallerId, id: StreamId): seq<QueuedFrame> {
    if es == [] then []
    else EnteredBy(es[..|es|-1], c, id) + OfStream(EnteringBy(After(es[..|es|-1]), es[|es|-1], c), id)
  }

  /** The empty frames a caller that does not get ahead has enqueued for one stream. */
  function Spun(es: seq<Event>, c: CallerId, id: StreamId): seq<QueuedFrame> {
    if es == [] then []
    else Spun(es[..|es|-1], c, id) + OfStream(SpinningBy(After(es[..|es|-1]), es[|es|-1], c), id)
  }

  /** The frames of the current call that are not enqueued yet. */
  function Pending(pc: CallerPc): seq<QueuedFrame> {
    if (pc.Sized? || pc.Splitting?) && LoopEnds(pc.data, pc.max) then DataFrames(pc.id, pc.data, pc.ended, pc.max)
    else []
  }

  lemma ChunkPending(s: State, c: CallerId)
    requires PcOf(s, c).Splitting? && !Stuck(PcOf(s, c))
    ensures [ChunkOf(PcOf(s, c))] + Pending(PcOf(Apply(s, EnqueueChunk(c)), c)) == Pending(PcOf(s, c))
  {
  }

  /** A step of a caller that gets ahead moves frames from pending to entered, or adds to what was called. */
  lemma StepPending(plain: bool, s: State, e: Event, c: CallerId)
    requires Enabled(plain, s, e) && IsBy(e, c) && !Stuck(PcOf(s, c))
    ensures Entering(s, e) + Pending(PcOf(Apply(s, e), c)) == Pending(PcOf(s, c)) + Calling(s, e)
    ensures Spinning(s, e) == []
  {
    if e.EnqueueChunk? {
      ChunkPending(s, c);
    } else if e.EnqueueOther? || e.CallData? {
      assert Pending(PcOf(s, c)) == [];
    }
  }

  /** A caller's books: as called, and empty frames only where it does not get ahead. */
  ghost predicate Booked(
      entered: seq<QueuedFrame>, pending: seq<QueuedFrame>,
      called: seq<QueuedFrame>, spun: seq<QueuedFrame>, stuck: bool) {
    entered + pending == called + spun && (spun != [] ==> stuck)
  }

  lemma MovePending(
      entered: seq<QueuedFrame>, pending: seq<QueuedFrame>, entering: seq<QueuedFrame>,
      calling: seq<QueuedFrame>, after: seq<QueuedFrame>, called: seq<QueuedFrame>, id: StreamId)
    requires entering + after == pending + calling
    requires entered + OfStream(pending, id) == called
    ensures entered + OfStream(entering, id) + OfStream(after, id) == called + OfStream(calling, id)
  {
    OfStreamConcat(entering, after, id);
    OfStreamConcat(pending, calling, id);
    ConcatAssoc(entered, OfStream(entering, id), OfStream(after, id));
    ConcatAssoc(entered, OfStream(pending, id), OfStream(calling, id));
  }

  lemma OwnStepBooked(
      plain: bool, s: State, e: Event, c: CallerId, id: StreamId, entered: seq<QueuedFrame>, called: seq<QueuedFrame>)
    requires Enabled(plain, s, e) && IsBy(e, c) && !Stuck(PcOf(s, c))
    requires entered + OfStream(Pending(PcOf(s, c)), id) == called
    ensures entered + OfStream(Entering(s, e), id) + OfStream(Pending(PcOf(Apply(s, e), c)), id)
         == called + OfStream(Calling(s, e), id)
    ensures Spinning(s, e) == []
  {
    StepPending(plain, s, e, c);
    MovePending(entered, Pending(PcOf(s, c)), Entering(s, e), Calling(s, e), Pending(PcOf(Apply(s, e), c)), called, id);
  }

  lemma StuckStep(plain: bool, s: State, e: Event, c: CallerId)
    requires Enabled(plain, s, e) && IsBy(e, c) && Stuck(PcOf(s, c))
    ensures Entering(s, e) == Spinning(s, e) && Calling(s, e) == []
    ensures Pending(PcOf(s, c)) == Pending(PcOf(Apply(s, e), c)) == [] && Stuck(PcOf(Apply(s, e), c))
  {
    StuckStays(plain, s, e, c);
  }

  lemma StuckGrows(entered: seq<QueuedFrame>, called: seq<QueuedFrame>, spun: seq<QueuedFrame>, more: seq<QueuedFrame>)
    requires Booked(entered, [], called, spun, true)
    ensures Booked(entered + more, [], called, spun + more, true)
  {
    assert entered + [] == entered;
    ConcatAssoc(called, spun, more);
    assert (entered + more) + [] == entered + more;
  }

  lemma OtherPcKept(plain: bool, s: State, e: Event, c: CallerId)
    requires Enabled(plain, s, e) && !IsBy(e, c)
    ensures Pending(PcOf(Apply(s, e), c)) == Pending(PcOf(s, c))
    ensures Stuck(PcOf(s, c)) ==> Stuck(PcOf(Apply(s, e), c))
  {
    assert e.ReceiveData? || e.ReceiveBroken? || PcOf(Apply(s, e), c) == PcOf(s, c);
  }

  /** Every step keeps the books of every caller. */
  lemma StepBooked(
      plain: bool, s: State, e: Event, c: CallerId, id: StreamId,
      entered: seq<QueuedFrame>, called: seq<QueuedFrame>, spun: seq<QueuedFrame>)
    requires Enabled(plain, s, e)
    requires Booked(entered, OfStream(Pending(PcOf(s, c)), id), called, spun, Stuck(PcOf(s, c)))
    ensures Booked(entered + OfStream(EnteringBy(s, e, c), id), OfStream(Pending(PcOf(Apply(s, e), c)), id),
                   called + OfStream(CallingBy(s, e, c), id), spun + OfStream(SpinningBy(s, e, c), id),
                   Stuck(PcOf(Apply(s, e), c)))
  {
    assert entered + [] == entered && called + [] == called && spun + [] == spun;
    if !IsBy(e, c) {
      OtherPcKept(plain, s, e, c);
    } else if Stuck(PcOf(s, c)) {
      StuckStep(plain, s, e, c);
      StuckGrows(entered, called, spun, OfStream(Spinning(s, e), id));
    } else {
      OwnStepBooked(plain, s, e, c, id, entered, called);
      var now := called + OfStream(Calling(s, e), id);
      assert now + [] == now;
    }
  }

  /** How a caller's ledgers grow by one event. */
  lemma CallerLedgerStep(es: seq<Event>, e: Event, c: CallerId, id: StreamId)
    ensures After(es + [e]) == Apply(After(es), e)
    ensures EnteredBy(es + [e], c, id) == EnteredBy(es, c, id) + OfStream(EnteringBy(After(es), e, c), id)
    ensures Called(es + [e], c, id) == Called(es, c, id) + OfStream(CallingBy(After(es), e, c), id)
    ensures Spun(es + [e], c, id) == Spun(es, c, id) + OfStream(SpinningBy(After(es), e, c), id)
  {
    assert (es + [e])[..|es|] == es;
  }

  /**
   * For every run and every caller: what the caller has enqueued for a stream and what
   * is pending in its current call are the frames of its calls, in call order, the DATA
   * of each call split at the frame size in force when that call began. Only a call
   * that does not end adds anything else, and that is empty frames.
   */
  lemma {:induction false} FramesAsCalled(plain: bool, es: seq<Event>, c: CallerId, id: StreamId)
    requires IsRun(plain, es)
    ensures EnteredBy(es, c, id) + OfStream(Pending(PcOf(After(es), c)), id) == Called(es, c, id) + Spun(es, c, id)
    ensures Spun(es, c, id) != [] ==> Stuck(PcOf(After(es), c))
  {
    if es == [] {
    } else {
      var pre, e := es[..|es|-1], es[|es|-1];
      RunPrefix(plain, es);
      FramesAsCalled(plain, pre, c, id);
      CallerLedgerStep(pre, e, c, id);
      StepBooked(plain, After(pre), e, c, id, EnteredBy(pre, c, id), Called(pre, c, id), Spun(pre, c, id));
    }
  }

  /** No other caller has enqueued anything for the stream. */
  ghost predicate SoleCaller(es: seq<Event>, c: CallerId, id: StreamId) {
    forall k :: 0 <= k < |es| && !IsBy(es[k], c) ==> OfStream(Entering(After(es[..k]), es[k]), id) == []
  }

  lemma {:induction false} SoleCallerEnters(es: seq<Event>, c: CallerId, id: StreamId)
    requires SoleCaller(es, c, id)
    ensures Entered(es, id) == EnteredBy(es, c, id)
  {
    if es == [] {
    } else {
      var pre := es[..|es|-1];
      forall k | 0 <= k < |pre| && !IsBy(pre[k], c) ensures OfStream(Entering(After(pre[..k]), pre[k]), id) == [] {
        assert pre[..k] == es[..k];
      }
      SoleCallerEnters(pre, c, id);
    }
  }

  /** A stream with one caller: released, then queued, then pending frames are the frames called. */
  lemma SentAsCalled(plain: bool, es: seq<Event>, c: CallerId, id: StreamId)
    requires IsRun(plain, es) && SoleCaller(es, c, id)
    ensures var s := After(es);
      OfStream(s.flow.output, id) + QueueOf(s.flow, id) + OfStream(Pending(PcOf(s, c)), id)
      == Called(es, c, id) + Spun(es, c, id)
  {
    FramesAsCalled(plain, es, c, id);
    SoleCallerEnters(es, c, id);
    PerStreamOrder(plain, es, id);
  }
}
