/**
 * Header blocks: split to the peer's frame size when they are queued, written as
 * HEADERS or PUSH_PROMISE with CONTINUATIONs, and put together again by the
 * reader of the next relay. HPACK is left opaque: a block is what encodeFull
 * returned and what decodeFull is given.
 */
module HeaderBlocks {
  import opened Bytes
  import opened H2Frames

  const HEADERS_PRIORITY_METADATA := 5
  const PUSH_PROMISE_METADATA := 4

  const NO_PRIORITY := Priority(0, false, 0)

  // ----- splitting

  function Continuations(max: nat, data: bytes): seq<bytes>
    requires max > 0 || data == []
    decreases |data|
  {
    if data == [] then []
    else if |data| <= max then [data]
    else [data[..max]] + Continuations(max, data[max..])
  }

  function Chunks(firstMax: nat, continuationMax: nat, data: bytes): seq<bytes>
    requires Ends(firstMax, continuationMax, data)
  {
    var n := if |data| > firstMax then firstMax else |data|;
    [data[..n]] + Continuations(continuationMax, data[n..])
  }

  /** The loop of splitIntoChunks ends for these sizes. */
  predicate Ends(firstMax: nat, continuationMax: nat, data: bytes) {
    continuationMax > 0 || |data| <= firstMax
  }

  /**
   * splitIntoChunks, watched for `rounds` rounds of its loop. If the loop can end, it
   * ends after as many rounds as there are continuations; if it cannot, it goes on
   * adding empty chunks for as long as one watches.
   */
  method SplitIntoChunks(firstChunkMax: nat, continuationMax: nat, data: bytes, rounds: nat)
      returns (chunks: seq<bytes>, ended: bool)
    ensures Ends(firstChunkMax, continuationMax, data) ==>
      var all := Chunks(firstChunkMax, continuationMax, data);
      ended == (|all| <= rounds + 1) && chunks == if ended then all else all[..rounds + 1]
    ensures !Ends(firstChunkMax, continuationMax, data) ==>
      !ended && |chunks| == rounds + 1 && chunks[0] == data[..firstChunkMax]
      && forall i :: 1 <= i < |chunks| ==> chunks[i] == []
  {
    var firstChunkLength := |data|;
    if firstChunkLength > firstChunkMax {
      firstChunkLength := firstChunkMax;
    }
    chunks := [data[..firstChunkLength]];
    var remaining := data[firstChunkLength..];
    var round := 0;
    while |remaining| > 0 && round < rounds
      invariant 0 <= round <= rounds && |chunks| == round + 1
      invariant Ends(firstChunkMax, continuationMax, data) ==>
        && (continuationMax > 0 || remaining == [])
        && chunks + Continuations(continuationMax, remaining) == Chunks(firstChunkMax, continuationMax, data)
      invariant !Ends(firstChunkMax, continuationMax, data) ==>
        && remaining == data[firstChunkMax..]
        && chunks[0] == data[..firstChunkMax] && forall i :: 1 <= i < |chunks| ==> chunks[i] == []
      decreases rounds - round
    {
      var nextChunkLength := |remaining|;
      if nextChunkLength > continuationMax {
        nextChunkLength := continuationMax;
      }
      var chunk := remaining[..nextChunkLength];
      if Ends(firstChunkMax, continuationMax, data) {
        NextContinuation(continuationMax, remaining, nextChunkLength);
        ConcatAssoc(chunks, [chunk], Continuations(continuationMax, remaining[nextChunkLength..]));
      }
      chunks := chunks + [chunk];
      remaining := remaining[nextChunkLength..];
      round := round + 1;
    }
    ended := |remaining| == 0;
    if Ends(firstChunkMax, continuationMax, data) {
      ContinuationsMeaning(continuationMax, remaining);
      assert ended ==> chunks + [] == chunks;
      assert chunks == (chunks + Continuations(continuationMax, remaining))[..|chunks|];
    }
  }

  lemma NextContinuation(max: nat, remaining: bytes, n: nat)
    requires max > 0 && remaining != [] && n == Min(|remaining|, max)
    ensures Continuations(max, remaining) == [remaining[..n]] + Continuations(max, remaining[n..])
  {
    if |remaining| <= max {
      assert remaining[..n] == remaining && remaining[n..] == [];
    }
  }

  lemma {:induction false} ContinuationsMeaning(max: nat, data: bytes)
    requires max > 0 || data == []
    ensures Flatten(Continuations(max, data)) == data
    ensures forall i :: 0 <= i < |Continuations(max, data)| ==> 0 < |Continuations(max, data)[i]| <= max
    ensures Continuations(max, data) == [] <==> data == []
    decreases |data|
  {
    if data == [] {
    } else {
      if |data| <= max {
        FlattenOne(data);
      } else {
        ContinuationsMeaning(max, data[max..]);
        assert Continuations(max, data)[1..] == Continuations(max, data[max..]);
        assert data == data[..max] + data[max..];
      }
    }
  }

  /**
   * No octet is lost or moved, no chunk is too long, no continuation is empty, and
   * the block is left whole exactly when it fits the first frame.
   */
  lemma ChunksMeaning(firstMax: nat, continuationMax: nat, data: bytes)
    requires Ends(firstMax, continuationMax, data)
    ensures var cs := Chunks(firstMax, continuationMax, data);
      && Flatten(cs) == data
      && |cs| >= 1
      && |cs[0]| <= firstMax
      && (forall i :: 1 <= i < |cs| ==> 0 < |cs[i]| <= continuationMax)
      && (|cs| == 1 <==> |data| <= firstMax)
  {
    var n := if |data| > firstMax then firstMax else |data|;
    ContinuationsMeaning(continuationMax, data[n..]);
    assert data == data[..n] + data[n..];
    assert Chunks(firstMax, continuationMax, data)[1..] == Continuations(continuationMax, data[n..]);
  }

  // ----- queueing

  /** The first fragment shares its frame with the metadata; the subtraction is on 32-bit words. */
  function FirstFragmentMax(max: Word, metadata: nat): Word
    requires metadata < UINT32
  {
    (max + UINT32 - metadata) % UINT32
  }

  function HeaderMetadata(priority: Priority): (n: nat)
    ensures n < UINT32
  {
    if priority.IsZero() then 0 else HEADERS_PRIORITY_METADATA
  }

  /** The loop of splitIntoChunks ends for this block. */
  predicate Splittable(max: Word, metadata: nat, block: bytes)
    requires metadata < UINT32
  {
    Ends(FirstFragmentMax(max, metadata), max, block)
  }

  /** The frame header queues. */
  function HeaderFor(id: StreamId, block: bytes, ended: bool, priority: Priority, max: Word): QueuedFrame
    requires Splittable(max, HeaderMetadata(priority), block)
  {
    QueuedHeader(id, ended, priority, Chunks(FirstFragmentMax(max, HeaderMetadata(priority)), max, block))
  }

  /** The frame pushPromise queues. */
  function PushPromiseFor(id: StreamId, promiseId: StreamId, block: bytes, max: Word): QueuedFrame
    requires Splittable(max, PUSH_PROMISE_METADATA, block)
  {
    QueuedPushPromise(id, promiseId, Chunks(FirstFragmentMax(max, PUSH_PROMISE_METADATA), max, block))
  }

  /** The part of header before the frame is queued; None while the split has not ended after `rounds` rounds. */
  method MakeHeader(maxPayloadLength: Word, id: StreamId,
        block: bytes, streamEnded: bool, priority: Priority, rounds: nat)
      returns (f: Option<QueuedFrame>)
    ensures f == if Splittable(maxPayloadLength, HeaderMetadata(priority), block)
                    && |HeaderFor(id, block, streamEnded, priority, maxPayloadLength).chunks| <= rounds + 1
                 then Some(HeaderFor(id, block, streamEnded, priority, maxPayloadLength)) else None
  {
    var maxHeaderFragmentLength := maxPayloadLength;
    if !priority.IsZero() {
      maxHeaderFragmentLength := (maxPayloadLength + UINT32 - HEADERS_PRIORITY_METADATA) % UINT32;
    }
    var chunks, ended := SplitIntoChunks(maxHeaderFragmentLength, maxPayloadLength, block, rounds);
    f := if ended then Some(QueuedHeader(id, streamEnded, priority, chunks)) else None;
  }

  /** The part of pushPromise before the frame is queued. */
  method MakePushPromise(maxPayloadLength: Word, id: StreamId, promiseId: StreamId, block: bytes, rounds: nat)
      returns (f: Option<QueuedFrame>)
    ensures f == if Splittable(maxPayloadLength, PUSH_PROMISE_METADATA, block)
                    && |PushPromiseFor(id, promiseId, block, maxPayloadLength).chunks| <= rounds + 1
                 then Some(PushPromiseFor(id, promiseId, block, maxPayloadLength)) else None
  {
    var maxHeaderFragmentLength := (maxPayloadLength + UINT32 - PUSH_PROMISE_METADATA) % UINT32;
    var chunks, ended := SplitIntoChunks(maxHeaderFragmentLength, maxPayloadLength, block, rounds);
    f := if ended then Some(QueuedPushPromise(id, promiseId, chunks)) else None;
  }

  // ----- sending

  predicate Sendable(f: QueuedFrame) {
    f.QueuedHeader? || f.QueuedPushPromise? ==> |f.chunks| >= 1
  }

  function ContinuationFrames(id: StreamId, chunks: seq<bytes>): seq<WireFrame> {
    if chunks == [] then []
    else [Continuation(id, |chunks| == 1, chunks[0])] + ContinuationFrames(id, chunks[1..])
  }

  /** What send writes for a queued frame. */
  function Wire(f: QueuedFrame): seq<WireFrame>
    requires Sendable(f)
  {
    match f
    case QueuedData(id, endStream, data) => [Data(id, endStream, data)]
    case QueuedHeader(id, endStream, priority, chunks) =>
      [Headers(id, endStream, |chunks| <= 1, priority, chunks[0])] + ContinuationFrames(id, chunks[1..])
    case QueuedPushPromise(id, promiseId, chunks) =>
      [PushPromise(id, promiseId, |chunks| <= 1, chunks[0])] + ContinuationFrames(id, chunks[1..])
    case QueuedPriority(id, priority) => [PriorityUpdate(id, priority)]
    case QueuedRstStream(id, errCode) => [RstStream(id, errCode)]
  }

  /** The loop the two multi-frame sends share. */
  method WriteContinuations(id: StreamId, chunks: seq<bytes>) returns (written: seq<WireFrame>)
    requires |chunks| >= 1
    ensures written == ContinuationFrames(id, chunks[1..])
  {
    written := [];
    var i := 1;
    while i < |chunks|
      invariant 1 <= i <= |chunks|
      invariant written + ContinuationFrames(id, chunks[i..]) == ContinuationFrames(id, chunks[1..])
    {
      var headersEnded := i == |chunks| - 1;
      ghost var before := written + ContinuationFrames(id, chunks[i..]);
      assert chunks[i..][1..] == chunks[i+1..];
      assert ContinuationFrames(id, chunks[i..])
           == [Continuation(id, headersEnded, chunks[i])] + ContinuationFrames(id, chunks[i+1..]);
      written := written + [Continuation(id, headersEnded, chunks[i])];
      assert written + ContinuationFrames(id, chunks[i+1..]) == before;
      i := i + 1;
    }
    assert chunks[i..] == [];
  }

  method Send(f: QueuedFrame) returns (written: seq<WireFrame>)
    requires Sendable(f)
    ensures written == Wire(f)
  {
    match f
    case QueuedData(id, endStream, data) => written := [Data(id, endStream, data)];
    case QueuedHeader(id, endStream, priority, chunks) =>
      var rest := WriteContinuations(id, chunks);
      written := [Headers(id, endStream, |chunks| <= 1, priority, chunks[0])] + rest;
    case QueuedPushPromise(id, promiseId, chunks) =>
      var rest := WriteContinuations(id, chunks);
      written := [PushPromise(id, promiseId, |chunks| <= 1, chunks[0])] + rest;
    case QueuedPriority(id, priority) => written := [PriorityUpdate(id, priority)];
    case QueuedRstStream(id, errCode) => written := [RstStream(id, errCode)];
  }

  predicate EndsHeaders(f: WireFrame) {
    (f.Headers? || f.PushPromise? || f.Continuation?) && f.endHeaders
  }

  lemma {:induction false} ContinuationFramesShape(id: StreamId, chunks: seq<bytes>)
    ensures |ContinuationFrames(id, chunks)| == |chunks|
    ensures forall i :: 0 <= i < |chunks| ==>
              ContinuationFrames(id, chunks)[i] == Continuation(id, i == |chunks| - 1, chunks[i])
  {
    if chunks == [] {
    } else {
      ContinuationFramesShape(id, chunks[1..]);
    }
  }

  /** The length of a frame's payload, metadata included. */
  function PayloadLength(f: WireFrame): nat {
    match f
    case Headers(_, _, _, priority, fragment) => |fragment| + HeaderMetadata(priority)
    case PushPromise(_, _, _, fragment) => |fragment| + PUSH_PROMISE_METADATA
    case Continuation(_, _, fragment) => |fragment|
    case _ => 0
  }

  ghost predicate AllFit(fs: seq<WireFrame>, max: nat) {
    forall i :: 0 <= i < |fs| ==> PayloadLength(fs[i]) <= max
  }

  lemma FirstFragmentMaxCases(max: Word, metadata: nat)
    requires metadata < UINT32
    ensures FirstFragmentMax(max, metadata) == if max >= metadata then max - metadata else max + UINT32 - metadata
  {
  }

  /** A header block fits its frames exactly when its first fragment fits beside the metadata. */
  lemma BlockFits(first: WireFrame, id: StreamId, chunks: seq<bytes>, max: nat)
    requires forall i :: 0 <= i < |chunks| ==> |chunks[i]| <= max
    ensures AllFit([first] + ContinuationFrames(id, chunks), max) <==> PayloadLength(first) <= max
  {
    var rest := ContinuationFrames(id, chunks);
    ContinuationFramesShape(id, chunks);
    assert ([first] + rest)[0] == first;
    assert forall i :: 0 <= i < |rest| ==> PayloadLength(rest[i]) <= max;
  }

  lemma FirstFits(max: Word, metadata: nat, block: bytes)
    requires metadata < UINT32 && Splittable(max, metadata, block)
    ensures var cs := Chunks(FirstFragmentMax(max, metadata), max, block);
      && |cs| >= 1
      && (forall i :: 0 <= i < |cs[1..]| ==> |cs[1..][i]| <= max)
      && (|cs[0]| + metadata <= max <==> max >= metadata)
  {
    FirstFragmentMaxCases(max, metadata);
    ChunksMeaning(FirstFragmentMax(max, metadata), max, block);
  }

  /**
   * Every frame of a queued header respects the frame size, its priority metadata
   * included, exactly when the frame size leaves room for that metadata. (Section
   * 6.5.2 of RFC 7540 allows no size below 16384; the relay does not check it.)
   */
  lemma HeaderFramesFit(id: StreamId, block: bytes, ended: bool, priority: Priority, max: Word)
    requires Splittable(max, HeaderMetadata(priority), block)
    ensures AllFit(Wire(HeaderFor(id, block, ended, priority, max)), max) <==> max >= HeaderMetadata(priority)
  {
    var cs := Chunks(FirstFragmentMax(max, HeaderMetadata(priority)), max, block);
    FirstFits(max, HeaderMetadata(priority), block);
    BlockFits(Headers(id, ended, |cs| <= 1, priority, cs[0]), id, cs[1..], max);
  }

  /** A frame size of 4 does not leave room for a priority: even an empty block exceeds it. */
  lemma PriorityExceedsSmallSize(weight: byte)
    requires weight > 0
    ensures !AllFit(Wire(HeaderFor(1, [], true, Priority(0, false, weight), 4)), 4)
  {
    HeaderFramesFit(1, [], true, Priority(0, false, weight), 4);
  }

  lemma PushPromiseFramesFit(id: StreamId, promiseId: StreamId, block: bytes, max: Word)
    requires Splittable(max, PUSH_PROMISE_METADATA, block)
    ensures AllFit(Wire(PushPromiseFor(id, promiseId, block, max)), max) <==> max >= PUSH_PROMISE_METADATA
  {
    var cs := Chunks(FirstFragmentMax(max, PUSH_PROMISE_METADATA), max, block);
    FirstFits(max, PUSH_PROMISE_METADATA, block);
    BlockFits(PushPromise(id, promiseId, |cs| <= 1, cs[0]), id, cs[1..], max);
  }

  // ----- reading

  // continuationState: what the CONTINUATION frames belong to.
  datatype Parent = NoParent | HeaderParent(priority: Priority) | PushPromiseParent(promiseId: StreamId)

  datatype ReadState = ReadState(headerBuffer: bytes, parent: Parent)

  // What processFrame hands to the stream's processor.
  datatype Delivery =
    | DataDelivery(id: StreamId, data: bytes, ended: bool)
    | HeaderDelivery(id: StreamId, block: bytes, ended: bool, priority: Priority)
    | PushPromiseDelivery(id: StreamId, promiseId: StreamId, block: bytes)
    | PriorityDelivery(id: StreamId, priority: Priority)
    | RstDelivery(id: StreamId, errCode: nat)

  // What becomes of one frame.
  datatype Outcome =
    | Deliver(ds: seq<Delivery>)   // to the stream's processor
    | Forward(frame: WireFrame, updates: seq<PeerUpdate>)  // written to the destination, after updates of the peer
    | Update(frame: WireFrame)     // applied to the peer's windows
    | Undecodable                  // processFrame returns the decoder's error
    | NilState                     // continuationState is nil
    | UnknownFrame                 // processFrame returns an error of its own

  // What SETTINGS change at the peer; the others are only passed on.
  datatype PeerUpdate = TableSize(v: nat) | InitialWindowSize(v: nat) | MaxFrameSize(v: nat)

  function UpdatesOf(settings: seq<(nat, nat)>): seq<PeerUpdate> {
    if settings == [] then [] else UpdateOf(settings[0]) + UpdatesOf(settings[1..])
  }

  function UpdateOf(setting: (nat, nat)): seq<PeerUpdate> {
    match setting.0
    case 1 => [TableSize(setting.1)]
    case 4 => [InitialWindowSize(setting.1)]
    case 5 => [MaxFrameSize(setting.1)]
    case _ => []
  }

  /** The loop over the settings: each is applied if it concerns the peer, and all are collected. */
  method ForeachSetting(settings: seq<(nat, nat)>) returns (updates: seq<PeerUpdate>, all: seq<(nat, nat)>)
    ensures updates == UpdatesOf(settings) && all == settings
  {
    updates, all := [], [];
    for i := 0 to |settings|
      invariant all == settings[..i]
      invariant updates + UpdatesOf(settings[i..]) == UpdatesOf(settings)
    {
      var s := settings[i];
      assert settings[i..][1..] == settings[i+1..];
      var one := match s.0
        case 1 => [TableSize(s.1)]
        case 4 => [InitialWindowSize(s.1)]
        case 5 => [MaxFrameSize(s.1)]
        case _ => [];
      ConcatAssoc(updates, one, UpdatesOf(settings[i+1..]));
      updates, all := updates + one, all + [s];
    }
    assert settings[|settings|..] == [] && settings[..|settings|] == settings;
    assert updates + [] == updates;
  }

  /** complete: a continued HEADERS is always reported as ending the stream. */
  function Complete(parent: Parent, id: StreamId, block: bytes): seq<Delivery> {
    match parent
    case NoParent => []
    case HeaderParent(priority) => [HeaderDelivery(id, block, true, priority)]
    case PushPromiseParent(promiseId) => [PushPromiseDelivery(id, promiseId, block)]
  }

  function ReadOne(st: ReadState, f: WireFrame): (ReadState, seq<Delivery>) {
    match f
    case Data(id, endStream, data) => (st, [DataDelivery(id, data, endStream)])
    case Headers(id, endStream, endHeaders, priority, fragment) =>
      if endHeaders then (st, [HeaderDelivery(id, fragment, endStream, priority)])
      else (ReadState(fragment, HeaderParent(priority)), [])
    case PushPromise(id, promiseId, endHeaders, fragment) =>
      if endHeaders then (st, [PushPromiseDelivery(id, promiseId, fragment)])
      else (ReadState(fragment, PushPromiseParent(promiseId)), [])
    case Continuation(id, endHeaders, fragment) =>
      var all := st.headerBuffer + fragment;
      (st.(headerBuffer := all), if endHeaders then Complete(st.parent, id, all) else [])
    case PriorityUpdate(id, priority) => (st, [PriorityDelivery(id, priority)])
    case RstStream(id, errCode) => (st, [RstDelivery(id, errCode)])
    case _ => (st, [])
  }

  function ReadAll(st: ReadState, fs: seq<WireFrame>): (ReadState, seq<Delivery>)
    decreases |fs|
  {
    if fs == [] then (st, [])
    else
      var (st1, ds1) := ReadOne(st, fs[0]);
      var (st2, ds2) := ReadAll(st1, fs[1..]);
      (st2, ds1 + ds2)
  }

  lemma {:induction false} ReadAllConcat(st: ReadState, a: seq<WireFrame>, b: seq<WireFrame>)
    ensures ReadAll(st, a + b).0 == ReadAll(ReadAll(st, a).0, b).0
    ensures ReadAll(st, a + b).1 == ReadAll(st, a).1 + ReadAll(ReadAll(st, a).0, b).1
    decreases |a|
  {
    if a == [] {
      assert a + b == b;
    } else {
      assert (a + b)[1..] == a[1..] + b;
      ReadAllConcat(ReadOne(st, a[0]).0, a[1..], b);
    }
  }

  /** Whoever stops reading early has delivered a prefix. */
  lemma ReadAllPrefix(st: ReadState, fs: seq<WireFrame>, k: nat) returns (rest: seq<Delivery>)
    requires k <= |fs|
    ensures ReadAll(st, fs).1 == ReadAll(st, fs[..k]).1 + rest
  {
    assert fs == fs[..k] + fs[k..];
    ReadAllConcat(st, fs[..k], fs[k..]);
    rest := ReadAll(ReadAll(st, fs[..k]).0, fs[k..]).1;
  }

  /** A frame of a stream, and if it completes a block, one that the decoder accepts and that has a parent. */
  predicate IsDeliverable(st: ReadState, f: WireFrame, decodes: bool) {
    && !IsControl(f) && !f.Unrecognized?
    && (EndsHeaders(f) ==> decodes && (f.Continuation? ==> !st.parent.NoParent?))
  }

  /** The reader's header fields, updated in place. */
  class HeaderReader {
    var headerBuffer: bytes
    var parent: Parent

    constructor ()
      ensures State() == ReadState([], NoParent)
    {
      headerBuffer, parent := [], NoParent;
    }

    function State(): ReadState
      reads this
    {
      ReadState(headerBuffer, parent)
    }

    /**
     * One frame. `decodes` tells whether the decoder accepts the block the frame
     * completes, if it completes one. Control frames pass on to the destination or to
     * the peer; a CONTINUATION that continues nothing dereferences a nil state.
     */
    method ProcessFrame(f: WireFrame, decodes: bool) returns (outcome: Outcome)
      modifies this
      ensures State() == ReadOne(old(State()), f).0
      ensures EndsHeaders(f) && !decodes ==> outcome == Undecodable
      ensures f.Continuation? && f.endHeaders && decodes && old(parent).NoParent? ==> outcome == NilState
      ensures f.WindowUpdate? ==> outcome == Update(f)
      ensures f.Ping? || f.GoAway? ==> outcome == Forward(f, [])
      ensures f.Settings? ==>
        outcome == if f.ack then Forward(Settings(true, []), []) else Forward(f, UpdatesOf(f.settings))
      ensures f.Unrecognized? ==> outcome == UnknownFrame
      ensures IsDeliverable(old(State()), f, decodes) ==> outcome == Deliver(ReadOne(old(State()), f).1)
    {
      outcome := Deliver([]);
      match f
      case Data(id, endStream, data) => outcome := Deliver([DataDelivery(id, data, endStream)]);
      case Headers(id, endStream, endHeaders, priority, fragment) =>
        if !endHeaders {
          headerBuffer := [];
          headerBuffer := headerBuffer + fragment;
          parent := HeaderParent(priority);
        } else {
          outcome := if !decodes then Undecodable else Deliver([HeaderDelivery(id, fragment, endStream, priority)]);
        }
      case PushPromise(id, promiseId, endHeaders, fragment) =>
        if !endHeaders {
          headerBuffer := [];
          headerBuffer := headerBuffer + fragment;
          parent := PushPromiseParent(promiseId);
        } else {
          outcome := if !decodes then Undecodable else Deliver([PushPromiseDelivery(id, promiseId, fragment)]);
        }
      case Continuation(id, endHeaders, fragment) =>
        headerBuffer := headerBuffer + fragment;
        if endHeaders {
          outcome := if !decodes then Undecodable
                     else if parent.NoParent? then NilState
                     else Deliver(Complete(parent, id, headerBuffer));
        }
      case PriorityUpdate(id, priority) => outcome := Deliver([PriorityDelivery(id, priority)]);
      case RstStream(id, errCode) => outcome := Deliver([RstDelivery(id, errCode)]);
      case Settings(ack, settings) =>
        if ack {
          outcome := Forward(Settings(true, []), []);
        } else {
          var updates, all := ForeachSetting(settings);
          outcome := Forward(Settings(false, all), updates);
        }
      case WindowUpdate(_, _) => outcome := Update(f);
      case Unrecognized(_) => outcome := UnknownFrame;
      case _ => outcome := Forward(f, []);
    }
  }

  // ----- sending and reading undo each other

  /** What a queued frame means to whoever reads it. */
  function Meaning(f: QueuedFrame): Delivery {
    match f
    case QueuedData(id, endStream, data) => DataDelivery(id, data, endStream)
    case QueuedHeader(id, endStream, priority, chunks) => HeaderDelivery(id, Flatten(chunks), endStream, priority)
    case QueuedPushPromise(id, promiseId, chunks) => PushPromiseDelivery(id, promiseId, Flatten(chunks))
    case QueuedPriority(id, priority) => PriorityDelivery(id, priority)
    case QueuedRstStream(id, errCode) => RstDelivery(id, errCode)
  }

  /** The one thing the reader gets wrong: a continued HEADERS is taken to end the stream. */
  function MeaningRead(f: QueuedFrame): Delivery {
    if f.QueuedHeader? && |f.chunks| > 1 then Meaning(f.(endStream := true)) else Meaning(f)
  }

  function MeaningsOf(fs: seq<QueuedFrame>): seq<Delivery> {
    if fs == [] then [] else [MeaningRead(fs[0])] + MeaningsOf(fs[1..])
  }

  lemma {:induction false} MeaningsOfConcat(a: seq<QueuedFrame>, b: seq<QueuedFrame>)
    ensures MeaningsOf(a + b) == MeaningsOf(a) + MeaningsOf(b)
  {
    if a == [] {
      assert a + b == b;
    } else {
      assert (a + b)[1..] == a[1..] + b;
      MeaningsOfConcat(a[1..], b);
    }
  }

  lemma {:induction false} ReadContinuations(st: ReadState, id: StreamId, chunks: seq<bytes>)
    requires chunks != []
    ensures ReadAll(st, ContinuationFrames(id, chunks)).1 == Complete(st.parent, id, st.headerBuffer + Flatten(chunks))
    decreases |chunks|
  {
    var fs := ContinuationFrames(id, chunks);
    assert fs[1..] == ContinuationFrames(id, chunks[1..]);
    var all := st.headerBuffer + chunks[0];
    if |chunks| == 1 {
      assert chunks == [chunks[0]];
      FlattenOne(chunks[0]);
      assert fs[1..] == [];
    } else {
      ReadContinuations(ReadState(all, st.parent), id, chunks[1..]);
      assert all + Flatten(chunks[1..]) == st.headerBuffer + Flatten(chunks);
    }
  }

  /**
   * Whatever was read before, reading what one queued frame was sent as delivers
   * that frame's meaning, once, with its block put together again.
   */
  lemma SendThenRead(st: ReadState, f: QueuedFrame)
    requires Sendable(f)
    ensures ReadAll(st, Wire(f)).1 == [MeaningRead(f)]
  {
    var wire := Wire(f);
    if f.QueuedHeader? || f.QueuedPushPromise? {
      var rest := ContinuationFrames(f.id, f.chunks[1..]);
      assert wire[1..] == rest;
      if |f.chunks| == 1 {
        assert f.chunks == [f.chunks[0]];
        FlattenOne(f.chunks[0]);
      } else {
        ReadContinuations(ReadOne(st, wire[0]).0, f.id, f.chunks[1..]);
      }
    } else {
      assert wire[1..] == [];
    }
  }

  lemma {:induction false} ReadOpenContinuations(st: ReadState, id: StreamId, chunks: seq<bytes>, k: nat)
    requires k < |chunks|
    ensures k <= |ContinuationFrames(id, chunks)|
    ensures ReadAll(st, ContinuationFrames(id, chunks)[..k]).1 == []
    decreases k
  {
    ContinuationFramesShape(id, chunks);
    var fs := ContinuationFrames(id, chunks);
    if k == 0 {
      assert fs[..0] == [];
    } else {
      assert fs[..k][1..] == ContinuationFrames(id, chunks[1..])[..k-1];
      ReadOpenContinuations(ReadOne(st, fs[0]).0, id, chunks[1..], k - 1);
    }
  }

  /** A send that breaks off delivers nothing. */
  lemma BrokenSendDeliversNothing(st: ReadState, f: QueuedFrame, k: nat)
    requires Sendable(f) && k < |Wire(f)|
    ensures ReadAll(st, Wire(f)[..k]).1 == []
  {
    var wire := Wire(f);
    if k == 0 {
      assert wire[..0] == [];
    } else {
      assert f.QueuedHeader? || f.QueuedPushPromise?;
      var rest := f.chunks[1..];
      ContinuationFramesShape(f.id, rest);
      assert wire[1..] == ContinuationFrames(f.id, rest);
      assert wire[..k][1..] == wire[1..][..k-1] == ContinuationFrames(f.id, rest)[..k-1];
      ReadOpenContinuations(ReadOne(st, wire[0]).0, f.id, rest, k - 1);
    }
  }

  /**
   * From header to the next relay's processor: the block, stream and priority
   * arrive as given, and END_STREAM does exactly when it was set or the block fits
   * the first frame.
   */
  lemma HeaderRoundTrip(st: ReadState, id: StreamId, block: bytes, ended: bool, priority: Priority, max: Word)
    requires Splittable(max, HeaderMetadata(priority), block)
    ensures var fits := |block| <= FirstFragmentMax(max, HeaderMetadata(priority));
      var delivered := ReadAll(st, Wire(HeaderFor(id, block, ended, priority, max))).1;
      && delivered == [HeaderDelivery(id, block, ended || !fits, priority)]
      && (delivered == [HeaderDelivery(id, block, ended, priority)] <==> ended || fits)
  {
    ChunksMeaning(FirstFragmentMax(max, HeaderMetadata(priority)), max, block);
    SendThenRead(st, HeaderFor(id, block, ended, priority, max));
  }

  /** One octet more than a frame holds, not ending the stream: it arrives as ending it. */
  lemma ContinuedHeaderArrivesEnded(st: ReadState, block: bytes)
    requires |block| == 16385
    ensures ReadAll(st, Wire(HeaderFor(1, block, false, NO_PRIORITY, 16384))).1
         == [HeaderDelivery(1, block, true, NO_PRIORITY)]
  {
    HeaderRoundTrip(st, 1, block, false, NO_PRIORITY, 16384);
  }

  lemma PushPromiseRoundTrip(st: ReadState, id: StreamId, promiseId: StreamId, block: bytes, max: Word)
    requires Splittable(max, PUSH_PROMISE_METADATA, block)
    ensures ReadAll(st, Wire(PushPromiseFor(id, promiseId, block, max))).1
         == [PushPromiseDelivery(id, promiseId, block)]
  {
    ChunksMeaning(FirstFragmentMax(max, PUSH_PROMISE_METADATA), max, block);
    SendThenRead(st, PushPromiseFor(id, promiseId, block, max));
  }
}
