/**
 * The frames of the HTTP/2 relay: what a stream queues for output, and what
 * the framer puts on the wire.
 */
module H2Frames {
  import opened Bytes

  // Stream 0 stands for the connection as a whole.
  type StreamId = nat

  // http2.PriorityParam
  datatype Priority = Priority(dependency: nat, exclusive: bool, weight: byte) {
    predicate IsZero() {
      this == Priority(0, false, 0)
    }
  }

  // queuedFrame and its five implementations.
  datatype QueuedFrame =
    | QueuedData(id: StreamId, endStream: bool, data: bytes)
    | QueuedHeader(id: StreamId, endStream: bool, priority: Priority, chunks: seq<bytes>)
    | QueuedPushPromise(id: StreamId, promiseId: StreamId, chunks: seq<bytes>)
    | QueuedPriority(id: StreamId, priority: Priority)
    | QueuedRstStream(id: StreamId, errCode: nat)
  {
    /** Only DATA counts against the windows. */
    function FlowControlSize(): nat {
      if QueuedData? then |data| else 0
    }
  }

  // The frames a framer writes or reads.
  datatype WireFrame =
    | Data(id: StreamId, endStream: bool, data: bytes)
    | Headers(id: StreamId, endStream: bool, endHeaders: bool, priority: Priority, fragment: bytes)
    | PushPromise(id: StreamId, promiseId: StreamId, endHeaders: bool, fragment: bytes)
    | Continuation(id: StreamId, endHeaders: bool, fragment: bytes)
    | PriorityUpdate(id: StreamId, priority: Priority)
    | RstStream(id: StreamId, errCode: nat)
    | Settings(ack: bool, settings: seq<(nat, nat)>)
    | Ping(ack: bool, data: bytes)
    | GoAway(lastStream: StreamId, errCode: nat, debug: bytes)
    | WindowUpdate(id: StreamId, increment: nat)
    | Unrecognized(kind: nat)

  // The frames that are written as they are, past the stream queues.
  predicate IsControl(f: WireFrame) {
    f.Settings? || f.Ping? || f.GoAway? || f.WindowUpdate?
  }
}
