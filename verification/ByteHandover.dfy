/**
 * The octets of a client connection while the proxy switches protocols on it: the
 * buffered reader, the leg that replays octets sniffed from it, and the connection
 * below. TLS is an opaque function from ciphertext to plaintext.
 */
module ByteHandover {
  import opened Bytes

  const BUFIO_SIZE := 4096
  const TLS_HANDSHAKE := 22

  /**
   * `buffered` is in the bufio.Reader; it reads from `replay` (a bytes.Reader in
   * front) and then from `conn`, whose octets are still to come.
   */
  datatype Source = Source(buffered: bytes, replay: bytes, conn: bytes) {
    /** What the client has sent and nobody has consumed. */
    function Unread(): bytes {
      buffered + replay + conn
    }
  }

  /** One fill of the buffer: from the replay leg if it has octets left, else up to `n` from the connection. */
  function Fill(c: Source, n: nat): Source
    requires |c.buffered| <= BUFIO_SIZE
  {
    var free := BUFIO_SIZE - |c.buffered|;
    if c.replay != [] then
      var k := Min(free, |c.replay|);
      Source(c.buffered + c.replay[..k], c.replay[k..], c.conn)
    else
      var k := Min(Min(free, n), |c.conn|);
      Source(c.buffered + c.conn[..k], [], c.conn[k..])
  }

  /** Peek(1) fills an empty buffer once. */
  function PeekOne(c: Source, n: nat): Source
    requires |c.buffered| <= BUFIO_SIZE
  {
    if c.buffered == [] then Fill(c, n) else c
  }

  lemma HeadMoves(a: bytes, b: bytes, c: bytes, k: nat)
    requires k <= |b|
    ensures a + b[..k] + b[k..] + c == a + b + c
  {
    assert b == b[..k] + b[k..];
    ConcatAssoc(a, b[..k], b[k..]);
  }

  lemma FillKeeps(c: Source, n: nat)
    requires |c.buffered| <= BUFIO_SIZE
    ensures Fill(c, n).Unread() == c.Unread()
    ensures |Fill(c, n).buffered| <= BUFIO_SIZE
    ensures c.replay == [] ==> Fill(c, n).replay == []
    ensures c.buffered == [] && |c.replay| <= BUFIO_SIZE ==> Fill(c, n).replay == []
  {
    var free := BUFIO_SIZE - |c.buffered|;
    if c.replay != [] {
      HeadMoves(c.buffered, c.replay, c.conn, Min(free, |c.replay|));
    } else {
      var k := Min(Min(free, n), |c.conn|);
      HeadMoves(c.buffered, c.conn, [], k);
      var d := Fill(c, n);
      assert d.Unread() == c.buffered + c.conn[..k] + c.conn[k..] + [];
      assert c.Unread() == c.buffered + c.conn + [];
    }
  }

  // ----- the connection object

  /** drainBuffer and the upstream copier of tunnel: the buffer, then the connection below it. */
  function Tunnelled(c: Source): bytes {
    c.buffered + c.conn
  }

  /** The tunnel forwards everything that is unread exactly when the replay leg is used up. */
  lemma TunnelLosesReplay(c: Source)
    ensures Tunnelled(c) == c.Unread() <==> c.replay == []
  {
    if c.replay == [] {
      assert c.buffered + [] == c.buffered;
    } else {
      assert |c.Unread()| == |Tunnelled(c)| + |c.replay|;
    }
  }

  /** The source after an interception. */
  function Intercepted(c: Source, n: nat, decrypt: bytes -> bytes): Source
    requires |c.buffered| <= BUFIO_SIZE && PeekOne(c, n).buffered != []
  {
    var p := PeekOne(c, n);
    if p.buffered[0] == TLS_HANDSHAKE then Source([], [], decrypt(p.buffered + p.conn))
    else Source([], p.buffered, p.conn)
  }

  lemma InterceptedKeeps(c: Source, n: nat, decrypt: bytes -> bytes)
    requires |c.buffered| <= BUFIO_SIZE && c.replay == []
    ensures PeekOne(c, n).buffered + PeekOne(c, n).conn == c.Unread() && PeekOne(c, n).replay == []
    ensures PeekOne(c, n).buffered != [] ==> c.Unread() != [] && PeekOne(c, n).buffered[0] == c.Unread()[0]
    ensures PeekOne(c, n).buffered != [] ==>
      var i := Intercepted(c, n, decrypt);
      && i.Unread() == (if PeekOne(c, n).buffered[0] == TLS_HANDSHAKE then decrypt(c.Unread()) else c.Unread())
      && i.buffered == [] && |i.replay| <= BUFIO_SIZE
  {
    FillKeeps(c, n);
    var p := PeekOne(c, n);
    assert p.Unread() == p.buffered + p.conn by { assert p.buffered + [] == p.buffered; }
    assert Source([], [], decrypt(p.buffered + p.conn)).Unread() == decrypt(p.buffered + p.conn);
    assert Source([], p.buffered, p.conn).Unread() == p.buffered + p.conn;
  }

  // How the TLS handshake of an interception ends, and what becomes of the interception.
  datatype Handshake = Failed | H2 | Other

  datatype Interception = Closed | Session(plaintext: bytes) | Handled

  class ProxyConn {
    var buffered: bytes
    var replay: bytes
    var conn: bytes
    var secure: bool

    constructor (stream: bytes)
      ensures Value() == Source([], [], stream) && !secure
    {
      buffered, replay, conn, secure := [], [], stream, false;
    }

    function Value(): Source
      reads this
    {
      Source(buffered, replay, conn)
    }

    predicate Fits()
      reads this
    {
      |buffered| <= BUFIO_SIZE && |replay| <= BUFIO_SIZE
    }

    /** `n` is how many octets the network has ready. */
    method Peek(n: nat) returns (ok: bool)
      requires Fits()
      modifies this`buffered, this`replay, this`conn
      ensures Fits() && Value() == PeekOne(old(Value()), n) && Value().Unread() == old(Value()).Unread()
      ensures ok <==> buffered != []
      ensures old(buffered) == [] || old(replay) == [] ==> replay == []
    {
      FillKeeps(Value(), n);
      if buffered == [] {
        if replay != [] {
          var k := Min(BUFIO_SIZE, |replay|);
          assert [] + replay[..k] == replay[..k];
          buffered, replay := replay[..k], replay[k..];
        } else {
          var k := Min(Min(BUFIO_SIZE, n), |conn|);
          assert [] + conn[..k] == conn[..k];
          buffered, conn := conn[..k], conn[k..];
        }
      }
      ok := buffered != [];
    }

    /**
     * handleMITM from its Peek on. A client that closes early ends it; a TLS record
     * puts a TLS server over the drained octets and the connection, which refuses,
     * hands the plaintext to an HTTP/2 session, or becomes the connection; anything
     * else is replayed to the same reader. Nothing unread is lost or read twice.
     */
    method HandleMITM(n: nat, decrypt: bytes -> bytes, handshake: Handshake) returns (r: Interception)
      requires Fits() && replay == []
      modifies this
      ensures Fits()
      ensures var c, p := old(Value()), PeekOne(old(Value()), n);
        && (p.buffered == [] <==> c.buffered == [] && (n == 0 || c.conn == []))
        && (p.buffered == [] ==> r == Closed)
        && (p.buffered != [] ==> c.Unread() != [] && c.Unread()[0] == p.buffered[0])
        && (p.buffered != [] && (p.buffered[0] != TLS_HANDSHAKE || handshake.Other?) ==> r == Handled)
        && (p.buffered != [] && p.buffered[0] == TLS_HANDSHAKE && handshake.Failed? ==> r == Closed)
        && (p.buffered != [] && p.buffered[0] == TLS_HANDSHAKE && handshake.H2? ==> r == Session(decrypt(c.Unread())))
      ensures r == Handled ==> var c, p := old(Value()), PeekOne(old(Value()), n);
        && Value() == Intercepted(c, n, decrypt)
        && Value().Unread() == (if p.buffered[0] == TLS_HANDSHAKE then decrypt(c.Unread()) else c.Unread())
        && secure == (old(secure) || p.buffered[0] == TLS_HANDSHAKE)
      ensures r != Handled ==> secure == old(secure)
    {
      InterceptedKeeps(Value(), n, decrypt);
      ghost var peeked := PeekOne(Value(), n);
      var ok := Peek(n);
      assert Value() == peeked;
      if !ok {
        return Closed;
      }
      var first := buffered[0];
      var drained := buffered;
      buffered := [];
      if first == TLS_HANDSHAKE {
        var plaintext := decrypt(drained + conn);
        if handshake.Failed? {
          return Closed;
        }
        if handshake.H2? {
          return Session(plaintext);
        }
        conn, secure := plaintext, true;
      } else {
        replay := drained;
      }
      return Handled;
    }

    /** What goes upstream when the reader's octets are handed to a tunnel. */
    method Tunnel() returns (upstream: bytes)
      requires replay == []
      ensures upstream == Value().Unread()
    {
      upstream := [];
      if |buffered| > 0 {
        upstream := upstream + buffered;
      }
      upstream := upstream + conn;
      TunnelLosesReplay(Value());
    }
  }

  // ----- whole runs

  // Where handle stands: about to peek, between peek and the end of the request, or handed over.
  datatype Phase = Top | Reading | Over

  // A protocol layer that TLS has been put on top of: what the client sends in it, and what was consumed of it first.
  datatype Layer = Layer(octets: bytes, taken: bytes)

  /**
   * `layer` is everything the client sends in the current protocol layer, `taken`
   * what has been consumed of it, `upstream` what a tunnel or a session was handed,
   * `below` the layers beneath, outermost first.
   */
  datatype State = State(
    source: Source, phase: Phase, layer: bytes, taken: bytes, upstream: bytes, below: seq<Layer>)

  function Start(stream: bytes): State {
    State(Source([], [], stream), Top, stream, [], [], [])
  }

  datatype Event =
    | Begin(n: nat)         // readRequest: Peek(1)
    | More(n: nat)          // the buffer is filled while the request is read
    | Consume(n: nat)       // the request, or its body, takes octets from the buffer
    | Direct(n: nat)        // a large read goes past an empty buffer
    | NextRequest           // keep-alive
    | Mitm(n: nat)          // a CONNECT that is intercepted
    | MitmSession(n: nat)   // a CONNECT that is intercepted and negotiates HTTP/2
    | TunnelAll             // a CONNECT or an upgrade that is tunnelled

  predicate Enabled(s: State, e: Event) {
    match e
    case Begin(n) => s.phase.Top? && |s.source.buffered| <= BUFIO_SIZE && PeekOne(s.source, n).buffered != []
    case More(_) => s.phase.Reading? && |s.source.buffered| < BUFIO_SIZE
    case Consume(n) => s.phase.Reading? && n <= |s.source.buffered|
    case Direct(n) =>
      s.phase.Reading? && s.source.buffered == []
      && n <= |if s.source.replay != [] then s.source.replay else s.source.conn|
    case NextRequest => s.phase.Reading?
    case Mitm(n) => s.phase.Reading? && |s.source.buffered| <= BUFIO_SIZE && PeekOne(s.source, n).buffered != []
    case MitmSession(n) =>
      s.phase.Reading? && |s.source.buffered| <= BUFIO_SIZE
      && PeekOne(s.source, n).buffered != [] && PeekOne(s.source, n).buffered[0] == TLS_HANDSHAKE
    case TunnelAll => s.phase.Reading?
  }

  function Apply(s: State, e: Event, decrypt: bytes -> bytes): State
    requires Enabled(s, e)
  {
    var c := s.source;
    match e
    case Begin(n) => s.(source := PeekOne(c, n), phase := Reading)
    case More(n) => s.(source := Fill(c, n))
    case Consume(n) => s.(source := c.(buffered := c.buffered[n..]), taken := s.taken + c.buffered[..n])
    case Direct(n) =>
      if c.replay != [] then s.(source := c.(replay := c.replay[n..]), taken := s.taken + c.replay[..n])
      else s.(source := c.(conn := c.conn[n..]), taken := s.taken + c.conn[..n])
    case NextRequest => s.(phase := Top)
    case Mitm(n) =>
      var t := s.(source := Intercepted(c, n, decrypt), phase := Top);
      if PeekOne(c, n).buffered[0] == TLS_HANDSHAKE then
        t.(layer := decrypt(c.Unread()), taken := [], below := s.below + [Layer(s.layer, s.taken)])
      else t
    case MitmSession(n) =>
      var plaintext := Intercepted(c, n, decrypt).conn;
      s.(layer := decrypt(c.Unread()), taken := [], upstream := plaintext, phase := Over,
         below := s.below + [Layer(s.layer, s.taken)])
    case TunnelAll => s.(upstream := Tunnelled(c), phase := Over)
  }

  ghost predicate Steps(s: State, es: seq<Event>, decrypt: bytes -> bytes, t: State)
    decreases |es|
  {
    if es == [] then s == t else Enabled(s, es[0]) && Steps(Apply(s, es[0], decrypt), es[1..], decrypt, t)
  }

  /** Nothing lost, nothing twice; the replay leg is gone once a request has been started. */
  ghost predicate Invariant(s: State) {
    && s.taken + (if s.phase.Over? then s.upstream else s.source.Unread()) == s.layer
    && |s.source.buffered| <= BUFIO_SIZE && |s.source.replay| <= BUFIO_SIZE
    && (s.source.replay != [] ==> s.phase.Top? && s.source.buffered == [])
  }

  lemma ConsumeKeeps(s: State, n: nat)
    requires s.taken + s.source.Unread() == s.layer && n <= |s.source.buffered|
    ensures (s.taken + s.source.buffered[..n]) + s.source.(buffered := s.source.buffered[n..]).Unread() == s.layer
  {
    var c := s.source;
    assert c.buffered == c.buffered[..n] + c.buffered[n..];
    assert c.Unread() == c.buffered[..n] + c.(buffered := c.buffered[n..]).Unread();
    ConcatAssoc(s.taken, c.buffered[..n], c.(buffered := c.buffered[n..]).Unread());
  }

  lemma DirectKeeps(s: State, n: nat)
    requires s.taken + s.source.Unread() == s.layer
    requires s.source.buffered == [] && s.source.replay == [] && n <= |s.source.conn|
    ensures (s.taken + s.source.conn[..n]) + s.source.(conn := s.source.conn[n..]).Unread() == s.layer
  {
    var c := s.source;
    assert c.conn == c.conn[..n] + c.conn[n..];
    assert c.Unread() == c.conn[..n] + c.(conn := c.conn[n..]).Unread();
    ConcatAssoc(s.taken, c.conn[..n], c.(conn := c.conn[n..]).Unread());
  }

  lemma StepInvariant(s: State, e: Event, decrypt: bytes -> bytes)
    requires Invariant(s) && Enabled(s, e)
    ensures Invariant(Apply(s, e, decrypt))
  {
    match e
    case Begin(n) => FillKeeps(s.source, n);
    case More(n) => FillKeeps(s.source, n);
    case Consume(n) => ConsumeKeeps(s, n);
    case Direct(n) => DirectKeeps(s, n);
    case NextRequest =>
    case Mitm(n) => InterceptedKeeps(s.source, n, decrypt);
    case MitmSession(n) => InterceptedKeeps(s.source, n, decrypt);
    case TunnelAll => TunnelLosesReplay(s.source);
  }

  lemma {:induction false} StepsInvariant(s: State, es: seq<Event>, decrypt: bytes -> bytes, t: State)
    requires Invariant(s) && Steps(s, es, decrypt, t)
    ensures Invariant(t)
    decreases |es|
  {
    if es == [] {
    } else {
      StepInvariant(s, es[0], decrypt);
      StepsInvariant(Apply(s, es[0], decrypt), es[1..], decrypt, t);
    }
  }

  /** What the client sends in the i-th layer, counted from the outside. */
  function LayerAt(s: State, i: nat): bytes
    requires i <= |s.below|
  {
    if i < |s.below| then s.below[i].octets else s.layer
  }

  /** A layer is what TLS makes of exactly what was not consumed of the layer below. */
  ghost predicate OnTop(s: State, i: nat, decrypt: bytes -> bytes)
    requires i < |s.below|
  {
    s.below[i].taken <= s.below[i].octets
    && LayerAt(s, i + 1) == decrypt(s.below[i].octets[|s.below[i].taken|..])
  }

  ghost predicate Layered(s: State, stream: bytes, decrypt: bytes -> bytes) {
    LayerAt(s, 0) == stream && forall i :: 0 <= i < |s.below| ==> OnTop(s, i, decrypt)
  }

  lemma LayerAdded(s: State, t: State, stream: bytes, decrypt: bytes -> bytes)
    requires Layered(s, stream, decrypt) && s.taken + s.source.Unread() == s.layer
    requires t.below == s.below + [Layer(s.layer, s.taken)] && t.layer == decrypt(s.source.Unread())
    ensures Layered(t, stream, decrypt)
  {
    var n := |s.below|;
    forall i | 0 <= i < |t.below| ensures OnTop(t, i, decrypt) {
      if i < n {
        assert OnTop(s, i, decrypt);
        assert LayerAt(t, i + 1) == LayerAt(s, i + 1);
      } else {
        assert s.layer[|s.taken|..] == s.source.Unread();
      }
    }
  }

  lemma StepLayered(s: State, e: Event, stream: bytes, decrypt: bytes -> bytes)
    requires Invariant(s) && Enabled(s, e) && Layered(s, stream, decrypt)
    ensures Layered(Apply(s, e, decrypt), stream, decrypt)
  {
    var t := Apply(s, e, decrypt);
    if t.below == s.below {
      assert t.layer == s.layer;
      assert forall i :: 0 <= i < |t.below| ==> (OnTop(s, i, decrypt) ==> OnTop(t, i, decrypt));
    } else {
      LayerAdded(s, t, stream, decrypt);
    }
  }

  lemma {:induction false} StepsLayered(s: State, es: seq<Event>, stream: bytes, decrypt: bytes -> bytes, t: State)
    requires Invariant(s) && Layered(s, stream, decrypt) && Steps(s, es, decrypt, t)
    ensures Layered(t, stream, decrypt)
    decreases |es|
  {
    if es == [] {
    } else {
      StepInvariant(s, es[0], decrypt);
      StepLayered(s, es[0], stream, decrypt);
      StepsLayered(Apply(s, es[0], decrypt), es[1..], stream, decrypt, t);
    }
  }

  /**
   * Along every path through requests, plain and TLS interceptions and a final tunnel
   * or HTTP/2 session, to any depth: what was consumed in the current layer followed
   * by what is unread, or was handed over at the end, is exactly what the client sends
   * in it. The outermost layer is the stream itself, and each further one is what TLS
   * makes of exactly what was not consumed of the one below.
   */
  lemma NothingLostNothingTwice(stream: bytes, es: seq<Event>, decrypt: bytes -> bytes, t: State)
    requires Steps(Start(stream), es, decrypt, t)
    ensures !t.phase.Over? ==> t.taken + t.source.Unread() == t.layer
    ensures t.phase.Over? ==> t.taken + t.upstream == t.layer
    ensures Layered(t, stream, decrypt)
  {
    assert [] + [] + stream == stream;
    StepsInvariant(Start(stream), es, decrypt, t);
    StepsLayered(Start(stream), es, stream, decrypt, t);
  }

  /** Whenever a tunnel can start the replay leg is empty, so it forwards exactly what is unread. */
  lemma TunnelForwardsTheUnread(stream: bytes, es: seq<Event>, decrypt: bytes -> bytes, t: State)
    requires Steps(Start(stream), es, decrypt, t) && Enabled(t, TunnelAll)
    ensures t.source.replay == []
    ensures Apply(t, TunnelAll, decrypt).upstream == t.source.Unread()
  {
    assert [] + [] + stream == stream;
    StepsInvariant(Start(stream), es, decrypt, t);
    TunnelLosesReplay(t.source);
  }
}
