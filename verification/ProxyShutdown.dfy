/**
 * The life cycle of client connections against Shutdown and Close: any number of
 * connection handlers and of callers, one step per critical section, check of the
 * closing flag or blocking operation, in any interleaving.
 */
module ProxyShutdown {
  import opened Bytes

  type ConnId = nat
  type CallerId = nat

  // Where the goroutine of one connection stands.
  datatype Pc =
    | Spawned        // handleLoop has started
    | Registered     // in conns and counted; about to check the closing flag
    | Handshaking    // maybeHandshakeTLS
    | Waiting        // handle: reading the next request
    | GotRequest     // handle: a request has been read; about to check the closing flag
    | Admitted       // the check has passed
    | Serving        // the request has been dispatched
    | Responding     // writeResponse: about to check the closing flag
    | Tunneling      // copying a tunnel
    | Session        // an intercepted HTTP/2 session, from the response to its CONNECT on
    | Wedged         // a session with a relay that never returns
    | Leaving        // handleLoop is returning; conn.Close comes next
    | Closed         // conn.Close is done; the decrement comes next
    | Decremented    // the removal from conns comes next
    | Done

  /** Counted in connsWg. */
  predicate Counted(pc: Pc) {
    !pc.Spawned? && !pc.Decremented? && !pc.Done?
  }

  datatype CallerPc = Polling | ReturnedNil | ReturnedError

  /** `mutex` names the Shutdown call that holds connsMu while it polls. `closed` holds the closed connections. */
  datatype State = State(
    closing: bool, mutex: Option<CallerId>, conns: set<ConnId>, connsWg: int,
    handlers: map<ConnId, Pc>, callers: map<CallerId, CallerPc>, closed: set<ConnId>)

  const START := State(false, None, {}, 0, map[], map[], {})

  // How a served request leaves writeResponse while the proxy is not closing.
  datatype Outcome = KeepAlive | CloseAfter | Tunnel | Intercept

  datatype Event =
    | Spawn(c: ConnId)
    | Register(c: ConnId)
    | CheckStart(c: ConnId)
    | Handshake(c: ConnId, ok: bool)
    | Read(c: ConnId, ok: bool)
    | Admit(c: ConnId)
    | Dispatch(c: ConnId)
    | Serve(c: ConnId)
    | Respond(c: ConnId, outcome: Outcome)
    | EndTunnel(c: ConnId)
    | SessionRequest(c: ConnId)
    | EndSession(c: ConnId, again: bool)
    | Wedge(c: ConnId)
    | CloseConn(c: ConnId)
    | Decrement(c: ConnId)
    | Unregister(c: ConnId)
    | BeginShutdown(k: CallerId)
    | PollZero(k: CallerId)
    | GiveUp(k: CallerId)
    | CloseProxy

  predicate IsAt(s: State, c: ConnId, pc: Pc) {
    c in s.handlers && s.handlers[c] == pc
  }

  /** A session lives until both its relays have returned; its other relay may go on when one is wedged. */
  predicate InSession(s: State, c: ConnId) {
    c in s.handlers && (s.handlers[c].Session? || s.handlers[c].Wedged?)
  }

  /**
   * A session is wedged when one of its relays can never return. There are two ways:
   * its reader is inside data with a frame size of 0 and octets to send (see
   * RelayRuns.ZeroSizeNeverEnds), or it pushes into the full output channel of the
   * other relay after that one has returned (see RelayHandshake.FullChannelIsForGood).
   */
  predicate Enabled(s: State, e: Event) {
    match e
    case Spawn(c) => c !in s.handlers
    case Register(c) => IsAt(s, c, Spawned) && s.mutex.None?
    case CheckStart(c) => IsAt(s, c, Registered)
    case Handshake(c, _) => IsAt(s, c, Handshaking)
    case Read(c, _) => IsAt(s, c, Waiting)
    case Admit(c) => IsAt(s, c, GotRequest)
    case Dispatch(c) => IsAt(s, c, Admitted)
    case Serve(c) => IsAt(s, c, Serving)
    case Respond(c, _) => IsAt(s, c, Responding)
    case EndTunnel(c) => IsAt(s, c, Tunneling)
    case SessionRequest(c) => InSession(s, c)
    case EndSession(c, _) => IsAt(s, c, Session)
    case Wedge(c) => IsAt(s, c, Session)
    case CloseConn(c) => IsAt(s, c, Leaving)
    case Decrement(c) => IsAt(s, c, Closed)
    case Unregister(c) => IsAt(s, c, Decremented) && s.mutex.None?
    case BeginShutdown(k) => k !in s.callers && s.mutex.None?
    case PollZero(k) => k in s.callers && s.callers[k].Polling? && s.connsWg == 0
    case GiveUp(k) => k in s.callers && s.callers[k].Polling?
    case CloseProxy => s.mutex.None?
  }

  function Move(s: State, c: ConnId, pc: Pc): State {
    s.(handlers := s.handlers[c := pc])
  }

  function Apply(s: State, e: Event): State {
    match e
    case Spawn(c) => Move(s, c, Spawned)
    case Register(c) => Move(s, c, Registered).(conns := s.conns + {c}, connsWg := s.connsWg + 1)
    case CheckStart(c) => Move(s, c, if s.closing then Leaving else Handshaking)
    case Handshake(c, ok) => Move(s, c, if ok then Waiting else Leaving)
    case Read(c, ok) => Move(s, c, if ok then GotRequest else Leaving)
    case Admit(c) => Move(s, c, if s.closing then Leaving else Admitted)
    case Dispatch(c) => Move(s, c, Serving)
    case Serve(c) => Move(s, c, Responding)
    case Respond(c, outcome) =>
      Move(s, c, if s.closing || outcome.CloseAfter? then Leaving
                 else if outcome.Tunnel? then Tunneling
                 else if outcome.Intercept? then Session
                 else Waiting)
    case EndTunnel(c) => Move(s, c, Leaving)
    case SessionRequest(c) => s
    case EndSession(c, again) => Move(s, c, if again then Waiting else Leaving)
    case Wedge(c) => Move(s, c, Wedged)
    case CloseConn(c) => Move(s, c, Closed).(closed := s.closed + {c})
    case Decrement(c) => Move(s, c, Decremented).(connsWg := s.connsWg - 1)
    case Unregister(c) => Move(s, c, Done).(conns := s.conns - {c})
    case BeginShutdown(k) => s.(closing := true, mutex := Some(k), callers := s.callers[k := Polling])
    case PollZero(k) => s.(mutex := None, callers := s.callers[k := ReturnedNil])
    case GiveUp(k) => s.(mutex := None, callers := s.callers[k := ReturnedError])
    case CloseProxy => s.(closing := true, closed := s.closed + s.conns)
  }

  ghost predicate Steps(s: State, es: seq<Event>, t: State)
    decreases |es|
  {
    if es == [] then s == t else Enabled(s, es[0]) && Steps(Apply(s, es[0]), es[1..], t)
  }

  // ----- the invariant

  ghost function CountedConns(s: State): set<ConnId> {
    set c | c in s.handlers && Counted(s.handlers[c])
  }

  ghost predicate CountRight(s: State) {
    s.connsWg == |CountedConns(s)|
  }

  ghost predicate ConnsRight(s: State) {
    forall c :: c in s.conns <==> c in s.handlers && !s.handlers[c].Spawned? && !s.handlers[c].Done?
  }

  ghost predicate ClosedRight(s: State) {
    forall c :: c in s.handlers && (s.handlers[c].Closed? || s.handlers[c].Decremented? || s.handlers[c].Done?)
      ==> c in s.closed
  }

  ghost predicate MutexRight(s: State) {
    && (s.mutex.Some? ==> s.mutex.value in s.callers && s.callers[s.mutex.value].Polling?)
    && (forall k :: k in s.callers && s.callers[k].Polling? ==> s.mutex == Some(k))
    && (s.callers != map[] ==> s.closing)
  }

  ghost predicate Invariant(s: State) {
    CountRight(s) && ConnsRight(s) && ClosedRight(s) && MutexRight(s)
  }

  predicate CallerEvent(e: Event) {
    e.BeginShutdown? || e.PollZero? || e.GiveUp? || e.CloseProxy?
  }

  lemma CountKept(s: State, t: State)
    requires t.connsWg == s.connsWg && CountRight(s)
    requires forall c :: c in t.handlers && Counted(t.handlers[c]) <==> c in s.handlers && Counted(s.handlers[c])
    ensures CountRight(t)
  {
    assert CountedConns(t) == CountedConns(s);
  }

  lemma CountMoved(s: State, t: State, c: ConnId, pc: Pc)
    requires CountRight(s) && t.handlers == s.handlers[c := pc]
    requires t.connsWg == s.connsWg + (if Counted(pc) then 1 else 0)
        - (if c in s.handlers && Counted(s.handlers[c]) then 1 else 0)
    ensures CountRight(t)
  {
    if Counted(pc) {
      assert CountedConns(t) == CountedConns(s) + {c};
      assert c in CountedConns(s) ==> CountedConns(s) + {c} == CountedConns(s);
    } else {
      assert CountedConns(t) == CountedConns(s) - {c};
      assert c !in CountedConns(s) ==> CountedConns(s) - {c} == CountedConns(s);
    }
  }

  /** A handler's step moves that handler alone and counts it as it should. */
  lemma HandlerMoves(s: State, e: Event)
    requires Enabled(s, e) && !CallerEvent(e)
    ensures var t := Apply(s, e);
      && e.c in t.handlers && t.handlers == s.handlers[e.c := t.handlers[e.c]]
      && t.connsWg == s.connsWg + (if Counted(t.handlers[e.c]) then 1 else 0)
                    - (if e.c in s.handlers && Counted(s.handlers[e.c]) then 1 else 0)
      && t.conns == if e.Register? then s.conns + {e.c} else if e.Unregister? then s.conns - {e.c} else s.conns
  {
  }

  lemma CountStep(s: State, e: Event)
    requires CountRight(s) && Enabled(s, e)
    ensures CountRight(Apply(s, e))
  {
    if CallerEvent(e) {
      CountKept(s, Apply(s, e));
    } else {
      HandlerMoves(s, e);
      CountMoved(s, Apply(s, e), e.c, Apply(s, e).handlers[e.c]);
    }
  }

  lemma ConnsStep(s: State, e: Event)
    requires ConnsRight(s) && Enabled(s, e)
    ensures ConnsRight(Apply(s, e))
  {
    if !CallerEvent(e) {
      HandlerMoves(s, e);
      var t := Apply(s, e);
      assert e.c in t.conns <==> !t.handlers[e.c].Spawned? && !t.handlers[e.c].Done?;
    }
  }

  lemma ClosedStep(s: State, e: Event)
    requires ClosedRight(s) && Enabled(s, e)
    ensures ClosedRight(Apply(s, e))
  {
  }

  lemma MutexStep(s: State, e: Event)
    requires MutexRight(s) && Enabled(s, e)
    ensures MutexRight(Apply(s, e))
  {
  }

  lemma StepInvariant(s: State, e: Event)
    requires Invariant(s) && Enabled(s, e)
    ensures Invariant(Apply(s, e))
  {
    CountStep(s, e);
    ConnsStep(s, e);
    ClosedStep(s, e);
    MutexStep(s, e);
  }

  lemma {:induction false} StepsInvariant(s: State, es: seq<Event>, t: State)
    requires Invariant(s) && Steps(s, es, t)
    ensures Invariant(t)
    decreases |es|
  {
    if es == [] {
    } else {
      StepInvariant(s, es[0]);
      StepsInvariant(Apply(s, es[0]), es[1..], t);
    }
  }

  // ----- theorems over all runs

  /** connsWg counts the handlers that are registered and not yet decremented; conns holds the registered ones. */
  lemma CounterIsRight(es: seq<Event>, t: State)
    requires Steps(START, es, t)
    ensures t.connsWg == |CountedConns(t)|
    ensures forall c :: c in t.conns <==> c in t.handlers && !t.handlers[c].Spawned? && !t.handlers[c].Done?
  {
    assert CountedConns(START) == {};
    StepsInvariant(START, es, t);
  }

  /** A handler that can only leave without serving, once the proxy is closing. */
  predicate OnlyLeaves(pc: Pc) {
    pc.Spawned? || pc.Registered? || pc.Leaving? || pc.Closed? || pc.Decremented? || pc.Done?
  }

  /** A request of the connection goes upstream, by itself or inside an HTTP/2 session. */
  predicate IsDispatch(e: Event, c: ConnId) {
    e == Dispatch(c) || e == SessionRequest(c)
  }

  ghost predicate NoDispatch(es: seq<Event>, c: ConnId) {
    forall i :: 0 <= i < |es| ==> !IsDispatch(es[i], c)
  }

  lemma LateStep(s: State, e: Event, c: ConnId)
    requires s.closing && Enabled(s, e) && (c in s.handlers ==> OnlyLeaves(s.handlers[c]))
    ensures !IsDispatch(e, c) && Apply(s, e).closing
    ensures c in Apply(s, e).handlers ==> OnlyLeaves(Apply(s, e).handlers[c])
  {
  }

  /** A connection that registers once the proxy is closing, or has not even been accepted, is never served. */
  lemma {:induction false} LateComersAreNotServed(s: State, es: seq<Event>, t: State, c: ConnId)
    requires s.closing && Steps(s, es, t)
    requires c in s.handlers ==> OnlyLeaves(s.handlers[c])
    ensures NoDispatch(es, c)
    ensures c in t.handlers ==> OnlyLeaves(t.handlers[c])
    decreases |es|
  {
    if es == [] {
    } else {
      LateStep(s, es[0], c);
      LateComersAreNotServed(Apply(s, es[0]), es[1..], t, c);
      assert forall i :: 1 <= i < |es| ==> es[i] == es[1..][i-1];
    }
  }

  /**
   * When Shutdown returns nil, every connection that has registered is closed, and
   * no request is dispatched on any connection for the rest of the run.
   */
  lemma ShutdownReturnsNil(es: seq<Event>, s: State, k: CallerId, later: seq<Event>, t: State)
    requires Steps(START, es, s) && Enabled(s, PollZero(k)) && Steps(Apply(s, PollZero(k)), later, t)
    ensures forall c :: c in s.handlers && !s.handlers[c].Spawned? ==> c in s.closed
    ensures forall c :: NoDispatch(later, c)
  {
    assert CountedConns(START) == {};
    StepsInvariant(START, es, s);
    forall c | c in s.handlers ensures !Counted(s.handlers[c]) {
      assert CountedConns(s) == {};
      assert c !in CountedConns(s);
    }
    forall c ensures NoDispatch(later, c) {
      LateComersAreNotServed(Apply(s, PollZero(k)), later, t, c);
    }
  }

  /** After Close returns, every connection registered at that time is closed. */
  lemma CloseClosesAll(es: seq<Event>, s: State)
    requires Steps(START, es, s) && Enabled(s, CloseProxy)
    ensures var t := Apply(s, CloseProxy);
      t.closing && forall c :: c in t.handlers && !t.handlers[c].Spawned? ==> c in t.closed
  {
    assert CountedConns(START) == {};
    StepsInvariant(START, es, s);
  }

  function Dispatches(es: seq<Event>, c: ConnId): nat {
    if es == [] then 0 else (if IsDispatch(es[0], c) then 1 else 0) + Dispatches(es[1..], c)
  }

  /** Dispatches a handler outside a session still has ahead of it once the proxy is closing. */
  function Budget(pc: Pc): nat {
    if pc.Admitted? then 1 else 0
  }

  lemma BudgetStep(s: State, e: Event, c: ConnId)
    requires s.closing && Enabled(s, e) && !InSession(s, c)
    ensures Apply(s, e).closing && !InSession(Apply(s, e), c)
    ensures var spent, before := if IsDispatch(e, c) then 1 else 0,
          if c in s.handlers then Budget(s.handlers[c]) else 0;
      spent + (if c in Apply(s, e).handlers then Budget(Apply(s, e).handlers[c]) else 0) <= before
  {
  }

  /**
   * Once the proxy is closing, a connection that is not in an HTTP/2 session dispatches
   * at most the one request that had already passed the check, and none otherwise.
   */
  lemma {:induction false} AtMostTheRequestInFlight(s: State, es: seq<Event>, t: State, c: ConnId)
    requires s.closing && Steps(s, es, t) && !InSession(s, c)
    ensures Dispatches(es, c) <= if c in s.handlers then Budget(s.handlers[c]) else 0
    decreases |es|
  {
    if es == [] {
    } else {
      BudgetStep(s, es[0], c);
      AtMostTheRequestInFlight(Apply(s, es[0]), es[1..], t, c);
    }
  }

  /** In a session there is no such bound: its select may keep preferring frames over the closing channel. */
  lemma {:induction false} SessionOutlivesClosing(s: State, c: ConnId, n: nat) returns (es: seq<Event>)
    requires InSession(s, c)
    ensures Steps(s, es, s) && Dispatches(es, c) == n
    decreases n
  {
    if n == 0 {
      es := [];
    } else {
      assert Apply(s, SessionRequest(c)) == s;
      var rest := SessionOutlivesClosing(s, c, n - 1);
      es := [SessionRequest(c)] + rest;
      assert es[1..] == rest;
    }
  }

  // ----- Shutdown does not block what it waits for

  /** The next step of a counted handler, when blocking operations end and tunnels are over. */
  function NextStep(c: ConnId, pc: Pc): Event
    requires Counted(pc) && !pc.Wedged?
  {
    match pc
    case Registered => CheckStart(c)
    case Handshaking => Handshake(c, false)
    case Waiting => Read(c, false)
    case GotRequest => Admit(c)
    case Admitted => Dispatch(c)
    case Serving => Serve(c)
    case Responding => Respond(c, CloseAfter)
    case Tunneling => EndTunnel(c)
    case Session => EndSession(c, false)
    case Leaving => CloseConn(c)
    case Closed => Decrement(c)
  }

  /** How far a counted handler is from its decrement. */
  function Distance(pc: Pc): nat {
    match pc
    case Closed => 1
    case Leaving => 2
    case Registered => 3
    case Handshaking => 3
    case Waiting => 3
    case GotRequest => 3
    case Tunneling => 3
    case Session => 3
    case Responding => 3
    case Serving => 4
    case Admitted => 5
    case _ => 0
  }

  /** Whoever holds the mutex, a counted handler can take its next step and gets closer to its decrement. */
  lemma HandlerIsFree(s: State, c: ConnId)
    requires s.closing && c in s.handlers && Counted(s.handlers[c]) && !s.handlers[c].Wedged?
    ensures var e := NextStep(c, s.handlers[c]);
      && Enabled(s, e)
      && Apply(s, e).closing && Apply(s, e).mutex == s.mutex && Apply(s, e).callers == s.callers
      && c in Apply(s, e).handlers && Distance(Apply(s, e).handlers[c]) < Distance(s.handlers[c])
      && (Counted(Apply(s, e).handlers[c]) ==> Apply(s, e).connsWg == s.connsWg)
      && (!Counted(Apply(s, e).handlers[c]) ==> Apply(s, e).connsWg == s.connsWg - 1)
  {
  }

  lemma {:induction false} StepsConcat(s: State, a: seq<Event>, m: State, b: seq<Event>, t: State)
    requires Steps(s, a, m) && Steps(m, b, t)
    ensures Steps(s, a + b, t)
    decreases |a|
  {
    if a == [] {
      assert a + b == b;
    } else {
      assert (a + b)[1..] == a[1..] + b;
      StepsConcat(Apply(s, a[0]), a[1..], m, b, t);
    }
  }

  ghost predicate NoneWedged(s: State) {
    forall c :: c in s.handlers ==> !s.handlers[c].Wedged?
  }

  lemma {:induction false} HandlerDrains(s: State, c: ConnId) returns (es: seq<Event>, t: State)
    requires Invariant(s) && NoneWedged(s) && s.closing && c in s.handlers && Counted(s.handlers[c])
    ensures Steps(s, es, t) && Invariant(t) && NoneWedged(t) && t.closing
    ensures t.mutex == s.mutex && t.callers == s.callers && t.connsWg == s.connsWg - 1
    decreases Distance(s.handlers[c])
  {
    var e := NextStep(c, s.handlers[c]);
    HandlerIsFree(s, c);
    StepInvariant(s, e);
    HandlerMoves(s, e);
    var u := Apply(s, e);
    if Counted(u.handlers[c]) {
      var rest;
      rest, t := HandlerDrains(u, c);
      es := [e] + rest;
      assert es[1..] == rest;
    } else {
      es, t := [e], u;
      assert es[1..] == [];
    }
  }

  lemma {:induction false} AllDrain(s: State, k: CallerId) returns (es: seq<Event>, t: State)
    requires Invariant(s) && NoneWedged(s) && k in s.callers && s.callers[k].Polling?
    ensures Steps(s, es, t) && t.mutex == Some(k) && Enabled(t, PollZero(k))
    decreases s.connsWg
  {
    if s.connsWg == 0 {
      es, t := [], s;
    } else {
      assert CountedConns(s) != {};
      var c :| c in CountedConns(s);
      var first, m := HandlerDrains(s, c);
      var rest;
      rest, t := AllDrain(m, k);
      StepsConcat(s, first, m, rest, t);
      es := first + rest;
    }
  }

  /**
   * Shutdown never waits for something it blocks: from every reachable state in
   * which it polls and no session is wedged, while it keeps the mutex, the handlers
   * alone can reach a state in which it returns nil.
   */
  lemma ShutdownCanFinish(es: seq<Event>, s: State, k: CallerId) returns (more: seq<Event>, t: State)
    requires Steps(START, es, s) && NoneWedged(s) && k in s.callers && s.callers[k].Polling?
    ensures Steps(s, more, t) && t.mutex == Some(k) && Enabled(t, PollZero(k))
  {
    assert CountedConns(START) == {};
    StepsInvariant(START, es, s);
    more, t := AllDrain(s, k);
  }

  lemma WedgedStep(s: State, e: Event, c: ConnId)
    requires IsAt(s, c, Wedged) && Enabled(s, e)
    ensures IsAt(Apply(s, e), c, Wedged)
  {
  }

  lemma {:induction false} WedgedStays(s: State, es: seq<Event>, t: State, c: ConnId)
    requires IsAt(s, c, Wedged) && Steps(s, es, t)
    ensures IsAt(t, c, Wedged)
    decreases |es|
  {
    if es == [] {
    } else {
      WedgedStep(s, es[0], c);
      WedgedStays(Apply(s, es[0]), es[1..], t, c);
    }
  }

  /** And only then: with a wedged session, no Shutdown returns nil in any continuation, not even after Close. */
  lemma WedgedBlocksShutdown(es: seq<Event>, s: State, c: ConnId, more: seq<Event>, t: State, k: CallerId)
    requires Steps(START, es, s) && IsAt(s, c, Wedged) && Steps(s, more, t)
    ensures !Enabled(t, PollZero(k))
  {
    WedgedStays(s, more, t, c);
    assert CountedConns(START) == {};
    StepsInvariant(START, es, s);
    StepsInvariant(s, more, t);
    assert c in CountedConns(t);
  }

  // ----- runs that get there

  lemma {:induction false} StepsSnoc(s: State, es: seq<Event>, m: State, e: Event)
    requires Steps(s, es, m) && Enabled(m, e)
    ensures Steps(s, es + [e], Apply(m, e))
    decreases |es|
  {
    if es == [] {
      assert ([] + [e])[1..] == [];
    } else {
      assert (es + [e])[1..] == es[1..] + [e];
      StepsSnoc(Apply(s, es[0]), es[1..], m, e);
    }
  }

  lemma WaitingIsReachable(c: ConnId) returns (es: seq<Event>, t: State)
    ensures Steps(START, es, t) && IsAt(t, c, Waiting) && !t.closing && t.mutex.None? && t.callers == map[]
  {
    es, t := [], START;
    StepsSnoc(START, es, t, Spawn(c));
    es, t := es + [Spawn(c)], Apply(t, Spawn(c));
    StepsSnoc(START, es, t, Register(c));
    es, t := es + [Register(c)], Apply(t, Register(c));
    StepsSnoc(START, es, t, CheckStart(c));
    es, t := es + [CheckStart(c)], Apply(t, CheckStart(c));
    StepsSnoc(START, es, t, Handshake(c, true));
    es, t := es + [Handshake(c, true)], Apply(t, Handshake(c, true));
  }

  /** A connection is accepted, and the CONNECT on it is intercepted and negotiates HTTP/2. */
  lemma SessionIsReachable(c: ConnId) returns (es: seq<Event>, t: State)
    ensures Steps(START, es, t) && IsAt(t, c, Session) && !t.closing && t.mutex.None? && t.callers == map[]
  {
    es, t := WaitingIsReachable(c);
    StepsSnoc(START, es, t, Read(c, true));
    es, t := es + [Read(c, true)], Apply(t, Read(c, true));
    StepsSnoc(START, es, t, Admit(c));
    es, t := es + [Admit(c)], Apply(t, Admit(c));
    StepsSnoc(START, es, t, Dispatch(c));
    es, t := es + [Dispatch(c)], Apply(t, Dispatch(c));
    StepsSnoc(START, es, t, Serve(c));
    es, t := es + [Serve(c)], Apply(t, Serve(c));
    StepsSnoc(START, es, t, Respond(c, Intercept));
    es, t := es + [Respond(c, Intercept)], Apply(t, Respond(c, Intercept));
  }

  /** Shutdown begins while the session is open. */
  lemma SessionAtShutdown(c: ConnId, k: CallerId) returns (es: seq<Event>, t: State)
    ensures Steps(START, es, t) && t.closing && IsAt(t, c, Session) && k in t.callers && t.callers[k].Polling?
  {
    es, t := SessionIsReachable(c);
    StepsSnoc(START, es, t, BeginShutdown(k));
    es, t := es + [BeginShutdown(k)], Apply(t, BeginShutdown(k));
  }

  /** And the session is wedged: this Shutdown never returns nil. */
  lemma ShutdownWaitsForever(c: ConnId, k: CallerId) returns (es: seq<Event>, s: State)
    ensures Steps(START, es, s) && k in s.callers && s.callers[k].Polling?
    ensures forall more, t :: Steps(s, more, t) ==> !Enabled(t, PollZero(k))
  {
    es, s := SessionAtShutdown(c, k);
    StepsSnoc(START, es, s, Wedge(c));
    es, s := es + [Wedge(c)], Apply(s, Wedge(c));
    forall more, t | Steps(s, more, t) ensures !Enabled(t, PollZero(k)) {
      WedgedBlocksShutdown(es, s, c, more, t, k);
    }
  }
}
