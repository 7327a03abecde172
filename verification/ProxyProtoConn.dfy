/**
 * A connection whose PROXY header is read on first use: any number of concurrent
 * callers of Read, Write, the address methods and Header, one step per atomic load,
 * lock operation or channel operation, in any interleaving.
 */
module ProxyProtoConn {
  import opened Bytes
  import opened ProxyProto

  type CallerId = nat

  // What a caller finds once the header is settled: the header, or headerErr != nil.
  datatype Settled = Good(header: Header) | Failed

  datatype Operation = ReadCall | OtherCall

  datatype Pc =
    | Entering(op: Operation)                    // before the first load of isHeaderRead
    | Locking(op: Operation)                     // before headerMu.Lock
    | Rechecking(op: Operation)                  // holding the lock, before the second load
    | Selecting(op: Operation)                   // ReadHeader runs; waiting for it or the deadline
    | Publishing(op: Operation, seen: Settled)   // the outcome is stored; before isHeaderRead is
    | Unlocking(op: Operation, seen: Settled)    // before headerMu.Unlock
    | Gated(op: Operation, seen: Settled)        // readHeader has returned
    | Returned

  // The goroutine that runs ReadHeader on the underlying connection.
  datatype Goroutine = Absent | Running | Finished(result: Option<Parsed>)

  /**
   * `starts` counts goroutines, `position` is how far the underlying stream has been
   * read, `delivered` what Read calls returned.
   */
  datatype State = State(
    isHeaderRead: bool, settled: Option<Settled>, lockedBy: Option<CallerId>,
    starts: nat, goroutine: Goroutine, closed: bool,
    callers: map<CallerId, Pc>, position: nat, delivered: bytes)

  const START := State(false, None, None, 0, Absent, false, map[], 0, [])

  datatype Event =
    | Enter(k: CallerId, op: Operation)
    | FastCheck(k: CallerId)
    | Lock(k: CallerId)
    | Recheck(k: CallerId)
    | HeaderDone(broken: bool)
    | TakeResult(k: CallerId)
    | TakeTimeout(k: CallerId)
    | Publish(k: CallerId)
    | Unlock(k: CallerId)
    | Perform(k: CallerId, n: nat)

  predicate Waits(s: State, k: CallerId) {
    k in s.callers && s.callers[k].Selecting?
  }

  /** `stream` is everything the client sends on the underlying connection. */
  predicate Enabled(stream: bytes, s: State, e: Event) {
    match e
    case Enter(k, _) => k !in s.callers || s.callers[k].Returned?
    case FastCheck(k) => k in s.callers && s.callers[k].Entering?
    case Lock(k) => k in s.callers && s.callers[k].Locking? && s.lockedBy.None?
    case Recheck(k) => k in s.callers && s.callers[k].Rechecking?
    case HeaderDone(broken) => s.goroutine.Running? && (broken ==> s.closed)
    case TakeResult(k) => Waits(s, k) && s.goroutine.Finished?
    case TakeTimeout(k) => Waits(s, k)
    case Publish(k) => k in s.callers && s.callers[k].Publishing?
    case Unlock(k) => k in s.callers && s.callers[k].Unlocking?
    case Perform(k, n) =>
      k in s.callers && s.callers[k].Gated?
      && (s.callers[k].op.ReadCall? && s.callers[k].seen.Good? ==> s.position + n <= |stream|)
  }

  /** What c.header and c.headerErr hold; before they are set, the zero header and no error. */
  function Stored(s: State): Settled {
    if s.settled.Some? then s.settled.value else Good(Header(None, None, false, 0, [], []))
  }

  function At(s: State, k: CallerId, pc: Pc): State {
    s.(callers := s.callers[k := pc])
  }

  /** The outcome is stored, before the flag and while the lock is held. */
  function Settle(s: State, k: CallerId, outcome: Settled): State
    requires Waits(s, k)
  {
    At(s, k, Publishing(s.callers[k].op, outcome)).(settled := Some(outcome))
  }

  function Apply(p: Parsers, stream: bytes, s: State, e: Event): State
    requires Enabled(stream, s, e)
  {
    match e
    case Enter(k, op) => At(s, k, Entering(op))
    case FastCheck(k) =>
      if s.isHeaderRead then At(s, k, Gated(s.callers[k].op, Stored(s))) else At(s, k, Locking(s.callers[k].op))
    case Lock(k) => At(s, k, Rechecking(s.callers[k].op)).(lockedBy := Some(k))
    case Recheck(k) =>
      if s.isHeaderRead then At(s, k, Unlocking(s.callers[k].op, Stored(s)))
      else At(s, k, Selecting(s.callers[k].op)).(starts := s.starts + 1, goroutine := Running)
    case HeaderDone(broken) =>
      var r := if broken then None else Read(p, stream);
      s.(goroutine := Finished(r), position := if r.Some? then r.value.used else s.position)
    case TakeResult(k) =>
      var r := s.goroutine.result;
      Settle(s, k, if r.Some? then Good(r.value.header) else Failed)
    case TakeTimeout(k) => Settle(s, k, Failed).(closed := true)
    case Publish(k) => At(s, k, Unlocking(s.callers[k].op, s.callers[k].seen)).(isHeaderRead := true)
    case Unlock(k) => At(s, k, Gated(s.callers[k].op, s.callers[k].seen)).(lockedBy := None)
    case Perform(k, n) =>
      if s.callers[k].op.ReadCall? && s.callers[k].seen.Good? then
        At(s, k, Returned).(position := s.position + n, delivered := s.delivered + stream[s.position..s.position + n])
      else At(s, k, Returned)
  }

  ghost predicate Steps(p: Parsers, stream: bytes, s: State, es: seq<Event>, t: State)
    decreases |es|
  {
    if es == [] then s == t
    else Enabled(stream, s, es[0]) && Steps(p, stream, Apply(p, stream, s, es[0]), es[1..], t)
  }

  // ----- the invariant

  predicate HoldsLock(pc: Pc) {
    pc.Rechecking? || pc.Selecting? || pc.Publishing? || pc.Unlocking?
  }

  /** The lock: who holds it is who is between Lock and Unlock. */
  ghost predicate LockRight(s: State) {
    forall k :: k in s.callers && HoldsLock(s.callers[k]) <==> s.lockedBy == Some(k)
  }

  /** One goroutine at most; it is started, settled and published by the one who holds the lock. */
  ghost predicate OnceRight(s: State) {
    && s.starts == (if s.goroutine.Absent? then 0 else 1)
    && (s.isHeaderRead ==> s.settled.Some?)
    && (s.settled.Some? ==> !s.goroutine.Absent?)
    && (forall k :: k in s.callers && s.callers[k].Selecting? ==> s.settled.None? && !s.goroutine.Absent?)
    && (!s.isHeaderRead && !s.goroutine.Absent? ==>
          s.lockedBy.Some? && s.lockedBy.value in s.callers
          && var pc := s.callers[s.lockedBy.value]; if s.settled.Some? then pc.Publishing? else pc.Selecting?)
  }

  /** Whoever has an outcome in hand has the one settled outcome. */
  ghost predicate SeenRight(s: State) {
    forall k :: k in s.callers && (s.callers[k].Publishing? || s.callers[k].Unlocking? || s.callers[k].Gated?)
      ==> s.settled == Some(s.callers[k].seen)
  }

  /** A good outcome is what ReadHeader makes of the stream; payload starts right after the header. */
  ghost predicate DataRight(p: Parsers, stream: bytes, s: State) {
    && (s.goroutine.Finished? && s.goroutine.result.Some? ==> s.goroutine.result == Read(p, stream))
    && (s.settled.Some? && s.settled.value.Good? ==>
          s.goroutine.Finished? && s.goroutine.result.Some?
          && s.settled.value.header == s.goroutine.result.value.header)
    && (s.delivered != [] ==> s.settled.Some? && s.settled.value.Good?)
    && (s.goroutine.Finished? && s.goroutine.result.Some? ==>
          var used := s.goroutine.result.value.used;
          used <= s.position <= |stream| && s.delivered == stream[used..s.position])
  }

  ghost predicate Invariant(p: Parsers, stream: bytes, s: State) {
    LockRight(s) && OnceRight(s) && SeenRight(s) && DataRight(p, stream, s)
  }

  lemma LockStep(p: Parsers, stream: bytes, s: State, e: Event)
    requires LockRight(s) && Enabled(stream, s, e)
    ensures LockRight(Apply(p, stream, s, e))
  {
  }

  /** Starting, settling and publishing, which the holder of the lock does. */
  lemma HolderStep(p: Parsers, stream: bytes, s: State, e: Event)
    requires LockRight(s) && OnceRight(s) && SeenRight(s) && Enabled(stream, s, e)
    requires e.Recheck? || e.TakeResult? || e.TakeTimeout? || e.Publish?
    ensures OnceRight(Apply(p, stream, s, e))
  {
    assert s.lockedBy == Some(e.k) by {
      assert HoldsLock(s.callers[e.k]);
    }
  }

  lemma OnceStep(p: Parsers, stream: bytes, s: State, e: Event)
    requires LockRight(s) && OnceRight(s) && SeenRight(s) && Enabled(stream, s, e)
    ensures OnceRight(Apply(p, stream, s, e))
  {
    if e.Recheck? || e.TakeResult? || e.TakeTimeout? || e.Publish? {
      HolderStep(p, stream, s, e);
    }
  }

  lemma SeenStep(p: Parsers, stream: bytes, s: State, e: Event)
    requires OnceRight(s) && SeenRight(s) && Enabled(stream, s, e)
    ensures SeenRight(Apply(p, stream, s, e))
  {
  }

  lemma ReadFits(p: Parsers, stream: bytes)
    ensures Read(p, stream).Some? ==> Read(p, stream).value.used <= |stream|
  {
  }

  lemma Adjoin(stream: bytes, from: nat, mid: nat, to: nat)
    requires from <= mid <= to <= |stream|
    ensures stream[from..mid] + stream[mid..to] == stream[from..to]
  {
  }

  /** What the payload depends on. */
  ghost predicate SameData(s: State, t: State) {
    t.goroutine == s.goroutine && t.settled == s.settled && t.position == s.position && t.delivered == s.delivered
  }

  lemma PayloadStep(p: Parsers, stream: bytes, s: State, k: CallerId, n: nat)
    requires SeenRight(s) && DataRight(p, stream, s) && Enabled(stream, s, Perform(k, n))
    ensures DataRight(p, stream, Apply(p, stream, s, Perform(k, n)))
  {
    var t := Apply(p, stream, s, Perform(k, n));
    assert t.goroutine == s.goroutine && t.settled == s.settled;
    if s.callers[k].op.ReadCall? && s.callers[k].seen.Good? {
      var used, to := s.goroutine.result.value.used, s.position + n;
      Adjoin(stream, used, s.position, to);
      assert t.position == to && t.delivered == stream[used..to];
    } else {
      assert SameData(s, t);
    }
  }

  /** The goroutine is started while nothing is settled, and ends before anything is. */
  lemma HeaderStep(p: Parsers, stream: bytes, s: State, e: Event)
    requires LockRight(s) && OnceRight(s) && DataRight(p, stream, s) && Enabled(stream, s, e)
    requires e.Recheck? || e.HeaderDone?
    ensures DataRight(p, stream, Apply(p, stream, s, e))
  {
    ReadFits(p, stream);
    if e.Recheck? && !s.isHeaderRead {
      assert s.goroutine.Absent? && s.settled.None?;
    }
  }

  lemma SettleStep(p: Parsers, stream: bytes, s: State, e: Event)
    requires OnceRight(s) && DataRight(p, stream, s) && Enabled(stream, s, e)
    requires e.TakeResult? || e.TakeTimeout?
    ensures DataRight(p, stream, Apply(p, stream, s, e))
  {
  }

  lemma DataStep(p: Parsers, stream: bytes, s: State, e: Event)
    requires LockRight(s) && OnceRight(s) && SeenRight(s) && DataRight(p, stream, s) && Enabled(stream, s, e)
    ensures DataRight(p, stream, Apply(p, stream, s, e))
  {
    if e.Perform? {
      PayloadStep(p, stream, s, e.k, e.n);
    } else if e.Recheck? || e.HeaderDone? {
      HeaderStep(p, stream, s, e);
    } else if e.TakeResult? || e.TakeTimeout? {
      SettleStep(p, stream, s, e);
    } else {
      assert SameData(s, Apply(p, stream, s, e));
    }
  }

  lemma StepInvariant(p: Parsers, stream: bytes, s: State, e: Event)
    requires Invariant(p, stream, s) && Enabled(stream, s, e)
    ensures Invariant(p, stream, Apply(p, stream, s, e))
  {
    LockStep(p, stream, s, e);
    OnceStep(p, stream, s, e);
    SeenStep(p, stream, s, e);
    DataStep(p, stream, s, e);
  }

  lemma OutcomeStays(p: Parsers, stream: bytes, s: State, e: Event)
    requires OnceRight(s) && Enabled(stream, s, e) && s.settled.Some?
    ensures Apply(p, stream, s, e).settled == s.settled
  {
  }

  lemma {:induction false} StepsInvariant(p: Parsers, stream: bytes, s: State, es: seq<Event>, t: State)
    requires Invariant(p, stream, s) && Steps(p, stream, s, es, t)
    ensures Invariant(p, stream, t)
    decreases |es|
  {
    if es == [] {
    } else {
      StepInvariant(p, stream, s, es[0]);
      StepsInvariant(p, stream, Apply(p, stream, s, es[0]), es[1..], t);
    }
  }

  // ----- theorems over all runs

  /** ReadHeader is started at most once, however many callers race for it. */
  lemma HeaderReadOnce(p: Parsers, stream: bytes, es: seq<Event>, t: State)
    requires Steps(p, stream, START, es, t)
    ensures t.starts <= 1
  {
    StepsInvariant(p, stream, START, es, t);
  }

  /** Once settled, the outcome stays, through every continuation of the run. */
  lemma {:induction false} OutcomeIsFixed(p: Parsers, stream: bytes, s: State, es: seq<Event>, t: State)
    requires Invariant(p, stream, s) && Steps(p, stream, s, es, t) && s.settled.Some?
    ensures t.settled == s.settled
    decreases |es|
  {
    if es == [] {
    } else {
      StepInvariant(p, stream, s, es[0]);
      OutcomeStays(p, stream, s, es[0]);
      OutcomeIsFixed(p, stream, Apply(p, stream, s, es[0]), es[1..], t);
    }
  }

  /** All callers, early or late, see the same outcome. */
  lemma AllSeeTheSame(
      p: Parsers, stream: bytes, es: seq<Event>, s: State, more: seq<Event>, t: State, j: CallerId, k: CallerId)
    requires Steps(p, stream, START, es, s) && j in s.callers && s.callers[j].Gated?
    requires Steps(p, stream, s, more, t) && k in t.callers && t.callers[k].Gated?
    ensures s.callers[j].seen == t.callers[k].seen
  {
    StepsInvariant(p, stream, START, es, s);
    StepsInvariant(p, stream, s, more, t);
    OutcomeIsFixed(p, stream, s, more, t);
  }

  /**
   * The Read calls together return the octets right after the header, in order and
   * without gap, and nothing at all unless the header was parsed before the deadline.
   */
  lemma PayloadAfterHeader(p: Parsers, stream: bytes, es: seq<Event>, t: State)
    requires Steps(p, stream, START, es, t)
    ensures t.delivered != [] ==>
      && Read(p, stream).Some?
      && t.settled == Some(Good(Read(p, stream).value.header))
      && Read(p, stream).value.used <= |stream|
      && t.delivered <= stream[Read(p, stream).value.used..]
  {
    StepsInvariant(p, stream, START, es, t);
    if t.delivered != [] {
      var used := Read(p, stream).value.used;
      assert stream[used..t.position] == stream[used..][..t.position - used];
    }
  }
}
