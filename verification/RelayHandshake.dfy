/**
 * relayFrames: the reader goroutine puts frames on a bounded channel, the writer
 * goroutine takes and sends them, and the two end together. One step per channel
 * operation or send, in any interleaving; the peer's reader may put frames too.
 */
module RelayHandshake {
  import opened H2Frames

  const OUTPUT_CHANNEL_SIZE := 15

  datatype WriterPc = Select | Sending(frame: QueuedFrame) | Reporting | Stopped

  datatype ReaderPc = Reading | Pushing(frames: seq<QueuedFrame>) | Leaving | Gone

  /**
   * `put` and `taken` stand for the output channel: it holds put[taken..]. `failed`
   * is the writer's err != nil, `reports` the content of writerErr (capacity 1).
   */
  datatype State = State(
    put: seq<QueuedFrame>, taken: nat, sent: seq<QueuedFrame>,
    failed: bool, reports: nat, writer: WriterPc, reader: ReaderPc)

  const START := State([], 0, [], false, 0, Select, Reading)

  datatype Event =
    | Take | SendOk | SendFails | Report
    | Finish                                   // readerDone changes hands
    | Process(frames: seq<QueuedFrame>) | Push | Leave | SeeReport
    | PeerPush(frame: QueuedFrame)

  predicate HasRoom(s: State) {
    |s.put| - s.taken < OUTPUT_CHANNEL_SIZE
  }

  predicate Enabled(s: State, e: Event) {
    match e
    case Take => s.writer.Select? && s.taken < |s.put|
    case SendOk => s.writer.Sending?
    case SendFails => s.writer.Sending?
    case Report => s.writer.Reporting? && s.reports < 1
    case Finish => s.writer.Select? && s.reader.Leaving?
    case Process(frames) => s.reader.Reading? && frames != []
    case Push => s.reader.Pushing? && s.reader.frames != [] && HasRoom(s)
    case Leave => s.reader.Reading?
    case SeeReport => s.reader.Reading? && s.reports > 0
    case PeerPush(_) => HasRoom(s)
  }

  function Apply(s: State, e: Event): State
    requires Enabled(s, e)
  {
    match e
    case Take => s.(taken := s.taken + 1, writer := if s.failed then Select else Sending(s.put[s.taken]))
    case SendOk => s.(sent := s.sent + [s.writer.frame], writer := Select)
    case SendFails => s.(failed := true, writer := Reporting)
    case Report => s.(reports := s.reports + 1, writer := Select)
    case Finish => s.(writer := Stopped, reader := Gone)
    case Process(frames) => s.(reader := Pushing(frames))
    case Push =>
      s.(put := s.put + [s.reader.frames[0]],
         reader := if |s.reader.frames| == 1 then Reading else Pushing(s.reader.frames[1..]))
    case Leave => s.(reader := Leaving)
    case SeeReport => s.(reports := s.reports - 1, reader := Leaving)
    case PeerPush(f) => s.(put := s.put + [f])
  }

  ghost predicate Steps(s: State, es: seq<Event>, t: State)
    decreases |es|
  {
    if es == [] then s == t else Enabled(s, es[0]) && Steps(Apply(s, es[0]), es[1..], t)
  }

  ghost predicate Invariant(s: State) {
    && s.taken <= |s.put| <= s.taken + OUTPUT_CHANNEL_SIZE
    && (if s.failed then |s.sent| < s.taken && s.sent == s.put[..|s.sent|]
        else if s.writer.Sending? then s.sent + [s.writer.frame] == s.put[..s.taken]
        else s.sent == s.put[..s.taken])
    && (s.writer.Sending? ==> !s.failed)
    && (s.writer.Reporting? ==> s.failed && s.reports == 0)
    && (!s.failed ==> s.reports == 0)
    && s.reports <= 1
    && (s.writer.Stopped? <==> s.reader.Gone?)
    && (s.reader.Pushing? ==> s.reader.frames != [])
  }

  lemma WriterStepInvariant(s: State, e: Event)
    requires Invariant(s) && Enabled(s, e)
    requires e.Take? || e.SendOk? || e.SendFails?
    ensures Invariant(Apply(s, e))
  {
    if e.Take? {
      assert s.put[..s.taken+1] == s.put[..s.taken] + [s.put[s.taken]];
    } else if e.SendFails? {
      assert s.sent == s.put[..|s.sent|];
    }
  }

  lemma StepInvariant(s: State, e: Event)
    requires Invariant(s) && Enabled(s, e)
    ensures Invariant(Apply(s, e))
  {
    if e.Take? || e.SendOk? || e.SendFails? {
      WriterStepInvariant(s, e);
    } else if e.Push? || e.PeerPush? {
      var t := Apply(s, e);
      assert forall k :: 0 <= k <= |s.put| ==> t.put[..k] == s.put[..k];
    }
  }

  lemma {:induction false} StepsInvariant(s: State, es: seq<Event>, t: State)
    requires Invariant(s) && Steps(s, es, t)
    ensures Invariant(t)
    decreases |es|
  {
    if es == [] {
    } else {
      StepInvariant(s, es[0]);
      StepsInvariant(Apply(s, es[0]), es[1..], t);
    }
  }

  /** In every run, what has been sent is a prefix of what was put on the channel. */
  lemma SentIsPrefix(es: seq<Event>, t: State)
    requires Steps(START, es, t)
    ensures t.sent <= t.put
  {
    StepsInvariant(START, es, t);
  }

  /** Once a send has failed nothing is sent any more, for the rest of the run. */
  lemma {:induction false} NothingSentAfterFailure(s: State, es: seq<Event>, t: State)
    requires Invariant(s) && s.failed && Steps(s, es, t)
    ensures t.failed && t.sent == s.sent
    decreases |es|
  {
    if es == [] {
    } else {
      StepInvariant(s, es[0]);
      NothingSentAfterFailure(Apply(s, es[0]), es[1..], t);
    }
  }

  /** The one error report finds room in its channel, so the writer never blocks on it. */
  lemma ReportNeverBlocks(es: seq<Event>, t: State)
    requires Steps(START, es, t)
    ensures t.writer.Reporting? ==> Enabled(t, Report)
    ensures t.reports <= 1
  {
    StepsInvariant(START, es, t);
  }

  /** The steps of the relay's two goroutines; the peer's reader is neither. */
  predicate IsOwn(e: Event) {
    !e.PeerPush?
  }

  lemma {:induction false} SilentWhenGone(s: State, es: seq<Event>, t: State)
    requires s.writer.Stopped? && s.reader.Gone? && Steps(s, es, t)
    ensures forall i :: 0 <= i < |es| ==> !IsOwn(es[i])
    ensures t.sent == s.sent && t.taken == s.taken
    decreases |es|
  {
    if es == [] {
    } else {
      SilentWhenGone(Apply(s, es[0]), es[1..], t);
      assert forall i :: 1 <= i < |es| ==> es[i] == es[1..][i-1];
    }
  }

  /**
   * The two goroutines end together: once readerDone has changed hands, neither takes
   * another step. So no frame is taken or sent afterwards, and whatever the reader had
   * to push was pushed while the writer was still there to take it.
   */
  lemma BothEndTogether(es: seq<Event>, s: State, later: seq<Event>, t: State)
    requires Steps(START, es, s) && Enabled(s, Finish) && Steps(Apply(s, Finish), later, t)
    ensures forall i :: 0 <= i < |later| ==> !IsOwn(later[i])
    ensures t.sent == s.sent && t.taken == s.taken
  {
    SilentWhenGone(Apply(s, Finish), later, t);
  }

  /** What the writer does on its own to get back to its select; `ok` is how a send in progress ends. */
  function BackToSelect(s: State, ok: bool): seq<Event> {
    if s.writer.Sending? then (if ok then [SendOk] else [SendFails, Report])
    else if s.writer.Reporting? then [Report]
    else []
  }

  lemma FailedSendRuns(s: State) returns (t: State)
    requires Invariant(s) && s.writer.Sending?
    ensures Steps(s, [SendFails, Report], t) && Invariant(t) && t.writer.Select?
    ensures t.put == s.put && t.taken == s.taken && t.reader == s.reader
  {
    var m := Apply(s, SendFails);
    StepInvariant(s, SendFails);
    StepInvariant(m, Report);
    t := Apply(m, Report);
    assert [SendFails, Report][1..] == [Report] && [Report][1..] == [];
  }

  lemma BackToSelectRuns(s: State, ok: bool) returns (t: State)
    requires Invariant(s) && !s.reader.Gone?
    ensures Steps(s, BackToSelect(s, ok), t) && Invariant(t) && t.writer.Select?
    ensures t.put == s.put && t.taken == s.taken && t.reader == s.reader
  {
    if s.writer.Sending? && !ok {
      t := FailedSendRuns(s);
    } else if s.writer.Sending? {
      StepInvariant(s, SendOk);
      t := Apply(s, SendOk);
      assert [SendOk][1..] == [];
    } else if s.writer.Reporting? {
      StepInvariant(s, Report);
      t := Apply(s, Report);
      assert [Report][1..] == [];
    } else {
      t := s;
    }
  }

  lemma {:induction false} StepsThen(s: State, es: seq<Event>, m: State, e: Event)
    requires Steps(s, es, m) && Enabled(m, e)
    ensures Steps(s, es + [e], Apply(m, e))
    decreases |es|
  {
    if es == [] {
      assert ([e])[1..] == [];
    } else {
      assert (es + [e])[1..] == es[1..] + [e];
      StepsThen(Apply(s, es[0]), es[1..], m, e);
    }
  }

  /**
   * While the reader has not gone, the writer gets back to its select on its own: in
   * at most one step if a send in progress succeeds, in at most two if it fails.
   */
  lemma WriterIsThere(es: seq<Event>, s: State, ok: bool) returns (t: State)
    requires Steps(START, es, s) && !s.reader.Gone?
    ensures |BackToSelect(s, ok)| <= (if ok then 1 else 2)
    ensures Steps(s, BackToSelect(s, ok), t) && t.writer.Select? && t.put == s.put && t.reader == s.reader
  {
    StepsInvariant(START, es, s);
    t := BackToSelectRuns(s, ok);
  }

  /**
   * While the reader has not gone, nobody in front of a full channel is stuck, neither
   * the reader nor the peer's: whether or not a send has failed or fails now, at most
   * three steps of the writer alone make room.
   */
  lemma NobodyIsStuck(es: seq<Event>, s: State, ok: bool) returns (relief: seq<Event>, t: State)
    requires Steps(START, es, s) && !s.reader.Gone? && !HasRoom(s)
    ensures relief == BackToSelect(s, ok) + [Take] && |relief| <= (if ok then 2 else 3)
    ensures Steps(s, relief, t) && HasRoom(t) && t.reader == s.reader
  {
    StepsInvariant(START, es, s);
    var m := BackToSelectRuns(s, ok);
    StepsThen(s, BackToSelect(s, ok), m, Take);
    relief, t := BackToSelect(s, ok) + [Take], Apply(m, Take);
  }

  /** So the reader's next push is enabled then. */
  lemma ReaderNeverStuck(es: seq<Event>, s: State, ok: bool) returns (relief: seq<Event>, t: State)
    requires Steps(START, es, s) && s.reader.Pushing? && !HasRoom(s)
    ensures |relief| <= (if ok then 2 else 3) && Steps(s, relief, t) && Enabled(t, Push)
  {
    relief, t := NobodyIsStuck(es, s, ok);
    StepsInvariant(START, es, s);
  }

  /**
   * Once the reader has gone and the channel is full, nothing ever happens again: the
   * peer's reader that pushes into it is stuck for good.
   */
  lemma FullChannelIsForGood(s: State, es: seq<Event>, t: State)
    requires s.reader.Gone? && s.writer.Stopped? && !HasRoom(s) && Steps(s, es, t)
    ensures es == [] && t == s
  {
  }

  lemma {:induction false} PeerFills(es: seq<Event>, s: State, f: QueuedFrame, n: nat)
      returns (more: seq<Event>, t: State)
    requires Steps(START, es, s) && |s.put| - s.taken + n <= OUTPUT_CHANNEL_SIZE
    ensures Steps(START, more, t) && t == s.(put := t.put) && |t.put| == |s.put| + n
    decreases n
  {
    if n == 0 {
      more, t := es, s;
    } else {
      StepsThen(START, es, s, PeerPush(f));
      more, t := PeerFills(es + [PeerPush(f)], Apply(s, PeerPush(f)), f, n - 1);
    }
  }

  /** There is such a run: the reader leaves at once, and the peer's reader pushes fifteen frames and one more. */
  lemma PeerCanBeStuck(f: QueuedFrame) returns (es: seq<Event>, s: State)
    ensures Steps(START, es, s) && s.reader.Gone? && s.writer.Stopped? && !HasRoom(s)
  {
    StepsThen(START, [], START, Leave);
    var left := Apply(START, Leave);
    assert [] + [Leave] == [Leave];
    StepsThen(START, [Leave], left, Finish);
    es, s := PeerFills([Leave] + [Finish], Apply(left, Finish), f, OUTPUT_CHANNEL_SIZE);
  }

  /** A reader on its way out meets the writer after at most two steps of the writer. */
  lemma ReaderCanLeave(es: seq<Event>, s: State, ok: bool) returns (ending: seq<Event>, t: State)
    requires Steps(START, es, s) && s.reader.Leaving?
    ensures |ending| <= (if ok then 2 else 3) && Steps(s, ending, t) && t.reader.Gone? && t.writer.Stopped?
  {
    StepsInvariant(START, es, s);
    var m := BackToSelectRuns(s, ok);
    StepsThen(s, BackToSelect(s, ok), m, Finish);
    ending, t := BackToSelect(s, ok) + [Finish], Apply(m, Finish);
  }
}
