/**
 * The wire of one destination. The writer goroutine sends queued frames, both
 * readers write SETTINGS, PING, GOAWAY and WINDOW_UPDATE; each write section holds
 * the destination mutex. Any order of sections, any point of failure.
 */
module WireTrace {
  import opened Bytes
  import opened H2Frames
  import opened HeaderBlocks

  // One section under the mutex: all its frames are written, or a write fails after `done` of them.
  datatype Section =
    | SendQueued(frame: QueuedFrame, failed: Option<nat>)
    | Control(frames: seq<WireFrame>, failed: Option<nat>)

  function Frames(c: Section): seq<WireFrame>
    requires c.SendQueued? ==> Sendable(c.frame)
  {
    if c.SendQueued? then Wire(c.frame) else c.frames
  }

  ghost predicate Legal(c: Section) {
    && (c.SendQueued? ==> Sendable(c.frame))
    && (c.Control? ==> forall i :: 0 <= i < |c.frames| ==> IsControl(c.frames[i]))
    && (c.failed.Some? ==> c.failed.value < |Frames(c)|)
  }

  function Written(c: Section): seq<WireFrame>
    requires c.SendQueued? ==> Sendable(c.frame)
  {
    if c.failed.Some? && c.failed.value <= |Frames(c)| then Frames(c)[..c.failed.value] else Frames(c)
  }

  ghost predicate AllLegal(cs: seq<Section>) {
    forall i :: 0 <= i < |cs| ==> Legal(cs[i])
  }

  ghost function OnWire(cs: seq<Section>): seq<WireFrame>
    requires AllLegal(cs)
  {
    if cs == [] then [] else OnWire(cs[..|cs|-1]) + Written(cs[|cs|-1])
  }

  ghost predicate NoneFailed(cs: seq<Section>) {
    forall i :: 0 <= i < |cs| ==> cs[i].failed.None?
  }

  // ----- section 6.10 of RFC 7540

  /** The frame leaves a header block open. */
  predicate Opens(f: WireFrame) {
    (f.Headers? || f.PushPromise? || f.Continuation?) && !f.endHeaders
  }

  /**
   * An open block is followed by nothing but a CONTINUATION of its stream, and a
   * CONTINUATION follows nothing but an open block of its stream.
   */
  ghost predicate Contiguous(wire: seq<WireFrame>) {
    && (forall i :: 0 <= i < |wire| - 1 && Opens(wire[i]) ==> wire[i+1].Continuation? && wire[i+1].id == wire[i].id)
    && (forall i :: 0 <= i < |wire| && wire[i].Continuation?
          ==> i > 0 && Opens(wire[i-1]) && wire[i-1].id == wire[i].id)
  }

  ghost predicate Closed(wire: seq<WireFrame>) {
    wire != [] ==> !Opens(wire[|wire|-1])
  }

  lemma ContiguousConcat(a: seq<WireFrame>, b: seq<WireFrame>)
    requires Contiguous(a) && Closed(a) && Contiguous(b)
    ensures Contiguous(a + b)
  {
    var c := a + b;
    forall i | 0 <= i < |c| && c[i].Continuation?
      ensures i > 0 && Opens(c[i-1]) && c[i-1].id == c[i].id
    {
      if i >= |a| {
        assert b[i - |a|].Continuation?;
      }
    }
  }

  /** One queued frame is written as one whole block, END_HEADERS on its last frame only. */
  lemma WireIsOneBlock(f: QueuedFrame)
    requires Sendable(f)
    ensures Contiguous(Wire(f)) && Closed(Wire(f)) && Wire(f) != []
    ensures f.QueuedHeader? || f.QueuedPushPromise? ==>
              forall i :: 0 <= i < |Wire(f)| ==> (EndsHeaders(Wire(f)[i]) <==> i == |Wire(f)| - 1)
  {
    var wire := Wire(f);
    if f.QueuedHeader? || f.QueuedPushPromise? {
      ContinuationFramesShape(f.id, f.chunks[1..]);
      assert |wire| == |f.chunks|;
      assert forall i :: 1 <= i < |wire| ==> wire[i] == Continuation(f.id, i == |wire| - 1, f.chunks[i]);
    }
  }

  lemma ControlIsContiguous(fs: seq<WireFrame>)
    requires forall i :: 0 <= i < |fs| ==> IsControl(fs[i])
    ensures Contiguous(fs) && Closed(fs)
  {
  }

  lemma WrittenIsContiguous(c: Section)
    requires Legal(c)
    ensures Contiguous(Written(c))
    ensures c.failed.None? ==> Closed(Written(c))
  {
    if c.SendQueued? {
      WireIsOneBlock(c.frame);
    } else {
      ControlIsContiguous(c.frames);
    }
  }

  /** The section broke off inside a header block. */
  ghost predicate LeavesOpen(c: Section)
    requires Legal(c)
  {
    !Closed(Written(c))
  }

  /** Nothing is written after a section that broke off inside a header block. */
  ghost predicate SilentAfterBreak(cs: seq<Section>)
    requires AllLegal(cs)
  {
    forall i, j :: 0 <= i < j < |cs| && LeavesOpen(cs[i]) ==> Written(cs[j]) == []
  }

  /** A section never starts with a CONTINUATION. */
  lemma SectionStarts(c: Section)
    requires Legal(c) && Written(c) != []
    ensures !Written(c)[0].Continuation?
  {
    assert Written(c)[0] == Frames(c)[0];
  }

  lemma OpenBlockTorn(wire: seq<WireFrame>, w: seq<WireFrame>)
    requires !Closed(wire) && w != [] && !w[0].Continuation?
    ensures !Contiguous(wire + w)
  {
    var n := |wire|;
    assert (wire + w)[n-1] == wire[n-1] && (wire + w)[n] == w[0];
  }

  lemma ClosedConcat(a: seq<WireFrame>, b: seq<WireFrame>)
    ensures Closed(a + b) <==> if b == [] then Closed(a) else Closed(b)
  {
    if b == [] {
      assert a + b == a;
    } else {
      assert (a + b)[|a + b| - 1] == b[|b| - 1];
    }
  }

  /** So it can only follow a closed wire. */
  lemma SectionAppended(wire: seq<WireFrame>, c: Section)
    requires Legal(c) && Contiguous(wire)
    ensures Contiguous(wire + Written(c)) <==> Closed(wire) || Written(c) == []
  {
    if Written(c) == [] {
      assert wire + Written(c) == wire;
    } else if Closed(wire) {
      WrittenIsContiguous(c);
      ContiguousConcat(wire, Written(c));
    } else {
      SectionStarts(c);
      OpenBlockTorn(wire, Written(c));
    }
  }

  lemma ContiguousPrefix(a: seq<WireFrame>, b: seq<WireFrame>)
    requires Contiguous(a + b)
    ensures Contiguous(a)
  {
    var c := a + b;
    assert forall i :: 0 <= i < |a| ==> a[i] == c[i];
  }

  ghost predicate NoneOpen(cs: seq<Section>)
    requires AllLegal(cs)
  {
    forall i :: 0 <= i < |cs| ==> !LeavesOpen(cs[i])
  }

  lemma SilentSnoc(pre: seq<Section>, c: Section)
    requires AllLegal(pre) && Legal(c)
    ensures AllLegal(pre + [c])
    ensures NoneOpen(pre + [c]) <==> NoneOpen(pre) && !LeavesOpen(c)
    ensures SilentAfterBreak(pre + [c]) <==> SilentAfterBreak(pre) && (Written(c) == [] || NoneOpen(pre))
  {
    var cs := pre + [c];
    assert forall i :: 0 <= i < |pre| ==> cs[i] == pre[i];
    assert cs[|pre|] == c;
  }

  /** A section that succeeds leaves no block open. */
  lemma SuccessCloses(cs: seq<Section>)
    requires AllLegal(cs) && NoneFailed(cs)
    ensures NoneOpen(cs)
  {
    forall i | 0 <= i < |cs| ensures !LeavesOpen(cs[i]) {
      WrittenIsContiguous(cs[i]);
    }
  }

  lemma ContiguousSnoc(wire: seq<WireFrame>, c: Section, silent: bool, noneOpen: bool)
    requires Legal(c)
    requires Contiguous(wire) <==> silent
    requires Contiguous(wire) ==> (Closed(wire) <==> noneOpen)
    ensures Contiguous(wire + Written(c)) <==> silent && (Written(c) == [] || noneOpen)
    ensures Contiguous(wire + Written(c)) ==> (Closed(wire + Written(c)) <==> noneOpen && !LeavesOpen(c))
  {
    ClosedConcat(wire, Written(c));
    if silent {
      SectionAppended(wire, c);
    } else if Contiguous(wire + Written(c)) {
      ContiguousPrefix(wire, Written(c));
    }
  }

  /**
   * For every interleaving of write sections and every pattern of failures: header
   * blocks are contiguous on the wire if and only if nothing is written after a
   * section that broke off inside one, and then none is left open if and only if no
   * section broke off.
   */
  lemma {:induction false} HeaderBlocksContiguous(cs: seq<Section>)
    requires AllLegal(cs)
    ensures Contiguous(OnWire(cs)) <==> SilentAfterBreak(cs)
    ensures Contiguous(OnWire(cs)) ==> (Closed(OnWire(cs)) <==> NoneOpen(cs))
  {
    if cs == [] {
    } else {
      var pre, c := cs[..|cs|-1], cs[|cs|-1];
      assert cs == pre + [c];
      HeaderBlocksContiguous(pre);
      SilentSnoc(pre, c);
      ContiguousSnoc(OnWire(pre), c, SilentAfterBreak(pre), NoneOpen(pre));
    }
  }

  /** While no write fails, header blocks are contiguous on the wire and none is left open. */
  lemma WholeWritesAreContiguous(cs: seq<Section>)
    requires AllLegal(cs) && NoneFailed(cs)
    ensures Contiguous(OnWire(cs)) && Closed(OnWire(cs))
  {
    SuccessCloses(cs);
    HeaderBlocksContiguous(cs);
  }

  /** A HEADERS frame whose CONTINUATION fails, then a PING: the block is torn apart. */
  lemma PingTearsBrokenBlock(id: StreamId, a: bytes, b: bytes, ping: bytes)
    ensures var cs := [SendQueued(QueuedHeader(id, false, NO_PRIORITY, [a, b]), Some(1)),
                Control([Ping(false, ping)], None)];
      AllLegal(cs) && !Contiguous(OnWire(cs))
  {
    var broken := SendQueued(QueuedHeader(id, false, NO_PRIORITY, [a, b]), Some(1));
    var cs := [broken, Control([Ping(false, ping)], None)];
    assert broken.frame.chunks[1..] == [b];
    ContinuationFramesShape(id, [b]);
    assert |Wire(broken.frame)| == 2;
    assert Written(broken) == [Headers(id, false, false, NO_PRIORITY, a)];
    assert LeavesOpen(cs[0]) && Written(cs[1]) != [];
    HeaderBlocksContiguous(cs);
  }

  // ----- reading the wire back

  /** The queued frames that were sent whole. */
  ghost function SentBy(cs: seq<Section>): seq<QueuedFrame> {
    if cs == [] then []
    else SentBy(cs[..|cs|-1]) + SentIn(cs[|cs|-1])
  }

  function SentIn(c: Section): seq<QueuedFrame> {
    if c.SendQueued? && c.failed.None? then [c.frame] else []
  }

  lemma {:induction false} ReadControl(st: ReadState, fs: seq<WireFrame>)
    requires forall i :: 0 <= i < |fs| ==> IsControl(fs[i])
    ensures ReadAll(st, fs).1 == []
    decreases |fs|
  {
    if fs == [] {
    } else {
      ReadControl(ReadOne(st, fs[0]).0, fs[1..]);
    }
  }

  lemma SectionReadsBack(st: ReadState, c: Section)
    requires Legal(c)
    ensures ReadAll(st, Written(c)).1 == MeaningsOf(SentIn(c))
  {
    if c.Control? {
      ReadControl(st, Written(c));
    } else if c.failed.Some? {
      BrokenSendDeliversNothing(st, c.frame, c.failed.value);
    } else {
      SendThenRead(st, c.frame);
      assert [c.frame][1..] == [];
    }
  }

  /**
   * A relay that reads the wire delivers exactly the frames that were sent whole, in
   * the order of sending, whatever control frames were written in between and
   * wherever writes have failed.
   */
  lemma {:induction false} WireReadsBack(st: ReadState, cs: seq<Section>)
    requires AllLegal(cs)
    ensures ReadAll(st, OnWire(cs)).1 == MeaningsOf(SentBy(cs))
  {
    if cs == [] {
    } else {
      var pre, c := cs[..|cs|-1], cs[|cs|-1];
      WireReadsBack(st, pre);
      ReadAllConcat(st, OnWire(pre), Written(c));
      SectionReadsBack(ReadAll(st, OnWire(pre)).0, c);
      MeaningsOfConcat(SentBy(pre), SentIn(c));
    }
  }

  /** However early it stops, because its framer refuses a frame or the connection ends, it has delivered a prefix. */
  lemma WireReadsPrefix(st: ReadState, cs: seq<Section>, k: nat)
    requires AllLegal(cs) && k <= |OnWire(cs)|
    ensures ReadAll(st, OnWire(cs)[..k]).1 <= MeaningsOf(SentBy(cs))
  {
    WireReadsBack(st, cs);
    var unread := ReadAllPrefix(st, OnWire(cs), k);
  }
}
