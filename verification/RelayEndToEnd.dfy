/**
 * From one relay's reader to the next: flow control, the output channel, the wire
 * and the reassembly of header blocks put together, for any run of each of them.
 */
module RelayEndToEnd {
  import opened Bytes
  import opened H2Frames
  import opened RelayFlow
  import opened HeaderBlocks
  import opened WireTrace
  import RelayRuns
  import RelayHandshake

  /** The deliveries for one stream. */
  function ForStream(ds: seq<Delivery>, id: StreamId): seq<Delivery> {
    if ds == [] then [] else (if ds[0].id == id then [ds[0]] else []) + ForStream(ds[1..], id)
  }

  lemma {:induction false} MeaningsForStream(fs: seq<QueuedFrame>, id: StreamId)
    ensures ForStream(MeaningsOf(fs), id) == MeaningsOf(OfStream(fs, id))
  {
    if fs == [] {
    } else {
      var own := if fs[0].id == id then [fs[0]] else [];
      MeaningsForStream(fs[1..], id);
      MeaningsOfConcat(own, OfStream(fs[1..], id));
      assert MeaningsOf(fs)[1..] == MeaningsOf(fs[1..]);
      assert MeaningsOf(own) == if fs[0].id == id then [MeaningRead(fs[0])] else [] by {
        assert fs[0].id == id ==> own[1..] == [];
      }
    }
  }

  lemma {:induction false} ForStreamConcat(a: seq<Delivery>, b: seq<Delivery>, id: StreamId)
    ensures ForStream(a + b, id) == ForStream(a, id) + ForStream(b, id)
  {
    if a == [] {
      assert a + b == b;
    } else {
      assert (a + b)[1..] == a[1..] + b;
      ForStreamConcat(a[1..], b, id);
      ConcatAssoc(if a[0].id == id then [a[0]] else [], ForStream(a[1..], id), ForStream(b, id));
    }
  }

  /**
   * The three machines agree: the channel has taken a prefix of the relay's output (a
   * critical section may still be pushing), the wire holds what the writer has sent.
   */
  ghost predicate Connected(s: RelayRuns.State, h: RelayHandshake.State, cs: seq<Section>) {
    h.put <= s.flow.output && h.sent == SentBy(cs)
  }

  lemma SentOfStream(
      s: RelayRuns.State, hs: seq<RelayHandshake.Event>, h: RelayHandshake.State, cs: seq<Section>, id: StreamId)
      returns (rest: seq<QueuedFrame>)
    requires RelayHandshake.Steps(RelayHandshake.START, hs, h) && Connected(s, h, cs)
    ensures OfStream(s.flow.output, id) == OfStream(SentBy(cs), id) + rest
  {
    RelayHandshake.SentIsPrefix(hs, h);
    var k := |h.sent|;
    assert s.flow.output == h.sent + s.flow.output[k..];
    OfStreamConcat(h.sent, s.flow.output[k..], id);
    rest := OfStream(s.flow.output[k..], id);
  }

  lemma EnteredBegins(
      plain: bool, es: seq<RelayRuns.Event>, hs: seq<RelayHandshake.Event>, h: RelayHandshake.State,
      cs: seq<Section>, id: StreamId) returns (tail: seq<QueuedFrame>)
    requires RelayRuns.IsRun(plain, es)
    requires RelayHandshake.Steps(RelayHandshake.START, hs, h) && Connected(RelayRuns.After(es), h, cs)
    ensures RelayRuns.Entered(es, id) == OfStream(SentBy(cs), id) + tail
  {
    var s := RelayRuns.After(es);
    var rest := SentOfStream(s, hs, h, cs, id);
    RelayRuns.PerStreamOrder(plain, es, id);
    ConcatAssoc(OfStream(SentBy(cs), id), rest, QueueOf(s.flow, id));
    tail := rest + QueueOf(s.flow, id);
  }

  /**
   * For every run of the three machines, with any number of callers, window updates
   * and settings in between, at any moment and wherever writes have failed: what the
   * next relay delivers for a stream from the first `k` frames on the wire is, in
   * order, the meaning of a prefix of the frames enqueued for it. (Its framer may
   * refuse a frame, and then nothing after it is read.)
   */
  lemma StreamArrivesInOrder(
      plain: bool, es: seq<RelayRuns.Event>, hs: seq<RelayHandshake.Event>, h: RelayHandshake.State,
      cs: seq<Section>, st: ReadState, k: nat, id: StreamId)
    requires RelayRuns.IsRun(plain, es)
    requires RelayHandshake.Steps(RelayHandshake.START, hs, h)
    requires AllLegal(cs) && Connected(RelayRuns.After(es), h, cs) && k <= |OnWire(cs)|
    ensures ForStream(ReadAll(st, OnWire(cs)[..k]).1, id) <= MeaningsOf(RelayRuns.Entered(es, id))
  {
    WireReadsBack(st, cs);
    var unread := ReadAllPrefix(st, OnWire(cs), k);
    ForStreamConcat(ReadAll(st, OnWire(cs)[..k]).1, unread, id);
    MeaningsForStream(SentBy(cs), id);
    var tail := EnteredBegins(plain, es, hs, h, cs, id);
    MeaningsOfConcat(OfStream(SentBy(cs), id), tail);
  }

  lemma PrefixOfPrefix<T>(a: seq<T>, b: seq<T>, c: seq<T>)
    requires a <= b
    ensures a <= b + c
  {
  }

  /**
   * And if one caller serves the stream, in terms of its calls: a prefix of the frames
   * it called for, in call order, and of the empty frames of a call that does not end.
   */
  lemma CallsArriveInOrder(
      plain: bool, es: seq<RelayRuns.Event>, hs: seq<RelayHandshake.Event>, h: RelayHandshake.State,
      cs: seq<Section>, st: ReadState, k: nat, c: RelayRuns.CallerId, id: StreamId)
    requires RelayRuns.IsRun(plain, es) && RelayRuns.SoleCaller(es, c, id)
    requires RelayHandshake.Steps(RelayHandshake.START, hs, h)
    requires AllLegal(cs) && Connected(RelayRuns.After(es), h, cs) && k <= |OnWire(cs)|
    ensures ForStream(ReadAll(st, OnWire(cs)[..k]).1, id)
         <= MeaningsOf(RelayRuns.Called(es, c, id) + RelayRuns.Spun(es, c, id))
  {
    var pending := OfStream(RelayRuns.Pending(RelayRuns.PcOf(RelayRuns.After(es), c)), id);
    StreamArrivesInOrder(plain, es, hs, h, cs, st, k, id);
    RelayRuns.FramesAsCalled(plain, es, c, id);
    RelayRuns.SoleCallerEnters(es, c, id);
    MeaningsOfConcat(RelayRuns.Entered(es, id), pending);
    var got := ForStream(ReadAll(st, OnWire(cs)[..k]).1, id);
    PrefixOfPrefix(got, MeaningsOf(RelayRuns.Entered(es, id)), MeaningsOf(pending));
  }

  /** The DATA octets delivered for one stream. */
  function DataFor(ds: seq<Delivery>, id: StreamId): bytes {
    if ds == [] then []
    else (if ds[0].DataDelivery? && ds[0].id == id then ds[0].data else []) + DataFor(ds[1..], id)
  }

  lemma {:induction false} DataForConcat(a: seq<Delivery>, b: seq<Delivery>, id: StreamId)
    ensures DataFor(a + b, id) == DataFor(a, id) + DataFor(b, id)
  {
    if a == [] {
      assert a + b == b;
    } else {
      assert (a + b)[1..] == a[1..] + b;
      DataForConcat(a[1..], b, id);
      ConcatAssoc(if a[0].DataDelivery? && a[0].id == id then a[0].data else [], DataFor(a[1..], id), DataFor(b, id));
    }
  }

  lemma {:induction false} DataOfMeanings(fs: seq<QueuedFrame>, id: StreamId)
    ensures DataFor(MeaningsOf(fs), id) == DataBytes(OfStream(fs, id))
  {
    if fs == [] {
    } else {
      var own := if fs[0].id == id then [fs[0]] else [];
      DataOfMeanings(fs[1..], id);
      DataBytesConcat(own, OfStream(fs[1..], id));
      assert MeaningsOf(fs)[1..] == MeaningsOf(fs[1..]);
      assert DataBytes(own) == if fs[0].id == id && fs[0].QueuedData? then fs[0].data else [] by {
        assert fs[0].id == id ==> own[1..] == [];
      }
    }
  }

  lemma Regroup<T>(a: seq<T>, b: seq<T>, c: seq<T>, d: seq<T>) returns (tail: seq<T>)
    ensures tail == b + c + d && a + b + c + d == a + tail
  {
    tail := b + c + d;
    ConcatAssoc(a, b, c);
    ConcatAssoc(a, b + c, d);
  }

  lemma ReceivedBegins(
      es: seq<RelayRuns.Event>, hs: seq<RelayHandshake.Event>, h: RelayHandshake.State, cs: seq<Section>, id: StreamId)
      returns (tail: bytes)
    requires RelayRuns.IsRun(true, es)
    requires RelayHandshake.Steps(RelayHandshake.START, hs, h) && Connected(RelayRuns.After(es), h, cs)
    ensures RelayRuns.Received(es, id) == DataBytes(OfStream(SentBy(cs), id)) + tail
  {
    var s := RelayRuns.After(es);
    var rest := SentOfStream(s, hs, h, cs, id);
    DataBytesConcat(OfStream(SentBy(cs), id), rest);
    RelayRuns.DataConserved(es, id);
    tail := Regroup(DataBytes(OfStream(SentBy(cs), id)), DataBytes(rest), DataBytes(QueueOf(s.flow, id)),
                    RelayRuns.InHand(RelayRuns.PcOf(s, RelayRuns.READER), id));
  }

  /**
   * With the relay adapter, the octets the next relay delivers for a stream are a
   * prefix of the octets this relay received for it, in every run and wherever writes
   * have failed.
   */
  lemma DataArrivesInOrder(
      es: seq<RelayRuns.Event>, hs: seq<RelayHandshake.Event>, h: RelayHandshake.State,
      cs: seq<Section>, st: ReadState, k: nat, id: StreamId)
    requires RelayRuns.IsRun(true, es)
    requires RelayHandshake.Steps(RelayHandshake.START, hs, h)
    requires AllLegal(cs) && Connected(RelayRuns.After(es), h, cs) && k <= |OnWire(cs)|
    ensures DataFor(ReadAll(st, OnWire(cs)[..k]).1, id) <= RelayRuns.Received(es, id)
  {
    WireReadsBack(st, cs);
    var unread := ReadAllPrefix(st, OnWire(cs), k);
    DataForConcat(ReadAll(st, OnWire(cs)[..k]).1, unread, id);
    DataOfMeanings(SentBy(cs), id);
    var tail := ReceivedBegins(es, hs, h, cs, id);
  }
}
