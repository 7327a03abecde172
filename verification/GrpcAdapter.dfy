/**
 * The gRPC adapter: it takes a stream of DATA frames apart into length-prefixed
 * messages, whatever the frame boundaries, and its emitter frames each message
 * again. Compression is left opaque.
 */
module GrpcAdapter {
  import opened Bytes

  const PREFIX := 5

  datatype Message = Message(compressed: bool, payload: bytes)

  // ----- the reference: messages of a whole stream of octets

  function Length(s: bytes): nat
    requires |s| >= PREFIX
  {
    Get32(s[1..5])
  }

  predicate HasMessage(s: bytes) {
    |s| >= PREFIX && |s| >= PREFIX + Length(s)
  }

  function First(s: bytes): Message
    requires HasMessage(s)
  {
    Message(s[0] > 0, s[PREFIX..PREFIX + Length(s)])
  }

  function AfterFirst(s: bytes): (r: bytes)
    requires HasMessage(s)
    ensures |r| < |s|
  {
    s[PREFIX + Length(s)..]
  }

  /** The complete messages at the front of a stream. */
  function Messages(s: bytes): seq<Message>
    decreases |s|
  {
    if HasMessage(s) then [First(s)] + Messages(AfterFirst(s)) else []
  }

  /** What follows the complete messages. */
  function Rest(s: bytes): bytes
    decreases |s|
  {
    if HasMessage(s) then Rest(AfterFirst(s)) else s
  }

  /** The gRPC framing of a message; the length is truncated to 32 bits. */
  function Encode(m: Message): bytes {
    [if m.compressed then 1 else 0] + Put32(|m.payload| % UINT32) + m.payload
  }

  function EncodeAll(ms: seq<Message>): bytes {
    if ms == [] then [] else Encode(ms[0]) + EncodeAll(ms[1..])
  }

  /** A prefix that has been read keeps only whether its flag octet was zero. */
  function Normal(s: bytes): bytes {
    if |s| >= PREFIX then [if s[0] > 0 then 1 else 0] + s[1..] else s
  }

  // ----- the adapter, by its effect on the octets it holds

  /** What the adapter holds between two frames, and the flag of the last prefix it has read. */
  datatype Held = Held(octets: bytes, compressed: bool)

  datatype Out = Out(message: Message, ended: bool)

  /** A message without payload that ends exactly with the frame waits for the next frame. */
  predicate Waits(h: Held, data: bytes) {
    var s := h.octets + data;
    data != [] && Rest(s) == [] && Messages(s) != [] && Messages(s)[|Messages(s)|-1].payload == []
  }

  function OutOf(h: Held, data: bytes, ended: bool): seq<Out> {
    var s := h.octets + data;
    var ms := Messages(s);
    if s == [] then
      if ended then [Out(Message(h.compressed, []), true)] else []
    else
      var n := if Waits(h, data) then |ms| - 1 else |ms|;
      seq(n, i requires 0 <= i < n => Out(ms[i], ended && Rest(s) == [] && i == |ms| - 1))
  }

  function HeldAfter(h: Held, data: bytes): Held {
    var s := h.octets + data;
    var ms := Messages(s);
    Held(if Waits(h, data) then Encode(ms[|ms|-1]) else Normal(Rest(s)),
         if |Rest(s)| >= PREFIX then Rest(s)[0] > 0
         else if ms != [] then ms[|ms|-1].compressed
         else h.compressed)
  }

  // ----- facts about the reference

  lemma NormalSame(s: bytes)
    ensures Messages(Normal(s)) == Messages(s)
    ensures Normal(Rest(Normal(s))) == Normal(Rest(s))
  {
    if |s| >= PREFIX {
      assert Normal(s)[1..5] == s[1..5];
      if HasMessage(s) {
        assert Normal(s)[PREFIX..PREFIX + Length(s)] == s[PREFIX..PREFIX + Length(s)];
        assert AfterFirst(Normal(s)) == AfterFirst(s);
      }
    }
  }

  /** The octets of a prefix that has been read, followed by what came after it. */
  function Prefixed(compressed: bool, length: nat, tail: bytes): bytes
    requires length < UINT32
  {
    [if compressed then 1 else 0] + Put32(length) + tail
  }

  lemma PrefixedLength(compressed: bool, length: nat, tail: bytes)
    requires length < UINT32
    ensures |Prefixed(compressed, length, tail)| == PREFIX + |tail|
    ensures Length(Prefixed(compressed, length, tail)) == length
    ensures Prefixed(compressed, length, tail)[PREFIX..] == tail
    ensures Prefixed(compressed, length, tail)[0] > 0 <==> compressed
    ensures Normal(Prefixed(compressed, length, tail)) == Prefixed(compressed, length, tail)
  {
    Get32Put32(length);
    assert Prefixed(compressed, length, tail)[1..5] == Put32(length);
  }

  lemma PrefixedMessage(compressed: bool, length: nat, tail: bytes)
    requires length < UINT32 && length <= |tail|
    ensures HasMessage(Prefixed(compressed, length, tail))
    ensures First(Prefixed(compressed, length, tail)) == Message(compressed, tail[..length])
    ensures AfterFirst(Prefixed(compressed, length, tail)) == tail[length..]
  {
    PrefixedLength(compressed, length, tail);
    var s := Prefixed(compressed, length, tail);
    assert s[PREFIX..PREFIX + length] == s[PREFIX..][..length];
    assert s[PREFIX + length..] == s[PREFIX..][length..];
  }

  lemma EncodeIsPrefixed(m: Message)
    requires |m.payload| < UINT32
    ensures Encode(m) == Prefixed(m.compressed, |m.payload|, m.payload)
  {
    assert |m.payload| % UINT32 == |m.payload|;
  }

  /** A framed message is parsed back as itself, and nothing is left over. */
  lemma EncodeParses(m: Message)
    requires |m.payload| < UINT32
    ensures Messages(Encode(m)) == [m] && Rest(Encode(m)) == []
  {
    var n := |m.payload|;
    EncodeIsPrefixed(m);
    PrefixedMessage(m.compressed, n, m.payload);
    assert m.payload[..n] == m.payload;
    assert AfterFirst(Encode(m)) == [];
    assert Messages([]) == [] && Rest([]) == [];
  }

  lemma ReadPrefix(s: bytes)
    requires |s| >= PREFIX
    ensures Prefixed(s[0] > 0, Length(s), s[PREFIX..]) == Normal(s)
  {
    Put32Get32(s[1..5]);
    assert s[1..] == s[1..5] + s[PREFIX..];
  }

  // ----- the loop of Data, round by round

  datatype DataState = ReadingMetadata | ReadingMessageData

  datatype Cursor = Cursor(buffer: bytes, state: DataState, compressed: bool, length: nat) {
    predicate Sized() {
      length < UINT32
    }

    function Octets(): bytes
      requires Sized()
    {
      if state.ReadingMetadata? then buffer else Prefixed(compressed, length, buffer)
    }

    function View(): Held
      requires Sized()
    {
      Held(Octets(), compressed)
    }

    /**
     * Between two frames no prefix is complete but unread, and no message complete
     * but undelivered unless it is empty.
     */
    predicate Settled() {
      && Sized()
      && (state.ReadingMetadata? ==> |buffer| < PREFIX)
      && (state.ReadingMessageData? ==> |buffer| < length || (length == 0 && buffer == []))
    }
  }

  function Bare(out: seq<Out>): seq<Message> {
    seq(|out|, i requires 0 <= i < |out| => out[i].message)
  }

  /** The top of the loop, after `out` has been delivered of the octets `before` and `data`. */
  ghost predicate Looping(before: Held, data: bytes, c: Cursor, out: seq<Out>) {
    var s := before.octets + data;
    && c.Sized()
    && Messages(s) == Bare(out) + Messages(c.Octets())
    && Normal(Rest(s)) == Normal(Rest(c.Octets()))
    && (forall i :: 0 <= i < |out| ==> !out[i].ended)
    && (c.state.ReadingMetadata? ==>
          c.compressed == if out == [] then before.compressed else out[|out|-1].message.compressed)
    && (c.buffer == [] ==> out == [] && data == [])
    && (data == [] ==> c.Settled())
    && (out == [] ==> Normal(s) == Normal(c.Octets()))
  }

  lemma LoopStarts(c: Cursor, data: bytes)
    requires c.Settled()
    ensures Looping(c.View(), data, c.(buffer := c.buffer + data), [])
  {
    var d := c.(buffer := c.buffer + data);
    assert c.Octets() + data == d.Octets();
    assert c.buffer + [] == c.buffer;
    assert Bare([]) + Messages(d.Octets()) == Messages(d.Octets());
  }

  function PrefixRead(c: Cursor): Cursor
    requires |c.buffer| >= PREFIX
  {
    Cursor(c.buffer[PREFIX..], ReadingMessageData, c.buffer[0] > 0, Length(c.buffer))
  }

  lemma LoopReadsPrefix(before: Held, data: bytes, c: Cursor, out: seq<Out>)
    requires Looping(before, data, c, out) && c.state.ReadingMetadata? && |c.buffer| >= PREFIX
    ensures PrefixRead(c).Octets() == Normal(c.Octets())
    ensures PrefixRead(c).buffer != [] ==> Looping(before, data, PrefixRead(c), out)
    ensures data != []
  {
    ReadPrefix(c.buffer);
    NormalSame(c.buffer);
  }

  function Delivered(c: Cursor): Cursor
    requires |c.buffer| >= c.length
  {
    c.(buffer := c.buffer[c.length..], state := ReadingMetadata)
  }

  function Delivery(c: Cursor): Message
    requires |c.buffer| >= c.length
  {
    Message(c.compressed, c.buffer[..c.length])
  }

  lemma BareSnoc(out: seq<Out>, o: Out, ms: seq<Message>)
    ensures Bare(out + [o]) + ms == Bare(out) + ([o.message] + ms)
  {
    assert Bare(out + [o]) == Bare(out) + [o.message];
  }

  lemma LoopDelivers(before: Held, data: bytes, c: Cursor, out: seq<Out>, ended: bool)
    requires Looping(before, data, c, out) && c.state.ReadingMessageData? && |c.buffer| >= c.length
    ensures var more := out + [Out(Delivery(c), ended)];
      && Messages(before.octets + data) == Bare(more) + Messages(Delivered(c).Octets())
      && Normal(Rest(before.octets + data)) == Normal(Rest(Delivered(c).Octets()))
  {
    PrefixedMessage(c.compressed, c.length, c.buffer);
    BareSnoc(out, Out(Delivery(c), ended), Messages(Delivered(c).Octets()));
  }

  lemma LoopGoesOn(before: Held, data: bytes, c: Cursor, out: seq<Out>)
    requires Looping(before, data, c, out) && c.state.ReadingMessageData? && |c.buffer| >= c.length
    requires Delivered(c).buffer != []
    ensures Looping(before, data, Delivered(c), out + [Out(Delivery(c), false)])
  {
    LoopDelivers(before, data, c, out, false);
  }

  /** Leaving the loop with less than a prefix in the buffer. */
  lemma ExitShort(before: Held, data: bytes, c: Cursor, out: seq<Out>, ended: bool)
    requires Looping(before, data, c, out) && c.state.ReadingMetadata? && |c.buffer| < PREFIX
    ensures OutOf(before, data, ended)
         == out + if ended && c.buffer == [] then [Out(Message(c.compressed, []), true)] else []
    ensures c.Settled() && c.View() == HeldAfter(before, data)
  {
    var s := before.octets + data;
    assert Bare(out) + [] == Bare(out);
    assert Rest(s) == c.buffer;
    if c.buffer != [] {
      assert OutOf(before, data, ended) == out;
      assert out + [] == out;
    }
  }

  /** Leaving the loop inside a message. */
  lemma ExitPartial(before: Held, data: bytes, c: Cursor, out: seq<Out>, ended: bool)
    requires Looping(before, data, c, out) && c.state.ReadingMessageData? && |c.buffer| < c.length
    ensures OutOf(before, data, ended) == out
    ensures c.Settled() && c.View() == HeldAfter(before, data)
  {
    var s := before.octets + data;
    PrefixedLength(c.compressed, c.length, c.buffer);
    assert Bare(out) + [] == Bare(out);
    assert Normal(Rest(s)) == c.Octets();
  }

  /** Leaving the loop right after a prefix. */
  lemma ExitAfterPrefix(before: Held, data: bytes, c: Cursor, out: seq<Out>, ended: bool)
    requires Looping(before, data, c, out) && c.state.ReadingMetadata? && |c.buffer| == PREFIX
    ensures OutOf(before, data, ended) == out
    ensures PrefixRead(c).Settled() && PrefixRead(c).View() == HeldAfter(before, data)
  {
    var s := before.octets + data;
    var d := PrefixRead(c);
    LoopReadsPrefix(before, data, c, out);
    NormalSame(c.buffer);
    assert d.buffer == [];
    PrefixedLength(d.compressed, d.length, d.buffer);
    if d.length == 0 {
      PrefixedMessage(d.compressed, 0, []);
      assert Messages(d.Octets()) == [Message(d.compressed, [])];
      assert Rest(d.Octets()) == [];
      assert Messages(s) == Bare(out) + [Message(d.compressed, [])];
      assert Waits(before, data);
    } else {
      assert Messages(d.Octets()) == [];
      assert Bare(out) + [] == Bare(out);
      assert Normal(Rest(s)) == d.Octets();
    }
  }

  /** When nothing is left and nothing waits, all messages are out, the last one marked. */
  lemma AllOut(before: Held, data: bytes, ended: bool, out: seq<Out>)
    requires var s := before.octets + data;
      Messages(s) == Bare(out) && Rest(s) == [] && out != [] && !Waits(before, data)
    requires forall i :: 0 <= i < |out| ==> out[i].ended == (ended && i == |out| - 1)
    ensures OutOf(before, data, ended) == out
  {
    var s := before.octets + data;
    assert s != [];
    assert forall i :: 0 <= i < |out| ==> Messages(s)[i] == out[i].message;
  }

  lemma NoneWaits(before: Held, data: bytes, c: Cursor, out: seq<Out>, ended: bool)
    requires Looping(before, data, c, out) && c.state.ReadingMessageData? && |c.buffer| == c.length
    ensures var s, more := before.octets + data, out + [Out(Delivery(c), ended)];
      Messages(s) == Bare(more) && Rest(s) == [] && !Waits(before, data)
  {
    var more := out + [Out(Delivery(c), ended)];
    LoopDelivers(before, data, c, out, ended);
    assert Delivered(c).Octets() == [];
    assert Messages([]) == [] && Rest([]) == [];
    assert Bare(more) + [] == Bare(more);
    assert Bare(more)[|out|] == Delivery(c);
  }

  /** Leaving the loop right after a message. */
  lemma ExitAfterMessage(before: Held, data: bytes, c: Cursor, out: seq<Out>, ended: bool)
    requires Looping(before, data, c, out) && c.state.ReadingMessageData? && |c.buffer| == c.length
    ensures OutOf(before, data, ended) == out + [Out(Delivery(c), ended)]
    ensures Delivered(c).Settled() && Delivered(c).View() == HeldAfter(before, data)
  {
    var more := out + [Out(Delivery(c), ended)];
    NoneWaits(before, data, c, out, ended);
    AllOut(before, data, ended, more);
    assert Bare(more)[|out|] == Delivery(c);
  }

  lemma MessageDue(before: Held, data: bytes, c: Cursor, out: seq<Out>)
    requires Looping(before, data, c, out) && c.state.ReadingMessageData? && |c.buffer| >= c.length
    ensures var ms := Messages(before.octets + data);
      && |out| < |ms| && ms[|out|] == Delivery(c)
      && (forall i :: 0 <= i < |out| ==> ms[i] == out[i].message)
      && !(Waits(before, data) && |ms| == |out| + 1)
  {
    LoopDelivers(before, data, c, out, false);
    var more := out + [Out(Delivery(c), false)];
    assert Bare(more)[|out|] == Delivery(c);
    assert forall i :: 0 <= i < |out| ==> Bare(more)[i] == out[i].message;
  }

  /** A message that does not pass the codec is the next one due. */
  lemma NextDue(before: Held, data: bytes, c: Cursor, out: seq<Out>, ended: bool)
    requires Looping(before, data, c, out) && c.state.ReadingMessageData? && |c.buffer| >= c.length
    ensures var all := OutOf(before, data, ended);
      |out| < |all| && out == all[..|out|] && all[|out|].message == Delivery(c)
  {
    MessageDue(before, data, c, out);
  }

  // ----- the adapter object

  ghost predicate Finished(before: Held, data: bytes, ended: bool, c: Cursor, out: seq<Out>) {
    c.Settled() && c.View() == HeldAfter(before, data) && out == OutOf(before, data, ended)
  }

  class Adapter {
    const decodable: bytes -> bool  // whether the stream's codec can decompress a payload
    var buffer: bytes
    var state: DataState
    var compressed: bool
    var length: nat

    constructor (decodable: bytes -> bool)
      ensures Here() == Cursor([], ReadingMetadata, false, 0) && this.decodable == decodable
    {
      this.decodable := decodable;
      buffer, state, compressed, length := [], ReadingMetadata, false, 0;
    }

    function Here(): Cursor
      reads this
    {
      Cursor(buffer, state, compressed, length)
    }

    predicate Passes(m: Message) {
      m.compressed ==> decodable(m.payload)
    }

    /** The round of the loop in state readingMetadata; `done` when it returns from Data. */
    method ReadMetadata(ghost before: Held, ghost data: bytes, streamEnded: bool, sofar: seq<Out>)
      returns (done: bool, out: seq<Out>)
      requires Looping(before, data, Here(), sofar) && state.ReadingMetadata?
      modifies this
      ensures done ==> Finished(before, data, streamEnded, Here(), out)
      ensures !done ==> Looping(before, data, Here(), out) && |buffer| < old(|buffer|)
    {
      ghost var c := Here();
      out := sofar;
      if streamEnded && buffer == [] {
        out := out + [Out(Message(compressed, []), true)];
      }
      if |buffer| < PREFIX {
        ExitShort(before, data, c, sofar, streamEnded);
        assert sofar + [] == sofar;
        return true, out;
      }
      LoopReadsPrefix(before, data, c, out);
      if |buffer| == PREFIX {
        ExitAfterPrefix(before, data, c, out, streamEnded);
      }
      compressed := buffer[0] > 0;
      length := Get32(buffer[1..5]);
      buffer := buffer[PREFIX..];
      state := ReadingMessageData;
      assert Here() == PrefixRead(c);
      done := buffer == [];
    }

    /** The round of the loop in state readingMessageData. */
    method ReadMessageData(ghost before: Held, ghost data: bytes, streamEnded: bool, sofar: seq<Out>)
      returns (ok: bool, done: bool, out: seq<Out>)
      requires Looping(before, data, Here(), sofar) && state.ReadingMessageData?
      modifies this
      ensures ok && done ==> Finished(before, data, streamEnded, Here(), out)
      ensures ok && !done ==> Looping(before, data, Here(), out) && |buffer| <= old(|buffer|) && state.ReadingMetadata?
      ensures !ok ==> var all := OutOf(before, data, streamEnded);
                      done && |out| < |all| && out == all[..|out|] && !Passes(all[|out|].message)
    {
      ghost var c := Here();
      ok, out := true, sofar;
      if |buffer| < length {
        ExitPartial(before, data, c, out, streamEnded);
        return true, true, out;
      }
      var payload := buffer[..length];
      buffer := buffer[length..];
      if compressed && !decodable(payload) {
        NextDue(before, data, c, out, streamEnded);
        return false, true, out;
      }
      state := ReadingMetadata;
      out := out + [Out(Message(compressed, payload), streamEnded && buffer == [])];
      assert Here() == Delivered(c);
      done := buffer == [];
      if done {
        ExitAfterMessage(before, data, c, sofar, streamEnded);
      } else {
        LoopGoesOn(before, data, c, sofar);
      }
    }

    /**
     * One DATA frame. What is delivered, and what is held afterwards, depend only on
     * the octets held before and the octets received. The first message that the
     * codec refuses ends the stream.
     */
    method Data(data: bytes, streamEnded: bool) returns (ok: bool, out: seq<Out>)
      requires Here().Settled()
      modifies this
      ensures ok ==> out == OutOf(old(Here().View()), data, streamEnded)
      ensures ok ==> Here().Settled() && Here().View() == HeldAfter(old(Here().View()), data)
      ensures !ok ==> var all := OutOf(old(Here().View()), data, streamEnded);
                      |out| < |all| && out == all[..|out|] && !Passes(all[|out|].message)
    {
      ghost var before := Here().View();
      LoopStarts(Here(), data);
      buffer := buffer + data;
      ok, out := true, [];
      var done := false;
      while !done
        invariant !done ==> ok && Looping(before, data, Here(), out)
        invariant done && ok ==> Finished(before, data, streamEnded, Here(), out)
        invariant !ok ==> var all := OutOf(before, data, streamEnded);
                          |out| < |all| && out == all[..|out|] && !Passes(all[|out|].message)
        decreases !done, |buffer|, if state.ReadingMetadata? then 0 else 1
      {
        if state.ReadingMetadata? {
          done, out := ReadMetadata(before, data, streamEnded, out);
        } else {
          ok, done, out := ReadMessageData(before, data, streamEnded, out);
        }
      }
    }
  }

  // ----- whole streams

  lemma {:induction false} RestHasNone(s: bytes)
    ensures !HasMessage(Rest(s)) && Messages(Rest(s)) == [] && Rest(Rest(s)) == Rest(s)
    decreases |s|
  {
    if !HasMessage(s) {
    } else {
      RestHasNone(AfterFirst(s));
    }
  }

  lemma FirstConcat(a: bytes, b: bytes)
    requires HasMessage(a)
    ensures HasMessage(a + b) && First(a + b) == First(a) && AfterFirst(a + b) == AfterFirst(a) + b
  {
    var s := a + b;
    assert s[1..5] == a[1..5];
    assert s[PREFIX..PREFIX + Length(s)] == a[PREFIX..PREFIX + Length(a)];
  }

  /** Parsing can be resumed anywhere. */
  lemma {:induction false} MessagesConcat(a: bytes, b: bytes)
    ensures Messages(a + b) == Messages(a) + Messages(Rest(a) + b)
    ensures Rest(a + b) == Rest(Rest(a) + b)
    decreases |a|
  {
    if !HasMessage(a) {
      assert [] + Messages(a + b) == Messages(a + b);
    } else {
      FirstConcat(a, b);
      MessagesConcat(AfterFirst(a), b);
      ConcatAssoc([First(a)], Messages(AfterFirst(a)), Messages(Rest(a) + b));
    }
  }

  lemma NormalPrefix(a: bytes, d: bytes)
    requires |a| >= PREFIX
    ensures Normal(a + d) == Normal(a) + d
  {
  }

  lemma NormalConcat(a: bytes, b: bytes, d: bytes)
    requires Normal(a) == Normal(b)
    ensures Messages(a + d) == Messages(b + d)
    ensures Normal(Rest(a + d)) == Normal(Rest(b + d))
  {
    assert |Normal(a)| == |a| && |Normal(b)| == |b|;
    if |a| >= PREFIX {
      NormalPrefix(a, d);
      NormalPrefix(b, d);
      NormalSame(a + d);
      NormalSame(b + d);
    }
  }

  /** The adapter after a number of DATA frames, none of them the last, and what it has delivered. */
  function Feed(frames: seq<bytes>): (Held, seq<Out>) {
    if frames == [] then (Held([], false), [])
    else
      var (h, out) := Feed(frames[..|frames|-1]);
      (HeldAfter(h, frames[|frames|-1]), out + OutOf(h, frames[|frames|-1], false))
  }

  lemma BareConcat(a: seq<Out>, b: seq<Out>)
    ensures Bare(a + b) == Bare(a) + Bare(b)
  {
  }

  /** One call delivers the messages of held and new octets, but for one it may keep waiting. */
  lemma CallBalance(h: Held, data: bytes, ended: bool)
    requires h.octets + data != []
    ensures var s := h.octets + data;
      && Bare(OutOf(h, data, ended)) + Messages(HeldAfter(h, data).octets) == Messages(s)
      && Normal(Rest(HeldAfter(h, data).octets)) == Normal(Rest(s))
      && (Messages(HeldAfter(h, data).octets) != [] <==> Waits(h, data))
  {
    var s := h.octets + data;
    var ms := Messages(s);
    if Waits(h, data) {
      var m := ms[|ms|-1];
      EncodeParses(m);
      assert Bare(OutOf(h, data, ended)) == ms[..|ms|-1];
    } else {
      RestHasNone(s);
      NormalSame(Rest(s));
      assert Bare(OutOf(h, data, ended)) == ms;
      assert ms + [] == ms;
    }
  }

  /** For a frame that does not end the stream this holds of nothing, too. */
  lemma QuietBalance(h: Held, data: bytes)
    ensures Bare(OutOf(h, data, false)) + Messages(HeldAfter(h, data).octets) == Messages(h.octets + data)
    ensures Normal(Rest(HeldAfter(h, data).octets)) == Normal(Rest(h.octets + data))
  {
    if h.octets + data == [] {
      assert Rest([]) == [] && Messages([]) == [];
      assert HeldAfter(h, data).octets == [] && OutOf(h, data, false) == [];
    } else {
      CallBalance(h, data, false);
    }
  }

  lemma Rebracket(a: seq<Message>, b: seq<Message>, c: seq<Message>, d: seq<Message>, e: seq<Message>)
    requires b + c == d + e
    ensures (a + b) + c == (a + d) + e
  {
    assert (a + b) + c == a + (b + c);
    assert (a + d) + e == a + (d + e);
  }

  lemma FeedStep(sent: bytes, h: Held, out: seq<Out>, data: bytes, more: seq<Out>, after: bytes)
    requires Bare(out) + Messages(h.octets) == Messages(sent)
    requires Normal(Rest(h.octets)) == Normal(Rest(sent))
    requires Bare(more) + Messages(after) == Messages(h.octets + data)
    requires Normal(Rest(after)) == Normal(Rest(h.octets + data))
    ensures Bare(out + more) + Messages(after) == Messages(sent + data)
    ensures Normal(Rest(after)) == Normal(Rest(sent + data))
  {
    MessagesConcat(sent, data);
    MessagesConcat(h.octets, data);
    NormalConcat(Rest(h.octets), Rest(sent), data);
    BareConcat(out, more);
    Rebracket(Bare(out), Bare(more), Messages(after), Messages(h.octets), Messages(Rest(sent) + data));
  }

  /**
   * What has been delivered, followed by what waits, is the messages of the octets
   * received so far: frame boundaries do not matter, except to the one empty message
   * that may wait at the very end.
   */
  lemma {:induction false} FramingDoesNotMatter(frames: seq<bytes>)
    ensures var (h, out) := Feed(frames);
      && Bare(out) + Messages(h.octets) == Messages(Flatten(frames))
      && Normal(Rest(h.octets)) == Normal(Rest(Flatten(frames)))
  {
    if frames == [] {
    } else {
      var pre, data := frames[..|frames|-1], frames[|frames|-1];
      var (h, out) := Feed(pre);
      FramingDoesNotMatter(pre);
      assert frames == pre + [data];
      FlattenSnoc(pre, data);
      var more, after := OutOf(h, data, false), HeldAfter(h, data).octets;
      assert Feed(frames) == (HeldAfter(h, data), out + more);
      QuietBalance(h, data);
      FeedStep(Flatten(pre), h, out, data, more, after);
    }
  }

  /** The octets end with a complete message, and that message is empty. */
  predicate EndsEmpty(s: bytes) {
    Rest(s) == [] && Messages(s) != [] && Messages(s)[|Messages(s)|-1].payload == []
  }

  lemma Resume(sent: bytes, octets: bytes, done: seq<Message>, data: bytes)
    requires done + Messages(octets) == Messages(sent)
    requires Normal(Rest(octets)) == Normal(Rest(sent))
    ensures Messages(sent + data) == done + Messages(octets + data)
    ensures Normal(Rest(sent + data)) == Normal(Rest(octets + data))
  {
    MessagesConcat(sent, data);
    MessagesConcat(octets, data);
    NormalConcat(Rest(octets), Rest(sent), data);
    ConcatAssoc(done, Messages(octets), Messages(Rest(sent) + data));
  }

  lemma StreamSoFar(frames: seq<bytes>, data: bytes)
    ensures var (h, out) := Feed(frames);
      && Messages(Flatten(frames) + data) == Bare(out) + Messages(h.octets + data)
      && Normal(Rest(Flatten(frames) + data)) == Normal(Rest(h.octets + data))
  {
    var (h, out) := Feed(frames);
    FramingDoesNotMatter(frames);
    Resume(Flatten(frames), h.octets, Bare(out), data);
  }

  /** A message is kept waiting exactly when it is empty and ends the octets of a non-empty frame. */
  lemma WaitsOnStream(frames: seq<bytes>, data: bytes)
    ensures Waits(Feed(frames).0, data) <==> data != [] && EndsEmpty(Flatten(frames) + data)
  {
    var (h, out) := Feed(frames);
    StreamSoFar(frames, data);
    if data != [] && Rest(h.octets + data) == [] {
      assert Messages(h.octets + data) != [];
    }
  }

  /** The last frame delivers one message too many, exactly the right ones, or one too few. */
  lemma LastFrame(h: Held, data: bytes)
    ensures var out, ms := Bare(OutOf(h, data, true)), Messages(h.octets + data);
      if h.octets + data == [] then ms == [] && out == [Message(h.compressed, [])]
      else if Waits(h, data) then ms != [] && out == ms[..|ms|-1]
      else out == ms
  {
  }

  lemma EndingsJoin(done: seq<Message>, last: seq<Message>, ms: seq<Message>)
    ensures ms == [] ==> done + last == (done + ms) + last
    ensures ms != [] && last == ms[..|ms|-1] ==> done + last == (done + ms)[..|done + ms|-1]
  {
  }

  /**
   * A stream whose last frame is `data`: exactly the messages of its octets are
   * delivered, each once, if and only if the last frame is empty while octets are
   * held, or is not empty and does not end with an empty message. Otherwise an
   * empty message is made up, or the last one is lost.
   */
  lemma StreamEnd(frames: seq<bytes>, data: bytes)
    ensures var (h, out) := Feed(frames);
      var all := Bare(out + OutOf(h, data, true));
      var ms := Messages(Flatten(frames) + data);
      if data == [] && h.octets == [] then all == ms + [Message(h.compressed, [])]
      else if data != [] && EndsEmpty(Flatten(frames) + data) then ms != [] && all == ms[..|ms|-1]
      else all == ms
  {
    var (h, out) := Feed(frames);
    StreamSoFar(frames, data);
    WaitsOnStream(frames, data);
    BareConcat(out, OutOf(h, data, true));
    LastFrame(h, data);
    EndingsJoin(Bare(out), Bare(OutOf(h, data, true)), Messages(h.octets + data));
  }

  /** An empty stream, ended by an empty frame: a message is delivered that was never sent. */
  lemma EmptyStreamMakesUpMessage()
    ensures Messages([]) == []
    ensures Bare(Feed([]).1 + OutOf(Feed([]).0, [], true)) == [Message(false, [])]
  {
    StreamEnd([], []);
    assert Flatten<byte>([]) + [] == [];
  }

  /** One empty message, ending the stream with its frame: it is never delivered. */
  lemma EmptyMessageIsLost()
    ensures Messages([0, 0, 0, 0, 0]) == [Message(false, [])]
    ensures Bare(Feed([]).1 + OutOf(Feed([]).0, [0, 0, 0, 0, 0], true)) == []
  {
    var s: bytes := [0, 0, 0, 0, 0];
    EncodeParses(Message(false, []));
    assert Encode(Message(false, [])) == s;
    StreamEnd([], s);
    assert Flatten<byte>([]) + s == s;
  }

  /** At most one delivery of a frame is marked as the end of the stream, and it is the last one. */
  lemma EndMarks(h: Held, data: bytes, ended: bool)
    ensures var out := OutOf(h, data, ended);
      && (forall i :: 0 <= i < |out| && out[i].ended ==> ended && i == |out| - 1)
      && (out != [] && out[|out|-1].ended <==> ended && Rest(h.octets + data) == [] && !Waits(h, data))
  {
    var s := h.octets + data;
    if s != [] && Rest(s) == [] {
      assert Messages(s) != [];
    }
  }

  /**
   * Whole streams: the end of the stream is passed on, with the last delivery, if and
   * only if no part of a message is left over and the last frame does not end with an
   * empty message. Otherwise no delivery is ever marked.
   */
  lemma StreamEndIsMarked(frames: seq<bytes>, data: bytes)
    ensures var out, s := OutOf(Feed(frames).0, data, true), Flatten(frames) + data;
      var marked := Rest(s) == [] && !(data != [] && EndsEmpty(s));
      && (out != [] && out[|out|-1].ended <==> marked)
      && (!marked ==> forall i :: 0 <= i < |out| ==> !out[i].ended)
  {
    var h := Feed(frames).0;
    StreamSoFar(frames, data);
    WaitsOnStream(frames, data);
    EndMarks(h, data, true);
    assert Rest(Flatten(frames) + data) == [] <==> Rest(h.octets + data) == [];
  }

  /** One octet is all there is, with END_STREAM: nothing is delivered, and the end is not passed on. */
  lemma PartialStreamNeverEnds(x: byte)
    ensures OutOf(Feed([]).0, [x], true) == []
  {
    var s: bytes := [] + [x];
    assert !HasMessage(s);
    assert Messages(s) == [];
  }

  // ----- octets forwarded

  lemma {:induction false} EncodeAllConcat(a: seq<Message>, b: seq<Message>)
    ensures EncodeAll(a + b) == EncodeAll(a) + EncodeAll(b)
  {
    if a == [] {
      assert a + b == b;
    } else {
      assert (a + b)[1..] == a[1..] + b;
      EncodeAllConcat(a[1..], b);
    }
  }

  /** A stream with every flag octet that has been read reduced to 0 or 1. */
  function Reduced(s: bytes): bytes {
    EncodeAll(Messages(s)) + Normal(Rest(s))
  }

  lemma HeldIsReduced(h: Held, data: bytes)
    ensures Reduced(HeldAfter(h, data).octets) == HeldAfter(h, data).octets
  {
    var s := h.octets + data;
    var ms := Messages(s);
    if Waits(h, data) {
      var m := ms[|ms|-1];
      EncodeParses(m);
      assert EncodeAll([m]) == Encode(m) by { assert [m][1..] == []; }
      assert Reduced(Encode(m)) == Encode(m);
    } else {
      RestHasNone(s);
      NormalSame(Rest(s));
      var held := Normal(Rest(s));
      assert Messages(held) == [] && Rest(held) == held;
      assert Reduced(held) == held;
    }
  }

  // A compression codec, as the adapter and the emitter use it.
  datatype Codec = Codec(decode: bytes -> bytes, encode: bytes -> bytes)

  function Recoded(codec: Codec, m: Message): Message {
    if m.compressed then Message(true, codec.encode(codec.decode(m.payload))) else m
  }

  /** What a processor that passes every message on makes the emitter write. */
  function Forwarded(codec: Codec, ms: seq<Message>): bytes {
    if ms == [] then [] else Encode(Recoded(codec, ms[0])) + Forwarded(codec, ms[1..])
  }

  ghost predicate Lossless(codec: Codec, ms: seq<Message>) {
    forall i :: 0 <= i < |ms| ==> Recoded(codec, ms[i]) == ms[i]
  }

  lemma {:induction false} ForwardedLossless(codec: Codec, ms: seq<Message>)
    requires Lossless(codec, ms)
    ensures Forwarded(codec, ms) == EncodeAll(ms)
  {
    if ms == [] {
    } else {
      ForwardedLossless(codec, ms[1..]);
    }
  }

  lemma LosslessPrefix(codec: Codec, a: seq<Message>, b: seq<Message>, all: seq<Message>)
    requires a + b == all && Lossless(codec, all)
    ensures Lossless(codec, a)
  {
    forall i | 0 <= i < |a| ensures Recoded(codec, a[i]) == a[i] {
      assert a[i] == all[i];
    }
  }

  lemma {:induction false} FeedIsReduced(frames: seq<bytes>)
    ensures Reduced(Feed(frames).0.octets) == Feed(frames).0.octets
  {
    if frames == [] {
    } else {
      HeldIsReduced(Feed(frames[..|frames|-1]).0, frames[|frames|-1]);
    }
  }

  /** Octets follow messages: if the messages balance, so do the octets. */
  lemma OctetsFollow(codec: Codec, sent: bytes, out: seq<Out>, held: bytes)
    requires Lossless(codec, Messages(sent)) && Reduced(held) == held
    requires Bare(out) + Messages(held) == Messages(sent)
    requires Normal(Rest(held)) == Normal(Rest(sent))
    ensures Forwarded(codec, Bare(out)) + held == Reduced(sent)
  {
    LosslessPrefix(codec, Bare(out), Messages(held), Messages(sent));
    ForwardedLossless(codec, Bare(out));
    EncodeAllConcat(Bare(out), Messages(held));
    ConcatAssoc(EncodeAll(Bare(out)), EncodeAll(Messages(held)), Normal(Rest(held)));
  }

  /**
   * Before the last frame: whatever the frame boundaries, the octets forwarded
   * followed by the octets held are the octets received, with flag octets reduced,
   * provided the codec gives back the compressed payloads it took apart (without
   * compression it always does).
   */
  lemma OctetsConserved(codec: Codec, frames: seq<bytes>)
    requires Lossless(codec, Messages(Flatten(frames)))
    ensures var (h, out) := Feed(frames);
      Forwarded(codec, Bare(out)) + h.octets == Reduced(Flatten(frames))
  {
    var (h, out) := Feed(frames);
    FramingDoesNotMatter(frames);
    FeedIsReduced(frames);
    OctetsFollow(codec, Flatten(frames), out, h.octets);
  }

  /** What the emitter writes for the message that an empty last frame makes up: nil, under the flag last read. */
  function MadeUp(codec: Codec, compressed: bool): bytes {
    Encode(Message(compressed, if compressed then codec.encode([]) else []))
  }

  /** All that is written for a stream whose last frame is `data`. */
  function ForwardedStream(codec: Codec, frames: seq<bytes>, data: bytes): bytes {
    var (h, out) := Feed(frames);
    Forwarded(codec, Bare(out))
    + if h.octets + data == [] then MadeUp(codec, h.compressed) else Forwarded(codec, Bare(OutOf(h, data, true)))
  }

  lemma {:induction false} ForwardedConcat(codec: Codec, a: seq<Message>, b: seq<Message>)
    ensures Forwarded(codec, a + b) == Forwarded(codec, a) + Forwarded(codec, b)
  {
    if a == [] {
      assert a + b == b;
    } else {
      assert (a + b)[1..] == a[1..] + b;
      ForwardedConcat(codec, a[1..], b);
    }
  }

  /** A last frame after which something was held or came in. */
  lemma LastOctets(codec: Codec, frames: seq<bytes>, data: bytes)
    requires Lossless(codec, Messages(Flatten(frames) + data))
    requires Feed(frames).0.octets + data != []
    ensures ForwardedStream(codec, frames, data) + HeldAfter(Feed(frames).0, data).octets
         == Reduced(Flatten(frames) + data)
  {
    var (h, out) := Feed(frames);
    var more, after := OutOf(h, data, true), HeldAfter(h, data).octets;
    FramingDoesNotMatter(frames);
    CallBalance(h, data, true);
    FeedStep(Flatten(frames), h, out, data, more, after);
    HeldIsReduced(h, data);
    OctetsFollow(codec, Flatten(frames) + data, out + more, after);
    BareConcat(out, more);
    ForwardedConcat(codec, Bare(out), Bare(more));
  }

  /**
   * Whole streams: what is written, followed by what stays held for good, is what was
   * received, with flag octets reduced, if and only if the last frame brings octets or
   * finds some held. Otherwise exactly the made-up message is written on top.
   */
  lemma StreamOctetsConserved(codec: Codec, frames: seq<bytes>, data: bytes)
    requires Lossless(codec, Messages(Flatten(frames) + data))
    ensures var h := Feed(frames).0;
      var written := ForwardedStream(codec, frames, data) + HeldAfter(h, data).octets;
      var received := Reduced(Flatten(frames) + data);
      && (written == received <==> !(data == [] && h.octets == []))
      && (data == [] && h.octets == [] ==> written == received + MadeUp(codec, h.compressed))
  {
    var (h, out) := Feed(frames);
    if h.octets + data == [] {
      assert Flatten(frames) + data == Flatten(frames);
      OctetsConserved(codec, frames);
      var forwarded := Forwarded(codec, Bare(out));
      assert HeldAfter(h, data).octets == [];
      assert forwarded + [] == forwarded;
      assert |MadeUp(codec, h.compressed)| >= PREFIX;
    } else {
      LastOctets(codec, frames, data);
    }
  }

  /** What a message says once it is decompressed. */
  function Plain(codec: Codec, m: Message): bytes {
    if m.compressed then codec.decode(m.payload) else m.payload
  }

  lemma {:induction false} ForwardedParses(codec: Codec, ms: seq<Message>)
    requires forall i :: 0 <= i < |ms| ==> |Recoded(codec, ms[i]).payload| < UINT32
    ensures Rest(Forwarded(codec, ms)) == []
    ensures var got := Messages(Forwarded(codec, ms));
      |got| == |ms| && forall i :: 0 <= i < |ms| ==> got[i] == Recoded(codec, ms[i])
  {
    if ms == [] {
      assert Messages([]) == [] && Rest([]) == [];
    } else {
      var m, rest := Recoded(codec, ms[0]), Forwarded(codec, ms[1..]);
      ForwardedParses(codec, ms[1..]);
      EncodeParses(m);
      MessagesConcat(Encode(m), rest);
      assert [] + rest == rest;
    }
  }

  /** Decompression undoes compression of this text. */
  predicate Restores(codec: Codec, text: bytes) {
    codec.decode(codec.encode(text)) == text
  }

  /**
   * Compression need not give back the same octets. The next adapter still gets the
   * messages one for one, each with the same flag, and a message says the same if and
   * only if it is not compressed or decompression undoes compression of what it says.
   */
  lemma PayloadsSurvive(codec: Codec, ms: seq<Message>, i: nat)
    requires i < |ms|
    requires forall j :: 0 <= j < |ms| ==> |Recoded(codec, ms[j]).payload| < UINT32
    ensures var got := Messages(Forwarded(codec, ms));
      && Rest(Forwarded(codec, ms)) == []
      && |got| == |ms|
      && got[i].compressed == ms[i].compressed
      && (Plain(codec, got[i]) == Plain(codec, ms[i]) <==> ms[i].compressed ==> Restores(codec, Plain(codec, ms[i])))
  {
    ForwardedParses(codec, ms);
  }

  /** The flag octets of all prefixes that are complete. */
  function Flags(s: bytes): seq<byte>
    decreases |s|
  {
    if HasMessage(s) then [s[0]] + Flags(AfterFirst(s))
    else if |s| >= PREFIX then [s[0]]
    else []
  }

  lemma EncodeFirst(s: bytes)
    requires HasMessage(s)
    ensures Encode(First(s)) == Normal(s[..PREFIX + Length(s)])
  {
    var head, n := s[..PREFIX + Length(s)], Length(s);
    EncodeIsPrefixed(First(s));
    assert head[1..5] == s[1..5];
    ReadPrefix(head);
    assert head[PREFIX..] == First(s).payload;
  }

  lemma NormalIdentity(s: bytes)
    ensures Normal(s) == s <==> |s| < PREFIX || s[0] <= 1
  {
    if |s| >= PREFIX {
      assert s == [s[0]] + s[1..];
      ConcatSplits([if s[0] > 0 then 1 else 0], s[1..], [s[0]], s[1..]);
    }
  }

  lemma ReducedUnfolds(s: bytes)
    requires HasMessage(s)
    ensures Reduced(s) == Normal(s[..PREFIX + Length(s)]) + Reduced(AfterFirst(s))
  {
    EncodeFirst(s);
    assert Messages(s)[1..] == Messages(AfterFirst(s));
    ConcatAssoc(Encode(First(s)), EncodeAll(Messages(AfterFirst(s))), Normal(Rest(s)));
  }

  predicate AllBinary(flags: seq<byte>) {
    forall i :: 0 <= i < |flags| ==> flags[i] <= 1
  }

  lemma AllBinaryCons(f: byte, flags: seq<byte>)
    ensures AllBinary([f] + flags) <==> f <= 1 && AllBinary(flags)
  {
    if AllBinary([f] + flags) {
      forall i | 0 <= i < |flags| ensures flags[i] <= 1 {
        assert flags[i] == ([f] + flags)[i+1];
      }
      assert ([f] + flags)[0] == f;
    }
  }

  /** Reduction changes nothing exactly when all flag octets are 0 or 1. */
  lemma {:induction false} ReducedIdentity(s: bytes)
    ensures Reduced(s) == s <==> AllBinary(Flags(s))
    decreases |s|
  {
    if HasMessage(s) {
      var head, t := s[..PREFIX + Length(s)], AfterFirst(s);
      ReducedIdentity(t);
      ReducedUnfolds(s);
      NormalIdentity(head);
      assert s == head + t;
      ConcatSplits(Normal(head), Reduced(t), head, t);
      AllBinaryCons(s[0], Flags(t));
    } else {
      assert Messages(s) == [] && Rest(s) == s;
      assert Reduced(s) == Normal(s);
      assert Flags(s) == if |s| >= PREFIX then [s[0]] else [];
      NormalIdentity(s);
    }
  }

  /** What the emitter sends for a message. */
  function Payload(codec: Codec, compressed: bool, data: bytes): bytes {
    if compressed then codec.encode(data) else data
  }

  /**
   * The emitter's message, as the next adapter parses it: the one message, if and only
   * if its payload is shorter than 4 GiB. Of a longer one the length is truncated, so
   * it is cut off there and the remainder is taken for further messages.
   */
  method EmitterMessage(codec: Codec, compressed: bool, data: bytes) returns (buf: bytes)
    ensures var payload := Payload(codec, compressed, data);
      && HasMessage(buf)
      && First(buf) == Message(compressed, payload[..|payload| % UINT32])
      && AfterFirst(buf) == payload[|payload| % UINT32..]
      && (Messages(buf) == [Message(compressed, payload)] && Rest(buf) == [] <==> |payload| < UINT32)
  {
    var payload := data;
    if compressed {
      payload := codec.encode(data);
    }
    if compressed {
      buf := [1];
    } else {
      buf := [0];
    }
    buf := buf + Put32(|payload| % UINT32);
    buf := buf + payload;
    var n := |payload| % UINT32;
    assert buf == Prefixed(compressed, n, payload);
    PrefixedMessage(compressed, n, payload);
    if |payload| < UINT32 {
      EncodeParses(Message(compressed, payload));
      assert buf == Encode(Message(compressed, payload));
      assert payload[..n] == payload;
    } else {
      assert |First(buf).payload| < |payload|;
      assert Messages(buf)[0] == First(buf);
    }
  }

  /** A payload of exactly 4 GiB: the message that is parsed is empty. */
  lemma LongMessageIsCut(payload: bytes)
    requires |payload| == UINT32
    ensures var s := Encode(Message(false, payload)); HasMessage(s) && First(s) == Message(false, [])
  {
    assert Encode(Message(false, payload)) == Prefixed(false, 0, payload);
    PrefixedMessage(false, 0, payload);
  }
}
