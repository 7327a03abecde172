/**
 * The PROXY protocol header reader, versions 1 and 2 (sections 2.1 and 2.2 of the
 * HAProxy PROXY protocol specification): which octets of a stream it takes for the
 * header, and what it makes of them. Parsing of IP addresses and decimal numbers
 * is left opaque.
 */
module ProxyProto {
  import opened Bytes

  // "PROXY "
  const V1_IDENTIFIER: bytes := [80, 82, 79, 88, 89, 32]
  // "\r\n\r\n\0\r\nQUIT\n"
  const V2_IDENTIFIER: bytes := [13, 10, 13, 10, 0, 13, 10, 81, 85, 73, 84, 10]
  const UNKNOWN_PROTO: bytes := [85, 78, 75, 78, 79, 87, 78]
  const TCP4: bytes := [84, 67, 80, 52]
  const TCP6: bytes := [84, 67, 80, 54]
  const CR: byte := 13
  const LF: byte := 10
  const SPACE: byte := 32

  const IDENTIFIER_READ := 13
  const MIN_TCP4 := 32
  const MIN_TCP6 := 24
  const MAX_V1 := 107
  const MAX_V2 := 2048
  const IPV4_LEN := 12
  const IPV6_LEN := 36

  datatype Addr = Addr(ip: bytes, port: int, udp: bool)

  datatype Header = Header(
    source: Option<Addr>, destination: Option<Addr>, isLocal: bool, version: nat, rawTLVs: bytes, unknown: bytes)

  /** net.ParseIP and strconv.Atoi. */
  datatype Parsers = Parsers(ip: bytes -> Option<bytes>, number: bytes -> Option<int>)

  /** A header and the number of octets read for it. */
  datatype Parsed = Parsed(header: Header, used: nat)

  // ----- version 1: finding the line

  /** A CRLF ends right before position `e`. */
  predicate CRLFEndsAt(s: bytes, e: nat) {
    2 <= e <= |s| && s[e-2] == CR && s[e-1] == LF
  }

  /** The first CRLF end at or after `e`, within the 107 octets a line may have. */
  function LineEnd(s: bytes, e: nat): (r: Option<nat>)
    ensures r.Some? ==> e <= r.value <= MAX_V1 && CRLFEndsAt(s, r.value)
    ensures r.Some? ==> forall f :: e <= f < r.value ==> !CRLFEndsAt(s, f)
    ensures r.None? ==> forall f :: e <= f <= MAX_V1 ==> !CRLFEndsAt(s, f)
    decreases MAX_V1 + 1 - e
  {
    if e > MAX_V1 then None
    else if CRLFEndsAt(s, e) then Some(e)
    else LineEnd(s, e + 1)
  }

  /** Where the reader starts looking for the end of the line. */
  function LineStart(s: bytes): Option<nat>
    requires |s| >= IDENTIFIER_READ
  {
    if s[6..13] == UNKNOWN_PROTO then Some(14)
    else if s[6..10] == TCP4 then Some(MIN_TCP4)
    else if s[6..10] == TCP6 then Some(MIN_TCP6)
    else None
  }

  // ----- version 1: the fields of the line

  function IndexOf(s: bytes, b: byte): (k: nat)
    ensures k <= |s|
    ensures k < |s| ==> s[k] == b
    ensures b !in s[..k]
  {
    if s == [] || s[0] == b then 0
    else
      var k := 1 + IndexOf(s[1..], b);
      assert s[..k] == [s[0]] + s[1..][..k-1];
      k
  }

  function Fields(s: bytes): seq<bytes>
    decreases |s|
  {
    var m := IndexOf(s, SPACE);
    if m == |s| then [s] else [s[..m]] + Fields(s[m+1..])
  }

  function Joined(fs: seq<bytes>): bytes {
    if fs == [] then [] else if |fs| == 1 then fs[0] else fs[0] + [SPACE] + Joined(fs[1..])
  }

  predicate NoSpaces(fs: seq<bytes>) {
    forall i :: 0 <= i < |fs| ==> SPACE !in fs[i]
  }

  lemma IndexOfIs(s: bytes, b: byte, k: nat)
    requires k <= |s| && b !in s[..k] && (k < |s| ==> s[k] == b)
    ensures IndexOf(s, b) == k
  {
    var m := IndexOf(s, b);
    forall i | 0 <= i < k ensures s[i] != b {
      assert s[i] == s[..k][i];
    }
    forall i | 0 <= i < m ensures s[i] != b {
      assert s[i] == s[..m][i];
    }
  }

  /** The first field of a text is what stands before its first space. */
  lemma FieldsCons(field: bytes, rest: bytes)
    requires SPACE !in field
    ensures Fields(field + [SPACE] + rest) == [field] + Fields(rest)
  {
    var s, k := field + [SPACE] + rest, |field|;
    assert s[..k] == field && s[k+1..] == rest;
    IndexOfIs(s, SPACE, k);
  }

  /** Splitting undoes joining, and its fields hold no space. */
  lemma {:induction false} FieldsOfJoined(fs: seq<bytes>)
    requires fs != [] && NoSpaces(fs)
    ensures Fields(Joined(fs)) == fs
  {
    var s := Joined(fs);
    if |fs| == 1 {
      assert s[..|s|] == s;
      IndexOfIs(s, SPACE, |s|);
    } else {
      FieldsCons(fs[0], Joined(fs[1..]));
      FieldsOfJoined(fs[1..]);
      assert fs == [fs[0]] + fs[1..];
    }
  }

  /** What the four fields of a line make; further fields are ignored. */
  function FromFields(p: Parsers, fs: seq<bytes>): Option<Header> {
    if |fs| >= 4 && p.ip(fs[0]).Some? && p.ip(fs[1]).Some? && p.number(fs[2]).Some? && p.number(fs[3]).Some? then
      Some(Header(Some(Addr(p.ip(fs[0]).value, p.number(fs[2]).value, false)),
                  Some(Addr(p.ip(fs[1]).value, p.number(fs[3]).value, false)), false, 1, [], []))
    else None
  }

  /** The header of a stream whose first 13 octets carry the version 1 identifier. */
  function ReadV1(p: Parsers, s: bytes): Option<Parsed>
    requires |s| >= IDENTIFIER_READ
  {
    var start := LineStart(s);
    if start.None? then None
    else
      var e := LineEnd(s, start.value);
      if e.None? then None
      else if s[6..13] == UNKNOWN_PROTO then
        Some(Parsed(Header(None, None, true, 1, [], s[..e.value-2]), e.value))
      else
        var h := FromFields(p, Fields(s[11..e.value-2]));
        if h.None? then None else Some(Parsed(h.value, e.value))
  }

  // ----- version 2

  function V4(a: bytes): bytes
    requires |a| == 4
  {
    [0, 0, 0, 0, 0, 0, 0, 0, 0, 0, 255, 255] + a
  }

  function V2Body(command: nat, family: byte, tr: bytes): Option<Header> {
    if command == 0 then Some(Header(None, None, true, 2, tr, []))
    else if command == 1 then
      if tr == [] then None
      else if family == 0x11 || family == 0x12 then
        if |tr| < IPV4_LEN then None
        else
          Some(Header(Some(Addr(V4(tr[0..4]), Get16(tr[8..10]), family == 0x12)),
                      Some(Addr(V4(tr[4..8]), Get16(tr[10..12]), family == 0x12)), false, 2, tr[IPV4_LEN..], []))
      else if family == 0x21 || family == 0x22 then
        if |tr| < IPV6_LEN then None
        else
          Some(Header(Some(Addr(tr[0..16], Get16(tr[32..34]), family == 0x22)),
                      Some(Addr(tr[16..32], Get16(tr[34..36]), family == 0x22)), false, 2, tr[IPV6_LEN..], []))
      else if family == 0x31 || family == 0x32 then None
      else Some(Header(None, None, false, 2, tr, []))
    else Some(Header(None, None, false, 2, tr, []))
  }

  /** The header of a stream whose first 13 octets carry the version 2 identifier. */
  function ReadV2(s: bytes): Option<Parsed>
    requires |s| >= IDENTIFIER_READ
  {
    if |s| < 16 || s[12] / 16 != 2 then None
    else
      var length := Get16(s[14..16]);
      if length > MAX_V2 || |s| < 16 + length then None
      else
        var h := V2Body(s[12] % 16, s[13], s[16..16 + length]);
        if h.None? then None else Some(Parsed(h.value, 16 + length))
  }

  /** ReadHeader on a stream of octets. */
  function Read(p: Parsers, s: bytes): Option<Parsed> {
    if |s| < IDENTIFIER_READ then None
    else if V2_IDENTIFIER <= s then ReadV2(s)
    else if V1_IDENTIFIER <= s then ReadV1(p, s)
    else None
  }

  // ----- version 1: exact consumption

  ghost predicate FirstCRLFAt(s: bytes, e: nat) {
    CRLFEndsAt(s, e) && forall f :: 0 <= f < e ==> !CRLFEndsAt(s, f)
  }

  predicate IsUnknown(s: bytes) {
    |s| >= IDENTIFIER_READ && V1_IDENTIFIER <= s && s[6..13] == UNKNOWN_PROTO
  }

  predicate IsTCP(s: bytes) {
    |s| >= IDENTIFIER_READ && V1_IDENTIFIER <= s && (s[6..10] == TCP4 || s[6..10] == TCP6)
  }

  /** The shortest line the reader expects. */
  function MinLine(s: bytes): nat
    requires IsTCP(s)
  {
    if s[6..10] == TCP4 then MIN_TCP4 else MIN_TCP6
  }

  lemma NotV2(s: bytes)
    requires |s| >= IDENTIFIER_READ && V1_IDENTIFIER <= s
    ensures !(V2_IDENTIFIER <= s)
  {
    assert s[0] == V1_IDENTIFIER[0];
  }

  lemma LineEndIs(s: bytes, start: nat, e: nat)
    requires FirstCRLFAt(s, e)
    ensures LineEnd(s, start) == Some(e) <==> start <= e <= MAX_V1
  {
    var r := LineEnd(s, start);
    if start <= e <= MAX_V1 {
      assert r.Some? ==> !CRLFEndsAt(s, r.value) || r.value >= e;
    }
  }

  /**
   * A TCP4 or TCP6 line that ends with the first CRLF of the stream, at `e`: the
   * reader takes exactly those octets if and only if the line has the length it
   * expects and its fields can be parsed.
   */
  lemma V1TakesTheLine(p: Parsers, s: bytes, e: nat)
    requires IsTCP(s) && FirstCRLFAt(s, e)
    ensures Read(p, s).Some? && Read(p, s).value.used == e
       <==> MinLine(s) <= e <= MAX_V1 && FromFields(p, Fields(s[11..e-2])).Some?
    ensures MinLine(s) <= e <= MAX_V1 && FromFields(p, Fields(s[11..e-2])).Some? ==>
              Read(p, s).value.header == FromFields(p, Fields(s[11..e-2])).value
  {
    NotV2(s);
    assert s[6..13][..4] == s[6..10];
    assert UNKNOWN_PROTO[..4] != TCP4 && UNKNOWN_PROTO[..4] != TCP6 by {
      assert UNKNOWN_PROTO[..4][0] == 85;
    }
    LineEndIs(s, MinLine(s), e);
  }

  /** An UNKNOWN line is taken whole, without its CRLF, whatever it says, unless it is too long. */
  lemma V1TakesUnknown(p: Parsers, s: bytes, e: nat)
    requires IsUnknown(s) && FirstCRLFAt(s, e)
    ensures Read(p, s) == if e <= MAX_V1 then Some(Parsed(Header(None, None, true, 1, [], s[..e-2]), e)) else None
  {
    NotV2(s);
    assert e >= 15 by {
      assert forall i :: 0 <= i < 6 ==> s[i] == V1_IDENTIFIER[i];
      assert forall i :: 0 <= i < 7 ==> s[6 + i] == s[6..13][i];
    }
    LineEndIs(s, 14, e);
  }

  /** No CRLF within 107 octets: refused. */
  lemma V1GivesUp(p: Parsers, s: bytes)
    requires |s| >= IDENTIFIER_READ && V1_IDENTIFIER <= s
    requires forall f :: 0 <= f <= MAX_V1 ==> !CRLFEndsAt(s, f)
    ensures Read(p, s).None?
  {
    NotV2(s);
  }

  // ----- version 1: round trip

  function Line(proto: bytes, fs: seq<bytes>): bytes {
    V1_IDENTIFIER + proto + [SPACE] + Joined(fs)
  }

  predicate NoCR(s: bytes) {
    CR !in s
  }

  lemma {:induction false} JoinedNoCR(fs: seq<bytes>)
    requires forall i :: 0 <= i < |fs| ==> NoCR(fs[i])
    ensures NoCR(Joined(fs))
  {
    if |fs| <= 1 {
    } else {
      JoinedNoCR(fs[1..]);
    }
  }

  lemma FirstCRLFAfter(line: bytes, rest: bytes)
    requires NoCR(line)
    ensures FirstCRLFAt(line + [CR, LF] + rest, |line| + 2)
  {
    var s := line + [CR, LF] + rest;
    forall f | 0 <= f < |line| + 2 ensures !CRLFEndsAt(s, f) {
      if 2 <= f {
        assert s[f-2] == line[f-2];
      }
    }
  }

  lemma LineStarts(proto: bytes, fs: seq<bytes>, rest: bytes)
    requires |proto| == 4
    ensures var s := Line(proto, fs) + rest;
      V1_IDENTIFIER <= s && s[6..10] == proto && Line(proto, fs)[11..] == Joined(fs)
  {
    var s := Line(proto, fs) + rest;
    assert s[..6] == V1_IDENTIFIER;
  }

  /**
   * A line written by the specification, followed by any payload: its addresses and
   * ports come back and the payload is left alone, if and only if the line has a
   * length the reader expects.
   */
  lemma V1RoundTrip(p: Parsers, proto: bytes, fs: seq<bytes>, payload: bytes)
    requires proto == TCP4 || proto == TCP6
    requires |fs| == 4 && NoSpaces(fs) && forall i :: 0 <= i < 4 ==> NoCR(fs[i])
    requires FromFields(p, fs).Some?
    ensures Read(p, Line(proto, fs) + [CR, LF] + payload)
         == Some(Parsed(FromFields(p, fs).value, |Line(proto, fs)| + 2))
       <==> (if proto == TCP4 then MIN_TCP4 else MIN_TCP6) <= |Line(proto, fs)| + 2 <= MAX_V1
  {
    var line := Line(proto, fs);
    var s := line + [CR, LF] + payload;
    var e := |line| + 2;
    JoinedNoCR(fs);
    FirstCRLFAfter(line, payload);
    LineStarts(proto, fs, [CR, LF] + payload);
    assert line + ([CR, LF] + payload) == s;
    assert s[11..e-2] == Joined(fs) by {
      assert s[..e-2] == line;
    }
    FieldsOfJoined(fs);
    V1TakesTheLine(p, s, e);
  }

  /** The shortest legal IPv6 line: two unspecified addresses and two one-digit ports. */
  const SHORT_TCP6: bytes := Line(TCP6, [[58, 58], [58, 58], [48], [48]]) + [CR, LF]

  /** It is two octets shorter than the reader expects, so it is never read as that header. */
  lemma ShortTCP6IsMisread(p: Parsers, payload: bytes)
    ensures |SHORT_TCP6| == 22
    ensures !(Read(p, SHORT_TCP6 + payload).Some? && Read(p, SHORT_TCP6 + payload).value.used == 22)
  {
    var fs: seq<bytes> := [[58, 58], [58, 58], [48], [48]];
    var joined: bytes := [58, 58, 32, 58, 58, 32, 48, 32, 48];
    assert Joined(fs) == joined by {
      assert fs[1..] == [[58, 58], [48], [48]];
      assert fs[1..][1..] == [[48], [48]];
      assert fs[1..][1..][1..] == [[48]];
    }
    var line := Line(TCP6, fs);
    var s := line + [CR, LF] + payload;
    assert s == SHORT_TCP6 + payload;
    FirstCRLFAfter(line, payload);
    assert s[6..10] == TCP6;
    assert V1_IDENTIFIER <= s;
    V1TakesTheLine(p, s, 22);
  }

  // ----- version 2: round trip

  // The messages of section 2.2 of the PROXY protocol; a Unix address is a padded path of 108 octets.
  datatype V2Message =
    | Local(family: byte, tlvs: bytes)
    | Unspec(family: byte, tlvs: bytes)
    | Inet(udp: bool, src: bytes, dst: bytes, srcPort: int, dstPort: int, tlvs: bytes)
    | Inet6(udp: bool, src: bytes, dst: bytes, srcPort: int, dstPort: int, tlvs: bytes)
    | Unix(dgram: bool, src: bytes, dst: bytes, tlvs: bytes)
  {
    predicate WellFormed() {
      match this
      case Local(_, _) => true
      case Unspec(family, _) => family !in [0x11, 0x12, 0x21, 0x22, 0x31, 0x32]
      case Inet(_, src, dst, srcPort, dstPort, _) =>
        |src| == |dst| == 4 && 0 <= srcPort < 0x1_0000 && 0 <= dstPort < 0x1_0000
      case Inet6(_, src, dst, srcPort, dstPort, _) =>
        |src| == |dst| == 16 && 0 <= srcPort < 0x1_0000 && 0 <= dstPort < 0x1_0000
      case Unix(_, src, dst, _) => |src| == |dst| == 108
    }

    function Command(): nat {
      if Local? then 0 else 1
    }

    function FamilyOctet(): byte {
      match this
      case Local(family, _) => family
      case Unspec(family, _) => family
      case Inet(udp, _, _, _, _, _) => if udp then 0x12 else 0x11
      case Inet6(udp, _, _, _, _, _) => if udp then 0x22 else 0x21
      case Unix(dgram, _, _, _) => if dgram then 0x32 else 0x31
    }

    function Body(): bytes
      requires WellFormed()
    {
      match this
      case Local(_, tlvs) => tlvs
      case Unspec(_, tlvs) => tlvs
      case Inet(_, src, dst, srcPort, dstPort, tlvs) => src + dst + Put16(srcPort) + Put16(dstPort) + tlvs
      case Inet6(_, src, dst, srcPort, dstPort, tlvs) => src + dst + Put16(srcPort) + Put16(dstPort) + tlvs
      case Unix(_, src, dst, tlvs) => src + dst + tlvs
    }

    /** What the reader refuses although it is well formed: too long, Unix addresses, or PROXY without any octets. */
    predicate Supported()
      requires WellFormed()
    {
      |Body()| <= MAX_V2 && !Unix? && !(Unspec? && tlvs == [])
    }

    function Meaning(): Header
      requires WellFormed() && !Unix?
    {
      match this
      case Local(_, tlvs) => Header(None, None, true, 2, tlvs, [])
      case Unspec(_, tlvs) => Header(None, None, false, 2, tlvs, [])
      case Inet(udp, src, dst, srcPort, dstPort, tlvs) =>
        Header(Some(Addr(V4(src), srcPort, udp)), Some(Addr(V4(dst), dstPort, udp)), false, 2, tlvs, [])
      case Inet6(udp, src, dst, srcPort, dstPort, tlvs) =>
        Header(Some(Addr(src, srcPort, udp)), Some(Addr(dst, dstPort, udp)), false, 2, tlvs, [])
    }
  }

  function EncodeV2(m: V2Message): bytes
    requires m.WellFormed() && |m.Body()| < 0x1_0000
  {
    V2_IDENTIFIER + [0x20 + m.Command(), m.FamilyOctet()] + Put16(|m.Body()|) + m.Body()
  }

  lemma InFront(a: bytes, b: bytes, i: nat, j: nat)
    requires i <= j <= |a|
    ensures (a + b)[i..j] == a[i..j]
  {
  }

  lemma AtBack(a: bytes, b: bytes)
    ensures (a + b)[|a|..] == (a + b)[|a|..|a| + |b|] == b
  {
  }

  lemma FiveParts(a: bytes, b: bytes, c: bytes, d: bytes, e: bytes)
    ensures var s, k := a + b + c + d + e, |a| + |b|;
      && s[0..|a|] == a && s[|a|..k] == b
      && s[k..k + |c|] == c && s[k + |c|..k + |c| + |d|] == d
      && s[k + |c| + |d|..] == e
  {
    var k := |a| + |b|;
    InFront(a + b + c + d, e, 0, k + |c| + |d|);
    AtBack(a + b + c + d, e);
    AtBack(a + b + c, d);
    InFront(a + b + c + d, e, k + |c|, k + |c| + |d|);
    AtBack(a + b, c);
    InFront(a + b + c, d, k, k + |c|);
    InFront(a + b + c + d, e, k, k + |c|);
    AtBack(a, b);
    InFront(a + b, c, |a|, k);
    InFront(a + b + c, d, |a|, k);
    InFront(a + b + c + d, e, |a|, k);
    InFront(a, b, 0, |a|);
    InFront(a + b, c, 0, |a|);
    InFront(a + b + c, d, 0, |a|);
    InFront(a + b + c + d, e, 0, |a|);
  }

  lemma InetBody(m: V2Message)
    requires m.WellFormed() && (m.Inet? || m.Inet6?)
    ensures V2Body(1, m.FamilyOctet(), m.Body()) == Some(m.Meaning())
  {
    FiveParts(m.src, m.dst, Put16(m.srcPort), Put16(m.dstPort), m.tlvs);
  }

  lemma EncodedV2(m: V2Message, payload: bytes)
    requires m.WellFormed() && |m.Body()| < 0x1_0000
    ensures var s, n := EncodeV2(m) + payload, |m.Body()|;
      && V2_IDENTIFIER <= s && |s| >= 16 + n
      && s[12] == 0x20 + m.Command() && s[13] == m.FamilyOctet()
      && Get16(s[14..16]) == n && s[16..16 + n] == m.Body()
  {
    var s, n := EncodeV2(m) + payload, |m.Body()|;
    assert s[14..16] == Put16(n);
  }

  lemma BodyOf(m: V2Message)
    requires m.WellFormed()
    ensures V2Body(m.Command(), m.FamilyOctet(), m.Body())
         == if m.Unix? || (m.Unspec? && m.tlvs == []) then None else Some(m.Meaning())
  {
    if m.Inet? || m.Inet6? {
      InetBody(m);
    }
  }

  /**
   * A version 2 header written by the specification, followed by any payload: its
   * addresses, ports and raw trailing octets come back, and exactly 16 plus its length
   * octets are used, if and only if it has at most 2048 octets after the length, no
   * Unix addresses, and is not a PROXY command without any octets. All others are
   * refused.
   */
  lemma V2RoundTrip(p: Parsers, m: V2Message, payload: bytes)
    requires m.WellFormed() && |m.Body()| < 0x1_0000
    ensures Read(p, EncodeV2(m) + payload)
         == if m.Supported() then Some(Parsed(m.Meaning(), 16 + |m.Body()|)) else None
  {
    EncodedV2(m, payload);
    BodyOf(m);
  }

  /** Two such headers: PROXY, UNSPEC, no octets; and Unix stream addresses. */
  lemma LegalV2IsRefused(p: Parsers, src: bytes, dst: bytes, payload: bytes)
    requires |src| == |dst| == 108
    ensures Read(p, EncodeV2(Unspec(0, [])) + payload).None?
    ensures Read(p, EncodeV2(Unix(false, src, dst, [])) + payload).None?
  {
    V2RoundTrip(p, Unspec(0, []), payload);
    V2RoundTrip(p, Unix(false, src, dst, []), payload);
  }
}
