/**
 * The header reader as it works: octets are read from the connection into a fixed
 * buffer, piece by piece. Each method is proved against ProxyProto.
 */
module ProxyProtoReader {
  import opened Bytes
  import opened ProxyProto

  const BUFFER := 232

  /** The receiving side of a connection: the octets still to come. */
  class ByteSource {
    var rest: bytes

    constructor (rest: bytes)
      ensures this.rest == rest
    {
      this.rest := rest;
    }

    /** io.ReadFull into buf[lo..hi]. */
    method ReadFull(buf: array<byte>, lo: nat, hi: nat) returns (ok: bool)
      requires lo <= hi <= buf.Length
      modifies this, buf
      ensures ok <==> |old(rest)| >= hi - lo
      ensures ok ==> buf[..hi] == old(buf[..lo]) + old(rest)[..hi - lo] && rest == old(rest)[hi - lo..]
    {
      var n := hi - lo;
      if |rest| < n {
        rest := [];
        return false;
      }
      var data := rest[..n];
      forall i | lo <= i < hi {
        buf[i] := data[i - lo];
      }
      rest := rest[n..];
      return true;
    }
  }

  /** So far `idx` octets of the stream `s` are in the buffer, the others still to come. */
  ghost predicate ReadSoFar(s: bytes, buf: array<byte>, r: ByteSource, idx: nat)
    reads buf, r
  {
    buf.Length == BUFFER && idx <= BUFFER && idx <= |s| && buf[..idx] == s[..idx] && r.rest == s[idx..]
  }

  lemma NextPiece(s: bytes, lo: nat, hi: nat)
    requires lo <= hi <= |s|
    ensures s[..lo] + s[lo..][..hi - lo] == s[..hi]
    ensures s[lo..][hi - lo..] == s[hi..]
  {
  }

  method ReadMore(buf: array<byte>, r: ByteSource, lo: nat, hi: nat, ghost s: bytes) returns (ok: bool)
    requires lo <= hi <= BUFFER && ReadSoFar(s, buf, r, lo)
    modifies buf, r
    ensures ok <==> |s| >= hi
    ensures ok ==> ReadSoFar(s, buf, r, hi)
  {
    if |s| >= hi {
      NextPiece(s, lo, hi);
    }
    ok := r.ReadFull(buf, lo, hi);
  }

  /** readUntilCRLF: one octet at a time, up to the 107th. */
  method ReadUntilCRLF(buf: array<byte>, r: ByteSource, idx: nat, ghost s: bytes) returns (line: Option<bytes>)
    requires 1 <= idx <= MAX_V1 && ReadSoFar(s, buf, r, idx)
    modifies buf, r
    ensures var e := LineEnd(s, idx + 1);
      if e.Some? then line == Some(s[..e.value-2]) && r.rest == s[e.value..] else line.None?
  {
    var i := idx;
    while i < MAX_V1
      invariant idx <= i <= MAX_V1
      invariant ReadSoFar(s, buf, r, i)
      invariant LineEnd(s, idx + 1) == LineEnd(s, i + 1)
    {
      var ok := ReadMore(buf, r, i, i + 1, s);
      if !ok {
        return None;
      }
      assert buf[i-1] == s[i-1] && buf[i] == s[i] by {
        assert buf[..i+1][i-1] == s[..i+1][i-1] && buf[..i+1][i] == s[..i+1][i];
      }
      if buf[i-1] == CR && buf[i] == LF {
        assert buf[..i-1] == s[..i-1] by {
          assert buf[..i-1] == buf[..i+1][..i-1];
        }
        return Some(buf[..i-1]);
      }
      i := i + 1;
    }
    return None;
  }

  /** parseV1Header, with the loop of split and its callback. */
  method ParseV1Header(p: Parsers, line: bytes) returns (h: Option<Header>)
    requires |line| >= 11
    ensures h == FromFields(p, Fields(line[11..]))
  {
    var buf := line[11..];
    ghost var fs := Fields(buf);
    var srcIP: bytes, destIP: bytes, srcPort, destPort, done := [], [], 0, 0, false;
    var pos := 0;
    var last := false;
    while !last
      invariant pos < |fs| || last
      invariant last ==> pos == |fs|
      invariant !last ==> fs[pos..] == Fields(buf)
      invariant pos > 0 ==> |fs| > 0 && p.ip(fs[0]) == Some(srcIP)
      invariant pos > 1 ==> |fs| > 1 && p.ip(fs[1]) == Some(destIP)
      invariant pos > 2 ==> |fs| > 2 && p.number(fs[2]) == Some(srcPort)
      invariant pos > 3 ==> |fs| > 3 && p.number(fs[3]) == Some(destPort)
      invariant done <==> pos > 3
      decreases !last, |buf|
    {
      var m := IndexOf(buf, SPACE);
      last := m == |buf|;
      var field := buf[..m];
      assert field == fs[pos] by {
        assert last ==> buf[..m] == buf;
        assert fs[pos..][0] == fs[pos];
      }
      assert !last ==> fs[pos+1..] == Fields(buf[m+1..]) by {
        assert fs[pos..][1..] == fs[pos+1..];
      }
      assert last ==> pos + 1 == |fs|;
      if pos == 0 || pos == 1 {
        var ip := p.ip(field);
        if ip.None? {
          return None;
        }
        if pos == 0 {
          srcIP := ip.value;
        } else {
          destIP := ip.value;
        }
      } else if pos == 2 || pos == 3 {
        var port := p.number(field);
        if port.None? {
          return None;
        }
        if pos == 2 {
          srcPort := port.value;
        } else {
          destPort, done := port.value, true;
        }
      }
      pos := pos + 1;
      if !last {
        buf := buf[m+1..];
      }
    }
    if !done {
      return None;
    }
    return Some(Header(Some(Addr(srcIP, srcPort, false)), Some(Addr(destIP, destPort, false)), false, 1, [], []));
  }

  /** What a method that has read the header reports: the header, and the stream left right after it. */
  ghost predicate Reports(want: Option<Parsed>, got: Option<Header>, s: bytes, rest: bytes) {
    if want.Some? then
      got == Some(want.value.header) && want.value.used <= |s| && rest == s[want.value.used..]
    else got.None?
  }

  lemma BufferedOctet(s: bytes, buf: array<byte>, r: ByteSource, idx: nat, i: nat)
    requires ReadSoFar(s, buf, r, idx) && i < idx
    ensures buf[i] == s[i]
  {
    assert buf[..idx][i] == s[..idx][i];
  }

  lemma LineGoesOn(s: bytes, e: nat)
    requires e <= MAX_V1 && !CRLFEndsAt(s, e)
    ensures LineEnd(s, e) == LineEnd(s, e + 1)
  {
  }

  lemma FieldsStart(s: bytes, e: nat)
    requires 11 <= e <= |s|
    ensures s[..e][11..] == s[11..e]
  {
  }

  /** The line is longer than what was read at first: the others one by one. */
  method ReadLongLine(p: Parsers, buf: array<byte>, r: ByteSource, min: nat, ghost s: bytes) returns (h: Option<Header>)
    requires IDENTIFIER_READ <= min <= MAX_V1 && ReadSoFar(s, buf, r, min) && !CRLFEndsAt(s, min)
    modifies buf, r
    ensures var e := LineEnd(s, min);
      if e.Some? then h == FromFields(p, Fields(s[11..e.value-2])) && r.rest == s[e.value..] else h.None?
  {
    LineGoesOn(s, min);
    var line := ReadUntilCRLF(buf, r, min, s);
    if line.None? {
      return None;
    }
    h := ParseV1Header(p, line.value);
    FieldsStart(s, LineEnd(s, min).value - 2);
  }

  /** The TCP lines of readV1Header: `min` octets at first. */
  method ReadTCPLine(p: Parsers, buf: array<byte>, r: ByteSource, min: nat, ghost s: bytes) returns (h: Option<Header>)
    requires min == MIN_TCP4 || min == MIN_TCP6
    requires ReadSoFar(s, buf, r, IDENTIFIER_READ)
    modifies buf, r
    ensures var e := LineEnd(s, min);
      if e.Some? then h == FromFields(p, Fields(s[11..e.value-2])) && r.rest == s[e.value..] else h.None?
  {
    var ok := ReadMore(buf, r, IDENTIFIER_READ, min, s);
    if !ok {
      return None;
    }
    BufferedOctet(s, buf, r, min, min - 2);
    BufferedOctet(s, buf, r, min, min - 1);
    if buf[min-2] == CR && buf[min-1] == LF {
      assert buf[..min-2] == s[..min-2] by {
        assert buf[..min-2] == buf[..min][..min-2];
      }
      h := ParseV1Header(p, buf[..min-2]);
      FieldsStart(s, min - 2);
      return;
    }
    h := ReadLongLine(p, buf, r, min, s);
  }

  lemma BufferedSlice(s: bytes, buf: array<byte>, r: ByteSource, idx: nat, i: nat, j: nat)
    requires ReadSoFar(s, buf, r, idx) && i <= j <= idx
    ensures buf[i..j] == s[i..j]
  {
    forall k | i <= k < j ensures buf[k] == s[k] {
      BufferedOctet(s, buf, r, idx, k);
    }
  }

  method ReadV1Header(p: Parsers, buf: array<byte>, r: ByteSource, ghost s: bytes) returns (h: Option<Header>)
    requires ReadSoFar(s, buf, r, IDENTIFIER_READ)
    modifies buf, r
    ensures Reports(ReadV1(p, s), h, s, r.rest)
  {
    BufferedSlice(s, buf, r, IDENTIFIER_READ, 6, 13);
    BufferedSlice(s, buf, r, IDENTIFIER_READ, 6, 10);
    var unknown, tcp4, tcp6 := buf[6..13] == UNKNOWN_PROTO, buf[6..10] == TCP4, buf[6..10] == TCP6;
    if unknown {
      assert LineStart(s) == Some(14);
      var line := ReadUntilCRLF(buf, r, IDENTIFIER_READ, s);
      if line.None? {
        return None;
      }
      return Some(Header(None, None, true, 1, [], line.value));
    }
    if tcp4 {
      assert LineStart(s) == Some(MIN_TCP4);
      h := ReadTCPLine(p, buf, r, MIN_TCP4, s);
    } else if tcp6 {
      assert LineStart(s) == Some(MIN_TCP6);
      h := ReadTCPLine(p, buf, r, MIN_TCP6, s);
    } else {
      h := None;
    }
  }

  /** The command and family switches of readV2Header. */
  method TranslateV2(command: nat, family: byte, tr: bytes) returns (h: Option<Header>)
    ensures h == V2Body(command, family, tr)
  {
    var header := Header(None, None, false, 2, [], []);
    var offset := 0;
    if command == 0 {
      header := header.(isLocal := true);
      if tr == [] {
        return Some(header);
      }
    } else if command == 1 {
      if tr == [] {
        return None;
      }
      if family == 0x11 || family == 0x12 {
        if |tr| < IPV4_LEN {
          return None;
        }
        var src := Addr(V4(tr[0..4]), Get16(tr[8..10]), family % 16 == 2);
        var dest := Addr(V4(tr[4..8]), Get16(tr[10..12]), family % 16 == 2);
        header := header.(destination := Some(dest), source := Some(src));
        offset := IPV4_LEN;
      } else if family == 0x21 || family == 0x22 {
        if |tr| < IPV6_LEN {
          return None;
        }
        var src := Addr(tr[0..16], Get16(tr[32..34]), family % 16 == 2);
        var dest := Addr(tr[16..32], Get16(tr[34..36]), family % 16 == 2);
        header := header.(destination := Some(dest), source := Some(src));
        offset := IPV6_LEN;
      } else if family == 0x31 || family == 0x32 {
        return None;
      }
    }
    if offset != |tr| {
      header := header.(rawTLVs := tr[offset..]);
    }
    assert tr[0..] == tr && tr[|tr|..] == [];
    return Some(header);
  }

  /** The octets after the length, into a slice of their own. */
  method ReadRemainder(r: ByteSource, length: nat, ghost s: bytes) returns (ok: bool, tr: bytes)
    requires |s| >= 16 && r.rest == s[16..]
    modifies r
    ensures ok <==> |s| >= 16 + length
    ensures ok ==> tr == s[16..16 + length] && r.rest == s[16 + length..]
  {
    ok, tr := true, [];
    if length != 0 {
      var piece := new byte[length];
      ok := r.ReadFull(piece, 0, length);
      if !ok {
        return;
      }
      tr := piece[..];
      assert piece[..0] == [] && piece[..length] == piece[..];
      NextPiece(s, 16, 16 + length);
      assert s[16..][..length] == s[16..16 + length];
    }
  }

  method ReadV2Header(buf: array<byte>, r: ByteSource, ghost s: bytes) returns (h: Option<Header>)
    requires ReadSoFar(s, buf, r, IDENTIFIER_READ)
    modifies buf, r
    ensures Reports(ReadV2(s), h, s, r.rest)
  {
    var ok := ReadMore(buf, r, IDENTIFIER_READ, 16, s);
    if !ok {
      return None;
    }
    BufferedOctet(s, buf, r, 16, 12);
    BufferedOctet(s, buf, r, 16, 13);
    BufferedSlice(s, buf, r, 16, 14, 16);
    var command, family := buf[12], buf[13];
    if command / 16 != 2 {
      return None;
    }
    var length := Get16(buf[14..16]);
    if length > MAX_V2 {
      return None;
    }
    var tr;
    ok, tr := ReadRemainder(r, length, s);
    if !ok {
      return None;
    }
    h := TranslateV2(command % 16, family, tr);
  }

  /** ReadHeader: reads the header the stream starts with, and not one octet more. */
  method ReadHeader(p: Parsers, r: ByteSource) returns (h: Option<Header>)
    modifies r
    ensures Reports(Read(p, old(r.rest)), h, old(r.rest), r.rest)
  {
    ghost var s := r.rest;
    var buf := new byte[BUFFER](_ => 0);
    assert buf[..0] == [] && s[0..] == s;
    var ok := ReadMore(buf, r, 0, IDENTIFIER_READ, s);
    if !ok {
      return None;
    }
    assert V2_IDENTIFIER <= buf[..13] <==> V2_IDENTIFIER <= s by {
      assert s[..13][..12] == s[..12];
    }
    assert V1_IDENTIFIER <= buf[..13] <==> V1_IDENTIFIER <= s by {
      assert s[..13][..6] == s[..6];
    }
    if V2_IDENTIFIER <= buf[..13] {
      h := ReadV2Header(buf, r, s);
    } else if V1_IDENTIFIER <= buf[..13] {
      h := ReadV1Header(p, buf, r, s);
    } else {
      h := None;
    }
  }
}
