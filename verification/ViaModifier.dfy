/**
 * Loop detection by the Via header (section 5.7.1 of RFC 7230): every proxy adds its
 * protocol version and its tag, and refuses a request whose header holds its tag.
 */
module ViaModifier {

  /** A proxy on the path: its tag, and the protocol version of the request it received, as text. */
  datatype Hop = Hop(tag: string, proto: string)

  predicate OccursAt(s: string, t: string, i: nat) {
    i + |t| <= |s| && s[i..i + |t|] == t
  }

  /** strings.Contains */
  predicate Contains(s: string, t: string) {
    exists i :: 0 <= i <= |s| && OccursAt(s, t, i)
  }

  function Element(h: Hop): string {
    h.proto + " " + h.tag
  }

  function Appended(via: string, h: Hop): string {
    if via == "" then Element(h) else via + "," + (" " + Element(h))
  }

  predicate Refuses(via: string, h: Hop) {
    via != "" && Contains(via, h.tag)
  }

  /** ModifyRequest; a refusal answers with status 400 and leaves the header alone. */
  method ModifyRequest(via: string, h: Hop) returns (refused: bool, header: string)
    ensures refused == Refuses(via, h)
    ensures header == if refused then via else Appended(via, h)
  {
    header := via;
    var sb := "";
    if via != "" {
      if Contains(via, h.tag) {
        return true, via;
      }
      sb := sb + via;
      sb := sb + ", ";
      assert sb == via + "," + " ";
    }
    sb := sb + h.proto;
    sb := sb + " ";
    sb := sb + h.tag;
    assert via != "" ==> sb == via + "," + (" " + Element(h));
    assert via == "" ==> sb == Element(h);
    return false, sb;
  }

  /** The header after a path, starting from the client's own. */
  function ViaAfter(via: string, hops: seq<Hop>): string {
    if hops == [] then via else Appended(ViaAfter(via, hops[..|hops|-1]), hops[|hops|-1])
  }

  /** Whether the k-th proxy of the path refuses the request. */
  ghost predicate RefusedAt(via: string, hops: seq<Hop>, k: nat)
    requires k < |hops|
  {
    Refuses(ViaAfter(via, hops[..k]), hops[k])
  }

  // ----- substrings

  lemma ContainsIn(a: string, s: string, b: string, t: string)
    requires Contains(s, t)
    ensures Contains(a + s + b, t)
  {
    var i :| 0 <= i <= |s| && OccursAt(s, t, i);
    var j := |a| + i;
    assert (a + s + b)[j..j + |t|] == s[i..i + |t|];
    assert OccursAt(a + s + b, t, j);
  }

  lemma ContainsItself(t: string)
    ensures Contains(t, t)
  {
    assert t[0..|t|] == t;
    assert OccursAt(t, t, 0);
  }

  /** An occurrence does not cover a character that the text does not hold. */
  lemma NotCovered(s: string, t: string, i: nat, k: nat)
    requires OccursAt(s, t, i) && k < |s| && s[k] !in t
    ensures k < i || i + |t| <= k
  {
    assert forall d :: 0 <= d < |t| ==> t[d] == s[i..i + |t|][d] == s[i + d];
  }

  /** An occurrence of a text without `c` cannot span a `c`. */
  lemma ContainsAround(a: string, c: char, b: string, t: string)
    requires t != "" && c !in t
    ensures Contains(a + [c] + b, t) <==> Contains(a, t) || Contains(b, t)
  {
    var s := a + [c] + b;
    if Contains(a, t) {
      ContainsIn("", a, [c] + b, t);
      assert "" + a + ([c] + b) == s;
    }
    if Contains(b, t) {
      ContainsIn(a + [c], b, "", t);
      assert a + [c] + b + "" == s;
    }
    if Contains(s, t) {
      var i :| 0 <= i <= |s| && OccursAt(s, t, i);
      assert s[|a|] == c;
      NotCovered(s, t, i, |a|);
      if i + |t| <= |a| {
        assert a[i..i + |t|] == s[i..i + |t|];
        assert OccursAt(a, t, i);
      } else {
        var j := i - |a| - 1;
        assert b[j..j + |t|] == s[i..i + |t|];
        assert OccursAt(b, t, j);
      }
    }
  }

  // ----- loops are found

  lemma {:induction false} TagStays(via: string, hops: seq<Hop>, j: nat)
    requires j < |hops|
    ensures ViaAfter(via, hops) != "" && Contains(ViaAfter(via, hops), hops[j].tag)
  {
    var h := hops[|hops|-1];
    var before := ViaAfter(via, hops[..|hops|-1]);
    if j == |hops| - 1 {
      ContainsItself(h.tag);
      ContainsIn((if before == "" then "" else before + "," + " ") + h.proto + " ", h.tag, "", h.tag);
      assert Appended(before, h) == (if before == "" then "" else before + "," + " ") + h.proto + " " + h.tag + "";
    } else {
      TagStays(via, hops[..|hops|-1], j);
      ContainsIn("", before, "," + (" " + Element(h)), hops[j].tag);
      assert Appended(before, h) == "" + before + ("," + (" " + Element(h)));
    }
  }

  /** A request that comes back to a proxy it has passed is refused there, whatever lies between. */
  lemma RevisitIsRefused(via: string, hops: seq<Hop>, j: nat, k: nat)
    requires j < k < |hops| && hops[j].tag == hops[k].tag
    ensures RefusedAt(via, hops, k)
  {
    TagStays(via, hops[..k], j);
  }

  // ----- and nothing else is refused

  /** The tag could not be mistaken across the separators of the header. */
  predicate Plain(tag: string) {
    tag != "" && ' ' !in tag && ',' !in tag
  }

  lemma ElementContains(h: Hop, t: string)
    requires Plain(t)
    ensures Contains(Element(h), t) <==> Contains(h.proto, t) || Contains(h.tag, t)
  {
    ContainsAround(h.proto, ' ', h.tag, t);
    assert h.proto + [' '] + h.tag == Element(h);
  }

  lemma AppendedContains(via: string, h: Hop, t: string)
    requires Plain(t)
    ensures Contains(Appended(via, h), t) <==> Contains(via, t) || Contains(h.proto, t) || Contains(h.tag, t)
  {
    ElementContains(h, t);
    ContainsAround(via, ',', " " + Element(h), t);
    ContainsAround("", ' ', Element(h), t);
    assert "" + [' '] + Element(h) == " " + Element(h);
    assert via + [','] + (" " + Element(h)) == via + "," + (" " + Element(h));
    assert !Contains("", t);
  }

  /** A tag is in the header exactly if the client or some proxy has put it there. */
  lemma {:induction false} ViaContains(via: string, hops: seq<Hop>, t: string)
    requires Plain(t)
    ensures Contains(ViaAfter(via, hops), t)
       <==> Contains(via, t) || exists j :: 0 <= j < |hops| && (Contains(hops[j].proto, t) || Contains(hops[j].tag, t))
  {
    if hops == [] {
    } else {
      var n := |hops| - 1;
      ViaContains(via, hops[..n], t);
      AppendedContains(ViaAfter(via, hops[..n]), hops[n], t);
      assert forall j :: 0 <= j < n ==> hops[..n][j] == hops[j];
    }
  }

  lemma SameLength(s: string, t: string)
    requires |s| == |t|
    ensures Contains(s, t) <==> s == t
  {
    if Contains(s, t) {
      var i :| 0 <= i <= |s| && OccursAt(s, t, i);
      assert s[0..|s|] == s;
    } else {
      if s == t {
        ContainsItself(t);
      }
    }
  }

  lemma ContainsItsChars(s: string, t: string, c: char)
    requires Contains(s, t) && c in t
    ensures c in s
  {
    var i :| 0 <= i <= |s| && OccursAt(s, t, i);
    var d :| 0 <= d < |t| && t[d] == c;
    assert s[i..i + |t|][d] == s[i + d];
  }

  lemma NotInProto(proto: string, t: string)
    requires '-' in t && '-' !in proto
    ensures !Contains(proto, t)
  {
    if Contains(proto, t) {
      ContainsItsChars(proto, t, '-');
    }
  }

  /** An occurrence of the text ends in what the proxy has appended; it may begin before that. */
  ghost predicate WrittenBy(before: string, h: Hop, t: string) {
    exists i :: 0 <= i <= |Appended(before, h)| && |before| < i + |t| && OccursAt(Appended(before, h), t, i)
  }

  lemma AppendedSplits(before: string, h: Hop, t: string)
    ensures Contains(Appended(before, h), t) <==> (before != "" && Contains(before, t)) || WrittenBy(before, h, t)
  {
    var after := Appended(before, h);
    assert before <= after && |before| < |after|;
    if before != "" && Contains(before, t) {
      var i :| 0 <= i <= |before| && OccursAt(before, t, i);
      assert after[i..i + |t|] == before[i..i + |t|];
      assert OccursAt(after, t, i);
    }
    if t == "" {
      assert OccursAt(after, t, |before| + 1);
    } else if Contains(after, t) {
      var i :| 0 <= i <= |after| && OccursAt(after, t, i);
      if i + |t| <= |before| {
        assert before[i..i + |t|] == after[i..i + |t|];
        assert OccursAt(before, t, i);
      }
    }
  }

  /** The j-th proxy of the path has completed the text in the header. */
  ghost predicate CompletedAt(via: string, hops: seq<Hop>, j: nat, t: string)
    requires j < |hops|
  {
    WrittenBy(ViaAfter(via, hops[..j]), hops[j], t)
  }

  lemma CompletedBefore(via: string, hops: seq<Hop>, k: nat, j: nat, t: string)
    requires j < k <= |hops|
    ensures CompletedAt(via, hops[..k], j, t) <==> CompletedAt(via, hops, j, t)
  {
    assert hops[..k][..j] == hops[..j];
  }

  lemma {:induction false} ViaSplits(via: string, hops: seq<Hop>, t: string)
    ensures ViaAfter(via, hops) != "" && Contains(ViaAfter(via, hops), t)
       <==> (via != "" && Contains(via, t)) || exists j :: 0 <= j < |hops| && CompletedAt(via, hops, j, t)
  {
    if hops == [] {
    } else {
      var n := |hops| - 1;
      ViaSplits(via, hops[..n], t);
      AppendedSplits(ViaAfter(via, hops[..n]), hops[n], t);
      forall j | 0 <= j < n ensures CompletedAt(via, hops[..n], j, t) <==> CompletedAt(via, hops, j, t) {
        CompletedBefore(via, hops, n, j, t);
      }
      assert CompletedAt(via, hops, n, t) <==> WrittenBy(ViaAfter(via, hops[..n]), hops[n], t);
    }
  }

  /**
   * Exactly which requests a proxy refuses, whatever its tag: those whose client wrote
   * the tag, and those in whose header it was completed by a proxy before.
   */
  lemma RefusedExactly(via: string, hops: seq<Hop>, k: nat)
    requires k < |hops|
    ensures RefusedAt(via, hops, k)
       <==> (via != "" && Contains(via, hops[k].tag))
            || exists j :: 0 <= j < k && CompletedAt(via, hops, j, hops[k].tag)
  {
    ViaSplits(via, hops[..k], hops[k].tag);
    forall j | 0 <= j < k
      ensures CompletedAt(via, hops[..k], j, hops[k].tag) <==> CompletedAt(via, hops, j, hops[k].tag) {
      CompletedBefore(via, hops, k, j, hops[k].tag);
    }
  }

  /** A separator-free text that a proxy has completed is in its protocol or its tag. */
  lemma WrittenPlain(before: string, h: Hop, t: string)
    requires Plain(t)
    ensures WrittenBy(before, h, t) ==> Contains(h.proto, t) || Contains(h.tag, t)
  {
    if WrittenBy(before, h, t) {
      var after := Appended(before, h);
      var i :| 0 <= i <= |after| && |before| < i + |t| && OccursAt(after, t, i);
      if before == "" {
        ElementContains(h, t);
      } else {
        var own := " " + Element(h);
        assert after == before + "," + own;
        var k := |before|;
        NotCovered(after, t, i, k);
        assert own[i - k - 1..i - k - 1 + |t|] == after[i..i + |t|];
        assert OccursAt(own, t, i - k - 1);
        ContainsAround("", ' ', Element(h), t);
        assert "" + [' '] + Element(h) == own;
        assert !Contains("", t);
        ElementContains(h, t);
      }
    }
  }

  /** The request has passed the k-th proxy before. */
  ghost predicate Revisited(hops: seq<Hop>, k: nat)
    requires k < |hops|
  {
    exists j :: 0 <= j < k && hops[j].tag == hops[k].tag
  }

  /** The client wrote the tag, or a proxy with another tag completed it. */
  ghost predicate FalseAlarm(via: string, hops: seq<Hop>, k: nat)
    requires k < |hops|
  {
    || (via != "" && Contains(via, hops[k].tag))
    || exists j :: 0 <= j < k && hops[j].tag != hops[k].tag && CompletedAt(via, hops, j, hops[k].tag)
  }

  /** A request is refused exactly if it has passed the proxy before, or on a false alarm. */
  lemma RefusedIffRevisited(via: string, hops: seq<Hop>, k: nat)
    requires k < |hops|
    ensures RefusedAt(via, hops, k) <==> Revisited(hops, k) || FalseAlarm(via, hops, k)
  {
    RefusedExactly(via, hops, k);
    if Revisited(hops, k) {
      var j :| 0 <= j < k && hops[j].tag == hops[k].tag;
      RevisitIsRefused(via, hops, j, k);
    }
  }

  /** Separator-free tags with a hyphen, none of them inside another, and plain protocol versions. */
  ghost predicate Distinguishable(hops: seq<Hop>) {
    && (forall i :: 0 <= i < |hops| ==> Plain(hops[i].tag) && '-' in hops[i].tag && '-' !in hops[i].proto)
    && (forall i, j :: 0 <= i < |hops| && 0 <= j < |hops| && Contains(hops[i].tag, hops[j].tag)
          ==> hops[i].tag == hops[j].tag)
  }

  /** With distinguishable tags and a client that does not send the tag, there are no false alarms. */
  lemma NoFalseAlarm(via: string, hops: seq<Hop>, k: nat)
    requires k < |hops| && Distinguishable(hops) && !Contains(via, hops[k].tag)
    ensures !FalseAlarm(via, hops, k)
  {
    var t := hops[k].tag;
    forall j | 0 <= j < k && hops[j].tag != t ensures !CompletedAt(via, hops, j, t) {
      WrittenPlain(ViaAfter(via, hops[..j]), hops[j], t);
      NotInProto(hops[j].proto, t);
    }
  }

  /** So there are none among proxies whose tags have one length, as those with the same name do. */
  lemma NoFalseAlarmAmongAlike(via: string, hops: seq<Hop>, k: nat)
    requires k < |hops| && !Contains(via, hops[k].tag)
    requires forall i :: 0 <= i < |hops| ==> Plain(hops[i].tag) && '-' in hops[i].tag && '-' !in hops[i].proto
    requires forall i :: 0 <= i < |hops| ==> |hops[i].tag| == |hops[k].tag|
    ensures !FalseAlarm(via, hops, k)
  {
    forall i, j | 0 <= i < |hops| && 0 <= j < |hops| && Contains(hops[i].tag, hops[j].tag)
      ensures hops[i].tag == hops[j].tag
    {
      SameLength(hops[i].tag, hops[j].tag);
    }
    NoFalseAlarm(via, hops, k);
  }

  /** The proxy a-1 refuses a request that has only passed the proxy a-12. */
  lemma LongerTagIsMistaken()
    ensures RefusedAt("", [Hop("a-12", "1.1"), Hop("a-1", "1.1")], 1)
  {
    var hops := [Hop("a-12", "1.1"), Hop("a-1", "1.1")];
    var via := "1.1 a-12";
    assert hops[..1] == [hops[0]] && hops[..1][..0] == [];
    assert ViaAfter("", hops[..1]) == Element(hops[0]) == via;
    assert via[4..7] == "a-1";
    assert OccursAt(via, "a-1", 4);
  }
}
