/**
 * The credentials matcher: four indexes built from a list of host:port entries with
 * wildcards, and the lookup through them, against a plain scan of the list.
 */
module Credentials {
  import opened Bytes

  type User = nat  // url.Userinfo

  datatype Entry = Entry(host: string, port: string, user: User)

  // A nil matcher, or the four indexes.
  datatype Matcher =
    | Nil
    | Indexed(hostport: map<string, User>, host: map<string, User>, port: map<string, User>, global: Option<User>)

  // ----- net.JoinHostPort and net.SplitHostPort

  function JoinHostPort(host: string, port: string): string {
    if ':' in host then "[" + host + "]:" + port else host + ":" + port
  }

  function FirstIndex(s: string, c: char): (k: nat)
    ensures k <= |s| && (k < |s| ==> s[k] == c)
    ensures forall j :: 0 <= j < k ==> s[j] != c
  {
    if s == "" || s[0] == c then 0 else 1 + FirstIndex(s[1..], c)
  }

  function LastIndex(s: string, c: char): (k: int)
    ensures -1 <= k < |s| && (k >= 0 ==> s[k] == c)
    ensures forall j :: k < j < |s| ==> s[j] != c
  {
    if s == "" then -1 else if s[|s|-1] == c then |s| - 1 else LastIndex(s[..|s|-1], c)
  }

  function SplitHostPort(hostport: string): Option<(string, string)> {
    var i := LastIndex(hostport, ':');
    if i < 0 then None
    else if hostport[0] == '[' then
      var end := FirstIndex(hostport, ']');
      if end == |hostport| || end + 1 != i then None
      else if '[' in hostport[1..] || ']' in hostport[end + 1..] then None
      else Some((hostport[1..end], hostport[i + 1..]))
    else if ':' in hostport[..i] || '[' in hostport || ']' in hostport then None
    else Some((hostport[..i], hostport[i + 1..]))
  }

  /** A host without brackets and a port without colons and brackets. */
  predicate Canonical(host: string, port: string) {
    '[' !in host && ']' !in host && ':' !in port && '[' !in port && ']' !in port
  }

  lemma LastIndexIs(s: string, c: char, k: nat)
    requires k < |s| && s[k] == c && c !in s[k+1..]
    ensures LastIndex(s, c) == k
  {
    forall j | k < j < |s| ensures s[j] != c {
      assert s[j] == s[k+1..][j - k - 1];
    }
  }

  lemma FirstIndexIs(s: string, c: char, k: nat)
    requires k < |s| && s[k] == c && c !in s[..k]
    ensures FirstIndex(s, c) == k
  {
    forall j | 0 <= j < k ensures s[j] != c {
      assert s[j] == s[..k][j];
    }
  }

  lemma BracketedShape(host: string, port: string)
    requires Canonical(host, port)
    ensures var s, n := "[" + host + "]:" + port, |host|;
      && |s| == n + 3 + |port| && s[0] == '[' && s[n+1] == ']' && s[n+2] == ':'
      && s[1..n+1] == host && s[n+3..] == port
      && ']' !in s[..n+1] && '[' !in s[1..] && ']' !in s[n+2..]
  {
    var s, n := "[" + host + "]:" + port, |host|;
    assert s[..n+1] == "[" + host;
    assert s[1..] == host + "]:" + port;
    assert s[n+2..] == ":" + port;
  }

  lemma SplitBracketed(s: string, n: nat)
    requires |s| >= n + 3 && s[0] == '[' && s[n+1] == ']' && s[n+2] == ':'
    requires ']' !in s[..n+1] && '[' !in s[1..] && ']' !in s[n+2..] && ':' !in s[n+3..]
    ensures SplitHostPort(s) == Some((s[1..n+1], s[n+3..]))
  {
    LastIndexIs(s, ':', n + 2);
    FirstIndexIs(s, ']', n + 1);
  }

  lemma SplitJoin(host: string, port: string)
    requires Canonical(host, port)
    ensures SplitHostPort(JoinHostPort(host, port)) == Some((host, port))
  {
    if ':' in host {
      BracketedShape(host, port);
      SplitBracketed("[" + host + "]:" + port, |host|);
    } else {
      var s := JoinHostPort(host, port);
      var n := |host|;
      assert s[n] == ':' && s[n+1..] == port && s[..n] == host;
      LastIndexIs(s, ':', n);
      assert s[0] != '[';
    }
  }

  lemma JoinInjective(h1: string, p1: string, h2: string, p2: string)
    requires Canonical(h1, p1) && Canonical(h2, p2) && JoinHostPort(h1, p1) == JoinHostPort(h2, p2)
    ensures h1 == h2 && p1 == p2
  {
    SplitJoin(h1, p1);
    SplitJoin(h2, p2);
  }

  // ----- building

  // Which index an entry goes to, and under which key.
  datatype Key = Global | AnyHost(port: string) | AnyPort(host: string) | Exact(host: string, port: string)

  function KeyOf(e: Entry): Key {
    if e.host == "*" && e.port == "0" then Global
    else if e.host == "*" then AnyHost(e.port)
    else if e.port == "0" then AnyPort(e.host)
    else Exact(e.host, e.port)
  }

  /** Validate accepts only hosts without brackets (domain names, IP addresses, "*") and decimal ports. */
  ghost predicate Sound(valid: Entry -> bool) {
    forall e :: valid(e) ==> Canonical(e.host, e.port)
  }

  function Get(m: Matcher, k: Key): Option<User> {
    if m.Nil? then None
    else match k
      case Global => m.global
      case AnyHost(port) => if port in m.port then Some(m.port[port]) else None
      case AnyPort(host) => if host in m.host then Some(m.host[host]) else None
      case Exact(host, port) =>
        var hostport := JoinHostPort(host, port);
        if hostport in m.hostport then Some(m.hostport[hostport]) else None
  }

  function Put(m: Matcher, e: Entry): Matcher
    requires m.Indexed?
  {
    match KeyOf(e)
    case Global => m.(global := Some(e.user))
    case AnyHost(port) => m.(port := m.port[port := e.user])
    case AnyPort(host) => m.(host := m.host[host := e.user])
    case Exact(host, port) => m.(hostport := m.hostport[JoinHostPort(host, port) := e.user])
  }

  ghost predicate CanonicalKey(k: Key) {
    k.Exact? ==> Canonical(k.host, k.port)
  }

  lemma GetPut(m: Matcher, e: Entry, k: Key)
    requires m.Indexed? && CanonicalKey(k) && CanonicalKey(KeyOf(e))
    ensures Get(Put(m, e), k) == if k == KeyOf(e) then Some(e.user) else Get(m, k)
  {
    if k.Exact? && KeyOf(e).Exact? && JoinHostPort(k.host, k.port) == JoinHostPort(e.host, e.port) {
      JoinInjective(k.host, k.port, e.host, e.port);
    }
  }

  /** The user of the first entry with the given key. */
  function Find(es: seq<Entry>, k: Key): Option<User> {
    if es == [] then None else if KeyOf(es[0]) == k then Some(es[0].user) else Find(es[1..], k)
  }

  ghost predicate AllValid(valid: Entry -> bool, es: seq<Entry>) {
    forall i :: 0 <= i < |es| ==> valid(es[i])
  }

  ghost predicate DistinctKeys(es: seq<Entry>) {
    forall i, j :: 0 <= i < j < |es| ==> KeyOf(es[i]) != KeyOf(es[j])
  }

  lemma {:induction false} FindSnoc(es: seq<Entry>, e: Entry, k: Key)
    ensures Find(es + [e], k) == if Find(es, k).Some? then Find(es, k) else if KeyOf(e) == k then Some(e.user) else None
  {
    if es == [] {
      assert es + [e] == [e];
    } else {
      assert (es + [e])[1..] == es[1..] + [e];
      FindSnoc(es[1..], e, k);
    }
  }

  lemma {:induction false} FindNone(es: seq<Entry>, k: Key)
    ensures Find(es, k).None? <==> forall i :: 0 <= i < |es| ==> KeyOf(es[i]) != k
  {
    if es == [] {
    } else {
      FindNone(es[1..], k);
      assert forall i :: 1 <= i < |es| ==> es[i] == es[1..][i-1];
    }
  }

  /** The string is what JoinHostPort makes of the host and port it splits into. */
  predicate IsJoined(hostport: string) {
    var split := SplitHostPort(hostport);
    split.Some? && hostport == JoinHostPort(split.value.0, split.value.1)
  }

  /** The index knows exactly what a scan of the entries so far would find, under joined strings only. */
  ghost predicate Agrees(m: Matcher, es: seq<Entry>) {
    && (forall k :: CanonicalKey(k) ==> Get(m, k) == Find(es, k))
    && (m.Indexed? ==> forall s :: s in m.hostport ==> IsJoined(s))
  }

  lemma PutJoined(m: Matcher, e: Entry)
    requires m.Indexed? && CanonicalKey(KeyOf(e)) && forall s :: s in m.hostport ==> IsJoined(s)
    ensures forall s :: s in Put(m, e).hostport ==> IsJoined(s)
  {
    if KeyOf(e).Exact? {
      SplitJoin(e.host, e.port);
    }
  }

  lemma AgreesStep(m: Matcher, es: seq<Entry>, e: Entry)
    requires m.Indexed? && Agrees(m, es) && CanonicalKey(KeyOf(e)) && Get(m, KeyOf(e)).None?
    ensures Agrees(Put(m, e), es + [e])
  {
    PutJoined(m, e);
    forall k | CanonicalKey(k) ensures Get(Put(m, e), k) == Find(es + [e], k) {
      GetPut(m, e, k);
      FindSnoc(es, e, k);
    }
  }

  /** One more entry keeps the keys distinct exactly if none before has its key. */
  lemma DistinctSoFar(es: seq<Entry>, i: nat)
    requires i < |es| && DistinctKeys(es[..i])
    ensures Find(es[..i], KeyOf(es[i])).None? ==> DistinctKeys(es[..i+1])
    ensures Find(es[..i], KeyOf(es[i])).Some? ==> !DistinctKeys(es)
  {
    FindNone(es[..i], KeyOf(es[i]));
    assert forall j :: 0 <= j < i ==> es[..i][j] == es[j] == es[..i+1][j];
  }

  /**
   * NewCredentialsMatcher. It fails exactly when an entry is invalid or two entries
   * share a key; otherwise the index agrees with a scan of the list.
   */
  method NewCredentialsMatcher(valid: Entry -> bool, credentials: seq<Entry>) returns (r: Option<Matcher>)
    requires Sound(valid)
    ensures r.Some? <==> AllValid(valid, credentials) && DistinctKeys(credentials)
    ensures r.Some? ==> Agrees(r.value, credentials)
  {
    if |credentials| == 0 {
      return Some(Nil);
    }
    var m := Indexed(map[], map[], map[], None);
    var i := 0;
    while i < |credentials|
      invariant 0 <= i <= |credentials| && m.Indexed?
      invariant AllValid(valid, credentials[..i]) && DistinctKeys(credentials[..i])
      invariant Agrees(m, credentials[..i])
    {
      var e := credentials[i];
      if !valid(e) {
        return None;
      }
      assert Get(m, KeyOf(e)) == Find(credentials[..i], KeyOf(e));
      DistinctSoFar(credentials, i);
      if Get(m, KeyOf(e)).Some? {
        return None;
      }
      assert credentials[..i+1] == credentials[..i] + [e];
      AgreesStep(m, credentials[..i], e);
      m := Put(m, e);
      i := i + 1;
    }
    assert credentials[..i] == credentials;
    return Some(m);
  }

  // ----- matching

  /** Any host on this port, then any port of this host, then global: the order of the code. */
  function PortFirst(es: seq<Entry>, host: string, port: string): Option<User> {
    if Find(es, AnyHost(port)).Some? then Find(es, AnyHost(port))
    else if Find(es, AnyPort(host)).Some? then Find(es, AnyPort(host))
    else Find(es, Global)
  }

  /** The host before the port: the order that the comment on Match states. */
  function HostFirst(es: seq<Entry>, host: string, port: string): Option<User> {
    if Find(es, AnyPort(host)).Some? then Find(es, AnyPort(host))
    else if Find(es, AnyHost(port)).Some? then Find(es, AnyHost(port))
    else Find(es, Global)
  }

  /** The entry for exactly this string; only a joined string can have one. */
  function ExactEntry(es: seq<Entry>, hostport: string): Option<User> {
    var split := SplitHostPort(hostport);
    if IsJoined(hostport) then Find(es, Exact(split.value.0, split.value.1)) else None
  }

  /** A scan of the list for any string: the exact entry, else the wildcards in the given order. */
  function Scan(es: seq<Entry>, hostport: string,
      wildcards: (seq<Entry>, string, string) -> Option<User>): Option<User>
  {
    var split := SplitHostPort(hostport);
    if split.None? then None
    else if ExactEntry(es, hostport).Some? then ExactEntry(es, hostport)
    else wildcards(es, split.value.0, split.value.1)
  }

  /** CredentialsMatcher.Match */
  function Match(m: Matcher, hostport: string): Option<User> {
    if m.Nil? then None
    else if hostport in m.hostport then Some(m.hostport[hostport])
    else
      var split := SplitHostPort(hostport);
      if split.None? then None
      else if split.value.1 in m.port then Some(m.port[split.value.1])
      else if split.value.0 in m.host then Some(m.host[split.value.0])
      else m.global
  }

  /** What a string splits into holds no bracket, and the port no colon. */
  lemma SplitCanonical(hostport: string)
    requires SplitHostPort(hostport).Some?
    ensures Canonical(SplitHostPort(hostport).value.0, SplitHostPort(hostport).value.1)
  {
    var i := LastIndex(hostport, ':');
    if hostport[0] == '[' {
      var end := FirstIndex(hostport, ']');
      assert forall j :: 0 <= j < |hostport[1..end]| ==> hostport[1..end][j] == hostport[1..][j];
      assert hostport[i + 1..] == hostport[end + 1..][1..];
    }
  }

  /** For every string whatever, the indexed lookup is the scan of the list, ports first. */
  lemma MatchIsScan(m: Matcher, es: seq<Entry>, hostport: string)
    requires Agrees(m, es)
    ensures Match(m, hostport) == Scan(es, hostport, PortFirst)
  {
    var split := SplitHostPort(hostport);
    if split.Some? {
      var (host, port) := split.value;
      SplitCanonical(hostport);
      assert Get(m, Exact(host, port)) == Find(es, Exact(host, port));
      assert Get(m, AnyHost(port)) == Find(es, AnyHost(port));
      assert Get(m, AnyPort(host)) == Find(es, AnyPort(host));
      assert Get(m, Global) == Find(es, Global);
    }
  }

  /** For what JoinHostPort writes the exact entry is the one for that host and port. */
  lemma JoinedExact(es: seq<Entry>, host: string, port: string)
    requires Canonical(host, port)
    ensures ExactEntry(es, JoinHostPort(host, port)) == Find(es, Exact(host, port))
  {
    SplitJoin(host, port);
  }

  /**
   * The answer is the documented one unless no exact entry applies but both wildcards
   * do, with different users.
   */
  lemma PriorityAsDocumented(m: Matcher, es: seq<Entry>, hostport: string)
    requires Agrees(m, es)
    ensures Match(m, hostport) == Scan(es, hostport, HostFirst)
       <==> var split := SplitHostPort(hostport);
            || split.None?
            || ExactEntry(es, hostport).Some?
            || Find(es, AnyHost(split.value.1)).None?
            || Find(es, AnyPort(split.value.0)).None?
            || Find(es, AnyHost(split.value.1)) == Find(es, AnyPort(split.value.0))
  {
    MatchIsScan(m, es, hostport);
  }

  lemma TwoEntries(a: User, b: User)
    ensures var es := [Entry("*", "80", a), Entry("abc", "0", b)];
      && Find(es, Exact("abc", "80")).None?
      && Find(es, AnyHost("80")) == Some(a)
      && Find(es, AnyPort("abc")) == Some(b)
  {
    var es := [Entry("*", "80", a), Entry("abc", "0", b)];
    assert es[1..] == [Entry("abc", "0", b)];
    assert "abc"[0] != "*"[0] && "80"[0] != "0"[0];
    assert KeyOf(es[0]) == AnyHost("80") && KeyOf(es[1]) == AnyPort("abc");
    FindNone(es, Exact("abc", "80"));
  }

  /** Such a list: the port of any host wins over the host. */
  lemma PortBeforeHost(m: Matcher, a: User, b: User)
    requires a != b && Agrees(m, [Entry("*", "80", a), Entry("abc", "0", b)])
    ensures Match(m, "abc:80") == Some(a)
    ensures Scan([Entry("*", "80", a), Entry("abc", "0", b)], "abc:80", HostFirst) == Some(b)
  {
    var es := [Entry("*", "80", a), Entry("abc", "0", b)];
    TwoEntries(a, b);
    assert JoinHostPort("abc", "80") == "abc:80";
    SplitJoin("abc", "80");
    JoinedExact(es, "abc", "80");
    MatchIsScan(m, es, "abc:80");
  }

  // ----- the order of the list does not matter

  lemma {:induction false} FindMember(es: seq<Entry>, i: nat)
    requires i < |es| && DistinctKeys(es)
    ensures Find(es, KeyOf(es[i])) == Some(es[i].user)
  {
    if i == 0 {
    } else {
      FindMember(es[1..], i - 1);
    }
  }

  lemma {:induction false} MemberTwice(es: seq<Entry>, i: nat, j: nat)
    requires i < j < |es| && es[i] == es[j]
    ensures multiset(es)[es[i]] >= 2
  {
    assert es == es[..j] + es[j..];
    assert es[i] in es[..j] && es[j] in es[j..];
    assert multiset(es) == multiset(es[..j]) + multiset(es[j..]);
  }

  lemma {:induction false} DistinctOnce(es: seq<Entry>, e: Entry)
    requires DistinctKeys(es)
    ensures multiset(es)[e] <= 1
  {
    if es == [] {
    } else {
      assert es == [es[0]] + es[1..];
      DistinctOnce(es[1..], e);
      assert es[0] !in es[1..] by {
        assert forall i :: 0 <= i < |es[1..]| ==> KeyOf(es[1..][i]) != KeyOf(es[0]);
      }
    }
  }

  lemma SameMembers(es: seq<Entry>, fs: seq<Entry>, e: Entry)
    requires multiset(es) == multiset(fs)
    ensures e in es <==> e in fs
  {
    assert e in es <==> e in multiset(es);
    assert e in fs <==> e in multiset(fs);
  }

  /** A permutation of an accepted list is accepted. */
  lemma PermutationDistinct(es: seq<Entry>, fs: seq<Entry>)
    requires DistinctKeys(es) && multiset(es) == multiset(fs)
    ensures DistinctKeys(fs)
  {
    forall i, j | 0 <= i < j < |fs| ensures KeyOf(fs[i]) != KeyOf(fs[j]) {
      SameMembers(es, fs, fs[i]);
      SameMembers(es, fs, fs[j]);
      var a :| 0 <= a < |es| && es[a] == fs[i];
      var b :| 0 <= b < |es| && es[b] == fs[j];
      if a == b {
        MemberTwice(fs, i, j);
        DistinctOnce(es, fs[i]);
      }
    }
  }

  /** And it finds the same entries. */
  lemma PermutationFindsTheSame(es: seq<Entry>, fs: seq<Entry>, k: Key)
    requires DistinctKeys(es) && multiset(es) == multiset(fs)
    ensures Find(fs, k) == Find(es, k)
  {
    PermutationDistinct(es, fs);
    FindNone(es, k);
    FindNone(fs, k);
    if Find(es, k).Some? {
      var i :| 0 <= i < |es| && KeyOf(es[i]) == k;
      SameMembers(es, fs, es[i]);
      var j :| 0 <= j < |fs| && fs[j] == es[i];
      FindMember(es, i);
      FindMember(fs, j);
    } else if Find(fs, k).Some? {
      var j :| 0 <= j < |fs| && KeyOf(fs[j]) == k;
      SameMembers(es, fs, fs[j]);
    }
  }

  /** Reordering the credentials never changes an answer, for any string. */
  lemma OrderDoesNotMatter(m: Matcher, es: seq<Entry>, n: Matcher, fs: seq<Entry>, hostport: string)
    requires DistinctKeys(es) && multiset(es) == multiset(fs) && Agrees(m, es) && Agrees(n, fs)
    ensures Match(m, hostport) == Match(n, hostport)
  {
    MatchIsScan(m, es, hostport);
    MatchIsScan(n, fs, hostport);
    var split := SplitHostPort(hostport);
    if split.Some? {
      var (host, port) := split.value;
      PermutationFindsTheSame(es, fs, Exact(host, port));
      PermutationFindsTheSame(es, fs, AnyHost(port));
      PermutationFindsTheSame(es, fs, AnyPort(host));
      PermutationFindsTheSame(es, fs, Global);
    }
  }
}
