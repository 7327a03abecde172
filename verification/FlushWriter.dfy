/**
 * The writer that flushes after each server-sent event or chunk: it flushes when a
 * two-octet pattern is completed, also across writes.
 */
module FlushWriter {
  import opened Bytes

  datatype Pattern = Pattern(first: byte, second: byte)

  /** The pattern occurs with its second octet right before position `e`. */
  predicate OccursBefore(pat: Pattern, s: bytes, e: nat) {
    2 <= e <= |s| && s[e-2] == pat.first && s[e-1] == pat.second
  }

  predicate OccursIn(pat: Pattern, s: bytes) {
    exists e :: 0 <= e <= |s| && OccursBefore(pat, s, e)
  }

  /** The reference: an occurrence in the whole stream ends inside the write. */
  ghost predicate Completes(pat: Pattern, sent: bytes, write: bytes) {
    exists e :: |sent| < e <= |sent + write| && OccursBefore(pat, sent + write, e)
  }

  // ----- the writer

  predicate Flushes(pat: Pattern, last: byte, write: bytes) {
    (last == pat.first && write != [] && write[0] == pat.second) || OccursIn(pat, write)
  }

  /** bytes.LastIndex(p, pattern) != -1 */
  method FindPattern(pat: Pattern, s: bytes) returns (found: bool)
    ensures found == OccursIn(pat, s)
  {
    var e := |s|;
    while e >= 2
      invariant 0 <= e <= |s|
      invariant forall f :: e < f <= |s| ==> !OccursBefore(pat, s, f)
    {
      if s[e-2] == pat.first && s[e-1] == pat.second {
        assert OccursBefore(pat, s, e);
        return true;
      }
      e := e - 1;
    }
    return false;
  }

  class PatternFlushWriter {
    const pattern: Pattern
    var last: byte

    constructor (pattern: Pattern)
      ensures this.pattern == pattern && last == 0
    {
      this.pattern := pattern;
      last := 0;
    }

    /**
     * `n` octets were accepted by the writer below; when it fails nothing else happens.
     * An error of the flush is passed on, after the last octet has been remembered.
     */
    method Write(p: bytes, n: nat, failed: bool, flushFails: bool) returns (flushed: bool, err: bool)
      requires n <= |p| && (n < |p| ==> failed)
      modifies this
      ensures failed ==> !flushed && err && last == old(last)
      ensures !failed ==> flushed == Flushes(pattern, old(last), p) && last == Last([p])
      ensures !failed ==> err == (flushed && flushFails)
    {
      if failed {
        return false, true;
      }
      err := false;
      var found := FindPattern(pattern, p);
      flushed := (last == pattern.first && n > 0 && p[0] == pattern.second) || found;
      if flushed {
        err := flushFails;
      }
      if n > 0 {
        last := p[n-1];
      } else {
        last := 0;
      }
    }
  }

  /** The remembered octet after a number of accepted writes: an empty write forgets it. */
  function Last(writes: seq<bytes>): byte {
    if writes == [] || writes[|writes|-1] == [] then 0
    else var w := writes[|writes|-1]; w[|w|-1]
  }

  // ----- all runs

  predicate EndsWith(s: bytes, b: byte) {
    s != [] && s[|s|-1] == b
  }

  lemma CompletesIff(pat: Pattern, sent: bytes, write: bytes)
    ensures Completes(pat, sent, write)
       <==> OccursIn(pat, write) || (EndsWith(sent, pat.first) && write != [] && write[0] == pat.second)
  {
    var s := sent + write;
    if Completes(pat, sent, write) {
      var e :| |sent| < e <= |s| && OccursBefore(pat, s, e);
      if e >= |sent| + 2 {
        assert OccursBefore(pat, write, e - |sent|);
      }
    }
    if OccursIn(pat, write) {
      var e :| 0 <= e <= |write| && OccursBefore(pat, write, e);
      assert OccursBefore(pat, s, |sent| + e);
    }
    if EndsWith(sent, pat.first) && write != [] && write[0] == pat.second {
      assert OccursBefore(pat, s, |sent| + 1);
    }
  }

  lemma LastOfStream(writes: seq<bytes>)
    requires writes != [] && writes[|writes|-1] != []
    ensures Flatten(writes) != [] && Last(writes) == Flatten(writes)[|Flatten(writes)|-1]
  {
    assert writes == writes[..|writes|-1] + [writes[|writes|-1]];
    FlattenSnoc(writes[..|writes|-1], writes[|writes|-1]);
  }

  /** The writer has forgotten how the stream ends. */
  predicate Forgot(writes: seq<bytes>) {
    writes == [] || writes[|writes|-1] == []
  }

  /**
   * After any sequence of accepted writes, the next one is flushed exactly when it
   * completes an occurrence of the pattern in the stream, except after an empty write
   * or at the start: there, a write that begins with the second octet is decided by
   * whether the first octet of the pattern is zero.
   */
  lemma FlushIsExact(pat: Pattern, writes: seq<bytes>, next: bytes)
    ensures Flushes(pat, Last(writes), next) == Completes(pat, Flatten(writes), next)
       <==> !(&& Forgot(writes)
              && next != [] && next[0] == pat.second && !OccursIn(pat, next)
              && (pat.first == 0) != EndsWith(Flatten(writes), pat.first))
  {
    CompletesIff(pat, Flatten(writes), next);
    if !Forgot(writes) {
      LastOfStream(writes);
    }
  }

  /** Two line feeds with an empty write in between: the event is complete and is not flushed. */
  lemma EmptyWriteHidesEvent()
    ensures var writes: seq<bytes> := [[10], []];
      Completes(Pattern(10, 10), Flatten(writes), [10]) && !Flushes(Pattern(10, 10), Last(writes), [10])
  {
    var writes: seq<bytes> := [[10], []];
    assert writes[1..] == [[]] && writes[1..][1..] == [];
    assert Flatten(writes) == [10];
    CompletesIff(Pattern(10, 10), Flatten(writes), [10]);
    FlushIsExact(Pattern(10, 10), writes, [10]);
  }

  /** With the patterns in use and no empty writes, every completed event is flushed and nothing else is. */
  lemma FlushesEveryEvent(pat: Pattern, writes: seq<bytes>, next: bytes)
    requires pat.first != 0 && forall i :: 0 <= i < |writes| ==> writes[i] != []
    ensures Flushes(pat, Last(writes), next) <==> Completes(pat, Flatten(writes), next)
  {
    FlushIsExact(pat, writes, next);
  }
}
