/**
 * Modifier groups: lists of modifiers run first-in first-out, nested to any depth,
 * that stop at the first error or collect all of them. ToImmutable flattens a
 * group; the theorems say that this changes nothing a caller can observe.
 */
module FifoGroup {
  import opened Bytes

  type ModifierId = nat
  type Error = nat

  datatype Side = Request | Response

  datatype Modifier = Single(id: ModifierId) | Nested(group: Group)

  /** `frozen` tells an ImmutableGroup from a Group. */
  datatype Group = Group(reqmods: seq<Modifier>, resmods: seq<Modifier>, aggregateErrors: bool, frozen: bool) {
    function Mods(side: Side): seq<Modifier> {
      if side.Request? then reqmods else resmods
    }
  }

  // ----- running

  /**
   * What a run leaves behind: the message, the single modifiers that ran, in order,
   * and the errors, with nested multi-errors spliced in. No errors stands for nil.
   */
  datatype Outcome<S> = Outcome(message: S, ran: seq<ModifierId>, errors: seq<Error>)

  // What the single modifiers do is arbitrary.
  type Behaviour<!S> = (ModifierId, S) -> (S, seq<Error>)

  function Then<S>(a: Outcome<S>, b: Outcome<S>): Outcome<S> {
    Outcome(b.message, a.ran + b.ran, a.errors + b.errors)
  }

  function RunOne<S>(act: Behaviour<S>, side: Side, m: Modifier, s: S): Outcome<S>
    decreases m, 0
  {
    match m
    case Single(id) => var (t, errors) := act(id, s); Outcome(t, [id], errors)
    case Nested(g) => RunAll(act, side, g.Mods(side), g.aggregateErrors, s)
  }

  function RunAll<S>(act: Behaviour<S>, side: Side, mods: seq<Modifier>, aggregate: bool, s: S): Outcome<S>
    decreases mods, 1
  {
    if mods == [] then Outcome(s, [], [])
    else
      var r := RunOne(act, side, mods[0], s);
      if r.errors != [] && !aggregate then r
      else Then(r, RunAll(act, side, mods[1..], aggregate, r.message))
  }

  function Run<S>(act: Behaviour<S>, side: Side, g: Group, s: S): Outcome<S> {
    RunOne(act, side, Nested(g), s)
  }

  // ----- flattening

  function ToImmutable(g: Group): Group
    decreases g, 2
  {
    Group(Flattened(Request, g.reqmods, g.aggregateErrors), Flattened(Response, g.resmods, g.aggregateErrors),
          g.aggregateErrors, true)
  }

  function FlattenOne(side: Side, m: Modifier, aggregate: bool): seq<Modifier>
    decreases m, 0
  {
    if m.Nested? && !m.group.frozen then
      var im := ToImmutable(m.group);
      if aggregate == im.aggregateErrors then im.Mods(side) else [Nested(im)]
    else [m]
  }

  function Flattened(side: Side, mods: seq<Modifier>, aggregate: bool): seq<Modifier>
    decreases mods, 1
  {
    if mods == [] then [] else FlattenOne(side, mods[0], aggregate) + Flattened(side, mods[1..], aggregate)
  }

  // ----- the code's loops

  /** group.ModifyRequest and group.ModifyResponse. */
  method Modify<S>(act: Behaviour<S>, side: Side, g: Group, s: S) returns (r: Outcome<S>)
    ensures r == Run(act, side, g, s)
    decreases g
  {
    var mods := g.Mods(side);
    var message, ran, merr := s, [], [];
    var i := 0;
    while i < |mods|
      invariant 0 <= i <= |mods|
      invariant !g.aggregateErrors ==> merr == []
      invariant Run(act, side, g, s)
             == Then(Outcome(message, ran, merr), RunAll(act, side, mods[i..], g.aggregateErrors, message))
    {
      ghost var sofar := Outcome(message, ran, merr);
      var one := ModifyOne(act, side, g, mods[i], message);
      assert mods[i..][1..] == mods[i+1..];
      if one.errors != [] {
        if g.aggregateErrors {
          merr := merr + one.errors;
          message, ran := one.message, ran + one.ran;
        } else {
          return Outcome(one.message, ran + one.ran, one.errors);
        }
      } else {
        message, ran := one.message, ran + one.ran;
        assert merr + [] == merr;
      }
      ThenAssoc(sofar, one, RunAll(act, side, mods[i+1..], g.aggregateErrors, one.message));
      i := i + 1;
    }
    assert ran + [] == ran && merr + [] == merr;
    r := Outcome(message, ran, merr);
  }

  lemma ThenAssoc<S>(a: Outcome<S>, b: Outcome<S>, c: Outcome<S>)
    ensures Then(a, Then(b, c)) == Then(Then(a, b), c)
  {
  }

  method ModifyOne<S>(act: Behaviour<S>, side: Side, ghost parent: Group, m: Modifier, s: S) returns (r: Outcome<S>)
    requires m in parent.Mods(side)
    ensures r == RunOne(act, side, m, s)
    decreases parent, 0, m
  {
    match m
    case Single(id) =>
      var (t, errors) := act(id, s);
      r := Outcome(t, [id], errors);
    case Nested(inner) =>
      r := Modify(act, side, inner, s);
  }

  /** One of the two loops of Group.ToImmutable. */
  method FlattenMods(side: Side, g: Group) returns (mods: seq<Modifier>)
    ensures mods == Flattened(side, g.Mods(side), g.aggregateErrors)
    decreases g, 0
  {
    var all := g.Mods(side);
    mods := [];
    var i := 0;
    while i < |all|
      invariant 0 <= i <= |all|
      invariant Flattened(side, all, g.aggregateErrors) == mods + Flattened(side, all[i..], g.aggregateErrors)
    {
      var m := all[i];
      assert all[i..][1..] == all[i+1..];
      var more := [m];
      if m.Nested? && !m.group.frozen {
        var im := ToImmutableGroup(m.group);
        if g.aggregateErrors == im.aggregateErrors {
          more := im.Mods(side);
        } else {
          more := [Nested(im)];
        }
      }
      ConcatAssoc(mods, more, Flattened(side, all[i+1..], g.aggregateErrors));
      mods := mods + more;
      i := i + 1;
    }
    assert mods + [] == mods;
  }

  method ToImmutableGroup(g: Group) returns (im: Group)
    ensures im == ToImmutable(g)
    decreases g, 1
  {
    var reqmods := FlattenMods(Request, g);
    var resmods := FlattenMods(Response, g);
    im := Group(reqmods, resmods, g.aggregateErrors, true);
  }

  // ----- flattening preserves meaning

  lemma {:induction false} RunConcat<S>(
      act: Behaviour<S>, side: Side, a: seq<Modifier>, b: seq<Modifier>, aggregate: bool, s: S)
    ensures var r := RunAll(act, side, a, aggregate, s);
      RunAll(act, side, a + b, aggregate, s)
      == if r.errors != [] && !aggregate then r else Then(r, RunAll(act, side, b, aggregate, r.message))
    decreases |a|
  {
    if a == [] {
      assert a + b == b;
      var t := RunAll(act, side, b, aggregate, s);
      assert [] + t.ran == t.ran && [] + t.errors == t.errors;
    } else {
      assert (a + b)[1..] == a[1..] + b;
      var r := RunOne(act, side, a[0], s);
      if r.errors == [] || aggregate {
        RunConcat(act, side, a[1..], b, aggregate, r.message);
        var t := RunAll(act, side, a[1..], aggregate, r.message);
        ThenAssoc(r, t, RunAll(act, side, b, aggregate, t.message));
      }
    }
  }

  lemma RunSingleton<S>(act: Behaviour<S>, side: Side, m: Modifier, aggregate: bool, s: S)
    ensures RunAll(act, side, [m], aggregate, s) == RunOne(act, side, m, s)
  {
    var r := RunOne(act, side, m, s);
    assert [m][1..] == [];
    assert r.ran + [] == r.ran && r.errors + [] == r.errors;
  }

  lemma {:induction false} FlattenOneSame<S>(act: Behaviour<S>, side: Side, m: Modifier, aggregate: bool, s: S)
    ensures RunAll(act, side, FlattenOne(side, m, aggregate), aggregate, s) == RunOne(act, side, m, s)
    decreases m, 0
  {
    if m.Nested? && !m.group.frozen {
      var g := m.group;
      FlattenedSame(act, side, g.Mods(side), g.aggregateErrors, s);
      RunSingleton(act, side, Nested(ToImmutable(g)), aggregate, s);
    } else {
      RunSingleton(act, side, m, aggregate, s);
    }
  }

  lemma {:induction false} FlattenedSame<S>(act: Behaviour<S>, side: Side, mods: seq<Modifier>, aggregate: bool, s: S)
    ensures RunAll(act, side, Flattened(side, mods, aggregate), aggregate, s) == RunAll(act, side, mods, aggregate, s)
    decreases mods, 1
  {
    if mods == [] {
    } else {
      var r := RunOne(act, side, mods[0], s);
      FlattenOneSame(act, side, mods[0], aggregate, s);
      FlattenedSame(act, side, mods[1..], aggregate, r.message);
      RunConcat(act, side, FlattenOne(side, mods[0], aggregate), Flattened(side, mods[1..], aggregate), aggregate, s);
    }
  }

  /**
   * For any nesting and any mix of the two error modes, on either side and from any
   * message: the flattened group leaves the same message, runs the same modifiers in
   * the same order and returns the same errors.
   */
  lemma FlatteningPreservesMeaning<S>(act: Behaviour<S>, side: Side, g: Group, s: S)
    ensures Run(act, side, ToImmutable(g), s) == Run(act, side, g, s)
  {
    FlattenedSame(act, side, g.Mods(side), g.aggregateErrors, s);
  }

  // ----- and leaves nothing more to flatten

  /** No Group is left at any depth. */
  ghost predicate DeepFrozen(mods: seq<Modifier>)
    decreases mods, 1
  {
    forall i :: 0 <= i < |mods| ==> DeepFrozenOne(mods[i])
  }

  ghost predicate DeepFrozenOne(m: Modifier)
    decreases m, 0
  {
    m.Nested? ==> m.group.frozen && DeepFrozen(m.group.reqmods) && DeepFrozen(m.group.resmods)
  }

  /** ImmutableGroups come from ToImmutable only, so they hold no Group. */
  ghost predicate Buildable(mods: seq<Modifier>)
    decreases mods, 1
  {
    forall i :: 0 <= i < |mods| ==> BuildableOne(mods[i])
  }

  ghost predicate BuildableOne(m: Modifier)
    decreases m, 0
  {
    m.Nested? ==>
      if m.group.frozen then DeepFrozenOne(m)
      else Buildable(m.group.reqmods) && Buildable(m.group.resmods)
  }

  lemma {:induction false} FlattenOneFreezes(side: Side, m: Modifier, aggregate: bool)
    requires BuildableOne(m)
    ensures DeepFrozen(FlattenOne(side, m, aggregate))
    decreases m, 0
  {
    if !m.Nested? || m.group.frozen {
    } else {
      FlattenedFreezes(Request, m.group.reqmods, m.group.aggregateErrors);
      FlattenedFreezes(Response, m.group.resmods, m.group.aggregateErrors);
    }
  }

  lemma {:induction false} FlattenedFreezes(side: Side, mods: seq<Modifier>, aggregate: bool)
    requires Buildable(mods)
    ensures DeepFrozen(Flattened(side, mods, aggregate))
    decreases mods, 1
  {
    if mods == [] {
    } else {
      FlattenOneFreezes(side, mods[0], aggregate);
      FlattenedFreezes(side, mods[1..], aggregate);
    }
  }

  /** No Group survives in the result, however deep it was nested. */
  lemma ToImmutableFreezes(g: Group)
    requires Buildable(g.reqmods) && Buildable(g.resmods)
    ensures DeepFrozenOne(Nested(ToImmutable(g)))
  {
    FlattenedFreezes(Request, g.reqmods, g.aggregateErrors);
    FlattenedFreezes(Response, g.resmods, g.aggregateErrors);
  }

  ghost predicate NoneFrozen(mods: seq<Modifier>)
    decreases mods, 1
  {
    forall i :: 0 <= i < |mods| ==> NoneFrozenOne(mods[i])
  }

  ghost predicate NoneFrozenOne(m: Modifier)
    decreases m, 0
  {
    m.Nested? ==> !m.group.frozen && NoneFrozen(m.group.reqmods) && NoneFrozen(m.group.resmods)
  }

  /** Every nested group has the error mode its parent does not have. */
  ghost predicate Alternating(mods: seq<Modifier>, aggregate: bool)
    decreases mods, 1
  {
    forall i :: 0 <= i < |mods| ==> AlternatingOne(mods[i], aggregate)
  }

  ghost predicate AlternatingOne(m: Modifier, aggregate: bool)
    decreases m, 0
  {
    m.Nested? ==>
      && m.group.aggregateErrors != aggregate
      && Alternating(m.group.reqmods, m.group.aggregateErrors)
      && Alternating(m.group.resmods, m.group.aggregateErrors)
  }

  lemma {:induction false} FlattenOneAlternates(side: Side, m: Modifier, aggregate: bool)
    requires NoneFrozenOne(m)
    ensures Alternating(FlattenOne(side, m, aggregate), aggregate)
    decreases m, 0
  {
    if !m.Nested? {
    } else {
      FlattenedAlternates(Request, m.group.reqmods, m.group.aggregateErrors);
      FlattenedAlternates(Response, m.group.resmods, m.group.aggregateErrors);
    }
  }

  /** Groups of the same mode are always merged, at every depth. */
  lemma {:induction false} FlattenedAlternates(side: Side, mods: seq<Modifier>, aggregate: bool)
    requires NoneFrozen(mods)
    ensures Alternating(Flattened(side, mods, aggregate), aggregate)
    decreases mods, 1
  {
    if mods == [] {
    } else {
      FlattenOneAlternates(side, mods[0], aggregate);
      FlattenedAlternates(side, mods[1..], aggregate);
    }
  }
}
