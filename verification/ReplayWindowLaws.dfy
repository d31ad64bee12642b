/** Replaying one window gives what the engine would have given. */
module ReplayWindowLaws {
  import opened Wrappers
  import opened Json
  import opened Patch
  import opened StateDiff
  import opened DiffLaws
  import opened Windows
  import opened Contracts

  /** The contract does not wake: its recorded phase has the signature of what really happened. */
  ghost predicate Faithful(norm: Normalizer, c: Contract, second: nat, phase: Phase, before: World, after: World) {
    && c.pattern != []
    && var recorded, actual := c.At(second).Of(phase), ObservedPhase(norm, before, after, c.scope, phase);
       && Mirrors(norm, recorded.transition) && !actual.transition.structural
       && SameSignature(recorded.transition, actual.transition)
       && (phase.Production? ==> Normalized(norm, recorded.produced) == Normalized(norm, actual.produced))
  }

  ghost predicate AllFaithful(norm: Normalizer, cs: seq<Contract>, second: nat, phase: Phase, before: World, after: World) {
    forall i | 0 <= i < |cs| :: Faithful(norm, cs[i], second, phase, before, after)
  }

  /** What was recorded is what really happened, amount by amount; equal signatures alone leave the amounts open. */
  ghost predicate Recurs(norm: Normalizer, c: Contract, second: nat, phase: Phase, before: World, after: World) {
    && Faithful(norm, c, second, phase, before, after)
    && var recorded, actual := c.At(second).Of(phase), ObservedPhase(norm, before, after, c.scope, phase);
       && AllAlike(0.0, recorded.transition.ops, actual.transition.ops)
       && (phase.Production? ==> recorded.produced == actual.produced)
  }

  ghost predicate AllRecur(norm: Normalizer, cs: seq<Contract>, second: nat, phase: Phase, before: World, after: World) {
    forall i | 0 <= i < |cs| :: Recurs(norm, cs[i], second, phase, before, after)
  }

  ghost predicate PhaseAmountsIn(p: PhaseStep, amounts: iset<real>) {
    AmountsIn(p.transition.ops, amounts) && forall item | item in p.produced :: p.produced[item] as real in amounts
  }

  /** Where the normaliser keeps the amounts at hand apart, equal signatures are repetitions. */
  lemma ResolvingRecurs(norm: Normalizer, amounts: iset<real>, c: Contract, second: nat, phase: Phase, before: World, after: World)
    requires Resolves(norm, 0.0, amounts) && Faithful(norm, c, second, phase, before, after)
    requires PhaseAmountsIn(c.At(second).Of(phase), amounts)
    requires PhaseAmountsIn(ObservedPhase(norm, before, after, c.scope, phase), amounts)
    ensures Recurs(norm, c, second, phase, before, after)
  {
    var recorded, actual := c.At(second).Of(phase), ObservedPhase(norm, before, after, c.scope, phase);
    SignatureMirrors(norm, SnapshotComponent(before, c.scope, phase), SnapshotComponent(after, c.scope, phase));
    SameSignatureAlike(norm, 0.0, amounts, recorded.transition, actual.transition);
    if phase.Production? {
      SameAmounts(norm, amounts, recorded.produced, actual.produced);
    }
  }

  ghost predicate Unchanged(before: map<string, Value>, after: map<string, Value>, id: string) {
    (id in before <==> id in after) && (id in before ==> before[id] == after[id])
  }

  /** In whatever two components share, no number changes in this window. */
  ghost predicate Untangled(cs: seq<Contract>, phase: Phase, before: World, after: World) {
    forall i, j | 0 <= i < j < |cs| :: UntangledPair(cs[i].scope, cs[j].scope, phase, before, after)
  }

  ghost predicate UntangledPair(s: Scope, t: Scope, phase: Phase, before: World, after: World) {
    && (forall id | id in s.Entities(phase) && id in t.Entities(phase) :: CalmField(before.entities, after.entities, id))
    && (forall id | id in s.Belts(phase) && id in t.Belts(phase) :: CalmField(before.belts, after.belts, id))
  }

  ghost predicate CoversEntity(cs: seq<Contract>, phase: Phase, id: string) {
    exists i | 0 <= i < |cs| :: id in cs[i].scope.Entities(phase)
  }

  ghost predicate CoversBelt(cs: seq<Contract>, phase: Phase, id: string) {
    exists i | 0 <= i < |cs| :: id in cs[i].scope.Belts(phase)
  }

  /** One field of a skipped map: as before where a contract covers it, as the full phase left it elsewhere. */
  ghost predicate SkipField(covered: bool, before: map<string, Value>, skipped: map<string, Value>, after: map<string, Value>, id: string) {
    if covered then Unchanged(before, skipped, id) else Unchanged(after, skipped, id)
  }

  /** What skipping promises: the contracted components stand still, everything else runs as in the full phase. */
  ghost predicate Skips(norm: Normalizer, cs: seq<Contract>, phase: Phase, before: World, skipped: World, after: World) {
    && skipped.rest == after.rest
    && skipped.entities.Keys == after.entities.Keys && skipped.belts.Keys == after.belts.Keys
    && (forall id :: SkipField(CoversEntity(cs, phase, id), before.entities, skipped.entities, after.entities, id))
    && (forall id :: SkipField(CoversBelt(cs, phase, id), before.belts, skipped.belts, after.belts, id))
    && after.totals == (if phase.Production? then CreditReal(norm, skipped.totals, cs, before, after) else skipped.totals)
  }

  ghost function CreditReal(norm: Normalizer, totals: map<string, int>, cs: seq<Contract>, before: World, after: World): map<string, int> {
    if cs == [] then totals
    else Credit(CreditReal(norm, totals, cs[..|cs| - 1], before, after),
                ObservedPhase(norm, before, after, cs[|cs| - 1].scope, Production).produced)
  }

  // ----- exact replay -----

  /** The skipped world with the first contracts' components advanced. */
  ghost function Mixed(cs: seq<Contract>, phase: Phase, skipped: World, after: World): World {
    if cs == [] then skipped
    else
      var w := Mixed(cs[..|cs| - 1], phase, skipped, after);
      var scope := cs[|cs| - 1].scope;
      w.(entities := Patched(w.entities, after.entities, scope.Entities(phase)),
         belts := Patched(w.belts, after.belts, scope.Belts(phase)))
  }

  lemma {:induction false} MixedFields(cs: seq<Contract>, phase: Phase, skipped: World, after: World)
    requires skipped.entities.Keys == after.entities.Keys && skipped.belts.Keys == after.belts.Keys
    ensures var w := Mixed(cs, phase, skipped, after);
            && w.entities.Keys == skipped.entities.Keys && w.belts.Keys == skipped.belts.Keys
            && (forall id | id in w.entities ::
                  w.entities[id] == if CoversEntity(cs, phase, id) then after.entities[id] else skipped.entities[id])
            && (forall id | id in w.belts ::
                  w.belts[id] == if CoversBelt(cs, phase, id) then after.belts[id] else skipped.belts[id])
    decreases |cs|
  {
    if cs != [] {
      var rest, last := cs[..|cs| - 1], cs[|cs| - 1];
      MixedFields(rest, phase, skipped, after);
      forall id ensures CoversEntity(cs, phase, id) <==> CoversEntity(rest, phase, id) || id in last.scope.Entities(phase) {
        CoversLast(cs, phase, id);
      }
      forall id ensures CoversBelt(cs, phase, id) <==> CoversBelt(rest, phase, id) || id in last.scope.Belts(phase) {
        CoversLast(cs, phase, id);
      }
    }
  }

  lemma CoversLast(cs: seq<Contract>, phase: Phase, id: string)
    requires cs != []
    ensures CoversEntity(cs, phase, id) <==>
            CoversEntity(cs[..|cs| - 1], phase, id) || id in cs[|cs| - 1].scope.Entities(phase)
    ensures CoversBelt(cs, phase, id) <==>
            CoversBelt(cs[..|cs| - 1], phase, id) || id in cs[|cs| - 1].scope.Belts(phase)
  {
    var rest := cs[..|cs| - 1];
    if CoversEntity(rest, phase, id) {
      var i :| 0 <= i < |rest| && id in rest[i].scope.Entities(phase);
      assert id in cs[i].scope.Entities(phase);
    }
    if CoversBelt(rest, phase, id) {
      var i :| 0 <= i < |rest| && id in rest[i].scope.Belts(phase);
      assert id in cs[i].scope.Belts(phase);
    }
    if CoversEntity(cs, phase, id) && id !in cs[|cs| - 1].scope.Entities(phase) {
      var i :| 0 <= i < |cs| && id in cs[i].scope.Entities(phase);
      assert id in rest[i].scope.Entities(phase);
    }
    if CoversBelt(cs, phase, id) && id !in cs[|cs| - 1].scope.Belts(phase) {
      var i :| 0 <= i < |cs| && id in cs[i].scope.Belts(phase);
      assert id in rest[i].scope.Belts(phase);
    }
  }

  /** With all contracts applied, the mixed world is the real one. */
  lemma MixedIsReal(norm: Normalizer, cs: seq<Contract>, phase: Phase, before: World, skipped: World, after: World)
    requires Skips(norm, cs, phase, before, skipped, after)
    ensures Mixed(cs, phase, skipped, after).entities == after.entities
    ensures Mixed(cs, phase, skipped, after).belts == after.belts
  {
    MixedFields(cs, phase, skipped, after);
    var w := Mixed(cs, phase, skipped, after);
    forall id | id in w.entities ensures w.entities[id] == after.entities[id] {
      assert SkipField(CoversEntity(cs, phase, id), before.entities, skipped.entities, after.entities, id);
    }
    forall id | id in w.belts ensures w.belts[id] == after.belts[id] {
      assert SkipField(CoversBelt(cs, phase, id), before.belts, skipped.belts, after.belts, id);
    }
  }

  /** Until its own turn, a component looks in the mixed world as it did before the phase. */
  lemma MixedShows(norm: Normalizer, cs: seq<Contract>, n: nat, phase: Phase, before: World, skipped: World, after: World)
    requires n < |cs|
    requires Skips(norm, cs, phase, before, skipped, after) && Untangled(cs, phase, before, after)
    ensures ShowsScope(Mixed(cs[..n], phase, skipped, after), before, after, cs[n].scope, phase)
  {
    var first, scope := cs[..n], cs[n].scope;
    MixedFields(first, phase, skipped, after);
    var w := Mixed(first, phase, skipped, after);
    forall id | id in scope.Entities(phase)
      ensures id in w.entities <==> id in before.entities
      ensures id in w.entities ==>
                || w.entities[id] == before.entities[id]
                || (id in after.entities && w.entities[id] == after.entities[id] && CalmField(before.entities, after.entities, id))
    {
      assert CoversEntity(cs, phase, id);
      assert SkipField(true, before.entities, skipped.entities, after.entities, id);
      if CoversEntity(first, phase, id) {
        var i :| 0 <= i < |first| && id in first[i].scope.Entities(phase);
        assert UntangledPair(cs[i].scope, scope, phase, before, after);
      }
    }
    forall id | id in scope.Belts(phase)
      ensures id in w.belts <==> id in before.belts
      ensures id in w.belts ==>
                || w.belts[id] == before.belts[id]
                || (id in after.belts && w.belts[id] == after.belts[id] && CalmField(before.belts, after.belts, id))
    {
      assert CoversBelt(cs, phase, id);
      assert SkipField(true, before.belts, skipped.belts, after.belts, id);
      if CoversBelt(first, phase, id) {
        var i :| 0 <= i < |first| && id in first[i].scope.Belts(phase);
        assert UntangledPair(cs[i].scope, scope, phase, before, after);
      }
    }
  }

  /** One contract's recorded operations advance its component exactly as the engine did. */
  lemma RecordedAdvances(norm: Normalizer, c: Contract, second: nat, phase: Phase, w: World, before: World, after: World)
    requires norm(0.0) == 0.0 && Recurs(norm, c, second, phase, before, after)
    requires ShowsScope(w, before, after, c.scope, phase)
    ensures ApplyAll(Exact, View(w), c.At(second).Of(phase).transition.ops) == Some(PatchedView(w, after, c.scope, phase))
  {
    var recorded := c.At(second).Of(phase).transition;
    var x, y := SnapshotComponent(before, c.scope, phase), SnapshotComponent(after, c.scope, phase);
    ExactIgnoresDigits(View(w), recorded.ops, Diff(norm, x, y).ops);
    PatchComponent(norm, w, before, after, c.scope, phase);
  }

  lemma MixedStep(cs: seq<Contract>, n: nat, phase: Phase, skipped: World, after: World)
    requires n < |cs|
    ensures View(Mixed(cs[..n + 1], phase, skipped, after)) ==
            PatchedView(Mixed(cs[..n], phase, skipped, after), after, cs[n].scope, phase)
  {
    var more := cs[..n + 1];
    assert more[..|more| - 1] == cs[..n] && more[|more| - 1] == cs[n];
  }

  lemma WindowOpsStep(cs: seq<Contract>, n: nat, second: nat, phase: Phase)
    requires n < |cs| && forall i | 0 <= i < |cs| :: cs[i].pattern != []
    ensures WindowOps(cs[..n + 1], second, phase) ==
            WindowOps(cs[..n], second, phase) + cs[n].At(second).Of(phase).transition.ops
  {
    var more := cs[..n + 1];
    assert more[..|more| - 1] == cs[..n] && more[|more| - 1] == cs[n];
  }

  /** Operations that advance a component in any world that still shows it as it was. */
  ghost predicate Advances(ops: seq<Op>, scope: Scope, phase: Phase, before: World, after: World) {
    forall w {:trigger ShowsScope(w, before, after, scope, phase)} | ShowsScope(w, before, after, scope, phase) ::
      ApplyAll(Exact, View(w), ops) == Some(PatchedView(w, after, scope, phase))
  }

  ghost predicate AllAdvance(cs: seq<Contract>, second: nat, phase: Phase, before: World, after: World)
    requires forall i | 0 <= i < |cs| :: cs[i].pattern != []
  {
    forall i | 0 <= i < |cs| :: Advances(cs[i].At(second).Of(phase).transition.ops, cs[i].scope, phase, before, after)
  }

  lemma RecursAdvance(norm: Normalizer, cs: seq<Contract>, second: nat, phase: Phase, before: World, after: World)
    requires norm(0.0) == 0.0 && AllRecur(norm, cs, second, phase, before, after)
    ensures forall i | 0 <= i < |cs| :: cs[i].pattern != []
    ensures AllAdvance(cs, second, phase, before, after)
  {
    forall i | 0 <= i < |cs|
      ensures cs[i].pattern != []
      ensures Advances(cs[i].At(second).Of(phase).transition.ops, cs[i].scope, phase, before, after)
    {
      OneAdvances(norm, cs[i], second, phase, before, after);
    }
  }

  lemma OneAdvances(norm: Normalizer, c: Contract, second: nat, phase: Phase, before: World, after: World)
    requires norm(0.0) == 0.0 && Recurs(norm, c, second, phase, before, after)
    ensures Advances(c.At(second).Of(phase).transition.ops, c.scope, phase, before, after)
  {
    forall w | ShowsScope(w, before, after, c.scope, phase)
      ensures ApplyAll(Exact, View(w), c.At(second).Of(phase).transition.ops) == Some(PatchedView(w, after, c.scope, phase))
    {
      RecordedAdvances(norm, c, second, phase, w, before, after);
    }
  }

  /** When the turn of contract `n` comes, its component is still as it was before the phase. */
  ghost predicate Turn(cs: seq<Contract>, n: nat, phase: Phase, before: World, skipped: World, after: World)
    requires n < |cs|
  {
    ShowsScope(Mixed(cs[..n], phase, skipped, after), before, after, cs[n].scope, phase)
  }

  lemma {:induction false} ExactPrefix(cs: seq<Contract>, n: nat, second: nat, phase: Phase,
                                       before: World, skipped: World, after: World)
    requires n <= |cs| && forall i | 0 <= i < |cs| :: cs[i].pattern != []
    requires AllAdvance(cs, second, phase, before, after)
    requires forall i | 0 <= i < n :: Turn(cs, i, phase, before, skipped, after)
    ensures ApplyAll(Exact, View(skipped), WindowOps(cs[..n], second, phase)) ==
            Some(View(Mixed(cs[..n], phase, skipped, after)))
  {
    if n > 0 {
      ExactPrefix(cs, n - 1, second, phase, before, skipped, after);
      assert Turn(cs, n - 1, phase, before, skipped, after);
      WindowOpsStep(cs, n - 1, second, phase);
      MixedStep(cs, n - 1, phase, skipped, after);
      ExactStep(cs[n - 1].At(second).Of(phase).transition.ops, cs[n - 1].scope, phase, View(skipped),
                WindowOps(cs[..n - 1], second, phase), Mixed(cs[..n - 1], phase, skipped, after), before, after);
    }
  }

  lemma ExactStep(own: seq<Op>, scope: Scope, phase: Phase, v: Value, ops: seq<Op>, w: World, before: World, after: World)
    requires Advances(own, scope, phase, before, after) && ShowsScope(w, before, after, scope, phase)
    requires ApplyAll(Exact, v, ops) == Some(View(w))
    ensures ApplyAll(Exact, v, ops + own) == Some(PatchedView(w, after, scope, phase))
  {
    ApplyAllConcat(Exact, v, ops, own);
  }

  lemma RecursProduces(norm: Normalizer, c: Contract, second: nat, before: World, after: World)
    requires Recurs(norm, c, second, Production, before, after)
    ensures c.pattern != []
    ensures c.At(second).production.produced == ObservedPhase(norm, before, after, c.scope, Production).produced
  {
  }

  lemma {:induction false} CreditsReal(norm: Normalizer, cs: seq<Contract>, second: nat, totals: map<string, int>, before: World, after: World)
    requires AllRecur(norm, cs, second, Production, before, after)
    ensures forall i | 0 <= i < |cs| :: cs[i].pattern != []
    ensures CreditAll(totals, cs, second) == CreditReal(norm, totals, cs, before, after)
    decreases |cs|
  {
    if cs != [] {
      var rest, last := cs[..|cs| - 1], cs[|cs| - 1];
      assert forall i | 0 <= i < |rest| :: rest[i] == cs[i];
      CreditsReal(norm, rest, second, totals, before, after);
      RecursProduces(norm, last, second, before, after);
    }
  }

  /** Exact replay of a window on the skipped world gives the world of the full phase. */
  lemma ExactWindow(norm: Normalizer, cs: seq<Contract>, second: nat, phase: Phase, before: World, skipped: World, after: World)
    requires norm(0.0) == 0.0 && AllRecur(norm, cs, second, phase, before, after)
    requires Skips(norm, cs, phase, before, skipped, after) && Untangled(cs, phase, before, after)
    ensures ApplyAll(Exact, View(skipped), WindowOps(cs, second, phase)) == Some(View(after))
    ensures TotalsAfter(skipped.totals, cs, second, phase) == after.totals
  {
    assert cs[..|cs|] == cs;
    RecursAdvance(norm, cs, second, phase, before, after);
    forall i | 0 <= i < |cs| ensures Turn(cs, i, phase, before, skipped, after) {
      MixedShows(norm, cs, i, phase, before, skipped, after);
    }
    ExactPrefix(cs, |cs|, second, phase, before, skipped, after);
    MixedIsReal(norm, cs, phase, before, skipped, after);
    if phase.Production? {
      CreditsReal(norm, cs, second, skipped.totals, before, after);
    }
  }

  // ----- rounded replay -----

  /** An operation of one component: below one of its own parts, and an addition only where a number changed. */
  ghost predicate OwnOp(op: Op, scope: Scope, phase: Phase, before: World, after: World) {
    && |op.path| >= 2 && op.path[0].Key? && op.path[1].Key?
    && var id := op.path[1].name;
       if op.path[0].name == "belts" then id in scope.Belts(phase) && (op.Add? ==> !CalmField(before.belts, after.belts, id))
       else op.path[0].name == "entities" && id in scope.Entities(phase) && (op.Add? ==> !CalmField(before.entities, after.entities, id))
  }

  /** Each operation of an object diff lies below a field, and an addition below one where a number changed. */
  lemma {:induction false} FieldsBelow(norm: Normalizer, x: Value, y: Value, keys: seq<string>, i: nat)
    requires norm(0.0) == 0.0 && x.Obj? && y.Obj? && forall k | k in keys :: k in x.fields && k in y.fields
    requires i < |DiffFields(norm, x, y, keys).ops|
    ensures var op := DiffFields(norm, x, y, keys).ops[i];
            op.path != [] && op.path[0].Key? && op.path[0].name in keys &&
            (op.Add? ==> !NumbersKept(x.fields[op.path[0].name], y.fields[op.path[0].name]))
    decreases |keys|
  {
    var rest, last := keys[..|keys| - 1], keys[|keys| - 1];
    assert last in keys;
    if i < |DiffFields(norm, x, y, rest).ops| {
      FieldsBelow(norm, x, y, rest, i);
    } else {
      AddsIffNumbersChange(norm, x.fields[last], y.fields[last]);
    }
  }

  lemma RestrictedBelow(norm: Normalizer, before: map<string, Value>, after: map<string, Value>, ids: set<string>, i: nat)
    requires norm(0.0) == 0.0
    requires i < |Diff(norm, Obj(Restrict(before, ids)), Obj(Restrict(after, ids))).ops|
    ensures var op := Diff(norm, Obj(Restrict(before, ids)), Obj(Restrict(after, ids))).ops[i];
            op.path != [] && op.path[0].Key? && op.path[0].name in ids &&
            (op.Add? ==> !CalmField(before, after, op.path[0].name))
  {
    var x, y := Obj(Restrict(before, ids)), Obj(Restrict(after, ids));
    DiffOfObjects(norm, x, y);
    FieldsBelow(norm, x, y, SortedKeys(x.fields.Keys), i);
  }

  lemma HeadOf(part: string, ops: seq<Op>, i: nat)
    requires i < |ops| && ops[i].path != []
    ensures Under([Key(part)], ops)[i].path[0] == Key(part)
    ensures |Under([Key(part)], ops)[i].path| >= 2 && Under([Key(part)], ops)[i].path[1] == ops[i].path[0]
    ensures Under([Key(part)], ops)[i].Add? == ops[i].Add?
  {
  }

  ghost predicate OpsOwned(ops: seq<Op>, scope: Scope, phase: Phase, before: World, after: World) {
    forall i | 0 <= i < |ops| :: OwnOp(ops[i], scope, phase, before, after)
  }

  lemma BeltOps(norm: Normalizer, before: World, after: World, scope: Scope, phase: Phase, ops: seq<Op>)
    requires norm(0.0) == 0.0
    requires ops == Diff(norm, Obj(Restrict(before.belts, scope.Belts(phase))), Obj(Restrict(after.belts, scope.Belts(phase)))).ops
    ensures OpsOwned(Under([Key("belts")], ops), scope, phase, before, after)
  {
    forall i | 0 <= i < |ops| ensures OwnOp(Under([Key("belts")], ops)[i], scope, phase, before, after) {
      RestrictedBelow(norm, before.belts, after.belts, scope.Belts(phase), i);
      HeadOf("belts", ops, i);
    }
  }

  lemma EntityOps(norm: Normalizer, before: World, after: World, scope: Scope, phase: Phase, ops: seq<Op>)
    requires norm(0.0) == 0.0
    requires ops == Diff(norm, Obj(Restrict(before.entities, scope.Entities(phase))), Obj(Restrict(after.entities, scope.Entities(phase)))).ops
    ensures OpsOwned(Under([Key("entities")], ops), scope, phase, before, after)
  {
    forall i | 0 <= i < |ops| ensures OwnOp(Under([Key("entities")], ops)[i], scope, phase, before, after) {
      RestrictedBelow(norm, before.entities, after.entities, scope.Entities(phase), i);
      HeadOf("entities", ops, i);
    }
  }

  lemma SnapshotParts(norm: Normalizer, before: World, after: World, scope: Scope, phase: Phase) returns (b: seq<Op>, e: seq<Op>)
    ensures b == Diff(norm, Obj(Restrict(before.belts, scope.Belts(phase))), Obj(Restrict(after.belts, scope.Belts(phase)))).ops
    ensures e == Diff(norm, Obj(Restrict(before.entities, scope.Entities(phase))), Obj(Restrict(after.entities, scope.Entities(phase)))).ops
    ensures Diff(norm, SnapshotComponent(before, scope, phase), SnapshotComponent(after, scope, phase)).ops ==
            Under([Key("belts")], b) + Under([Key("entities")], e)
  {
    var es, bs := scope.Entities(phase), scope.Belts(phase);
    b := Diff(norm, Obj(Restrict(before.belts, bs)), Obj(Restrict(after.belts, bs))).ops;
    e := Diff(norm, Obj(Restrict(before.entities, es)), Obj(Restrict(after.entities, es))).ops;
    SnapshotDiff(norm, Restrict(before.entities, es), Restrict(before.belts, bs),
                 Restrict(after.entities, es), Restrict(after.belts, bs));
  }

  lemma OwnedConcat(a: seq<Op>, b: seq<Op>, scope: Scope, phase: Phase, before: World, after: World)
    requires OpsOwned(a, scope, phase, before, after) && OpsOwned(b, scope, phase, before, after)
    ensures OpsOwned(a + b, scope, phase, before, after)
  {
  }

  lemma SnapshotOwnOps(norm: Normalizer, before: World, after: World, scope: Scope, phase: Phase)
    requires norm(0.0) == 0.0
    ensures OpsOwned(Diff(norm, SnapshotComponent(before, scope, phase), SnapshotComponent(after, scope, phase)).ops,
                     scope, phase, before, after)
  {
    var b, e := SnapshotParts(norm, before, after, scope, phase);
    BeltOps(norm, before, after, scope, phase, b);
    EntityOps(norm, before, after, scope, phase, e);
    OwnedConcat(Under([Key("belts")], b), Under([Key("entities")], e), scope, phase, before, after);
  }

  /** The recorded operations of one contract are prefix-free and its own. */
  ghost predicate OwnOps(ops: seq<Op>, scope: Scope, phase: Phase, before: World, after: World) {
    PrefixFree(ops) && OpsOwned(ops, scope, phase, before, after)
  }

  lemma RecordedOwnOps(norm: Normalizer, c: Contract, second: nat, phase: Phase, before: World, after: World)
    requires norm(0.0) == 0.0 && Recurs(norm, c, second, phase, before, after)
    ensures OwnOps(c.At(second).Of(phase).transition.ops, c.scope, phase, before, after)
  {
    var recorded := c.At(second).Of(phase).transition;
    var x, y := SnapshotComponent(before, c.scope, phase), SnapshotComponent(after, c.scope, phase);
    var own := Diff(norm, x, y);
    DiffPrefixFree(norm, x, y);
    SnapshotOwnOps(norm, before, after, c.scope, phase);
    AlikeOwned(recorded.ops, own.ops, c.scope, phase, before, after);
  }

  lemma AlikeOwned(a: seq<Op>, b: seq<Op>, scope: Scope, phase: Phase, before: World, after: World)
    requires AllAlike(0.0, a, b) && OwnOps(b, scope, phase, before, after)
    ensures OwnOps(a, scope, phase, before, after)
  {
    forall i | 0 <= i < |a| ensures a[i].path == b[i].path && OwnOp(a[i], scope, phase, before, after) {
      assert Alike(0.0, a[i], b[i]);
      assert OwnOp(b[i], scope, phase, before, after);
    }
    forall i, j | 0 <= i < j < |a| ensures Incomparable(a[i].path, a[j].path) {
      assert Incomparable(b[i].path, b[j].path);
    }
  }

  /** Operations of untangled components are apart as soon as one of them adds. */
  lemma ApartOps(a: Op, b: Op, s: Scope, t: Scope, phase: Phase, before: World, after: World)
    requires OwnOp(a, s, phase, before, after) && OwnOp(b, t, phase, before, after)
    requires UntangledPair(s, t, phase, before, after) && (a.Add? || b.Add?)
    ensures Incomparable(a.path, b.path)
  {
    if a.path[0] == b.path[0] {
      assert a.path[1].name != b.path[1].name;
    }
  }

  ghost predicate OwnedBySome(op: Op, cs: seq<Contract>, n: nat, phase: Phase, before: World, after: World)
    requires n <= |cs|
  {
    exists i | 0 <= i < n :: OwnOp(op, cs[i].scope, phase, before, after)
  }

  /** A list whose additions are apart and all of whose operations belong to the first `n` components. */
  ghost predicate OwnedApart(ops: seq<Op>, cs: seq<Contract>, n: nat, phase: Phase, before: World, after: World)
    requires n <= |cs|
  {
    AddsApart(ops) && forall k | 0 <= k < |ops| :: OwnedBySome(ops[k], cs, n, phase, before, after)
  }

  lemma OwnedStep(a: seq<Op>, b: seq<Op>, cs: seq<Contract>, n: nat, phase: Phase, before: World, after: World)
    requires n < |cs| && Untangled(cs, phase, before, after)
    requires OwnedApart(a, cs, n, phase, before, after) && OwnOps(b, cs[n].scope, phase, before, after)
    ensures OwnedApart(a + b, cs, n + 1, phase, before, after)
  {
    var ab := a + b;
    forall i, j | 0 <= i < j < |ab| && (ab[i].Add? || ab[j].Add?) ensures Incomparable(ab[i].path, ab[j].path) {
      if j < |a| {
        assert ab[i] == a[i] && ab[j] == a[j];
      } else if i >= |a| {
        assert ab[i] == b[i - |a|] && ab[j] == b[j - |a|];
      } else {
        assert OwnedBySome(a[i], cs, n, phase, before, after);
        var k :| 0 <= k < n && OwnOp(a[i], cs[k].scope, phase, before, after);
        assert UntangledPair(cs[k].scope, cs[n].scope, phase, before, after);
        assert OwnOp(b[j - |a|], cs[n].scope, phase, before, after);
        ApartOps(a[i], b[j - |a|], cs[k].scope, cs[n].scope, phase, before, after);
      }
    }
    forall k | 0 <= k < |ab| ensures OwnedBySome(ab[k], cs, n + 1, phase, before, after) {
      if k < |a| {
        assert OwnedBySome(a[k], cs, n, phase, before, after);
      } else {
        assert OwnOp(b[k - |a|], cs[n].scope, phase, before, after);
      }
    }
  }

  lemma {:induction false} WindowOwned(cs: seq<Contract>, n: nat, second: nat, phase: Phase, before: World, after: World)
    requires n <= |cs| && forall i | 0 <= i < |cs| :: cs[i].pattern != []
    requires forall i | 0 <= i < n :: OwnOps(cs[i].At(second).Of(phase).transition.ops, cs[i].scope, phase, before, after)
    requires Untangled(cs, phase, before, after)
    ensures OwnedApart(WindowOps(cs[..n], second, phase), cs, n, phase, before, after)
  {
    if n > 0 {
      WindowOwned(cs, n - 1, second, phase, before, after);
      assert OwnOps(cs[n - 1].At(second).Of(phase).transition.ops, cs[n - 1].scope, phase, before, after);
      WindowOpsStep(cs, n - 1, second, phase);
      OwnedStep(WindowOps(cs[..n - 1], second, phase), cs[n - 1].At(second).Of(phase).transition.ops,
                cs, n - 1, phase, before, after);
    }
  }

  /**
   * The replayed window equals the real one precisely when every recorded addition lands on the decimal grid
   * it was recorded with.
   */
  lemma WindowReplayExact(norm: Normalizer, cs: seq<Contract>, second: nat, phase: Phase, before: World, skipped: World, after: World)
    requires norm(0.0) == 0.0 && AllRecur(norm, cs, second, phase, before, after)
    requires Skips(norm, cs, phase, before, skipped, after) && Untangled(cs, phase, before, after)
    ensures ReplayWindow(Rounded, cs, second, phase, skipped) == Some(after) <==>
            AllLand(View(skipped), WindowOps(cs, second, phase))
  {
    assert cs[..|cs|] == cs;
    ExactWindow(norm, cs, second, phase, before, skipped, after);
    forall i | 0 <= i < |cs|
      ensures OwnOps(cs[i].At(second).Of(phase).transition.ops, cs[i].scope, phase, before, after)
    {
      RecordedOwnOps(norm, cs[i], second, phase, before, after);
    }
    WindowOwned(cs, |cs|, second, phase, before, after);
    RoundingHarmless(View(skipped), WindowOps(cs, second, phase));
    WindowParts(Rounded, cs, second, phase, skipped, after);
  }

  /** A replayed window is right precisely when its view, its totals and its rest are. */
  lemma WindowParts(mode: Mode, cs: seq<Contract>, second: nat, phase: Phase, skipped: World, after: World)
    requires forall i | 0 <= i < |cs| :: cs[i].pattern != []
    ensures ReplayWindow(mode, cs, second, phase, skipped) == Some(after) <==>
            && ApplyAll(mode, View(skipped), WindowOps(cs, second, phase)) == Some(View(after))
            && TotalsAfter(skipped.totals, cs, second, phase) == after.totals && skipped.rest == after.rest
  {
    var v := ApplyAll(mode, View(skipped), WindowOps(cs, second, phase));
    if v.Some? {
      ViewOf(v.value, after);
    }
  }

  lemma ViewOf(v: Value, w: World)
    ensures v == View(w) <==>
            IsView(v) && v.fields["entities"].fields == w.entities && v.fields["belts"].fields == w.belts
  {
    ViewShape(v);
  }
}
