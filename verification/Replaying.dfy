/** The replayer that stands in for the engine, and the choice of what to replay. */
module Replaying {
  import opened Wrappers
  import opened Json
  import opened Patch
  import opened Windows
  import opened Contracts
  import opened ReplayRun
  import opened ReplayWindowLaws
  import opened StateDiff
  import opened ContractTracking

  predicate RootFree(ops: seq<Op>) {
    forall i | 0 <= i < |ops| :: ops[i].path != []
  }

  /** Applies recorded operations one after the other; fails at a root-level operation or a path that leads nowhere. */
  method ApplyTransition(mode: Mode, target: Value, ops: seq<Op>) returns (r: Option<Value>)
    ensures r == if RootFree(ops) then ApplyAll(mode, target, ops) else None
  {
    var v := target;
    var i := 0;
    while i < |ops|
      invariant i <= |ops| && RootFree(ops[..i])
      invariant ApplyAll(mode, target, ops) == ApplyAll(mode, v, ops[i..])
    {
      if ops[i].path == [] {
        return None;
      }
      assert ops[i..][0] == ops[i] && ops[i..][1..] == ops[i + 1..];
      match Apply(mode, v, ops[i]) {
        case None => return None;
        case Some(w) => v := w;
      }
      i := i + 1;
    }
    assert ops[..i] == ops;
    r := Some(v);
  }

  predicate ReplayableOps(cs: seq<Contract>) {
    forall k | 0 <= k < |cs| :: cs[k].pattern != [] && forall j, phase | 0 <= j < |cs[k].pattern| ::
      RootFree(cs[k].pattern[j].Of(phase).transition.ops)
  }

  lemma StepRootFree(cs: seq<Contract>, k: nat, second: nat, phase: Phase)
    requires ReplayableOps(cs) && k < |cs|
    ensures RootFree(cs[k].At(second).Of(phase).transition.ops)
  {
    var j := second % |cs[k].pattern|;
    assert RootFree(cs[k].pattern[j].Of(phase).transition.ops);
  }

  /** Detected patterns can be replayed: what a collector recorded never patches the root. */
  lemma RecordedReplayable(norm: Normalizer, e: Engine, start: Running, m: nat, maximum: int, cs: seq<Contract>)
    requires forall k | 0 <= k < |cs| ::
               cs[k].pattern != [] && PatternOf(norm, Observation(norm, e, start, m, cs[k].scope), maximum, cs[k].pattern)
    ensures ReplayableOps(cs)
  {
    forall k, j, phase | 0 <= k < |cs| && 0 <= j < |cs[k].pattern|
      ensures RootFree(cs[k].pattern[j].Of(phase).transition.ops)
    {
      EntryRootFree(norm, e, start, m, maximum, cs[k].scope, cs[k].pattern, j, phase);
    }
  }

  lemma EntryRootFree(norm: Normalizer, e: Engine, start: Running, m: nat, maximum: int, scope: Scope,
                      pattern: seq<StepTransition>, j: nat, phase: Phase)
    requires PatternOf(norm, Observation(norm, e, start, m, scope), maximum, pattern) && j < |pattern|
    ensures RootFree(pattern[j].Of(phase).transition.ops)
  {
    PatternEntry(norm, e, start, m, scope, maximum, pattern, j);
    ObservedRootFree(norm, e, start, m - |pattern| + j, scope, phase);
  }

  lemma ObservedRootFree(norm: Normalizer, e: Engine, start: Running, s: nat, scope: Scope, phase: Phase)
    ensures RootFree(e.Observed(norm, start, s, scope).Of(phase).transition.ops)
  {
    var at := e.ObservedAt(norm, start, s, scope);
    forall i: nat ensures RootFree(at(i).transition.ops) {
      WindowRootFree(norm, e, start, s, scope, i);
    }
    ObservedFrom(norm, e, start, s, scope, at);
  }

  lemma WindowRootFree(norm: Normalizer, e: Engine, start: Running, s: nat, scope: Scope, i: nat)
    ensures RootFree(e.ObservedAt(norm, start, s, scope)(i).transition.ops)
  {
    if i < e.Count(s) {
      var phase := e.PhaseOf(s, i);
      ObservedAtOf(norm, e, start, s, i, scope);
      var x, y := SnapshotComponent(e.Before(start, s, i), scope, phase), SnapshotComponent(e.After(start, s, i), scope, phase);
      forall n | 0 <= n < |Diff(norm, x, y).ops| ensures Diff(norm, x, y).ops[n].path != [] {
        NoRootOps(norm, x, y, n);
      }
    }
  }

  /** One more contract's operations. */
  lemma ApplyStep(cs: seq<Contract>, n: nat, second: nat, phase: Phase, v: Value, w: Value)
    requires n < |cs| && forall k | 0 <= k < |cs| :: cs[k].pattern != []
    requires ApplyAll(Rounded, v, WindowOps(cs[..n], second, phase)) == Some(w)
    ensures ApplyAll(Rounded, v, WindowOps(cs[..n + 1], second, phase)) ==
            ApplyAll(Rounded, w, cs[n].At(second).Of(phase).transition.ops)
  {
    WindowOpsStep(cs, n, second, phase);
    ApplyAllConcat(Rounded, v, WindowOps(cs[..n], second, phase), cs[n].At(second).Of(phase).transition.ops);
  }

  lemma CreditStep(cs: seq<Contract>, n: nat, second: nat, totals: map<string, int>)
    requires n < |cs| && forall k | 0 <= k < |cs| :: cs[k].pattern != []
    ensures CreditAll(totals, cs[..n + 1], second) ==
            Credit(CreditAll(totals, cs[..n], second), cs[n].At(second).production.produced)
  {
    assert cs[..n + 1][..n] == cs[..n];
  }

  /** The operations of several contracts in turn. */
  method PatchView(cs: seq<Contract>, second: nat, phase: Phase, v: Value) returns (r: Option<Value>)
    requires ReplayableOps(cs)
    ensures r == ApplyAll(Rounded, v, WindowOps(cs, second, phase))
  {
    var w := v;
    var i := 0;
    while i < |cs|
      invariant i <= |cs|
      invariant ApplyAll(Rounded, v, WindowOps(cs[..i], second, phase)) == Some(w)
    {
      var step := cs[i].pattern[second % |cs[i].pattern|].Of(phase);
      StepRootFree(cs, i, second, phase);
      ApplyStep(cs, i, second, phase, v, w);
      var patched := ApplyTransition(Rounded, w, step.transition.ops);
      if patched.None? {
        FailsEarly(cs, i + 1, second, phase, v);
        return None;
      }
      w := patched.value;
      i := i + 1;
    }
    assert cs[..|cs|] == cs;
    r := Some(w);
  }

  method CreditTotals(cs: seq<Contract>, second: nat, totals: map<string, int>) returns (r: map<string, int>)
    requires forall k | 0 <= k < |cs| :: cs[k].pattern != []
    ensures r == CreditAll(totals, cs, second)
  {
    r := totals;
    var i := 0;
    while i < |cs|
      invariant i <= |cs| && r == CreditAll(totals, cs[..i], second)
    {
      CreditStep(cs, i, second, totals);
      r := Credit(r, cs[i].pattern[second % |cs[i].pattern|].production.produced);
      i := i + 1;
    }
    assert cs[..|cs|] == cs;
  }

  class ContractReplayer {
    const contracts: seq<Contract>
    const skipping: Skipping
    var world: World
    var stepIndex: nat

    constructor (world: World, contracts: seq<Contract>)
      ensures this.world == world && this.contracts == contracts && skipping == SkippingOf(contracts) && stepIndex == 0
      ensures forall b :: b in skipping.belts <==> exists c | c in contracts :: b in c.scope.beltIds
      ensures forall p :: p in skipping.producers <==> exists c | c in contracts :: p in c.scope.productionIds
    {
      this.world, this.contracts, skipping, stepIndex := world, contracts, SkippingOf(contracts), 0;
    }

    method SetStepIndex(index: nat)
      modifies this`stepIndex
      ensures stepIndex == index
    {
      stepIndex := index;
    }

    /** One hook: the operations of the given contracts in order, and after production their produced items. */
    method Replay(cs: seq<Contract>, phase: Phase) returns (ok: bool)
      requires ReplayableOps(cs)
      modifies this`world
      ensures ok <==> ReplayWindow(Rounded, cs, stepIndex, phase, old(world)).Some?
      ensures ok ==> world == ReplayWindow(Rounded, cs, stepIndex, phase, old(world)).value
      ensures ok ==> world.rest == old(world).rest && (phase != Production ==> world.totals == old(world).totals)
      ensures ok ==> forall item ::
                && (item in old(world).totals ==> item in world.totals)
                && (if item in world.totals then world.totals[item] else 0) ==
                   (if item in old(world).totals then old(world).totals[item] else 0) +
                   (if phase == Production then RecordedSum(cs, stepIndex, item) else 0)
    {
      var view := PatchView(cs, stepIndex, phase, View(world));
      if view.None? || !IsView(view.value) {
        return false;
      }
      var totals := world.totals;
      if phase.Production? {
        totals := CreditTotals(cs, stepIndex, totals);
      }
      ghost var skipped := world;
      world := World(view.value.fields["entities"].fields, view.value.fields["belts"].fields, totals, world.rest);
      ok := true;
      forall item
        ensures item in skipped.totals ==> item in world.totals
        ensures (if item in world.totals then world.totals[item] else 0) ==
                (if item in skipped.totals then skipped.totals[item] else 0) +
                (if phase == Production then RecordedSum(cs, stepIndex, item) else 0)
      {
        ReplayedTotals(Rounded, cs, stepIndex, phase, skipped, item);
      }
    }
  }

  lemma {:induction false} FailsEarly(cs: seq<Contract>, n: nat, second: nat, phase: Phase, v: Value)
    requires n <= |cs| && forall k | 0 <= k < |cs| :: cs[k].pattern != []
    requires ApplyAll(Rounded, v, WindowOps(cs[..n], second, phase)) == None
    ensures ApplyAll(Rounded, v, WindowOps(cs, second, phase)) == None
    decreases |cs| - n
  {
    if n == |cs| {
      assert cs[..n] == cs;
    } else {
      WindowOpsStep(cs, n, second, phase);
      ApplyAllConcat(Rounded, v, WindowOps(cs[..n], second, phase), cs[n].At(second).Of(phase).transition.ops);
      FailsEarly(cs, n + 1, second, phase, v);
    }
  }

  lemma OnPlanetReplayable(cs: seq<Contract>, planet: string)
    requires ReplayableOps(cs)
    ensures ReplayableOps(OnPlanet(cs, planet))
  {
    var r := OnPlanet(cs, planet);
    forall k | 0 <= k < |r|
      ensures r[k].pattern != []
      ensures forall j, phase | 0 <= j < |r[k].pattern| :: RootFree(r[k].pattern[j].Of(phase).transition.ops)
    {
      assert r[k] in r && r[k] in cs;
    }
  }

  lemma InReplayable(e: Engine, cs: seq<Contract>, s: nat, i: nat)
    requires i < e.Count(s) && ReplayableOps(cs)
    ensures ReplayableOps(e.In(cs, s, i))
  {
    if e.PhaseOf(s, i).Production? {
      OnPlanetReplayable(cs, e.planets(s)[i - 1]);
    }
  }

  /** Where the run stands: before window `i` of second `s`, with this world and this working data. */
  ghost predicate Stands(e: Engine, cs: seq<Contract>, start: Running, s: nat, i: nat, world: World, scratch: Value)
    requires i <= e.Count(s) && forall k | 0 <= k < |cs| :: cs[k].pattern != []
  {
    e.ReplayBefore(cs, start, s, i) == Some(Running(world, scratch))
  }

  lemma WindowRun(e: Engine, cs: seq<Contract>, start: Running, s: nat, i: nat, r: Running)
    requires i < e.Count(s) && forall k | 0 <= k < |cs| :: cs[k].pattern != []
    requires e.ReplayBefore(cs, start, s, i) == Some(r)
    ensures e.ReplayBefore(cs, start, s, i + 1) ==
            match e.Hooked(cs, s, i, e.window(SkippingOf(cs), s, i, r))
            case Some(h) => Some(e.between(SkippingOf(cs), s, i + 1, h))
            case None => None
  {
    assert e.ReplayAfter(cs, start, s, i) == e.Hooked(cs, s, i, e.window(SkippingOf(cs), s, i, r));
  }

  /** The engine with skips, the replay hook, and the engine up to the next window. */
  method RunWindow(e: Engine, replayer: ContractReplayer, s: nat, i: nat, ghost start: Running, scratch: Value)
    returns (ok: bool, next: Value)
    requires i < e.Count(s) && ReplayableOps(replayer.contracts) && replayer.stepIndex == s
    requires replayer.skipping == SkippingOf(replayer.contracts)
    requires Stands(e, replayer.contracts, start, s, i, replayer.world, scratch)
    modifies replayer`world
    ensures ok <==> e.ReplayBefore(replayer.contracts, start, s, i + 1).Some?
    ensures ok ==> Stands(e, replayer.contracts, start, s, i + 1, replayer.world, next)
  {
    var r := Running(replayer.world, scratch);
    WindowRun(e, replayer.contracts, start, s, i, r);
    InReplayable(e, replayer.contracts, s, i);
    var skipped := e.window(replayer.skipping, s, i, r);
    replayer.world := skipped.world;
    ok := replayer.Replay(e.In(replayer.contracts, s, i), e.PhaseOf(s, i));
    next := skipped.scratch;
    if ok {
      var moved := e.between(replayer.skipping, s, i + 1, Running(replayer.world, skipped.scratch));
      replayer.world, next := moved.world, moved.scratch;
    }
  }

  /** One replayed second, gap by gap and window by window. */
  method RunSecond(e: Engine, replayer: ContractReplayer, s: nat, ghost start: Running, scratch: Value)
    returns (ok: bool, next: Value)
    requires ReplayableOps(replayer.contracts) && replayer.stepIndex == s
    requires replayer.skipping == SkippingOf(replayer.contracts)
    requires e.ReplayEnd(replayer.contracts, start, s) == Some(Running(replayer.world, scratch))
    modifies replayer`world
    ensures ok <==> e.ReplayEnd(replayer.contracts, start, s + 1).Some?
    ensures ok ==> e.ReplayEnd(replayer.contracts, start, s + 1) == Some(Running(replayer.world, next))
  {
    var begun := e.between(replayer.skipping, s, 0, Running(replayer.world, scratch));
    replayer.world, next := begun.world, begun.scratch;
    var i := 0;
    while i < e.Count(s)
      invariant i <= e.Count(s)
      invariant Stands(e, replayer.contracts, start, s, i, replayer.world, next)
    {
      ok, next := RunWindow(e, replayer, s, i, start, next);
      i := i + 1;
      if !ok {
        StaysFailed(e, replayer.contracts, start, s, i);
        return;
      }
    }
    ok := true;
  }

  lemma {:induction false} StaysFailed(e: Engine, cs: seq<Contract>, start: Running, s: nat, i: nat)
    requires i <= e.Count(s) && forall k | 0 <= k < |cs| :: cs[k].pattern != []
    requires e.ReplayBefore(cs, start, s, i) == None
    ensures e.ReplayBefore(cs, start, s, e.Count(s)) == None
    decreases e.Count(s) - i
  {
    if i < e.Count(s) {
      assert e.ReplayAfter(cs, start, s, i) == None;
      StaysFailed(e, cs, start, s, i + 1);
    }
  }

  lemma {:induction false} StaysEnded(e: Engine, cs: seq<Contract>, start: Running, s: nat, n: nat)
    requires s <= n && forall k | 0 <= k < |cs| :: cs[k].pattern != []
    requires e.ReplayEnd(cs, start, s) == None
    ensures e.ReplayEnd(cs, start, n) == None
    decreases n - s
  {
    if s < n {
      assert e.ReplayBefore(cs, start, s, 0) == None;
      StaysFailed(e, cs, start, s, 0);
      StaysEnded(e, cs, start, s + 1, n);
    }
  }

  // ----- timed runs -----

  /** The baseline: the engine alone, with nothing skipped. */
  method RunBaseline(e: Engine, start: Running, n: nat) returns (end: Running)
    ensures end == e.RealEnd(start, n)
  {
    end := start;
    var s := 0;
    while s < n
      invariant s <= n && end == e.RealEnd(start, s)
    {
      end := e.between(NOTHING, s, 0, end);
      var i := 0;
      while i < e.Count(s)
        invariant i <= e.Count(s) && end == e.RealBefore(start, s, i)
      {
        end := e.between(NOTHING, s, i + 1, e.window(NOTHING, s, i, end));
        i := i + 1;
      }
      s := s + 1;
    }
  }

  method RunReplayed(e: Engine, start: Running, n: nat, cs: seq<Contract>) returns (end: Option<Running>)
    requires ReplayableOps(cs)
    ensures end == e.ReplayEnd(cs, start, n)
  {
    var replayer := new ContractReplayer(start.world, cs);
    var scratch := start.scratch;
    var s := 0;
    while s < n
      invariant s <= n && e.ReplayEnd(cs, start, s) == Some(Running(replayer.world, scratch))
    {
      replayer.SetStepIndex(s);
      var ok;
      ok, scratch := RunSecond(e, replayer, s, start, scratch);
      s := s + 1;
      if !ok {
        StaysEnded(e, cs, start, s, n);
        return None;
      }
    }
    end := Some(Running(replayer.world, scratch));
  }

  /** Replaying nothing is running the engine. */
  lemma NothingReplayed(e: Engine, s: nat, i: nat, r: Running)
    requires i < e.Count(s)
    ensures e.Hooked([], s, i, r) == Some(r)
  {
    assert e.In([], s, i) == [];
    ViewOf(View(r.world), r.world);
  }

  lemma {:induction false} NothingIsReal(e: Engine, start: Running, s: nat, i: nat)
    requires i <= e.Count(s)
    ensures e.ReplayBefore([], start, s, i) == Some(e.RealBefore(start, s, i))
    decreases s, i
  {
    assert SkippingOf([]) == NOTHING;
    if i > 0 {
      NothingIsReal(e, start, s, i - 1);
      NothingReplayed(e, s, i - 1, e.RealAfter(start, s, i - 1));
      assert e.ReplayAfter([], start, s, i - 1) == Some(e.RealAfter(start, s, i - 1));
    } else if s > 0 {
      NothingIsReal(e, start, s - 1, e.Count(s - 1));
    }
  }

  /** The end of a timed run with a selection of contracts; without any, that is the end of the real run. */
  method RunTimed(e: Engine, start: Running, n: nat, cs: seq<Contract>) returns (end: Option<Running>)
    requires ReplayableOps(cs)
    ensures end == e.ReplayEnd(cs, start, n)
    ensures cs == [] ==> end == Some(e.RealEnd(start, n))
  {
    if cs == [] {
      if n > 0 {
        NothingIsReal(e, start, n - 1, e.Count(n - 1));
      }
      var baseline := RunBaseline(e, start, n);
      return Some(baseline);
    }
    end := RunReplayed(e, start, n, cs);
  }

  // ----- fallback tiers -----

  datatype Tier = Everything | PeriodOne | Disabled

  /** What was selected, and the state its timed run left. */
  datatype Choice = Choice(tier: Tier, selected: seq<Contract>, end: World)

  /** The replay of these contracts ends in the state in which the real run ends. */
  predicate Reproduces(e: Engine, start: Running, n: nat, cs: seq<Contract>)
    requires forall k | 0 <= k < |cs| :: cs[k].pattern != []
  {
    e.ReplayEnd(cs, start, n).Some? && e.ReplayEnd(cs, start, n).value.world == e.RealEnd(start, n).world
  }

  function PeriodOnes(cs: seq<Contract>): (r: seq<Contract>)
    requires ReplayableOps(cs)
    ensures ReplayableOps(r) && forall c :: c in r <==> c in cs && |c.pattern| == 1
  {
    if cs == [] then []
    else
      var rest, last := cs[..|cs| - 1], cs[|cs| - 1];
      assert cs == rest + [last];
      assert forall k | 0 <= k < |rest| :: rest[k] == cs[k];
      if |last.pattern| == 1 then PeriodOnes(rest) + [last] else PeriodOnes(rest)
  }

  /**
   * Replays all validated contracts; if the final state differs from that of the real run, only those of period one;
   * if that differs too, none. Whatever is selected reproduces the real run; without a choice, a replay failed.
   */
  method ChooseTier(e: Engine, start: Running, n: nat, all: seq<Contract>) returns (r: Option<Choice>)
    requires ReplayableOps(all)
    ensures r.Some? ==> r.value.end == e.RealEnd(start, n).world && ReplayableOps(r.value.selected)
                        && Reproduces(e, start, n, r.value.selected)
    ensures match r
            case None => e.ReplayEnd(all, start, n).None? || (!Reproduces(e, start, n, all) && e.ReplayEnd(PeriodOnes(all), start, n).None?)
            case Some(Choice(Everything, selected, _)) => selected == all
            case Some(Choice(PeriodOne, selected, _)) => selected == PeriodOnes(all) && !Reproduces(e, start, n, all)
            case Some(Choice(Disabled, selected, _)) =>
              selected == [] && !Reproduces(e, start, n, all) && !Reproduces(e, start, n, PeriodOnes(all))
    ensures Reproduces(e, start, n, all) <==> r.Some? && r.value.tier.Everything?
  {
    var baseline := RunTimed(e, start, n, []);
    var optimized := RunTimed(e, start, n, all);
    if optimized.None? {
      return None;
    }
    if optimized.value.world == baseline.value.world {
      return Some(Choice(Everything, all, optimized.value.world));
    }
    optimized := RunTimed(e, start, n, PeriodOnes(all));
    if optimized.None? {
      return None;
    }
    if optimized.value.world == baseline.value.world {
      return Some(Choice(PeriodOne, PeriodOnes(all), optimized.value.world));
    }
    optimized := RunTimed(e, start, n, []);
    r := Some(Choice(Disabled, [], optimized.value.world));
  }

  lemma FittingReproduces(norm: Normalizer, e: Engine, cs: seq<Contract>, start: Running, n: nat)
    requires Contracted(norm, e, cs, start, n) && n > 0
    requires forall s, i | 0 <= s < n && 0 <= i < e.Count(s) :: WindowFits(e, cs, start, s, i)
    ensures Reproduces(e, start, n, cs) <==> LastGapAgrees(e, cs, start, n - 1)
  {
    ReplayedSecond(norm, e, cs, start, n, n - 1);
  }

  /**
   * Validated contracts stay selected: if every window of the run fits, the replay of all of them reproduces the real
   * run, and no fallback is taken, exactly when the last gap, run with skips, leaves the real state.
   */
  lemma ValidatedReproduce(norm: Normalizer, observing: Engine, first: Running, m: nat, maximum: int,
                           e: Engine, cs: seq<Contract>, start: Running, n: nat)
    requires DistinctPlanets(e, n) && n > 0
    requires forall k | 0 <= k < |cs| ::
               PatternOf(norm, Observation(norm, observing, first, m, cs[k].scope), maximum, cs[k].pattern)
    requires forall k | 0 <= k < |cs| :: cs[k].pattern != [] && Validated(norm, e, start, n, cs[k])
    requires forall s, i | 0 <= s < n && 0 <= i < e.Count(s) :: WindowFits(e, cs, start, s, i)
    ensures Reproduces(e, start, n, cs) <==> LastGapAgrees(e, cs, start, n - 1)
  {
    ValidatedContracted(norm, observing, first, m, maximum, e, cs, start, n);
    FittingReproduces(norm, e, cs, start, n);
  }
}
