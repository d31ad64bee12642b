/** One observed second: the hooks of every window in engine order. */
module Observing {
  import opened Wrappers
  import opened Json
  import opened StateDiff
  import opened Windows
  import opened Contracts
  import opened Collector
  import opened ReplayRun

  /** What the collector holds of one component before window `i` of a second. */
  ghost function Progress(at: nat -> PhaseStep, production: Option<nat>, last: nat, i: nat): Phases<PhaseStep> {
    Phases(
      if i > 0 then Some(at(0)) else None,
      if production.Some? && production.value + 1 < i then Some(at(production.value + 1)) else None,
      if i > last then Some(at(last)) else None)
  }

  ghost function ProgressOf(norm: Normalizer, e: Engine, start: Running, s: nat, scope: Scope, i: nat): Phases<PhaseStep> {
    Progress(e.ObservedAt(norm, start, s, scope), IndexOf(e.planets(s), scope.planetId), e.Count(s) - 1, i)
  }

  function PlanetOf(e: Engine, s: nat, i: nat): string
    requires i < e.Count(s)
  {
    if e.PhaseOf(s, i).Production? then e.planets(s)[i - 1] else ""
  }

  lemma ProgressStep(at: nat -> PhaseStep, production: Option<nat>, last: nat, i: nat, phase: Phase, mine: bool)
    requires last >= 1 && i <= last && (production.Some? ==> production.value + 1 < last)
    requires phase == if i == 0 then Input else if i == last then Output else Production
    requires mine <==> (phase.Production? ==> production == Some((i - 1) as nat))
    ensures Progress(at, production, last, i + 1) ==
            if mine then Progress(at, production, last, i).With(phase, at(i)) else Progress(at, production, last, i)
  {
  }

  lemma CombineProgress(at: nat -> PhaseStep, production: Option<nat>, last: nat)
    requires last >= 1 && (production.Some? ==> production.value + 1 < last)
    ensures CombineStep(Progress(at, production, last, last + 1)) == StepFrom(at, production, last)
  {
  }

  lemma WindowOutcome(norm: Normalizer, e: Engine, start: Running, s: nat, scope: Scope, i: nat)
    requires i < e.Count(s)
    ensures e.ObservedAt(norm, start, s, scope)(i) ==
            Outcome(norm, Take(e.Before(start, s, i), scope, e.PhaseOf(s, i)), e.After(start, s, i), scope, e.PhaseOf(s, i))
  {
    OutcomeObserved(norm, e.Before(start, s, i), e.After(start, s, i), scope, e.PhaseOf(s, i));
    ObservedAtOf(norm, e, start, s, i, scope);
  }

  lemma ConcernedIndex(e: Engine, s: nat, i: nat, scope: Scope)
    requires i < e.Count(s) && forall j, k | 0 <= j < k < |e.planets(s)| :: e.planets(s)[j] != e.planets(s)[k]
    ensures Concerned(scope, e.PhaseOf(s, i), PlanetOf(e, s, i)) <==>
            (e.PhaseOf(s, i).Production? ==> IndexOf(e.planets(s), scope.planetId) == Some((i - 1) as nat))
  {
    if e.PhaseOf(s, i).Production? && scope.planetId == PlanetOf(e, s, i) {
      IndexOfDistinct(e.planets(s), i - 1);
    }
  }

  /** One window adds the outcome of the components it concerns. */
  lemma WindowProgress(norm: Normalizer, e: Engine, start: Running, s: nat, scope: Scope, i: nat, at: nat -> PhaseStep)
    requires i < e.Count(s) && forall j, k | 0 <= j < k < |e.planets(s)| :: e.planets(s)[j] != e.planets(s)[k]
    ensures Progress(at, IndexOf(e.planets(s), scope.planetId), e.Count(s) - 1, i + 1) ==
            if Concerned(scope, e.PhaseOf(s, i), PlanetOf(e, s, i)) then
              Progress(at, IndexOf(e.planets(s), scope.planetId), e.Count(s) - 1, i).With(e.PhaseOf(s, i), at(i))
            else Progress(at, IndexOf(e.planets(s), scope.planetId), e.Count(s) - 1, i)
  {
    ConcernedIndex(e, s, i, scope);
    ProgressStep(at, IndexOf(e.planets(s), scope.planetId), e.Count(s) - 1, i, e.PhaseOf(s, i),
                 Concerned(scope, e.PhaseOf(s, i), PlanetOf(e, s, i)));
  }

  lemma ProgressDone(norm: Normalizer, e: Engine, start: Running, s: nat, scope: Scope, at: nat -> PhaseStep)
    requires at == e.ObservedAt(norm, start, s, scope)
    ensures CombineStep(Progress(at, IndexOf(e.planets(s), scope.planetId), e.Count(s) - 1, e.Count(s))) ==
            e.Observed(norm, start, s, scope)
  {
    ObservedFrom(norm, e, start, s, scope, at);
    CombineProgress(at, IndexOf(e.planets(s), scope.planetId), e.Count(s) - 1);
  }

  ghost predicate AllProgress(results: seq<Phases<PhaseStep>>, norm: Normalizer, e: Engine, start: Running, s: nat,
                              components: seq<Scope>, i: nat)
  {
    |results| == |components| &&
    forall k: nat {:trigger ProgressOf(norm, e, start, s, components[k], i)} | k < |components| ::
      results[k] == ProgressOf(norm, e, start, s, components[k], i)
  }

  ghost predicate AllTaken(snapshots: seq<Phases<Snapshot>>, w: World, components: seq<Scope>, phase: Phase, planet: string) {
    |snapshots| == |components| &&
    forall k | 0 <= k < |components| && Concerned(components[k], phase, planet) ::
      snapshots[k].Of(phase) == Some(Take(w, components[k], phase))
  }

  lemma CloseProgress(norm: Normalizer, e: Engine, start: Running, s: nat, components: seq<Scope>, i: nat,
                      snapshots: seq<Phases<Snapshot>>, was: seq<Phases<PhaseStep>>, results: seq<Phases<PhaseStep>>)
    requires i < e.Count(s) && forall j, k | 0 <= j < k < |e.planets(s)| :: e.planets(s)[j] != e.planets(s)[k]
    requires AllTaken(snapshots, e.Before(start, s, i), components, e.PhaseOf(s, i), PlanetOf(e, s, i))
    requires AllProgress(was, norm, e, start, s, components, i)
    requires AllClosed(results, norm, was, snapshots, e.After(start, s, i), components, e.PhaseOf(s, i), PlanetOf(e, s, i))
    ensures AllProgress(results, norm, e, start, s, components, i + 1)
  {
    forall k: nat | k < |components| ensures results[k] == ProgressOf(norm, e, start, s, components[k], i + 1) {
      assert IsClosed(results, k, norm, was, snapshots, e.After(start, s, i), components, e.PhaseOf(s, i), PlanetOf(e, s, i));
      assert was[k] == ProgressOf(norm, e, start, s, components[k], i);
      WindowProgress(norm, e, start, s, components[k], i, e.ObservedAt(norm, start, s, components[k]));
      WindowOutcome(norm, e, start, s, components[k], i);
    }
  }

  /** The two hooks around one window. */
  method ObserveWindow(norm: Normalizer, e: Engine, start: Running, s: nat, i: nat, collector: PhaseCollector)
    requires i < e.Count(s) && forall j, k | 0 <= j < k < |e.planets(s)| :: e.planets(s)[j] != e.planets(s)[k]
    requires collector.Valid() && AllProgress(collector.results, norm, e, start, s, collector.components, i)
    modifies collector
    ensures collector.Valid() && AllProgress(collector.results, norm, e, start, s, collector.components, i + 1)
  {
    var phase, planet := e.PhaseOf(s, i), PlanetOf(e, s, i);
    collector.CaptureBefore(e.Before(start, s, i), phase, planet);
    ghost var was := collector.results;
    var ok := collector.CaptureAfter(norm, e.After(start, s, i), phase, planet);
    assert ok;
    CloseProgress(norm, e, start, s, collector.components, i, collector.snapshots, was, collector.results);
  }

  lemma AllDone(norm: Normalizer, e: Engine, start: Running, s: nat, components: seq<Scope>, results: seq<Phases<PhaseStep>>,
                steps: seq<StepTransition>)
    requires AllProgress(results, norm, e, start, s, components, e.Count(s))
    requires |steps| == |components| && forall k | 0 <= k < |steps| :: steps[k] == CombineStep(results[k])
    ensures forall k | 0 <= k < |steps| :: steps[k] == e.Observed(norm, start, s, components[k])
  {
    forall k | 0 <= k < |steps| ensures steps[k] == e.Observed(norm, start, s, components[k]) {
      assert results[k] == ProgressOf(norm, e, start, s, components[k], e.Count(s));
      ProgressDone(norm, e, start, s, components[k], e.ObservedAt(norm, start, s, components[k]));
    }
  }

  lemma NoProgress(norm: Normalizer, e: Engine, start: Running, s: nat, components: seq<Scope>)
    ensures AllProgress(Nothing(|components|), norm, e, start, s, components, 0)
  {
  }

  /** The hooks of all windows of a second, in engine order. */
  method ObserveWindows(norm: Normalizer, e: Engine, start: Running, s: nat, collector: PhaseCollector)
    requires collector.Valid() && AllProgress(collector.results, norm, e, start, s, collector.components, 0)
    requires forall j, k | 0 <= j < k < |e.planets(s)| :: e.planets(s)[j] != e.planets(s)[k]
    modifies collector
    ensures collector.Valid() && AllProgress(collector.results, norm, e, start, s, collector.components, e.Count(s))
  {
    var i := 0;
    while i < e.Count(s)
      invariant i <= e.Count(s) && collector.Valid()
      invariant AllProgress(collector.results, norm, e, start, s, collector.components, i)
    {
      ObserveWindow(norm, e, start, s, i, collector);
      i := i + 1;
    }
  }

  /** The hooks of one second never fail and leave, for every component, exactly what its windows show. */
  method ObserveSecond(norm: Normalizer, e: Engine, start: Running, s: nat, collector: PhaseCollector)
    returns (steps: seq<StepTransition>)
    requires collector.Valid() && collector.results == Nothing(|collector.components|)
    requires forall j, k | 0 <= j < k < |e.planets(s)| :: e.planets(s)[j] != e.planets(s)[k]
    modifies collector
    ensures collector.Valid() && collector.results == Nothing(|collector.components|)
    ensures |steps| == |collector.components|
    ensures forall k | 0 <= k < |steps| :: steps[k] == e.Observed(norm, start, s, collector.components[k])
  {
    NoProgress(norm, e, start, s, collector.components);
    ObserveWindows(norm, e, start, s, collector);
    ghost var done := collector.results;
    steps := collector.FinishStep();
    AllDone(norm, e, start, s, collector.components, done, steps);
  }
}
