/** The collector that watches every component through the windows of a second. */
module Collector {
  import opened Wrappers
  import opened Json
  import opened Patch
  import opened StateDiff
  import opened Windows
  import opened Contracts

  /** A copy of a component's entities and belts. */
  datatype Snapshot = Snapshot(entities: map<string, Value>, belts: map<string, Value>)
  {
    function AsValue(): Value {
      Node(entities, belts)
    }
  }

  function Take(w: World, scope: Scope, phase: Phase): Snapshot {
    Snapshot(Restrict(w.entities, scope.Entities(phase)), Restrict(w.belts, scope.Belts(phase)))
  }

  /** What a phase yields when its component looked like `before` at the start and the world is `w` at the end. */
  ghost function Outcome(norm: Normalizer, before: Snapshot, w: World, scope: Scope, phase: Phase): PhaseStep {
    PhaseStep(
      Diff(norm, before.AsValue(), Take(w, scope, phase).AsValue()),
      if phase.Production? then Ledger(SortedKeys(scope.productionIds), before.entities, Take(w, scope, phase).entities)
      else map[])
  }

  lemma {:induction false} ProducedInScope(ids: seq<string>, before: map<string, Value>, after: map<string, Value>,
                                           scope: set<string>, item: string)
    requires forall id | id in ids :: id in scope
    ensures ProducedOf(ids, Restrict(before, scope), Restrict(after, scope), item) == ProducedOf(ids, before, after, item)
  {
    if ids != [] {
      ProducedInScope(ids[..|ids| - 1], before, after, scope, item);
      assert ids[|ids| - 1] in ids;
    }
  }

  lemma LedgerInScope(before: map<string, Value>, after: map<string, Value>, ids: set<string>)
    ensures Ledger(SortedKeys(ids), Restrict(before, ids), Restrict(after, ids)) == Ledger(SortedKeys(ids), before, after)
  {
    var keys := SortedKeys(ids);
    var r := Ledger(keys, Restrict(before, ids), Restrict(after, ids));
    forall item
      ensures item in r <==> ProducedOf(keys, before, after, item) > 0
      ensures item in r ==> r[item] == ProducedOf(keys, before, after, item)
    {
      ProducedInScope(keys, before, after, ids, item);
      assert item in r || item !in r;
    }
    LedgerUnique(keys, before, after, r);
  }

  /** From a snapshot taken in the same phase, the outcome is what the windows show. */
  lemma OutcomeObserved(norm: Normalizer, before: World, after: World, scope: Scope, phase: Phase)
    ensures Outcome(norm, Take(before, scope, phase), after, scope, phase) == ObservedPhase(norm, before, after, scope, phase)
  {
    if phase.Production? {
      LedgerInScope(before.entities, after.entities, scope.productionIds);
    }
  }

  /** One value per phase, as far as it is there. */
  datatype Phases<T> = Phases(input: Option<T>, production: Option<T>, output: Option<T>)
  {
    function Of(phase: Phase): Option<T> {
      match phase
      case Input => input
      case Production => production
      case Output => output
    }

    function With(phase: Phase, value: T): Phases<T> {
      match phase
      case Input => this.(input := Some(value))
      case Production => this.(production := Some(value))
      case Output => this.(output := Some(value))
    }
  }

  function Nothing<T>(n: nat): (r: seq<Phases<T>>)
    ensures |r| == n && forall k | 0 <= k < n :: r[k] == Phases(None, None, None)
  {
    seq(n, _ => Phases(None, None, None))
  }

  function OrEmpty(result: Option<PhaseStep>): PhaseStep {
    if result.Some? then result.value else EMPTY_PHASE
  }

  function CombineStep(results: Phases<PhaseStep>): StepTransition {
    StepTransition(OrEmpty(results.input), OrEmpty(results.production), OrEmpty(results.output))
  }

  /** The input and output hooks concern every component, the production hook those of one planet. */
  predicate Concerned(scope: Scope, phase: Phase, planet: string) {
    phase.Production? ==> scope.planetId == planet
  }

  method OutcomeOf(norm: Normalizer, before: Snapshot, w: World, scope: Scope, phase: Phase) returns (r: PhaseStep)
    ensures r == Outcome(norm, before, w, scope, phase)
  {
    var after := Take(w, scope, phase);
    var transition := TransitionBetween(norm, before.AsValue(), after.AsValue());
    if phase.Production? {
      var produced := ProducedDuringPhase(SortedKeys(scope.productionIds), before.entities, after.entities);
      LedgerUnique(SortedKeys(scope.productionIds), before.entities, after.entities, produced);
      r := PhaseStep(transition, produced);
    } else {
      r := PhaseStep(transition, map[]);
    }
  }

  /** A component's results after the closing hook of a phase. */
  ghost function Closed(norm: Normalizer, was: Phases<PhaseStep>, before: Phases<Snapshot>, w: World,
                        scope: Scope, phase: Phase, planet: string): Phases<PhaseStep> {
    if Concerned(scope, phase, planet) && before.Of(phase).Some? then
      was.With(phase, Outcome(norm, before.Of(phase).value, w, scope, phase))
    else was
  }

  /** One entry of the results after the closing hook. */
  ghost predicate IsClosed(closed: seq<Phases<PhaseStep>>, k: nat, norm: Normalizer, was: seq<Phases<PhaseStep>>,
                           before: seq<Phases<Snapshot>>, w: World, components: seq<Scope>, phase: Phase, planet: string)
  {
    && k < |closed| == |was| == |before| == |components|
    && closed[k] == Closed(norm, was[k], before[k], w, components[k], phase, planet)
  }

  /** The results of every component after the closing hook. */
  ghost predicate AllClosed(closed: seq<Phases<PhaseStep>>, norm: Normalizer, was: seq<Phases<PhaseStep>>,
                            before: seq<Phases<Snapshot>>, w: World, components: seq<Scope>, phase: Phase, planet: string)
  {
    && |closed| == |was| == |before| == |components|
    && forall k: nat {:trigger IsClosed(closed, k, norm, was, before, w, components, phase, planet)} | k < |closed| ::
         IsClosed(closed, k, norm, was, before, w, components, phase, planet)
  }

  lemma ClosedExists(norm: Normalizer, was: seq<Phases<PhaseStep>>, before: seq<Phases<Snapshot>>, w: World,
                     components: seq<Scope>, phase: Phase, planet: string) returns (closed: seq<Phases<PhaseStep>>)
    requires |was| == |before| == |components|
    ensures AllClosed(closed, norm, was, before, w, components, phase, planet)
  {
    closed := seq(|components|, k requires 0 <= k < |components| =>
      Closed(norm, was[k], before[k], w, components[k], phase, planet));
  }

  /** Closes the phase for one component. */
  method CloseOne(ghost closed: seq<Phases<PhaseStep>>, k: nat, norm: Normalizer, was: seq<Phases<PhaseStep>>,
                  before: seq<Phases<Snapshot>>, w: World, components: seq<Scope>, phase: Phase, planet: string)
    returns (ok: bool, r: Phases<PhaseStep>)
    requires AllClosed(closed, norm, was, before, w, components, phase, planet) && k < |components|
    ensures ok <==> (Concerned(components[k], phase, planet) ==> before[k].Of(phase).Some?)
    ensures ok ==> r == closed[k]
  {
    assert IsClosed(closed, k, norm, was, before, w, components, phase, planet);
    ok, r := true, was[k];
    if Concerned(components[k], phase, planet) {
      if before[k].Of(phase).None? {
        ok := false;
      } else {
        var outcome := OutcomeOf(norm, before[k].Of(phase).value, w, components[k], phase);
        r := was[k].With(phase, outcome);
      }
    }
  }

  class PhaseCollector {
    const components: seq<Scope>
    var snapshots: seq<Phases<Snapshot>>
    var results: seq<Phases<PhaseStep>>

    constructor (components: seq<Scope>)
      ensures this.components == components && Valid()
      ensures snapshots == Nothing(|components|) && results == Nothing(|components|)
    {
      this.components := components;
      snapshots, results := Nothing(|components|), Nothing(|components|);
    }

    predicate Valid()
      reads this
    {
      |snapshots| == |results| == |components|
    }

    method CaptureBefore(w: World, phase: Phase, planet: string)
      requires Valid()
      modifies this`snapshots
      ensures Valid()
      ensures forall k | 0 <= k < |components| ::
                snapshots[k] == if Concerned(components[k], phase, planet) then
                  old(snapshots)[k].With(phase, Take(w, components[k], phase)) else old(snapshots)[k]
    {
      var n := 0;
      while n < |components|
        invariant n <= |components| && Valid()
        invariant forall k | 0 <= k < |components| ::
                    snapshots[k] == if k < n && Concerned(components[k], phase, planet) then
                      old(snapshots)[k].With(phase, Take(w, components[k], phase)) else old(snapshots)[k]
      {
        if Concerned(components[n], phase, planet) {
          snapshots := snapshots[n := snapshots[n].With(phase, Take(w, components[n], phase))];
        }
        n := n + 1;
      }
    }

    ghost predicate HasSnapshots(phase: Phase, planet: string)
      requires Valid()
      reads this
    {
      forall k | 0 <= k < |components| && Concerned(components[k], phase, planet) :: snapshots[k].Of(phase).Some?
    }

    /** Fails when some concerned component has no snapshot of this phase. */
    method CaptureAfter(norm: Normalizer, w: World, phase: Phase, planet: string) returns (ok: bool)
      requires Valid()
      modifies this`results
      ensures Valid()
      ensures ok <==> HasSnapshots(phase, planet)
      ensures ok ==> AllClosed(results, norm, old(results), snapshots, w, components, phase, planet)
    {
      var was := results;
      ghost var closed := ClosedExists(norm, was, snapshots, w, components, phase, planet);
      var n := 0;
      while n < |components|
        invariant n <= |components| && Valid()
        invariant forall k | 0 <= k < n && Concerned(components[k], phase, planet) :: snapshots[k].Of(phase).Some?
        invariant forall k | 0 <= k < |components| :: results[k] == if k < n then closed[k] else old(results)[k]
      {
        var closing, r := CloseOne(closed, n, norm, was, snapshots, w, components, phase, planet);
        if !closing {
          return false;
        }
        results := results[n := r];
        n := n + 1;
      }
      assert results == closed;
      ok := true;
    }

    /** Hands out one combined step per component and forgets the second. */
    method FinishStep() returns (steps: seq<StepTransition>)
      requires Valid()
      modifies this`snapshots, this`results
      ensures Valid() && snapshots == Nothing(|components|) && results == Nothing(|components|)
      ensures |steps| == |components| && forall k | 0 <= k < |steps| :: steps[k] == CombineStep(old(results)[k])
    {
      steps := [];
      while |steps| < |components|
        invariant |steps| <= |components|
        invariant forall k | 0 <= k < |steps| :: steps[k] == CombineStep(results[k])
      {
        steps := steps + [CombineStep(results[|steps|])];
      }
      snapshots, results := Nothing(|components|), Nothing(|components|);
    }
  }
}
