/** From a plant to a replayed run: its components, their detected and validated contracts, and the shared stations. */
module PlantReplay {
  import opened Wrappers
  import opened Json
  import opened Patch
  import opened StateDiff
  import opened Factory
  import opened Components
  import opened Windows
  import opened Contracts
  import opened ReplayWindowLaws
  import opened ReplayLimits
  import opened ReplayRun
  import opened ContractTracking
  import opened ContractScopes

  /**
   * For contracts of a decomposed plant, one window replays exactly if and only if it is a production window or leaves
   * every station that bounds two contracted components calm.
   */
  lemma PlantWindowExact(norm: Normalizer, m: Registry, belts: seq<Belt>, result: seq<Component>, cs: seq<Contract>,
                         picks: seq<nat>, second: nat, phase: Phase, before: World, skipped: World, after: World)
    requires Decomposes(m, belts, result) && DistinctBeltIds(belts) && Selects(result, cs, picks)
    requires norm(0.0) == 0.0 && AllRecur(norm, cs, second, phase, before, after)
    requires Skips(norm, cs, phase, before, skipped, after)
    ensures forall i | 0 <= i < |cs| :: cs[i].pattern != []
    ensures ApplyAll(Exact, View(skipped), WindowOps(cs, second, phase)) == Some(View(after)) <==>
            phase.Production? || StationsCalm(result, picks, before, after)
  {
    DecompositionUntangled(m, belts, result, cs, picks, phase, before, after);
    ReplayExactIffUntangled(norm, cs, second, phase, before, skipped, after);
  }

  lemma SelectsRest(result: seq<Component>, cs: seq<Contract>, picks: seq<nat>)
    requires cs != [] && Selects(result, cs, picks)
    ensures Selects(result, cs[..|cs| - 1], picks[..|cs| - 1])
    ensures picks[|cs| - 1] !in picks[..|cs| - 1] && forall k | k in picks[..|cs| - 1] :: k in picks
  {
  }

  lemma SelectsMore(result: seq<Component>, cs: seq<Contract>, picks: seq<nat>, c: Contract, k: nat)
    requires Selects(result, cs, picks) && k !in picks && k < |result| && c.scope == ScopeOf(result[k])
    ensures Selects(result, cs + [c], picks + [k])
  {
  }

  /** The contracts of one planet select components too. */
  lemma {:induction false} PlanetSelects(result: seq<Component>, cs: seq<Contract>, picks: seq<nat>, planet: string)
    returns (chosen: seq<nat>)
    requires Selects(result, cs, picks)
    ensures Selects(result, OnPlanet(cs, planet), chosen)
    ensures forall k | k in chosen :: k in picks
    decreases |cs|
  {
    if cs == [] {
      chosen := [];
    } else {
      var n := |cs| - 1;
      SelectsRest(result, cs, picks);
      var rest := PlanetSelects(result, cs[..n], picks[..n], planet);
      if cs[n].scope.planetId == planet {
        SelectsMore(result, OnPlanet(cs[..n], planet), rest, cs[n], picks[n]);
        chosen := rest + [picks[n]];
      } else {
        chosen := rest;
      }
    }
  }

  /**
   * One window of a plant that repeats the record and leaves shared stations calm, with an engine that, with skips,
   * keeps the contracted parts still in the gap before the window and in the window.
   */
  ghost predicate PlantWindowCalm(norm: Normalizer, e: Engine, result: seq<Component>, cs: seq<Contract>, picks: seq<nat>,
                                  start: Running, s: nat, i: nat)
    requires i < e.Count(s) && Selects(result, cs, picks)
  {
    var window, phase, before, after := e.In(cs, s, i), e.PhaseOf(s, i), e.Before(start, s, i), e.After(start, s, i);
    && AllRecur(norm, window, s, phase, before, after) && Skips(norm, window, phase, before, e.SkippedAfter(cs, start, s, i).world, after)
    && (phase.Production? || StationsCalm(result, picks, before, after))
  }

  lemma PlantWindowApart(norm: Normalizer, m: Registry, belts: seq<Belt>, e: Engine, result: seq<Component>,
                         cs: seq<Contract>, picks: seq<nat>, start: Running, s: nat, i: nat)
    requires Decomposes(m, belts, result) && DistinctBeltIds(belts) && Selects(result, cs, picks)
    requires i < e.Count(s) && PlantWindowCalm(norm, e, result, cs, picks, start, s, i)
    ensures WindowApart(norm, e, cs, start, s, i)
  {
    var phase, before, after := e.PhaseOf(s, i), e.Before(start, s, i), e.After(start, s, i);
    if phase.Production? {
      var chosen := PlanetSelects(result, cs, picks, e.planets(s)[i - 1]);
      DecompositionUntangled(m, belts, result, OnPlanet(cs, e.planets(s)[i - 1]), chosen, phase, before, after);
    } else {
      DecompositionUntangled(m, belts, result, cs, picks, phase, before, after);
    }
  }

  /**
   * From a plant to a replayed run: contracts for any selection of the plant's components, detected in one run and
   * validated in the next, replay that next run exactly, window by window, precisely when the recorded additions land,
   * as long as the engine keeps skipped parts still in every window and the gap before it, the run repeats the recorded
   * amounts, and no number changes in a station that two contracted components share.
   */
  lemma PlantReplaysRun(norm: Normalizer, m: Registry, belts: seq<Belt>, result: seq<Component>, cs: seq<Contract>,
                        picks: seq<nat>, observing: Engine, first: Running, seconds: nat, maximum: int,
                        e: Engine, start: Running, n: nat)
    requires Decomposes(m, belts, result) && DistinctBeltIds(belts) && Selects(result, cs, picks)
    requires norm(0.0) == 0.0 && DistinctPlanets(e, n)
    requires forall k | 0 <= k < |cs| ::
               PatternOf(norm, Observation(norm, observing, first, seconds, cs[k].scope), maximum, cs[k].pattern)
    requires forall k | 0 <= k < |cs| :: cs[k].pattern != [] && Validated(norm, e, start, n, cs[k])
    requires forall s, i | 0 <= s < n && 0 <= i < e.Count(s) :: PlantWindowCalm(norm, e, result, cs, picks, start, s, i)
    ensures (forall s, i | 0 <= s < n && 0 <= i < e.Count(s) :: WindowAgrees(e, cs, start, s, i)) <==>
            (forall s, i | 0 <= s < n && 0 <= i < e.Count(s) :: WindowLands(e, cs, start, s, i))
  {
    ValidatedContracted(norm, observing, first, seconds, maximum, e, cs, start, n);
    forall s, i | 0 <= s < n && 0 <= i < e.Count(s) ensures WindowApart(norm, e, cs, start, s, i) {
      PlantWindowApart(norm, m, belts, e, result, cs, picks, start, s, i);
    }
    ApartRunLands(norm, e, cs, start, n);
  }
}
