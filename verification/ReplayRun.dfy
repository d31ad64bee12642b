/** Replaying a whole run of contracted seconds refines running the engine. */
module ReplayRun {
  import opened Wrappers
  import opened Json
  import opened Patch
  import opened StateDiff
  import opened DiffLaws
  import opened Windows
  import opened Contracts
  import opened ReplayWindowLaws
  import opened ReplayExactness
  import opened ReplayLimits

  /** The simulated state with the engine's working data, such as capacity reservations, which no snapshot shows. */
  datatype Running = Running(world: World, scratch: Value)

  /** The belts and producers that the engine leaves to replay, by identifier. */
  datatype Skipping = Skipping(belts: set<string>, producers: set<string>)

  const NOTHING: Skipping := Skipping({}, {})

  function SkippingOf(cs: seq<Contract>): (r: Skipping)
    ensures forall b :: b in r.belts <==> exists c | c in cs :: b in c.scope.beltIds
    ensures forall p :: p in r.producers <==> exists c | c in cs :: p in c.scope.productionIds
  {
    Skipping(set c, b | c in cs && b in c.scope.beltIds :: b, set c, p | c in cs && p in c.scope.productionIds :: p)
  }

  /**
   * The engine, as far as contracts see it. Every second has an input window, one production window per
   * planet, and an output window; `window` runs one of them and `between` everything up to the next one. Both
   * depend on what is skipped.
   */
  datatype Engine = Engine(
    planets: nat -> seq<string>,
    between: (Skipping, nat, nat, Running) -> Running,
    window: (Skipping, nat, nat, Running) -> Running)
  {
    function Count(second: nat): nat {
      |planets(second)| + 2
    }

    function PhaseOf(second: nat, i: nat): Phase
      requires i < Count(second)
    {
      if i == 0 then Input else if i == Count(second) - 1 then Output else Production
    }

    /** The contracts a window replays: all of them, or those of one planet. */
    function In(cs: seq<Contract>, second: nat, i: nat): seq<Contract>
      requires i < Count(second)
    {
      if PhaseOf(second, i).Production? then OnPlanet(cs, planets(second)[i - 1]) else cs
    }

    // ----- the real run -----

    function RealBefore(start: Running, second: nat, i: nat): Running
      requires i <= Count(second)
      decreases second, i
    {
      if i > 0 then between(NOTHING, second, i, RealAfter(start, second, i - 1))
      else if second == 0 then between(NOTHING, 0, 0, start)
      else between(NOTHING, second, 0, RealBefore(start, second - 1, Count(second - 1)))
    }

    function RealAfter(start: Running, second: nat, i: nat): Running
      requires i < Count(second)
      decreases second, i + 1, 0
    {
      window(NOTHING, second, i, RealBefore(start, second, i))
    }

    /** The real world just before window `i` of a second. */
    function Before(start: Running, second: nat, i: nat): World
      requires i <= Count(second)
    {
      RealBefore(start, second, i).world
    }

    /** The real world just after window `i`. */
    function After(start: Running, second: nat, i: nat): World
      requires i < Count(second)
    {
      RealAfter(start, second, i).world
    }

    // ----- the replayed run -----

    /** The replayed run just before window `i` of a second. */
    function ReplayBefore(cs: seq<Contract>, start: Running, second: nat, i: nat): Option<Running>
      requires i <= Count(second) && forall k | 0 <= k < |cs| :: cs[k].pattern != []
      decreases second, i
    {
      if i > 0 then
        match ReplayAfter(cs, start, second, i - 1)
        case Some(r) => Some(between(SkippingOf(cs), second, i, r))
        case None => None
      else if second == 0 then Some(between(SkippingOf(cs), 0, 0, start))
      else
        match ReplayBefore(cs, start, second - 1, Count(second - 1))
        case Some(r) => Some(between(SkippingOf(cs), second, 0, r))
        case None => None
    }

    /** The replayed run just after window `i`: the engine with skips, then the recorded operations. */
    function ReplayAfter(cs: seq<Contract>, start: Running, second: nat, i: nat): Option<Running>
      requires i < Count(second) && forall k | 0 <= k < |cs| :: cs[k].pattern != []
      decreases second, i + 1, 0
    {
      match ReplayBefore(cs, start, second, i)
      case Some(r) => Hooked(cs, second, i, window(SkippingOf(cs), second, i, r))
      case None => None
    }

    /** The replay hook after a window. */
    function Hooked(cs: seq<Contract>, second: nat, i: nat, skipped: Running): Option<Running>
      requires i < Count(second) && forall k | 0 <= k < |cs| :: cs[k].pattern != []
    {
      match ReplayWindow(Rounded, In(cs, second, i), second, PhaseOf(second, i), skipped.world)
      case Some(w) => Some(Running(w, skipped.scratch))
      case None => None
    }

    // ----- what a run of whole seconds leaves -----

    /** The real run after `n` seconds. */
    function RealEnd(start: Running, n: nat): Running {
      if n == 0 then start else RealBefore(start, n - 1, Count(n - 1))
    }

    /** The replayed run after `n` seconds, unless it failed. */
    function ReplayEnd(cs: seq<Contract>, start: Running, n: nat): Option<Running>
      requires forall k | 0 <= k < |cs| :: cs[k].pattern != []
    {
      if n == 0 then Some(start) else ReplayBefore(cs, start, n - 1, Count(n - 1))
    }

    // ----- skipping along the real run -----

    /** What skipping makes of the real worlds: the gaps and windows with skips, each window ended by the real world. */
    function SkippedBefore(cs: seq<Contract>, start: Running, second: nat, i: nat): Running
      requires i <= Count(second)
      decreases second, i
    {
      if i > 0 then
        between(SkippingOf(cs), second, i, Running(After(start, second, i - 1), SkippedAfter(cs, start, second, i - 1).scratch))
      else if second == 0 then between(SkippingOf(cs), 0, 0, start)
      else between(SkippingOf(cs), second, 0, SkippedBefore(cs, start, second - 1, Count(second - 1)))
    }

    function SkippedAfter(cs: seq<Contract>, start: Running, second: nat, i: nat): Running
      requires i < Count(second)
      decreases second, i + 1, 0
    {
      window(SkippingOf(cs), second, i, SkippedBefore(cs, start, second, i))
    }

    /** What each window of a second shows of one component. */
    ghost function ObservedAt(norm: Normalizer, start: Running, second: nat, scope: Scope): nat -> PhaseStep {
      (i: nat) => if i < Count(second) then
          ObservedPhase(norm, Before(start, second, i), After(start, second, i), scope, PhaseOf(second, i))
        else EMPTY_PHASE
    }

    /** What the collector records of one component in one second of the real run. */
    ghost function Observed(norm: Normalizer, start: Running, second: nat, scope: Scope): StepTransition {
      StepFrom(ObservedAt(norm, start, second, scope), IndexOf(planets(second), scope.planetId), Count(second) - 1)
    }
  }

  /** A step put together from the first, the production and the last window. */
  ghost function StepFrom(at: nat -> PhaseStep, production: Option<nat>, last: nat): StepTransition {
    StepTransition(at(0), if production.Some? then at(production.value + 1) else EMPTY_PHASE, at(last))
  }

  function OnPlanet(cs: seq<Contract>, planet: string): (r: seq<Contract>)
    ensures forall c :: c in r <==> c in cs && c.scope.planetId == planet
    ensures (forall k | 0 <= k < |cs| :: cs[k].pattern != []) ==> forall k | 0 <= k < |r| :: r[k].pattern != []
  {
    if cs == [] then []
    else
      var last, rest := cs[|cs| - 1], OnPlanet(cs[..|cs| - 1], planet);
      assert cs == cs[..|cs| - 1] + [last];
      if last.scope.planetId == planet then rest + [last] else rest
  }

  function IndexOf(s: seq<string>, x: string): (r: Option<nat>)
    ensures r.Some? ==> r.value < |s| && s[r.value] == x
    ensures r.None? ==> x !in s
  {
    if s == [] then None
    else if s[0] == x then Some(0)
    else match IndexOf(s[1..], x) case Some(k) => Some(k + 1) case None => None
  }

  lemma IndexOfDistinct(s: seq<string>, k: nat)
    requires k < |s| && forall i, j | 0 <= i < j < |s| :: s[i] != s[j]
    ensures IndexOf(s, s[k]) == Some(k)
  {
  }

  // ----- hypotheses about one run -----

  /** Every recorded step is a real diff: its signature mirrors its operations. */
  ghost predicate WellRecorded(norm: Normalizer, cs: seq<Contract>) {
    forall k | 0 <= k < |cs| ::
      cs[k].pattern != [] && forall s: nat, phase :: Mirrors(norm, cs[k].At(s).Of(phase).transition)
  }

  /** During `n` seconds no contract wakes: no structural step, and every signature as recorded. */
  ghost predicate NeverWakes(norm: Normalizer, e: Engine, cs: seq<Contract>, start: Running, n: nat)
    requires WellRecorded(norm, cs)
  {
    forall s: nat, k | s < n && 0 <= k < |cs| ::
      var step := e.Observed(norm, start, s, cs[k].scope);
      !step.Structural() && SameStep(norm, cs[k].At(s), step)
  }

  ghost predicate DistinctPlanets(e: Engine, n: nat) {
    forall s: nat | s < n :: forall i, j | 0 <= i < j < |e.planets(s)| :: e.planets(s)[i] != e.planets(s)[j]
  }

  /** Contracts that hold during `n` seconds; nothing is asked of the engine or of what the contracts share. */
  ghost predicate Contracted(norm: Normalizer, e: Engine, cs: seq<Contract>, start: Running, n: nat) {
    WellRecorded(norm, cs) && DistinctPlanets(e, n) && NeverWakes(norm, e, cs, start, n)
  }

  /**
   * What the engine makes of the real world up to and including one window, with the contracted parts skipped, is right
   * for replay.
   */
  ghost predicate WindowFits(e: Engine, cs: seq<Contract>, start: Running, s: nat, i: nat)
    requires i < e.Count(s) && forall k | 0 <= k < |cs| :: cs[k].pattern != []
  {
    WindowRight(Rounded, e.In(cs, s, i), s, e.PhaseOf(s, i), e.SkippedAfter(cs, start, s, i).world, e.After(start, s, i))
  }

  /** Replay reaches the real world at the end of one window. */
  ghost predicate WindowAgrees(e: Engine, cs: seq<Contract>, start: Running, s: nat, i: nat)
    requires i < e.Count(s) && forall k | 0 <= k < |cs| :: cs[k].pattern != []
  {
    e.ReplayAfter(cs, start, s, i).Some? && e.ReplayAfter(cs, start, s, i).value.world == e.After(start, s, i)
  }

  // ----- the refinement -----

  lemma StepFromOf(at: nat -> PhaseStep, production: Option<nat>, last: nat, phase: Phase, i: nat)
    requires match phase
             case Input => i == 0
             case Production => i > 0 && production == Some(i - 1)
             case Output => i == last
    ensures StepFrom(at, production, last).Of(phase) == at(i)
  {
  }

  lemma ObservedOf(norm: Normalizer, e: Engine, start: Running, s: nat, i: nat, scope: Scope)
    requires i < e.Count(s)
    requires e.PhaseOf(s, i).Production? ==> IndexOf(e.planets(s), scope.planetId) == Some(i - 1)
    ensures e.Observed(norm, start, s, scope).Of(e.PhaseOf(s, i)) ==
            ObservedPhase(norm, e.Before(start, s, i), e.After(start, s, i), scope, e.PhaseOf(s, i))
  {
    var at := e.ObservedAt(norm, start, s, scope);
    ObservedAtOf(norm, e, start, s, i, scope);
    ObservedFrom(norm, e, start, s, scope, at);
    StepFromOf(at, IndexOf(e.planets(s), scope.planetId), e.Count(s) - 1, e.PhaseOf(s, i), i);
  }

  lemma ObservedAtOf(norm: Normalizer, e: Engine, start: Running, s: nat, i: nat, scope: Scope)
    requires i < e.Count(s)
    ensures e.ObservedAt(norm, start, s, scope)(i) ==
            ObservedPhase(norm, e.Before(start, s, i), e.After(start, s, i), scope, e.PhaseOf(s, i))
  {
  }

  lemma ObservedFrom(norm: Normalizer, e: Engine, start: Running, s: nat, scope: Scope, at: nat -> PhaseStep)
    requires at == e.ObservedAt(norm, start, s, scope)
    ensures e.Observed(norm, start, s, scope) == StepFrom(at, IndexOf(e.planets(s), scope.planetId), e.Count(s) - 1)
  {
  }

  lemma FaithfulPhase(norm: Normalizer, c: Contract, second: nat, phase: Phase, before: World, after: World, step: StepTransition)
    requires c.pattern != [] && Mirrors(norm, c.At(second).Of(phase).transition)
    requires !step.Structural() && SameStep(norm, c.At(second), step)
    requires step.Of(phase) == ObservedPhase(norm, before, after, c.scope, phase)
    ensures Faithful(norm, c, second, phase, before, after)
  {
  }

  lemma ContractFaithful(norm: Normalizer, e: Engine, cs: seq<Contract>, start: Running, n: nat, s: nat, i: nat, k: nat)
    requires Contracted(norm, e, cs, start, n) && s < n && i < e.Count(s) && k < |cs|
    requires e.PhaseOf(s, i).Production? ==> cs[k].scope.planetId == e.planets(s)[i - 1]
    ensures Faithful(norm, cs[k], s, e.PhaseOf(s, i), e.Before(start, s, i), e.After(start, s, i))
  {
    if e.PhaseOf(s, i).Production? {
      IndexOfDistinct(e.planets(s), i - 1);
    }
    ObservedOf(norm, e, start, s, i, cs[k].scope);
    FaithfulPhase(norm, cs[k], s, e.PhaseOf(s, i), e.Before(start, s, i), e.After(start, s, i),
                  e.Observed(norm, start, s, cs[k].scope));
  }

  lemma WindowFaithful(norm: Normalizer, e: Engine, cs: seq<Contract>, start: Running, n: nat, s: nat, i: nat)
    requires Contracted(norm, e, cs, start, n) && s < n && i < e.Count(s)
    ensures AllFaithful(norm, e.In(cs, s, i), s, e.PhaseOf(s, i), e.Before(start, s, i), e.After(start, s, i))
  {
    var window := e.In(cs, s, i);
    forall j | 0 <= j < |window|
      ensures Faithful(norm, window[j], s, e.PhaseOf(s, i), e.Before(start, s, i), e.After(start, s, i))
    {
      assert window[j] in window;
      assert window[j] in cs;
      var k :| 0 <= k < |cs| && cs[k] == window[j];
      ContractFaithful(norm, e, cs, start, n, s, i, k);
    }
  }

  lemma HookedWorld(e: Engine, cs: seq<Contract>, s: nat, i: nat, skipped: Running, after: World)
    requires i < e.Count(s) && forall k | 0 <= k < |cs| :: cs[k].pattern != []
    ensures e.Hooked(cs, s, i, skipped).Some? && e.Hooked(cs, s, i, skipped).value.world == after <==>
            ReplayWindow(Rounded, e.In(cs, s, i), s, e.PhaseOf(s, i), skipped.world) == Some(after)
  {
  }

  /** Where the replayed run is what skipping makes of the real worlds, a window agrees exactly when that fits. */
  lemma WindowStep(norm: Normalizer, e: Engine, cs: seq<Contract>, start: Running, n: nat, s: nat, i: nat)
    requires Contracted(norm, e, cs, start, n) && s < n && i < e.Count(s)
    requires e.ReplayBefore(cs, start, s, i) == Some(e.SkippedBefore(cs, start, s, i))
    ensures WindowAgrees(e, cs, start, s, i) <==> WindowFits(e, cs, start, s, i)
  {
    var skipped := e.SkippedAfter(cs, start, s, i);
    assert e.ReplayAfter(cs, start, s, i) == e.Hooked(cs, s, i, skipped);
    HookedWorld(e, cs, s, i, skipped, e.After(start, s, i));
    WindowFaithful(norm, e, cs, start, n, s, i);
    WindowReplayIff(norm, Rounded, e.In(cs, s, i), s, e.PhaseOf(s, i), e.Before(start, s, i),
                    skipped.world, e.After(start, s, i));
  }

  /** After a window that agrees, the working data is that of skipping along the real run. */
  lemma AgreedAfter(e: Engine, cs: seq<Contract>, start: Running, s: nat, i: nat)
    requires i < e.Count(s) && forall k | 0 <= k < |cs| :: cs[k].pattern != []
    requires e.ReplayBefore(cs, start, s, i) == Some(e.SkippedBefore(cs, start, s, i)) && WindowAgrees(e, cs, start, s, i)
    ensures e.ReplayBefore(cs, start, s, i + 1) == Some(e.SkippedBefore(cs, start, s, i + 1))
  {
    var skipped := e.SkippedAfter(cs, start, s, i);
    assert e.ReplayAfter(cs, start, s, i) == e.Hooked(cs, s, i, skipped);
    assert e.ReplayAfter(cs, start, s, i) == Some(Running(e.After(start, s, i), skipped.scratch));
  }

  /** As long as every earlier window agreed, the replayed run is what skipping makes of the real worlds. */
  lemma {:induction false} StillAgrees(e: Engine, cs: seq<Contract>, start: Running, n: nat, s: nat, i: nat)
    requires forall k | 0 <= k < |cs| :: cs[k].pattern != []
    requires s < n && i <= e.Count(s)
    requires forall s', i' | 0 <= s' < n && 0 <= i' < e.Count(s') && (s' < s || (s' == s && i' < i)) ::
               WindowAgrees(e, cs, start, s', i')
    ensures e.ReplayBefore(cs, start, s, i) == Some(e.SkippedBefore(cs, start, s, i))
    decreases s, i
  {
    if i > 0 {
      StillAgrees(e, cs, start, n, s, i - 1);
      assert WindowAgrees(e, cs, start, s, i - 1);
      AgreedAfter(e, cs, start, s, i - 1);
    } else if s > 0 {
      StillAgrees(e, cs, start, n, s - 1, e.Count(s - 1));
    }
  }

  lemma {:induction false} AgreesUpTo(norm: Normalizer, e: Engine, cs: seq<Contract>, start: Running, n: nat, s: nat, i: nat)
    requires Contracted(norm, e, cs, start, n) && s < n && i < e.Count(s)
    requires forall s', i' | 0 <= s' < n && 0 <= i' < e.Count(s') :: WindowFits(e, cs, start, s', i')
    ensures WindowAgrees(e, cs, start, s, i)
    decreases s, i
  {
    forall s', i' | 0 <= s' < n && 0 <= i' < e.Count(s') && (s' < s || (s' == s && i' < i))
      ensures WindowAgrees(e, cs, start, s', i')
    {
      AgreesUpTo(norm, e, cs, start, n, s', i');
    }
    StillAgrees(e, cs, start, n, s, i);
    WindowStep(norm, e, cs, start, n, s, i);
  }

  /**
   * Replay refines the run: with contracts that never wake, the replayed run equals the real run after every
   * window of every second exactly when each window's skipped state fits, the gap before the window run with skips too.
   * This holds for every engine, every sharing between the contracts and every number normalisation.
   */
  lemma ReplayRefinesRun(norm: Normalizer, e: Engine, cs: seq<Contract>, start: Running, n: nat)
    requires Contracted(norm, e, cs, start, n)
    ensures (forall s, i | 0 <= s < n && 0 <= i < e.Count(s) :: WindowAgrees(e, cs, start, s, i)) <==>
            (forall s, i | 0 <= s < n && 0 <= i < e.Count(s) :: WindowFits(e, cs, start, s, i))
  {
    if forall s, i | 0 <= s < n && 0 <= i < e.Count(s) :: WindowFits(e, cs, start, s, i) {
      forall s, i | 0 <= s < n && 0 <= i < e.Count(s) ensures WindowAgrees(e, cs, start, s, i) {
        AgreesUpTo(norm, e, cs, start, n, s, i);
      }
    }
    if forall s, i | 0 <= s < n && 0 <= i < e.Count(s) :: WindowAgrees(e, cs, start, s, i) {
      forall s, i | 0 <= s < n && 0 <= i < e.Count(s) ensures WindowFits(e, cs, start, s, i) {
        StillAgrees(e, cs, start, n, s, i);
        WindowStep(norm, e, cs, start, n, s, i);
      }
    }
  }

  /** The last gap of a second, run with skips, leaves the real world. */
  predicate LastGapAgrees(e: Engine, cs: seq<Contract>, start: Running, s: nat) {
    e.SkippedBefore(cs, start, s, e.Count(s)).world == e.Before(start, s, e.Count(s))
  }

  /** Then the world at the end of a second is the real one exactly when the last gap agrees. */
  lemma ReplayedSecond(norm: Normalizer, e: Engine, cs: seq<Contract>, start: Running, n: nat, s: nat)
    requires Contracted(norm, e, cs, start, n) && s < n
    requires forall s', i | 0 <= s' < n && 0 <= i < e.Count(s') :: WindowFits(e, cs, start, s', i)
    ensures e.ReplayBefore(cs, start, s, e.Count(s)) == Some(e.SkippedBefore(cs, start, s, e.Count(s)))
    ensures e.ReplayBefore(cs, start, s, e.Count(s)).value.world == e.Before(start, s, e.Count(s)) <==>
            LastGapAgrees(e, cs, start, s)
  {
    ReplayRefinesRun(norm, e, cs, start, n);
    StillAgrees(e, cs, start, n, s, e.Count(s));
  }

  // ----- runs that repeat the recorded amounts -----

  /** In every window the recorded amounts recur. */
  ghost predicate RunRecurs(norm: Normalizer, e: Engine, cs: seq<Contract>, start: Running, n: nat) {
    norm(0.0) == 0.0 && forall s, i | 0 <= s < n && 0 <= i < e.Count(s) ::
      AllRecur(norm, e.In(cs, s, i), s, e.PhaseOf(s, i), e.Before(start, s, i), e.After(start, s, i))
  }

  /** One window of the run is right, said number by number. */
  ghost predicate NumbersFit(e: Engine, cs: seq<Contract>, start: Running, s: nat, i: nat)
    requires i < e.Count(s) && forall k | 0 <= k < |cs| :: cs[k].pattern != []
  {
    WindowCounts(Rounded, e.In(cs, s, i), s, e.PhaseOf(s, i), e.Before(start, s, i), e.SkippedAfter(cs, start, s, i).world,
                 e.After(start, s, i))
  }

  lemma FitsIffCounts(norm: Normalizer, e: Engine, cs: seq<Contract>, start: Running, n: nat, s: nat, i: nat)
    requires Contracted(norm, e, cs, start, n) && RunRecurs(norm, e, cs, start, n) && s < n && i < e.Count(s)
    ensures WindowFits(e, cs, start, s, i) <==> NumbersFit(e, cs, start, s, i)
  {
    var before, skipped, after := e.Before(start, s, i), e.SkippedAfter(cs, start, s, i).world, e.After(start, s, i);
    WindowFaithful(norm, e, cs, start, n, s, i);
    WindowReplayIff(norm, Rounded, e.In(cs, s, i), s, e.PhaseOf(s, i), before, skipped, after);
    ReplayCountsNumbers(norm, Rounded, e.In(cs, s, i), s, e.PhaseOf(s, i), before, skipped, after);
  }

  /**
   * If the recorded amounts recur, the replayed run equals the real run after every window exactly when, in each window,
   * every number that changes is taken to its real value by its change, counted and rounded once per covering contract,
   * and everything else is there already.
   */
  lemma RunCountsNumbers(norm: Normalizer, e: Engine, cs: seq<Contract>, start: Running, n: nat)
    requires Contracted(norm, e, cs, start, n) && RunRecurs(norm, e, cs, start, n)
    ensures (forall s, i | 0 <= s < n && 0 <= i < e.Count(s) :: WindowAgrees(e, cs, start, s, i)) <==>
            (forall s, i | 0 <= s < n && 0 <= i < e.Count(s) :: NumbersFit(e, cs, start, s, i))
  {
    ReplayRefinesRun(norm, e, cs, start, n);
    forall s, i | 0 <= s < n && 0 <= i < e.Count(s)
      ensures WindowFits(e, cs, start, s, i) <==> NumbersFit(e, cs, start, s, i)
    {
      FitsIffCounts(norm, e, cs, start, n, s, i);
    }
  }

  // ----- engines that keep skipped parts still -----

  /**
   * One window that recurs amount by amount and changes no number that is shared, and an engine that, with skips, keeps
   * the contracted parts still up to its end: in the gap before the window as well as in the window.
   */
  ghost predicate WindowApart(norm: Normalizer, e: Engine, cs: seq<Contract>, start: Running, s: nat, i: nat)
    requires i < e.Count(s)
  {
    var window, phase, before, after := e.In(cs, s, i), e.PhaseOf(s, i), e.Before(start, s, i), e.After(start, s, i);
    && AllRecur(norm, window, s, phase, before, after)
    && Skips(norm, window, phase, before, e.SkippedAfter(cs, start, s, i).world, after) && Untangled(window, phase, before, after)
  }

  ghost predicate RunsApart(norm: Normalizer, e: Engine, cs: seq<Contract>, start: Running, n: nat) {
    norm(0.0) == 0.0 && forall s, i | 0 <= s < n && 0 <= i < e.Count(s) :: WindowApart(norm, e, cs, start, s, i)
  }

  /** In one window of the real run, every recorded addition lands on the grid it was recorded with. */
  ghost predicate WindowLands(e: Engine, cs: seq<Contract>, start: Running, s: nat, i: nat)
    requires i < e.Count(s) && forall k | 0 <= k < |cs| :: cs[k].pattern != []
  {
    AllLand(View(e.SkippedAfter(cs, start, s, i).world), WindowOps(e.In(cs, s, i), s, e.PhaseOf(s, i)))
  }

  lemma FitsIffLands(norm: Normalizer, e: Engine, cs: seq<Contract>, start: Running, n: nat, s: nat, i: nat)
    requires Contracted(norm, e, cs, start, n) && s < n && i < e.Count(s)
    requires norm(0.0) == 0.0 && WindowApart(norm, e, cs, start, s, i)
    ensures WindowFits(e, cs, start, s, i) <==> WindowLands(e, cs, start, s, i)
  {
    WindowFaithful(norm, e, cs, start, n, s, i);
    WindowReplayIff(norm, Rounded, e.In(cs, s, i), s, e.PhaseOf(s, i), e.Before(start, s, i),
                    e.SkippedAfter(cs, start, s, i).world, e.After(start, s, i));
    WindowReplayExact(norm, e.In(cs, s, i), s, e.PhaseOf(s, i), e.Before(start, s, i),
                      e.SkippedAfter(cs, start, s, i).world, e.After(start, s, i));
  }

  /** In such windows nothing but the recorded decimal grid decides. */
  lemma ApartRunLands(norm: Normalizer, e: Engine, cs: seq<Contract>, start: Running, n: nat)
    requires Contracted(norm, e, cs, start, n) && RunsApart(norm, e, cs, start, n)
    ensures (forall s, i | 0 <= s < n && 0 <= i < e.Count(s) :: WindowAgrees(e, cs, start, s, i)) <==>
            (forall s, i | 0 <= s < n && 0 <= i < e.Count(s) :: WindowLands(e, cs, start, s, i))
  {
    ReplayRefinesRun(norm, e, cs, start, n);
    forall s, i | 0 <= s < n && 0 <= i < e.Count(s)
      ensures WindowFits(e, cs, start, s, i) <==> WindowLands(e, cs, start, s, i)
    {
      FitsIffLands(norm, e, cs, start, n, s, i);
    }
  }

  /** Components with pairwise disjoint footprints are untangled in every window. */
  lemma DisjointUntangled(cs: seq<Contract>, phase: Phase, before: World, after: World)
    requires forall i, j | 0 <= i < j < |cs| ::
               && cs[i].scope.entityIds !! cs[j].scope.entityIds && cs[i].scope.beltIds !! cs[j].scope.beltIds
               && cs[i].scope.productionIds !! cs[j].scope.productionIds
    ensures Untangled(cs, phase, before, after)
  {
    forall i, j | 0 <= i < j < |cs| ensures UntangledPair(cs[i].scope, cs[j].scope, phase, before, after) {
      var s, t := cs[i].scope, cs[j].scope;
      assert s.Entities(phase) !! t.Entities(phase) && s.Belts(phase) !! t.Belts(phase);
    }
  }
}
