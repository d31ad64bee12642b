/** One tracker per component: observe, detect a pattern, validate it second by second. */
module ContractTracking {
  import opened Wrappers
  import opened Json
  import opened Patch
  import opened StateDiff
  import opened DiffLaws
  import opened Period
  import opened Windows
  import opened Contracts
  import opened ReplayWindowLaws
  import opened ReplayRun

  /** The combined signature of a step. */
  datatype StepSign = StepSign(input: Sign, production: Sign, output: Sign, produced: map<string, real>)

  function StepSignOf(norm: Normalizer, s: StepTransition): StepSign {
    StepSign(SignOf(s.input.transition), SignOf(s.production.transition), SignOf(s.output.transition),
             Normalized(norm, s.production.produced))
  }

  lemma SignsAgree(norm: Normalizer, s: StepTransition, t: StepTransition)
    ensures StepSignOf(norm, s) == StepSignOf(norm, t) <==> SameStep(norm, s, t)
  {
  }

  function Beats(norm: Normalizer, steps: seq<StepTransition>): (r: seq<Beat<StepSign>>)
    ensures |r| == |steps|
    ensures forall i | 0 <= i < |steps| :: r[i] == Beat(StepSignOf(norm, steps[i]), steps[i].Structural())
  {
    seq(|steps|, i requires 0 <= i < |steps| => Beat(StepSignOf(norm, steps[i]), steps[i].Structural()))
  }

  /** A step the tracker accepts in one validated second. */
  predicate Expected(norm: Normalizer, pattern: seq<StepTransition>, second: nat, step: StepTransition)
    requires pattern != []
  {
    !step.Structural() && SameStep(norm, pattern[second % |pattern|], step)
  }

  class ComponentTracker {
    const scope: Scope
    var observation: seq<StepTransition>
    var period: Option<nat>
    var pattern: seq<StepTransition>
    var wokeAtSecond: Option<nat>

    constructor (scope: Scope)
      ensures Valid() && this.scope == scope && observation == [] && period == None && wokeAtSecond == None
    {
      this.scope := scope;
      observation, period, pattern, wokeAtSecond := [], None, [], None;
    }

    predicate Valid()
      reads this
    {
      match period
      case Some(p) => p >= 1 && |pattern| == p
      case None => pattern == []
    }

    method Observe(step: StepTransition)
      requires Valid()
      modifies this`observation
      ensures Valid() && observation == old(observation) + [step]
    {
      observation := observation + [step];
    }

    /** Detection keeps the last `period` observed steps as the pattern. */
    method Finalize(norm: Normalizer, maximumPeriod: int)
      requires Valid()
      modifies this`period, this`pattern
      ensures Valid()
      ensures FoundContractPeriod(Beats(norm, observation), maximumPeriod, period)
      ensures period.Some? ==> period.value <= |observation| && pattern == observation[|observation| - period.value..]
    {
      period := FindContractPeriod(Beats(norm, observation), maximumPeriod);
      pattern := if period.None? then [] else observation[|observation| - period.value..];
    }

    /** One validated second; a woken tracker is not looked at again. */
    method Validate(norm: Normalizer, second: nat, step: StepTransition)
      requires Valid() && period.Some? && second >= 1
      modifies this`wokeAtSecond
      ensures Valid()
      ensures wokeAtSecond ==
              if old(wokeAtSecond).Some? || Expected(norm, pattern, second - 1, step) then old(wokeAtSecond) else Some(second)
    {
      if wokeAtSecond.Some? {
        return;
      }
      var expected := pattern[(second - 1) % period.value];
      SignsAgree(norm, expected, step);
      if step.Structural() || StepSignOf(norm, step) != StepSignOf(norm, expected) {
        wokeAtSecond := Some(second);
      }
    }

    /** The whole validation: the tracker wakes in the first second that is not as expected, if any. */
    method ValidateAll(norm: Normalizer, steps: seq<StepTransition>)
      requires Valid() && period.Some? && wokeAtSecond == None
      modifies this`wokeAtSecond
      ensures Valid()
      ensures match wokeAtSecond
              case None => forall s | 0 <= s < |steps| :: Expected(norm, pattern, s, steps[s])
              case Some(second) =>
                && 1 <= second <= |steps| && !Expected(norm, pattern, second - 1, steps[second - 1])
                && forall s | 0 <= s < second - 1 :: Expected(norm, pattern, s, steps[s])
    {
      var second := 1;
      while second <= |steps|
        invariant 1 <= second <= |steps| + 1 && Valid() && period == old(period) && pattern == old(pattern)
        invariant match wokeAtSecond
                  case None => forall s | 0 <= s < second - 1 :: Expected(norm, pattern, s, steps[s])
                  case Some(w) =>
                    && 1 <= w < second && !Expected(norm, pattern, w - 1, steps[w - 1])
                    && forall s | 0 <= s < w - 1 :: Expected(norm, pattern, s, steps[s])
      {
        Validate(norm, second, steps[second - 1]);
        second := second + 1;
      }
    }
  }

  // ----- from tracking to replay -----

  /** The pattern a finalized tracker ends up with. */
  ghost predicate PatternOf(norm: Normalizer, observation: seq<StepTransition>, maximum: int, pattern: seq<StepTransition>) {
    exists p: nat :: 1 <= p <= |observation| && EndsWith(norm, observation, maximum, pattern, p)
  }

  ghost predicate EndsWith(norm: Normalizer, observation: seq<StepTransition>, maximum: int, pattern: seq<StepTransition>, p: nat)
    requires 1 <= p <= |observation|
  {
    FoundContractPeriod(Beats(norm, observation), maximum, Some(p)) && pattern == observation[|observation| - p..]
  }

  /** What the collector recorded over the first `m` seconds. */
  ghost function Observation(norm: Normalizer, e: Engine, start: Running, m: nat, scope: Scope): (r: seq<StepTransition>)
    ensures |r| == m && forall i | 0 <= i < m :: r[i] == e.Observed(norm, start, i, scope)
  {
    seq(m, i requires 0 <= i < m => e.Observed(norm, start, i, scope))
  }

  lemma FoundCalm<S>(ts: seq<Beat<S>>, maximum: int, p: nat)
    requires FoundContractPeriod(ts, maximum, Some(p))
    ensures p <= |ts| && forall i | |ts| - p <= i < |ts| :: !ts[i].structural
  {
    if Repeats(ts, p) {
      BlocksShift(ts, p);
    }
  }

  lemma PhaseMirrors(norm: Normalizer, at: nat -> PhaseStep, production: Option<nat>, last: nat, phase: Phase)
    requires forall i {:trigger at(i)} :: at(i).transition.structural || Mirrors(norm, at(i).transition)
    requires !StepFrom(at, production, last).Structural()
    ensures Mirrors(norm, StepFrom(at, production, last).Of(phase).transition)
  {
    assert Mirrors(norm, SAME);
  }

  /** A calm observed step is a real diff in each of its phases. */
  lemma ObservedMirrors(norm: Normalizer, e: Engine, start: Running, s: nat, scope: Scope, phase: Phase)
    requires !e.Observed(norm, start, s, scope).Structural()
    ensures Mirrors(norm, e.Observed(norm, start, s, scope).Of(phase).transition)
  {
    var at := e.ObservedAt(norm, start, s, scope);
    forall i: nat ensures at(i).transition.structural || Mirrors(norm, at(i).transition) {
      WindowMirrors(norm, e, start, s, scope, i);
    }
    ObservedFrom(norm, e, start, s, scope, at);
    PhaseMirrors(norm, at, IndexOf(e.planets(s), scope.planetId), e.Count(s) - 1, phase);
  }

  lemma WindowMirrors(norm: Normalizer, e: Engine, start: Running, s: nat, scope: Scope, i: nat)
    ensures var t := e.ObservedAt(norm, start, s, scope)(i).transition; t.structural || Mirrors(norm, t)
  {
    if i < e.Count(s) {
      var phase := e.PhaseOf(s, i);
      ObservedAtOf(norm, e, start, s, i, scope);
      var x, y := SnapshotComponent(e.Before(start, s, i), scope, phase), SnapshotComponent(e.After(start, s, i), scope, phase);
      if !Diff(norm, x, y).structural {
        SignatureMirrors(norm, x, y);
      }
    }
  }

  lemma CalmTail(norm: Normalizer, steps: seq<StepTransition>, maximum: int, p: nat)
    requires FoundContractPeriod(Beats(norm, steps), maximum, Some(p))
    ensures p <= |steps| && forall i | |steps| - p <= i < |steps| :: !steps[i].Structural()
  {
    var beats := Beats(norm, steps);
    FoundCalm(beats, maximum, p);
    forall i | |steps| - p <= i < |steps| ensures !steps[i].Structural() {
      assert !beats[i].structural;
    }
  }

  /** A detected pattern is the calm end of what was observed. */
  lemma PatternEnds(norm: Normalizer, observation: seq<StepTransition>, maximum: int, pattern: seq<StepTransition>)
    requires PatternOf(norm, observation, maximum, pattern)
    ensures |pattern| <= |observation| && pattern == observation[|observation| - |pattern|..]
    ensures forall j | 0 <= j < |pattern| :: !pattern[j].Structural()
  {
    var p: nat :| 1 <= p <= |observation| && EndsWith(norm, observation, maximum, pattern, p);
    CalmTail(norm, observation, maximum, p);
  }

  /** Each step of a detected pattern was observed, and was calm. */
  lemma PatternEntry(norm: Normalizer, e: Engine, start: Running, m: nat, scope: Scope, maximum: int,
                     pattern: seq<StepTransition>, j: nat)
    requires PatternOf(norm, Observation(norm, e, start, m, scope), maximum, pattern) && j < |pattern|
    ensures |pattern| <= m
    ensures pattern[j] == e.Observed(norm, start, m - |pattern| + j, scope) && !pattern[j].Structural()
  {
    PatternEnds(norm, Observation(norm, e, start, m, scope), maximum, pattern);
  }

  /** A detected pattern consists of real diffs. */
  lemma PatternWellRecorded(norm: Normalizer, e: Engine, start: Running, m: nat, c: Contract, maximum: int, s: nat, phase: Phase)
    requires PatternOf(norm, Observation(norm, e, start, m, c.scope), maximum, c.pattern) && c.pattern != []
    ensures Mirrors(norm, c.At(s).Of(phase).transition)
  {
    var j := s % |c.pattern|;
    PatternEntry(norm, e, start, m, c.scope, maximum, c.pattern, j);
    ObservedMirrors(norm, e, start, m - |c.pattern| + j, c.scope, phase);
  }

  /** The tracker's validation of one contract over `n` seconds found nothing unexpected. */
  ghost predicate Validated(norm: Normalizer, e: Engine, start: Running, n: nat, c: Contract)
    requires c.pattern != []
  {
    forall s | 0 <= s < n :: Expected(norm, c.pattern, s, e.Observed(norm, start, s, c.scope))
  }

  /** Contracts with patterns detected in one run and validated in the next hold during that next run. */
  lemma ValidatedContracted(norm: Normalizer, observing: Engine, first: Running, m: nat, maximum: int,
                            e: Engine, cs: seq<Contract>, start: Running, n: nat)
    requires DistinctPlanets(e, n)
    requires forall k | 0 <= k < |cs| ::
               PatternOf(norm, Observation(norm, observing, first, m, cs[k].scope), maximum, cs[k].pattern)
    requires forall k | 0 <= k < |cs| :: cs[k].pattern != [] && Validated(norm, e, start, n, cs[k])
    ensures Contracted(norm, e, cs, start, n)
  {
    forall k | 0 <= k < |cs|
      ensures cs[k].pattern != [] && forall s: nat, phase :: Mirrors(norm, cs[k].At(s).Of(phase).transition)
    {
      forall s: nat, phase {
        PatternWellRecorded(norm, observing, first, m, cs[k], maximum, s, phase);
      }
    }
    forall s: nat, k | s < n && 0 <= k < |cs|
      ensures var step := e.Observed(norm, start, s, cs[k].scope);
              !step.Structural() && SameStep(norm, cs[k].At(s), step)
    {
      assert Validated(norm, e, start, n, cs[k]);
      assert Expected(norm, cs[k].pattern, s, e.Observed(norm, start, s, cs[k].scope));
    }
  }

  /**
   * From observation to replay: contracts whose patterns were detected in one run and validated in the next replay
   * that next run exactly, window by window, precisely when each window's skipped state fits.
   */
  lemma ValidatedContractsReplay(norm: Normalizer, observing: Engine, first: Running, m: nat, maximum: int,
                                 e: Engine, cs: seq<Contract>, start: Running, n: nat)
    requires DistinctPlanets(e, n)
    requires forall k | 0 <= k < |cs| ::
               PatternOf(norm, Observation(norm, observing, first, m, cs[k].scope), maximum, cs[k].pattern)
    requires forall k | 0 <= k < |cs| :: cs[k].pattern != [] && Validated(norm, e, start, n, cs[k])
    ensures (forall s, i | 0 <= s < n && 0 <= i < e.Count(s) :: WindowAgrees(e, cs, start, s, i)) <==>
            (forall s, i | 0 <= s < n && 0 <= i < e.Count(s) :: WindowFits(e, cs, start, s, i))
  {
    ValidatedContracted(norm, observing, first, m, maximum, e, cs, start, n);
    ReplayRefinesRun(norm, e, cs, start, n);
  }
}
