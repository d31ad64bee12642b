/** The hibernation analyser: one shadow prediction per entity or belt. */
module Hibernation {
  import opened Wrappers
  import opened Json
  import opened Patch
  import opened StateDiff
  import opened DiffLaws
  import opened Period

  datatype WakeReason = StructuralChange | OtherTransition

  /** What a tracker records for a second in which its record is absent. */
  const MISSING: Transition := Transition([], [], true)

  const MATCH_TOLERANCE: real := 0.000001

  function Beats(ts: seq<Transition>): (r: seq<Beat<Sign>>)
    ensures |r| == |ts| && forall i | 0 <= i < |ts| :: r[i] == Beat(SignOf(ts[i]), ts[i].structural)
  {
    seq(|ts|, i requires 0 <= i < |ts| => Beat(SignOf(ts[i]), ts[i].structural))
  }

  function Drift(steps: nat, slack: real): (r: real)
    requires slack >= 0.0
    ensures r >= 0.0
  {
    if steps == 0 then 0.0 else Drift(steps - 1, slack) + slack
  }

  lemma {:induction false} DriftIs(steps: nat, slack: real)
    requires slack >= 0.0
    ensures Drift(steps, slack) == steps as real * slack
  {
    if steps > 0 {
      DriftIs(steps - 1, slack);
      assert steps as real * slack == (steps - 1) as real * slack + slack;
    }
  }

  /** The shadow has the shape of the record and is at most `d` off it in every number. */
  ghost predicate Within(d: real, shadow: Value, record: Value) {
    Close(d, shadow, record)
  }

  /** The shadow is at most `steps` slacks away from the record. */
  ghost predicate Follows(steps: nat, slack: real, shadow: Value, record: Value)
    requires slack >= 0.0
  {
    Within(Drift(steps, slack), shadow, record)
  }

  lemma StaysWithin(norm: Normalizer, d: real, e: real, shadow: Value, previous: Value, current: Value, ops: seq<Op>)
    requires d >= 0.0 && e >= 0.0 && Within(d, shadow, previous) && !Diff(norm, previous, current).structural
    requires AllAlike(e, ops, Diff(norm, previous, current).ops)
    ensures ApplyAll(Exact, shadow, ops).Some? && Within(d + e, ApplyAll(Exact, shadow, ops).value, current)
  {
    PatchDrift(norm, d, e, shadow, previous, current, ops);
  }

  /** The record moved, between two seconds, by a transition with the expected signature. */
  ghost predicate MovesBy(norm: Normalizer, previous: Value, current: Value, expected: Transition) {
    !Diff(norm, previous, current).structural && SameSignature(Diff(norm, previous, current), expected)
  }

  /** One more applied step never fails and adds at most the gap between the expected and the real amounts. */
  lemma FollowsOn(norm: Normalizer, d: real, shadow: Value, previous: Value, current: Value, expected: Transition)
    returns (gap: real, next: Value)
    requires d >= 0.0 && Within(d, shadow, previous)
    requires Mirrors(norm, expected) && MovesBy(norm, previous, current, expected)
    ensures IsGap(gap, expected.ops, Diff(norm, previous, current).ops)
    ensures ApplyAll(Exact, shadow, expected.ops) == Some(next) && Within(d + gap, next, current)
  {
    SignatureMirrors(norm, previous, current);
    gap := GapExists(norm, expected, Diff(norm, previous, current));
    StaysWithin(norm, d, gap, shadow, previous, current, expected.ops);
    next := ApplyAll(Exact, shadow, expected.ops).value;
  }

  /** A validated step: the pattern's transition, the real one that had its signature, and the gap between the two. */
  datatype Accepted = Accepted(expected: Transition, actual: Transition, gap: real)

  /** How far the prediction may have drifted over the accepted steps. */
  function TotalGap(steps: seq<Accepted>): real {
    if steps == [] then 0.0 else TotalGap(steps[..|steps| - 1]) + steps[|steps| - 1].gap
  }

  lemma TotalGapOn(steps: seq<Accepted>, step: Accepted)
    ensures TotalGap(steps + [step]) == TotalGap(steps) + step.gap
  {
    assert (steps + [step])[..|steps|] == steps;
  }

  ghost predicate Genuinely(norm: Normalizer, step: Accepted) {
    && Mirrors(norm, step.expected) && Mirrors(norm, step.actual) && SameSignature(step.expected, step.actual)
    && IsGap(step.gap, step.expected.ops, step.actual.ops)
  }

  ghost predicate AllGenuine(norm: Normalizer, steps: seq<Accepted>) {
    forall i | 0 <= i < |steps| :: Genuinely(norm, steps[i])
  }

  lemma {:induction false} TotalGapNonnegative(norm: Normalizer, steps: seq<Accepted>)
    requires AllGenuine(norm, steps)
    ensures TotalGap(steps) >= 0.0
    decreases |steps|
  {
    if steps != [] {
      assert Genuinely(norm, steps[|steps| - 1]);
      TotalGapNonnegative(norm, steps[..|steps| - 1]);
    }
  }

  lemma GenuineOn(norm: Normalizer, steps: seq<Accepted>, step: Accepted)
    requires AllGenuine(norm, steps) && Genuinely(norm, step)
    ensures AllGenuine(norm, steps + [step])
  {
  }

  /** What the prediction is worth after the accepted steps. */
  ghost predicate Tracks(norm: Normalizer, steps: seq<Accepted>, shadow: Value, record: Value) {
    AllGenuine(norm, steps) && Within(TotalGap(steps), shadow, record)
  }

  /** One accepted step more. */
  ghost predicate Grew(steps: seq<Accepted>, more: seq<Accepted>, expected: Transition, actual: Transition) {
    && more != [] && more[..|more| - 1] == steps
    && more[|more| - 1].expected == expected && more[|more| - 1].actual == actual
  }

  /** Accepting a step keeps the prediction within the gaps of all accepted steps. */
  lemma AcceptOne(norm: Normalizer, steps: seq<Accepted>, shadow: Value, previous: Value, current: Value, expected: Transition)
    returns (more: seq<Accepted>, next: Value)
    requires Tracks(norm, steps, shadow, previous)
    requires Mirrors(norm, expected) && MovesBy(norm, previous, current, expected)
    ensures Grew(steps, more, expected, Diff(norm, previous, current))
    ensures ApplyAll(Exact, shadow, expected.ops) == Some(next) && Tracks(norm, more, next, current)
  {
    var gap;
    TotalGapNonnegative(norm, steps);
    gap, next := FollowsOn(norm, TotalGap(steps), shadow, previous, current, expected);
    SignatureMirrors(norm, previous, current);
    var step := Accepted(expected, Diff(norm, previous, current), gap);
    more := steps + [step];
    GenuineOn(norm, steps, step);
    TotalGapOn(steps, step);
  }

  ghost predicate StepsIn(steps: seq<Accepted>, amounts: iset<real>) {
    forall i | 0 <= i < |steps| :: AmountsIn(steps[i].expected.ops, amounts) && AmountsIn(steps[i].actual.ops, amounts)
  }

  /** If the normaliser resolves the amounts of the accepted steps up to a slack, each step drifts by at most that. */
  lemma {:induction false} DriftWithin(norm: Normalizer, slack: real, amounts: iset<real>, steps: seq<Accepted>)
    requires slack >= 0.0 && Resolves(norm, slack, amounts) && AllGenuine(norm, steps) && StepsIn(steps, amounts)
    ensures TotalGap(steps) <= Drift(|steps|, slack)
    decreases |steps|
  {
    if steps != [] {
      var rest, last := steps[..|steps| - 1], steps[|steps| - 1];
      assert Genuinely(norm, last) && forall i | 0 <= i < |rest| :: rest[i] == steps[i];
      DriftWithin(norm, slack, amounts, rest);
      SameSignatureAlike(norm, slack, amounts, last.expected, last.actual);
    }
  }

  /** Without slack the shadow is the record. */
  lemma FollowsExactly(steps: nat, shadow: Value, record: Value)
    ensures Drift(steps, 0.0) == 0.0
    ensures Follows(steps, 0.0, shadow, record) <==> shadow == record
  {
    DriftIs(steps, 0.0);
    assert steps as real * 0.0 == 0.0;
    CloseZero(shadow, record);
  }

  /** A recorded transition is absent, structural, or a real diff. */
  predicate Recorded(norm: Normalizer, t: Transition) {
    t.structural || Mirrors(norm, t)
  }

  class RecordTracker {
    const norm: Normalizer
    /** The steps the prediction has followed since it started. */
    ghost var accepted: seq<Accepted>

    var previous: Value
    var observation: seq<Transition>
    var period: Option<nat>
    var pattern: seq<Transition>
    var predicted: Value
    var wokeAtSecond: Option<nat>
    var wakeReason: Option<WakeReason>
    var predictionMatched: bool

    constructor (norm: Normalizer, record: Value)
      ensures Valid() && this.norm == norm
      ensures previous == predicted == record && observation == pattern == [] && accepted == []
      ensures period == None && wokeAtSecond == None && wakeReason == None && !predictionMatched
    {
      this.norm, accepted := norm, [];
      previous, predicted, observation, pattern := record, record, [], [];
      period, wokeAtSecond, wakeReason, predictionMatched := None, None, None, false;
      new;
      CloseRefl(0.0, record);
    }

    /** As long as the tracker has not woken, the prediction is at most the gaps of its accepted steps off the record. */
    ghost predicate Valid()
      reads this
    {
      && (forall i | 0 <= i < |observation| :: Recorded(norm, observation[i]))
      && (wokeAtSecond.Some? <==> wakeReason.Some?)
      && (predictionMatched || wokeAtSecond.Some? ==> period.Some?)
      && (predictionMatched ==> wokeAtSecond.None?)
      && match period
         case None => pattern == [] && wokeAtSecond == None
         case Some(p) =>
           && p >= 1 && |pattern| == p
           && (forall i | 0 <= i < p :: Mirrors(norm, pattern[i]) && !pattern[i].structural)
           && (wokeAtSecond == None ==> Tracks(norm, accepted, predicted, previous))
    }

    method Observe(current: Option<Value>)
      requires Valid() && period == None
      modifies this`observation, this`previous
      ensures Valid()
      ensures match current
              case None => observation == old(observation) + [MISSING] && previous == old(previous)
              case Some(v) => observation == old(observation) + [Diff(norm, old(previous), v)] && previous == v
    {
      match current {
        case None =>
          observation := observation + [MISSING];
        case Some(v) =>
          var t := TransitionBetween(norm, previous, v);
          if !t.structural {
            SignatureMirrors(norm, previous, v);
          }
          observation, previous := observation + [t], v;
      }
    }

    method Finalize(maximumPeriod: int)
      requires Valid() && period == None
      modifies this`period, this`pattern, this`predicted, this`accepted
      ensures Valid() && FoundPeriod(Beats(observation), maximumPeriod, period)
      ensures period.Some? ==>
                && period.value <= |observation| && pattern == observation[|observation| - period.value..]
                && predicted == previous && accepted == []
      ensures period.None? ==> pattern == [] && predicted == old(predicted)
    {
      var found := FindPeriod(Beats(observation), maximumPeriod);
      if found.Some? {
        BlocksShift(Beats(observation), found.value);
        period, pattern, predicted, accepted := found, observation[|observation| - found.value..], previous, [];
        forall i | 0 <= i < found.value ensures Mirrors(norm, pattern[i]) && !pattern[i].structural {
          var j := |observation| - found.value + i;
          assert !Beats(observation)[j].structural && Recorded(norm, observation[j]);
        }
        CloseRefl(0.0, previous);
      }
    }

    /** The tracker looks at a record only while it has a period, has not woken, and the record is there. */
    predicate Watches(current: Option<Value>)
      reads this
    {
      current.Some? && period.Some? && wokeAtSecond.None?
    }

    /** Whether a present record moved as the pattern says it should in this second. */
    ghost predicate AsExpected(second: nat, current: Value)
      requires pattern != [] && second >= 1
      reads this
    {
      MovesBy(norm, previous, current, pattern[(second - 1) % |pattern|])
    }

    /** The record moved as expected: the prediction moves with it. */
    method Advance(snapshot: Value, expected: Transition)
      requires Valid() && period.Some? && wokeAtSecond.None? && Mirrors(norm, expected)
      requires MovesBy(norm, previous, snapshot, expected)
      modifies this`predicted, this`previous, this`accepted
      ensures Valid() && previous == snapshot
      ensures Grew(old(accepted), accepted, expected, Diff(norm, old(previous), snapshot))
      ensures ApplyAll(Exact, old(predicted), expected.ops) == Some(predicted)
    {
      ghost var more, shadow := AcceptOne(norm, accepted, predicted, previous, snapshot, expected);
      var next := ApplyAll(Exact, predicted, expected.ops);
      assert next == Some(shadow);
      predicted, previous, accepted := next.value, snapshot, more;
    }

    method Wake(second: nat, reason: WakeReason, snapshot: Value)
      requires Valid() && period.Some? && wokeAtSecond.None? && !predictionMatched
      modifies this`previous, this`wokeAtSecond, this`wakeReason
      ensures Valid() && wokeAtSecond == Some(second) && wakeReason == Some(reason) && previous == snapshot
    {
      wokeAtSecond, wakeReason, previous := Some(second), Some(reason), snapshot;
    }

    method Validate(current: Option<Value>, second: nat) returns (replayed: nat)
      requires Valid() && second >= 1 && !predictionMatched
      modifies this`predicted, this`previous, this`wokeAtSecond, this`wakeReason, this`accepted
      ensures Valid()
      ensures !old(Watches(current)) ==>
                && replayed == 0 && accepted == old(accepted) && previous == old(previous) && predicted == old(predicted)
                && wokeAtSecond == old(wokeAtSecond) && wakeReason == old(wakeReason)
      ensures old(Watches(current)) && !old(AsExpected(second, current.value)) ==>
                && wokeAtSecond == Some(second) && previous == current.value && predicted == old(predicted)
                && accepted == old(accepted) && replayed == 0
                && wakeReason == Some(if Diff(norm, old(previous), current.value).structural then StructuralChange else OtherTransition)
      ensures old(Watches(current)) && old(AsExpected(second, current.value)) ==>
                && wokeAtSecond == None && previous == current.value
                && Grew(old(accepted), accepted, pattern[(second - 1) % |pattern|], Diff(norm, old(previous), current.value))
                && ApplyAll(Exact, old(predicted), pattern[(second - 1) % |pattern|].ops) == Some(predicted)
                && replayed == |pattern[(second - 1) % |pattern|].ops|
    {
      replayed := 0;
      if current.None? || period.None? || wokeAtSecond.Some? {
        return;
      }
      var snapshot := current.value;
      var actual := TransitionBetween(norm, previous, snapshot);
      var expected := pattern[(second - 1) % period.value];
      if actual.structural || SignOf(actual) != SignOf(expected) {
        Wake(second, if actual.structural then StructuralChange else OtherTransition, snapshot);
        return;
      }
      Advance(snapshot, expected);
      replayed := |expected.ops|;
    }

    method FinishValidation()
      requires Valid()
      modifies this`predictionMatched
      ensures Valid()
      ensures predictionMatched <==> period.Some? && wokeAtSecond.None? && Close(MATCH_TOLERANCE, predicted, previous)
      ensures period.Some? && wokeAtSecond.None? && TotalGap(accepted) <= MATCH_TOLERANCE ==> predictionMatched
    {
      if period.Some? && wokeAtSecond.None? && TotalGap(accepted) <= MATCH_TOLERANCE {
        CloseWeaken(TotalGap(accepted), MATCH_TOLERANCE, predicted, previous);
      }
      predictionMatched := period.Some? && wokeAtSecond.None? && Close(MATCH_TOLERANCE, predicted, previous);
    }

    method ValidateAll(records: seq<Option<Value>>)
      requires Valid() && period.Some? && wokeAtSecond.None? && accepted == [] && !predictionMatched
      modifies this`predicted, this`previous, this`wokeAtSecond, this`wakeReason, this`accepted
      ensures Valid() && |accepted| <= |records|
    {
      var second := 1;
      while second <= |records|
        invariant 1 <= second <= |records| + 1 && Valid() && |accepted| <= second - 1
      {
        var _ := Validate(records[second - 1], second);
        second := second + 1;
      }
    }

    /**
     * A whole validation with the record present or absent in each second, in any pattern. Whatever slack the normaliser
     * has on the amounts that occurred, an unwoken prediction is within one slack per accepted step.
     */
    method Run(records: seq<Option<Value>>, ghost slack: real, ghost amounts: iset<real>)
      requires Valid() && period.Some? && wokeAtSecond.None? && accepted == [] && !predictionMatched
      requires slack >= 0.0 && Resolves(norm, slack, amounts)
      modifies this
      ensures Valid() && |accepted| <= |records|
      ensures wokeAtSecond.None? && StepsIn(accepted, amounts) ==> Follows(|accepted|, slack, predicted, previous)
      ensures wokeAtSecond.None? && StepsIn(accepted, amounts) && slack == 0.0 ==> predicted == previous && predictionMatched
      ensures wokeAtSecond.None? && StepsIn(accepted, amounts) && Drift(|accepted|, slack) <= MATCH_TOLERANCE ==> predictionMatched
    {
      ValidateAll(records);
      if wokeAtSecond.None? && StepsIn(accepted, amounts) {
        DriftWithin(norm, slack, amounts, accepted);
        CloseWeaken(TotalGap(accepted), Drift(|accepted|, slack), predicted, previous);
        if slack == 0.0 {
          FollowsExactly(|accepted|, predicted, previous);
        }
      }
      FinishValidation();
    }

    function Finish(): Finished
      reads this
    {
      Finished(period.Some?, predictionMatched, wokeAtSecond.Some?)
    }
  }

  // ----- summary -----

  datatype Counts = Counts(total: nat, observedStable: nat, validatedStable: nat, woke: nat, predictionMismatch: nat)

  /** What the summary reads of one finished tracker. */
  datatype Finished = Finished(stable: bool, matched: bool, woken: bool)

  function Tally(b: bool): nat {
    if b then 1 else 0
  }

  function Counted(c: Counts, t: Finished): Counts {
    Counts(c.total + 1, c.observedStable + Tally(t.stable), c.validatedStable + Tally(t.matched), c.woke + Tally(t.woken),
           c.predictionMismatch + Tally(t.stable && !t.woken && !t.matched))
  }

  function Summarize(ts: seq<Finished>): Counts {
    if ts == [] then Counts(0, 0, 0, 0, 0)
    else
      Counted(Summarize(ts[..|ts| - 1]), ts[|ts| - 1])
  }

  /** What a valid tracker can end as: only a stable one is matched or woken, and never both. */
  predicate Sound(t: Finished) {
    (t.matched || t.woken ==> t.stable) && !(t.matched && t.woken)
  }

  /** Every stable tracker is validated, woken or mismatched, and exactly one of them. */
  lemma {:induction false} SummaryPartitions(ts: seq<Finished>)
    requires forall i | 0 <= i < |ts| :: Sound(ts[i])
    ensures var c := Summarize(ts);
            && c.total == |ts| && c.observedStable == c.validatedStable + c.woke + c.predictionMismatch
            && (c.predictionMismatch == 0 <==> forall i | 0 <= i < |ts| && ts[i].stable && !ts[i].woken :: ts[i].matched)
            && c.observedStable == |StableAt(ts)| && c.validatedStable == |MatchedAt(ts)| && c.woke == |WokenAt(ts)|
  {
    if ts != [] {
      SummaryPartitions(ts[..|ts| - 1]);
      OneMoreStable(ts);
      OneMoreMatched(ts);
      OneMoreWoken(ts);
      assert ts == ts[..|ts| - 1] + [ts[|ts| - 1]];
    }
  }

  ghost function StableAt(ts: seq<Finished>): set<int> {
    set i | 0 <= i < |ts| && ts[i].stable
  }

  ghost function MatchedAt(ts: seq<Finished>): set<int> {
    set i | 0 <= i < |ts| && ts[i].matched
  }

  ghost function WokenAt(ts: seq<Finished>): set<int> {
    set i | 0 <= i < |ts| && ts[i].woken
  }

  lemma OneMoreStable(ts: seq<Finished>)
    requires ts != []
    ensures |StableAt(ts)| == |StableAt(ts[..|ts| - 1])| + Tally(ts[|ts| - 1].stable)
  {
    var last := |ts| - 1;
    assert StableAt(ts) == StableAt(ts[..last]) + if ts[last].stable then {last} else {};
  }

  lemma OneMoreMatched(ts: seq<Finished>)
    requires ts != []
    ensures |MatchedAt(ts)| == |MatchedAt(ts[..|ts| - 1])| + Tally(ts[|ts| - 1].matched)
  {
    var last := |ts| - 1;
    assert MatchedAt(ts) == MatchedAt(ts[..last]) + if ts[last].matched then {last} else {};
  }

  lemma OneMoreWoken(ts: seq<Finished>)
    requires ts != []
    ensures |WokenAt(ts)| == |WokenAt(ts[..|ts| - 1])| + Tally(ts[|ts| - 1].woken)
  {
    var last := |ts| - 1;
    assert WokenAt(ts) == WokenAt(ts[..last]) + if ts[last].woken then {last} else {};
  }

  ghost function Finishes(trackers: seq<RecordTracker>): (r: seq<Finished>)
    reads trackers
    ensures |r| == |trackers| && forall i | 0 <= i < |r| :: r[i] == trackers[i].Finish()
  {
    if trackers == [] then []
    else Finishes(trackers[..|trackers| - 1]) + [trackers[|trackers| - 1].Finish()]
  }

  method CountTrackers(trackers: seq<RecordTracker>) returns (c: Counts)
    ensures c == Summarize(Finishes(trackers))
  {
    c := Counts(0, 0, 0, 0, 0);
    ghost var all := Finishes(trackers);
    var i := 0;
    while i < |trackers|
      invariant i <= |trackers| && c == Summarize(all[..i])
    {
      assert all[..i + 1][..i] == all[..i];
      c := Counted(c, trackers[i].Finish());
      i := i + 1;
    }
    assert all[..|trackers|] == all;
  }

  /** The counts over a population of trackers are those of the stable, matched and woken ones, and they add up. */
  method SummarizeTrackers(trackers: seq<RecordTracker>) returns (c: Counts)
    requires forall i | 0 <= i < |trackers| :: trackers[i].Valid()
    ensures c == Summarize(Finishes(trackers))
    ensures c.total == |trackers| && c.observedStable == c.validatedStable + c.woke + c.predictionMismatch
    ensures c.observedStable == |set i | 0 <= i < |trackers| && trackers[i].period.Some?|
    ensures c.validatedStable == |set i | 0 <= i < |trackers| && trackers[i].predictionMatched|
    ensures c.woke == |set i | 0 <= i < |trackers| && trackers[i].wokeAtSecond.Some?|
    ensures c.predictionMismatch == 0 <==>
            forall i | 0 <= i < |trackers| && trackers[i].period.Some? && trackers[i].wokeAtSecond.None? ::
              trackers[i].predictionMatched
  {
    c := CountTrackers(trackers);
    TrackersPartition(trackers);
    StableTrackers(trackers);
    MatchedTrackers(trackers);
    WokenTrackers(trackers);
  }

  lemma StableTrackers(trackers: seq<RecordTracker>)
    ensures StableAt(Finishes(trackers)) == set i | 0 <= i < |trackers| && trackers[i].period.Some?
  {
  }

  lemma MatchedTrackers(trackers: seq<RecordTracker>)
    ensures MatchedAt(Finishes(trackers)) == set i | 0 <= i < |trackers| && trackers[i].predictionMatched
  {
  }

  lemma WokenTrackers(trackers: seq<RecordTracker>)
    ensures WokenAt(Finishes(trackers)) == set i | 0 <= i < |trackers| && trackers[i].wokeAtSecond.Some?
  {
  }

  lemma TrackersPartition(trackers: seq<RecordTracker>)
    requires forall i | 0 <= i < |trackers| :: trackers[i].Valid()
    ensures var c := Summarize(Finishes(trackers));
            && c.total == |trackers| && c.observedStable == c.validatedStable + c.woke + c.predictionMismatch
            && c.observedStable == |StableAt(Finishes(trackers))| && c.validatedStable == |MatchedAt(Finishes(trackers))|
            && c.woke == |WokenAt(Finishes(trackers))|
            && (c.predictionMismatch == 0 <==>
                forall i | 0 <= i < |trackers| && trackers[i].period.Some? && trackers[i].wokeAtSecond.None? ::
                  trackers[i].predictionMatched)
  {
    ValidSound(trackers);
    SummaryPartitions(Finishes(trackers));
  }

  lemma ValidSound(trackers: seq<RecordTracker>)
    requires forall i | 0 <= i < |trackers| :: trackers[i].Valid()
    ensures forall i | 0 <= i < |Finishes(trackers)| :: Sound(Finishes(trackers)[i])
  {
    forall i | 0 <= i < |trackers| ensures Sound(Finishes(trackers)[i]) {
      assert trackers[i].Valid();
    }
  }
}
