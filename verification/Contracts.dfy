/** Contracts: recorded step patterns, and the replay of one window from them. */
module Contracts {
  import opened Wrappers
  import opened Json
  import opened Patch
  import opened StateDiff
  import opened DiffLaws
  import opened Windows

  /** What one component did in one phase: its transition and what it produced. */
  datatype PhaseStep = PhaseStep(transition: Transition, produced: map<string, int>)

  const EMPTY_PHASE: PhaseStep := PhaseStep(SAME, map[])

  datatype StepTransition = StepTransition(input: PhaseStep, production: PhaseStep, output: PhaseStep)
  {
    function Of(phase: Phase): PhaseStep {
      match phase
      case Input => input
      case Production => production
      case Output => output
    }

    predicate Structural() {
      input.transition.structural || production.transition.structural || output.transition.structural
    }
  }

  // ----- produced amounts -----

  /** The output slots of an entity. */
  function OutputsOf(entity: Value): map<string, Value> {
    if entity.Obj? && "outputs" in entity.fields && entity.fields["outputs"].Obj? then entity.fields["outputs"].fields
    else map[]
  }

  function Slot(outputs: map<string, Value>, item: string): real {
    if item in outputs && outputs[item].Num? then outputs[item].n else 0.0
  }

  /** The whole units by which one output slot grew. */
  function Growth(before: map<string, Value>, after: map<string, Value>, item: string): nat {
    var grown := (Slot(after, item) - Slot(before, item)).Floor;
    if grown > 0 then grown else 0
  }

  function GrowthOf(before: Value, after: Value, item: string): nat {
    Growth(OutputsOf(before), OutputsOf(after), item)
  }

  /** Everything the listed entities produced of one item. */
  function ProducedOf(ids: seq<string>, before: map<string, Value>, after: map<string, Value>, item: string): nat {
    if ids == [] then 0
    else
      var last := ids[|ids| - 1];
      ProducedOf(ids[..|ids| - 1], before, after, item) +
      if last in before && last in after then GrowthOf(before[last], after[last], item) else 0
  }

  /** The ledger lists exactly the items that grew, with their total growth. */
  ghost predicate IsLedger(ids: seq<string>, before: map<string, Value>, after: map<string, Value>, r: map<string, int>) {
    forall item {:trigger item in r} ::
      && (item in r <==> ProducedOf(ids, before, after, item) > 0)
      && (item in r ==> r[item] == ProducedOf(ids, before, after, item))
  }

  function Amount(ledger: map<string, int>, item: string): int {
    if item in ledger then ledger[item] else 0
  }

  function BumpAll(r: map<string, int>, before: map<string, Value>, after: map<string, Value>, items: seq<string>): map<string, int> {
    if items == [] then r
    else
      var rest, item := BumpAll(r, before, after, items[..|items| - 1]), items[|items| - 1];
      if Growth(before, after, item) > 0 then rest[item := Amount(rest, item) + Growth(before, after, item)] else rest
  }

  /** Adding the growth of one entity touches every item that grew, by its growth, and no other. */
  lemma {:induction false} BumpAllAt(r: map<string, int>, before: map<string, Value>, after: map<string, Value>,
                                     items: seq<string>, item: string)
    requires forall i, j | 0 <= i < j < |items| :: items[i] != items[j]
    ensures var b := BumpAll(r, before, after, items);
            && (item in b <==> item in r || (item in items && Growth(before, after, item) > 0))
            && Amount(b, item) == Amount(r, item) + if item in items then Growth(before, after, item) else 0
  {
    if items != [] {
      var rest, last := items[..|items| - 1], items[|items| - 1];
      assert items == rest + [last];
      BumpAllAt(r, before, after, rest, item);
    }
  }

  method AddGrowth(before: map<string, Value>, after: map<string, Value>, items: seq<string>, ledger: map<string, int>)
    returns (r: map<string, int>)
    ensures r == BumpAll(ledger, before, after, items)
  {
    r := ledger;
    var i := 0;
    while i < |items|
      invariant i <= |items| && r == BumpAll(ledger, before, after, items[..i])
    {
      assert items[..i + 1][..i] == items[..i];
      var delta := (Slot(after, items[i]) - Slot(before, items[i])).Floor;
      if delta > 0 {
        r := r[items[i] := Amount(r, items[i]) + delta];
      }
      i := i + 1;
    }
    assert items[..|items|] == items;
  }

  /** Every item that occurs in either set of slots, once. */
  function ItemsOf(before: map<string, Value>, after: map<string, Value>): seq<string> {
    SortedKeys(before.Keys + after.Keys)
  }

  lemma EntityGrowth(ledger: map<string, int>, before: map<string, Value>, after: map<string, Value>, item: string)
    ensures var b := BumpAll(ledger, before, after, ItemsOf(before, after));
            && (item in b <==> item in ledger || Growth(before, after, item) > 0)
            && Amount(b, item) == Amount(ledger, item) + Growth(before, after, item)
  {
    BumpAllAt(ledger, before, after, ItemsOf(before, after), item);
    if item !in before && item !in after {
      assert (0.0 - 0.0).Floor == 0;
    }
  }

  /** One more entity: its growth joins the totals of every item. */
  lemma LedgerStep(ids: seq<string>, before: map<string, Value>, after: map<string, Value>, ledger: map<string, int>,
                   b: map<string, Value>, a: map<string, Value>)
    requires ids != [] && ids[|ids| - 1] in before && ids[|ids| - 1] in after
    requires b == OutputsOf(before[ids[|ids| - 1]]) && a == OutputsOf(after[ids[|ids| - 1]])
    requires IsLedger(ids[..|ids| - 1], before, after, ledger)
    ensures IsLedger(ids, before, after, BumpAll(ledger, b, a, ItemsOf(b, a)))
  {
    var r := BumpAll(ledger, b, a, ItemsOf(b, a));
    forall item
      ensures item in r <==> ProducedOf(ids, before, after, item) > 0
      ensures item in r ==> r[item] == ProducedOf(ids, before, after, item)
    {
      assert item in ledger || item !in ledger;
      EntityGrowth(ledger, b, a, item);
    }
  }

  method ProducedDuringPhase(ids: seq<string>, before: map<string, Value>, after: map<string, Value>)
    returns (produced: map<string, int>)
    ensures IsLedger(ids, before, after, produced)
    ensures forall item :: item in produced <==> Produced(ids, before, after, item)
    ensures forall item | OnlyGrows(ids, before, after, item) ::
              (if item in produced then produced[item] else 0) as real ==
              StockOfAll(ids, before, after, after, item) - StockOfAll(ids, before, after, before, item)
  {
    produced := map[];
    var i := 0;
    while i < |ids|
      invariant i <= |ids|
      invariant IsLedger(ids[..i], before, after, produced)
    {
      assert ids[..i + 1][..i] == ids[..i];
      if ids[i] in before && ids[i] in after {
        var b, a := OutputsOf(before[ids[i]]), OutputsOf(after[ids[i]]);
        LedgerStep(ids[..i + 1], before, after, produced, b, a);
        produced := AddGrowth(b, a, ItemsOf(b, a), produced);
      }
      i := i + 1;
    }
    assert ids[..|ids|] == ids;
    forall item
      ensures item in produced <==> Produced(ids, before, after, item)
      ensures OnlyGrows(ids, before, after, item) ==>
                (if item in produced then produced[item] else 0) as real ==
                StockOfAll(ids, before, after, after, item) - StockOfAll(ids, before, after, before, item)
    {
      LedgerOfOutputs(ids, before, after, produced, item);
    }
  }

  // ----- what the ledger means in the entities' own fields -----

  /** The stock of an item in an entity's output, zero if there is none. */
  function OutputStock(entity: Value, item: string): real {
    if entity.Obj? && "outputs" in entity.fields && entity.fields["outputs"].Obj?
       && item in entity.fields["outputs"].fields && entity.fields["outputs"].fields[item].Num?
    then entity.fields["outputs"].fields[item].n
    else 0.0
  }

  /** The output stock of the listed entities that are there both before and after. */
  function StockOfAll(ids: seq<string>, before: map<string, Value>, after: map<string, Value>, shown: map<string, Value>, item: string): real {
    if ids == [] then 0.0
    else
      var last := ids[|ids| - 1];
      StockOfAll(ids[..|ids| - 1], before, after, shown, item) +
      if last in before && last in after && last in shown then OutputStock(shown[last], item) else 0.0
  }

  /** A listed entity whose output of the item grew by a whole unit at least. */
  predicate Produced(ids: seq<string>, before: map<string, Value>, after: map<string, Value>, item: string) {
    exists id | id in ids :: id in before && id in after && OutputStock(after[id], item) - OutputStock(before[id], item) >= 1.0
  }

  /** In no listed entity does the output of the item shrink or hold a fraction. */
  predicate OnlyGrows(ids: seq<string>, before: map<string, Value>, after: map<string, Value>, item: string) {
    forall id | id in ids && id in before && id in after ::
      var x, y := OutputStock(before[id], item), OutputStock(after[id], item);
      x.Floor as real == x && y.Floor as real == y && x <= y
  }

  lemma GrowthOfStock(before: Value, after: Value, item: string)
    ensures var d := OutputStock(after, item) - OutputStock(before, item);
            GrowthOf(before, after, item) == if d >= 1.0 then d.Floor else 0
  {
  }

  lemma {:induction false} ProducedIffGrown(ids: seq<string>, before: map<string, Value>, after: map<string, Value>, item: string)
    ensures ProducedOf(ids, before, after, item) > 0 <==> Produced(ids, before, after, item)
    decreases |ids|
  {
    if ids != [] {
      var rest, last := ids[..|ids| - 1], ids[|ids| - 1];
      ProducedIffGrown(rest, before, after, item);
      assert ids == rest + [last];
      if last in before && last in after {
        GrowthOfStock(before[last], after[last], item);
      }
    }
  }

  lemma WholeGrowth(x: real, y: real)
    requires x.Floor as real == x && y.Floor as real == y && x <= y
    ensures (if y - x >= 1.0 then (y - x).Floor else 0) as real == y - x
  {
    WholeGap(x.Floor, y.Floor, y - x);
  }

  lemma WholeGap(a: int, b: int, d: real)
    requires a <= b && d == b as real - a as real
    ensures d == (b - a) as real && d.Floor == b - a && (d >= 1.0 <==> b > a)
  {
  }

  lemma {:induction false} ProducedIsIncrease(ids: seq<string>, before: map<string, Value>, after: map<string, Value>, item: string)
    requires OnlyGrows(ids, before, after, item)
    ensures ProducedOf(ids, before, after, item) as real ==
            StockOfAll(ids, before, after, after, item) - StockOfAll(ids, before, after, before, item)
    decreases |ids|
  {
    if ids != [] {
      var rest, last := ids[..|ids| - 1], ids[|ids| - 1];
      assert ids == rest + [last];
      ProducedIsIncrease(rest, before, after, item);
      if last in before && last in after {
        GrowthOfStock(before[last], after[last], item);
        WholeGrowth(OutputStock(before[last], item), OutputStock(after[last], item));
      }
    }
  }

  /**
   * The ledger lists an item exactly if some listed entity's output of it grew by a whole unit; where outputs are whole
   * and only grow, the amount is the increase of the listed entities' stock.
   */
  lemma LedgerOfOutputs(ids: seq<string>, before: map<string, Value>, after: map<string, Value>, produced: map<string, int>, item: string)
    requires IsLedger(ids, before, after, produced)
    ensures item in produced <==> Produced(ids, before, after, item)
    ensures OnlyGrows(ids, before, after, item) ==>
              (if item in produced then produced[item] else 0) as real ==
              StockOfAll(ids, before, after, after, item) - StockOfAll(ids, before, after, before, item)
  {
    ProducedIffGrown(ids, before, after, item);
    if OnlyGrows(ids, before, after, item) {
      ProducedIsIncrease(ids, before, after, item);
    }
  }

  /** The ledger of a phase, as a value. */
  ghost function Ledger(ids: seq<string>, before: map<string, Value>, after: map<string, Value>): (r: map<string, int>)
    ensures IsLedger(ids, before, after, r)
  {
    if ids == [] then map[]
    else
      var last, rest := ids[|ids| - 1], Ledger(ids[..|ids| - 1], before, after);
      if last !in before || last !in after then rest
      else
        var b, a := OutputsOf(before[last]), OutputsOf(after[last]);
        LedgerStep(ids, before, after, rest, b, a);
        BumpAll(rest, b, a, ItemsOf(b, a))
  }

  lemma LedgerUnique(ids: seq<string>, before: map<string, Value>, after: map<string, Value>, r: map<string, int>)
    requires IsLedger(ids, before, after, r)
    ensures r == Ledger(ids, before, after)
  {
    forall item ensures item in r <==> item in Ledger(ids, before, after) {
    }
  }

  // ----- what the collector sees of one window -----

  ghost function ObservedPhase(norm: Normalizer, before: World, after: World, scope: Scope, phase: Phase): PhaseStep {
    PhaseStep(
      Diff(norm, SnapshotComponent(before, scope, phase), SnapshotComponent(after, scope, phase)),
      if phase.Production? then Ledger(SortedKeys(scope.productionIds), before.entities, after.entities) else map[])
  }

  function Normalized(norm: Normalizer, produced: map<string, int>): map<string, real> {
    map item | item in produced :: norm(produced[item] as real)
  }

  /** Two phases a step signature cannot tell apart. */
  predicate SamePhase(norm: Normalizer, p: PhaseStep, q: PhaseStep) {
    SameSignature(p.transition, q.transition) && Normalized(norm, p.produced) == Normalized(norm, q.produced)
  }

  /** Equal step signatures: equal phase signatures and equal produced amounts. */
  predicate SameStep(norm: Normalizer, s: StepTransition, t: StepTransition) {
    && SameSignature(s.input.transition, t.input.transition)
    && SamePhase(norm, s.production, t.production)
    && SameSignature(s.output.transition, t.output.transition)
  }

  lemma SameAmounts(norm: Normalizer, amounts: iset<real>, p: map<string, int>, q: map<string, int>)
    requires Resolves(norm, 0.0, amounts) && Normalized(norm, p) == Normalized(norm, q)
    requires forall item | item in p :: p[item] as real in amounts
    requires forall item | item in q :: q[item] as real in amounts
    ensures p == q
  {
    assert p.Keys == Normalized(norm, p).Keys == q.Keys;
    forall item | item in p ensures p[item] == q[item] {
      assert Normalized(norm, p)[item] == Normalized(norm, q)[item];
    }
  }

  // ----- replay -----

  /** A component with the repeating block of steps recorded for it. */
  datatype Contract = Contract(scope: Scope, pattern: seq<StepTransition>)
  {
    function At(second: nat): StepTransition
      requires pattern != []
    {
      pattern[second % |pattern|]
    }
  }

  function Credit(totals: map<string, int>, produced: map<string, int>): map<string, int> {
    map item | item in totals.Keys + produced.Keys ::
      (if item in totals then totals[item] else 0) + (if item in produced then produced[item] else 0)
  }

  /** The operations of several contracts in one window, in contract order. */
  function WindowOps(cs: seq<Contract>, second: nat, phase: Phase): seq<Op>
    requires forall i | 0 <= i < |cs| :: cs[i].pattern != []
  {
    if cs == [] then []
    else WindowOps(cs[..|cs| - 1], second, phase) + cs[|cs| - 1].At(second).Of(phase).transition.ops
  }

  function CreditAll(totals: map<string, int>, cs: seq<Contract>, second: nat): map<string, int>
    requires forall i | 0 <= i < |cs| :: cs[i].pattern != []
  {
    if cs == [] then totals
    else Credit(CreditAll(totals, cs[..|cs| - 1], second), cs[|cs| - 1].At(second).production.produced)
  }

  function TotalsAfter(totals: map<string, int>, cs: seq<Contract>, second: nat, phase: Phase): map<string, int>
    requires forall i | 0 <= i < |cs| :: cs[i].pattern != []
  {
    if phase.Production? then CreditAll(totals, cs, second) else totals
  }

  /** What the replayer makes of the world an engine phase left behind with the contracted parts skipped. */
  function ReplayWindow(mode: Mode, cs: seq<Contract>, second: nat, phase: Phase, skipped: World): Option<World>
    requires forall i | 0 <= i < |cs| :: cs[i].pattern != []
  {
    match ApplyAll(mode, View(skipped), WindowOps(cs, second, phase))
    case None => None
    case Some(v) =>
      if IsView(v) then
        Some(World(v.fields["entities"].fields, v.fields["belts"].fields,
                   TotalsAfter(skipped.totals, cs, second, phase), skipped.rest))
      else None
  }

  // ----- what replay does to the totals -----

  /** What the contracts recorded of one item for this second, summed up. */
  function RecordedSum(cs: seq<Contract>, second: nat, item: string): int
    requires forall i | 0 <= i < |cs| :: cs[i].pattern != []
  {
    if cs == [] then 0
    else
      var pattern := cs[|cs| - 1].pattern;
      var produced := pattern[second % |pattern|].production.produced;
      RecordedSum(cs[..|cs| - 1], second, item) + if item in produced then produced[item] else 0
  }

  lemma {:induction false} CreditedSum(totals: map<string, int>, cs: seq<Contract>, second: nat, item: string)
    requires forall i | 0 <= i < |cs| :: cs[i].pattern != []
    ensures var r := CreditAll(totals, cs, second);
            && (item in totals ==> item in r)
            && (if item in r then r[item] else 0) == (if item in totals then totals[item] else 0) + RecordedSum(cs, second, item)
    decreases |cs|
  {
    if cs != [] {
      CreditedSum(totals, cs[..|cs| - 1], second, item);
    }
  }

  /**
   * After a production hook every total has grown by what the replayed contracts recorded; no total disappears. The
   * belt hooks leave the totals alone, and no hook touches anything but entities, belts and totals.
   */
  lemma ReplayedTotals(mode: Mode, cs: seq<Contract>, second: nat, phase: Phase, skipped: World, item: string)
    requires forall i | 0 <= i < |cs| :: cs[i].pattern != []
    requires ReplayWindow(mode, cs, second, phase, skipped).Some?
    ensures var w := ReplayWindow(mode, cs, second, phase, skipped).value;
            && w.rest == skipped.rest && (item in skipped.totals ==> item in w.totals)
            && (if item in w.totals then w.totals[item] else 0) ==
               (if item in skipped.totals then skipped.totals[item] else 0) +
               (if phase == Production then RecordedSum(cs, second, item) else 0)
            && (phase != Production ==> w.totals == skipped.totals)
  {
    CreditedSum(skipped.totals, cs, second, item);
  }
}
