/** How often a change is counted: when replay is right, number by number. */
module ReplayLimits {
  import opened Wrappers
  import opened Json
  import opened Patch
  import opened Decimal
  import opened StateDiff
  import opened DiffLaws
  import opened Windows
  import opened Contracts
  import opened ReplayWindowLaws
  import opened LeafLaws
  import opened ReplayExactness

  // ----- adding to one leaf several times -----

  /** A change, so many times over. */
  function Times(count: nat, d: real): real {
    if count == 0 then 0.0 else Times(count - 1, d) + d
  }

  lemma {:induction false} TimesIs(count: nat, d: real)
    ensures Times(count, d) == count as real * d
  {
    if count > 0 {
      TimesIs(count - 1, d);
    }
  }

  /** Only once over gives the change itself. */
  lemma OnlyOnce(count: nat, d: real)
    requires d != 0.0
    ensures Times(count, d) == d <==> count == 1
  {
    TimesIs(count, d);
    assert Times(count, d) - d == (count as real - 1.0) * d;
  }

  predicate IsNumber(v: Option<Value>) {
    v.Some? && v.value.Num?
  }

  lemma {:induction false} FoldConcat(mode: Mode, a: seq<Op>, b: seq<Op>, p: Path, current: Option<Value>)
    ensures FoldAt(mode, a + b, p, current) == FoldAt(mode, b, p, FoldAt(mode, a, p, current))
    decreases |a|
  {
    if a == [] {
      assert a + b == b;
    } else {
      assert (a + b)[0] == a[0] && (a + b)[1..] == a[1..] + b;
      FoldConcat(mode, a[1..], b, p,
                 if a[0].path != p then current else if current.Some? then Leaf(mode, a[0], current.value) else None);
    }
  }

  /** The digits recorded with the addition to a leaf. */
  function DigitsAt(ops: seq<Op>, p: Path): nat {
    if ops == [] then 0
    else if ops[0].path == p && ops[0].Add? then ops[0].digits
    else DigitsAt(ops[1..], p)
  }

  /** In a prefix-free list, a leaf meets one operation at most. */
  lemma {:induction false} FoldOne(mode: Mode, ops: seq<Op>, p: Path, k: nat, current: Option<Value>)
    requires PrefixFree(ops) && k < |ops| && ops[k].path == p && ops[k].Add?
    ensures FoldAt(mode, ops, p, current) == if current.Some? then Leaf(mode, ops[k], current.value) else None
    ensures DigitsAt(ops, p) == ops[k].digits
    decreases |ops|
  {
    var rest := ops[1..];
    assert forall i | 0 <= i < |rest| :: rest[i] == ops[i + 1];
    if k == 0 {
      forall i | 0 <= i < |rest| ensures rest[i].path != p {
        assert Incomparable(ops[0].path, ops[i + 1].path);
      }
      FoldIdle(mode, rest, p, if current.Some? then Leaf(mode, ops[0], current.value) else None);
    } else {
      assert Incomparable(ops[0].path, ops[k].path);
      FoldOne(mode, rest, p, k - 1, current);
    }
  }

  ghost predicate SetsAt(ops: seq<Op>, p: Path, value: Value) {
    forall i | 0 <= i < |ops| && ops[i].path == p :: ops[i].Set? && ops[i].value == value
  }

  lemma {:induction false} SetsFoldTo(mode: Mode, ops: seq<Op>, p: Path, value: Value, current: Option<Value>)
    requires SetsAt(ops, p, value) && current.Some? && (current.value == value || Addressed(ops, p))
    ensures FoldAt(mode, ops, p, current) == Some(value)
    decreases |ops|
  {
    if ops != [] {
      var rest := ops[1..];
      assert forall i | 0 <= i < |rest| :: rest[i] == ops[i + 1];
      if ops[0].path == p {
        SetsFoldTo(mode, rest, p, value, Some(value));
      } else {
        if Addressed(ops, p) {
          var i :| 0 <= i < |ops| && ops[i].path == p;
          assert rest[i - 1].path == p;
        }
        SetsFoldTo(mode, rest, p, value, current);
      }
    }
  }

  // ----- what the recorded operations measure in the whole world -----

  /** A recorded operation that shows the real window: the change of a number, or the new value of another leaf. */
  ghost predicate Measures(op: Op, before: Value, after: Value) {
    && At(before, op.path).Some?
    && if op.Add? then
         && op.delta != 0.0 && At(before, op.path).value.Num?
         && At(after, op.path) == Some(Num(At(before, op.path).value.n + op.delta))
       else At(before, op.path).value.Primitive() && At(after, op.path) == Some(op.value)
  }

  ghost predicate AllMeasure(ops: seq<Op>, before: Value, after: Value) {
    forall i | 0 <= i < |ops| :: Measures(ops[i], before, after)
  }

  lemma GenuineMeasures(norm: Normalizer, op: Op, own: Op, before: World, after: World, scope: Scope, phase: Phase)
    requires norm(0.0) == 0.0 && Alike(0.0, op, own)
    requires Genuine(norm, own, SnapshotComponent(before, scope, phase), SnapshotComponent(after, scope, phase))
    ensures Measures(op, View(before), View(after))
  {
    LeafDepth(before, scope, phase, op.path);
    SnapshotInView(before, scope, phase, op.path);
    SnapshotInView(after, scope, phase, op.path);
  }

  lemma RecursMeasures(norm: Normalizer, c: Contract, second: nat, phase: Phase, before: World, after: World)
    requires norm(0.0) == 0.0 && Recurs(norm, c, second, phase, before, after)
    ensures AllMeasure(c.At(second).Of(phase).transition.ops, View(before), View(after))
  {
    var ops := c.At(second).Of(phase).transition.ops;
    var x, y := SnapshotComponent(before, c.scope, phase), SnapshotComponent(after, c.scope, phase);
    var own := Diff(norm, x, y).ops;
    DiffRecords(norm, x, y);
    forall i | 0 <= i < |ops| ensures Measures(ops[i], View(before), View(after)) {
      assert Alike(0.0, ops[i], own[i]) && Genuine(norm, own[i], x, y);
      GenuineMeasures(norm, ops[i], own[i], before, after, c.scope, phase);
    }
  }

  lemma {:induction false} WindowMeasures(cs: seq<Contract>, n: nat, second: nat, phase: Phase, before: Value, after: Value)
    requires n <= |cs| && forall i | 0 <= i < |cs| :: cs[i].pattern != []
    requires forall i | 0 <= i < n :: AllMeasure(cs[i].At(second).Of(phase).transition.ops, before, after)
    ensures AllMeasure(WindowOps(cs[..n], second, phase), before, after)
  {
    if n > 0 {
      WindowMeasures(cs, n - 1, second, phase, before, after);
      assert AllMeasure(cs[n - 1].At(second).Of(phase).transition.ops, before, after);
      WindowOpsStep(cs, n - 1, second, phase);
    }
  }

  // ----- every contract that covers a changed number adds its change once -----

  /** A number that the real window changes. */
  predicate NumberChanges(p: Path, before: Value, after: Value) {
    IsNumber(At(before, p)) && IsNumber(At(after, p)) && At(before, p) != At(after, p)
  }

  function Covers(p: Path, scope: Scope, phase: Phase): nat {
    if InScope(p, scope, phase) then 1 else 0
  }

  /** The number of contracts that cover a path. */
  function Covering(cs: seq<Contract>, phase: Phase, p: Path): nat {
    if cs == [] then 0 else Covering(cs[..|cs| - 1], phase, p) + Covers(p, cs[|cs| - 1].scope, phase)
  }

  /** Within its scope, a snapshot shows what the whole view shows. */
  lemma ViewInSnapshot(w: World, scope: Scope, phase: Phase, p: Path)
    requires InScope(p, scope, phase)
    ensures At(SnapshotComponent(w, scope, phase), p) == At(View(w), p)
  {
    var s, v := SnapshotComponent(w, scope, phase), View(w);
    assert p[1..][0] == p[1];
    assert Child(Child(s, p[0]), p[1]) == Child(Child(v, p[0]), p[1]);
  }

  lemma UnaddressedKept(norm: Normalizer, x: Value, y: Value, p: Path)
    requires !Diff(norm, x, y).structural && IsNumber(At(x, p))
    requires forall i | 0 <= i < |Diff(norm, x, y).ops| :: Diff(norm, x, y).ops[i].path != p
    ensures At(y, p) == At(x, p)
  {
    var ops := Diff(norm, x, y).ops;
    DiffRecords(norm, x, y);
    forall i | 0 <= i < |ops| ensures Incomparable(ops[i].path, p) {
      assert Genuine(norm, ops[i], x, y);
      LeavesApart(x, ops[i].path, p);
    }
    PatchRestores(norm, x, y);
    ApplyAllOther(Exact, x, ops, p);
  }

  /** A diff addresses every number that changed. */
  lemma ChangeIsRecorded(norm: Normalizer, x: Value, y: Value, p: Path) returns (k: nat)
    requires !Diff(norm, x, y).structural && NumberChanges(p, x, y)
    ensures k < |Diff(norm, x, y).ops| && Diff(norm, x, y).ops[k].path == p && Diff(norm, x, y).ops[k].Add?
  {
    var ops := Diff(norm, x, y).ops;
    if forall i | 0 <= i < |ops| :: ops[i].path != p {
      UnaddressedKept(norm, x, y, p);
    }
    k :| 0 <= k < |ops| && ops[k].path == p;
    DiffRecords(norm, x, y);
    assert Genuine(norm, ops[k], x, y);
  }

  /** What one contract's operations make of a leaf: they add the change if they cover it, and leave it alone otherwise. */
  ghost predicate FoldsAs(mode: Mode, ops: seq<Op>, p: Path, covered: bool, d: real) {
    forall current {:trigger FoldAt(mode, ops, p, current)} ::
      FoldAt(mode, ops, p, current) ==
      if !covered then current
      else if IsNumber(current) then Some(Num(Finish(mode, current.value.n + d, DigitsAt(ops, p))))
      else None
  }

  /** The change of a number, recorded once and not at zero. */
  ghost predicate RecordsChange(ops: seq<Op>, p: Path, k: nat, d: real) {
    PrefixFree(ops) && k < |ops| && ops[k].path == p && ops[k].Add? && ops[k].delta == d
  }

  lemma RecordedFolds(mode: Mode, ops: seq<Op>, p: Path, k: nat, d: real)
    requires RecordsChange(ops, p, k, d)
    ensures FoldsAs(mode, ops, p, true, d)
  {
    forall current
      ensures FoldAt(mode, ops, p, current) ==
              if IsNumber(current) then Some(Num(Finish(mode, current.value.n + d, DigitsAt(ops, p)))) else None
    {
      FoldOne(mode, ops, p, k, current);
    }
  }

  lemma UnrecordedFolds(mode: Mode, ops: seq<Op>, p: Path, d: real)
    requires forall i | 0 <= i < |ops| :: ops[i].path != p
    ensures FoldsAs(mode, ops, p, false, d)
  {
    forall current ensures FoldAt(mode, ops, p, current) == current {
      FoldIdle(mode, ops, p, current);
    }
  }

  lemma RecursRecord(norm: Normalizer, c: Contract, second: nat, phase: Phase, before: World, after: World, p: Path)
    returns (k: nat)
    requires norm(0.0) == 0.0 && Recurs(norm, c, second, phase, before, after)
    requires NumberChanges(p, View(before), View(after)) && InScope(p, c.scope, phase)
    ensures RecordsChange(c.At(second).Of(phase).transition.ops, p, k, At(View(after), p).value.n - At(View(before), p).value.n)
  {
    var ops := c.At(second).Of(phase).transition.ops;
    RecordedOwnOps(norm, c, second, phase, before, after);
    var x, y := SnapshotComponent(before, c.scope, phase), SnapshotComponent(after, c.scope, phase);
    ViewInSnapshot(before, c.scope, phase, p);
    ViewInSnapshot(after, c.scope, phase, p);
    k := ChangeIsRecorded(norm, x, y, p);
    assert Alike(0.0, ops[k], Diff(norm, x, y).ops[k]);
    RecursMeasures(norm, c, second, phase, before, after);
    assert Measures(ops[k], View(before), View(after));
  }

  lemma RecursFolds(norm: Normalizer, mode: Mode, c: Contract, second: nat, phase: Phase, before: World, after: World, p: Path,
                    d: real)
    requires norm(0.0) == 0.0 && Recurs(norm, c, second, phase, before, after)
    requires NumberChanges(p, View(before), View(after)) && d == At(View(after), p).value.n - At(View(before), p).value.n
    ensures FoldsAs(mode, c.At(second).Of(phase).transition.ops, p, InScope(p, c.scope, phase), d)
  {
    var ops := c.At(second).Of(phase).transition.ops;
    if InScope(p, c.scope, phase) {
      var k := RecursRecord(norm, c, second, phase, before, after, p);
      RecordedFolds(mode, ops, p, k, d);
    } else {
      RecordedOwnOps(norm, c, second, phase, before, after);
      forall i | 0 <= i < |ops| ensures ops[i].path != p {
        assert OwnOp(ops[i], c.scope, phase, before, after);
      }
      UnrecordedFolds(mode, ops, p, d);
    }
  }

  /** A number with its change added once per covering contract, rounded each time to the digits that contract recorded. */
  function Counted(mode: Mode, cs: seq<Contract>, second: nat, phase: Phase, p: Path, s: real, d: real): real
    requires forall i | 0 <= i < |cs| :: cs[i].pattern != []
  {
    if cs == [] then s
    else
      var rest, last := Counted(mode, cs[..|cs| - 1], second, phase, p, s, d), cs[|cs| - 1];
      if InScope(p, last.scope, phase) then Finish(mode, rest + d, DigitsAt(last.At(second).Of(phase).transition.ops, p))
      else rest
  }

  ghost predicate AllFold(mode: Mode, cs: seq<Contract>, second: nat, phase: Phase, p: Path, d: real)
    requires forall i | 0 <= i < |cs| :: cs[i].pattern != []
  {
    forall i | 0 <= i < |cs| ::
      FoldsAs(mode, cs[i].At(second).Of(phase).transition.ops, p, InScope(p, cs[i].scope, phase), d)
  }

  lemma CountedStep(mode: Mode, cs: seq<Contract>, n: nat, second: nat, phase: Phase, p: Path, s: real, d: real)
    requires n < |cs| && forall i | 0 <= i < |cs| :: cs[i].pattern != []
    ensures Counted(mode, cs[..n + 1], second, phase, p, s, d) ==
            var r := Counted(mode, cs[..n], second, phase, p, s, d);
            if InScope(p, cs[n].scope, phase) then Finish(mode, r + d, DigitsAt(cs[n].At(second).Of(phase).transition.ops, p)) else r
  {
    assert cs[..n + 1][..n] == cs[..n];
  }

  lemma {:induction false} WindowFolds(mode: Mode, cs: seq<Contract>, n: nat, second: nat, phase: Phase, p: Path,
                                       current: Option<Value>, d: real)
    requires n <= |cs| && (forall i | 0 <= i < |cs| :: cs[i].pattern != []) && AllFold(mode, cs, second, phase, p, d)
    ensures var folded := FoldAt(mode, WindowOps(cs[..n], second, phase), p, current);
            if IsNumber(current) then folded == Some(Num(Counted(mode, cs[..n], second, phase, p, current.value.n, d)))
            else !IsNumber(folded)
  {
    if n > 0 {
      WindowFolds(mode, cs, n - 1, second, phase, p, current, d);
      WindowOpsStep(cs, n - 1, second, phase);
      FoldConcat(mode, WindowOps(cs[..n - 1], second, phase), cs[n - 1].At(second).Of(phase).transition.ops, p, current);
      if IsNumber(current) {
        CountedStep(mode, cs, n - 1, second, phase, p, current.value.n, d);
      }
    }
  }

  // ----- the exact condition, number by number -----

  /** What skipping left of a changed number, with its change counted per covering contract, is its real value. */
  ghost predicate Settles(mode: Mode, cs: seq<Contract>, second: nat, phase: Phase, p: Path,
                          before: Value, skipped: Value, after: Value)
    requires NumberChanges(p, before, after) && forall i | 0 <= i < |cs| :: cs[i].pattern != []
  {
    && IsNumber(At(skipped, p))
    && var x, y := At(before, p).value.n, At(after, p).value.n;
       Counted(mode, cs, second, phase, p, At(skipped, p).value.n, y - x) == y
  }

  ghost predicate AllSettle(mode: Mode, cs: seq<Contract>, second: nat, phase: Phase, before: Value, skipped: Value, after: Value)
    requires forall i | 0 <= i < |cs| :: cs[i].pattern != []
  {
    forall p | NumberChanges(p, before, after) :: Settles(mode, cs, second, phase, p, before, skipped, after)
  }

  /** The operations take a number to its real value. */
  ghost predicate NumberReached(mode: Mode, ops: seq<Op>, p: Path, skipped: Value, after: Value) {
    FoldAt(mode, ops, p, At(skipped, p)) == At(after, p)
  }

  lemma NumberSettles(mode: Mode, cs: seq<Contract>, second: nat, phase: Phase, p: Path, before: Value, skipped: Value, after: Value,
                      d: real)
    requires NumberChanges(p, before, after) && forall i | 0 <= i < |cs| :: cs[i].pattern != []
    requires d == At(after, p).value.n - At(before, p).value.n && AllFold(mode, cs, second, phase, p, d)
    ensures NumberReached(mode, WindowOps(cs, second, phase), p, skipped, after) <==>
            Settles(mode, cs, second, phase, p, before, skipped, after)
  {
    assert cs[..|cs|] == cs;
    WindowFolds(mode, cs, |cs|, second, phase, p, At(skipped, p), d);
  }

  lemma LeafReached(mode: Mode, ops: seq<Op>, i: nat, before: Value, skipped: Value, after: Value)
    requires AllMeasure(ops, before, after) && i < |ops| && ops[i].Set? && At(skipped, ops[i].path).Some?
    ensures FoldAt(mode, ops, ops[i].path, At(skipped, ops[i].path)) == At(after, ops[i].path)
  {
    var p := ops[i].path;
    assert Measures(ops[i], before, after);
    forall j | 0 <= j < |ops| && ops[j].path == p ensures ops[j].Set? && ops[j].value == ops[i].value {
      assert Measures(ops[j], before, after);
    }
    SetsFoldTo(mode, ops, p, ops[i].value, At(skipped, p));
  }

  /** Where the addressed leaves can be blanked, they are there. */
  lemma BlankedThere(ops: seq<Op>, v: Value, i: nat)
    requires LeafList(ops) && i < |ops| && ApplyAll(Exact, v, Blanks(ops)).Some?
    ensures At(v, ops[i].path).Some?
  {
    var bs := Blanks(ops);
    BlanksFit(ops);
    AppliesIffFolds(Exact, v, bs);
    assert FoldAt(Exact, bs, bs[i].path, At(v, bs[i].path)).Some?;
    if At(v, ops[i].path).None? {
      FoldFails(Exact, bs, ops[i].path);
    }
  }

  /** The operations take every number that changes to its real value. */
  ghost predicate NumbersReach(mode: Mode, ops: seq<Op>, before: Value, skipped: Value, after: Value) {
    forall p | NumberChanges(p, before, after) :: NumberReached(mode, ops, p, skipped, after)
  }

  lemma ReachedNumbers(mode: Mode, ops: seq<Op>, before: Value, skipped: Value, after: Value)
    requires AllLeafy(ops, before, after) && ApplyAll(mode, skipped, ops) == Some(after)
    ensures NumbersReach(mode, ops, before, skipped, after)
  {
    forall p | NumberChanges(p, before, after) ensures NumberReached(mode, ops, p, skipped, after) {
      NumberApart(ops, before, after, p);
      FoldIs(mode, skipped, ops, p);
    }
  }

  lemma NumbersReached(mode: Mode, ops: seq<Op>, before: Value, skipped: Value, after: Value)
    requires AllMeasure(ops, before, after) && LeafList(ops)
    requires AgreeOutside(ops, skipped, after) && NumbersReach(mode, ops, before, skipped, after)
    ensures LeavesReach(mode, ops, skipped, after)
  {
    forall i | 0 <= i < |ops|
      ensures FoldAt(mode, ops, ops[i].path, At(skipped, ops[i].path)) == At(after, ops[i].path)
    {
      assert Measures(ops[i], before, after);
      if ops[i].Add? {
        assert NumberChanges(ops[i].path, before, after);
        assert NumberReached(mode, ops, ops[i].path, skipped, after);
      } else {
        BlankedThere(ops, skipped, i);
        LeafReached(mode, ops, i, before, skipped, after);
      }
    }
  }

  /** Leaf lists that measure a window reach the real state exactly when the rest agrees and every number is reached. */
  lemma MeasuredReaches(mode: Mode, ops: seq<Op>, before: Value, skipped: Value, after: Value)
    requires AllMeasure(ops, before, after) && AllLeafy(ops, before, after)
    ensures ApplyAll(mode, skipped, ops) == Some(after) <==>
            AgreeOutside(ops, skipped, after) && NumbersReach(mode, ops, before, skipped, after)
  {
    LeafyList(ops, before, after);
    assert forall i | 0 <= i < |ops| :: Leafy(ops[i], before, after);
    PatchReaches(mode, skipped, ops, after);
    if ApplyAll(mode, skipped, ops) == Some(after) {
      ReachedNumbers(mode, ops, before, skipped, after);
    }
    if AgreeOutside(ops, skipped, after) && NumbersReach(mode, ops, before, skipped, after) {
      NumbersReached(mode, ops, before, skipped, after);
    }
  }

  lemma NumberApart(ops: seq<Op>, before: Value, after: Value, p: Path)
    requires AllLeafy(ops, before, after) && IsNumber(At(before, p))
    ensures AllSameOrApart(ops, p)
  {
    forall i | 0 <= i < |ops| ensures SameOrApart(ops[i].path, p) {
      assert Leafy(ops[i], before, after);
      if ops[i].path != p {
        LeavesApart(before, ops[i].path, p);
      }
    }
  }

  lemma RecurFaithful(norm: Normalizer, cs: seq<Contract>, second: nat, phase: Phase, before: World, after: World)
    requires AllRecur(norm, cs, second, phase, before, after)
    ensures AllFaithful(norm, cs, second, phase, before, after)
  {
    forall i | 0 <= i < |cs| ensures Faithful(norm, cs[i], second, phase, before, after) {
      assert Recurs(norm, cs[i], second, phase, before, after);
    }
  }

  lemma RecurMeasure(norm: Normalizer, cs: seq<Contract>, second: nat, phase: Phase, before: World, after: World)
    requires norm(0.0) == 0.0 && AllRecur(norm, cs, second, phase, before, after)
    requires forall i | 0 <= i < |cs| :: cs[i].pattern != []
    ensures AllMeasure(WindowOps(cs, second, phase), View(before), View(after))
  {
    forall i | 0 <= i < |cs| ensures AllMeasure(cs[i].At(second).Of(phase).transition.ops, View(before), View(after)) {
      RecursMeasures(norm, cs[i], second, phase, before, after);
    }
    assert cs[..|cs|] == cs;
    WindowMeasures(cs, |cs|, second, phase, View(before), View(after));
  }

  lemma RecurFold(norm: Normalizer, mode: Mode, cs: seq<Contract>, second: nat, phase: Phase, before: World, after: World, p: Path,
                  d: real)
    requires norm(0.0) == 0.0 && AllRecur(norm, cs, second, phase, before, after)
    requires forall i | 0 <= i < |cs| :: cs[i].pattern != []
    requires NumberChanges(p, View(before), View(after)) && d == At(View(after), p).value.n - At(View(before), p).value.n
    ensures AllFold(mode, cs, second, phase, p, d)
  {
    forall i | 0 <= i < |cs|
      ensures FoldsAs(mode, cs[i].At(second).Of(phase).transition.ops, p, InScope(p, cs[i].scope, phase), d)
    {
      RecursFolds(norm, mode, cs[i], second, phase, before, after, p, d);
    }
  }

  lemma NumberSettled(norm: Normalizer, mode: Mode, cs: seq<Contract>, second: nat, phase: Phase,
                      before: World, skipped: World, after: World, p: Path)
    requires norm(0.0) == 0.0 && AllRecur(norm, cs, second, phase, before, after)
    requires forall i | 0 <= i < |cs| :: cs[i].pattern != []
    requires NumberChanges(p, View(before), View(after))
    ensures NumberReached(mode, WindowOps(cs, second, phase), p, View(skipped), View(after)) <==>
            Settles(mode, cs, second, phase, p, View(before), View(skipped), View(after))
  {
    var d := At(View(after), p).value.n - At(View(before), p).value.n;
    RecurFold(norm, mode, cs, second, phase, before, after, p, d);
    NumberSettles(mode, cs, second, phase, p, View(before), View(skipped), View(after), d);
  }

  lemma SettledIffReached(norm: Normalizer, mode: Mode, cs: seq<Contract>, second: nat, phase: Phase,
                          before: World, skipped: World, after: World)
    requires norm(0.0) == 0.0 && AllRecur(norm, cs, second, phase, before, after)
    requires forall i | 0 <= i < |cs| :: cs[i].pattern != []
    ensures NumbersReach(mode, WindowOps(cs, second, phase), View(before), View(skipped), View(after)) <==>
            AllSettle(mode, cs, second, phase, View(before), View(skipped), View(after))
  {
    forall p | NumberChanges(p, View(before), View(after))
      ensures NumberReached(mode, WindowOps(cs, second, phase), p, View(skipped), View(after)) <==>
              Settles(mode, cs, second, phase, p, View(before), View(skipped), View(after))
    {
      NumberSettled(norm, mode, cs, second, phase, before, skipped, after, p);
    }
  }

  lemma ViewCountsNumbers(norm: Normalizer, mode: Mode, cs: seq<Contract>, second: nat, phase: Phase,
                          before: World, skipped: World, after: World)
    requires norm(0.0) == 0.0 && AllRecur(norm, cs, second, phase, before, after)
    ensures forall i | 0 <= i < |cs| :: cs[i].pattern != []
    ensures ApplyAll(mode, View(skipped), WindowOps(cs, second, phase)) == Some(View(after)) <==>
            && AgreeOutside(WindowOps(cs, second, phase), View(skipped), View(after))
            && AllSettle(mode, cs, second, phase, View(before), View(skipped), View(after))
  {
    RecurFaithful(norm, cs, second, phase, before, after);
    FaithfulWindow(norm, cs, second, phase, before, after);
    RecurMeasure(norm, cs, second, phase, before, after);
    MeasuredReaches(mode, WindowOps(cs, second, phase), View(before), View(skipped), View(after));
    SettledIffReached(norm, mode, cs, second, phase, before, skipped, after);
  }

  /** The skipped state is right for replay, said number by number. */
  ghost predicate WindowCounts(mode: Mode, cs: seq<Contract>, second: nat, phase: Phase,
                               before: World, skipped: World, after: World)
    requires forall i | 0 <= i < |cs| :: cs[i].pattern != []
  {
    && AgreeOutside(WindowOps(cs, second, phase), View(skipped), View(after))
    && AllSettle(mode, cs, second, phase, View(before), View(skipped), View(after))
    && TotalsAfter(skipped.totals, cs, second, phase) == after.totals && skipped.rest == after.rest
  }

  /**
   * The exact condition for recorded amounts that recur, for any engine, with and without rounding: the replayed window
   * is the real one if and only if the skipped state agrees with it apart from the recorded leaves, and every number that
   * changes is taken from the value that skipping left to its real value by its change, counted once per contract that
   * covers it and rounded to that contract's digits each time.
   */
  lemma ReplayCountsNumbers(norm: Normalizer, mode: Mode, cs: seq<Contract>, second: nat, phase: Phase,
                            before: World, skipped: World, after: World)
    requires norm(0.0) == 0.0 && AllRecur(norm, cs, second, phase, before, after)
    ensures forall i | 0 <= i < |cs| :: cs[i].pattern != []
    ensures ReplayWindow(mode, cs, second, phase, skipped) == Some(after) <==>
            WindowCounts(mode, cs, second, phase, before, skipped, after)
  {
    ViewCountsNumbers(norm, mode, cs, second, phase, before, skipped, after);
    WindowParts(mode, cs, second, phase, skipped, after);
  }

  // ----- without rounding -----

  /** Without rounding, the change is added once per covering contract. */
  lemma {:induction false} CountedExact(cs: seq<Contract>, second: nat, phase: Phase, p: Path, s: real, d: real)
    requires forall i | 0 <= i < |cs| :: cs[i].pattern != []
    ensures Counted(Exact, cs, second, phase, p, s, d) == s + Times(Covering(cs, phase, p), d)
    decreases |cs|
  {
    if cs != [] {
      CountedExact(cs[..|cs| - 1], second, phase, p, s, d);
    }
  }

  /** What skipping left of a changed number, plus its change once per covering contract, is its real value. */
  ghost predicate Balances(count: nat, p: Path, before: Value, skipped: Value, after: Value)
    requires NumberChanges(p, before, after)
  {
    && IsNumber(At(skipped, p))
    && var x, y := At(before, p).value.n, At(after, p).value.n;
       At(skipped, p).value.n + Times(count, y - x) == y
  }

  ghost predicate AllBalance(cs: seq<Contract>, phase: Phase, before: Value, skipped: Value, after: Value) {
    forall p | NumberChanges(p, before, after) :: Balances(Covering(cs, phase, p), p, before, skipped, after)
  }

  lemma BalanceIffSettles(cs: seq<Contract>, second: nat, phase: Phase, p: Path, before: Value, skipped: Value, after: Value)
    requires NumberChanges(p, before, after) && forall i | 0 <= i < |cs| :: cs[i].pattern != []
    ensures Settles(Exact, cs, second, phase, p, before, skipped, after) <==>
            Balances(Covering(cs, phase, p), p, before, skipped, after)
  {
    if IsNumber(At(skipped, p)) {
      CountedExact(cs, second, phase, p, At(skipped, p).value.n, At(after, p).value.n - At(before, p).value.n);
    }
  }

  /**
   * In exact arithmetic the second part says: the value that skipping left plus the change, counted once per contract
   * that covers it, is the real value.
   */
  lemma ReplayCountsChanges(norm: Normalizer, cs: seq<Contract>, second: nat, phase: Phase,
                            before: World, skipped: World, after: World)
    requires norm(0.0) == 0.0 && AllRecur(norm, cs, second, phase, before, after)
    ensures forall i | 0 <= i < |cs| :: cs[i].pattern != []
    ensures ApplyAll(Exact, View(skipped), WindowOps(cs, second, phase)) == Some(View(after)) <==>
            && AgreeOutside(WindowOps(cs, second, phase), View(skipped), View(after))
            && AllBalance(cs, phase, View(before), View(skipped), View(after))
  {
    ViewCountsNumbers(norm, Exact, cs, second, phase, before, skipped, after);
    forall p | NumberChanges(p, View(before), View(after))
      ensures Settles(Exact, cs, second, phase, p, View(before), View(skipped), View(after)) <==>
              Balances(Covering(cs, phase, p), p, View(before), View(skipped), View(after))
    {
      BalanceIffSettles(cs, second, phase, p, View(before), View(skipped), View(after));
    }
  }

  // ----- rounding to a grid that holds the numbers -----

  /** A number and its change lie on the grids that the covering contracts recorded. */
  ghost predicate OnCoveringGrids(cs: seq<Contract>, second: nat, phase: Phase, p: Path, s: real, d: real)
    requires forall i | 0 <= i < |cs| :: cs[i].pattern != []
  {
    forall i | 0 <= i < |cs| && InScope(p, cs[i].scope, phase) ::
      var digits := DigitsAt(cs[i].At(second).Of(phase).transition.ops, p);
      OnDecimals(s, digits) && OnDecimals(d, digits)
  }

  lemma {:induction false} TimesOnDecimals(count: nat, s: real, d: real, digits: nat)
    requires OnDecimals(s, digits) && OnDecimals(d, digits)
    ensures OnDecimals(s + Times(count, d), digits)
  {
    if count > 0 {
      TimesOnDecimals(count - 1, s, d, digits);
      SumOnDecimals(s + Times(count - 1, d), d, digits);
    }
  }

  /** There rounding changes nothing. */
  lemma {:induction false} CountedOnGrid(cs: seq<Contract>, second: nat, phase: Phase, p: Path, s: real, d: real)
    requires forall i | 0 <= i < |cs| :: cs[i].pattern != []
    requires OnCoveringGrids(cs, second, phase, p, s, d)
    ensures Counted(Rounded, cs, second, phase, p, s, d) == Counted(Exact, cs, second, phase, p, s, d)
    decreases |cs|
  {
    if cs != [] {
      var rest, last := cs[..|cs| - 1], cs[|cs| - 1];
      assert forall i | 0 <= i < |rest| :: rest[i] == cs[i];
      CountedOnGrid(rest, second, phase, p, s, d);
      if InScope(p, last.scope, phase) {
        var digits := DigitsAt(last.At(second).Of(phase).transition.ops, p);
        assert cs[|cs| - 1] == last && OnDecimals(s, digits);
        CountedExact(rest, second, phase, p, s, d);
        TimesOnDecimals(Covering(rest, phase, p), s, d, digits);
        SumOnDecimals(s + Times(Covering(rest, phase, p), d), d, digits);
      }
    }
  }

  // ----- two ways to miss -----

  /** If rounding is on, the numbers at a leaf lie on the recorded grids, so that no difference can be rounded away. */
  ghost predicate GridHolds(mode: Mode, cs: seq<Contract>, second: nat, phase: Phase, p: Path,
                            before: Value, skipped: Value, after: Value)
    requires NumberChanges(p, before, after) && forall i | 0 <= i < |cs| :: cs[i].pattern != []
  {
    mode.Rounded? && IsNumber(At(skipped, p)) ==>
      OnCoveringGrids(cs, second, phase, p, At(skipped, p).value.n, At(after, p).value.n - At(before, p).value.n)
  }

  lemma SettledBalances(mode: Mode, cs: seq<Contract>, second: nat, phase: Phase, p: Path, before: Value, skipped: Value, after: Value)
    requires NumberChanges(p, before, after) && forall i | 0 <= i < |cs| :: cs[i].pattern != []
    requires GridHolds(mode, cs, second, phase, p, before, skipped, after)
    requires Settles(mode, cs, second, phase, p, before, skipped, after)
    ensures Balances(Covering(cs, phase, p), p, before, skipped, after)
  {
    BalanceIffSettles(cs, second, phase, p, before, skipped, after);
    if mode.Rounded? {
      CountedOnGrid(cs, second, phase, p, At(skipped, p).value.n, At(after, p).value.n - At(before, p).value.n);
    }
  }

  /** Where a number balances, skipping left it as it was exactly if one contract covers it. */
  lemma BalanceOfStill(count: nat, p: Path, before: Value, skipped: Value, after: Value)
    requires NumberChanges(p, before, after) && Balances(count, p, before, skipped, after)
    ensures At(skipped, p) == At(before, p) <==> count == 1
  {
    StillIffOnce(count, At(before, p).value.n, At(skipped, p).value.n, At(after, p).value.n);
  }

  lemma StillIffOnce(count: nat, x: real, s: real, y: real)
    requires x != y && s + Times(count, y - x) == y
    ensures s == x <==> count == 1
  {
    OnlyOnce(count, y - x);
  }

  lemma MissedNumber(norm: Normalizer, mode: Mode, cs: seq<Contract>, second: nat, phase: Phase,
                     before: World, skipped: World, after: World, p: Path)
    requires norm(0.0) == 0.0 && AllRecur(norm, cs, second, phase, before, after)
    requires NumberChanges(p, View(before), View(after)) && forall i | 0 <= i < |cs| :: cs[i].pattern != []
    requires GridHolds(mode, cs, second, phase, p, View(before), View(skipped), View(after))
    requires At(View(skipped), p) == At(View(before), p) <==> Covering(cs, phase, p) != 1
    ensures ApplyAll(mode, View(skipped), WindowOps(cs, second, phase)) != Some(View(after))
    ensures ReplayWindow(mode, cs, second, phase, skipped) != Some(after)
  {
    ViewCountsNumbers(norm, mode, cs, second, phase, before, skipped, after);
    WindowParts(mode, cs, second, phase, skipped, after);
    if AllSettle(mode, cs, second, phase, View(before), View(skipped), View(after)) {
      assert Settles(mode, cs, second, phase, p, View(before), View(skipped), View(after));
      SettledBalances(mode, cs, second, phase, p, View(before), View(skipped), View(after));
      BalanceOfStill(Covering(cs, phase, p), p, View(before), View(skipped), View(after));
    }
  }

  /**
   * Something that was not skipped moves a number one contract covers: then replay is wrong, although nothing is
   * shared and no contract wakes.
   */
  lemma MovedNumberMisses(norm: Normalizer, mode: Mode, cs: seq<Contract>, second: nat, phase: Phase,
                          before: World, skipped: World, after: World, p: Path)
    requires norm(0.0) == 0.0 && AllRecur(norm, cs, second, phase, before, after)
    requires NumberChanges(p, View(before), View(after)) && forall i | 0 <= i < |cs| :: cs[i].pattern != []
    requires GridHolds(mode, cs, second, phase, p, View(before), View(skipped), View(after))
    requires Covering(cs, phase, p) == 1 && At(View(skipped), p) != At(View(before), p)
    ensures ApplyAll(mode, View(skipped), WindowOps(cs, second, phase)) != Some(View(after))
    ensures ReplayWindow(mode, cs, second, phase, skipped) != Some(after)
  {
    MissedNumber(norm, mode, cs, second, phase, before, skipped, after, p);
  }

  /** Where skipping left a number as it was, replay is wrong as soon as two contracts cover it. */
  lemma SharedNumberMisses(norm: Normalizer, mode: Mode, cs: seq<Contract>, second: nat, phase: Phase,
                           before: World, skipped: World, after: World, p: Path)
    requires norm(0.0) == 0.0 && AllRecur(norm, cs, second, phase, before, after)
    requires NumberChanges(p, View(before), View(after)) && forall i | 0 <= i < |cs| :: cs[i].pattern != []
    requires GridHolds(mode, cs, second, phase, p, View(before), View(skipped), View(after))
    requires Covering(cs, phase, p) >= 2 && At(View(skipped), p) == At(View(before), p)
    ensures ApplyAll(mode, View(skipped), WindowOps(cs, second, phase)) != Some(View(after))
    ensures ReplayWindow(mode, cs, second, phase, skipped) != Some(after)
  {
    MissedNumber(norm, mode, cs, second, phase, before, skipped, after, p);
  }

  // ----- the corollary for an engine that keeps skipped parts still -----

  /** The identifiers and fields one part of a snapshot covers. */
  function PartIds(scope: Scope, phase: Phase, entities: bool): set<string> {
    if entities then scope.Entities(phase) else scope.Belts(phase)
  }

  function PartOf(w: World, entities: bool): map<string, Value> {
    if entities then w.entities else w.belts
  }

  function PartName(entities: bool): string {
    if entities then "entities" else "belts"
  }

  lemma ViewAt(w: World, entities: bool, id: string, q: Path)
    requires id in PartOf(w, entities)
    ensures At(View(w), [Key(PartName(entities))] + ([Key(id)] + q)) == At(PartOf(w, entities)[id], q)
  {
    var p := [Key(PartName(entities))] + ([Key(id)] + q);
    assert p[1..] == [Key(id)] + q && p[1..][1..] == q;
    assert Child(View(w), p[0]) == Obj(PartOf(w, entities));
  }

  lemma PathInScope(scope: Scope, phase: Phase, entities: bool, id: string, q: Path)
    requires id in PartIds(scope, phase, entities)
    ensures InScope([Key(PartName(entities))] + ([Key(id)] + q), scope, phase)
  {
  }

  lemma {:induction false} CoveringOnce(cs: seq<Contract>, phase: Phase, p: Path, i: nat)
    requires i < |cs| && InScope(p, cs[i].scope, phase)
    ensures Covering(cs, phase, p) >= 1
    decreases |cs|
  {
    if i < |cs| - 1 {
      CoveringOnce(cs[..|cs| - 1], phase, p, i);
    }
  }

  lemma {:induction false} CoveringTwice(cs: seq<Contract>, phase: Phase, p: Path, i: nat, j: nat)
    requires i < j < |cs| && InScope(p, cs[i].scope, phase) && InScope(p, cs[j].scope, phase)
    ensures Covering(cs, phase, p) >= 2
    decreases |cs|
  {
    if j < |cs| - 1 {
      CoveringTwice(cs[..|cs| - 1], phase, p, i, j);
    } else {
      CoveringOnce(cs[..|cs| - 1], phase, p, i);
    }
  }

  /** A field that is not calm holds a number that changes. */
  lemma ChangedIn(norm: Normalizer, x: Value, y: Value) returns (q: Path)
    requires norm(0.0) == 0.0 && !NumbersKept(x, y)
    ensures NumberChanges(q, x, y)
  {
    AddsIffNumbersChange(norm, x, y);
    var ops := Diff(norm, x, y).ops;
    var k :| 0 <= k < |ops| && !ops[k].Set?;
    DiffRecords(norm, x, y);
    assert Genuine(norm, ops[k], x, y);
    q := ops[k].path;
  }

  lemma SkippedPart(norm: Normalizer, cs: seq<Contract>, i: nat, phase: Phase, before: World, skipped: World, after: World,
                    entities: bool, id: string)
    requires Skips(norm, cs, phase, before, skipped, after) && i < |cs| && id in PartIds(cs[i].scope, phase, entities)
    requires id in PartOf(before, entities)
    ensures id in PartOf(skipped, entities) && PartOf(skipped, entities)[id] == PartOf(before, entities)[id]
  {
    if entities {
      assert CoversEntity(cs, phase, id);
      assert SkipField(true, before.entities, skipped.entities, after.entities, id);
    } else {
      assert CoversBelt(cs, phase, id);
      assert SkipField(true, before.belts, skipped.belts, after.belts, id);
    }
  }

  lemma TangledAt(s: Scope, t: Scope, phase: Phase, before: World, after: World) returns (entities: bool, id: string)
    requires !UntangledPair(s, t, phase, before, after)
    ensures id in PartIds(s, phase, entities) && id in PartIds(t, phase, entities)
    ensures !CalmField(PartOf(before, entities), PartOf(after, entities), id)
  {
    entities := !(forall id | id in s.Entities(phase) && id in t.Entities(phase) :: CalmField(before.entities, after.entities, id));
    if entities {
      id :| id in s.Entities(phase) && id in t.Entities(phase) && !CalmField(before.entities, after.entities, id);
    } else {
      id :| id in s.Belts(phase) && id in t.Belts(phase) && !CalmField(before.belts, after.belts, id);
    }
  }

  lemma TangledMisses(norm: Normalizer, cs: seq<Contract>, second: nat, phase: Phase,
                      before: World, skipped: World, after: World, i: nat, j: nat)
    requires norm(0.0) == 0.0 && AllRecur(norm, cs, second, phase, before, after)
    requires Skips(norm, cs, phase, before, skipped, after)
    requires i < j < |cs| && !UntangledPair(cs[i].scope, cs[j].scope, phase, before, after)
    ensures forall k | 0 <= k < |cs| :: cs[k].pattern != []
    ensures ApplyAll(Exact, View(skipped), WindowOps(cs, second, phase)) != Some(View(after))
  {
    var entities, id := TangledAt(cs[i].scope, cs[j].scope, phase, before, after);
    var q := ChangedIn(norm, PartOf(before, entities)[id], PartOf(after, entities)[id]);
    var p := [Key(PartName(entities))] + ([Key(id)] + q);
    SkippedPart(norm, cs, i, phase, before, skipped, after, entities, id);
    ViewAt(before, entities, id, q);
    ViewAt(skipped, entities, id, q);
    ViewAt(after, entities, id, q);
    PathInScope(cs[i].scope, phase, entities, id, q);
    PathInScope(cs[j].scope, phase, entities, id, q);
    CoveringTwice(cs, phase, p, i, j);
    RecursAdvance(norm, cs, second, phase, before, after);
    SharedNumberMisses(norm, Exact, cs, second, phase, before, skipped, after, p);
  }

  /**
   * If skipping keeps everything the contracts cover as it was, exact replay is right precisely when no number changes
   * in anything that two contracts share.
   */
  lemma ReplayExactIffUntangled(norm: Normalizer, cs: seq<Contract>, second: nat, phase: Phase,
                                before: World, skipped: World, after: World)
    requires norm(0.0) == 0.0 && AllRecur(norm, cs, second, phase, before, after)
    requires Skips(norm, cs, phase, before, skipped, after)
    ensures forall i | 0 <= i < |cs| :: cs[i].pattern != []
    ensures ApplyAll(Exact, View(skipped), WindowOps(cs, second, phase)) == Some(View(after)) <==>
            Untangled(cs, phase, before, after)
  {
    RecursAdvance(norm, cs, second, phase, before, after);
    if Untangled(cs, phase, before, after) {
      ExactWindow(norm, cs, second, phase, before, skipped, after);
    } else {
      var i, j :| 0 <= i < j < |cs| && !UntangledPair(cs[i].scope, cs[j].scope, phase, before, after);
      TangledMisses(norm, cs, second, phase, before, skipped, after, i, j);
    }
  }
}
