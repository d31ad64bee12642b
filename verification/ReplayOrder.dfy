/** The order of contracts does not matter, and the recorded grid does. */
module ReplayOrder {
  import opened Wrappers
  import opened Json
  import opened Patch
  import opened Decimal
  import opened StateDiff
  import opened DiffLaws
  import opened Windows
  import opened Contracts
  import opened ReplayWindowLaws

  predicate StaysInScope(ops: seq<Op>, scope: Scope, phase: Phase) {
    PrefixFree(ops) && forall i | 0 <= i < |ops| :: InScope(ops[i].path, scope, phase)
  }

  predicate Apart(s: Scope, t: Scope, phase: Phase) {
    s.Entities(phase) !! t.Entities(phase) && s.Belts(phase) !! t.Belts(phase)
  }

  /** What a collector records for a component stays inside it. */
  lemma RecordedStaysInScope(norm: Normalizer, before: World, after: World, scope: Scope, phase: Phase)
    requires norm(0.0) == 0.0
    ensures StaysInScope(ObservedPhase(norm, before, after, scope, phase).transition.ops, scope, phase)
  {
    var x, y := SnapshotComponent(before, scope, phase), SnapshotComponent(after, scope, phase);
    DiffPrefixFree(norm, x, y);
    SnapshotOwnOps(norm, before, after, scope, phase);
    var ops := Diff(norm, x, y).ops;
    forall i | 0 <= i < |ops| ensures InScope(ops[i].path, scope, phase) {
      assert OwnOp(ops[i], scope, phase, before, after);
    }
  }

  // ----- taking one contract out of the list -----

  function RemoveAt<T>(s: seq<T>, k: nat): seq<T>
    requires k < |s|
  {
    s[..k] + s[k + 1..]
  }

  lemma RemoveInner<T>(s: seq<T>, k: nat)
    requires k < |s| - 1
    ensures RemoveAt(s, k) == RemoveAt(s[..|s| - 1], k) + [s[|s| - 1]]
  {
  }

  lemma RemoveBag<T>(s: seq<T>, k: nat)
    requires k < |s|
    ensures multiset(RemoveAt(s, k)) == multiset(s) - multiset{s[k]}
    ensures forall x | x in RemoveAt(s, k) :: x in s
  {
    assert s == s[..k] + [s[k]] + s[k + 1..];
  }

  predicate AllPatterned(cs: seq<Contract>) {
    forall i | 0 <= i < |cs| :: cs[i].pattern != []
  }

  function OpsOf(c: Contract, second: nat, phase: Phase): seq<Op>
    requires c.pattern != []
  {
    c.At(second).Of(phase).transition.ops
  }

  lemma RemovePatterned(cs: seq<Contract>, k: nat)
    requires AllPatterned(cs) && k < |cs|
    ensures AllPatterned(RemoveAt(cs, k))
  {
    var r := RemoveAt(cs, k);
    forall i | 0 <= i < |r| ensures r[i].pattern != [] {
      assert r[i] == cs[if i < k then i else i + 1];
    }
  }

  lemma {:induction false} WindowOpsRemove(cs: seq<Contract>, k: nat, second: nat, phase: Phase)
    requires AllPatterned(cs) && k < |cs| && AllPatterned(RemoveAt(cs, k))
    ensures multiset(WindowOps(cs, second, phase)) ==
            multiset(WindowOps(RemoveAt(cs, k), second, phase)) + multiset(OpsOf(cs[k], second, phase))
    decreases |cs|
  {
    var rest, last := cs[..|cs| - 1], cs[|cs| - 1];
    if k == |cs| - 1 {
      assert RemoveAt(cs, k) == rest;
    } else {
      RemoveInner(cs, k);
      var r := RemoveAt(cs, k);
      assert r[..|r| - 1] == RemoveAt(rest, k) && r[|r| - 1] == last;
      RemovePatterned(rest, k);
      WindowOpsRemove(rest, k, second, phase);
    }
  }

  lemma CreditSwap(totals: map<string, int>, p: map<string, int>, q: map<string, int>)
    ensures Credit(Credit(totals, p), q) == Credit(Credit(totals, q), p)
  {
  }

  lemma {:induction false} CreditRemove(totals: map<string, int>, cs: seq<Contract>, k: nat, second: nat)
    requires AllPatterned(cs) && k < |cs| && AllPatterned(RemoveAt(cs, k))
    ensures CreditAll(totals, cs, second) ==
            Credit(CreditAll(totals, RemoveAt(cs, k), second), cs[k].At(second).production.produced)
    decreases |cs|
  {
    var rest, last := cs[..|cs| - 1], cs[|cs| - 1];
    if k == |cs| - 1 {
      assert RemoveAt(cs, k) == rest;
    } else {
      RemoveInner(cs, k);
      var r := RemoveAt(cs, k);
      assert r[..|r| - 1] == RemoveAt(rest, k) && r[|r| - 1] == last;
      RemovePatterned(rest, k);
      CreditRemove(totals, rest, k, second);
      CreditSwap(CreditAll(totals, RemoveAt(rest, k), second), cs[k].At(second).production.produced,
                 last.At(second).production.produced);
    }
  }

  lemma FindLast<T>(s: seq<T>, t: seq<T>) returns (k: nat)
    requires multiset(s) == multiset(t) && t != []
    ensures k < |s| && s[k] == t[|t| - 1]
    ensures multiset(RemoveAt(s, k)) == multiset(t[..|t| - 1])
  {
    assert t == t[..|t| - 1] + [t[|t| - 1]];
    assert t[|t| - 1] in multiset(s);
    k :| 0 <= k < |s| && s[k] == t[|t| - 1];
    RemoveBag(s, k);
  }

  lemma PatternedBag(cs: seq<Contract>, cs': seq<Contract>)
    requires AllPatterned(cs) && multiset(cs) == multiset(cs')
    ensures AllPatterned(cs')
  {
    forall i | 0 <= i < |cs'| ensures cs'[i].pattern != [] {
      assert cs'[i] in multiset(cs);
    }
  }

  lemma {:induction false} WindowBag(cs: seq<Contract>, cs': seq<Contract>, second: nat, phase: Phase)
    requires AllPatterned(cs) && AllPatterned(cs') && multiset(cs) == multiset(cs')
    ensures multiset(WindowOps(cs, second, phase)) == multiset(WindowOps(cs', second, phase))
    decreases |cs'|
  {
    if cs' == [] {
      assert |multiset(cs)| == 0;
    } else {
      var k := FindLast(cs, cs');
      RemovePatterned(cs, k);
      WindowOpsRemove(cs, k, second, phase);
      WindowBag(RemoveAt(cs, k), cs'[..|cs'| - 1], second, phase);
    }
  }

  lemma {:induction false} CreditBag(cs: seq<Contract>, cs': seq<Contract>, totals: map<string, int>, second: nat)
    requires AllPatterned(cs) && AllPatterned(cs') && multiset(cs) == multiset(cs')
    ensures CreditAll(totals, cs, second) == CreditAll(totals, cs', second)
    decreases |cs'|
  {
    if cs' == [] {
      assert |multiset(cs)| == 0;
    } else {
      var k := FindLast(cs, cs');
      RemovePatterned(cs, k);
      CreditRemove(totals, cs, k, second);
      CreditBag(RemoveAt(cs, k), cs'[..|cs'| - 1], totals, second);
    }
  }

  // ----- one window in any order -----

  lemma ApartPaths(p: Path, q: Path, s: Scope, t: Scope, phase: Phase)
    requires InScope(p, s, phase) && InScope(q, t, phase) && Apart(s, t, phase)
    ensures Incomparable(p, q)
  {
    if p[0] == q[0] {
      assert p[1] != q[1];
    }
  }

  ghost predicate InSome(p: Path, cs: seq<Contract>, n: nat, phase: Phase)
    requires n <= |cs|
  {
    exists k | 0 <= k < n :: InScope(p, cs[k].scope, phase)
  }

  lemma {:induction false} WindowPrefixFree(cs: seq<Contract>, n: nat, second: nat, phase: Phase)
    requires AllPatterned(cs) && n <= |cs|
    requires forall i | 0 <= i < |cs| :: StaysInScope(OpsOf(cs[i], second, phase), cs[i].scope, phase)
    requires forall i, j | 0 <= i < j < |cs| :: Apart(cs[i].scope, cs[j].scope, phase)
    ensures PrefixFree(WindowOps(cs[..n], second, phase))
    ensures forall i | 0 <= i < |WindowOps(cs[..n], second, phase)| ::
              InSome(WindowOps(cs[..n], second, phase)[i].path, cs, n, phase)
  {
    if n > 0 {
      WindowPrefixFree(cs, n - 1, second, phase);
      WindowOpsStep(cs, n - 1, second, phase);
      var a, b := WindowOps(cs[..n - 1], second, phase), OpsOf(cs[n - 1], second, phase);
      assert StaysInScope(b, cs[n - 1].scope, phase);
      forall i, j | 0 <= i < |a| && 0 <= j < |b| ensures Incomparable(a[i].path, b[j].path) {
        assert InSome(a[i].path, cs, n - 1, phase);
        var k :| 0 <= k < n - 1 && InScope(a[i].path, cs[k].scope, phase);
        ApartPaths(a[i].path, b[j].path, cs[k].scope, cs[n - 1].scope, phase);
      }
      PrefixFreeConcat(a, b);
      forall i | 0 <= i < |a + b| ensures InSome((a + b)[i].path, cs, n, phase) {
        if i < |a| {
          assert InSome(a[i].path, cs, n - 1, phase);
        } else {
          assert InScope(b[i - |a|].path, cs[n - 1].scope, phase);
        }
      }
    }
  }

  /** Contracts with disjoint footprints can be replayed in any order. */
  lemma ReplayOrderIrrelevant(mode: Mode, cs: seq<Contract>, cs': seq<Contract>, second: nat, phase: Phase, skipped: World)
    requires AllPatterned(cs) && multiset(cs) == multiset(cs')
    requires forall i | 0 <= i < |cs| :: StaysInScope(OpsOf(cs[i], second, phase), cs[i].scope, phase)
    requires forall i, j | 0 <= i < j < |cs| :: Apart(cs[i].scope, cs[j].scope, phase)
    ensures AllPatterned(cs')
    ensures ReplayWindow(mode, cs, second, phase, skipped) == ReplayWindow(mode, cs', second, phase, skipped)
  {
    PatternedBag(cs, cs');
    WindowBag(cs, cs', second, phase);
    CreditBag(cs, cs', skipped.totals, second);
    assert cs[..|cs|] == cs;
    WindowPrefixFree(cs, |cs|, second, phase);
    OrderIrrelevant(mode, View(skipped), WindowOps(cs, second, phase), WindowOps(cs', second, phase));
  }

  // ----- the recorded grid -----

  lemma HalvesNeedOneDigit()
    ensures DecimalDigits(0.5) == 1 && DecimalDigits(1.5) == 1
  {
    assert Pow10(1) == 10;
    assert Round(5.0) == 5 && Round(15.0) == 15;
    LeastFitUnique(0.5, 1);
    LeastFitUnique(1.5, 1);
  }

  lemma NumberDiff(norm: Normalizer, x: real, y: real)
    requires x != y
    ensures Diff(norm, Num(x), Num(y)) ==
            Transition([Add([], y - x, MaxNat(DecimalDigits(x), DecimalDigits(y)))], [Delta([], norm(y - x))], false)
  {
  }

  lemma RoundedAdd(x: real, delta: real, digits: nat)
    ensures ApplyAll(Rounded, Num(x), [Add([], delta, digits)]) == Some(Num(RoundToDigits(x + delta, digits)))
  {
    var op := Add([], delta, digits);
    assert [op][1..] == [];
    assert Apply(Rounded, Num(x), op) == Some(Num(RoundToDigits(x + delta, digits)));
  }

  lemma RoundsUp()
    ensures RoundToDigits(1.25, 1) == 1.3
  {
    assert Pow10(1) == 10 && Round(12.5) == 13;
  }

  /**
   * A signature does not show the digits: a step from 0.25 to 1.25 has the signature of one from 0.5 to 1.5, but
   * replaying the recorded operation rounds the result to 1.3.
   */
  lemma CoarseGridMisses(norm: Normalizer)
    ensures var recorded := Diff(norm, Arr([Num(0.5)]), Arr([Num(1.5)]));
            var actual := Diff(norm, Arr([Num(0.25)]), Arr([Num(1.25)]));
            && SameSignature(recorded, actual)
            && ApplyAll(Rounded, Arr([Num(0.25)]), recorded.ops) == Some(Arr([Num(1.3)]))
  {
    HalvesNeedOneDigit();
    NumberDiff(norm, 0.5, 1.5);
    NumberDiff(norm, 0.25, 1.25);
    OneItem(norm, Num(0.5), Num(1.5));
    OneItem(norm, Num(0.25), Num(1.25));
    RoundedAdd(0.25, 1.0, 1);
    RoundsUp();
    RoundedItem(Num(0.25), Diff(norm, Num(0.5), Num(1.5)).ops, Num(1.3));
  }

  lemma RoundedItem(x: Value, ops: seq<Op>, y: Value)
    requires ApplyAll(Rounded, x, ops) == Some(y)
    ensures ApplyAll(Rounded, Arr([x]), Under([Index(0)], ops)) == Some(Arr([y]))
  {
    ApplyUnder(Rounded, Arr([x]), Index(0), ops);
    assert [x][0 := y] == [y];
  }

  lemma OneItem(norm: Normalizer, x: Value, y: Value)
    ensures Diff(norm, Arr([x]), Arr([y])) == Below([Index(0)], Diff(norm, x, y))
  {
    var a, b := Arr([x]), Arr([y]);
    assert DiffItems(norm, a, b, 1) == Join(DiffItems(norm, a, b, 0), Below([Index(0)], Diff(norm, x, y)));
    assert Join(SAME, Below([Index(0)], Diff(norm, x, y))) == Below([Index(0)], Diff(norm, x, y));
  }
}
