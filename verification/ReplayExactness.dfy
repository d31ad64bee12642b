/** When the replay of a window is right, for any engine and any number normalisation. */
module ReplayExactness {
  import opened Wrappers
  import opened Json
  import opened Patch
  import opened StateDiff
  import opened DiffLaws
  import opened Windows
  import opened Contracts
  import opened ReplayWindowLaws
  import opened LeafLaws

  // ----- recorded operations address leaves of the whole state -----

  /** The operation addresses a leaf of the earlier view that is still there in the later one. */
  predicate Leafy(op: Op, before: Value, after: Value) {
    IsLeaf(At(before, op.path)) && Present(after, op.path)
  }

  predicate AllLeafy(ops: seq<Op>, before: Value, after: Value) {
    forall i | 0 <= i < |ops| :: Leafy(ops[i], before, after)
  }

  lemma LeafyList(ops: seq<Op>, before: Value, after: Value)
    requires AllLeafy(ops, before, after)
    ensures LeafList(ops)
  {
    forall i, j | 0 <= i < j < |ops| ensures SameOrApart(ops[i].path, ops[j].path) {
      assert Leafy(ops[i], before, after) && Leafy(ops[j], before, after);
      if ops[i].path != ops[j].path {
        LeavesApart(before, ops[i].path, ops[j].path);
      }
    }
  }

  /** A leaf of a snapshot lies below an entity or a belt. */
  lemma LeafDepth(w: World, scope: Scope, phase: Phase, p: Path)
    requires Present(SnapshotComponent(w, scope, phase), p) && IsLeaf(At(SnapshotComponent(w, scope, phase), p))
    ensures |p| >= 2
  {
    var s := SnapshotComponent(w, scope, phase);
    forall part | Present(s, [part]) ensures !IsLeaf(At(s, [part])) {
      assert [part][1..] == [];
    }
    assert forall q: Path | |q| == 1 :: q == [q[0]];
  }

  /** A field of a restricted map is the field of the whole map. */
  lemma SnapshotInView(w: World, scope: Scope, phase: Phase, p: Path)
    requires |p| >= 2 && Present(SnapshotComponent(w, scope, phase), p)
    ensures At(View(w), p) == At(SnapshotComponent(w, scope, phase), p) && Present(View(w), p)
  {
    var s, v := SnapshotComponent(w, scope, phase), View(w);
    assert p[1..][0] == p[1];
    assert Child(Child(s, p[0]), p[1]) == Child(Child(v, p[0]), p[1]);
  }

  lemma RecordsLeafy(op: Op, before: World, after: World, scope: Scope, phase: Phase)
    requires Records(op, SnapshotComponent(before, scope, phase), SnapshotComponent(after, scope, phase))
    ensures Leafy(op, View(before), View(after))
  {
    LeafDepth(before, scope, phase, op.path);
    SnapshotInView(before, scope, phase, op.path);
    SnapshotInView(after, scope, phase, op.path);
  }

  /** Equal signatures mean equal paths and kinds, whatever the normaliser. */
  lemma SignaturePaths(norm: Normalizer, s: Transition, t: Transition)
    requires Mirrors(norm, s) && Mirrors(norm, t) && SameSignature(s, t)
    ensures SamePaths(s.ops, t.ops) && forall i | 0 <= i < |s.ops| :: s.ops[i].Add? == t.ops[i].Add?
  {
    forall i | 0 <= i < |s.ops| ensures s.ops[i].path == t.ops[i].path && s.ops[i].Add? == t.ops[i].Add? {
      assert s.marks[i] == MarkOf(norm, s.ops[i]) && t.marks[i] == MarkOf(norm, t.ops[i]);
    }
  }

  lemma FaithfulLeafy(norm: Normalizer, c: Contract, second: nat, phase: Phase, before: World, after: World)
    requires Faithful(norm, c, second, phase, before, after)
    ensures AllLeafy(c.At(second).Of(phase).transition.ops, View(before), View(after))
  {
    var recorded := c.At(second).Of(phase).transition;
    var x, y := SnapshotComponent(before, c.scope, phase), SnapshotComponent(after, c.scope, phase);
    var own := Diff(norm, x, y);
    SignatureMirrors(norm, x, y);
    SignaturePaths(norm, recorded, own);
    DiffRecords(norm, x, y);
    forall i | 0 <= i < |recorded.ops| ensures Leafy(recorded.ops[i], View(before), View(after)) {
      assert Genuine(norm, own.ops[i], x, y);
      RecordsLeafy(own.ops[i], before, after, c.scope, phase);
    }
  }

  lemma {:induction false} WindowLeafy(cs: seq<Contract>, n: nat, second: nat, phase: Phase, before: Value, after: Value)
    requires n <= |cs| && forall i | 0 <= i < |cs| :: cs[i].pattern != []
    requires forall i | 0 <= i < n :: AllLeafy(cs[i].At(second).Of(phase).transition.ops, before, after)
    ensures AllLeafy(WindowOps(cs[..n], second, phase), before, after)
  {
    if n > 0 {
      WindowLeafy(cs, n - 1, second, phase, before, after);
      assert AllLeafy(cs[n - 1].At(second).Of(phase).transition.ops, before, after);
      WindowOpsStep(cs, n - 1, second, phase);
    }
  }

  lemma FaithfulWindow(norm: Normalizer, cs: seq<Contract>, second: nat, phase: Phase, before: World, after: World)
    requires AllFaithful(norm, cs, second, phase, before, after)
    ensures forall i | 0 <= i < |cs| :: cs[i].pattern != []
    ensures AllLeafy(WindowOps(cs, second, phase), View(before), View(after))
  {
    forall i | 0 <= i < |cs|
      ensures cs[i].pattern != [] && AllLeafy(cs[i].At(second).Of(phase).transition.ops, View(before), View(after))
    {
      assert Faithful(norm, cs[i], second, phase, before, after);
      FaithfulLeafy(norm, cs[i], second, phase, before, after);
    }
    assert cs[..|cs|] == cs;
    WindowLeafy(cs, |cs|, second, phase, View(before), View(after));
  }

  // ----- the exact condition -----

  /**
   * What the replay of a window needs of the state that the engine left with the contracted parts skipped: apart from
   * the recorded leaves it agrees with the real state, and each recorded leaf is taken to its real value by the
   * recorded operations of all contracts that address it, rounding included.
   */
  ghost predicate WindowRight(mode: Mode, cs: seq<Contract>, second: nat, phase: Phase, skipped: World, after: World)
    requires forall i | 0 <= i < |cs| :: cs[i].pattern != []
  {
    var ops := WindowOps(cs, second, phase);
    && AgreeOutside(ops, View(skipped), View(after)) && LeavesReach(mode, ops, View(skipped), View(after))
    && TotalsAfter(skipped.totals, cs, second, phase) == after.totals && skipped.rest == after.rest
  }

  /**
   * If no contract wakes, the replayed window is the real one if and only if the skipped state is right for it: for
   * any engine, any sharing between contracts, and any number normalisation.
   */
  lemma WindowReplayIff(norm: Normalizer, mode: Mode, cs: seq<Contract>, second: nat, phase: Phase,
                        before: World, skipped: World, after: World)
    requires AllFaithful(norm, cs, second, phase, before, after)
    ensures forall i | 0 <= i < |cs| :: cs[i].pattern != []
    ensures ReplayWindow(mode, cs, second, phase, skipped) == Some(after) <==>
            WindowRight(mode, cs, second, phase, skipped, after)
  {
    FaithfulWindow(norm, cs, second, phase, before, after);
    var ops := WindowOps(cs, second, phase);
    LeafyList(ops, View(before), View(after));
    assert forall i | 0 <= i < |ops| :: Leafy(ops[i], View(before), View(after));
    PatchReaches(mode, View(skipped), ops, View(after));
    WindowParts(mode, cs, second, phase, skipped, after);
  }
}
