/** What a list of leaf operations makes of any tree, leaf by leaf. */
module LeafLaws {
  import opened Wrappers
  import opened Json
  import opened Patch
  import opened DiffLaws

  predicate SameOrApart(p: Path, q: Path) {
    p == q || Incomparable(p, q)
  }

  /** Any two operations address one leaf or leaves apart from each other. */
  predicate LeafList(ops: seq<Op>) {
    forall i, j | 0 <= i < j < |ops| :: SameOrApart(ops[i].path, ops[j].path)
  }

  predicate AllSameOrApart(ops: seq<Op>, p: Path) {
    forall i | 0 <= i < |ops| :: SameOrApart(ops[i].path, p)
  }

  lemma LeafListTail(ops: seq<Op>)
    requires ops != [] && LeafList(ops)
    ensures LeafList(ops[1..]) && AllSameOrApart(ops, ops[0].path) && AllSameOrApart(ops[1..], ops[0].path)
  {
    forall i | 1 <= i < |ops| ensures SameOrApart(ops[i].path, ops[0].path) {
      assert SameOrApart(ops[0].path, ops[i].path);
    }
  }

  /** What the operations on one leaf make of it, in order; the operations elsewhere do not matter. */
  function FoldAt(mode: Mode, ops: seq<Op>, p: Path, current: Option<Value>): Option<Value>
    decreases |ops|
  {
    if ops == [] then current
    else if ops[0].path != p then FoldAt(mode, ops[1..], p, current)
    else FoldAt(mode, ops[1..], p, if current.Some? then Leaf(mode, ops[0], current.value) else None)
  }

  lemma {:induction false} FoldFails(mode: Mode, ops: seq<Op>, p: Path)
    ensures FoldAt(mode, ops, p, None) == None
    decreases |ops|
  {
    if ops != [] {
      FoldFails(mode, ops[1..], p);
    }
  }

  /** One write turns a leaf's fold into the fold of the remaining operations. */
  lemma FoldStep(mode: Mode, v: Value, ops: seq<Op>, p: Path)
    requires ops != [] && SameOrApart(ops[0].path, p) && Apply(mode, v, ops[0]).Some?
    ensures FoldAt(mode, ops, p, At(v, p)) == FoldAt(mode, ops[1..], p, At(Apply(mode, v, ops[0]).value, p))
  {
    WriteSelf(mode, v, ops[0].path, ops[0]);
    if ops[0].path != p {
      WriteOther(mode, v, ops[0].path, ops[0], p);
    }
  }

  lemma {:induction false} FoldIs(mode: Mode, v: Value, ops: seq<Op>, p: Path)
    requires AllSameOrApart(ops, p) && ApplyAll(mode, v, ops).Some?
    ensures At(ApplyAll(mode, v, ops).value, p) == FoldAt(mode, ops, p, At(v, p))
    decreases |ops|
  {
    if ops != [] {
      FoldStep(mode, v, ops, p);
      assert forall i | 0 <= i < |ops[1..]| :: ops[1..][i] == ops[i + 1];
      FoldIs(mode, Apply(mode, v, ops[0]).value, ops[1..], p);
    }
  }

  ghost predicate Folds(mode: Mode, v: Value, ops: seq<Op>) {
    forall i | 0 <= i < |ops| :: FoldAt(mode, ops, ops[i].path, At(v, ops[i].path)).Some?
  }

  /** A list goes through exactly when every leaf goes through its own operations. */
  lemma {:induction false} AppliesIffFolds(mode: Mode, v: Value, ops: seq<Op>)
    requires LeafList(ops)
    ensures ApplyAll(mode, v, ops).Some? <==> Folds(mode, v, ops)
    decreases |ops|
  {
    if ops != [] {
      LeafListTail(ops);
      WriteSelf(mode, v, ops[0].path, ops[0]);
      if Apply(mode, v, ops[0]).None? {
        FoldFails(mode, ops[1..], ops[0].path);
        assert FoldAt(mode, ops, ops[0].path, At(v, ops[0].path)).None?;
      } else {
        var w := Apply(mode, v, ops[0]).value;
        AppliesIffFolds(mode, w, ops[1..]);
        FoldsStep(mode, v, w, ops);
      }
    }
  }

  lemma FoldsStep(mode: Mode, v: Value, w: Value, ops: seq<Op>)
    requires ops != [] && LeafList(ops) && Apply(mode, v, ops[0]) == Some(w)
    ensures Folds(mode, v, ops) <==> Folds(mode, w, ops[1..])
  {
    LeafListTail(ops);
    var rest := ops[1..];
    forall i | 0 <= i < |ops|
      ensures FoldAt(mode, ops, ops[i].path, At(v, ops[i].path)) == FoldAt(mode, rest, ops[i].path, At(w, ops[i].path))
    {
      assert SameOrApart(ops[i].path, ops[0].path);
      FoldStep(mode, v, ops, ops[i].path);
    }
    if Folds(mode, w, rest) {
      forall i | 0 <= i < |ops| ensures FoldAt(mode, ops, ops[i].path, At(v, ops[i].path)).Some? {
        var p := ops[i].path;
        if i > 0 {
          assert rest[i - 1] == ops[i];
          assert FoldAt(mode, rest, rest[i - 1].path, At(w, rest[i - 1].path)).Some?;
        } else if exists j | 0 <= j < |rest| :: rest[j].path == p {
          var j :| 0 <= j < |rest| && rest[j].path == p;
          assert FoldAt(mode, rest, rest[j].path, At(w, rest[j].path)).Some?;
        } else {
          FoldIdle(mode, rest, p, At(w, p));
          WriteSelf(mode, v, p, ops[0]);
        }
      }
    }
    if Folds(mode, v, ops) {
      forall j | 0 <= j < |rest| ensures FoldAt(mode, rest, rest[j].path, At(w, rest[j].path)).Some? {
        assert rest[j] == ops[j + 1];
        assert FoldAt(mode, ops, ops[j + 1].path, At(v, ops[j + 1].path)).Some?;
      }
    }
  }

  lemma {:induction false} FoldIdle(mode: Mode, ops: seq<Op>, p: Path, current: Option<Value>)
    requires forall i | 0 <= i < |ops| :: ops[i].path != p
    ensures FoldAt(mode, ops, p, current) == current
    decreases |ops|
  {
    if ops != [] {
      assert forall i | 0 <= i < |ops[1..]| :: ops[1..][i] == ops[i + 1];
      FoldIdle(mode, ops[1..], p, current);
    }
  }

  // ----- blanking the leaves -----

  /** Overwrites every addressed leaf with one and the same value. */
  function Blanks(ops: seq<Op>): (r: seq<Op>)
    ensures |r| == |ops| && forall i | 0 <= i < |ops| :: r[i] == Set(ops[i].path, Null)
  {
    seq(|ops|, i requires 0 <= i < |ops| => Set(ops[i].path, Null))
  }

  /** Apart from the addressed leaves, two trees agree. */
  predicate AgreeOutside(ops: seq<Op>, v: Value, w: Value) {
    ApplyAll(Exact, v, Blanks(ops)).Some? && ApplyAll(Exact, v, Blanks(ops)) == ApplyAll(Exact, w, Blanks(ops))
  }

  /** On every addressed leaf, the operations make of `v` what `w` shows. */
  predicate LeavesReach(mode: Mode, ops: seq<Op>, v: Value, w: Value) {
    forall i | 0 <= i < |ops| :: FoldAt(mode, ops, ops[i].path, At(v, ops[i].path)) == At(w, ops[i].path)
  }

  predicate AllSets(ops: seq<Op>) {
    forall i | 0 <= i < |ops| :: ops[i].Set?
  }

  predicate Addressed(ops: seq<Op>, p: Path) {
    exists i | 0 <= i < |ops| :: ops[i].path == p
  }

  lemma {:induction false} WriteOver(mode: Mode, v: Value, p: Path, op: Op, over: Op)
    requires Write(mode, v, p, op).Some? && over.Set?
    ensures Write(Exact, Write(mode, v, p, op).value, p, over) == Write(Exact, v, p, over)
    decreases p
  {
    if p != [] {
      WriteOver(mode, Child(v, p[0]), p[1..], op, over);
      var c := Write(mode, Child(v, p[0]), p[1..], op).value;
      var d := Write(Exact, c, p[1..], over);
      if d.Some? {
        assert Replace(Replace(v, p[0], c), p[0], d.value) == Replace(v, p[0], d.value);
      }
    }
  }

  lemma {:induction false} WriteSetMode(v: Value, p: Path, op: Op, m: Mode, m': Mode)
    requires op.Set?
    ensures Write(m, v, p, op) == Write(m', v, p, op)
    decreases p
  {
    if p != [] && CanHold(v, p[0]) {
      WriteSetMode(Child(v, p[0]), p[1..], op, m, m');
    }
  }

  /** Writes of different modes on incomparable paths can be exchanged when one of them sets. */
  lemma SetPast(mode: Mode, v: Value, op: Op, w: Value, over: Op)
    requires Apply(mode, v, op) == Some(w) && over.Set? && Incomparable(op.path, over.path)
    ensures match Apply(Exact, v, over)
            case None => Apply(Exact, w, over) == None
            case Some(v') => Apply(Exact, w, over).Some? && Apply(mode, v', op) == Apply(Exact, w, over)
  {
    WritesCommute(mode, v, op.path, op, over.path, over);
    WriteSetMode(v, over.path, over, Exact, mode);
    WriteSetMode(w, over.path, over, Exact, mode);
    WriteSelf(Exact, w, over.path, over);
    WriteSelf(Exact, v, over.path, over);
    WriteOther(mode, v, op.path, op, over.path);
  }

  /** Blanking forgets a write to an addressed leaf. */
  lemma {:induction false} BlankAbsorbs(mode: Mode, v: Value, op: Op, w: Value, blanks: seq<Op>)
    requires AllSets(blanks) && AllSameOrApart(blanks, op.path) && Addressed(blanks, op.path)
    requires Apply(mode, v, op) == Some(w)
    ensures ApplyAll(Exact, w, blanks) == ApplyAll(Exact, v, blanks)
    decreases |blanks|
  {
    var b, rest := blanks[0], blanks[1..];
    assert forall i | 0 <= i < |rest| :: rest[i] == blanks[i + 1];
    if b.path == op.path {
      WriteOver(mode, v, op.path, op, b);
    } else {
      IncomparableSym(b.path, op.path);
      SetPast(mode, v, op, w, b);
      assert Addressed(rest, op.path) by {
        var i :| 0 <= i < |blanks| && blanks[i].path == op.path;
        assert rest[i - 1].path == op.path;
      }
      if Apply(Exact, v, b).Some? {
        BlankAbsorbs(mode, Apply(Exact, v, b).value, op, Apply(Exact, w, b).value, rest);
      }
    }
  }

  lemma IncomparableSym(p: Path, q: Path)
    requires SameOrApart(p, q) && p != q
    ensures Incomparable(q, p)
  {
  }

  lemma {:induction false} BlankAfter(mode: Mode, v: Value, ops: seq<Op>, blanks: seq<Op>)
    requires AllSets(blanks) && ApplyAll(mode, v, ops).Some?
    requires forall i | 0 <= i < |ops| :: AllSameOrApart(blanks, ops[i].path) && Addressed(blanks, ops[i].path)
    ensures ApplyAll(Exact, ApplyAll(mode, v, ops).value, blanks) == ApplyAll(Exact, v, blanks)
    decreases |ops|
  {
    if ops != [] {
      var w := Apply(mode, v, ops[0]).value;
      BlankAbsorbs(mode, v, ops[0], w, blanks);
      assert forall i | 0 <= i < |ops[1..]| :: ops[1..][i] == ops[i + 1];
      BlankAfter(mode, w, ops[1..], blanks);
    }
  }

  lemma BlanksFit(ops: seq<Op>)
    requires LeafList(ops)
    ensures AllSets(Blanks(ops)) && LeafList(Blanks(ops))
    ensures forall i | 0 <= i < |ops| :: AllSameOrApart(Blanks(ops), ops[i].path) && Addressed(Blanks(ops), ops[i].path)
  {
    var bs := Blanks(ops);
    forall i, j | 0 <= i < |ops| && 0 <= j < |ops| ensures SameOrApart(ops[j].path, ops[i].path) {
      if i < j {
        assert SameOrApart(ops[i].path, ops[j].path);
      }
    }
    forall i | 0 <= i < |ops| ensures AllSameOrApart(bs, ops[i].path) && Addressed(bs, ops[i].path) {
      assert bs[i].path == ops[i].path;
    }
  }

  // ----- what is present stays present -----

  lemma {:induction false} WriteMakesPresent(mode: Mode, v: Value, p: Path, op: Op)
    requires Write(mode, v, p, op).Some?
    ensures Present(Write(mode, v, p, op).value, p)
    decreases p
  {
    if p != [] {
      WriteMakesPresent(mode, Child(v, p[0]), p[1..], op);
    }
  }

  lemma {:induction false} WriteKeepsPresent(mode: Mode, v: Value, p: Path, op: Op, q: Path)
    requires SameOrApart(p, q) && Present(v, q) && Write(mode, v, p, op).Some?
    ensures Present(Write(mode, v, p, op).value, q)
    decreases p
  {
    if p == q {
      WriteMakesPresent(mode, v, p, op);
    } else {
      IncomparableTail(p, q);
      if p[0] == q[0] {
        WriteKeepsPresent(mode, Child(v, p[0]), p[1..], op, q[1..]);
      }
    }
  }

  lemma {:induction false} AllKeepPresent(mode: Mode, v: Value, ops: seq<Op>, q: Path)
    requires AllSameOrApart(ops, q) && ApplyAll(mode, v, ops).Some? && (Present(v, q) || Addressed(ops, q))
    ensures Present(ApplyAll(mode, v, ops).value, q)
    decreases |ops|
  {
    if ops != [] {
      var w := Apply(mode, v, ops[0]).value;
      if ops[0].path == q {
        WriteMakesPresent(mode, v, q, ops[0]);
      } else if Present(v, q) {
        WriteKeepsPresent(mode, v, ops[0].path, ops[0], q);
      } else {
        var i :| 0 <= i < |ops| && ops[i].path == q;
        assert ops[1..][i - 1].path == q;
      }
      assert forall i | 0 <= i < |ops[1..]| :: ops[1..][i] == ops[i + 1];
      AllKeepPresent(mode, w, ops[1..], q);
    }
  }

  lemma {:induction false} PresentAt(v: Value, p: Path)
    requires Present(v, p)
    ensures At(v, p).Some?
    decreases p
  {
    if p != [] {
      PresentAt(Child(v, p[0]), p[1..]);
    }
  }

  // ----- recovering a tree from its blanked form and its leaves -----

  /** A present leaf that was overwritten can be put back. */
  lemma Unblank(v: Value, b: Op)
    requires b.Set? && Present(v, b.path)
    ensures Apply(Exact, v, b).Some? && At(v, b.path).Some?
    ensures Write(Exact, Apply(Exact, v, b).value, b.path, Set(b.path, At(v, b.path).value)) == Some(v)
  {
    PresentAt(v, b.path);
    WriteSelf(Exact, v, b.path, b);
    var back := Set(b.path, At(v, b.path).value);
    WriteOver(Exact, v, b.path, b, back);
    WriteBack(v, b.path, back);
  }

  lemma {:induction false} Recover(v: Value, w: Value, blanks: seq<Op>)
    requires AllSets(blanks) && LeafList(blanks)
    requires ApplyAll(Exact, v, blanks).Some? && ApplyAll(Exact, v, blanks) == ApplyAll(Exact, w, blanks)
    requires forall i | 0 <= i < |blanks| ::
               Present(v, blanks[i].path) && Present(w, blanks[i].path) && At(v, blanks[i].path) == At(w, blanks[i].path)
    ensures v == w
    decreases |blanks|
  {
    if blanks != [] {
      var b, rest := blanks[0], blanks[1..];
      LeafListTail(blanks);
      Unblank(v, b);
      Unblank(w, b);
      var v', w' := Apply(Exact, v, b).value, Apply(Exact, w, b).value;
      forall i | 0 <= i < |rest|
        ensures Present(v', rest[i].path) && Present(w', rest[i].path) && At(v', rest[i].path) == At(w', rest[i].path)
      {
        assert rest[i] == blanks[i + 1] && SameOrApart(b.path, blanks[i + 1].path);
        BlankedLeaf(v, w, b, blanks[i + 1].path);
      }
      Recover(v', w', rest);
    }
  }

  lemma BlankedLeaf(v: Value, w: Value, b: Op, q: Path)
    requires b.Set? && Apply(Exact, v, b).Some? && Apply(Exact, w, b).Some? && SameOrApart(b.path, q)
    requires Present(v, q) && Present(w, q) && At(v, q) == At(w, q)
    ensures var v', w' := Apply(Exact, v, b).value, Apply(Exact, w, b).value;
            Present(v', q) && Present(w', q) && At(v', q) == At(w', q)
  {
    WriteKeepsPresent(Exact, v, b.path, b, q);
    WriteKeepsPresent(Exact, w, b.path, b, q);
    if b.path == q {
      WriteSelf(Exact, v, q, b);
      WriteSelf(Exact, w, q, b);
    } else {
      WriteOther(Exact, v, b.path, b, q);
      WriteOther(Exact, w, b.path, b, q);
    }
  }

  // ----- the exact condition -----

  lemma ReachesThen(mode: Mode, v: Value, ops: seq<Op>, w: Value)
    requires LeafList(ops) && ApplyAll(mode, v, ops) == Some(w)
    ensures AgreeOutside(ops, v, w) && LeavesReach(mode, ops, v, w)
  {
    BlanksFit(ops);
    BlankAfter(mode, v, ops, Blanks(ops));
    forall i | 0 <= i < |ops|
      ensures FoldAt(mode, ops, ops[i].path, At(v, ops[i].path)) == At(w, ops[i].path)
    {
      AllFromBlanks(ops, i);
      FoldIs(mode, v, ops, ops[i].path);
    }
    BlanksApply(mode, v, ops);
  }

  lemma AllFromBlanks(ops: seq<Op>, i: nat)
    requires LeafList(ops) && i < |ops|
    ensures AllSameOrApart(ops, ops[i].path)
  {
    forall j | 0 <= j < |ops| ensures SameOrApart(ops[j].path, ops[i].path) {
      if i < j {
        assert SameOrApart(ops[i].path, ops[j].path);
      }
    }
  }

  /** Where a list goes through, its leaves can be blanked. */
  lemma BlanksApply(mode: Mode, v: Value, ops: seq<Op>)
    requires LeafList(ops) && ApplyAll(mode, v, ops).Some?
    ensures ApplyAll(Exact, v, Blanks(ops)).Some?
  {
    BlanksFit(ops);
    AppliesIffFolds(mode, v, ops);
    var bs := Blanks(ops);
    forall i | 0 <= i < |bs| ensures FoldAt(Exact, bs, bs[i].path, At(v, bs[i].path)).Some? {
      if At(v, ops[i].path).None? {
        FoldFails(mode, ops, ops[i].path);
        assert FoldAt(mode, ops, ops[i].path, At(v, ops[i].path)).Some?;
      }
      SetsFold(bs, bs[i].path, At(v, bs[i].path));
    }
    AppliesIffFolds(Exact, v, bs);
  }

  lemma {:induction false} SetsFold(sets: seq<Op>, p: Path, current: Option<Value>)
    requires AllSets(sets) && current.Some?
    ensures FoldAt(Exact, sets, p, current).Some?
    decreases |sets|
  {
    if sets != [] {
      assert forall i | 0 <= i < |sets[1..]| :: sets[1..][i] == sets[i + 1];
      SetsFold(sets[1..], p, if sets[0].path == p then Leaf(Exact, sets[0], current.value) else current);
    }
  }

  lemma ThenReaches(mode: Mode, v: Value, ops: seq<Op>, w: Value)
    requires LeafList(ops) && forall i | 0 <= i < |ops| :: Present(w, ops[i].path)
    requires AgreeOutside(ops, v, w) && LeavesReach(mode, ops, v, w)
    ensures ApplyAll(mode, v, ops) == Some(w)
  {
    forall i | 0 <= i < |ops| ensures FoldAt(mode, ops, ops[i].path, At(v, ops[i].path)).Some? {
      PresentAt(w, ops[i].path);
    }
    AppliesIffFolds(mode, v, ops);
    BlanksFit(ops);
    var r, bs := ApplyAll(mode, v, ops).value, Blanks(ops);
    BlankAfter(mode, v, ops, bs);
    forall i | 0 <= i < |bs|
      ensures Present(r, bs[i].path) && Present(w, bs[i].path) && At(r, bs[i].path) == At(w, bs[i].path)
    {
      AllFromBlanks(ops, i);
      FoldIs(mode, v, ops, ops[i].path);
      assert Addressed(ops, ops[i].path);
      AllKeepPresent(mode, v, ops, ops[i].path);
    }
    Recover(r, w, bs);
  }

  /**
   * A list of leaf operations takes one tree to another precisely when the trees agree apart from the addressed leaves
   * and each addressed leaf is taken to its value by its own operations.
   */
  lemma PatchReaches(mode: Mode, v: Value, ops: seq<Op>, w: Value)
    requires LeafList(ops) && forall i | 0 <= i < |ops| :: Present(w, ops[i].path)
    ensures ApplyAll(mode, v, ops) == Some(w) <==> AgreeOutside(ops, v, w) && LeavesReach(mode, ops, v, w)
  {
    if ApplyAll(mode, v, ops) == Some(w) {
      ReachesThen(mode, v, ops, w);
    }
    if AgreeOutside(ops, v, w) && LeavesReach(mode, ops, v, w) {
      ThenReaches(mode, v, ops, w);
    }
  }

  // ----- leaves of one tree are apart -----

  predicate IsLeaf(v: Option<Value>) {
    v.Some? && (v.value.Num? || v.value.Primitive())
  }

  lemma {:induction false} LeavesApart(v: Value, p: Path, q: Path)
    requires IsLeaf(At(v, p)) && IsLeaf(At(v, q)) && p != q
    ensures Incomparable(p, q)
    decreases p
  {
    if p != [] && q != [] && p[0] == q[0] {
      assert p == [p[0]] + p[1..] && q == [q[0]] + q[1..];
      LeavesApart(Child(v, p[0]), p[1..], q[1..]);
      PrefixTails(p, q);
      PrefixTails(q, p);
    }
  }

  lemma PrefixTails(p: Path, q: Path)
    requires p != [] && q != [] && p[0] == q[0]
    ensures p <= q <==> p[1..] <= q[1..]
  {
    assert p == [p[0]] + p[1..] && q == [q[0]] + q[1..];
    PrefixUnder([p[0]], p[1..], q[1..]);
  }
}
