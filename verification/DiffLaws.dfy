/** Diff and patch undo each other. */
module DiffLaws {
  import opened Wrappers
  import opened Json
  import opened Patch
  import opened Decimal
  import opened StateDiff

  /** Two trees whose diff goes into their children. */
  predicate SameShape(v: Value, w: Value) {
    || (v.Arr? && w.Arr? && |v.items| == |w.items|)
    || (v.Obj? && w.Obj? && v.fields.Keys == w.fields.Keys)
  }

  /** A diff that does not go into children: nothing, one addition, one setting, or a structural mark. */
  lemma LeafDiff(norm: Normalizer, v: Value, w: Value)
    requires !SameShape(v, w)
    ensures var t := Diff(norm, v, w);
            if v.Num? && w.Num? && (norm(w.n - v.n) != 0.0 || v.n != w.n) then
              t == Transition([Add([], w.n - v.n, MaxNat(DecimalDigits(v.n), DecimalDigits(w.n)))],
                              [Delta([], norm(w.n - v.n))], false)
            else if (v.Num? && w.Num?) || (v.Primitive() && v == w) then t == SAME
            else if v.Primitive() && w.Primitive() then t == Transition([Set([], w)], [Became([], w)], false)
            else t.structural && t.ops == []
  {
  }

  // ----- the operations of one diff never overlap -----

  predicate HeadsBelow(ops: seq<Op>, n: nat) {
    forall i | 0 <= i < |ops| :: |ops[i].path| > 0 && ops[i].path[0].Index? && ops[i].path[0].i < n
  }

  predicate HeadsIn(ops: seq<Op>, keys: seq<string>) {
    forall i | 0 <= i < |ops| :: |ops[i].path| > 0 && ops[i].path[0].Key? && ops[i].path[0].name in keys
  }

  lemma DifferentHeads(p: Path, q: Path)
    requires p != [] && q != [] && p[0] != q[0]
    ensures Incomparable(p, q)
  {
  }

  lemma PrefixFreeUnder(part: Part, ops: seq<Op>)
    requires PrefixFree(ops)
    ensures PrefixFree(Under([part], ops))
  {
    var u := Under([part], ops);
    forall i, j | 0 <= i < j < |u| ensures Incomparable(u[i].path, u[j].path) {
      IncomparableUnder([part], ops[i].path, ops[j].path);
    }
  }

  lemma PrefixUnder(prefix: Path, p: Path, q: Path)
    ensures prefix + p <= prefix + q <==> p <= q
  {
    var a, b := prefix + p, prefix + q;
    assert p == a[|prefix|..] && q == b[|prefix|..];
    if a <= b {
      assert b[..|a|] == a;
      assert q[..|p|] == b[|prefix|..][..|p|] == b[..|a|][|prefix|..];
    }
  }

  lemma IncomparableUnder(prefix: Path, p: Path, q: Path)
    requires Incomparable(p, q)
    ensures Incomparable(prefix + p, prefix + q)
  {
    PrefixUnder(prefix, p, q);
    PrefixUnder(prefix, q, p);
  }

  lemma PrefixFreeConcat(a: seq<Op>, b: seq<Op>)
    requires PrefixFree(a) && PrefixFree(b)
    requires forall i, j | 0 <= i < |a| && 0 <= j < |b| :: Incomparable(a[i].path, b[j].path)
    ensures PrefixFree(a + b)
  {
    forall i, j | 0 <= i < j < |a + b| ensures Incomparable((a + b)[i].path, (a + b)[j].path) {
      if i < |a| <= j {
        assert Incomparable(a[i].path, b[j - |a|].path);
      }
    }
  }

  /** No two operations of a diff share a path, and none lies below another. */
  lemma {:induction false} DiffPrefixFree(norm: Normalizer, before: Value, after: Value)
    ensures PrefixFree(Diff(norm, before, after).ops)
    decreases before, 1, 0
  {
    if SameShape(before, after) {
      if before.Arr? {
        ItemsPrefixFree(norm, before, after, |before.items|);
      } else {
        FieldsPrefixFree(norm, before, after, SortedKeys(before.fields.Keys));
      }
    } else {
      LeafDiff(norm, before, after);
    }
  }

  lemma {:induction false} ItemsPrefixFree(norm: Normalizer, before: Value, after: Value, n: nat)
    requires before.Arr? && after.Arr? && n <= |before.items| && n <= |after.items|
    ensures PrefixFree(DiffItems(norm, before, after, n).ops)
    ensures HeadsBelow(DiffItems(norm, before, after, n).ops, n)
    decreases before, 0, n
  {
    if n > 0 {
      ItemsPrefixFree(norm, before, after, n - 1);
      DiffPrefixFree(norm, before.items[n - 1], after.items[n - 1]);
      var a := DiffItems(norm, before, after, n - 1).ops;
      var d := Diff(norm, before.items[n - 1], after.items[n - 1]).ops;
      PrefixFreeUnder(Index(n - 1), d);
      var b := Under([Index(n - 1)], d);
      forall i, j | 0 <= i < |a| && 0 <= j < |b| ensures Incomparable(a[i].path, b[j].path) {
        DifferentHeads(a[i].path, b[j].path);
      }
      PrefixFreeConcat(a, b);
    }
  }

  lemma {:induction false} FieldsPrefixFree(norm: Normalizer, before: Value, after: Value, keys: seq<string>)
    requires before.Obj? && after.Obj?
    requires forall k | k in keys :: k in before.fields && k in after.fields
    requires forall i, j | 0 <= i < j < |keys| :: keys[i] != keys[j]
    ensures PrefixFree(DiffFields(norm, before, after, keys).ops)
    ensures HeadsIn(DiffFields(norm, before, after, keys).ops, keys)
    decreases before, 0, |keys|
  {
    if keys != [] {
      var rest, last := keys[..|keys| - 1], keys[|keys| - 1];
      assert last in keys;
      FieldsPrefixFree(norm, before, after, rest);
      DiffPrefixFree(norm, before.fields[last], after.fields[last]);
      var a := DiffFields(norm, before, after, rest).ops;
      var d := Diff(norm, before.fields[last], after.fields[last]).ops;
      PrefixFreeUnder(Key(last), d);
      var b := Under([Key(last)], d);
      forall i, j | 0 <= i < |a| && 0 <= j < |b| ensures Incomparable(a[i].path, b[j].path) {
        assert a[i].path[0].name in rest;
        DifferentHeads(a[i].path, b[j].path);
      }
      PrefixFreeConcat(a, b);
    }
  }

  // ----- exact patching restores the second tree -----

  /** Without a structural mark, applying the operations exactly turns the first tree into the second. */
  lemma {:induction false} PatchRestores(norm: Normalizer, before: Value, after: Value)
    requires !Diff(norm, before, after).structural
    ensures ApplyAll(Exact, before, Diff(norm, before, after).ops) == Some(after)
    decreases before, 1, 0
  {
    var ops := Diff(norm, before, after).ops;
    if before.Num? && after.Num? {
    } else if before.Primitive() && before == after {
    } else if before.Arr? {
      PatchItems(norm, before, after, |before.items|);
      assert after.items[..|before.items|] + before.items[|before.items|..] == after.items;
    } else if before.Obj? {
      PatchObject(norm, before, after, SortedKeys(before.fields.Keys));
    } else {
      assert ApplyAll(Exact, before, [Set([], after)]) == Some(after);
    }
  }

  lemma {:induction false} PatchObject(norm: Normalizer, before: Value, after: Value, keys: seq<string>)
    requires before.Obj? && after.Obj? && before.fields.Keys == after.fields.Keys
    requires forall k :: k in keys <==> k in before.fields
    requires forall i, j | 0 <= i < j < |keys| :: keys[i] != keys[j]
    requires !DiffFields(norm, before, after, keys).structural
    ensures ApplyAll(Exact, before, DiffFields(norm, before, after, keys).ops) == Some(after)
    decreases before, 0, 0
  {
    ResolvedFields(norm, before, after, keys);
    forall k | k in keys
      ensures ApplyAll(Exact, before.fields[k], Diff(norm, before.fields[k], after.fields[k]).ops) ==
              Some(after.fields[k])
    {
      PatchRestores(norm, before.fields[k], after.fields[k]);
    }
    PatchFields(Exact, before.fields, norm, before, after, keys, after.fields);
    assert Overlay(before.fields, after.fields, keys) == after.fields;
  }

  /** A non-structural object diff has no structural field. */
  lemma {:induction false} ResolvedFields(norm: Normalizer, before: Value, after: Value, keys: seq<string>)
    requires before.Obj? && after.Obj?
    requires forall k | k in keys :: k in before.fields && k in after.fields
    ensures DiffFields(norm, before, after, keys).structural <==>
            exists k :: k in keys && Diff(norm, before.fields[k], after.fields[k]).structural
    decreases |keys|
  {
    if keys != [] {
      var rest, last := keys[..|keys| - 1], keys[|keys| - 1];
      ResolvedFields(norm, before, after, rest);
      assert keys == rest + [last];
    }
  }

  lemma {:induction false} PatchItems(norm: Normalizer, before: Value, after: Value, n: nat)
    requires before.Arr? && after.Arr? && |before.items| == |after.items| && n <= |before.items|
    requires !DiffItems(norm, before, after, n).structural
    ensures ApplyAll(Exact, before, DiffItems(norm, before, after, n).ops) ==
            Some(Arr(after.items[..n] + before.items[n..]))
    decreases before, 0, n
  {
    if n == 0 {
      assert after.items[..0] + before.items[0..] == before.items;
    } else {
      PatchItems(norm, before, after, n - 1);
      PatchRestores(norm, before.items[n - 1], after.items[n - 1]);
      PatchOneItem(before, DiffItems(norm, before, after, n - 1).ops,
                   Diff(norm, before.items[n - 1], after.items[n - 1]).ops, before.items, after.items, n - 1);
    }
  }

  lemma PatchOneItem(v: Value, a: seq<Op>, d: seq<Op>, xs: seq<Value>, ys: seq<Value>, i: nat)
    requires |xs| == |ys| && i < |xs|
    requires ApplyAll(Exact, v, a) == Some(Arr(ys[..i] + xs[i..]))
    requires ApplyAll(Exact, xs[i], d) == Some(ys[i])
    ensures ApplyAll(Exact, v, a + Under([Index(i)], d)) == Some(Arr(ys[..i + 1] + xs[i + 1..]))
  {
    ApplyAllConcat(Exact, v, a, Under([Index(i)], d));
    ApplyUnder(Exact, Arr(ys[..i] + xs[i..]), Index(i), d);
    assert (ys[..i] + xs[i..])[i := ys[i]] == ys[..i + 1] + xs[i + 1..];
  }

  /** A map with some keys taken from another one. */
  ghost function Overlay(m: map<string, Value>, res: map<string, Value>, keys: seq<string>): map<string, Value>
    requires forall k | k in keys :: k in res
  {
    map k | k in m.Keys + (set j | j in keys) :: if k in keys then res[k] else m[k]
  }

  lemma OverlayLast(m: map<string, Value>, res: map<string, Value>, keys: seq<string>)
    requires keys != [] && forall k | k in keys :: k in res && k in m
    requires forall i, j | 0 <= i < j < |keys| :: keys[i] != keys[j]
    ensures forall k | k in keys[..|keys| - 1] :: k in keys
    ensures keys[|keys| - 1] in keys
    ensures Overlay(m, res, keys) == Overlay(m, res, keys[..|keys| - 1])[keys[|keys| - 1] := res[keys[|keys| - 1]]]
    ensures keys[|keys| - 1] in Overlay(m, res, keys[..|keys| - 1])
    ensures Overlay(m, res, keys[..|keys| - 1])[keys[|keys| - 1]] == m[keys[|keys| - 1]]
  {
    var rest, last := keys[..|keys| - 1], keys[|keys| - 1];
    assert keys == rest + [last];
    assert last !in rest;
  }

  lemma PatchOneField(mode: Mode, m: map<string, Value>, a: seq<Op>, d: seq<Op>, last: string,
                      mid: map<string, Value>, r: Value)
    requires ApplyAll(mode, Obj(m), a) == Some(Obj(mid))
    requires last in mid && ApplyAll(mode, mid[last], d) == Some(r)
    ensures ApplyAll(mode, Obj(m), a + Under([Key(last)], d)) == Some(Obj(mid[last := r]))
  {
    ApplyAllConcat(mode, Obj(m), a, Under([Key(last)], d));
    ApplyUnder(mode, Obj(mid), Key(last), d);
  }

  /**
   * Patching an object by the diff of another object: on any larger object whose fields take their own
   * patches, exactly the diffed fields change.
   */
  lemma {:induction false} PatchFields(mode: Mode, m: map<string, Value>, norm: Normalizer,
                                       before: Value, after: Value, keys: seq<string>, res: map<string, Value>)
    requires before.Obj? && after.Obj?
    requires forall k | k in keys :: k in before.fields && k in after.fields && k in m && k in res
    requires forall i, j | 0 <= i < j < |keys| :: keys[i] != keys[j]
    requires forall k | k in keys ::
               ApplyAll(mode, m[k], Diff(norm, before.fields[k], after.fields[k]).ops) == Some(res[k])
    ensures ApplyAll(mode, Obj(m), DiffFields(norm, before, after, keys).ops) == Some(Obj(Overlay(m, res, keys)))
    decreases |keys|
  {
    if keys == [] {
      assert Overlay(m, res, []) == m;
    } else {
      var rest, last := keys[..|keys| - 1], keys[|keys| - 1];
      assert last in keys && forall k | k in rest :: k in keys;
      PatchFields(mode, m, norm, before, after, rest, res);
      OverlayLast(m, res, keys);
      var a, d := DiffFields(norm, before, after, rest).ops, Diff(norm, before.fields[last], after.fields[last]).ops;
      PatchOneField(mode, m, a, d, last, Overlay(m, res, rest), res[last]);
    }
  }

  // ----- what each operation records -----

  /** One operation against the two trees it was computed from. */
  ghost predicate Records(op: Op, before: Value, after: Value) {
    && Present(before, op.path) && Present(after, op.path)
    && At(before, op.path).Some? && At(after, op.path).Some?
    && var x, y := At(before, op.path).value, At(after, op.path).value;
       match op
       case Add(_, delta, digits) =>
         x.Num? && y.Num? && delta == y.n - x.n &&
         digits == MaxNat(DecimalDigits(x.n), DecimalDigits(y.n))
       case Set(_, value) => x.Primitive() && y.Primitive() && value == y && x != y
  }

  lemma RecordsUnder(part: Part, op: Op, before: Value, after: Value)
    requires CanHold(before, part) && CanHold(after, part)
    requires part.Key? ==> part.name in before.fields && part.name in after.fields
    requires Records(op, Child(before, part), Child(after, part))
    ensures Records(op.WithPath([part] + op.path), before, after)
  {
    assert ([part] + op.path)[0] == part && ([part] + op.path)[1..] == op.path;
  }

  /** What a diff guarantees of each of its operations. */
  ghost predicate Genuine(norm: Normalizer, op: Op, before: Value, after: Value) {
    Records(op, before, after) && (norm(0.0) == 0.0 && op.Add? ==> op.delta != 0.0)
  }

  lemma {:induction false} DiffRecords(norm: Normalizer, before: Value, after: Value)
    ensures forall i | 0 <= i < |Diff(norm, before, after).ops| ::
              Genuine(norm, Diff(norm, before, after).ops[i], before, after)
    decreases before, 1, 0
  {
    if SameShape(before, after) {
      if before.Arr? {
        ItemsRecord(norm, before, after, |before.items|);
      } else {
        FieldsRecord(norm, before, after, SortedKeys(before.fields.Keys));
      }
    } else {
      LeafDiff(norm, before, after);
    }
  }

  lemma {:induction false} ItemsRecord(norm: Normalizer, before: Value, after: Value, n: nat)
    requires before.Arr? && after.Arr? && n <= |before.items| && n <= |after.items|
    ensures forall i | 0 <= i < |DiffItems(norm, before, after, n).ops| ::
              Genuine(norm, DiffItems(norm, before, after, n).ops[i], before, after)
    decreases before, 0, n
  {
    if n > 0 {
      ItemsRecord(norm, before, after, n - 1);
      var d := Diff(norm, before.items[n - 1], after.items[n - 1]).ops;
      DiffRecords(norm, before.items[n - 1], after.items[n - 1]);
      var u := Under([Index(n - 1)], d);
      forall i | 0 <= i < |u| ensures Genuine(norm, u[i], before, after) {
        RecordsUnder(Index(n - 1), d[i], before, after);
        assert Genuine(norm, d[i], before.items[n - 1], after.items[n - 1]);
      }
    }
  }

  lemma {:induction false} FieldsRecord(norm: Normalizer, before: Value, after: Value, keys: seq<string>)
    requires before.Obj? && after.Obj?
    requires forall k | k in keys :: k in before.fields && k in after.fields
    ensures forall i | 0 <= i < |DiffFields(norm, before, after, keys).ops| ::
              Genuine(norm, DiffFields(norm, before, after, keys).ops[i], before, after)
    decreases before, 0, |keys|
  {
    if keys != [] {
      var rest, last := keys[..|keys| - 1], keys[|keys| - 1];
      assert last in keys;
      FieldsRecord(norm, before, after, rest);
      var d := Diff(norm, before.fields[last], after.fields[last]).ops;
      DiffRecords(norm, before.fields[last], after.fields[last]);
      var u := Under([Key(last)], d);
      forall i | 0 <= i < |u| ensures Genuine(norm, u[i], before, after) {
        RecordsUnder(Key(last), d[i], before, after);
        assert Genuine(norm, d[i], before.fields[last], after.fields[last]);
      }
    }
  }

  // ----- transitions that leave every number alone -----

  /** Where both trees have a number in the same place, it is the same number. */
  predicate NumbersKept(v: Value, w: Value) {
    match v
    case Num(x) => w.Num? ==> x == w.n
    case Arr(xs) => w.Arr? && |w.items| == |xs| ==> forall i | 0 <= i < |xs| :: NumbersKept(xs[i], w.items[i])
    case Obj(m) => w.Obj? && w.fields.Keys == m.Keys ==> forall k | k in m :: NumbersKept(m[k], w.fields[k])
    case _ => true
  }

  predicate NoAdds(ops: seq<Op>) {
    forall i | 0 <= i < |ops| :: ops[i].Set?
  }

  /** A diff contains an addition exactly when some number changed. */
  lemma {:induction false} AddsIffNumbersChange(norm: Normalizer, before: Value, after: Value)
    requires norm(0.0) == 0.0
    ensures NoAdds(Diff(norm, before, after).ops) <==> NumbersKept(before, after)
    decreases before, 1, 0
  {
    if SameShape(before, after) {
      if before.Arr? {
        ItemsAdds(norm, before, after, |before.items|);
      } else {
        FieldsAdds(norm, before, after, SortedKeys(before.fields.Keys));
      }
    } else {
      LeafDiff(norm, before, after);
      if before.Num? && after.Num? && before.n != after.n {
        assert Diff(norm, before, after).ops[0].Add?;
      }
    }
  }

  lemma NoAddsConcat(a: seq<Op>, b: seq<Op>, part: Part)
    ensures NoAdds(a + Under([part], b)) <==> NoAdds(a) && NoAdds(b)
  {
    var c := a + Under([part], b);
    if NoAdds(c) {
      forall i | 0 <= i < |a| ensures a[i].Set? { assert c[i] == a[i]; }
      forall i | 0 <= i < |b| ensures b[i].Set? { assert c[|a| + i].Set?; }
    }
  }

  lemma {:induction false} ItemsAdds(norm: Normalizer, before: Value, after: Value, n: nat)
    requires norm(0.0) == 0.0 && before.Arr? && after.Arr? && n <= |before.items| && n <= |after.items|
    ensures NoAdds(DiffItems(norm, before, after, n).ops) <==>
            forall i | 0 <= i < n :: NumbersKept(before.items[i], after.items[i])
    decreases before, 0, n
  {
    if n > 0 {
      ItemsAdds(norm, before, after, n - 1);
      AddsIffNumbersChange(norm, before.items[n - 1], after.items[n - 1]);
      NoAddsConcat(DiffItems(norm, before, after, n - 1).ops,
                   Diff(norm, before.items[n - 1], after.items[n - 1]).ops, Index(n - 1));
    }
  }

  lemma {:induction false} FieldsAdds(norm: Normalizer, before: Value, after: Value, keys: seq<string>)
    requires norm(0.0) == 0.0 && before.Obj? && after.Obj?
    requires forall k | k in keys :: k in before.fields && k in after.fields
    ensures NoAdds(DiffFields(norm, before, after, keys).ops) <==>
            forall k | k in keys :: NumbersKept(before.fields[k], after.fields[k])
    decreases before, 0, |keys|
  {
    if keys != [] {
      var rest, last := keys[..|keys| - 1], keys[|keys| - 1];
      assert keys == rest + [last];
      FieldsAdds(norm, before, after, rest);
      AddsIffNumbersChange(norm, before.fields[last], after.fields[last]);
      NoAddsConcat(DiffFields(norm, before, after, rest).ops,
                   Diff(norm, before.fields[last], after.fields[last]).ops, Key(last));
    }
  }

  lemma {:induction false} SetsRepeat(after: Value, ops: seq<Op>)
    requires forall i | 0 <= i < |ops| ::
               ops[i].Set? && Present(after, ops[i].path) && At(after, ops[i].path) == Some(ops[i].value)
    ensures ApplyAll(Exact, after, ops) == Some(after)
    decreases |ops|
  {
    if ops != [] {
      WriteBack(after, ops[0].path, ops[0]);
      assert forall i | 0 <= i < |ops[1..]| :: ops[1..][i] == ops[i + 1];
      SetsRepeat(after, ops[1..]);
    }
  }

  /** A transition that leaves every number alone can be applied again to its own result. */
  lemma PatchRepeats(norm: Normalizer, before: Value, after: Value)
    requires norm(0.0) == 0.0 && NumbersKept(before, after)
    ensures ApplyAll(Exact, after, Diff(norm, before, after).ops) == Some(after)
  {
    AddsIffNumbersChange(norm, before, after);
    DiffRecords(norm, before, after);
    var ops := Diff(norm, before, after).ops;
    forall i | 0 <= i < |ops|
      ensures ops[i].Set? && Present(after, ops[i].path) && At(after, ops[i].path) == Some(ops[i].value)
    {
      assert Genuine(norm, ops[i], before, after);
    }
    SetsRepeat(after, ops);
  }

  // ----- rounded patching -----

  /** The new value of a numeric leaf lies on the decimal grid recorded for it. */
  predicate OnGrid(after: Value, op: Op) {
    op.Add? ==> (
      && At(after, op.path).Some? && At(after, op.path).value.Num?
      && RoundToDigits(At(after, op.path).value.n, op.digits) == At(after, op.path).value.n)
  }

  predicate OnRecordedGrid(after: Value, ops: seq<Op>) {
    forall i | 0 <= i < |ops| :: OnGrid(after, ops[i])
  }

  /** The rounding patch restores every leaf of the second tree within the tolerance. */
  lemma RoundedPatchClose(norm: Normalizer, before: Value, after: Value)
    requires !Diff(norm, before, after).structural
    ensures ApplyAll(Rounded, before, Diff(norm, before, after).ops).Some?
    ensures Close(TOLERANCE, ApplyAll(Rounded, before, Diff(norm, before, after).ops).value, after)
  {
    var ops := Diff(norm, before, after).ops;
    DiffPrefixFree(norm, before, after);
    DiffRecords(norm, before, after);
    PatchRestores(norm, before, after);
    CloseRefl(TOLERANCE, before);
    forall i | 0 <= i < |ops| ensures LeavesClose(TOLERANCE, Rounded, before, ops[i], Exact, before, ops[i]) {
      assert Genuine(norm, ops[i], before, after);
      RoundedLeafClose(ops[i], before, after);
    }
    TwinRuns(TOLERANCE, Rounded, before, ops, Exact, before, ops);
  }

  lemma RoundedLeafClose(op: Op, before: Value, after: Value)
    requires Records(op, before, after)
    ensures LeavesClose(TOLERANCE, Rounded, before, op, Exact, before, op)
  {
    if op.Add? {
      var y := At(after, op.path).value.n;
      FinerGrid(y, DecimalDigits(y), op.digits);
    } else {
      CloseRefl(TOLERANCE, op.value);
    }
  }

  /** The rounding patch is exact precisely when every changed number lies on the grid recorded for it. */
  lemma RoundedPatchExact(norm: Normalizer, before: Value, after: Value)
    requires !Diff(norm, before, after).structural
    ensures ApplyAll(Rounded, before, Diff(norm, before, after).ops) == Some(after) <==>
            OnRecordedGrid(after, Diff(norm, before, after).ops)
  {
    var ops := Diff(norm, before, after).ops;
    DiffPrefixFree(norm, before, after);
    PatchRestores(norm, before, after);
    assert AddsApart(ops);
    RoundingHarmless(before, ops);
    DiffRecords(norm, before, after);
    forall i | 0 <= i < |ops| ensures Lands(before, ops[i]) <==> OnGrid(after, ops[i]) {
      assert Genuine(norm, ops[i], before, after);
      LandsOnGrid(ops[i], before, after);
    }
  }

  lemma LandsOnGrid(op: Op, before: Value, after: Value)
    requires Records(op, before, after)
    ensures Lands(before, op) <==> OnGrid(after, op)
  {
    if op.Add? {
      assert At(before, op.path).value.n + op.delta == At(after, op.path).value.n;
    }
  }

  /** A diff with no operations and no structural mark means the trees are equal, and conversely. */
  lemma EmptyDiff(norm: Normalizer, before: Value, after: Value)
    requires norm(0.0) == 0.0
    ensures Diff(norm, before, after) == SAME <==> before == after
  {
    if Diff(norm, before, after) == SAME {
      PatchRestores(norm, before, after);
    }
    if before == after {
      SelfDiff(norm, before);
    }
  }

  lemma {:induction false} SelfDiff(norm: Normalizer, v: Value)
    requires norm(0.0) == 0.0
    ensures Diff(norm, v, v) == SAME
    decreases v, 1, 0
  {
    if v.Arr? {
      SelfDiffItems(norm, v, |v.items|);
    } else if v.Obj? {
      SelfDiffFields(norm, v, SortedKeys(v.fields.Keys));
    }
  }

  lemma {:induction false} SelfDiffItems(norm: Normalizer, v: Value, n: nat)
    requires norm(0.0) == 0.0 && v.Arr? && n <= |v.items|
    ensures DiffItems(norm, v, v, n) == SAME
    decreases v, 0, n
  {
    if n > 0 {
      SelfDiffItems(norm, v, n - 1);
      SelfDiff(norm, v.items[n - 1]);
    }
  }

  lemma {:induction false} SelfDiffFields(norm: Normalizer, v: Value, keys: seq<string>)
    requires norm(0.0) == 0.0 && v.Obj? && forall k | k in keys :: k in v.fields
    ensures DiffFields(norm, v, v, keys) == SAME
    decreases v, 0, |keys|
  {
    if keys != [] {
      SelfDiffFields(norm, v, keys[..|keys| - 1]);
      SelfDiff(norm, v.fields[keys[|keys| - 1]]);
    }
  }

  // ----- signatures determine operations -----

  /** Same kind, same path, same new value, and amounts at most `e` apart; recorded digits may differ. */
  predicate Alike(e: real, a: Op, b: Op) {
    a.path == b.path &&
    match a
    case Add(_, delta, _) => b.Add? && Abs(delta - b.delta) <= e
    case Set(_, value) => b.Set? && value == b.value
  }

  predicate AllAlike(e: real, a: seq<Op>, b: seq<Op>) {
    |a| == |b| && forall i | 0 <= i < |a| :: Alike(e, a[i], b[i])
  }

  /** The mark an operation leaves in the signature. */
  function MarkOf(norm: Normalizer, op: Op): Mark {
    match op
    case Add(p, delta, _) => Delta(p, norm(delta))
    case Set(p, value) => Became(p, value)
  }

  predicate Mirrors(norm: Normalizer, t: Transition) {
    |t.marks| == |t.ops| && forall i | 0 <= i < |t.ops| :: t.marks[i] == MarkOf(norm, t.ops[i])
  }

  lemma MirrorsJoin(norm: Normalizer, s: Transition, part: Part, t: Transition)
    requires Mirrors(norm, s) && Mirrors(norm, t)
    ensures Mirrors(norm, Join(s, Below([part], t)))
  {
    var j, b := Join(s, Below([part], t)), Below([part], t);
    forall i | 0 <= i < |j.ops| ensures j.marks[i] == MarkOf(norm, j.ops[i]) {
      if i < |s.ops| {
        assert j.ops[i] == s.ops[i] && j.marks[i] == s.marks[i];
      } else {
        assert j.ops[i] == b.ops[i - |s.ops|] && j.marks[i] == b.marks[i - |s.ops|];
        assert t.marks[i - |s.ops|] == MarkOf(norm, t.ops[i - |s.ops|]);
      }
    }
  }

  lemma {:induction false} SignatureMirrors(norm: Normalizer, before: Value, after: Value)
    requires !Diff(norm, before, after).structural
    ensures Mirrors(norm, Diff(norm, before, after))
    decreases before, 1, 0
  {
    if SameShape(before, after) {
      if before.Arr? {
        ItemsMirror(norm, before, after, |before.items|);
      } else {
        FieldsMirror(norm, before, after, SortedKeys(before.fields.Keys));
      }
    } else {
      LeafDiff(norm, before, after);
    }
  }

  lemma {:induction false} ItemsMirror(norm: Normalizer, before: Value, after: Value, n: nat)
    requires before.Arr? && after.Arr? && n <= |before.items| && n <= |after.items|
    requires !DiffItems(norm, before, after, n).structural
    ensures Mirrors(norm, DiffItems(norm, before, after, n))
    decreases before, 0, n
  {
    if n > 0 {
      ItemsMirror(norm, before, after, n - 1);
      SignatureMirrors(norm, before.items[n - 1], after.items[n - 1]);
      MirrorsJoin(norm, DiffItems(norm, before, after, n - 1), Index(n - 1),
                  Diff(norm, before.items[n - 1], after.items[n - 1]));
    }
  }

  lemma {:induction false} FieldsMirror(norm: Normalizer, before: Value, after: Value, keys: seq<string>)
    requires before.Obj? && after.Obj?
    requires forall k | k in keys :: k in before.fields && k in after.fields
    requires !DiffFields(norm, before, after, keys).structural
    ensures Mirrors(norm, DiffFields(norm, before, after, keys))
    decreases before, 0, |keys|
  {
    if keys != [] {
      var rest, last := keys[..|keys| - 1], keys[|keys| - 1];
      FieldsMirror(norm, before, after, rest);
      SignatureMirrors(norm, before.fields[last], after.fields[last]);
      MirrorsJoin(norm, DiffFields(norm, before, after, rest), Key(last), Diff(norm, before.fields[last], after.fields[last]));
    }
  }

  /** Among some amounts, the normaliser never merges two that are more than `e` apart. */
  ghost predicate Resolves(norm: Normalizer, e: real, amounts: iset<real>) {
    forall x, y | x in amounts && y in amounts && norm(x) == norm(y) :: Abs(x - y) <= e
  }

  ghost predicate AmountsIn(ops: seq<Op>, amounts: iset<real>) {
    forall i | 0 <= i < |ops| && ops[i].Add? :: ops[i].delta in amounts
  }

  ghost function UpTo(bound: real): iset<real> {
    iset x: real | Abs(x) <= bound
  }

  /**
   * A normaliser that keeps a number of significant digits, and takes tiny amounts to zero, resolves bounded amounts up
   * to twice its error there. Twelve digits are a relative error of at most 5e-12.
   */
  lemma DigitsResolve(norm: Normalizer, relative: real, absolute: real, bound: real)
    requires relative >= 0.0 && forall x :: Abs(norm(x) - x) <= relative * Abs(x) + absolute
    ensures Resolves(norm, 2.0 * (relative * bound + absolute), UpTo(bound))
  {
    forall x | x in UpTo(bound) ensures Abs(norm(x) - x) <= relative * bound + absolute {
      Scaled(relative, Abs(x), bound);
      assert Abs(norm(x) - x) <= relative * Abs(x) + absolute;
    }
    CloseResolve(norm, relative * bound + absolute, UpTo(bound));
  }

  lemma CloseResolve(norm: Normalizer, e: real, amounts: iset<real>)
    requires forall x | x in amounts :: Abs(norm(x) - x) <= e
    ensures Resolves(norm, 2.0 * e, amounts)
  {
  }

  lemma Scaled(factor: real, x: real, y: real)
    requires factor >= 0.0 && x <= y
    ensures factor * x <= factor * y
  {
  }

  /** Amounts that the normaliser leaves alone, such as those with few enough digits, are resolved without slack. */
  lemma KeptResolve(norm: Normalizer, amounts: iset<real>)
    requires forall x | x in amounts :: norm(x) == x
    ensures Resolves(norm, 0.0, amounts)
  {
  }

  /** Equal signatures mean alike operations, up to what the normaliser cannot tell apart among the amounts at hand. */
  lemma SameSignatureAlike(norm: Normalizer, e: real, amounts: iset<real>, s: Transition, t: Transition)
    requires Resolves(norm, e, amounts) && AmountsIn(s.ops, amounts) && AmountsIn(t.ops, amounts)
    requires Mirrors(norm, s) && Mirrors(norm, t) && SameSignature(s, t)
    ensures AllAlike(e, s.ops, t.ops)
  {
    forall i | 0 <= i < |s.ops| ensures Alike(e, s.ops[i], t.ops[i]) {
      assert s.marks[i] == MarkOf(norm, s.ops[i]) && t.marks[i] == MarkOf(norm, t.ops[i]);
    }
  }

  function GapOf(a: Op, b: Op): real {
    if a.Add? && b.Add? then Abs(a.delta - b.delta) else 0.0
  }

  /** The largest difference between the amounts of two lists. */
  function Gap(a: seq<Op>, b: seq<Op>): (r: real)
    ensures r >= 0.0
  {
    if a == [] || b == [] then 0.0
    else
      var rest := Gap(a[1..], b[1..]);
      if GapOf(a[0], b[0]) > rest then GapOf(a[0], b[0]) else rest
  }

  lemma {:induction false} GapAt(a: seq<Op>, b: seq<Op>, i: nat)
    requires |a| == |b| && i < |a|
    ensures GapOf(a[i], b[i]) <= Gap(a, b)
  {
    if i > 0 {
      GapAt(a[1..], b[1..], i - 1);
    }
  }

  lemma {:induction false} GapWithin(e: real, a: seq<Op>, b: seq<Op>)
    requires e >= 0.0 && AllAlike(e, a, b)
    ensures Gap(a, b) <= e
  {
    if a != [] {
      assert Alike(e, a[0], b[0]);
      forall i | 0 <= i < |a[1..]| ensures Alike(e, a[1..][i], b[1..][i]) {
        assert Alike(e, a[i + 1], b[i + 1]);
      }
      GapWithin(e, a[1..], b[1..]);
    }
  }

  /** The least slack up to which two lists are alike. */
  ghost predicate IsGap(gap: real, a: seq<Op>, b: seq<Op>) {
    gap >= 0.0 && AllAlike(gap, a, b) && forall e | e >= 0.0 && AllAlike(e, a, b) :: gap <= e
  }

  /** Operations with equal signatures are alike up to some gap between their amounts, whatever the normaliser. */
  lemma GapExists(norm: Normalizer, s: Transition, t: Transition) returns (gap: real)
    requires Mirrors(norm, s) && Mirrors(norm, t) && SameSignature(s, t)
    ensures IsGap(gap, s.ops, t.ops)
  {
    gap := Gap(s.ops, t.ops);
    forall i | 0 <= i < |s.ops| ensures Alike(gap, s.ops[i], t.ops[i]) {
      assert s.marks[i] == MarkOf(norm, s.ops[i]) && t.marks[i] == MarkOf(norm, t.ops[i]);
      GapAt(s.ops, t.ops, i);
    }
    forall e | e >= 0.0 && AllAlike(e, s.ops, t.ops) ensures gap <= e {
      GapWithin(e, s.ops, t.ops);
    }
  }

  /** Exact replay looks at amounts only, so alike operations with equal amounts act alike. */
  lemma {:induction false} ExactIgnoresDigits(v: Value, a: seq<Op>, b: seq<Op>)
    requires AllAlike(0.0, a, b)
    ensures ApplyAll(Exact, v, a) == ApplyAll(Exact, v, b)
    decreases |a|
  {
    if a != [] {
      assert Alike(0.0, a[0], b[0]);
      SameWrite(v, a[0].path, a[0], b[0]);
      if Apply(Exact, v, a[0]).Some? {
        forall i | 0 <= i < |a[1..]| ensures Alike(0.0, a[1..][i], b[1..][i]) {
          assert Alike(0.0, a[i + 1], b[i + 1]);
        }
        ExactIgnoresDigits(Apply(Exact, v, a[0]).value, a[1..], b[1..]);
      }
    }
  }

  lemma {:induction false} SameWrite(v: Value, p: Path, a: Op, b: Op)
    requires Alike(0.0, a, b)
    ensures Write(Exact, v, p, a) == Write(Exact, v, p, b)
    decreases p
  {
    if p != [] && CanHold(v, p[0]) {
      SameWrite(Child(v, p[0]), p[1..], a, b);
    }
  }

  /**
   * Drift: replaying alike operations on a tree that is within `d` of the first tree
   * ends within `d + e` of the second.
   */
  lemma PatchDrift(norm: Normalizer, d: real, e: real, shadow: Value, before: Value, after: Value, ops: seq<Op>)
    requires d >= 0.0 && e >= 0.0
    requires Close(d, shadow, before)
    requires !Diff(norm, before, after).structural
    requires AllAlike(e, ops, Diff(norm, before, after).ops)
    ensures ApplyAll(Exact, shadow, ops).Some?
    ensures Close(d + e, ApplyAll(Exact, shadow, ops).value, after)
  {
    var own := Diff(norm, before, after).ops;
    DiffPrefixFree(norm, before, after);
    DiffRecords(norm, before, after);
    PatchRestores(norm, before, after);
    CloseWeaken(d, d + e, shadow, before);
    forall i | 0 <= i < |ops|
      ensures ops[i].path == own[i].path
      ensures LeavesClose(d + e, Exact, shadow, ops[i], Exact, before, own[i])
    {
      assert Alike(e, ops[i], own[i]) && Genuine(norm, own[i], before, after);
      DriftLeaf(d, e, shadow, before, after, ops[i], own[i]);
    }
    TwinRuns(d + e, Exact, shadow, ops, Exact, before, own);
  }

  lemma DriftLeaf(d: real, e: real, shadow: Value, before: Value, after: Value, op: Op, own: Op)
    requires d >= 0.0 && e >= 0.0 && Close(d, shadow, before)
    requires Alike(e, op, own) && Records(own, before, after)
    ensures LeavesClose(d + e, Exact, shadow, op, Exact, before, own)
  {
    CloseAt(d, shadow, before, own.path);
    if own.Set? {
      CloseRefl(d + e, own.value);
    }
  }
}
