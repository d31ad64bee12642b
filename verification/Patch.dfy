/** Patch operations and their replay on a state tree. */
module Patch {
  import opened Wrappers
  import opened Json

  /** One leaf operation: add a number, or set a non-numeric leaf. */
  datatype Op =
    | Add(path: Path, delta: real, digits: nat)
    | Set(path: Path, value: Value)
  {
    function WithPath(p: Path): Op {
      match this
      case Add(_, delta, digits) => Add(p, delta, digits)
      case Set(_, value) => Set(p, value)
    }
  }

  /** The hibernation analyser adds plainly; the contract replayer rounds to the recorded digits. */
  datatype Mode = Exact | Rounded

  function Pow10(n: nat): (r: int)
    ensures r >= 1
  {
    if n == 0 then 1 else 10 * Pow10(n - 1)
  }

  function Round(x: real): int {
    (x + 0.5).Floor
  }

  function RoundToDigits(x: real, digits: nat): real {
    Round(x * Pow10(digits) as real) as real / Pow10(digits) as real
  }

  function Finish(mode: Mode, x: real, digits: nat): real {
    if mode.Exact? then x else RoundToDigits(x, digits)
  }

  /** What one operation makes of the leaf it reaches. */
  function Leaf(mode: Mode, op: Op, current: Value): Option<Value> {
    match op
    case Add(_, delta, digits) =>
      if current.Num? then Some(Num(Finish(mode, current.n + delta, digits))) else None
    case Set(_, value) => Some(value)
  }

  function Write(mode: Mode, v: Value, path: Path, op: Op): Option<Value>
    decreases path
  {
    if path == [] then Leaf(mode, op, v)
    else if CanHold(v, path[0]) then
      match Write(mode, Child(v, path[0]), path[1..], op)
      case Some(r) => Some(Replace(v, path[0], r))
      case None => None
    else None
  }

  function Apply(mode: Mode, v: Value, op: Op): Option<Value> {
    Write(mode, v, op.path, op)
  }

  function ApplyAll(mode: Mode, v: Value, ops: seq<Op>): Option<Value>
    decreases |ops|
  {
    if ops == [] then Some(v)
    else
      match Apply(mode, v, ops[0])
      case Some(w) => ApplyAll(mode, w, ops[1..])
      case None => None
  }

  lemma {:induction false} ApplyAllConcat(mode: Mode, v: Value, a: seq<Op>, b: seq<Op>)
    ensures ApplyAll(mode, v, a + b) ==
            match ApplyAll(mode, v, a) case Some(w) => ApplyAll(mode, w, b) case None => None
    decreases |a|
  {
    if a == [] {
      assert a + b == b;
    } else {
      assert (a + b)[0] == a[0] && (a + b)[1..] == a[1..] + b;
      match Apply(mode, v, a[0])
      case Some(w) => ApplyAllConcat(mode, w, a[1..], b);
      case None =>
    }
  }

  // ----- operations below one child -----

  function Under(prefix: Path, ops: seq<Op>): (r: seq<Op>)
    ensures |r| == |ops|
    ensures forall i | 0 <= i < |ops| :: r[i] == ops[i].WithPath(prefix + ops[i].path)
  {
    seq(|ops|, i requires 0 <= i < |ops| => ops[i].WithPath(prefix + ops[i].path))
  }

  lemma UnderUnder(p: Path, q: Path, ops: seq<Op>)
    ensures Under(p, Under(q, ops)) == Under(p + q, ops)
  {
    forall i | 0 <= i < |ops|
      ensures Under(p, Under(q, ops))[i] == Under(p + q, ops)[i]
    {
      assert p + (q + ops[i].path) == p + q + ops[i].path;
    }
  }

  /** Operations below a child change exactly that child. */
  lemma {:induction false} ApplyUnder(mode: Mode, v: Value, part: Part, ops: seq<Op>)
    requires CanHold(v, part)
    requires part.Key? ==> part.name in v.fields
    ensures ApplyAll(mode, v, Under([part], ops)) ==
            match ApplyAll(mode, Child(v, part), ops)
            case Some(r) => Some(Replace(v, part, r))
            case None => None
    decreases |ops|
  {
    if ops == [] {
      assert Replace(v, part, Child(v, part)) == v;
    } else {
      var op := ops[0];
      var lifted := op.WithPath([part] + op.path);
      assert lifted.path[0] == part && lifted.path[1..] == op.path;
      WriteIgnoresOwnPath(mode, Child(v, part), op.path, lifted, op);
      assert Under([part], ops)[1..] == Under([part], ops[1..]);
      match Apply(mode, Child(v, part), op)
      case None =>
      case Some(c) =>
        var w := Replace(v, part, c);
        assert Apply(mode, v, lifted) == Some(w);
        ApplyUnder(mode, w, part, ops[1..]);
        match ApplyAll(mode, c, ops[1..])
        case Some(r) => assert Replace(w, part, r) == Replace(v, part, r);
        case None =>
    }
  }

  lemma {:induction false} WriteIgnoresOwnPath(mode: Mode, v: Value, path: Path, op: Op, op': Op)
    requires op' == op.WithPath(op'.path)
    ensures Write(mode, v, path, op) == Write(mode, v, path, op')
    decreases path
  {
    if path != [] && CanHold(v, path[0]) {
      WriteIgnoresOwnPath(mode, Child(v, path[0]), path[1..], op, op');
    }
  }

  // ----- operations on different leaves do not interfere -----

  predicate Incomparable(p: Path, q: Path) {
    !(p <= q) && !(q <= p)
  }

  /** No path repeats and none is a prefix of another. */
  predicate PrefixFree(ops: seq<Op>) {
    forall i, j | 0 <= i < j < |ops| :: Incomparable(ops[i].path, ops[j].path)
  }

  lemma IncomparableTail(p: Path, q: Path)
    requires Incomparable(p, q)
    ensures p != [] && q != []
    ensures p[0] == q[0] ==> Incomparable(p[1..], q[1..])
  {
    assert p == [p[0]] + p[1..] && q == [q[0]] + q[1..];
  }

  /** Writing one path leaves every incomparable path readable as before. */
  lemma {:induction false} WriteOther(mode: Mode, v: Value, p: Path, op: Op, q: Path)
    requires Incomparable(p, q)
    requires Write(mode, v, p, op).Some?
    ensures At(Write(mode, v, p, op).value, q) == At(v, q)
    decreases p
  {
    IncomparableTail(p, q);
    if p[0] == q[0] {
      WriteOther(mode, Child(v, p[0]), p[1..], op, q[1..]);
    }
  }

  lemma {:induction false} WriteSelf(mode: Mode, v: Value, p: Path, op: Op)
    ensures Write(mode, v, p, op).Some? <==> At(v, p).Some? && Leaf(mode, op, At(v, p).value).Some?
    ensures Write(mode, v, p, op).Some? ==>
              At(Write(mode, v, p, op).value, p) == Leaf(mode, op, At(v, p).value)
    decreases p
  {
    if p != [] && CanHold(v, p[0]) {
      WriteSelf(mode, Child(v, p[0]), p[1..], op);
    }
  }

  function Then(mode: Mode, v: Option<Value>, p: Path, op: Op): Option<Value> {
    if v.Some? then Write(mode, v.value, p, op) else None
  }

  lemma {:induction false} WritesCommute(mode: Mode, v: Value, p: Path, a: Op, q: Path, b: Op)
    requires Incomparable(p, q)
    ensures Then(mode, Write(mode, v, p, a), q, b) == Then(mode, Write(mode, v, q, b), p, a)
    decreases p
  {
    IncomparableTail(p, q);
    if CanHold(v, p[0]) && CanHold(v, q[0]) {
      if p[0] == q[0] {
        var c := Child(v, p[0]);
        WritesCommute(mode, c, p[1..], a, q[1..], b);
        WriteBelow(mode, v, p, a, q, b);
        WriteBelow(mode, v, q, b, p, a);
      } else {
        WriteApart(mode, v, p, a, q, b);
      }
    }
  }

  /** Two writes below the same child amount to replacing that child once. */
  lemma WriteBelow(mode: Mode, v: Value, p: Path, a: Op, q: Path, b: Op)
    requires p != [] && q != [] && p[0] == q[0] && CanHold(v, p[0])
    ensures Then(mode, Write(mode, v, p, a), q, b) ==
            match Then(mode, Write(mode, Child(v, p[0]), p[1..], a), q[1..], b)
            case Some(r) => Some(Replace(v, p[0], r))
            case None => None
  {
    var x := Write(mode, Child(v, p[0]), p[1..], a);
    if x.Some? {
      var w := Replace(v, p[0], x.value);
      assert Child(w, q[0]) == x.value;
      var z := Write(mode, x.value, q[1..], b);
      if z.Some? {
        assert Replace(w, q[0], z.value) == Replace(v, p[0], z.value);
      }
    }
  }

  /** Writes below different children can be exchanged. */
  lemma WriteApart(mode: Mode, v: Value, p: Path, a: Op, q: Path, b: Op)
    requires p != [] && q != [] && p[0] != q[0] && CanHold(v, p[0]) && CanHold(v, q[0])
    ensures Then(mode, Write(mode, v, p, a), q, b) == Then(mode, Write(mode, v, q, b), p, a)
  {
    var x := Write(mode, Child(v, p[0]), p[1..], a);
    var y := Write(mode, Child(v, q[0]), q[1..], b);
    if x.Some? {
      assert Child(Replace(v, p[0], x.value), q[0]) == Child(v, q[0]);
    }
    if y.Some? {
      assert Child(Replace(v, q[0], y.value), p[0]) == Child(v, p[0]);
    }
    if x.Some? && y.Some? {
      assert Replace(Replace(v, p[0], x.value), q[0], y.value) ==
             Replace(Replace(v, q[0], y.value), p[0], x.value);
    }
  }

  function AfterAll(mode: Mode, v: Option<Value>, ops: seq<Op>): Option<Value> {
    if v.Some? then ApplyAll(mode, v.value, ops) else None
  }

  lemma ApplyCons(mode: Mode, v: Value, op: Op, rest: seq<Op>)
    ensures ApplyAll(mode, v, [op] + rest) == AfterAll(mode, Apply(mode, v, op), rest)
  {
    assert ([op] + rest)[1..] == rest;
  }

  lemma SwapFirst(mode: Mode, v: Value, a: Op, b: Op, rest: seq<Op>)
    requires Incomparable(a.path, b.path)
    ensures ApplyAll(mode, v, [a] + ([b] + rest)) == ApplyAll(mode, v, [b] + ([a] + rest))
  {
    WritesCommute(mode, v, a.path, a, b.path, b);
    ApplyCons(mode, v, a, [b] + rest);
    ApplyCons(mode, v, b, [a] + rest);
    if Apply(mode, v, a).Some? { ApplyCons(mode, Apply(mode, v, a).value, b, rest); }
    if Apply(mode, v, b).Some? { ApplyCons(mode, Apply(mode, v, b).value, a, rest); }
  }

  function Without(ops: seq<Op>, k: nat): seq<Op>
    requires k < |ops|
  {
    ops[..k] + ops[k + 1..]
  }

  lemma WithoutPrefixFree(ops: seq<Op>, k: nat)
    requires PrefixFree(ops) && k < |ops|
    ensures PrefixFree(Without(ops, k))
  {
    var w := Without(ops, k);
    forall i, j | 0 <= i < j < |w| ensures Incomparable(w[i].path, w[j].path) {
      assert w[i] == ops[if i < k then i else i + 1] && w[j] == ops[if j < k then j else j + 1];
    }
  }

  /** An operation can be moved to the front of a prefix-free list. */
  lemma {:induction false} MoveToFront(mode: Mode, v: Value, ops: seq<Op>, k: nat)
    requires PrefixFree(ops) && k < |ops|
    ensures ApplyAll(mode, v, ops) == ApplyAll(mode, v, [ops[k]] + Without(ops, k))
    decreases k
  {
    if k == 0 {
      assert [ops[0]] + Without(ops, 0) == ops;
    } else {
      var a, b := ops[0], ops[k];
      var between := Without(ops[1..], k - 1);
      assert ops == [a] + ops[1..] && Without(ops, k) == [a] + between;
      ApplyCons(mode, v, a, ops[1..]);
      ApplyCons(mode, v, a, [b] + between);
      if Apply(mode, v, a).Some? {
        MoveToFront(mode, Apply(mode, v, a).value, ops[1..], k - 1);
      }
      SwapFirst(mode, v, a, b, between);
    }
  }

  lemma TakeOut(ops: seq<Op>, ops': seq<Op>) returns (k: nat)
    requires ops' != [] && multiset(ops) == multiset(ops')
    ensures k < |ops| && ops[k] == ops'[0]
    ensures multiset(Without(ops, k)) == multiset(ops'[1..])
  {
    assert ops'[0] in multiset(ops);
    k :| 0 <= k < |ops| && ops[k] == ops'[0];
    assert ops == ops[..k] + [ops[k]] + ops[k + 1..];
    assert ops' == [ops'[0]] + ops'[1..];
    calc {
      multiset(Without(ops, k));
      multiset(ops) - multiset{ops[k]};
      multiset(ops') - multiset{ops'[0]};
      multiset(ops'[1..]);
    }
  }

  /** The order in which prefix-free operations are applied does not matter. */
  lemma {:induction false} OrderIrrelevant(mode: Mode, v: Value, ops: seq<Op>, ops': seq<Op>)
    requires PrefixFree(ops)
    requires multiset(ops) == multiset(ops')
    ensures ApplyAll(mode, v, ops) == ApplyAll(mode, v, ops')
    decreases |ops'|
  {
    if ops' == [] {
      assert |multiset(ops)| == 0;
    } else {
      var k := TakeOut(ops, ops');
      MoveToFront(mode, v, ops, k);
      WithoutPrefixFree(ops, k);
      ApplyCons(mode, v, ops[k], Without(ops, k));
      if Apply(mode, v, ops[k]).Some? {
        OrderIrrelevant(mode, Apply(mode, v, ops[k]).value, Without(ops, k), ops'[1..]);
      }
    }
  }

  // ----- two runs side by side -----

  predicate SamePaths(a: seq<Op>, b: seq<Op>) {
    |a| == |b| && forall i | 0 <= i < |a| :: a[i].path == b[i].path
  }

  /** On the leaf of one path, both operations go through and their results are close. */
  predicate LeavesClose(e: real, m: Mode, v: Value, a: Op, m': Mode, w: Value, b: Op) {
    && At(v, a.path).Some? && At(w, b.path).Some?
    && Leaf(m, a, At(v, a.path).value).Some?
    && Leaf(m', b, At(w, b.path).value).Some?
    && Close(e, Leaf(m, a, At(v, a.path).value).value, Leaf(m', b, At(w, b.path).value).value)
  }

  lemma {:induction false} WritesClose(e: real, m: Mode, v: Value, a: Op, m': Mode, w: Value, b: Op, p: Path)
    requires Close(e, v, w)
    requires Write(m, v, p, a).Some? && Write(m', w, p, b).Some?
    requires At(v, p).Some? && Leaf(m, a, At(v, p).value).Some?
    requires At(w, p).Some? && Leaf(m', b, At(w, p).value).Some?
    requires Close(e, Leaf(m, a, At(v, p).value).value, Leaf(m', b, At(w, p).value).value)
    ensures Close(e, Write(m, v, p, a).value, Write(m', w, p, b).value)
    decreases p
  {
    if p != [] {
      WritesClose(e, m, Child(v, p[0]), a, m', Child(w, p[0]), b, p[1..]);
    }
  }

  /**
   * Two runs over the same prefix-free paths stay within `e` of each other when they start within `e` and
   * every pair of leaf results, computed from the starting trees, is within `e`.
   */
  lemma {:induction false} TwinRuns(e: real, m: Mode, v: Value, a: seq<Op>, m': Mode, w: Value, b: seq<Op>)
    requires PrefixFree(a) && SamePaths(a, b)
    requires Close(e, v, w)
    requires forall i | 0 <= i < |a| :: LeavesClose(e, m, v, a[i], m', w, b[i])
    ensures ApplyAll(m, v, a).Some? && ApplyAll(m', w, b).Some?
    ensures Close(e, ApplyAll(m, v, a).value, ApplyAll(m', w, b).value)
    decreases |a|
  {
    if a != [] {
      assert LeavesClose(e, m, v, a[0], m', w, b[0]);
      WriteSelf(m, v, a[0].path, a[0]);
      WriteSelf(m', w, b[0].path, b[0]);
      var v', w' := Apply(m, v, a[0]).value, Apply(m', w, b[0]).value;
      WritesClose(e, m, v, a[0], m', w, b[0], a[0].path);
      forall i | 0 <= i < |a| - 1
        ensures LeavesClose(e, m, v', a[1..][i], m', w', b[1..][i])
      {
        assert LeavesClose(e, m, v, a[i + 1], m', w, b[i + 1]);
        WriteOther(m, v, a[0].path, a[0], a[i + 1].path);
        WriteOther(m', w, b[0].path, b[0], b[i + 1].path);
      }
      TwinRuns(e, m, v', a[1..], m', w', b[1..]);
    }
  }

  // ----- when rounding to the recorded digits is harmless -----

  /** The exact sum lies on the decimal grid the operation recorded. */
  predicate Lands(v: Value, op: Op) {
    op.Add? ==>
      At(v, op.path).Some? && At(v, op.path).value.Num? &&
      RoundToDigits(At(v, op.path).value.n + op.delta, op.digits) == At(v, op.path).value.n + op.delta
  }

  predicate AllLand(v: Value, ops: seq<Op>) {
    forall i | 0 <= i < |ops| :: Lands(v, ops[i])
  }

  lemma {:induction false} ApplyAllOther(mode: Mode, v: Value, ops: seq<Op>, q: Path)
    requires forall i | 0 <= i < |ops| :: Incomparable(ops[i].path, q)
    requires ApplyAll(mode, v, ops).Some?
    ensures At(ApplyAll(mode, v, ops).value, q) == At(v, q)
    decreases |ops|
  {
    if ops != [] {
      WriteOther(mode, v, ops[0].path, ops[0], q);
      ApplyAllOther(mode, Apply(mode, v, ops[0]).value, ops[1..], q);
    }
  }

  /** No addition shares its leaf with another operation. */
  predicate AddsApart(ops: seq<Op>) {
    forall i, j | 0 <= i < j < |ops| && (ops[i].Add? || ops[j].Add?) :: Incomparable(ops[i].path, ops[j].path)
  }

  /** Rounded replay equals exact replay precisely when every sum lands on its recorded grid. */
  lemma {:induction false} RoundingHarmless(v: Value, ops: seq<Op>)
    requires AddsApart(ops)
    requires ApplyAll(Exact, v, ops).Some?
    ensures ApplyAll(Rounded, v, ops) == ApplyAll(Exact, v, ops) <==> AllLand(v, ops)
    decreases |ops|
  {
    if ops != [] {
      var op, rest := ops[0], ops[1..];
      assert forall i, j | 0 <= i < j < |rest| :: rest[i] == ops[i + 1] && rest[j] == ops[j + 1];
      WriteSelf(Exact, v, op.path, op);
      WriteSelf(Rounded, v, op.path, op);
      if Lands(v, op) {
        WriteSame(v, op.path, op);
        RoundingHarmless(Apply(Exact, v, op).value, rest);
        LandsLater(v, ops);
      } else {
        FirstMissShows(v, ops);
      }
    }
  }

  /** Whether later operations land does not depend on the first one. */
  lemma LandsLater(v: Value, ops: seq<Op>)
    requires ops != [] && AddsApart(ops) && Apply(Exact, v, ops[0]).Some? && Lands(v, ops[0])
    ensures AllLand(v, ops) <==> AllLand(Apply(Exact, v, ops[0]).value, ops[1..])
  {
    var x := Apply(Exact, v, ops[0]).value;
    forall i | 1 <= i < |ops| ensures Lands(v, ops[i]) <==> Lands(x, ops[1..][i - 1]) {
      if ops[i].Add? {
        WriteOther(Exact, v, ops[0].path, ops[0], ops[i].path);
      }
    }
    if AllLand(x, ops[1..]) {
      forall i | 0 <= i < |ops| ensures Lands(v, ops[i]) {
        if i > 0 { assert Lands(x, ops[1..][i - 1]); }
      }
    }
  }

  /** A first addition that misses its grid leaves a difference that no later operation repairs. */
  lemma FirstMissShows(v: Value, ops: seq<Op>)
    requires ops != [] && AddsApart(ops) && !Lands(v, ops[0])
    requires ApplyAll(Exact, v, ops).Some?
    ensures ApplyAll(Rounded, v, ops) != ApplyAll(Exact, v, ops)
  {
    var op, rest := ops[0], ops[1..];
    WriteSelf(Exact, v, op.path, op);
    WriteSelf(Rounded, v, op.path, op);
    var x, r := Apply(Exact, v, op).value, Apply(Rounded, v, op).value;
    assert At(x, op.path) != At(r, op.path);
    forall i | 0 <= i < |rest| ensures Incomparable(rest[i].path, op.path) {
      assert Incomparable(op.path, ops[i + 1].path);
    }
    ApplyAllOther(Exact, x, rest, op.path);
    if ApplyAll(Rounded, r, rest).Some? {
      ApplyAllOther(Rounded, r, rest, op.path);
    }
  }

  /** Setting a leaf to what it already is changes nothing. */
  lemma {:induction false} WriteBack(v: Value, p: Path, op: Op)
    requires op.Set? && At(v, p) == Some(op.value) && Present(v, p)
    ensures Write(Exact, v, p, op) == Some(v)
    decreases p
  {
    if p != [] {
      WriteBack(Child(v, p[0]), p[1..], op);
      assert Replace(v, p[0], Child(v, p[0])) == v;
    }
  }

  lemma {:induction false} WriteSame(v: Value, p: Path, op: Op)
    requires At(v, p).Some?
    requires Leaf(Exact, op, At(v, p).value) == Leaf(Rounded, op, At(v, p).value)
    ensures Write(Exact, v, p, op) == Write(Rounded, v, p, op)
    decreases p
  {
    if p != [] {
      WriteSame(Child(v, p[0]), p[1..], op);
    }
  }
}
