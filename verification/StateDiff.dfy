/** Diffing two state trees into leaf operations and a signature. */
module StateDiff {
  import opened Wrappers
  import opened Json
  import opened Patch
  import opened Decimal

  /** The number normalisation that a signature goes through; the operations keep the raw difference. */
  type Normalizer = real -> real

  datatype Reason = ArrayShape | ObjectShape | ObjectKeys | TypeChange

  /** One part of a signature. */
  datatype Mark =
    | Delta(path: Path, amount: real)
    | Became(path: Path, value: Value)
    | Mismatch(path: Path, reason: Reason)
  {
    function WithPath(p: Path): Mark {
      match this
      case Delta(_, amount) => Delta(p, amount)
      case Became(_, value) => Became(p, value)
      case Mismatch(_, reason) => Mismatch(p, reason)
    }
  }

  datatype Transition = Transition(ops: seq<Op>, marks: seq<Mark>, structural: bool)

  /** What a transition's signature shows: not the amounts' digits, and not the raw amounts. */
  datatype Sign = Sign(structural: bool, marks: seq<Mark>)

  function SignOf(t: Transition): Sign {
    Sign(t.structural, t.marks)
  }

  const SAME: Transition := Transition([], [], false)

  predicate SameSignature(s: Transition, t: Transition) {
    s.structural == t.structural && s.marks == t.marks
  }

  function MarksUnder(prefix: Path, marks: seq<Mark>): (r: seq<Mark>)
    ensures |r| == |marks|
    ensures forall i | 0 <= i < |marks| :: r[i] == marks[i].WithPath(prefix + marks[i].path)
  {
    seq(|marks|, i requires 0 <= i < |marks| => marks[i].WithPath(prefix + marks[i].path))
  }

  function Below(prefix: Path, t: Transition): Transition {
    Transition(Under(prefix, t.ops), MarksUnder(prefix, t.marks), t.structural)
  }

  function Join(s: Transition, t: Transition): Transition {
    Transition(s.ops + t.ops, s.marks + t.marks, s.structural || t.structural)
  }

  function Refuse(reason: Reason): Transition {
    Transition([], [Mismatch([], reason)], true)
  }

  function MaxNat(a: nat, b: nat): nat {
    if a >= b then a else b
  }

  /** The reference diff, with paths relative to the two trees. */
  ghost function Diff(norm: Normalizer, before: Value, after: Value): Transition
    decreases before, 1, 0
  {
    if before.Num? && after.Num? then
      if norm(after.n - before.n) != 0.0 || before.n != after.n then
        Transition(
          [Add([], after.n - before.n, MaxNat(DecimalDigits(before.n), DecimalDigits(after.n)))],
          [Delta([], norm(after.n - before.n))],
          false)
      else SAME
    else if before.Primitive() && before == after then SAME
    else if before.Arr? || after.Arr? then
      if !before.Arr? || !after.Arr? || |before.items| != |after.items| then Refuse(ArrayShape)
      else DiffItems(norm, before, after, |before.items|)
    else if before.Obj? || after.Obj? then
      if !before.Obj? || !after.Obj? then Refuse(ObjectShape)
      else if before.fields.Keys != after.fields.Keys then Refuse(ObjectKeys)
      else DiffFields(norm, before, after, SortedKeys(before.fields.Keys))
    else if before.Primitive() && after.Primitive() then
      Transition([Set([], after)], [Became([], after)], false)
    else Refuse(TypeChange)
  }

  ghost function DiffItems(norm: Normalizer, before: Value, after: Value, n: nat): Transition
    requires before.Arr? && after.Arr? && n <= |before.items| && n <= |after.items|
    decreases before, 0, n
  {
    if n == 0 then SAME
    else Join(DiffItems(norm, before, after, n - 1),
              Below([Index(n - 1)], Diff(norm, before.items[n - 1], after.items[n - 1])))
  }

  ghost function DiffFields(norm: Normalizer, before: Value, after: Value, keys: seq<string>): Transition
    requires before.Obj? && after.Obj?
    requires forall k | k in keys :: k in before.fields && k in after.fields
    decreases before, 0, |keys|
  {
    if keys == [] then SAME
    else
      var last := keys[|keys| - 1];
      Join(DiffFields(norm, before, after, keys[..|keys| - 1]),
           Below([Key(last)], Diff(norm, before.fields[last], after.fields[last])))
  }

  lemma DiffOfObjects(norm: Normalizer, x: Value, y: Value)
    requires x.Obj? && y.Obj?
    ensures x.fields.Keys == y.fields.Keys ==> Diff(norm, x, y) == DiffFields(norm, x, y, SortedKeys(x.fields.Keys))
    ensures x.fields.Keys != y.fields.Keys ==> Diff(norm, x, y) == Refuse(ObjectKeys)
  {
  }

  /** A diff of two objects never patches the root. */
  lemma {:induction false} NoRootOps(norm: Normalizer, before: Value, after: Value, i: nat)
    requires before.Obj? && after.Obj? && i < |Diff(norm, before, after).ops|
    ensures Diff(norm, before, after).ops[i].path != []
  {
    DiffOfObjects(norm, before, after);
    FieldOpsBelow(norm, before, after, SortedKeys(before.fields.Keys), i);
  }

  lemma {:induction false} FieldOpsBelow(norm: Normalizer, before: Value, after: Value, keys: seq<string>, i: nat)
    requires before.Obj? && after.Obj? && forall k | k in keys :: k in before.fields && k in after.fields
    requires i < |DiffFields(norm, before, after, keys).ops|
    ensures DiffFields(norm, before, after, keys).ops[i].path != []
    decreases |keys|
  {
    var rest := keys[..|keys| - 1];
    if i < |DiffFields(norm, before, after, rest).ops| {
      FieldOpsBelow(norm, before, after, rest, i);
    }
  }

  // ----- the recording visitor -----

  lemma BelowJoin(prefix: Path, s: Transition, t: Transition)
    ensures Below(prefix, Join(s, t)) == Join(Below(prefix, s), Below(prefix, t))
  {
    assert Under(prefix, s.ops + t.ops) == Under(prefix, s.ops) + Under(prefix, t.ops);
    assert MarksUnder(prefix, s.marks + t.marks) == MarksUnder(prefix, s.marks) + MarksUnder(prefix, t.marks);
  }

  lemma BelowBelow(p: Path, q: Path, t: Transition)
    ensures Below(p, Below(q, t)) == Below(p + q, t)
  {
    UnderUnder(p, q, t.ops);
    forall i | 0 <= i < |t.marks|
      ensures MarksUnder(p, MarksUnder(q, t.marks))[i] == MarksUnder(p + q, t.marks)[i]
    {
      assert p + (q + t.marks[i].path) == p + q + t.marks[i].path;
    }
    assert MarksUnder(p, MarksUnder(q, t.marks)) == MarksUnder(p + q, t.marks);
  }

  lemma BelowRoot(t: Transition)
    ensures Below([], t) == t
  {
    forall i | 0 <= i < |t.ops| ensures Under([], t.ops)[i] == t.ops[i] {
      assert [] + t.ops[i].path == t.ops[i].path;
    }
    forall i | 0 <= i < |t.marks| ensures MarksUnder([], t.marks)[i] == t.marks[i] {
      assert [] + t.marks[i].path == t.marks[i].path;
    }
    assert Under([], t.ops) == t.ops && MarksUnder([], t.marks) == t.marks;
  }

  lemma BelowSingle(path: Path, t: Transition)
    requires |t.ops| <= 1 && |t.marks| == 1
    requires t.marks[0].path == [] && (t.ops != [] ==> t.ops[0].path == [])
    ensures Below(path, t) ==
            Transition(if t.ops == [] then [] else [t.ops[0].WithPath(path)], [t.marks[0].WithPath(path)], t.structural)
  {
    assert path + [] == path;
    assert Below(path, t).marks == [t.marks[0].WithPath(path)];
  }

  /** Recording one more child after a prefix of the children. */
  lemma JoinBelow(start: Transition, path: Path, soFar: Transition, part: Part, child: Transition)
    ensures Join(Join(start, Below(path, soFar)), Below(path + [part], child)) ==
            Join(start, Below(path, Join(soFar, Below([part], child))))
  {
    BelowJoin(path, soFar, Below([part], child));
    BelowBelow(path, [part], child);
    var a, b := Below(path, soFar), Below(path + [part], child);
    assert (start.ops + a.ops) + b.ops == start.ops + (a.ops + b.ops);
    assert (start.marks + a.marks) + b.marks == start.marks + (a.marks + b.marks);
  }

  lemma RecordItem(norm: Normalizer, start: Transition, path: Path, before: Value, after: Value, n: nat)
    requires before.Arr? && after.Arr? && n < |before.items| && n < |after.items|
    ensures Join(Join(start, Below(path, DiffItems(norm, before, after, n))),
                 Below(path + [Index(n)], Diff(norm, before.items[n], after.items[n]))) ==
            Join(start, Below(path, DiffItems(norm, before, after, n + 1)))
  {
    JoinBelow(start, path, DiffItems(norm, before, after, n), Index(n), Diff(norm, before.items[n], after.items[n]));
  }

  lemma RecordField(norm: Normalizer, start: Transition, path: Path, before: Value, after: Value, keys: seq<string>, n: nat)
    requires before.Obj? && after.Obj? && n < |keys|
    requires forall k | k in keys :: k in before.fields && k in after.fields
    ensures keys[n] in keys
    ensures Join(Join(start, Below(path, DiffFields(norm, before, after, keys[..n]))),
                 Below(path + [Key(keys[n])], Diff(norm, before.fields[keys[n]], after.fields[keys[n]]))) ==
            Join(start, Below(path, DiffFields(norm, before, after, keys[..n + 1])))
  {
    assert keys[..n + 1][..n] == keys[..n];
    JoinBelow(start, path, DiffFields(norm, before, after, keys[..n]),
              Key(keys[n]), Diff(norm, before.fields[keys[n]], after.fields[keys[n]]));
  }

  lemma JoinSame(start: Transition, path: Path)
    ensures Join(start, Below(path, SAME)) == start
  {
    assert Below(path, SAME) == SAME;
    assert start.ops + [] == start.ops && start.marks + [] == start.marks;
  }

  lemma JoinFromRoot(t: Transition)
    ensures Join(SAME, Below([], t)) == t
  {
    BelowRoot(t);
    assert [] + t.ops == t.ops && [] + t.marks == t.marks;
  }

  /** Walks two trees together and pushes what it finds onto its two lists. */
  class TransitionRecorder {
    var operations: seq<Op>
    var signatureParts: seq<Mark>
    var structural: bool

    constructor ()
      ensures Recorded() == SAME
    {
      operations, signatureParts, structural := [], [], false;
    }

    ghost function Recorded(): Transition
      reads this
    {
      Transition(operations, signatureParts, structural)
    }

    method Refused(path: Path, reason: Reason)
      modifies this
      ensures Recorded() == Join(old(Recorded()), Below(path, Refuse(reason)))
    {
      BelowSingle(path, Refuse(reason));
      structural := true;
      signatureParts := signatureParts + [Mismatch(path, reason)];
    }

    method Visit(norm: Normalizer, before: Value, after: Value, path: Path)
      modifies this
      ensures Recorded() == Join(old(Recorded()), Below(path, Diff(norm, before, after)))
      decreases before, 1, 0
    {
      JoinSame(Recorded(), path);
      if before.Num? && after.Num? {
        VisitNumbers(norm, before, after, path);
      } else if before.Primitive() && before == after {
      } else if before.Arr? || after.Arr? {
        if !before.Arr? || !after.Arr? || |before.items| != |after.items| {
          Refused(path, ArrayShape);
        } else {
          VisitItems(norm, before, after, path);
        }
      } else if before.Obj? || after.Obj? {
        if !before.Obj? || !after.Obj? {
          Refused(path, ObjectShape);
        } else if before.fields.Keys != after.fields.Keys {
          Refused(path, ObjectKeys);
        } else {
          VisitFields(norm, before, after, path);
        }
      } else if before.Primitive() && after.Primitive() {
        BelowSingle(path, Diff(norm, before, after));
        operations := operations + [Set(path, after)];
        signatureParts := signatureParts + [Became(path, after)];
      } else {
        Refused(path, TypeChange);
      }
    }

    method VisitNumbers(norm: Normalizer, before: Value, after: Value, path: Path)
      requires before.Num? && after.Num?
      modifies this
      ensures Recorded() == Join(old(Recorded()), Below(path, Diff(norm, before, after)))
    {
      var delta := norm(after.n - before.n);
      if delta != 0.0 || before.n != after.n {
        var d := SearchDigits(before.n);
        var d' := SearchDigits(after.n);
        BelowSingle(path, Diff(norm, before, after));
        operations := operations + [Add(path, after.n - before.n, MaxNat(d, d'))];
        signatureParts := signatureParts + [Delta(path, delta)];
      } else {
        JoinSame(Recorded(), path);
      }
    }

    method VisitItems(norm: Normalizer, before: Value, after: Value, path: Path)
      requires before.Arr? && after.Arr? && |before.items| == |after.items|
      modifies this
      ensures Recorded() == Join(old(Recorded()), Below(path, DiffItems(norm, before, after, |before.items|)))
      decreases before, 0, |before.items| + 1
    {
      JoinSame(Recorded(), path);
      VisitItemsFrom(norm, before, after, path, Recorded(), SAME);
    }

    method VisitItemsFrom(norm: Normalizer, before: Value, after: Value, path: Path, ghost start: Transition, ghost none: Transition)
      requires before.Arr? && after.Arr? && |before.items| == |after.items|
      requires none == DiffItems(norm, before, after, 0) && Recorded() == Join(start, Below(path, none))
      modifies this
      ensures Recorded() == Join(start, Below(path, DiffItems(norm, before, after, |before.items|)))
      decreases before, 0, |before.items|
    {
      ghost var done := none;
      var index := 0;
      while index < |before.items|
        invariant index <= |before.items| && done == DiffItems(norm, before, after, index)
        invariant Recorded() == Join(start, Below(path, done))
      {
        RecordItem(norm, start, path, before, after, index);
        Visit(norm, before.items[index], after.items[index], path + [Index(index)]);
        done := DiffItems(norm, before, after, index + 1);
        index := index + 1;
      }
    }

    method VisitFields(norm: Normalizer, before: Value, after: Value, path: Path)
      requires before.Obj? && after.Obj? && before.fields.Keys == after.fields.Keys
      modifies this
      ensures Recorded() ==
              Join(old(Recorded()), Below(path, DiffFields(norm, before, after, SortedKeys(before.fields.Keys))))
      decreases before, 0, 0
    {
      ghost var start := Recorded();
      JoinSame(start, path);
      var keys := SortedKeys(before.fields.Keys);
      var i := 0;
      while i < |keys|
        invariant i <= |keys|
        invariant Recorded() == Join(start, Below(path, DiffFields(norm, before, after, keys[..i])))
      {
        var key := keys[i];
        RecordField(norm, start, path, before, after, keys, i);
        Visit(norm, before.fields[key], after.fields[key], path + [Key(key)]);
        i := i + 1;
      }
      assert keys[..|keys|] == keys;
    }
  }

  method TransitionBetween(norm: Normalizer, previous: Value, current: Value) returns (t: Transition)
    ensures t == Diff(norm, previous, current)
  {
    var recorder := new TransitionRecorder();
    recorder.Visit(norm, previous, current, []);
    JoinFromRoot(Diff(norm, previous, current));
    t := Transition(recorder.operations, recorder.signatureParts, recorder.structural);
  }
}
