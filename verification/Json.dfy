/** The JSON-like state trees that both factory analysers diff and patch. */
module Json {
  import opened Wrappers

  /** A state tree. Numbers are exact; an object is a finite map from key to value. */
  datatype Value =
    | Num(n: real)
    | Str(s: string)
    | Bool(b: bool)
    | Null
    | Undefined
    | Arr(items: seq<Value>)
    | Obj(fields: map<string, Value>)
  {
    predicate Primitive() {
      Str? || Bool? || Null? || Undefined?
    }
  }

  /** One step of a path: an object key or an array index. */
  datatype Part = Key(name: string) | Index(i: nat)

  type Path = seq<Part>

  // ----- the order of Array.prototype.sort on keys -----

  predicate Less(a: string, b: string) {
    if b == [] then false
    else if a == [] then true
    else a[0] < b[0] || (a[0] == b[0] && Less(a[1..], b[1..]))
  }

  lemma {:induction false} LessTotal(a: string, b: string)
    ensures Less(a, b) || a == b || Less(b, a)
    ensures !(Less(a, b) && Less(b, a))
    ensures !Less(a, a)
  {
    if a != [] && b != [] {
      LessTotal(a[1..], b[1..]);
      assert a == [a[0]] + a[1..] && b == [b[0]] + b[1..];
    }
    if a != [] {
      LessIrreflexive(a);
    }
  }

  lemma {:induction false} LessIrreflexive(a: string)
    ensures !Less(a, a)
  {
    if a != [] {
      LessIrreflexive(a[1..]);
    }
  }

  lemma {:induction false} LessTransitive(a: string, b: string, c: string)
    requires Less(a, b) && Less(b, c)
    ensures Less(a, c)
  {
    if a != [] && a[0] == b[0] == c[0] {
      LessTransitive(a[1..], b[1..], c[1..]);
    }
  }

  predicate IsLeast(k: string, keys: set<string>) {
    k in keys && forall j | j in keys :: j == k || Less(k, j)
  }

  lemma {:induction false} LeastExists(keys: set<string>)
    requires keys != {}
    ensures exists k :: IsLeast(k, keys)
  {
    var x :| x in keys;
    if keys == {x} {
      assert IsLeast(x, keys);
    } else {
      var rest := keys - {x};
      LeastExists(rest);
      var y :| IsLeast(y, rest);
      LessTotal(x, y);
      if Less(x, y) {
        forall j | j in keys ensures j == x || Less(x, j) {
          if j != x && j != y {
            LessTransitive(x, y, j);
          }
        }
        assert IsLeast(x, keys);
      } else {
        assert IsLeast(y, keys);
      }
    }
  }

  lemma LeastUnique(keys: set<string>, x: string, y: string)
    requires IsLeast(x, keys) && IsLeast(y, keys)
    ensures x == y
  {
    LessTotal(x, y);
  }

  predicate StrictlySorted(keys: seq<string>) {
    forall i, j | 0 <= i < j < |keys| :: Less(keys[i], keys[j])
  }

  /** The sorted key list of an object: every key once, in ascending order. */
  function SortedKeys(keys: set<string>): (ks: seq<string>)
    ensures StrictlySorted(ks)
    ensures forall k :: k in ks <==> k in keys
    ensures forall i, j | 0 <= i < j < |ks| :: ks[i] != ks[j]
    ensures |ks| == |keys|
  {
    if keys == {} then []
    else
      LeastExists(keys);
      assert forall x, y | IsLeast(x, keys) && IsLeast(y, keys) :: x == y by {
        forall x, y | IsLeast(x, keys) && IsLeast(y, keys) ensures x == y {
          LeastUnique(keys, x, y);
        }
      }
      var least :| IsLeast(least, keys);
      [least] + SortedKeys(keys - {least})
  }

  // ----- reading -----

  /** Whether a value can be stepped into at a part. A missing object key reads as undefined. */
  predicate CanHold(v: Value, part: Part) {
    (v.Obj? && part.Key?) || (v.Arr? && part.Index? && part.i < |v.items|)
  }

  function Child(v: Value, part: Part): Value
    requires CanHold(v, part)
  {
    if v.Arr? then v.items[part.i]
    else if part.name in v.fields then v.fields[part.name]
    else Undefined
  }

  function Replace(v: Value, part: Part, child: Value): Value
    requires CanHold(v, part)
  {
    if v.Arr? then Arr(v.items[part.i := child])
    else Obj(v.fields[part.name := child])
  }

  function At(v: Value, path: Path): Option<Value>
    decreases path
  {
    if path == [] then Some(v)
    else if CanHold(v, path[0]) then At(Child(v, path[0]), path[1..])
    else None
  }

  /** Every step of the path exists; nothing is read as undefined for lack of a key. */
  predicate Present(v: Value, path: Path)
    decreases path
  {
    path == [] ||
    (CanHold(v, path[0]) && (path[0].Key? ==> path[0].name in v.fields) && Present(Child(v, path[0]), path[1..]))
  }

  // ----- numeric closeness -----

  function Abs(x: real): real {
    if x < 0.0 then -x else x
  }

  /** Same shape, equal non-numeric leaves, numeric leaves at most `e` apart. */
  predicate Close(e: real, v: Value, w: Value) {
    match v
    case Num(x) => w.Num? && Abs(x - w.n) <= e
    case Arr(xs) => w.Arr? && |xs| == |w.items| && forall i | 0 <= i < |xs| :: Close(e, xs[i], w.items[i])
    case Obj(m) => w.Obj? && m.Keys == w.fields.Keys && forall k | k in m :: Close(e, m[k], w.fields[k])
    case _ => v == w
  }

  lemma {:induction false} CloseRefl(e: real, v: Value)
    requires e >= 0.0
    ensures Close(e, v, v)
  {
    match v
    case Arr(xs) => forall i | 0 <= i < |xs| { CloseRefl(e, xs[i]); }
    case Obj(m) => forall k | k in m { CloseRefl(e, m[k]); }
    case _ =>
  }

  /** Closeness with no slack is equality. */
  lemma {:induction false} CloseZero(v: Value, w: Value)
    ensures Close(0.0, v, w) <==> v == w
  {
    CloseRefl(0.0, v);
    if Close(0.0, v, w) {
      match v
      case Arr(xs) =>
        forall i | 0 <= i < |xs| ensures xs[i] == w.items[i] { CloseZero(xs[i], w.items[i]); }
        assert xs == w.items;
      case Obj(m) =>
        forall k | k in m ensures m[k] == w.fields[k] { CloseZero(m[k], w.fields[k]); }
        assert m == w.fields;
      case _ =>
    }
  }

  lemma {:induction false} CloseWeaken(d: real, e: real, v: Value, w: Value)
    requires Close(d, v, w) && d <= e
    ensures Close(e, v, w)
  {
    match v
    case Arr(xs) => forall i | 0 <= i < |xs| { CloseWeaken(d, e, xs[i], w.items[i]); }
    case Obj(m) => forall k | k in m { CloseWeaken(d, e, m[k], w.fields[k]); }
    case _ =>
  }

  /** Close trees can be walked along the same paths, and what is found there is close. */
  lemma {:induction false} CloseAt(e: real, v: Value, w: Value, path: Path)
    requires Close(e, v, w)
    ensures At(v, path).Some? == At(w, path).Some?
    ensures At(v, path).Some? ==> Close(e, At(v, path).value, At(w, path).value)
    decreases path
  {
    if path != [] && CanHold(v, path[0]) {
      CloseAt(e, Child(v, path[0]), Child(w, path[0]), path[1..]);
    }
  }
}
