/** Attributes that dialogs write and later put back. */
module Inert {
  import opened Wrappers
  import opened Dom

  /** The inert attribute, the inert property and the aria-hidden attribute of an element. */
  datatype Attributes = Attributes(inert: Option<string>, property: bool, ariaHidden: Option<string>)

  const SEALED: Attributes := Attributes(Some(""), true, Some("true"))

  /** In a browser that reflects inert, property and attribute follow each other. */
  predicate Consistent(reflecting: bool, a: Attributes) {
    reflecting ==> a.property == a.inert.Some?
  }

  function SetProperty(reflecting: bool, a: Attributes, value: bool): Attributes {
    if reflecting && value then a.(property := true, inert := if a.inert.Some? then a.inert else Some(""))
    else if reflecting then a.(property := false, inert := None)
    else a.(property := value)
  }

  function SetInert(reflecting: bool, a: Attributes, value: Option<string>): Attributes {
    a.(inert := value, property := if reflecting then value.Some? else a.property)
  }

  function Seal(reflecting: bool, a: Attributes): Attributes {
    SetInert(reflecting, SetProperty(reflecting, a, true), Some("")).(ariaHidden := Some("true"))
  }

  /** Property first, then both attributes. */
  function PutBack(reflecting: bool, a: Attributes, was: Attributes): Attributes {
    SetInert(reflecting, SetProperty(reflecting, a, was.property), was.inert).(ariaHidden := was.ariaHidden)
  }

  /** Whether or not the browser reflects, sealing and putting back gives what was there. */
  lemma SealPutBack(reflecting: bool, a: Attributes)
    ensures Seal(reflecting, a) == SEALED
    ensures PutBack(reflecting, SEALED, a) == a <==> Consistent(reflecting, a)
  {
  }

  datatype Snapshot = Snapshot(count: nat, was: Attributes)

  predicate Distinct(s: seq<Element>) {
    forall i, j | 0 <= i < j < |s| :: s[i] != s[j]
  }

  function ToSet(s: seq<Element>): (r: set<Element>)
    ensures forall e :: e in r <==> e in s
  {
    set e | e in s
  }

  lemma DropLast(s: seq<Element>, n: nat)
    requires 1 <= n <= |s| && Distinct(s)
    ensures s[n - 1] in ToSet(s[..n]) && ToSet(s[..n]) - {s[n - 1]} == ToSet(s[..n - 1])
  {
    assert s[..n] == s[..n - 1] + [s[n - 1]];
  }

  class InertRegistry {
    const reflecting: bool
    /** What the elements carried before any dialog touched them. */
    ghost var original: map<Element, Attributes>
    var attributes: map<Element, Attributes>
    var snapshots: map<Element, Snapshot>
    var isolated: seq<Element>

    constructor (reflecting: bool, attributes: map<Element, Attributes>)
      requires forall e | e in attributes :: Consistent(reflecting, attributes[e])
      ensures Valid() && this.reflecting == reflecting && original == this.attributes == attributes && isolated == []
    {
      this.reflecting, this.attributes, original, snapshots, isolated := reflecting, attributes, attributes, map[], [];
    }

    ghost predicate Elsewhere(e: Element)
      reads this
    {
      e in attributes && e in original && attributes[e] == original[e] && e !in snapshots
    }

    ghost predicate Sealed(e: Element)
      reads this
    {
      && e in attributes && e in original && attributes[e] == SEALED
      && e in snapshots && snapshots[e] == Snapshot(1, original[e])
    }

    /** Exactly the elements of `s` are sealed, once each; all others carry their original attributes. */
    ghost predicate SealedExactly(s: set<Element>)
      reads this
    {
      && attributes.Keys == original.Keys
      && (forall e | e in original :: Consistent(reflecting, original[e]))
      && (forall e | e in s :: Sealed(e))
      && (forall e | e in attributes && e !in s :: Elsewhere(e))
      && snapshots.Keys == s
    }

    ghost predicate Valid()
      reads this
    {
      SealedExactly(ToSet(isolated)) && Distinct(isolated)
    }

    method Acquire(e: Element)
      requires e in attributes
      modifies this`attributes, this`snapshots
      ensures attributes == old(attributes)[e := SEALED]
      ensures snapshots == old(snapshots)[e :=
                if e in old(snapshots) then old(snapshots)[e].(count := old(snapshots)[e].count + 1)
                else Snapshot(1, old(attributes)[e])]
    {
      if e in snapshots {
        snapshots := snapshots[e := snapshots[e].(count := snapshots[e].count + 1)];
      } else {
        snapshots := snapshots[e := Snapshot(1, attributes[e])];
      }
      SealPutBack(reflecting, attributes[e]);
      attributes := attributes[e := Seal(reflecting, attributes[e])];
    }

    method Release(e: Element)
      requires e in attributes && (e in snapshots ==> snapshots[e].count >= 1)
      modifies this`attributes, this`snapshots
      ensures e !in old(snapshots) ==> attributes == old(attributes) && snapshots == old(snapshots)
      ensures e in old(snapshots) && old(snapshots)[e].count > 1 ==>
                && attributes == old(attributes)
                && snapshots == old(snapshots)[e := old(snapshots)[e].(count := old(snapshots)[e].count - 1)]
      ensures e in old(snapshots) && old(snapshots)[e].count == 1 ==>
                && attributes == old(attributes)[e := PutBack(reflecting, old(attributes)[e], old(snapshots)[e].was)]
                && snapshots == old(snapshots) - {e}
    {
      if e !in snapshots {
        return;
      }
      var snapshot := snapshots[e];
      if snapshot.count > 1 {
        snapshots := snapshots[e := snapshot.(count := snapshot.count - 1)];
        return;
      }
      snapshots := snapshots - {e};
      attributes := attributes[e := PutBack(reflecting, attributes[e], snapshot.was)];
    }

    method ReleaseOne(e: Element, ghost s: set<Element>)
      requires SealedExactly(s) && e in s
      modifies this`attributes, this`snapshots
      ensures SealedExactly(s - {e}) && attributes.Keys == old(attributes.Keys)
    {
      assert Sealed(e);
      SealPutBack(reflecting, original[e]);
      Release(e);
    }

    method AcquireOne(e: Element, ghost s: set<Element>)
      requires SealedExactly(s) && e in attributes && e !in s
      modifies this`attributes, this`snapshots
      ensures SealedExactly(s + {e}) && attributes.Keys == old(attributes.Keys)
    {
      assert Elsewhere(e);
      Acquire(e);
    }

    /** Releases everything isolated so far, last first. */
    method ReleaseAll()
      requires Valid()
      modifies this`attributes, this`snapshots
      ensures SealedExactly({}) && attributes.Keys == old(attributes.Keys)
    {
      var list := isolated;
      var n := |list|;
      ghost var left := ToSet(list);
      assert list[..n] == list;
      while n > 0
        invariant n <= |list| && left == ToSet(list[..n])
        invariant SealedExactly(left) && attributes.Keys == old(attributes.Keys)
      {
        DropLast(list, n);
        ReleaseOne(list[n - 1], left);
        n, left := n - 1, left - {list[n - 1]};
      }
    }

    /** Seals the elements of `next` one by one. */
    method AcquireAll(next: set<Element>) returns (order: seq<Element>)
      requires SealedExactly({}) && next <= attributes.Keys
      modifies this`attributes, this`snapshots
      ensures SealedExactly(next) && attributes.Keys == old(attributes.Keys)
      ensures ToSet(order) == next && Distinct(order)
    {
      order := [];
      var todo := next;
      ghost var done: set<Element> := {};
      while todo != {}
        invariant todo + done == next && todo !! done && SealedExactly(done) && attributes.Keys == old(attributes.Keys)
        invariant ToSet(order) == done && Distinct(order)
        decreases todo
      {
        var e :| e in todo;
        AcquireOne(e, done);
        order, todo, done := order + [e], todo - {e}, done + {e};
      }
    }

    /** Replaces what is isolated: afterwards exactly `next` is sealed, everything else is as it originally was. */
    method Replace(next: set<Element>)
      requires Valid() && next <= attributes.Keys
      modifies this`attributes, this`snapshots, this`isolated
      ensures Valid() && snapshots.Keys == next
      ensures forall e | e in attributes :: attributes[e] == if e in next then SEALED else original[e]
    {
      ReleaseAll();
      var order := AcquireAll(next);
      isolated := order;
      forall e | e in attributes ensures attributes[e] == if e in next then SEALED else original[e] {
        assert if e in next then Sealed(e) else Elsewhere(e);
      }
    }
  }

  // ----- scroll lock -----

  datatype Styles = Styles(bodyOverflow: string, rootOverflow: string, bodyOverscroll: string, rootOverscroll: string)

  const LOCKED: Styles := Styles("hidden", "hidden", "none", "none")

  datatype ScrollSnapshot = ScrollSnapshot(count: nat, was: Styles)

  class ScrollLock {
    ghost var original: Styles
    var styles: Styles
    var snapshot: Option<ScrollSnapshot>

    constructor (styles: Styles)
      ensures Valid() && Count() == 0 && original == this.styles == styles
    {
      this.styles, original, snapshot := styles, styles, None;
    }

    ghost function Count(): nat
      reads this
    {
      if snapshot.Some? then snapshot.value.count else 0
    }

    /** Locked styles while somebody holds the lock, the original ones otherwise. */
    ghost predicate Valid()
      reads this
    {
      match snapshot
      case Some(s) => s.count >= 1 && s.was == original && styles == LOCKED
      case None => styles == original
    }

    method Lock()
      requires Valid()
      modifies this`styles, this`snapshot
      ensures Valid() && Count() == old(Count()) + 1
    {
      if snapshot.Some? {
        snapshot := Some(snapshot.value.(count := snapshot.value.count + 1));
        return;
      }
      snapshot := Some(ScrollSnapshot(1, styles));
      styles := LOCKED;
    }

    method Unlock()
      requires Valid()
      modifies this`styles, this`snapshot
      ensures Valid() && Count() == if old(Count()) == 0 then 0 else old(Count()) - 1
    {
      if snapshot.None? {
        return;
      }
      if snapshot.value.count > 1 {
        snapshot := Some(snapshot.value.(count := snapshot.value.count - 1));
        return;
      }
      styles := snapshot.value.was;
      snapshot := None;
    }
  }
}
