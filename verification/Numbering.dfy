/** Keeping and numbering the elements that a partial function accepts. */
module Numbering {
  import opened Wrappers

  /** Maps the first `n` elements, keeping what is accepted; each result is told its own number. */
  function KeepSome<A, B>(f: (A, nat) -> Option<B>, xs: seq<A>, n: nat): seq<B>
    requires n <= |xs|
  {
    if n == 0 then []
    else
      var rest := KeepSome(f, xs, n - 1);
      match f(xs[n - 1], |rest|)
      case Some(b) => rest + [b]
      case None => rest
  }

  /** The position of the element that the `i`-th result was made from. */
  ghost function Origin<A, B>(f: (A, nat) -> Option<B>, xs: seq<A>, n: nat, i: nat): (g: nat)
    requires n <= |xs| && i < |KeepSome(f, xs, n)|
    ensures g < n
  {
    if i < |KeepSome(f, xs, n - 1)| then Origin(f, xs, n - 1, i) else n - 1
  }

  lemma {:induction false} MadeFromOrigin<A, B>(f: (A, nat) -> Option<B>, xs: seq<A>, n: nat, i: nat)
    requires n <= |xs| && i < |KeepSome(f, xs, n)|
    ensures f(xs[Origin(f, xs, n, i)], i) == Some(KeepSome(f, xs, n)[i])
  {
    if i < |KeepSome(f, xs, n - 1)| {
      MadeFromOrigin(f, xs, n - 1, i);
    }
  }

  lemma {:induction false} OriginsIncrease<A, B>(f: (A, nat) -> Option<B>, xs: seq<A>, n: nat, i: nat, j: nat)
    requires n <= |xs| && i < j < |KeepSome(f, xs, n)|
    ensures Origin(f, xs, n, i) < Origin(f, xs, n, j)
  {
    if j < |KeepSome(f, xs, n - 1)| {
      OriginsIncrease(f, xs, n - 1, i, j);
    }
  }

  /** An element that is accepted under every number has a result. */
  lemma {:induction false} AcceptedIsKept<A, B>(f: (A, nat) -> Option<B>, xs: seq<A>, n: nat, k: nat) returns (i: nat)
    requires k < n <= |xs| && forall number: nat :: f(xs[k], number).Some?
    ensures i < |KeepSome(f, xs, n)| && f(xs[k], i) == Some(KeepSome(f, xs, n)[i])
  {
    if k == n - 1 {
      i := |KeepSome(f, xs, n - 1)|;
    } else {
      i := AcceptedIsKept(f, xs, n - 1, k);
    }
  }
}
