/** Finding the repeating block at the end of an observed trace. */
module Period {
  import opened Wrappers

  /** What the period search sees of one observed second. */
  datatype Beat<S(==)> = Beat(signature: S, structural: bool)

  /** The last `3 * p` beats are three equal blocks of length `p` without structural beats. */
  predicate Repeats<S(==)>(ts: seq<Beat<S>>, p: nat) {
    && 1 <= p && 3 * p <= |ts|
    && forall o | 0 <= o < p :: ThriceEqual(ts, p, o)
  }

  predicate ThriceEqual<S(==)>(ts: seq<Beat<S>>, p: nat, o: nat)
    requires o < p && 3 * p <= |ts|
  {
    var start := |ts| - p * 3;
    var first, second, third := ts[start + o], ts[start + p + o], ts[start + p * 2 + o];
    && !first.structural && !second.structural && !third.structural
    && first.signature == second.signature == third.signature
  }

  /** The result of the search: the least repeating length within the bound, or none. */
  predicate FoundPeriod<S(==)>(ts: seq<Beat<S>>, maximum: int, r: Option<nat>) {
    match r
    case Some(p) => p <= maximum && Repeats(ts, p) && forall q | 1 <= q < p :: !Repeats(ts, q)
    case None => forall q | 1 <= q <= maximum && q <= |ts| / 3 :: !Repeats(ts, q)
  }

  method FindPeriod<S(==)>(ts: seq<Beat<S>>, maximumPeriod: int) returns (r: Option<nat>)
    ensures FoundPeriod(ts, maximumPeriod, r)
  {
    var maximum := if maximumPeriod <= |ts| / 3 then maximumPeriod else |ts| / 3;
    var period: nat := 1;
    while period <= maximum
      invariant 1 <= period
      invariant forall q | 1 <= q < period :: !Repeats(ts, q)
      invariant period <= maximum + 1 || period == 1
    {
      var start := |ts| - period * 3;
      var matches := true;
      var offset := 0;
      while offset < period
        invariant 0 <= offset <= period
        invariant matches
        invariant forall o | 0 <= o < offset :: ThriceEqual(ts, period, o)
      {
        var first, second, third := ts[start + offset], ts[start + period + offset], ts[start + period * 2 + offset];
        if first.structural || second.structural || third.structural
           || first.signature != second.signature || second.signature != third.signature {
          assert !ThriceEqual(ts, period, offset);
          matches := false;
          break;
        }
        offset := offset + 1;
      }
      if matches {
        return Some(period);
      }
      assert !Repeats(ts, period);
      period := period + 1;
    }
    return None;
  }

  predicate Calm<S(==)>(ts: seq<Beat<S>>) {
    forall i | 0 <= i < |ts| :: !ts[i].structural
  }

  /** A contract falls back to the whole trace when it is calm but shows no short repetition. */
  predicate FoundContractPeriod<S(==)>(ts: seq<Beat<S>>, maximum: int, r: Option<nat>) {
    || (r.Some? && FoundPeriod(ts, maximum, r))
    || (FoundPeriod(ts, maximum, None) && r == if ts != [] && Calm(ts) then Some(|ts|) else None)
  }

  method FindContractPeriod<S(==)>(ts: seq<Beat<S>>, maximumPeriod: int) returns (r: Option<nat>)
    ensures FoundContractPeriod(ts, maximumPeriod, r)
    ensures r.Some? ==> 1 <= r.value <= |ts|
  {
    r := FindPeriod(ts, maximumPeriod);
    if r.Some? {
      return;
    }
    if |ts| > 0 {
      var i := 0;
      while i < |ts| && !ts[i].structural
        invariant 0 <= i <= |ts|
        invariant forall j | 0 <= j < i :: !ts[j].structural
      {
        i := i + 1;
      }
      r := if i == |ts| then Some(|ts|) else None;
    }
  }

  // ----- the block found is primitive -----

  function Power<S>(w: seq<S>, k: nat): (r: seq<S>)
    ensures |r| == k * |w|
  {
    if k == 0 then [] else Power(w, k - 1) + w
  }

  lemma {:induction false} PowerShift<S>(w: seq<S>, k: nat, i: nat)
    requires i + |w| < |Power(w, k)|
    ensures Power(w, k)[i] == Power(w, k)[i + |w|]
  {
    if k >= 2 {
      var inner := Power(w, k - 1);
      assert Power(w, k) == inner + w;
      if i + |w| < |inner| {
        PowerShift(w, k - 1, i);
      } else {
        assert inner == Power(w, k - 2) + w;
        assert inner[i] == w[i - |Power(w, k - 2)|];
      }
    }
  }

  function Signatures<S>(ts: seq<Beat<S>>): (r: seq<S>)
    ensures |r| == |ts| && forall i | 0 <= i < |ts| :: r[i] == ts[i].signature
  {
    seq(|ts|, i requires 0 <= i < |ts| => ts[i].signature)
  }

  lemma PowerLength(k: nat, q: nat)
    requires k >= 2 && k * q >= 1
    ensures q >= 1 && 2 * q <= k * q && (k >= 3 ==> 3 * q <= k * q) && q < k * q
  {
    assert k * q == 2 * q + (k - 2) * q;
    if k >= 3 {
      assert k * q == 3 * q + (k - 3) * q;
    }
  }

  /** Inside the last block `w^k`, shifting by `w` changes nothing. */
  lemma BlockShift<S>(ts: seq<Beat<S>>, p: nat, w: seq<S>, k: nat)
    requires 1 <= p <= |ts| && k >= 2
    requires Signatures(ts[|ts| - p..]) == Power(w, k)
    ensures 1 <= |w| < p && (p == 2 * |w| || 3 * |w| <= p)
    ensures forall i | |ts| - p <= i < |ts| - |w| :: ts[i].signature == ts[i + |w|].signature
  {
    PowerLength(k, |w|);
    var block := ts[|ts| - p..];
    forall i | |ts| - p <= i < |ts| - |w| ensures ts[i].signature == ts[i + |w|].signature {
      var j := i - (|ts| - p);
      PowerShift(w, k, j);
      assert Signatures(block)[j] == ts[i].signature && Signatures(block)[j + |w|] == ts[i + |w|].signature;
    }
  }

  /** The last three blocks are calm and repeat with their own length. */
  lemma BlocksShift<S>(ts: seq<Beat<S>>, p: nat)
    requires Repeats(ts, p)
    ensures forall i | |ts| - 3 * p <= i < |ts| :: !ts[i].structural
    ensures forall i | |ts| - 3 * p <= i < |ts| - p :: ts[i].signature == ts[i + p].signature
  {
    var start := |ts| - 3 * p;
    forall i | start <= i < |ts| ensures !ts[i].structural {
      assert ThriceEqual(ts, p, if i < start + p then i - start else if i < start + 2 * p then i - start - p else i - start - 2 * p);
    }
    forall i | start <= i < |ts| - p ensures ts[i].signature == ts[i + p].signature {
      assert ThriceEqual(ts, p, if i < start + p then i - start else i - start - p);
    }
  }

  /** In a trace whose last three blocks are `w^k`, the last three `w` are equal too. */
  lemma RepeatsShorter<S>(ts: seq<Beat<S>>, p: nat, w: seq<S>, k: nat)
    requires Repeats(ts, p) && k >= 2
    requires Signatures(ts[|ts| - p..]) == Power(w, k)
    ensures 1 <= |w| < p && Repeats(ts, |w|)
  {
    var n, q := |ts|, |w|;
    BlockShift(ts, p, w, k);
    BlocksShift(ts, p);
    forall i | n - 3 * q <= i < n - q ensures ts[i].signature == ts[i + q].signature {
      if i < n - p {
        assert ts[i].signature == ts[i + p].signature;
        assert ts[i + q].signature == ts[i + q + q].signature;
      }
    }
    forall o | 0 <= o < q ensures ThriceEqual(ts, q, o) {
      var start := n - q * 3;
      assert ts[start + o].signature == ts[start + o + q].signature;
      assert ts[start + q + o].signature == ts[start + q + o + q].signature;
    }
  }

  /** A detected block is never a repetition of a shorter word. */
  lemma DetectedBlockPrimitive<S>(ts: seq<Beat<S>>, maximum: int, p: nat, w: seq<S>, k: nat)
    requires FoundPeriod(ts, maximum, Some(p)) && k >= 2
    ensures Signatures(ts[|ts| - p..]) != Power(w, k)
  {
    if Signatures(ts[|ts| - p..]) == Power(w, k) {
      RepeatsShorter(ts, p, w, k);
    }
  }

  /**
   * The whole-trace fallback can only be a repetition of a word that occurs exactly twice
   * or is longer than the search bound.
   */
  lemma FallbackBlock<S>(ts: seq<Beat<S>>, maximum: int, w: seq<S>, k: nat)
    requires FoundPeriod(ts, maximum, None) && ts != [] && Calm(ts) && k >= 2
    requires Signatures(ts) == Power(w, k)
    ensures k == 2 || |w| > maximum
  {
    var n, q := |ts|, |w|;
    PowerLength(k, q);
    if k >= 3 && q <= maximum {
      assert ts[n - n..] == ts;
      BlockShift(ts, n, w, k);
      forall o | 0 <= o < q ensures ThriceEqual(ts, q, o) {
        var start := n - q * 3;
        assert ts[start + o].signature == ts[start + o + q].signature;
        assert ts[start + q + o].signature == ts[start + q + o + q].signature;
      }
      assert Repeats(ts, q);
    }
  }

  /** A trace that shows its word only twice falls back to a block that is not primitive. */
  lemma FallbackNotPrimitive()
    ensures var ts := [Beat(0, false), Beat(1, false), Beat(0, false), Beat(1, false)];
            FoundContractPeriod(ts, 20, Some(4)) && Signatures(ts) == Power([0, 1], 2)
  {
    var ts := [Beat(0, false), Beat(1, false), Beat(0, false), Beat(1, false)];
    assert !ThriceEqual(ts, 1, 0);
    assert FoundPeriod(ts, 20, None);
    assert Power([0, 1], 1) == [0, 1];
    assert Power([0, 1], 2) == Power([0, 1], 1) + [0, 1];
    assert Signatures(ts) == [0, 1, 0, 1];
  }
}
