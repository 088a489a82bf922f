/** Choosing an entry of the state queue with probability proportional to its priority. */
module PrioritySample {

  function Prefix(priorities: seq<real>, n: nat): real
    requires n <= |priorities|
  {
    if n == 0 then 0.0 else Prefix(priorities, n - 1) + priorities[n - 1]
  }

  ghost predicate NonNegative(priorities: seq<real>) {
    forall i :: 0 <= i < |priorities| ==> priorities[i] >= 0.0
  }

  /** The threshold lies in the entry's share of the total: above the sum before it, up to its own. */
  predicate InShare(priorities: seq<real>, i: nat, threshold: real)
    requires i < |priorities|
  {
    Prefix(priorities, i) < threshold <= Prefix(priorities, i + 1)
  }

  lemma {:induction false} PrefixMonotone(priorities: seq<real>, i: nat, j: nat)
    requires NonNegative(priorities) && i <= j <= |priorities|
    ensures Prefix(priorities, i) <= Prefix(priorities, j)
    decreases j
  {
    if i < j { PrefixMonotone(priorities, i, j - 1); }
  }

  /** The loop; the entry after it is a fallback. */
  method Sample(priorities: seq<real>, threshold: real) returns (i: nat, fellBack: bool)
    requires priorities != []
    ensures i < |priorities|
    ensures !fellBack ==> threshold <= Prefix(priorities, i + 1)
    ensures fellBack ==> i == |priorities| - 1
    ensures forall j :: 0 < j <= (if fellBack then |priorities| else i) ==> Prefix(priorities, j) < threshold
  {
    var k := 0.0;
    i := 0;
    while i < |priorities|
      invariant i <= |priorities| && k == Prefix(priorities, i)
      invariant forall j :: 0 < j <= i ==> Prefix(priorities, j) < threshold
    {
      k := k + priorities[i];
      if k >= threshold {
        return i, false;
      }
      i := i + 1;
    }
    return |priorities| - 1, true;
  }

  /** Shares are disjoint and each is as long as its entry's priority. */
  lemma SharesDisjoint(priorities: seq<real>, threshold: real, i: nat, j: nat)
    requires NonNegative(priorities) && i < |priorities| && j < |priorities|
    requires InShare(priorities, i, threshold) && InShare(priorities, j, threshold)
    ensures i == j && Prefix(priorities, i + 1) - Prefix(priorities, i) == priorities[i]
  {
    if i < j { PrefixMonotone(priorities, i + 1, j); }
    if j < i { PrefixMonotone(priorities, j + 1, i); }
  }

  /** For every threshold the draw can produce, the loop stops by itself; above zero it returns the
      one entry whose share contains the threshold, and at zero the first entry. */
  method SampleByShare(priorities: seq<real>, threshold: real) returns (i: nat)
    requires NonNegative(priorities) && priorities != [] && 0.0 <= threshold <= Prefix(priorities, |priorities|)
    ensures i < |priorities|
    ensures threshold > 0.0 ==> InShare(priorities, i, threshold)
    ensures forall j :: 0 <= j < |priorities| && InShare(priorities, j, threshold) ==> j == i
    ensures threshold == 0.0 ==> i == 0
  {
    var fellBack;
    i, fellBack := Sample(priorities, threshold);
    assert !fellBack by { assert !(Prefix(priorities, |priorities|) < threshold); }
    assert Prefix(priorities, 0) == 0.0;
    if threshold == 0.0 && i > 0 {
      PrefixMonotone(priorities, 0, i);
    }
    forall j | 0 <= j < |priorities| && InShare(priorities, j, threshold) ensures j == i {
      if threshold > 0.0 { SharesDisjoint(priorities, threshold, i, j); } else { PrefixMonotone(priorities, 0, j); }
    }
  }
}
