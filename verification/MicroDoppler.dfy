// Marks detections outshone by another detection of the same range bin.
module MicroDoppler {
  import opened Detection

  const NEAR_BINS: nat := 200
  const MARK: nat := 64

  /** The range bin a listed range stands for. */
  function RangeBin(t: Target): nat {
    t.range / RANGE_UNIT
  }

  /** The range field of range bin r stands for r again. */
  lemma RangeBinBack(t: Target, r: nat)
    requires t.range == r * RANGE_UNIT
    ensures RangeBin(t) == r
  {
  }

  /** Target i outshines target k: same near range bin, larger listed magnitude. */
  ghost predicate Outshines(p: seq<Target>, i: nat, k: nat)
    requires i < |p| && k < |p|
  {
    RangeBin(p[i]) < NEAR_BINS && RangeBin(p[i]) == RangeBin(p[k]) && p[i].mag > p[k].mag
  }

  ghost predicate Outshone(p: seq<Target>, n: nat, k: nat)
    requires n <= |p| && k < |p|
  {
    exists i :: 0 <= i < n && Outshines(p, i, k)
  }

  /** Outshone by a larger listed magnitude of the same range bin, one of the first 200. */
  lemma OutshoneIff(p: seq<Target>, n: nat, k: nat)
    requires k < n <= |p|
    ensures Outshone(p, n, k) <==>
            exists i :: 0 <= i < n && p[i].range / 192 == p[k].range / 192 < 200 && p[i].mag > p[k].mag
  {
    if Outshone(p, n, k) {
      var i :| 0 <= i < n && Outshines(p, i, k);
      assert p[i].mag > p[k].mag;
    } else {
      forall i | 0 <= i < n
        ensures !(p[i].range / 192 == p[k].range / 192 < 200 && p[i].mag > p[k].mag)
      {
        assert !Outshines(p, i, k);
      }
    }
  }

  method Mark(p: array<Target>, n: nat, prob: array<nat>)
    requires n <= p.Length == prob.Length
    modifies prob
    ensures forall k :: 0 <= k < n ==> prob[k] == if Outshone(p[..], n, k) then MARK else 0
    ensures forall k :: 0 <= k < n ==>
              (prob[k] == 64 <==> exists i :: 0 <= i < n && p[i].range / 192 == p[k].range / 192 < 200
                                              && p[i].mag > p[k].mag)
    ensures forall k :: n <= k < prob.Length ==> prob[k] == old(prob[k])
  {
    for i := 0 to n
      invariant forall k :: 0 <= k < i ==> prob[k] == 0
      invariant forall k :: n <= k < prob.Length ==> prob[k] == old(prob[k])
    {
      prob[i] := 0;
    }
    for i := 0 to n
      invariant forall k :: 0 <= k < n ==> prob[k] == if Outshone(p[..], i, k) then MARK else 0
      invariant forall k :: n <= k < prob.Length ==> prob[k] == old(prob[k])
    {
      var bin := RangeBin(p[i]);
      if bin < NEAR_BINS {
        for j := 0 to n
          invariant forall k :: 0 <= k < n ==>
                      prob[k] == if Outshone(p[..], i, k) || (k < j && Outshines(p[..], i, k)) then MARK else 0
          invariant forall k :: n <= k < prob.Length ==> prob[k] == old(prob[k])
        {
          if bin == RangeBin(p[j]) && p[i].mag > p[j].mag {
            prob[j] := MARK;
          }
        }
      }
    }
    forall k | 0 <= k < n
      ensures prob[k] == 64 <==> exists i :: 0 <= i < n && p[i].range / 192 == p[k].range / 192 < 200
                                             && p[i].mag > p[k].mag
    {
      OutshoneIff(p[..], n, k);
    }
  }

  /** Every marked target is outshone by one that stays unmarked. */
  lemma {:induction false} StrongestUnmarked(p: seq<Target>, n: nat, k: nat) returns (i: nat)
    requires k < n <= |p| && Outshone(p, n, k)
    ensures i < n && Outshines(p, i, k) && !Outshone(p, n, i)
    decreases Headroom(p, n) - p[k].mag
  {
    i :| 0 <= i < n && Outshines(p, i, k);
    HeadroomBound(p, n, i);
    if Outshone(p, n, i) {
      i := StrongestUnmarked(p, n, i);
    }
  }

  ghost function Headroom(p: seq<Target>, n: nat): nat
    requires n <= |p|
  {
    if n == 0 then 0 else Headroom(p, n - 1) + p[n - 1].mag
  }

  lemma {:induction false} HeadroomBound(p: seq<Target>, n: nat, i: nat)
    requires i < n <= |p|
    ensures p[i].mag <= Headroom(p, n)
  {
    if i < n - 1 {
      HeadroomBound(p, n - 1, i);
    }
  }
}
