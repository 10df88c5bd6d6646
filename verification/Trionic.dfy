/** The greedy three-phase recogniser of trionic.ts, over numbers that are not NaN. */
module Trionic {

  predicate Rises(nums: seq<real>, i: int) {
    0 <= i < |nums| - 1 && nums[i] < nums[i + 1]
  }

  predicate Falls(nums: seq<real>, i: int) {
    0 <= i < |nums| - 1 && nums[i] > nums[i + 1]
  }

  ghost predicate Increasing(nums: seq<real>, from: int, to: int) {
    forall i :: from <= i < to ==> Rises(nums, i)
  }

  ghost predicate Decreasing(nums: seq<real>, from: int, to: int) {
    forall i :: from <= i < to ==> Falls(nums, i)
  }

  /** p and q split the array into a strictly increasing, a strictly decreasing and a strictly
      increasing run, each of at least one step. */
  ghost predicate Splits(nums: seq<real>, p: int, q: int) {
    && 0 < p < q < |nums| - 1
    && Increasing(nums, 0, p)
    && Decreasing(nums, p, q)
    && Increasing(nums, q, |nums| - 1)
  }

  ghost predicate IsTrionicArray(nums: seq<real>) {
    exists p, q :: Splits(nums, p, q)
  }

  /** Every split peaks where the first greedy run stops. */
  lemma PeakIsForced(nums: seq<real>, p: int, p': int, q': int)
    requires 0 <= p <= |nums| - 2 && Increasing(nums, 0, p) && (p == |nums| - 2 || !Rises(nums, p))
    requires Splits(nums, p', q')
    ensures p' == p
  {
    assert Falls(nums, p');
    assert p < p' ==> Rises(nums, p);
    assert p' < p ==> Rises(nums, p');
  }

  /** Every split turns up again where the second greedy run stops. */
  lemma ValleyIsForced(nums: seq<real>, p: int, q: int, q': int)
    requires 0 <= p <= q < |nums| && Decreasing(nums, p, q) && !Falls(nums, q)
    requires Splits(nums, p, q')
    ensures q' == q
  {
    assert q < q' ==> Falls(nums, q);
    assert q' < q ==> Falls(nums, q');
    assert Rises(nums, q');
  }

  /** isTrionic; p and q are where its first two loops stop. */
  method IsTrionic(nums: seq<real>) returns (result: bool, ghost peak: int, ghost valley: int)
    ensures result <==> IsTrionicArray(nums)
    ensures result ==> Splits(nums, peak, valley)
  {
    peak, valley := 0, 0;
    var n := |nums|;
    if n < 3 {
      return false, peak, valley;
    }
    var p := 0;
    while p < n - 2 && nums[p] < nums[p + 1]
      invariant 0 <= p <= n - 2 && Increasing(nums, 0, p)
    {
      p := p + 1;
    }
    peak := p;
    assert forall p', q' :: Splits(nums, p', q') ==> p' == p by {
      forall p', q' | Splits(nums, p', q') { PeakIsForced(nums, p, p', q'); }
    }
    if p == 0 {
      return false, peak, valley;
    }
    var q := p;
    while q < n - 1 && nums[q] > nums[q + 1]
      invariant p <= q <= n - 1 && Decreasing(nums, p, q)
    {
      q := q + 1;
    }
    valley := q;
    assert forall p', q' :: Splits(nums, p', q') ==> q' == q by {
      forall p', q' | Splits(nums, p', q') { ValleyIsForced(nums, p, q, q'); }
    }
    if q == p || q == n - 1 {
      return false, peak, valley;
    }
    while q < n - 1 && nums[q] < nums[q + 1]
      invariant valley <= q <= n - 1 && Increasing(nums, valley, q)
    {
      q := q + 1;
    }
    result := q == n - 1;
    assert result ==> Splits(nums, peak, valley);
    assert q < n - 1 ==> !Rises(nums, q);
    assert Splits(nums, peak, valley) ==> q == n - 1;
  }

  /** The splitting pair is unique. */
  lemma SplitIsUnique(nums: seq<real>, p: int, q: int, p': int, q': int)
    requires Splits(nums, p, q) && Splits(nums, p', q')
    ensures p == p' && q == q'
  {
    assert Falls(nums, p) && Rises(nums, q);
    PeakIsForced(nums, p, p', q');
    ValleyIsForced(nums, p, q, q');
  }

  function Mirror(nums: seq<real>): (m: seq<real>)
    ensures |m| == |nums|
  {
    seq(|nums|, i requires 0 <= i < |nums| => -nums[|nums| - 1 - i])
  }

  lemma MirrorSplits(nums: seq<real>, p: int, q: int)
    requires Splits(nums, p, q)
    ensures Splits(Mirror(nums), |nums| - 1 - q, |nums| - 1 - p)
  {
    var m, n := Mirror(nums), |nums|;
    forall i | 0 <= i < n - 1
      ensures Rises(m, i) <==> Rises(nums, n - 2 - i)
      ensures Falls(m, i) <==> Falls(nums, n - 2 - i)
    {
    }
    assert Increasing(m, 0, n - 1 - q) && Decreasing(m, n - 1 - q, n - 1 - p) && Increasing(m, n - 1 - p, n - 1);
  }

  /** Reversing and negating the array keeps the answer. */
  lemma MirrorKeepsAnswer(nums: seq<real>)
    ensures IsTrionicArray(Mirror(nums)) <==> IsTrionicArray(nums)
  {
    if IsTrionicArray(nums) {
      var p, q :| Splits(nums, p, q);
      MirrorSplits(nums, p, q);
    }
    if IsTrionicArray(Mirror(nums)) {
      var p, q :| Splits(Mirror(nums), p, q);
      MirrorSplits(Mirror(nums), p, q);
      assert Mirror(Mirror(nums)) == nums;
    }
  }
}
