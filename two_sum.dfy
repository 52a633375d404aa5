/** The reference solution of "Two Sum": nested loops over index pairs `i < j`,
    returning the first pair, in visiting order, whose values add up to the target. */
module TwoSumSolution {
  import opened Wrappers

  /** Indices `i < j`, both in range, whose values add up to `target`. */
  predicate IsPair(nums: seq<int>, target: int, i: int, j: int) {
    0 <= i < j < |nums| && nums[i] + nums[j] == target
  }

  /** The nested loops visit `(i, j)` before `(i', j')`. */
  predicate VisitedBefore(i: int, j: int, i': int, j': int) {
    i < i' || (i == i' && j < j')
  }

  /** What `twoSum` answers: NULL when no pair exists, otherwise a two-element buffer
      holding the first pair the loops meet. */
  ghost predicate IsFirstPair(nums: seq<int>, target: int, r: Option<seq<int>>) {
    match r
    case None => forall i, j :: !IsPair(nums, target, i, j)
    case Some(p) =>
      && |p| == 2 && IsPair(nums, target, p[0], p[1])
      && forall i, j :: VisitedBefore(i, j, p[0], p[1]) ==> !IsPair(nums, target, i, j)
  }

  /** `twoSum`, with allocation assumed to succeed and sums taken without overflow. */
  method TwoSum(nums: seq<int>, target: int) returns (r: Option<seq<int>>)
    ensures r.Some? ==> |r.value| == 2 && 0 <= r.value[0] < r.value[1] < |nums|
    ensures r.Some? ==> nums[r.value[0]] + nums[r.value[1]] == target
    ensures r.Some? ==> forall i, j :: IsPair(nums, target, i, j) ==> !VisitedBefore(i, j, r.value[0], r.value[1])
    ensures r.None? <==> forall i, j :: !IsPair(nums, target, i, j)
    ensures IsFirstPair(nums, target, r)
  {
    for i := 0 to |nums|
      invariant forall i', j' :: i' < i ==> !IsPair(nums, target, i', j')
    {
      for j := i + 1 to |nums|
        invariant forall i', j' :: i' < i ==> !IsPair(nums, target, i', j')
        invariant forall j' :: j' < j ==> !IsPair(nums, target, i, j')
      {
        if nums[i] + nums[j] == target {
          assert IsPair(nums, target, i, j);
          return Some([i, j]);
        }
      }
    }
    return None;
  }

  /** An answer is NULL exactly when no pair exists. */
  lemma NoneIffNoPair(nums: seq<int>, target: int, r: Option<seq<int>>)
    requires IsFirstPair(nums, target, r)
    ensures r.None? <==> forall i, j :: !IsPair(nums, target, i, j)
  {
    if r.Some? {
      assert IsPair(nums, target, r.value[0], r.value[1]);
    }
  }

  /** The answer is determined by the input: two answers meeting the promise agree. */
  lemma FirstPairUnique(nums: seq<int>, target: int, r1: Option<seq<int>>, r2: Option<seq<int>>)
    requires IsFirstPair(nums, target, r1) && IsFirstPair(nums, target, r2)
    ensures r1 == r2
  {
    NoneIffNoPair(nums, target, r1);
    NoneIffNoPair(nums, target, r2);
    if r1.Some? && r2.Some? {
      var p, q := r1.value, r2.value;
      assert !VisitedBefore(q[0], q[1], p[0], p[1]);
      assert !VisitedBefore(p[0], p[1], q[0], q[1]);
      assert p == [p[0], p[1]] && q == [q[0], q[1]];
    }
  }
}
