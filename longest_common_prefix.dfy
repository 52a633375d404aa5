/** The reference solution of "Longest Common Prefix": the length of the shortest string,
    then a scan of columns until some string differs from the first one. */
module LcpSolution {
  import opened Text

  /** The length of the shortest string, as the first loop of the solution finds it. */
  function MinLength(strs: seq<string>): (m: nat)
    requires |strs| > 0
    ensures forall k :: 0 <= k < |strs| ==> m <= |strs[k]|
    ensures exists k :: 0 <= k < |strs| && m == |strs[k]|
  {
    if |strs| == 1 then |strs[0]|
    else
      var m := MinLength(strs[..|strs| - 1]);
      assert forall k :: 0 <= k < |strs| - 1 ==> strs[..|strs| - 1][k] == strs[k];
      if |strs[|strs| - 1]| < m then |strs[|strs| - 1]| else m
  }

  /** What `longestCommonPrefix` answers: "" for no strings; otherwise a prefix of every
      string that stops at the shortest length or at a column where some string
      differs from the first. */
  ghost predicate IsLongestCommonPrefix(strs: seq<string>, r: string) {
    && (|strs| == 0 ==> r == "")
    && (forall k :: 0 <= k < |strs| ==> StartsWith(strs[k], r))
    && (|strs| > 0 ==> |r| <= MinLength(strs))
    && (|strs| > 0 && |r| < MinLength(strs) ==>
          exists j :: 0 <= j < |strs| && strs[j][|r|] != strs[0][|r|])
  }

  /** The first loop of `longestCommonPrefix`: the length of the shortest string. */
  method ShortestLength(strs: seq<string>) returns (minLen: nat)
    requires |strs| > 0
    ensures minLen == MinLength(strs)
    ensures forall k :: 0 <= k < |strs| ==> minLen <= |strs[k]|
  {
    minLen := |strs[0]|;
    for i := 1 to |strs|
      invariant minLen == MinLength(strs[..i])
    {
      assert strs[..i + 1][..i] == strs[..i];
      if |strs[i]| < minLen {
        minLen := |strs[i]|;
      }
    }
    assert strs[..|strs|] == strs;
  }

  /** `longestCommonPrefix` over strings without NUL characters, with allocation assumed
      to succeed. */
  method LongestCommonPrefix(strs: seq<string>) returns (r: string)
    ensures |strs| == 0 ==> r == ""
    ensures |strs| == 1 ==> r == strs[0]
    ensures forall k :: 0 <= k < |strs| ==> StartsWith(strs[k], r)
    ensures |strs| > 0 ==> |r| <= MinLength(strs)
    ensures |strs| > 0 && |r| < MinLength(strs) ==>
      exists j :: 0 <= j < |strs| && strs[j][|r|] != strs[0][|r|]
  {
    if |strs| == 0 {
      return "";
    }
    if |strs| == 1 {
      return strs[0];
    }
    var minLen := ShortestLength(strs);
    var i := 0;
    while i < minLen
      invariant 0 <= i <= minLen
      invariant forall k, p :: 0 <= k < |strs| && 0 <= p < i ==> strs[k][p] == strs[0][p]
    {
      var current := strs[0][i];
      for j := 1 to |strs|
        invariant forall k :: 1 <= k < j ==> strs[k][i] == current
      {
        if strs[j][i] != current {
          r := strs[0][..i];
          PrefixOfAll(strs, i);
          assert strs[j][|r|] != strs[0][|r|];
          return;
        }
      }
      i := i + 1;
    }
    r := strs[0][..minLen];
    PrefixOfAll(strs, minLen);
  }

  /** Columns below `n` that agree everywhere make `strs[0][..n]` a prefix of every string. */
  lemma PrefixOfAll(strs: seq<string>, n: nat)
    requires |strs| > 0 && n <= MinLength(strs)
    requires forall k, p :: 0 <= k < |strs| && 0 <= p < n ==> strs[k][p] == strs[0][p]
    ensures forall k :: 0 <= k < |strs| ==> StartsWith(strs[k], strs[0][..n])
  {
    forall k | 0 <= k < |strs| ensures StartsWith(strs[k], strs[0][..n]) {
      assert strs[k][..n] == strs[0][..n];
    }
  }

  /** The answer is the longest common prefix: every common prefix is a prefix of it. */
  lemma {:induction false} Longest(strs: seq<string>, r: string, p: string)
    requires |strs| > 0 && IsLongestCommonPrefix(strs, r)
    requires forall k :: 0 <= k < |strs| ==> StartsWith(strs[k], p)
    ensures StartsWith(r, p)
  {
    assert forall k, c :: 0 <= k < |strs| && 0 <= c < |p| ==> strs[k][c] == p[c] by {
      forall k, c | 0 <= k < |strs| && 0 <= c < |p| ensures strs[k][c] == p[c] {
        assert strs[k][..|p|][c] == strs[k][c];
      }
    }
    if |r| < MinLength(strs) {
      var j :| 0 <= j < |strs| && strs[j][|r|] != strs[0][|r|];
      assert |p| <= |r|;
    } else {
      var k0 :| 0 <= k0 < |strs| && MinLength(strs) == |strs[k0]|;
      assert |p| <= |strs[k0]|;
    }
    assert r == strs[0][..|r|] && p == strs[0][..|p|];
    assert r[..|p|] == strs[0][..|p|];
  }

  /** The answer is determined by the input. */
  lemma Unique(strs: seq<string>, r1: string, r2: string)
    requires IsLongestCommonPrefix(strs, r1) && IsLongestCommonPrefix(strs, r2)
    ensures r1 == r2
  {
    if |strs| > 0 {
      Longest(strs, r1, r2);
      Longest(strs, r2, r1);
    }
  }
}
