/** The integer-array harnesses: the Two Sum harness and the generic problem template.
    Both call the user's function once per case of a fixed table, compare the first
    `expectedSize` entries of the returned buffer with the expected ones, print two
    lines per case and exit with 0 only when every case passed. */
module IntHarness {
  import opened Wrappers
  import opened Text
  import opened TestProtocol
  import TwoSumSolution

  /** One entry of a harness's table of cases. */
  datatype IntCase = IntCase(nums: seq<int>, target: int, expected: seq<int>, expectedSize: int)

  /** The function under test: from the numbers and the target to the buffer it
      returns, or to NULL. */
  type Solution = (seq<int>, int) -> Option<seq<int>>

  /** The harness reads entries 0 and 1 of both buffers and the first `expectedSize`
      entries of each; these reads stay inside the buffers. */
  predicate InBounds(c: IntCase, res: Option<seq<int>>) {
    && |c.expected| >= 2 && c.expectedSize <= |c.expected|
    && (res.Some? ==> |res.value| >= 2 && c.expectedSize <= |res.value|)
  }

  predicate AllInBounds(f: Solution, cases: seq<IntCase>) {
    forall i :: 0 <= i < |cases| ==> InBounds(cases[i], f(cases[i].nums, cases[i].target))
  }

  /** The first `expectedSize` entries of the answer are the expected ones. */
  predicate Matches(got: seq<int>, c: IntCase)
    requires InBounds(c, Some(got))
  {
    forall j :: 0 <= j < c.expectedSize ==> got[j] == c.expected[j]
  }

  /** The two printed values of a case: what it printed for a NULL answer, a matching
      answer and a wrong answer. */
  function Outcome(c: IntCase, res: Option<seq<int>>): Report
    requires InBounds(c, res)
  {
    match res
    case None => Report("FAIL", "Returned NULL")
    case Some(got) =>
      if Matches(got, c) then Report("PASS", "")
      else Report("FAIL", Mismatch(c.expected[0], c.expected[1], got[0], got[1]))
  }

  /** The message of a wrong answer: the two expected entries, then the two returned. */
  function Mismatch(e0: int, e1: int, r0: int, r1: int): (m: string)
    ensures OneLine(m)
  {
    var a, b, c, d := IntToString(e0), IntToString(e1), IntToString(r0), IntToString(r1);
    var m := "Expected [" + a + ", " + b + "], Got [" + c + ", " + d + "]";
    assert '\n' !in "Expected [" + a + ", " + b;
    assert '\n' !in "], Got [" + c + ", " + d + "]";
    assert '\r' !in "Expected [" + a + ", " + b;
    assert '\r' !in "], Got [" + c + ", " + d + "]";
    assert m == ("Expected [" + a + ", " + b) + ("], Got [" + c + ", " + d + "]");
    m
  }

  /** A case passes exactly when the answer is not NULL and matches; a passing case
      has an empty message, and every status and message fits on one line. */
  lemma OutcomeVerdict(c: IntCase, res: Option<seq<int>>)
    requires InBounds(c, res)
    ensures Outcome(c, res).status == "PASS" <==> res.Some? && Matches(res.value, c)
    ensures Outcome(c, res).status == "PASS" || Outcome(c, res).status == "FAIL"
    ensures Outcome(c, res).status == "PASS" ==> Outcome(c, res).message == ""
    ensures res.None? ==> Outcome(c, res).message == "Returned NULL"
    ensures OneLine(Outcome(c, res).status) && OneLine(Outcome(c, res).message)
  {
    FixedTextsOneLine();
    match res
    case None =>
      assert Outcome(c, res) == Report("FAIL", "Returned NULL");
    case Some(got) =>
      if Matches(got, c) {
        assert Outcome(c, res) == Report("PASS", "");
      } else {
        assert Outcome(c, res) == Report("FAIL", Mismatch(c.expected[0], c.expected[1], got[0], got[1]));
      }
  }

  /** The reports of a run, one per case in table order. */
  function Reports(f: Solution, cases: seq<IntCase>): (rs: seq<Report>)
    requires AllInBounds(f, cases)
    ensures |rs| == |cases|
    ensures forall i :: 0 <= i < |cases| ==> rs[i] == Outcome(cases[i], f(cases[i].nums, cases[i].target))
  {
    if cases == [] then []
    else
      var prefix := cases[..|cases| - 1];
      assert forall i :: 0 <= i < |prefix| ==> prefix[i] == cases[i];
      Reports(f, prefix) + [Outcome(cases[|cases| - 1], f(cases[|cases| - 1].nums, cases[|cases| - 1].target))]
  }

  /** The comparison loop of `main`: it stops at the first entry that differs. */
  method Compare(got: seq<int>, c: IntCase) returns (testPassed: bool)
    requires InBounds(c, Some(got))
    ensures testPassed <==> Matches(got, c)
  {
    testPassed := true;
    var j := 0;
    while j < c.expectedSize
      invariant 0 <= j && (j <= c.expectedSize || j == 0)
      invariant forall k :: 0 <= k < j ==> got[k] == c.expected[k]
    {
      if got[j] != c.expected[j] {
        testPassed := false;
        break;
      }
      j := j + 1;
    }
  }

  lemma BoundsPrefix(f: Solution, cases: seq<IntCase>, i: nat)
    requires AllInBounds(f, cases) && i <= |cases|
    ensures AllInBounds(f, cases[..i])
  {
  }

  /** One more case adds its report at the end. */
  lemma ReportsSnoc(f: Solution, cases: seq<IntCase>, i: nat)
    requires AllInBounds(f, cases)
    requires i < |cases|
    ensures Reports(f, cases[..i + 1]) == Reports(f, cases[..i]) + [Outcome(cases[i], f(cases[i].nums, cases[i].target))]
  {
    PrefixOfPrefix(cases, i);
  }

  /** The body of `main`'s loop for case number `n`: the two lines it prints and whether
      the case passed. */
  method RunCase(f: Solution, c: IntCase, n: nat) returns (caseLines: seq<string>, testPassed: bool)
    requires InBounds(c, f(c.nums, c.target))
    ensures caseLines == CaseLines(n, Outcome(c, f(c.nums, c.target)))
    ensures testPassed <==> Outcome(c, f(c.nums, c.target)).status == "PASS"
  {
    var result := f(c.nums, c.target);
    if result.None? {
      return CaseLines(n, Report("FAIL", "Returned NULL")), false;
    }
    var got := result.value;
    testPassed := Compare(got, c);
    if testPassed {
      caseLines := CaseLines(n, Report("PASS", ""));
    } else {
      caseLines := CaseLines(n, Report("FAIL", Mismatch(c.expected[0], c.expected[1], got[0], got[1])));
    }
  }

  /** `main` of a harness over the table `cases`: the lines it prints and its exit code. */
  method RunCases(f: Solution, cases: seq<IntCase>) returns (lines: seq<string>, exitCode: int)
    requires AllInBounds(f, cases)
    ensures lines == Render(Reports(f, cases))
    ensures exitCode == 0 <==> AllPass(Reports(f, cases))
    ensures exitCode == 0 || exitCode == 1
  {
    var allPassed := true;
    lines := [];
    for i := 0 to |cases|
      invariant AllInBounds(f, cases[..i])
      invariant lines == Render(Reports(f, cases[..i]))
      invariant allPassed <==> AllPass(Reports(f, cases[..i]))
    {
      var caseLines, testPassed := RunCase(f, cases[i], i + 1);
      ghost var outcome := Outcome(cases[i], f(cases[i].nums, cases[i].target));
      BoundsPrefix(f, cases, i + 1);
      ReportsSnoc(f, cases, i);
      RenderSnoc(Reports(f, cases[..i]), outcome);
      AllPassSnoc(Reports(f, cases[..i]), outcome);
      lines := lines + caseLines;
      if !testPassed {
        allPassed := false;
      }
    }
    assert cases[..|cases|] == cases;
    exitCode := if allPassed then 0 else 1;
  }

  /** The reports of a run can be printed one per line. */
  lemma ReportsPrintable(f: Solution, cases: seq<IntCase>)
    requires AllInBounds(f, cases)
    ensures Printable(Reports(f, cases))
  {
    var rs := Reports(f, cases);
    forall i | 0 <= i < |rs| ensures OneLine(rs[i].status) && OneLine(rs[i].message) {
      OutcomeVerdict(cases[i], f(cases[i].nums, cases[i].target));
    }
  }

  /** The Two Sum harness's table. */
  const TwoSumCases: seq<IntCase> := [
    IntCase([2, 7, 11, 15], 9, [0, 1], 2),
    IntCase([3, 2, 4], 6, [1, 2], 2),
    IntCase([3, 3], 6, [0, 1], 2)
  ]

  /** The problem template's table. */
  const TemplateCases: seq<IntCase> := [IntCase([1, 2, 3], 5, [1, 2], 2)]

  /** The expected answers of the Two Sum table are the first pairs the reference
      solution finds. */
  lemma TwoSumExpectedAreFirstPairs(k: nat)
    requires k < |TwoSumCases|
    ensures TwoSumSolution.IsFirstPair(TwoSumCases[k].nums, TwoSumCases[k].target, Some(TwoSumCases[k].expected))
  {
    var c := TwoSumCases[k];
    forall i, j | TwoSumSolution.VisitedBefore(i, j, c.expected[0], c.expected[1])
      ensures !TwoSumSolution.IsPair(c.nums, c.target, i, j)
    {
    }
  }

  /** Every answer meeting the Two Sum promise passes the case it answers. */
  lemma TwoSumCasePasses(k: nat, r: Option<seq<int>>)
    requires k < |TwoSumCases|
    requires TwoSumSolution.IsFirstPair(TwoSumCases[k].nums, TwoSumCases[k].target, r)
    ensures InBounds(TwoSumCases[k], r)
    ensures Outcome(TwoSumCases[k], r) == Report("PASS", "")
  {
    TwoSumExpectedAreFirstPairs(k);
    TwoSumSolution.FirstPairUnique(TwoSumCases[k].nums, TwoSumCases[k].target, r, Some(TwoSumCases[k].expected));
  }

  /** A solution meeting the Two Sum promise on the harness's inputs passes every case,
      so the harness exits with 0. */
  lemma TwoSumHarnessPasses(f: Solution)
    requires forall k :: 0 <= k < |TwoSumCases| ==>
      TwoSumSolution.IsFirstPair(TwoSumCases[k].nums, TwoSumCases[k].target, f(TwoSumCases[k].nums, TwoSumCases[k].target))
    ensures AllInBounds(f, TwoSumCases) && AllPass(Reports(f, TwoSumCases))
  {
    forall k | 0 <= k < |TwoSumCases|
      ensures InBounds(TwoSumCases[k], f(TwoSumCases[k].nums, TwoSumCases[k].target))
      ensures Outcome(TwoSumCases[k], f(TwoSumCases[k].nums, TwoSumCases[k].target)) == Report("PASS", "")
    {
      TwoSumCasePasses(k, f(TwoSumCases[k].nums, TwoSumCases[k].target));
    }
  }

  /** The template's single case is a Two Sum case: an answer meeting the Two Sum promise
      passes it. */
  lemma TemplateCasePasses(r: Option<seq<int>>)
    requires TwoSumSolution.IsFirstPair(TemplateCases[0].nums, TemplateCases[0].target, r)
    ensures InBounds(TemplateCases[0], r)
    ensures Outcome(TemplateCases[0], r) == Report("PASS", "")
  {
    var c := TemplateCases[0];
    forall i, j | TwoSumSolution.VisitedBefore(i, j, 1, 2)
      ensures !TwoSumSolution.IsPair(c.nums, c.target, i, j)
    {
    }
    TwoSumSolution.FirstPairUnique(c.nums, c.target, r, Some(c.expected));
  }
}
