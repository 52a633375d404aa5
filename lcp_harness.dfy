/** The Longest Common Prefix harness: it calls the user's function on each case of its
    table, compares the returned string with the expected one, prints two lines per
    case and exits with 0 only when every case passed. */
module LcpHarness {
  import opened Wrappers
  import opened Text
  import opened TestProtocol
  import LcpSolution

  /** One entry of the harness's table of cases. */
  datatype StrCase = StrCase(strs: seq<string>, expected: string)

  /** The function under test: from the strings to the string it returns, or to NULL. */
  type Solution = seq<string> -> Option<string>

  /** The message of a wrong answer: both strings, each between single quotes. */
  function Mismatch(expected: string, got: string): (m: string)
    ensures '\n' !in expected && '\n' !in got && '\r' !in expected && '\r' !in got ==> OneLine(m)
  {
    var m := "Expected '" + expected + "', Got '" + got + "'";
    assert m == ("Expected '" + expected) + ("', Got '" + got + "'");
    assert m[|m| - 1] == '\'';
    m
  }

  /** The two printed values of a case. Strings hold no NUL, so `strcmp` is equality. */
  function Outcome(c: StrCase, res: Option<string>): Report {
    match res
    case None => Report("FAIL", "Returned NULL")
    case Some(got) => if got == c.expected then Report("PASS", "") else Report("FAIL", Mismatch(c.expected, got))
  }

  /** A case passes exactly when the answer is the expected string; a passing case has
      an empty message; and the lines stay single lines when neither string holds a
      line break ('\n' or '\r'). */
  lemma OutcomeVerdict(c: StrCase, res: Option<string>)
    ensures Outcome(c, res).status == "PASS" <==> res == Some(c.expected)
    ensures Outcome(c, res).status == "PASS" || Outcome(c, res).status == "FAIL"
    ensures Outcome(c, res).status == "PASS" ==> Outcome(c, res).message == ""
    ensures res.None? ==> Outcome(c, res).message == "Returned NULL"
    ensures '\n' !in c.expected && '\r' !in c.expected && (res.Some? ==> '\n' !in res.value && '\r' !in res.value) ==>
      OneLine(Outcome(c, res).status) && OneLine(Outcome(c, res).message)
  {
    FixedTextsOneLine();
    match res
    case None =>
      assert Outcome(c, res) == Report("FAIL", "Returned NULL");
    case Some(got) =>
      if got == c.expected {
        assert Outcome(c, res) == Report("PASS", "");
      } else {
        assert Outcome(c, res) == Report("FAIL", Mismatch(c.expected, got));
      }
  }

  /** The reports of a run, one per case in table order. */
  function Reports(f: Solution, cases: seq<StrCase>): (rs: seq<Report>)
    ensures |rs| == |cases|
    ensures forall i :: 0 <= i < |cases| ==> rs[i] == Outcome(cases[i], f(cases[i].strs))
  {
    if cases == [] then []
    else
      var prefix := cases[..|cases| - 1];
      assert forall i :: 0 <= i < |prefix| ==> prefix[i] == cases[i];
      Reports(f, prefix) + [Outcome(cases[|cases| - 1], f(cases[|cases| - 1].strs))]
  }

  /** One more case adds its report at the end. */
  lemma ReportsSnoc(f: Solution, cases: seq<StrCase>, i: nat)
    requires i < |cases|
    ensures Reports(f, cases[..i + 1]) == Reports(f, cases[..i]) + [Outcome(cases[i], f(cases[i].strs))]
  {
    PrefixOfPrefix(cases, i);
  }

  /** The body of `main`'s loop for case number `n`: the two lines it prints and whether
      the case passed. */
  method RunCase(f: Solution, c: StrCase, n: nat) returns (caseLines: seq<string>, testPassed: bool)
    ensures caseLines == CaseLines(n, Outcome(c, f(c.strs)))
    ensures testPassed <==> Outcome(c, f(c.strs)).status == "PASS"
  {
    var result := f(c.strs);
    if result.None? {
      return CaseLines(n, Report("FAIL", "Returned NULL")), false;
    }
    testPassed := result.value == c.expected;
    if testPassed {
      caseLines := CaseLines(n, Report("PASS", ""));
    } else {
      caseLines := CaseLines(n, Report("FAIL", Mismatch(c.expected, result.value)));
    }
  }

  /** `main` of the harness over the table `cases`: the lines it prints and its exit code. */
  method RunCases(f: Solution, cases: seq<StrCase>) returns (lines: seq<string>, exitCode: int)
    ensures lines == Render(Reports(f, cases))
    ensures exitCode == 0 <==> AllPass(Reports(f, cases))
    ensures exitCode == 0 || exitCode == 1
  {
    var allPassed := true;
    lines := [];
    for i := 0 to |cases|
      invariant lines == Render(Reports(f, cases[..i]))
      invariant allPassed <==> AllPass(Reports(f, cases[..i]))
    {
      var caseLines, testPassed := RunCase(f, cases[i], i + 1);
      ghost var outcome := Outcome(cases[i], f(cases[i].strs));
      ReportsSnoc(f, cases, i);
      RenderSnoc(Reports(f, cases[..i]), outcome);
      AllPassSnoc(Reports(f, cases[..i]), outcome);
      lines := lines + caseLines;
      if !testPassed {
        allPassed := false;
      }
    }
    assert cases[..|cases|] == cases;
    exitCode := if allPassed then 0 else 1;
  }

  /** The harness's table. */
  const Cases: seq<StrCase> := [StrCase(["flower", "flow", "flight"], "fl")]

  /** The expected answer of the table's case is its longest common prefix. */
  lemma ExpectedIsLongestCommonPrefix()
    ensures LcpSolution.IsLongestCommonPrefix(Cases[0].strs, Cases[0].expected)
  {
    var strs := Cases[0].strs;
    assert LcpSolution.MinLength(strs) == 4 by {
      assert strs[..2] == ["flower", "flow"];
      assert strs[..2][..1] == ["flower"];
    }
    assert strs[2][2] != strs[0][2];
  }

  /** Every answer meeting the promise of `longestCommonPrefix` passes the case. */
  lemma CasePasses(r: string)
    requires LcpSolution.IsLongestCommonPrefix(Cases[0].strs, r)
    ensures Outcome(Cases[0], Some(r)) == Report("PASS", "")
  {
    ExpectedIsLongestCommonPrefix();
    LcpSolution.Unique(Cases[0].strs, r, Cases[0].expected);
  }

  /** A solution that answers the table's input with its longest common prefix makes the
      harness print a passing case and exit with 0. */
  lemma HarnessPasses(f: Solution)
    requires f(Cases[0].strs).Some? && LcpSolution.IsLongestCommonPrefix(Cases[0].strs, f(Cases[0].strs).value)
    ensures Render(Reports(f, Cases)) == CaseLines(1, Report("PASS", ""))
    ensures AllPass(Reports(f, Cases))
  {
    var pass := Report("PASS", "");
    CasePasses(f(Cases[0].strs).value);
    var rs := Reports(f, Cases);
    assert |rs| == 1 && rs[0] == pass;
    assert rs == [] + [pass];
    RenderSnoc([], pass);
  }
}
