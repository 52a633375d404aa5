/** The submission executor: the parser that turns a harness's standard output back into
    per-test records, and the decision chain that validates a submission, substitutes it
    into the harness and classifies the outcome of compiling and running it. */
module CodeExecutor {
  import opened Wrappers
  import opened Text
  import opened TestProtocol

  // ---------------------------------------------------------------- parsing

  /** One test's record. Python creates it as `{}` and then sets the fields the lines
      mention, so either field may be absent. */
  datatype Entry = Entry(status: Option<string>, message: Option<string>)

  const NoFields: Entry := Entry(None, None)

  /** The effect of one output line on the result: one iteration of the parse loop. */
  function Step(result: map<string, Entry>, line: string): map<string, Entry> {
    if line == "" || '=' !in line then result
    else
      var kv := SplitAtFirst(line, '=');
      var key, value := kv.0, kv.1;
      if StartsWith(key, "TEST_") && EndsWith(key, "_STATUS") then
        var n := SliceToEnd(key, 5, 7);
        var e := if n in result then result[n] else NoFields;
        result[n := e.(status := Some(value))]
      else if StartsWith(key, "TEST_") && EndsWith(key, "_MESSAGE") then
        var n := SliceToEnd(key, 5, 8);
        var e := if n in result then result[n] else NoFields;
        result[n := e.(message := Some(value))]
      else
        result
  }

  /** The result once the loop has seen `lines`, in order. */
  function Parsed(lines: seq<string>): map<string, Entry> {
    if lines == [] then map[] else Step(Parsed(lines[..|lines| - 1]), lines[|lines| - 1])
  }

  /** The lines `parse_test_output` loops over. */
  function OutputLines(output: string): seq<string> {
    Split(Strip(output), '\n')
  }

  /** `parse_test_output`: the output is stripped and split into lines, and the loop
      builds the map keyed by test number in place. */
  method ParseTestOutput(output: string) returns (result: map<string, Entry>)
    ensures result == Parsed(OutputLines(output))
  {
    result := ParseLines(OutputLines(output));
  }

  /** The loop of `parse_test_output` over already split lines. */
  method ParseLines(lines: seq<string>) returns (result: map<string, Entry>)
    ensures result == Parsed(lines)
  {
    result := map[];
    for i := 0 to |lines|
      invariant result == Parsed(lines[..i])
    {
      var line := lines[i];
      assert lines[..i + 1] == lines[..i] + [line];
      ParsedSnoc(lines[..i], line);
      ghost var before := result;
      if line == "" {
        assert Step(before, line) == before;
        continue;
      }
      if '=' !in line {
        assert Step(before, line) == before;
        continue;
      }
      var kv := SplitAtFirst(line, '=');
      var key, value := kv.0, kv.1;
      if StartsWith(key, "TEST_") && EndsWith(key, "_STATUS") {
        var testNum := SliceToEnd(key, 5, 7);
        if testNum !in result {
          result := result[testNum := NoFields];
        }
        result := result[testNum := result[testNum].(status := Some(value))];
        assert result == Step(before, line);
      } else if StartsWith(key, "TEST_") && EndsWith(key, "_MESSAGE") {
        var testNum := SliceToEnd(key, 5, 8);
        if testNum !in result {
          result := result[testNum := NoFields];
        }
        result := result[testNum := result[testNum].(message := Some(value))];
        assert result == Step(before, line);
      } else {
        assert result == Step(before, line);
      }
    }
    assert lines[..|lines|] == lines;
  }

  lemma ParsedSnoc(lines: seq<string>, line: string)
    ensures Parsed(lines + [line]) == Step(Parsed(lines), line)
  {
    assert (lines + [line])[..|lines|] == lines;
  }

  /** Empty lines and lines without '=' contribute nothing. */
  lemma IgnoredLine(lines: seq<string>, line: string)
    requires line == "" || '=' !in line
    ensures Parsed(lines + [line]) == Parsed(lines)
  {
    ParsedSnoc(lines, line);
  }

  /** A line whose key is neither a status key nor a message key contributes nothing;
      the value after the first '=' does not matter. */
  lemma IgnoredKey(lines: seq<string>, key: string, value: string)
    requires '=' !in key
    requires !(StartsWith(key, "TEST_") && EndsWith(key, "_STATUS"))
    requires !(StartsWith(key, "TEST_") && EndsWith(key, "_MESSAGE"))
    ensures Parsed(lines + [key + "=" + value]) == Parsed(lines)
  {
    ParsedSnoc(lines, key + "=" + value);
    SplitAtFirstOfKey(key, '=', value);
  }

  /** `TEST_<n>_STATUS=v` sets the status of test `key[5:-7]` to `v`, keeping its message
      (if any) and every other test. The value may itself contain '='. A later line
      therefore overwrites an earlier status for the same test. */
  lemma StatusLineSets(lines: seq<string>, key: string, value: string)
    requires '=' !in key && StartsWith(key, "TEST_") && EndsWith(key, "_STATUS")
    ensures var before, after, n := Parsed(lines), Parsed(lines + [key + "=" + value]), SliceToEnd(key, 5, 7);
      && after.Keys == before.Keys + {n}
      && after[n].status == Some(value)
      && after[n].message == (if n in before then before[n].message else None)
      && forall k :: k in before && k != n ==> after[k] == before[k]
  {
    ParsedSnoc(lines, key + "=" + value);
    SplitAtFirstOfKey(key, '=', value);
  }

  /** `TEST_<n>_MESSAGE=v` sets the message of test `key[5:-8]` to `v`, keeping its
      status (if any) and every other test. */
  lemma MessageLineSets(lines: seq<string>, key: string, value: string)
    requires '=' !in key && StartsWith(key, "TEST_") && EndsWith(key, "_MESSAGE")
    ensures var before, after, n := Parsed(lines), Parsed(lines + [key + "=" + value]), SliceToEnd(key, 5, 8);
      && after.Keys == before.Keys + {n}
      && after[n].message == Some(value)
      && after[n].status == (if n in before then before[n].status else None)
      && forall k :: k in before && k != n ==> after[k] == before[k]
  {
    ParsedSnoc(lines, key + "=" + value);
    SplitAtFirstOfKey(key, '=', value);
    assert !EndsWith(key, "_STATUS") by {
      assert key[|key| - 1] == 'E';
    }
  }

  /** The test number sliced out of a printed key is the number that was printed. */
  lemma KeyNumbers(n: nat)
    ensures StartsWith(StatusKey(n), "TEST_") && EndsWith(StatusKey(n), "_STATUS")
    ensures SliceToEnd(StatusKey(n), 5, 7) == NatToString(n)
    ensures StartsWith(MessageKey(n), "TEST_") && EndsWith(MessageKey(n), "_MESSAGE")
    ensures !EndsWith(MessageKey(n), "_STATUS")
    ensures SliceToEnd(MessageKey(n), 5, 8) == NatToString(n)
  {
    var s, m := StatusKey(n), MessageKey(n);
    assert s[..5] == "TEST_" && s[|s| - 7..] == "_STATUS" && s[5..|s| - 7] == NatToString(n);
    assert m[..5] == "TEST_" && m[|m| - 8..] == "_MESSAGE" && m[5..|m| - 8] == NatToString(n);
    assert m[|m| - 1] == 'E';
  }

  /** What the parser should recover from a run that reported `rs`: test `i + 1` holds
      both printed fields. */
  function Reported(rs: seq<Report>): map<string, Entry> {
    if rs == [] then map[]
    else Reported(rs[..|rs| - 1])[NatToString(|rs|) := Entry(Some(rs[|rs| - 1].status), Some(rs[|rs| - 1].message))]
  }

  /** Case n of a run is reported under the key "n", with its status and message. */
  lemma {:induction false} ReportedEntries(rs: seq<Report>)
    ensures forall n :: 1 <= n <= |rs| ==>
      NatToString(n) in Reported(rs) && Reported(rs)[NatToString(n)] == Entry(Some(rs[n - 1].status), Some(rs[n - 1].message))
  {
    if rs != [] {
      var prefix := rs[..|rs| - 1];
      ReportedEntries(prefix);
      forall n | 1 <= n < |rs|
        ensures NatToString(n) != NatToString(|rs|) && prefix[n - 1] == rs[n - 1]
      {
        if NatToString(n) == NatToString(|rs|) { NatToStringInjective(n, |rs|); }
      }
    }
  }

  /** Every key of `Reported(rs)` is the decimal numeral of a case number 1 .. |rs|. */
  lemma {:induction false} ReportedKeys(rs: seq<Report>)
    ensures forall k :: k in Reported(rs) ==>
      (forall i :: 0 <= i < |k| ==> IsDigit(k[i])) && 1 <= DigitsValue(k) <= |rs| && k == NatToString(DigitsValue(k))
  {
    if rs != [] {
      ReportedKeys(rs[..|rs| - 1]);
      NatToStringValue(|rs|);
    }
  }

  /** The keys of `Reported(rs)` are exactly "1" .. "|rs|", each holding its case's status
      and message. */
  lemma ReportedContents(rs: seq<Report>)
    ensures forall n :: 1 <= n <= |rs| ==>
      NatToString(n) in Reported(rs) && Reported(rs)[NatToString(n)] == Entry(Some(rs[n - 1].status), Some(rs[n - 1].message))
    ensures forall k :: k in Reported(rs) ==>
      (forall i :: 0 <= i < |k| ==> IsDigit(k[i])) && 1 <= DigitsValue(k) <= |rs| && k == NatToString(DigitsValue(k))
  {
    ReportedEntries(rs);
    ReportedKeys(rs);
  }

  /** The status line of case `n` sets that case's status. */
  lemma StatusStep(result: map<string, Entry>, n: nat, status: string)
    ensures var k := NatToString(n);
      Step(result, StatusKey(n) + "=" + status) ==
        result[k := (if k in result then result[k] else NoFields).(status := Some(status))]
  {
    KeysAreOneLine(n);
    KeyNumbers(n);
    SplitAtFirstOfKey(StatusKey(n), '=', status);
  }

  /** The message line of case `n` sets that case's message. */
  lemma MessageStep(result: map<string, Entry>, n: nat, message: string)
    ensures var k := NatToString(n);
      Step(result, MessageKey(n) + "=" + message) ==
        result[k := (if k in result then result[k] else NoFields).(message := Some(message))]
  {
    KeysAreOneLine(n);
    KeyNumbers(n);
    SplitAtFirstOfKey(MessageKey(n), '=', message);
  }

  /** The two lines of case `n`, parsed after any lines, record both of its fields under
      the key "n". */
  lemma CaseLinesParsed(lines: seq<string>, n: nat, r: Report)
    ensures Parsed(lines + CaseLines(n, r)) ==
      Parsed(lines)[NatToString(n) := Entry(Some(r.status), Some(r.message))]
  {
    var a, b := StatusKey(n) + "=" + r.status, MessageKey(n) + "=" + r.message;
    assert lines + CaseLines(n, r) == (lines + [a]) + [b];
    ParsedSnoc(lines + [a], b);
    ParsedSnoc(lines, a);
    var before, mid := Parsed(lines), Parsed(lines + [a]);
    StatusStep(before, n, r.status);
    MessageStep(mid, n, r.message);
  }

  /** Parsing the lines of a run gives back exactly what was reported. */
  lemma {:induction false} ParsedRender(rs: seq<Report>)
    ensures Parsed(Render(rs)) == Reported(rs)
  {
    if rs != [] {
      var prefix, r := rs[..|rs| - 1], rs[|rs| - 1];
      ParsedRender(prefix);
      assert Render(rs) == Render(prefix) + CaseLines(|rs|, r);
      CaseLinesParsed(Render(prefix), |rs|, r);
    }
  }

  /** Round trip through standard output: what a harness prints for printable reports,
      once read in text mode, stripped and split into lines, parses to exactly the
      reported tests. */
  lemma HarnessOutputRoundTrip(rs: seq<Report>)
    requires Printable(rs)
    ensures Parsed(OutputLines(UniversalNewlines(Stdout(Render(rs))))) == Reported(rs)
  {
    var lines := Render(rs);
    if rs == [] {
      assert Stdout(lines) == "";
      assert UniversalNewlines("") == "";
      assert Split("", '\n') == [""];
      ParsedSnoc([], "");
      assert [""] == [] + [""];
    } else {
      RenderOneLine(rs);
      StdoutWithoutCarriageReturn(lines);
      UniversalNewlinesKeep(Stdout(lines));
      StdoutIsJoin(lines);
      var joined := Join(lines, '\n');
      JoinFirst(lines, '\n');
      JoinLast(lines, '\n');
      StripFinalNewline(joined);
      SplitJoin(lines, '\n');
      ParsedRender(rs);
    }
  }

  lemma {:induction false} JoinFirst(parts: seq<string>, sep: char)
    requires parts != [] && parts[0] != []
    ensures Join(parts, sep) != [] && Join(parts, sep)[0] == parts[0][0]
  {
  }

  lemma {:induction false} JoinLast(parts: seq<string>, sep: char)
    requires parts != [] && parts[|parts| - 1] != []
    ensures var j := Join(parts, sep);
      j != [] && j[|j| - 1] == parts[|parts| - 1][|parts[|parts| - 1]| - 1]
  {
    if |parts| > 1 {
      JoinLast(parts[1..], sep);
    }
  }

  // ------------------------------------------------------------- execution

  const MaxCodeLength: nat := 10000
  const MaxExecutionTime: int := 2
  const Placeholder: string := "{user_code}"

  /** The overall status of a submission, by the name the API returns. */
  datatype Status = Success | TestFailed | CompilationError | RuntimeError | Timeout | MemoryError | Error {
    function Name(): string {
      match this
      case Success => "success"
      case TestFailed => "test_failed"
      case CompilationError => "compilation_error"
      case RuntimeError => "runtime_error"
      case Timeout => "timeout"
      case MemoryError => "memory_error"
      case Error => "error"
    }
  }

  datatype Verdict = Verdict(status: Status, tests: map<string, Entry>)

  /** The `user_code` argument: Python accepts only a str that is not empty. */
  datatype UserCode = NotAString | Code(text: string)

  /** The runner file as the file system presents it. */
  datatype RunnerFile = NotFound | Unreadable(reason: string) | Contents(text: string)

  /** What the `try` block can raise and the executor catches. */
  datatype Raised = TimeoutExpired | OutOfMemory | OtherException(text: string)

  /** Writing the substituted program and running gcc on it. gcc runs without a timeout,
      so `CompileRaised(TimeoutExpired)` cannot occur; admitting it only adds a case. */
  datatype Compilation = CompileRaised(compileError: Raised) | Compiled(returncode: int, stderr: string)

  /** Running the compiled program; `stdout` and `stderr` are the texts Python reads in
      text mode, with line endings already turned into '\n' (`UniversalNewlines`). */
  datatype Execution = RunRaised(runError: Raised) | Ran(stdout: string, returncode: int, stderr: string)

  /** The single test "1" with status ERROR that every failure verdict carries. */
  function ErrorTests(message: string): (tests: map<string, Entry>)
    ensures tests.Keys == {"1"} && tests["1"].status == Some("ERROR")
  {
    map["1" := Entry(Some("ERROR"), Some(message))]
  }

  /** `harness_code.replace("{user_code}", user_code)`. */
  function Substitute(harness: string, code: string): string {
    Replace(harness, Placeholder, code)
  }

  /** The validation phase: an error verdict, or the program that goes to the compiler. */
  datatype Prepared = Rejected(verdict: Verdict) | Program(source: string)

  function Prepare(userCode: UserCode, runner: RunnerFile): (p: Prepared)
    ensures p.Program? <==> userCode.Code? && 0 < |userCode.text| <= MaxCodeLength
                            && runner.Contents? && Contains(runner.text, Placeholder)
    ensures p.Program? ==> p.source == Substitute(runner.text, userCode.text)
    ensures p.Rejected? ==> p.verdict.status == Error && p.verdict.tests.Keys == {"1"}
  {
    if userCode.NotAString? || userCode.text == "" then
      Rejected(Verdict(Error, ErrorTests("Invalid code submission.")))
    else if |userCode.text| > MaxCodeLength then
      Rejected(Verdict(Error, ErrorTests("Code exceeds maximum length of " + NatToString(MaxCodeLength) + " characters.")))
    else match runner
      case NotFound =>
        Rejected(Verdict(Error, ErrorTests("Runner file not found.")))
      case Unreadable(reason) =>
        Rejected(Verdict(Error, ErrorTests("Error reading runner file: " + reason)))
      case Contents(harness) =>
        if !Contains(harness, Placeholder) then
          Rejected(Verdict(Error, ErrorTests("Placeholder {user_code} not in runner file.")))
        else
          Program(Substitute(harness, userCode.text))
  }

  /** The verdict for an exception caught by the `except` clauses. */
  function Caught(e: Raised, timeout: int): (v: Verdict)
    ensures v.status != Success && v.status != TestFailed
  {
    match e
    case TimeoutExpired =>
      Verdict(Timeout, ErrorTests("Execution timed out after " + IntToString(timeout) + " seconds."))
    case OutOfMemory =>
      Verdict(MemoryError, ErrorTests("Memory limit exceeded (50.0MB)"))
    case OtherException(text) =>
      Verdict(Error, ErrorTests("Unexpected error: " + text))
  }

  /** With the default limit of `MAX_EXECUTION_TIME` seconds, a run that times out
      reports a two-second limit. */
  lemma DefaultTimeoutMessage()
    ensures Caught(TimeoutExpired, MaxExecutionTime) ==
      Verdict(Timeout, ErrorTests("Execution timed out after 2 seconds."))
  {
    assert NatToString(2) == "2";
    assert IntToString(MaxExecutionTime) == "2";
    assert "Execution timed out after " + "2" + " seconds." == "Execution timed out after 2 seconds.";
  }

  /** The `try` block: classify the compilation and the run. */
  function Classify(compile: Compilation, run: Execution, timeout: int): (v: Verdict)
    ensures v.status == Success || v.status == TestFailed ==>
      run.Ran? && v.tests == Parsed(OutputLines(run.stdout)) && v.tests != map[]
    ensures v.status != Success && v.status != TestFailed ==>
      v.tests.Keys == {"1"} && v.tests["1"].status == Some("ERROR")
  {
    match compile
    case CompileRaised(e) => Caught(e, timeout)
    case Compiled(compileCode, compileErr) =>
      if compileCode != 0 then
        Verdict(CompilationError, ErrorTests(compileErr))
      else match run
        case RunRaised(e) => Caught(e, timeout)
        case Ran(stdout, returncode, stderr) =>
          var tests := Parsed(OutputLines(stdout));
          if tests != map[] then
            Verdict(if returncode == 0 then Success else TestFailed, tests)
          else if stderr != "" then
            Verdict(RuntimeError, ErrorTests(stderr))
          else
            Verdict(Error, ErrorTests("Unexpected program behavior"))
  }

  /** `execute_submission` with the file system, the compiler and the process abstracted
      as their outcomes: `compile` and `run` are what happens to `Prepare`'s program. */
  function ExecuteSubmission(userCode: UserCode, runner: RunnerFile, timeout: int,
                             compile: Compilation, run: Execution): (v: Verdict)
    ensures v.status == Success || v.status == TestFailed ==>
      run.Ran? && v.tests == Parsed(OutputLines(run.stdout)) && v.tests != map[]
    ensures v.status != Success && v.status != TestFailed ==>
      v.tests.Keys == {"1"} && v.tests["1"].status == Some("ERROR")
  {
    match Prepare(userCode, runner)
    case Rejected(verdict) => verdict
    case Program(_) => Classify(compile, run, timeout)
  }

  /** Code that is missing, not a string or empty is rejected first, whatever the
      runner file and the later steps would do. */
  lemma InvalidCodeRejected(userCode: UserCode, runner: RunnerFile, timeout: int, compile: Compilation, run: Execution)
    requires userCode == NotAString || userCode == Code("")
    ensures ExecuteSubmission(userCode, runner, timeout, compile, run)
      == Verdict(Error, ErrorTests("Invalid code submission."))
  {
  }

  /** Code longer than 10000 characters is rejected before the runner file is looked at. */
  lemma LongCodeRejected(code: string, runner: RunnerFile, timeout: int, compile: Compilation, run: Execution)
    requires |code| > MaxCodeLength
    ensures ExecuteSubmission(Code(code), runner, timeout, compile, run)
      == Verdict(Error, ErrorTests("Code exceeds maximum length of 10000 characters."))
  {
    LengthMessage();
  }

  lemma LengthMessage()
    ensures "Code exceeds maximum length of " + NatToString(MaxCodeLength) + " characters."
      == "Code exceeds maximum length of 10000 characters."
  {
    assert NatToString(1) == "1";
    assert NatToString(10) == "10";
    assert NatToString(100) == "100";
    assert NatToString(1000) == "1000";
    assert NatToString(10000) == "10000";
  }

  /** A runner file without the placeholder is an error, and nothing is compiled. */
  lemma MissingPlaceholderRejected(code: string, harness: string, timeout: int, compile: Compilation, run: Execution)
    requires 0 < |code| <= MaxCodeLength && !Contains(harness, Placeholder)
    ensures ExecuteSubmission(Code(code), Contents(harness), timeout, compile, run)
      == Verdict(Error, ErrorTests("Placeholder {user_code} not in runner file."))
  {
  }

  /** A harness with one placeholder, between `before` and `after`, compiles as
      `before + code + after`. */
  lemma SubstituteSingle(before: string, after: string, code: string)
    requires forall k: nat :: k != |before| ==> !IsAt(before + Placeholder + after, Placeholder, k)
    ensures Substitute(before + Placeholder + after, code) == before + code + after
  {
    var s := before + Placeholder + after;
    assert s[|before|..|before| + |Placeholder|] == Placeholder;
    ReplaceSingle(s, Placeholder, code, |before|);
    assert s[..|before|] == before;
    assert s[|before| + |Placeholder|..] == after;
  }

  /** A failed compilation reports gcc's standard error, whatever the run would do. */
  lemma CompileFailureClassified(rc: int, stderr: string, run: Execution, timeout: int)
    requires rc != 0
    ensures Classify(Compiled(rc, stderr), run, timeout) == Verdict(CompilationError, ErrorTests(stderr))
  {
  }

  /** How a finished run is classified: parsed tests decide success (exit code 0) or
      test failure; with none, a non-empty standard error is a runtime error; anything
      else is an error. */
  lemma RunClassified(compileErr: string, stdout: string, rc: int, stderr: string, timeout: int)
    ensures var v, tests := Classify(Compiled(0, compileErr), Ran(stdout, rc, stderr), timeout), Parsed(OutputLines(stdout));
      && (tests != map[] ==> v.tests == tests && (v.status == Success <==> rc == 0) && (v.status == TestFailed <==> rc != 0))
      && (tests == map[] && stderr != "" ==> v == Verdict(RuntimeError, ErrorTests(stderr)))
      && (tests == map[] && stderr == "" ==> v == Verdict(Error, ErrorTests("Unexpected program behavior")))
  {
  }

  /** A submission that passes validation is judged by the compile and run outcomes
      alone. */
  lemma ValidSubmissionClassified(code: string, harness: string, timeout: int, compile: Compilation, run: Execution)
    requires 0 < |code| <= MaxCodeLength && Contains(harness, Placeholder)
    ensures ExecuteSubmission(Code(code), Contents(harness), timeout, compile, run) == Classify(compile, run, timeout)
  {
  }

  /** End to end: a valid submission whose harness run printed printable reports for at
      least one case is a success exactly when the harness exited with 0, and its tests
      are the reported ones. */
  lemma HarnessRunClassified(code: string, harness: string, compileErr: string,
                             rs: seq<Report>, exitCode: int, stderr: string, timeout: int)
    requires 0 < |code| <= MaxCodeLength && Contains(harness, Placeholder)
    requires rs != [] && Printable(rs)
    ensures ExecuteSubmission(Code(code), Contents(harness), timeout, Compiled(0, compileErr),
                              Ran(UniversalNewlines(Stdout(Render(rs))), exitCode, stderr))
      == Verdict(if exitCode == 0 then Success else TestFailed, Reported(rs))
  {
    var out := UniversalNewlines(Stdout(Render(rs)));
    HarnessOutputRoundTrip(rs);
    ReportedContents(rs);
    assert NatToString(1) in Reported(rs);
    RunClassified(compileErr, out, exitCode, stderr, timeout);
    ValidSubmissionClassified(code, harness, timeout, Compiled(0, compileErr), Ran(out, exitCode, stderr));
  }
}
