# A verified model of the duel platform's judging core

The platform runs one-on-one coding duels. The backend judges a player's C code as follows:

- It checks the submission.
- It substitutes the code for the `{user_code}` placeholder of a per-problem C test harness.
- It compiles and runs the harness.
- It reads the harness's standard output back as one record per test case.

Each harness calls the player's function on a fixed table of cases. For case `n` (numbered from 1) it prints `TEST_<n>_STATUS=PASS|FAIL` and `TEST_<n>_MESSAGE=...`. It exits with 0 only when every case passed.

Around this core the model also covers:

- the two reference solutions (Two Sum, Longest Common Prefix);
- the credential check and the login endpoint;
- the two maintenance commands (seed the default problems, clear active duels);
- the small rules of the front end: the win streak, winner and opponent detection, the post-game numbers, the opponent's latest submission, the expand/collapse sets, description truncation, difficulty colours and the settings merge.

How each part is modelled:

- **Imperative code is modelled as methods with loops.** The output parser, both reference solutions, the harness loops, the seeding loop and the streak loop are each proved against a specification function. `ParseLines` is proved against `Parsed`, `RunCases` against `Render(Reports(..))`, `ProblemTable.Handle` against `SeedFrom`, and `CurrentStreak` against `LeadingWins`. What the source promises is then proved about those functions.
- **Code that is one expression is modelled as functions and lemmas.** This covers the decision chain of `execute_submission`, the validators and the front-end helpers.
- **The Problem and Duel tables are classes holding `rows: seq<..>`.** Their `Handle` methods reassign `rows`.
- **JavaScript values are one datatype, `Js.Value`.** It comes with truthiness, optional chaining, `===` and `typeof`.

The central results are:

- **The output round trip.** `CodeExecutor.HarnessOutputRoundTrip` and `CodeExecutor.HarnessRunClassified` state what the parser and `execute_submission` recover from harness output. Python reads that output in text mode, which turns "\r\n" and '\r' into '\n'. The round trip holds for any reports whose fields hold neither '\n' nor '\r' and do not end in whitespace. The parser recovers exactly keys "1".."N", each with the printed status and message. The verdict is `success` exactly when the harness exited with 0.
- **The harness verdict is the pass rule.** `IntHarness.RunCases` and `LcpHarness.RunCases` state that the harness prints the rendering of the case reports and exits with 0 iff every case passed. `IntHarness.OutcomeVerdict` and `LcpHarness.OutcomeVerdict` state that a case passes iff its answer matches.
- **The reference solutions pass their harnesses.** `IntHarness.TwoSumHarnessPasses` and `LcpHarness.HarnessPasses` state that any solution meeting the reference solution's postcondition passes its harness.

Two differences between the front-end screens are proved outright:

- `VictoryDefeat.MissingNamesMatch`: for any duel, a winner object without a `username` counts as a victory for any current user object without one, because `undefined === undefined`.
- `OpponentPanel.OpponentRulesDiffer`: for any duel without `player1` and any user object without an `id`, the game panel picks `player1` and the end-of-game screen picks `player2`. The two differ whenever the players differ.

## Model

| member | source | states |
|---|---|---|
| CodeExecutor.Step | backend/api/code_executor.py:56-69 | one line of output: the specification of a loop iteration, whose effects are stated by `IgnoredLine`, `IgnoredKey`, `StatusLineSets` and `MessageLineSets` |
| CodeExecutor.Parsed | backend/api/code_executor.py:52-70 | the record the parsing loop builds: `Step` folded over the lines from the first; `ParseLines` is proved to compute it and `ParsedRender` to recover the reported cases from it |
| CodeExecutor.ParseTestOutput | backend/api/code_executor.py:40-71 | the map built equals the fold of the one-line step over the stripped output split at '\n' |
| CodeExecutor.ParseLines | backend/api/code_executor.py:50-70 | the loop that creates entries on demand and sets one field per line computes the fold `Parsed` of its lines |
| CodeExecutor.IgnoredLine | backend/api/code_executor.py:52-57 | an empty line or a line without '=' leaves the result unchanged |
| CodeExecutor.IgnoredKey | backend/api/code_executor.py:59-69 | a key that is neither `TEST_.._STATUS` nor `TEST_.._MESSAGE` leaves the result unchanged, whatever the value |
| CodeExecutor.StatusLineSets | backend/api/code_executor.py:59-64 | a status line, split at its first '=', sets the status of test `key[5:-7]` to the value (which may hold '='), adds that key, keeps that test's message and every other test |
| CodeExecutor.MessageLineSets | backend/api/code_executor.py:59-69 | a message line sets the message of test `key[5:-8]`, keeps that test's status and every other test |
| CodeExecutor.KeyNumbers | backend/api/code_executor.py:60-66 | slicing `[5:-7]` / `[5:-8]` out of a printed key gives back the printed number, and a message key is never taken for a status key |
| CodeExecutor.ReportedEntries | backend/api/code_executor.py:43-47 | in the expected record of N reported cases, key "n" holds case n's status and message |
| CodeExecutor.ReportedKeys | backend/api/code_executor.py:43-47 | every key of the expected record is the decimal numeral of a case number between 1 and N |
| CodeExecutor.ReportedContents | backend/api/code_executor.py:43-47 | the expected record has exactly the keys "1".."N", each with its case's two fields |
| CodeExecutor.StatusStep | backend/api/code_executor.py:59-64 | the printed status line of case n sets the status of test "n", creating the entry when absent |
| CodeExecutor.MessageStep | backend/api/code_executor.py:59-69 | the printed message line of case n sets the message of test "n", creating the entry when absent |
| CodeExecutor.CaseLinesParsed | backend/api/code_executor.py:52-70 | the two lines of case n, after any lines, leave test "n" with exactly the printed status and message |
| CodeExecutor.ParsedRender | backend/api/code_executor.py:52-70 | parsing the lines printed for a run gives exactly the expected record |
| CodeExecutor.HarnessOutputRoundTrip | backend/api/code_executor.py:49-71 | reading in text mode, then stripping, splitting and parsing what a harness writes to standard output for single-line reports gives exactly the expected record |
| CodeExecutor.ErrorTests | backend/api/code_executor.py:88-97 | a failure verdict carries the single test "1" with status ERROR |
| CodeExecutor.Prepare | backend/api/code_executor.py:87-146 | a program is produced iff the code is a non-empty string of at most 10000 characters and the runner file is readable and holds `{user_code}`; that program is the harness with the code substituted; every rejection is an `error` with the single test "1" |
| CodeExecutor.Caught | backend/api/code_executor.py:212-241 | a caught exception gives neither success nor test_failed |
| CodeExecutor.DefaultTimeoutMessage | backend/api/code_executor.py:212-221 | with the default limit `MAX_EXECUTION_TIME = 2` (lines 25 and 74), a timeout reports "Execution timed out after 2 seconds." |
| CodeExecutor.Classify | backend/api/code_executor.py:158-210 | success and test_failed carry the non-empty parsed stdout of a finished run; every other status carries the single ERROR test "1" |
| CodeExecutor.ExecuteSubmission | backend/api/code_executor.py:73-241 | the same two guarantees for the whole submission |
| CodeExecutor.InvalidCodeRejected | backend/api/code_executor.py:88-97 | missing, non-string or empty code gives `error` "Invalid code submission." before anything else is looked at |
| CodeExecutor.LongCodeRejected | backend/api/code_executor.py:99-108 | code over 10000 characters gives `error` "Code exceeds maximum length of 10000 characters." before the runner file is looked at |
| CodeExecutor.MissingPlaceholderRejected | backend/api/code_executor.py:135-144 | valid code with a harness lacking the placeholder gives `error` "Placeholder {user_code} not in runner file.", whatever compiling and running would do |
| CodeExecutor.SubstituteSingle | backend/api/code_executor.py:146 | a harness with one placeholder between `before` and `after` becomes `before + code + after` |
| CodeExecutor.CompileFailureClassified | backend/api/code_executor.py:163-172 | a non-zero gcc return code gives `compilation_error` with gcc's stderr as the message |
| CodeExecutor.RunClassified | backend/api/code_executor.py:183-210 | a non-empty parse gives success iff the return code is 0 and test_failed otherwise, carrying the parse; an empty parse gives runtime_error with stderr when stderr is non-empty and `error` "Unexpected program behavior" otherwise |
| CodeExecutor.ValidSubmissionClassified | backend/api/code_executor.py:110-146 | once validation passes, the verdict is decided by compiling and running alone |
| CodeExecutor.HarnessRunClassified | backend/api/code_executor.py:174-189 | end to end: a valid submission whose harness printed at least one single-line report, read back in text mode, is success iff the harness exited 0 (test_failed otherwise), and its tests are exactly the reported ones |
| Text.Strip | backend/api/code_executor.py:49 | `strip()` as `rstrip` after `lstrip`; `TrimLeft`, `TrimRight` and `StripFinalNewline` state what it drops and keeps |
| Text.UniversalNewlines | backend/api/code_executor.py:174-177 | text-mode reading of the run's output (`text=True`) leaves no '\r' |
| Text.UniversalNewlinesKeep | backend/api/code_executor.py:174-177 | output without '\r' is read back unchanged |
| Text.CarriageReturnBreaksLine | backend/api/code_executor.py:174-177 | a lone '\r' inside a line, as in "a\rb", is read as a line break |
| Text.TrimLeft | backend/api/code_executor.py:49 | `lstrip` drops exactly the leading whitespace: the result is a suffix starting with a non-space, everything dropped is a space |
| Text.TrimRight | backend/api/code_executor.py:49 | `rstrip` drops exactly the trailing whitespace |
| Text.StripFinalNewline | backend/api/code_executor.py:49 | stripping a text that begins and ends with a non-space and has one '\n' appended gives the text back |
| Text.Split | backend/api/code_executor.py:49 | `split('\n')` gives at least one part, none holding the separator |
| Text.SplitJoin | backend/api/code_executor.py:49 | splitting the join of separator-free parts gives the parts back |
| Text.SplitAtFirst | backend/api/code_executor.py:59 | `split('=', 1)` gives a key without '=' and the rest, which joined with '=' rebuild the line |
| Text.SplitAtFirstOfKey | backend/api/code_executor.py:59 | a key without '=' followed by '=' and any value splits back into that key and value |
| Text.SliceToEnd | backend/api/code_executor.py:61 | `key[start:-fromEnd]` is the middle slice, or empty when the string is too short |
| Text.Replace | backend/api/code_executor.py:146 | `str.replace` of every non-overlapping occurrence from the left; `ReplaceAbsent`, `ReplaceFirst` and `ReplaceSingle` state its effect |
| Text.ReplaceAbsent | backend/api/code_executor.py:146 | `replace` on a text without the pattern changes nothing |
| Text.ReplaceFirst | backend/api/code_executor.py:146 | `replace` keeps the text before the first occurrence, emits the replacement, and continues after the occurrence |
| Text.ReplaceSingle | backend/api/code_executor.py:146 | a single occurrence is replaced and nothing else changes |
| Text.NatToString | backend/problem_tests/two_sum_test.c:49 | `%d` of a natural number is a non-empty string of decimal digits |
| Text.NatToStringValue | backend/problem_tests/two_sum_test.c:49 | reading the printed digits back gives the number |
| Text.NatToStringInjective | backend/problem_tests/two_sum_test.c:49 | different case numbers print as different keys |
| Text.IntToString | backend/problem_tests/two_sum_test.c:68-71 | `%d` of an integer ends in a digit and holds no newline |
| TestProtocol.Render | backend/problem_tests/two_sum_test.c:45-76 | a run of N cases prints exactly 2N lines |
| TestProtocol.RenderAt | backend/problem_tests/two_sum_test.c:45-76 | case i owns lines 2i and 2i+1: `TEST_<i+1>_STATUS=` with its status, then `TEST_<i+1>_MESSAGE=` with its message |
| TestProtocol.RenderSnoc | backend/problem_tests/two_sum_test.c:45-76 | one more case appends its two lines, numbered one past the previous cases |
| TestProtocol.AllPassSnoc | backend/problem_tests/two_sum_test.c:43-73 | all cases pass after one more iff all passed before and the new one passes, as the `all_passed` flag records |
| TestProtocol.StdoutIsJoin | backend/problem_tests/two_sum_test.c:49-50 | lines printed one `printf(..."\n")` each are their join with '\n' plus a final '\n' |
| TestProtocol.StdoutWithoutCarriageReturn | backend/problem_tests/two_sum_test.c:49-50 | lines without '\r' print as an output without '\r' |
| TestProtocol.RenderOneLine | backend/problem_tests/two_sum_test.c:63-71 | the printed lines of single-line reports hold neither '\n' nor '\r', the first begins with 'T' and the last does not end in whitespace |
| TwoSumSolution.TwoSum | backend/solutions/two_sum.c:1-19 | a returned buffer has two indices `0 <= i < j < |nums|` summing to the target, and no pair the loops visit earlier sums to it; NULL is returned iff no pair exists |
| TwoSumSolution.NoneIffNoPair | backend/solutions/two_sum.c:17-18 | an answer meeting the promise is NULL iff no pair exists |
| TwoSumSolution.FirstPairUnique | backend/solutions/two_sum.c:7-15 | the answer is determined by the input: two answers meeting the promise are equal |
| LcpSolution.MinLength | backend/solutions/longest_common_prefix.c:6-10 | the minimum length is at most every length and is the length of some string |
| LcpSolution.ShortestLength | backend/solutions/longest_common_prefix.c:5-10 | the first loop computes the minimum length over all strings |
| LcpSolution.LongestCommonPrefix | backend/solutions/longest_common_prefix.c:1-35 | no strings give ""; one string gives a copy of it; otherwise the result is a prefix of every string, no longer than the shortest, and shorter only where some string differs from the first at the result's length |
| LcpSolution.PrefixOfAll | backend/solutions/longest_common_prefix.c:21-33 | columns below n that agree everywhere make the first string's n-prefix a prefix of every string |
| LcpSolution.Longest | backend/solutions/longest_common_prefix.c:14-27 | every common prefix of the strings is a prefix of the answer |
| LcpSolution.Unique | backend/solutions/longest_common_prefix.c:1-35 | two answers meeting the promise are equal |
| IntHarness.Mismatch | backend/problem_tests/two_sum_test.c:66-72 | "Expected [e0, e1], Got [r0, r1]" fits on one line |
| IntHarness.Outcome | backend/problem_tests/two_sum_test.c:48-73 | the report of one Two Sum case, whose verdict and messages `OutcomeVerdict` states |
| IntHarness.OutcomeVerdict | backend/problem_tests/two_sum_test.c:48-73 | a case passes iff the answer is not NULL and its first `expectedSize` entries equal the expected ones; the status is PASS or FAIL; a pass has an empty message; NULL gives "Returned NULL"; both fields fit on one line |
| IntHarness.Reports | backend/problem_tests/two_sum_test.c:45-76 | one report per case, in table order, each the outcome of calling the function on that case |
| IntHarness.ReportsSnoc | backend/problem_tests/two_sum_test.c:45-76 | one more case adds its report at the end |
| IntHarness.Compare | backend/problem_tests/two_sum_test.c:55-61 | the comparison loop with its early `break` returns true iff the first `expectedSize` entries match (the same loop is at backend/problem_tests/test_template.c:39-45) |
| IntHarness.RunCase | backend/problem_tests/two_sum_test.c:46-73 | one iteration prints the two lines of the case's outcome, numbered n, and reports whether it passed |
| IntHarness.RunCases | backend/problem_tests/two_sum_test.c:42-78 | `main` prints exactly the rendering of the case reports and exits with 0 iff every case passed, 1 otherwise; the generic template's `main` (backend/problem_tests/test_template.c:26-62) is the same loop over its own table |
| IntHarness.ReportsPrintable | backend/problem_tests/two_sum_test.c:63-71 | every report of a run fits on one line, so the output round trip applies |
| IntHarness.TwoSumExpectedAreFirstPairs | backend/problem_tests/two_sum_test.c:18-40 | the expected answers [0,1], [1,2], [0,1] are the first pairs of their inputs |
| IntHarness.TwoSumCasePasses | backend/problem_tests/two_sum_test.c:18-65 | every answer meeting the Two Sum promise passes its case with an empty message |
| IntHarness.TwoSumHarnessPasses | backend/problem_tests/two_sum_test.c:18-78 | a solution meeting the Two Sum promise passes all three cases, so the harness exits with 0 |
| IntHarness.TemplateCasePasses | backend/problem_tests/test_template.c:16-49 | the template's case is a Two Sum case which a Two Sum answer passes |
| LcpHarness.Mismatch | backend/problem_tests/longest_common_prefix.c:45-49 | "Expected 'e', Got 'r'" fits on one line when neither string holds '\n' or '\r' |
| LcpHarness.Outcome | backend/problem_tests/longest_common_prefix.c:32-51 | the report of one prefix case, whose verdict and messages `OutcomeVerdict` states |
| LcpHarness.OutcomeVerdict | backend/problem_tests/longest_common_prefix.c:32-51 | a case passes iff the answer equals the expected string; PASS or FAIL; a pass has an empty message; NULL gives "Returned NULL"; both fields fit on one line when neither string holds '\n' or '\r' |
| LcpHarness.Reports | backend/problem_tests/longest_common_prefix.c:29-54 | one report per case, in table order |
| LcpHarness.ReportsSnoc | backend/problem_tests/longest_common_prefix.c:29-54 | one more case adds its report at the end |
| LcpHarness.RunCase | backend/problem_tests/longest_common_prefix.c:30-51 | one iteration prints the two lines of the case's outcome and reports whether it passed |
| LcpHarness.RunCases | backend/problem_tests/longest_common_prefix.c:26-56 | `main` prints exactly the rendering of the reports and exits with 0 iff every case passed, 1 otherwise |
| LcpHarness.ExpectedIsLongestCommonPrefix | backend/problem_tests/longest_common_prefix.c:17-24 | "fl" is the longest common prefix of "flower", "flow", "flight" |
| LcpHarness.CasePasses | backend/problem_tests/longest_common_prefix.c:17-43 | every answer meeting the solution's promise passes the case |
| LcpHarness.HarnessPasses | backend/problem_tests/longest_common_prefix.c:17-56 | such a solution makes the harness print a single passing case and exit with 0 |
| Auth.VerifyCredentials | backend/api/auth.py:20-25 | the credential check on the fixed dummy table; `AcceptedPairs`, `UnknownUserRejected` and `WrongPasswordRejected` state which pairs it accepts |
| Auth.AcceptedPairs | backend/api/auth.py:6-25 | exactly ("admin", "admin123") and ("user", "user123") are accepted |
| Auth.UnknownUserRejected | backend/api/auth.py:23 | a username not in the table is rejected whatever the password |
| Auth.WrongPasswordRejected | backend/api/auth.py:24 | a known username with another password is rejected |
| Views.LoginView | backend/api/views.py:6-20 | the login endpoint's response; `LoginDecision`, `MissingUsernameRefused` and `MissingPasswordRefused` state when it answers 200 |
| Views.LoginDecision | backend/api/views.py:6-20 | 200 iff both fields are present and non-empty, with "Login attempt for {username}."; otherwise 400 with the required-fields error |
| Views.MissingUsernameRefused | backend/api/views.py:12-20 | a missing or empty username gives 400 whatever the password |
| Views.MissingPasswordRefused | backend/api/views.py:12-20 | a missing or empty password gives 400 whatever the username |
| SeedProblems.SeedFrom | backend/api/management/commands/seed_problems.py:41-44 | the table after seeding a list of defaults in order, a title at a time; `ProblemTable.Handle` is proved to compute it and `SeedTitles` through `SeedIdempotent` state its effect |
| SeedProblems.SeedTitles | backend/api/management/commands/seed_problems.py:41-44 | afterwards the titles are the old ones together with every default title |
| SeedProblems.SeedKeepsRows | backend/api/management/commands/seed_problems.py:41-44 | existing rows stay, unchanged and in place; each added row is a default whose title was absent |
| SeedProblems.SeedCount | backend/api/management/commands/seed_problems.py:40-45 | the number of rows added is the number of default titles absent before, at most the number of defaults |
| SeedProblems.SeedNoop | backend/api/management/commands/seed_problems.py:42-43 | a table holding every default title is left unchanged |
| SeedProblems.AllPresentCount | backend/api/management/commands/seed_problems.py:42-44 | nothing is counted when every default title is present |
| SeedProblems.SeedIdempotent | backend/api/management/commands/seed_problems.py:41-44 | running the command twice is running it once, and the second run creates 0 |
| SeedProblems.DefaultsSeeded | backend/api/management/commands/seed_problems.py:7-45 | "Two Sum" and "Longest Common Prefix" are present afterwards, and the rows added equal the absent count, at most 2 |
| SeedProblems.ProblemTable.Handle | backend/api/management/commands/seed_problems.py:39-45 | the loop leaves the table at the seeded rows, counts the rows it added, and writes "Seeded N new problems." |
| ClearActiveDuels.CountActive | backend/api/management/commands/clear_active_duels.py:12-13 | the count is at most the number of rows and is 0 iff no duel is active |
| ClearActiveDuels.RemoveActive | backend/api/management/commands/clear_active_duels.py:14-15 | `delete()` removes exactly the active duels: a duel remains iff it was there and not active, and the row count drops by the active count |
| ClearActiveDuels.RemoveSnoc | backend/api/management/commands/clear_active_duels.py:14-15 | a row appended at the end stays at the end of the remaining rows exactly when it is not active |
| ClearActiveDuels.RemoveConcat | backend/api/management/commands/clear_active_duels.py:14-15 | `delete()` keeps the other duels in their order: deleting from a concatenation concatenates what remains of each part |
| ClearActiveDuels.AbandonActive | backend/api/management/commands/clear_active_duels.py:17-18 | `update(status='abandoned')` keeps the row count and every inactive duel, and marks exactly the active ones abandoned |
| ClearActiveDuels.NoActiveRemains | backend/api/management/commands/clear_active_duels.py:12-18 | in both modes no active duel remains |
| ClearActiveDuels.DuelTable.Handle | backend/api/management/commands/clear_active_duels.py:11-19 | the count is taken before the change; the table is the deleted or the abandoned one according to `--delete`; the report names the count |
| Js.StrictEqualsPrimitive | frontend/src/screens/GameScreen/VictoryDefeatScreen.js:23-26 | `===` is equality on primitive values and false on objects and arrays |
| Js.Toggle | frontend/src/screens/GameScreen/OpponentPanel.js:31-35 | the toggled set holds `id` iff the old one did not, and agrees with it on every other id; `toggleExpand` (frontend/src/screens/ProblemsScreen.js:43-51) is the same copy-then-flip |
| Js.ToggleTwice | frontend/src/screens/ProblemsScreen.js:43-51 | toggling the same id twice restores the set |
| UserHistory.LeadingWins | frontend/src/screens/GameScreen/hooks/useUserHistory.js:18-25 | the streak as the number of wins before the first non-win; `LeadingWinsBounds` and `LeadingWinsCharacterized` pin it down and `CurrentStreak` is proved to compute it |
| UserHistory.LeadingWinsBounds | frontend/src/screens/GameScreen/hooks/useUserHistory.js:18-25 | the streak is at most the number of matches, every match before it is a win, and the match at it, if any, is not |
| UserHistory.LeadingWinsCharacterized | frontend/src/screens/GameScreen/hooks/useUserHistory.js:18-25 | conversely, an all-win prefix ended by the list or by a non-win has the streak's length |
| UserHistory.CurrentStreak | frontend/src/screens/GameScreen/hooks/useUserHistory.js:18-25 | the loop with `break` computes the length of the longest all-win prefix |
| UserHistory.AssembleStats | frontend/src/screens/GameScreen/hooks/useUserHistory.js:27-31 | the object published from a history, whose fields `AssembledFields` states |
| UserHistory.AssembledFields | frontend/src/screens/GameScreen/hooks/useUserHistory.js:27-31 | the published object carries the computed streak and the matches, overriding same-named statistics, and every other spread property of the statistics unchanged |
| Js.Indexed | frontend/src/screens/GameScreen/hooks/useUserHistory.js:28 | spreading an array or a string gives exactly the properties "0".."n-1", each holding its element |
| UserHistory.FetchUserHistory | frontend/src/screens/GameScreen/hooks/useUserHistory.js:7-32 | a falsy username or a failed request leaves `userStats` as it was (null on a fresh mount); a successful one publishes the statistics with the streak and the matches |
| VictoryDefeat.Opponent | frontend/src/screens/GameScreen/VictoryDefeatScreen.js:14-16 | the end-of-game opponent; `OpponentIsTheOtherPlayer` and `OpponentPanel.OpponentRulesAgree`/`OpponentRulesDiffer` state whom it picks |
| VictoryDefeat.OpponentIsTheOtherPlayer | frontend/src/screens/GameScreen/VictoryDefeatScreen.js:14-16 | with distinct primitive player ids and a user who is one of the players, the opponent is the other player |
| VictoryDefeat.IsWinner | frontend/src/screens/GameScreen/VictoryDefeatScreen.js:20-27 | the victory test; `NoWinnerNoVictory`, `WinnerRecognised` and `MissingNamesMatch` state when it holds |
| VictoryDefeat.NoWinnerNoVictory | frontend/src/screens/GameScreen/VictoryDefeatScreen.js:20-21 | a falsy winner or a missing user is a defeat |
| VictoryDefeat.WinnerRecognised | frontend/src/screens/GameScreen/VictoryDefeatScreen.js:21-26 | a winner given as the user's name or id, or as an object carrying either, is recognised |
| VictoryDefeat.MissingNamesMatch | frontend/src/screens/GameScreen/VictoryDefeatScreen.js:20-25 | in any duel, a winner object without a `username` is a victory for every user object without one |
| VictoryDefeat.NewWins | frontend/src/screens/GameScreen/VictoryDefeatScreen.js:43 | the win count after this game; `NewWinsCounted` and `NewWinsFallback` state its value with and without stats |
| VictoryDefeat.NewWinsCounted | frontend/src/screens/GameScreen/VictoryDefeatScreen.js:43 | with stats, the new win count is `wins + 1` on a victory and `wins` on a defeat |
| VictoryDefeat.NewWinsFallback | frontend/src/screens/GameScreen/VictoryDefeatScreen.js:43 | without stats, the new win count is the user's `battles_won` when that is truthy and 0 otherwise, whatever the outcome |
| VictoryDefeat.NewStreak | frontend/src/screens/GameScreen/VictoryDefeatScreen.js:44-46 | the streak after this game; `NewStreakExtendsHistory` relates it to the history streak |
| VictoryDefeat.NewStreakExtendsHistory | frontend/src/screens/GameScreen/VictoryDefeatScreen.js:44-46 | the new streak is the streak of the recent matches with this game put in front |
| VictoryDefeat.RenderWinLoss | frontend/src/screens/GameScreen/VictoryDefeatScreen.js:49-51 | the win-loss display; `WinLossAddsUp` states what it shows |
| VictoryDefeat.WinLossAddsUp | frontend/src/screens/GameScreen/VictoryDefeatScreen.js:49-51 | the placeholder is shown iff there are no stats; otherwise wins are the stats' wins and wins plus losses are the games played |
| OpponentPanel.Opponent | frontend/src/screens/GameScreen/OpponentPanel.js:13-15 | the game panel's opponent; `OpponentRulesAgree` and `OpponentRulesDiffer` compare it with the end-of-game rule |
| OpponentPanel.OpponentRulesAgree | frontend/src/screens/GameScreen/OpponentPanel.js:13-15 | with `player1` present the panel picks the same opponent as the end-of-game screen |
| OpponentPanel.OpponentRulesDiffer | frontend/src/screens/GameScreen/OpponentPanel.js:13-15 | for a duel without `player1` and a user object without an `id`, the panel keeps `player1` while the end-of-game screen (VictoryDefeatScreen.js:14-16) picks `player2`; they differ whenever the players differ |
| OpponentPanel.FilterByOpponent | frontend/src/screens/GameScreen/OpponentPanel.js:20-21 | the filtered copy holds exactly the submissions whose player is truthy and has the opponent's id |
| OpponentPanel.FilterConcat | frontend/src/screens/GameScreen/OpponentPanel.js:20-21 | the filter keeps the original order: filtering a concatenation concatenates the filtered parts |
| OpponentPanel.Insert | frontend/src/screens/GameScreen/OpponentPanel.js:22 | one insertion step keeps the copy newest first and grows it by one |
| OpponentPanel.SortNewestFirst | frontend/src/screens/GameScreen/OpponentPanel.js:22 | the sorted copy is newest first and as long as the input |
| OpponentPanel.InsertPermutes | frontend/src/screens/GameScreen/OpponentPanel.js:22 | an insertion adds exactly the inserted submission |
| OpponentPanel.SortPermutes | frontend/src/screens/GameScreen/OpponentPanel.js:22 | the sorted copy is a permutation of the filtered submissions |
| OpponentPanel.SortedHead | frontend/src/screens/GameScreen/OpponentPanel.js:22-23 | the head of the stable sort is the first submission, in the original order, with the latest time |
| OpponentPanel.LatestOpponentSubmission | frontend/src/screens/GameScreen/OpponentPanel.js:18-24 | the head of the opponent's submissions sorted newest first; `LatestIsOpponentsNewest` states which submission that is |
| OpponentPanel.LatestIsOpponentsNewest | frontend/src/screens/GameScreen/OpponentPanel.js:18-24 | there is no latest submission iff the opponent submitted nothing; otherwise it is the opponent's, no submission of theirs is later, and it is the first of theirs with that time |
| OpponentPanel.Tests | frontend/src/screens/GameScreen/OpponentPanel.js:26 | the tests shown for the opponent; `NoSubmissionNoTests` states the null case |
| OpponentPanel.NoSubmissionNoTests | frontend/src/screens/GameScreen/OpponentPanel.js:26 | without a submission of the opponent the tests are null |
| ProblemsScreen.ToLower | frontend/src/screens/ProblemsScreen.js:35 | `toLowerCase` keeps the length and lower-cases each character |
| ProblemsScreen.ToUpper | frontend/src/screens/ProblemsScreen.js:91 | `toUpperCase` keeps the length and upper-cases each character |
| ProblemsScreen.LowerAbsorbsCase | frontend/src/screens/ProblemsScreen.js:35 | lower-casing after upper- or lower-casing gives the lower-cased text |
| ProblemsScreen.DifficultyColor | frontend/src/screens/ProblemsScreen.js:34-41 | the difficulty badge colour; `DifficultyColorIgnoresCase` through `UnknownDifficultyIsGray` state it for every difficulty |
| ProblemsScreen.DifficultyColorIgnoresCase | frontend/src/screens/ProblemsScreen.js:34-41 | the colour of a difficulty ignores its letter case |
| ProblemsScreen.EasyIsGreen | frontend/src/screens/ProblemsScreen.js:36 | "easy" and "EASY" are green |
| ProblemsScreen.MediumIsYellow | frontend/src/screens/ProblemsScreen.js:37 | "medium" and "Medium" are yellow |
| ProblemsScreen.HardIsRed | frontend/src/screens/ProblemsScreen.js:38 | "hard" and "HARD" are red |
| ProblemsScreen.UnknownDifficultyIsGray | frontend/src/screens/ProblemsScreen.js:39 | every other difficulty is gray |
| ProblemsScreen.Substring | frontend/src/screens/ProblemsScreen.js:60 | `substring` is a slice of the string: `s[start..end]` for ends in order within the string, `s[end..start]` for reversed ones, the whole string for ends beyond both sides |
| ProblemsScreen.DisplayDescription | frontend/src/screens/ProblemsScreen.js:53-61 | the description shown on a card; `DisplayDescriptionShape` and `ButtonMatchesTruncation` state when and how it is cut |
| ProblemsScreen.DisplayDescriptionShape | frontend/src/screens/ProblemsScreen.js:53-61 | unchanged when expanded or at most `maxLength` long; otherwise the first `maxLength` characters and "...", of length `maxLength + 3` |
| ProblemsScreen.ButtonMatchesTruncation | frontend/src/screens/ProblemsScreen.js:79-101 | without the expand button (150 characters or fewer) the whole description is shown; with it, the cut text until the card is expanded and the whole text once its id is toggled in |
| Settings.InitialSettings | frontend/src/context/SettingsContext.js:11-15 | the settings at start-up; `NothingSavedGivesDefaults` states them when nothing is saved |
| Settings.UpdateSettings | frontend/src/context/SettingsContext.js:22-24 | the merged keys are the old and the new ones; new keys take the new values, the others keep theirs |
| Settings.NothingSavedGivesDefaults | frontend/src/context/SettingsContext.js:4-15 | with nothing saved the settings are exactly `{theme: 'dark'}` |
| Settings.UpdateLaws | frontend/src/context/SettingsContext.js:23 | merging `{}` is the identity, merging the same update twice is merging it once, and two merges are one merge of their union |

## Left out

- The file system, gcc, the child process, its resource limits, the `uuid` file names and the cleanup in `execute_submission`. Their outcomes are inputs of `ExecuteSubmission`. The runner file is `NotFound`, `Unreadable` or its contents. Compiling gives an exception or a return code and stderr. Running gives an exception (timeout, memory, other) or stdout, a return code and stderr.
- `generate_token` is left out: it depends on the JWT library and the wall clock.
- `set_resource_limits` and the Windows branch are left out: they are OS configuration.
- TwoSumSolution.TwoSum: allocation is assumed to succeed, so the model never returns NULL for lack of memory. Sums are unbounded integers, so `nums[i] + nums[j]` never overflows. `free` is not modelled.
- LcpSolution.LongestCommonPrefix: allocation failure is left out, and strings hold no NUL character. This makes `strlen`, `strncpy` and `strcmp` the sequence operations.
- IntHarness.RunCases: requires every buffer read to stay in bounds (`InBounds`). The C harness reads `result[0]`, `result[1]` and the first `expectedSize` entries whatever the returned buffer's length. An out-of-bounds read is undefined behaviour, with no defined result to model.
- CodeExecutor.HarnessOutputRoundTrip: holds for reports whose fields hold neither '\n' nor '\r' and do not end in whitespace (`Printable`). A returned string containing '\n' or '\r' inside an LCP failure message would inject extra lines into the output that Python reads. `LcpHarness.OutcomeVerdict` states its single-line guarantee only for strings without either.
- Text mode also decodes the child's bytes with the locale's encoding. The model works on characters, so decoding is left out; only the line-ending translation (`UniversalNewlines`) is modelled.
- `CompileRaised(TimeoutExpired)`: gcc runs without a timeout, so this case cannot occur; the model admits it as one more caught exception.
- `isinstance(user_code, str)` is modelled as the `NotAString` alternative of the `user_code` argument.
- The `MemoryError` message is written as Python renders `50 * 1024 * 1024 / 1024 / 1024`, that is "50.0".
- Python dictionaries keep insertion order; the model's maps do not, and nothing proved here depends on the order.
- `login_view`: only string field values are modelled, present or absent. The truthiness of other JSON values (numbers, lists) is not.
- ClearActiveDuels.DuelTable.Handle: reports `Marked N` with the number of active rows `update()` changes, which equals the earlier `count()` because no other writer runs in between; concurrent writers are not modelled.
- `--delete` parsing by `argparse` is the `delete` parameter of `DuelTable.Handle`.
- The Django models file shown declares no Duel model and no `test_file` field. The rows are modelled with the fields the commands read and write.
- The network requests, polling, loading flags, timers and React state of the front end are left out. The result of the history request is a parameter of `FetchUserHistory`, and a failed request is `None`. React state kept across renders is reduced to one value: `FetchUserHistory` takes the `userStats` held before the effect runs, which is null only on a fresh mount.
- JavaScript `Date` parsing of `submission_time` is left out: times are integers.
- Reading a property of `null` or `undefined` throws in JavaScript. The model reads such a property as `undefined`. Examples are `match.result` on a null match and `latestOppSubmission.result.tests` on a null result.
- Submissions are records, so a null entry of `duel.submissions`, on which the filter's `s.player` would throw, cannot be represented.
- Object identity: `===` on two objects or arrays is modelled as false, since the model does not track references.
- VictoryDefeat.NewWins: `userStats` is modelled with integer `wins`, `total_games` and `current_streak` fields (`Stats`). The JavaScript arithmetic on missing or non-numeric fields (NaN, string concatenation) is not modelled.
- The win-rate percentage is left out because it is floating point. The rendering details, animations, sounds and the remaining presentation screens are left out too.
- `toLowerCase` and `toUpperCase` are modelled on ASCII letters only. String lengths count characters, not UTF-16 code units.
- The localStorage read and write and `JSON.parse` of the saved settings are left out. The saved value is a parameter of `InitialSettings`.
- The "Waiting for opponent..." branch of the opponent panel for a missing duel is left out because it is rendering only. The panel's functions take the duel that is present.
- The filter and sort of the opponent panel work on values. The duel's own `submissions` is therefore never reordered, as in the source, where the sort applies to the filtered copy.
