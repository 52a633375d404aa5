/** The `useUserHistory` hook: it fetches a user's history, counts the current win streak
    from the most recent matches and publishes the statistics with the streak added. */
module UserHistory {
  import opened Wrappers
  import opened Js

  /** A recent match counts as a win when its `result` is the string 'win'. */
  predicate IsWin(m: Value) {
    StrictEquals(Get(m, "result"), Str("win"))
  }

  /** The number of wins before the first match that is not a win. */
  function LeadingWins(ms: seq<Value>): nat {
    if ms == [] || !IsWin(ms[0]) then 0 else 1 + LeadingWins(ms[1..])
  }

  /** `LeadingWins` is the length of the longest all-win prefix: at most the number of
      matches, every match before it a win, and the match at it, if any, not a win. */
  lemma {:induction false} LeadingWinsBounds(ms: seq<Value>)
    ensures LeadingWins(ms) <= |ms|
    ensures forall i :: 0 <= i < LeadingWins(ms) ==> IsWin(ms[i])
    ensures LeadingWins(ms) < |ms| ==> !IsWin(ms[LeadingWins(ms)])
  {
    if ms != [] && IsWin(ms[0]) {
      LeadingWinsBounds(ms[1..]);
      assert forall i :: 1 <= i < |ms| ==> ms[i] == ms[1..][i - 1];
    }
  }

  /** Conversely, a prefix of `n` wins ended by the list or by a non-win has length
      `LeadingWins`. */
  lemma {:induction false} LeadingWinsCharacterized(ms: seq<Value>, n: nat)
    requires n <= |ms|
    requires forall i :: 0 <= i < n ==> IsWin(ms[i])
    requires n == |ms| || !IsWin(ms[n])
    ensures LeadingWins(ms) == n
  {
    if n > 0 {
      assert forall i :: 0 <= i < n - 1 ==> ms[1..][i] == ms[i + 1];
      LeadingWinsCharacterized(ms[1..], n - 1);
    }
  }

  /** The streak loop: count wins from the front and stop at the first non-win. */
  method CurrentStreak(recentMatches: seq<Value>) returns (currentStreak: nat)
    ensures currentStreak == LeadingWins(recentMatches)
    ensures currentStreak <= |recentMatches|
    ensures forall i :: 0 <= i < currentStreak ==> IsWin(recentMatches[i])
    ensures currentStreak < |recentMatches| ==> !IsWin(recentMatches[currentStreak])
  {
    currentStreak := 0;
    for i := 0 to |recentMatches|
      invariant currentStreak == i
      invariant forall k :: 0 <= k < i ==> IsWin(recentMatches[k])
    {
      if IsWin(recentMatches[i]) {
        currentStreak := currentStreak + 1;
      } else {
        break;
      }
    }
    LeadingWinsCharacterized(recentMatches, currentStreak);
  }

  /** The parsed body of a successful history request. */
  datatype History = History(statistics: Value, recentMatches: seq<Value>)

  /** `{...statistics, current_streak, recent_matches}`. */
  function AssembleStats(statistics: Value, currentStreak: nat, recentMatches: seq<Value>): Value {
    Obj(Spread(statistics)["current_streak" := Num(currentStreak)]["recent_matches" := Arr(recentMatches)])
  }

  /** The assembled object carries the streak and the matches, overriding same-named
      statistics, and every other statistic unchanged. */
  lemma AssembledFields(statistics: Value, currentStreak: nat, recentMatches: seq<Value>, key: string)
    ensures Get(AssembleStats(statistics, currentStreak, recentMatches), "current_streak") == Num(currentStreak)
    ensures Get(AssembleStats(statistics, currentStreak, recentMatches), "recent_matches") == Arr(recentMatches)
    ensures key != "current_streak" && key != "recent_matches" ==>
      Get(AssembleStats(statistics, currentStreak, recentMatches), key) ==
        if key in Spread(statistics) then Spread(statistics)[key] else Undefined
  {
  }

  /** The value the hook publishes as `userStats` after one run of the effect, given the
      value it held before (null on a fresh mount): that value stays when the username is
      falsy (no request is made) and when the request fails; `response` is the parsed body
      when the server answered with success. */
  method FetchUserHistory(previous: Value, username: Value, response: Option<History>)
    returns (userStats: Value)
    ensures !Truthy(username) ==> userStats == previous
    ensures Truthy(username) && response.None? ==> userStats == previous
    ensures Truthy(username) && response.Some? ==>
      var data := response.value;
      userStats == AssembleStats(data.statistics, LeadingWins(data.recentMatches), data.recentMatches)
  {
    userStats := previous;
    if !Truthy(username) {
      return;
    }
    if response.Some? {
      var data := response.value;
      var currentStreak := CurrentStreak(data.recentMatches);
      userStats := AssembleStats(data.statistics, currentStreak, data.recentMatches);
    }
  }
}
