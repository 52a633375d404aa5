/** The end-of-game screen: who the opponent was, whether the current user won, and the
    win count, streak and win-loss record shown after the game. */
module VictoryDefeat {
  import opened Wrappers
  import opened Js
  import opened DuelData
  import UserHistory

  /** `duel?.player1`, `duel?.player2` and `duel?.winner`. */
  function Player1(duel: Option<Duel>): Value {
    if duel.Some? then duel.value.player1 else Undefined
  }

  function Player2(duel: Option<Duel>): Value {
    if duel.Some? then duel.value.player2 else Undefined
  }

  function Winner(duel: Option<Duel>): Value {
    if duel.Some? then duel.value.winner else Undefined
  }

  /** `currentUser && duel?.player1?.id === currentUser?.id ? duel?.player2 : duel?.player1`. */
  function Opponent(duel: Option<Duel>, currentUser: Value): Value {
    if Truthy(currentUser) && StrictEquals(Get(Player1(duel), "id"), Get(currentUser, "id"))
    then Player2(duel) else Player1(duel)
  }

  /** When both players carry distinct primitive ids and the current user is one of them,
      the opponent is the other one. */
  lemma OpponentIsTheOtherPlayer(duel: Duel, currentUser: Value)
    requires Truthy(currentUser)
    requires var id1, id2, me := Get(duel.player1, "id"), Get(duel.player2, "id"), Get(currentUser, "id");
      && id1 != id2 && !id1.Arr? && !id1.Obj? && !id2.Arr? && !id2.Obj?
      && (me == id1 || me == id2)
    ensures Opponent(Some(duel), currentUser) == duel.player1 || Opponent(Some(duel), currentUser) == duel.player2
    ensures Get(Opponent(Some(duel), currentUser), "id") != Get(currentUser, "id")
  {
    StrictEqualsPrimitive(Get(duel.player1, "id"), Get(currentUser, "id"));
  }

  /** The robust victory test: the winner is the user's name or id, or an object whose
      name or id is the user's. */
  predicate IsWinner(duel: Option<Duel>, currentUser: Value) {
    var w := Winner(duel);
    && Truthy(w) && Truthy(currentUser)
    && (|| StrictEquals(w, Get(currentUser, "username"))
        || StrictEquals(w, Get(currentUser, "id"))
        || (TypeofObject(w) && StrictEquals(Get(w, "username"), Get(currentUser, "username")))
        || (TypeofObject(w) && StrictEquals(Get(w, "id"), Get(currentUser, "id"))))
  }

  /** No winner, or no current user, means a defeat. */
  lemma NoWinnerNoVictory(duel: Option<Duel>, currentUser: Value)
    requires !Truthy(Winner(duel)) || !Truthy(currentUser)
    ensures !IsWinner(duel, currentUser)
  {
  }

  /** A winner given by name or id, or as an object carrying either, is recognised. */
  lemma WinnerRecognised(duel: Duel, currentUser: Value, name: string, id: int)
    requires currentUser.Obj? && Get(currentUser, "username") == Str(name) && Get(currentUser, "id") == Num(id)
    requires || (duel.winner == Str(name) && name != "")
             || (duel.winner == Num(id) && id != 0)
             || (duel.winner.Obj? && (Get(duel.winner, "username") == Str(name) || Get(duel.winner, "id") == Num(id)))
    ensures IsWinner(Some(duel), currentUser)
  {
  }

  /** A winner object without a `username` matches every user object without one,
      because `undefined === undefined` holds. */
  lemma MissingNamesMatch(player1: Value, player2: Value, submissions: Option<seq<Submission>>,
                          winner: map<string, Value>, user: map<string, Value>)
    requires "username" !in winner && "username" !in user
    ensures IsWinner(Some(Duel(player1, player2, Obj(winner), submissions)), Obj(user))
  {
  }

  /** The fields of `userStats` the screen reads. */
  datatype Stats = Stats(wins: int, totalGames: int, currentStreak: int)

  /** `newWins`: one more win on a victory; without stats, the user's `battles_won` when
      truthy and 0 otherwise. */
  function NewWins(userStats: Option<Stats>, isWinner: bool, currentUser: Value): Value {
    if userStats.Some? then Num(userStats.value.wins + (if isWinner then 1 else 0))
    else if Truthy(Get(currentUser, "battles_won")) then Get(currentUser, "battles_won")
    else Num(0)
  }

  /** `newStreak`: the previous streak (0 when missing) plus one on a victory, 0 on a
      defeat. (`current_streak || 0` is the streak itself, since a 0 streak gives 0.) */
  function NewStreak(userStats: Option<Stats>, isWinner: bool): int {
    if isWinner then (if userStats.Some? then userStats.value.currentStreak else 0) + 1 else 0
  }

  lemma NewWinsCounted(userStats: Option<Stats>, isWinner: bool, currentUser: Value)
    requires userStats.Some?
    ensures NewWins(userStats, isWinner, currentUser) ==
      if isWinner then Num(userStats.value.wins + 1) else Num(userStats.value.wins)
  {
  }

  /** Without stats, the new win count is the user's `battles_won` when truthy and 0
      otherwise, whatever the outcome of the game. */
  lemma NewWinsFallback(isWinner: bool, currentUser: Value)
    ensures NewWins(None, isWinner, currentUser) ==
      if Truthy(Get(currentUser, "battles_won")) then Get(currentUser, "battles_won") else Num(0)
  {
  }

  /** When the stored streak is the streak of the user's recent matches, the new streak is
      the streak of those matches with this game put in front. */
  lemma NewStreakExtendsHistory(userStats: Option<Stats>, isWinner: bool, game: Value, recentMatches: seq<Value>)
    requires userStats.Some? ==> userStats.value.currentStreak == UserHistory.LeadingWins(recentMatches)
    requires userStats.None? ==> recentMatches == []
    requires UserHistory.IsWin(game) == isWinner
    ensures NewStreak(userStats, isWinner) == UserHistory.LeadingWins([game] + recentMatches)
  {
    var ms := [game] + recentMatches;
    assert ms[0] == game && ms[1..] == recentMatches;
  }

  /** What `renderWinLoss` shows: a placeholder without stats, else wins and losses. */
  datatype WinLoss = Placeholder | Record(wins: int, losses: int)

  function RenderWinLoss(stats: Option<Stats>): WinLoss {
    if stats.None? then Placeholder else Record(stats.value.wins, stats.value.totalGames - stats.value.wins)
  }

  /** Wins and losses add up to the games played. */
  lemma WinLossAddsUp(stats: Option<Stats>)
    ensures stats.None? <==> RenderWinLoss(stats) == Placeholder
    ensures stats.Some? ==> RenderWinLoss(stats).wins + RenderWinLoss(stats).losses == stats.value.totalGames
    ensures stats.Some? ==> RenderWinLoss(stats).wins == stats.value.wins
  {
  }
}
