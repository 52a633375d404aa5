/** The duel object the game screens receive from the server. Players and the winner are
    arbitrary JavaScript values (an object with `id` and `username`, a name, an id, or
    nothing); submission times are integers. */
module DuelData {
  import opened Wrappers
  import opened Js

  /** One entry of `duel.submissions`. */
  datatype Submission = Submission(player: Value, time: int, result: Value)

  /** The fields of `duel` the screens read; `submissions` is None when the field is falsy. */
  datatype Duel = Duel(player1: Value, player2: Value, winner: Value, submissions: Option<seq<Submission>>)
}
