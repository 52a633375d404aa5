/** The opponent panel of the game screen: it picks the opponent, finds the opponent's
    latest submission and shows its test results, each of which can be expanded. */
module OpponentPanel {
  import opened Wrappers
  import opened Js
  import opened DuelData
  import VictoryDefeat
  import opened Text

  /** `currentUser && duel.player1 && duel.player1.id === currentUser.id ? duel.player2 : duel.player1`. */
  function Opponent(duel: Duel, currentUser: Value): Value {
    if Truthy(currentUser) && Truthy(duel.player1) && StrictEquals(Get(duel.player1, "id"), Get(currentUser, "id"))
    then duel.player2 else duel.player1
  }

  /** With a first player present, this panel and the end-of-game screen pick the same
      opponent. */
  lemma OpponentRulesAgree(duel: Duel, currentUser: Value)
    requires Truthy(duel.player1)
    ensures Opponent(duel, currentUser) == VictoryDefeat.Opponent(Some(duel), currentUser)
  {
  }

  /** Without a first player, and with a user object that has no id, the two rules
      differ whenever the players differ: the panel keeps the (missing) first player,
      while the end-of-game screen compares `undefined === undefined` and picks the
      second player. */
  lemma OpponentRulesDiffer(duel: Duel, currentUser: map<string, Value>)
    requires !Truthy(duel.player1) && "id" !in currentUser
    ensures Opponent(duel, Obj(currentUser)) == duel.player1
    ensures VictoryDefeat.Opponent(Some(duel), Obj(currentUser)) == duel.player2
    ensures duel.player1 != duel.player2 ==>
      Opponent(duel, Obj(currentUser)) != VictoryDefeat.Opponent(Some(duel), Obj(currentUser))
  {
  }

  /** The filter `s.player && s.player.id === opponent.id`. */
  predicate ByOpponent(s: Submission, opponent: Value) {
    Truthy(s.player) && StrictEquals(Get(s.player, "id"), Get(opponent, "id"))
  }

  /** `filter`: the opponent's submissions, in their original order. */
  function FilterByOpponent(subs: seq<Submission>, opponent: Value): (r: seq<Submission>)
    ensures |r| <= |subs|
    ensures forall s :: s in r <==> s in subs && ByOpponent(s, opponent)
  {
    if subs == [] then []
    else (if ByOpponent(subs[0], opponent) then [subs[0]] else []) + FilterByOpponent(subs[1..], opponent)
  }

  /** The filter keeps the original order: filtering a concatenation is concatenating
      the filtered parts. */
  lemma {:induction false} FilterConcat(a: seq<Submission>, b: seq<Submission>, opponent: Value)
    ensures FilterByOpponent(a + b, opponent) == FilterByOpponent(a, opponent) + FilterByOpponent(b, opponent)
  {
    if a == [] {
      assert a + b == b;
    } else {
      var head := if ByOpponent(a[0], opponent) then [a[0]] else [];
      assert (a + b)[0] == a[0] && (a + b)[1..] == a[1..] + b;
      FilterConcat(a[1..], b, opponent);
      ConcatAssoc(head, FilterByOpponent(a[1..], opponent), FilterByOpponent(b, opponent));
    }
  }

  /** Later submissions first. */
  predicate NewestFirst(subs: seq<Submission>) {
    forall i, j :: 0 <= i < j < |subs| ==> subs[i].time >= subs[j].time
  }

  /** One step of a stable sort on `b.time - a.time`: `x`, which came before every element
      of `sorted`, goes in front of the first one that is not later than it. */
  function Insert(x: Submission, sorted: seq<Submission>): (r: seq<Submission>)
    ensures |r| == |sorted| + 1
    ensures r[0] == if sorted == [] || sorted[0].time <= x.time then x else sorted[0]
    ensures NewestFirst(sorted) ==> NewestFirst(r)
  {
    if sorted == [] || sorted[0].time <= x.time then [x] + sorted
    else
      var rest := Insert(x, sorted[1..]);
      assert sorted == [sorted[0]] + sorted[1..];
      assert NewestFirst(sorted) ==> NewestFirst(sorted[1..]);
      [sorted[0]] + rest
  }

  /** `sort((a, b) => b.time - a.time)`; JavaScript's sort is stable, so submissions with
      equal times keep their order. */
  function SortNewestFirst(subs: seq<Submission>): (r: seq<Submission>)
    ensures NewestFirst(r)
    ensures |r| == |subs|
  {
    if subs == [] then []
    else
      assert subs == [subs[0]] + subs[1..];
      Insert(subs[0], SortNewestFirst(subs[1..]))
  }

  /** Inserting adds exactly `x`. */
  lemma {:induction false} InsertPermutes(x: Submission, sorted: seq<Submission>)
    ensures multiset(Insert(x, sorted)) == multiset(sorted) + multiset{x}
  {
    if !(sorted == [] || sorted[0].time <= x.time) {
      InsertPermutes(x, sorted[1..]);
      assert sorted == [sorted[0]] + sorted[1..];
    }
  }

  /** The sorted copy holds the same submissions. */
  lemma {:induction false} SortPermutes(subs: seq<Submission>)
    ensures multiset(SortNewestFirst(subs)) == multiset(subs)
  {
    if subs != [] {
      var rest := subs[1..];
      var sorted := SortNewestFirst(rest);
      assert SortNewestFirst(subs) == Insert(subs[0], sorted);
      SortPermutes(rest);
      InsertPermutes(subs[0], sorted);
      assert subs == [subs[0]] + rest;
      assert multiset(subs) == multiset(rest) + multiset{subs[0]};
    }
  }

  /** Index `i` holds the first submission, in order, whose time is the latest. */
  predicate FirstNewest(subs: seq<Submission>, i: nat) {
    && i < |subs|
    && (forall j :: 0 <= j < |subs| ==> subs[j].time <= subs[i].time)
    && (forall j :: 0 <= j < i ==> subs[j].time < subs[i].time)
  }

  /** The head of the sorted copy is the first submission, in the original order, whose
      time is the latest. */
  lemma {:induction false} SortedHead(subs: seq<Submission>) returns (i: nat)
    requires subs != []
    ensures FirstNewest(subs, i) && SortNewestFirst(subs)[0] == subs[i]
  {
    if |subs| == 1 {
      i := 0;
    } else {
      var k := SortedHead(subs[1..]);
      SortedHeadStep(subs);
      i := FirstNewestCons(subs, k);
    }
  }

  /** The head of the sorted copy is the first element or the head of the sorted rest,
      whichever is later, the first element winning ties. */
  lemma SortedHeadStep(subs: seq<Submission>)
    requires |subs| >= 2
    ensures var h := SortNewestFirst(subs[1..])[0];
      SortNewestFirst(subs)[0] == if h.time <= subs[0].time then subs[0] else h
  {
  }

  /** The first newest of a sequence is its first element, when that is not earlier than
      the first newest of the rest, and that one otherwise. */
  lemma FirstNewestCons(subs: seq<Submission>, k: nat) returns (i: nat)
    requires |subs| >= 2 && FirstNewest(subs[1..], k)
    ensures i == if subs[k + 1].time <= subs[0].time then 0 else k + 1
    ensures FirstNewest(subs, i)
  {
    assert forall j :: 1 <= j < |subs| ==> subs[j] == subs[1..][j - 1];
    i := if subs[k + 1].time <= subs[0].time then 0 else k + 1;
  }

  /** `latestOppSubmission`: None when the duel has no submissions, the opponent is falsy,
      or the opponent submitted nothing. */
  function LatestOpponentSubmission(duel: Duel, currentUser: Value): Option<Submission> {
    var opponent := Opponent(duel, currentUser);
    if duel.submissions.Some? && Truthy(opponent) then
      var sorted := SortNewestFirst(FilterByOpponent(duel.submissions.value, opponent));
      if sorted == [] then None else Some(sorted[0])
    else None
  }

  /** The latest submission belongs to the opponent, no submission of the opponent is
      later, and among the opponent's submissions with that time it is the first; when
      there is none, the opponent submitted nothing. */
  lemma LatestIsOpponentsNewest(duel: Duel, currentUser: Value)
    requires duel.submissions.Some? && Truthy(Opponent(duel, currentUser))
    ensures var latest := LatestOpponentSubmission(duel, currentUser);
      var opponent := Opponent(duel, currentUser);
      var subs := duel.submissions.value;
      && (latest.None? <==> forall s :: s in subs ==> !ByOpponent(s, opponent))
      && (latest.Some? ==>
            && latest.value in subs && ByOpponent(latest.value, opponent)
            && (forall s :: s in subs && ByOpponent(s, opponent) ==> s.time <= latest.value.time)
            && exists i: nat :: FirstNewest(FilterByOpponent(subs, opponent), i)
                 && latest.value == FilterByOpponent(subs, opponent)[i])
  {
    var opponent := Opponent(duel, currentUser);
    var mine := FilterByOpponent(duel.submissions.value, opponent);
    if mine != [] {
      var i := SortedHead(mine);
      assert mine[i] in mine;
      forall s | s in duel.submissions.value && ByOpponent(s, opponent)
        ensures s.time <= mine[i].time
      {
        var j :| 0 <= j < |mine| && mine[j] == s;
      }
    }
  }

  /** `tests`: the latest submission's `result.tests`, or null when there is none. */
  function Tests(duel: Duel, currentUser: Value): (r: Value) {
    var latest := LatestOpponentSubmission(duel, currentUser);
    if latest.Some? then Get(latest.value.result, "tests") else Null
  }

  /** Without any submission of the opponent the panel has no tests to show. */
  lemma NoSubmissionNoTests(duel: Duel, currentUser: Value)
    requires duel.submissions.None? || forall s :: s in duel.submissions.value ==> !ByOpponent(s, Opponent(duel, currentUser))
    ensures Tests(duel, currentUser) == Null
  {
    if duel.submissions.Some? && Truthy(Opponent(duel, currentUser)) {
      LatestIsOpponentsNewest(duel, currentUser);
    }
  }
}
