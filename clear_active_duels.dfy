/** The `clear_active_duels` management command: every duel whose status is 'active' is
    deleted (with `--delete`) or marked 'abandoned', and the command reports how many. */
module ClearActiveDuels {
  import opened Text

  /** A row of the Duel table; only its status matters to the command. */
  datatype Duel = Duel(id: nat, player1: string, player2: string, status: string)

  predicate IsActive(d: Duel) {
    d.status == "active"
  }

  /** The size of the query set `filter(status='active')`. */
  function CountActive(rows: seq<Duel>): (n: nat)
    ensures n <= |rows|
    ensures n == 0 <==> forall i :: 0 <= i < |rows| ==> !IsActive(rows[i])
  {
    if rows == [] then 0
    else CountActive(rows[..|rows| - 1]) + (if IsActive(rows[|rows| - 1]) then 1 else 0)
  }

  /** The table after the query set's `delete()`: the other duels, in their order. */
  function RemoveActive(rows: seq<Duel>): (r: seq<Duel>)
    ensures |r| + CountActive(rows) == |rows|
    ensures forall d :: d in r <==> d in rows && !IsActive(d)
  {
    if rows == [] then []
    else
      var init, last := rows[..|rows| - 1], rows[|rows| - 1];
      assert forall d :: d in rows <==> d in init || d == last;
      RemoveActive(init) + (if IsActive(last) then [] else [last])
  }

  /** Deleting from a table with one more row at the end keeps that row exactly when it
      is not active. */
  lemma RemoveSnoc(rows: seq<Duel>, d: Duel)
    ensures RemoveActive(rows + [d]) == RemoveActive(rows) + if IsActive(d) then [] else [d]
  {
    assert (rows + [d])[..|rows|] == rows;
  }

  /** Deleting keeps the other duels in their order: deleting from a concatenation is
      concatenating what remains of each part. */
  lemma {:induction false} RemoveConcat(a: seq<Duel>, b: seq<Duel>)
    ensures RemoveActive(a + b) == RemoveActive(a) + RemoveActive(b)
  {
    if b == [] {
      assert a + b == a;
    } else {
      var init, last := b[..|b| - 1], b[|b| - 1];
      assert b == init + [last];
      assert a + b == (a + init) + [last];
      RemoveSnoc(a + init, last);
      RemoveSnoc(init, last);
      RemoveConcat(a, init);
      ConcatAssoc(RemoveActive(a), RemoveActive(init), if IsActive(last) then [] else [last]);
    }
  }

  /** The table after the query set's `update(status='abandoned')`. */
  function AbandonActive(rows: seq<Duel>): (r: seq<Duel>)
    ensures |r| == |rows|
    ensures forall i :: 0 <= i < |rows| ==>
      r[i] == if IsActive(rows[i]) then rows[i].(status := "abandoned") else rows[i]
  {
    if rows == [] then []
    else
      var init, last := rows[..|rows| - 1], rows[|rows| - 1];
      AbandonActive(init) + [if IsActive(last) then last.(status := "abandoned") else last]
  }

  /** Both modes leave no active duel behind. */
  lemma NoActiveRemains(rows: seq<Duel>)
    ensures CountActive(RemoveActive(rows)) == 0
    ensures CountActive(AbandonActive(rows)) == 0
  {
    var r := AbandonActive(rows);
    assert forall i :: 0 <= i < |r| ==> !IsActive(r[i]);
    var s := RemoveActive(rows);
    assert forall i :: 0 <= i < |s| ==> s[i] in s && !IsActive(s[i]);
  }

  /** The Duel table. */
  class DuelTable {
    var rows: seq<Duel>

    constructor (rows: seq<Duel>)
      ensures this.rows == rows
    {
      this.rows := rows;
    }

    /** `Command.handle`: the count taken before the change, the new table and the line it
        writes. */
    method Handle(delete: bool) returns (count: nat, report: string)
      modifies this
      ensures count == CountActive(old(rows))
      ensures delete ==> rows == RemoveActive(old(rows))
      ensures !delete ==> rows == AbandonActive(old(rows))
      ensures report == if delete then "Deleted " + NatToString(count) + " active duels."
                        else "Marked " + NatToString(count) + " active duels as abandoned."
    {
      count := CountActive(rows);
      if delete {
        rows := RemoveActive(rows);
        report := "Deleted " + NatToString(count) + " active duels.";
      } else {
        var updated := CountActive(rows);
        rows := AbandonActive(rows);
        report := "Marked " + NatToString(updated) + " active duels as abandoned.";
      }
    }
  }
}
