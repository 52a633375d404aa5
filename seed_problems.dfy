/** The `seed_problems` management command: it inserts each default problem whose title
    is not yet in the Problem table and reports how many it inserted. */
module SeedProblems {
  import opened Text

  /** A row of the Problem table, with the fields the command writes. */
  datatype Problem = Problem(
    title: string, description: string, difficulty: string, timeLimit: int,
    testCases: seq<string>, sampleInput: string, sampleOutput: string,
    solutionTemplate: string, testFile: string)

  const StarterTemplate := "#include <stdio.h>\n// write your solution here\nint main() { return 0; }\n"

  /** `DEFAULT_PROBLEMS`, in order. */
  const DefaultProblems: seq<Problem> := [
    Problem(
      "Two Sum",
      "Given an array of integers nums and an integer target, return indices of the two numbers such that they add up to target.\n\n"
      + "You may assume that each input would have exactly one solution, and you may not use the same element twice.\n\n"
      + "You can return the answer in any order.",
      "easy", 5, [], "[2,7,11,15] 9", "[0,1]", StarterTemplate, "two_sum_test.c"),
    Problem(
      "Longest Common Prefix",
      "Write a function to find the longest common prefix string amongst an array of strings.\n\n"
      + "If there is no common prefix, return an empty string \"\".",
      "easy", 5, [], "[\"flower\", \"flow\", \"flight\"]", "fl", StarterTemplate, "longest_common_prefix.c")
  ]

  /** The titles present in a sequence of problems. */
  function Titles(rows: seq<Problem>): set<string> {
    set i | 0 <= i < |rows| :: rows[i].title
  }

  /** One iteration of the command's loop: insert `p` unless its title is taken. */
  function SeedStep(rows: seq<Problem>, p: Problem): seq<Problem> {
    if p.title in Titles(rows) then rows else rows + [p]
  }

  /** The table after the loop has visited `ds` in order. */
  function SeedFrom(rows: seq<Problem>, ds: seq<Problem>): seq<Problem> {
    if ds == [] then rows else SeedStep(SeedFrom(rows, ds[..|ds| - 1]), ds[|ds| - 1])
  }

  /** How many of `ds` have a title absent from `rows`. */
  function AbsentCount(rows: seq<Problem>, ds: seq<Problem>): nat {
    if ds == [] then 0
    else AbsentCount(rows, ds[..|ds| - 1]) + (if ds[|ds| - 1].title in Titles(rows) then 0 else 1)
  }

  /** No two problems of `ds` share a title. */
  predicate DistinctTitles(ds: seq<Problem>) {
    forall i, j :: 0 <= i < j < |ds| ==> ds[i].title != ds[j].title
  }

  lemma TitlesSnoc(rows: seq<Problem>, p: Problem)
    ensures Titles(rows + [p]) == Titles(rows) + {p.title}
  {
    var s := rows + [p];
    assert forall i :: 0 <= i < |rows| ==> s[i] == rows[i];
    assert s[|rows|] == p;
  }

  /** After seeding, the titles are the old ones together with every default title. */
  lemma {:induction false} SeedTitles(rows: seq<Problem>, ds: seq<Problem>)
    ensures Titles(SeedFrom(rows, ds)) == Titles(rows) + Titles(ds)
  {
    if ds != [] {
      var init, p := ds[..|ds| - 1], ds[|ds| - 1];
      SeedTitles(rows, init);
      TitlesSnoc(SeedFrom(rows, init), p);
      assert ds == init + [p];
      TitlesSnoc(init, p);
    }
  }

  /** Rows already in the table stay, unchanged and in place; each row added is a
      default problem whose title was absent before. */
  lemma {:induction false} SeedKeepsRows(rows: seq<Problem>, ds: seq<Problem>)
    ensures rows <= SeedFrom(rows, ds)
    ensures forall k :: |rows| <= k < |SeedFrom(rows, ds)| ==>
      SeedFrom(rows, ds)[k] in ds && SeedFrom(rows, ds)[k].title !in Titles(rows)
  {
    if ds != [] {
      var init, p := ds[..|ds| - 1], ds[|ds| - 1];
      SeedKeepsRows(rows, init);
      SeedTitles(rows, init);
      var mid := SeedFrom(rows, init);
      forall k | |rows| <= k < |SeedFrom(rows, ds)|
        ensures SeedFrom(rows, ds)[k] in ds && SeedFrom(rows, ds)[k].title !in Titles(rows)
      {
        if k < |mid| {
          assert SeedFrom(rows, ds)[k] == mid[k];
          assert mid[k] in init;
        } else {
          assert SeedFrom(rows, ds)[k] == p;
        }
      }
    }
  }

  /** With distinct default titles, the number of rows added is the number of default
      titles absent before, and so at most the number of defaults. */
  lemma {:induction false} SeedCount(rows: seq<Problem>, ds: seq<Problem>)
    requires DistinctTitles(ds)
    ensures |SeedFrom(rows, ds)| == |rows| + AbsentCount(rows, ds)
    ensures AbsentCount(rows, ds) <= |ds|
  {
    if ds != [] {
      var init, p := ds[..|ds| - 1], ds[|ds| - 1];
      assert DistinctTitles(init);
      SeedCount(rows, init);
      SeedTitles(rows, init);
      assert p.title !in Titles(init);
    }
  }

  /** Seeding a table that already holds every default title changes nothing. */
  lemma {:induction false} SeedNoop(rows: seq<Problem>, ds: seq<Problem>)
    requires Titles(ds) <= Titles(rows)
    ensures SeedFrom(rows, ds) == rows
  {
    if ds != [] {
      var init := ds[..|ds| - 1];
      assert Titles(init) <= Titles(ds);
      SeedNoop(rows, init);
      assert ds[|ds| - 1].title in Titles(ds);
    }
  }

  /** Running the command twice is running it once; the second run inserts nothing. */
  lemma SeedIdempotent(rows: seq<Problem>, ds: seq<Problem>)
    ensures SeedFrom(SeedFrom(rows, ds), ds) == SeedFrom(rows, ds)
    ensures AbsentCount(SeedFrom(rows, ds), ds) == 0
  {
    SeedTitles(rows, ds);
    SeedNoop(SeedFrom(rows, ds), ds);
    AllPresentCount(SeedFrom(rows, ds), ds);
  }

  lemma {:induction false} AllPresentCount(rows: seq<Problem>, ds: seq<Problem>)
    requires Titles(ds) <= Titles(rows)
    ensures AbsentCount(rows, ds) == 0
  {
    if ds != [] {
      var init := ds[..|ds| - 1];
      assert Titles(init) <= Titles(ds);
      AllPresentCount(rows, init);
      assert ds[|ds| - 1].title in Titles(ds);
    }
  }

  /** On the command's own defaults: every default title is present afterwards and at
      most two rows are added. */
  lemma DefaultsSeeded(rows: seq<Problem>)
    ensures "Two Sum" in Titles(SeedFrom(rows, DefaultProblems))
    ensures "Longest Common Prefix" in Titles(SeedFrom(rows, DefaultProblems))
    ensures |SeedFrom(rows, DefaultProblems)| - |rows| == AbsentCount(rows, DefaultProblems) <= 2
  {
    SeedTitles(rows, DefaultProblems);
    assert DefaultProblems[0].title == "Two Sum" && DefaultProblems[1].title == "Longest Common Prefix";
    assert "Two Sum" in Titles(DefaultProblems) && "Longest Common Prefix" in Titles(DefaultProblems);
    SeedCount(rows, DefaultProblems);
  }

  /** The Problem table. */
  class ProblemTable {
    var rows: seq<Problem>

    constructor (rows: seq<Problem>)
      ensures this.rows == rows
    {
      this.rows := rows;
    }

    /** `Command.handle`: the rows after the loop, the count it reports and the line it
        writes. */
    method Handle() returns (created: nat, report: string)
      modifies this
      ensures rows == SeedFrom(old(rows), DefaultProblems)
      ensures created == |rows| - |old(rows)| == AbsentCount(old(rows), DefaultProblems)
      ensures report == "Seeded " + NatToString(created) + " new problems."
    {
      ghost var before := rows;
      created := 0;
      for i := 0 to |DefaultProblems|
        invariant rows == SeedFrom(before, DefaultProblems[..i])
        invariant created == |rows| - |before|
      {
        var prob := DefaultProblems[i];
        PrefixOfPrefix(DefaultProblems, i);
        if prob.title !in Titles(rows) {
          rows := rows + [prob];
          created := created + 1;
        }
      }
      assert DefaultProblems[..|DefaultProblems|] == DefaultProblems;
      SeedCount(before, DefaultProblems);
      report := "Seeded " + NatToString(created) + " new problems.";
    }
  }
}
