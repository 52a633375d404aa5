/** The line protocol between a C test harness and the executor. For its n-th case
    (numbered from 1) a harness prints `TEST_<n>_STATUS=<status>` and then
    `TEST_<n>_MESSAGE=<message>`, each line ended by '\n'. */
module TestProtocol {
  import opened Text

  /** What a harness prints for one case. */
  datatype Report = Report(status: string, message: string)

  function StatusKey(n: nat): string {
    "TEST_" + NatToString(n) + "_STATUS"
  }

  function MessageKey(n: nat): string {
    "TEST_" + NatToString(n) + "_MESSAGE"
  }

  /** The two lines printed for case number `n`. */
  function CaseLines(n: nat, r: Report): seq<string> {
    [StatusKey(n) + "=" + r.status, MessageKey(n) + "=" + r.message]
  }

  /** Every line a run prints when its cases report `rs`, in order. */
  function Render(rs: seq<Report>): (lines: seq<string>)
    ensures |lines| == 2 * |rs|
  {
    if rs == [] then [] else Render(rs[..|rs| - 1]) + CaseLines(|rs|, rs[|rs| - 1])
  }

  /** Case `i` owns exactly lines `2i` and `2i + 1`: its status line, then its message
      line, both carrying the number `i + 1`. */
  lemma {:induction false} RenderAt(rs: seq<Report>, i: nat)
    requires i < |rs|
    ensures Render(rs)[2 * i] == StatusKey(i + 1) + "=" + rs[i].status
    ensures Render(rs)[2 * i + 1] == MessageKey(i + 1) + "=" + rs[i].message
  {
    if i < |rs| - 1 {
      RenderAt(rs[..|rs| - 1], i);
    }
  }

  /** Printing one more case appends its two lines. */
  lemma RenderSnoc(rs: seq<Report>, r: Report)
    ensures Render(rs + [r]) == Render(rs) + CaseLines(|rs| + 1, r)
  {
    assert (rs + [r])[..|rs|] == rs;
  }

  /** Every case passed. */
  predicate AllPass(rs: seq<Report>) {
    forall i :: 0 <= i < |rs| ==> rs[i].status == "PASS"
  }

  lemma AllPassSnoc(rs: seq<Report>, r: Report)
    ensures AllPass(rs + [r]) <==> AllPass(rs) && r.status == "PASS"
  {
    assert forall i :: 0 <= i < |rs| ==> (rs + [r])[i] == rs[i];
    assert (rs + [r])[|rs|] == r;
  }

  /** What standard output holds after the lines are printed one `printf` each. */
  function Stdout(lines: seq<string>): string {
    if lines == [] then "" else lines[0] + "\n" + Stdout(lines[1..])
  }

  lemma {:induction false} StdoutIsJoin(lines: seq<string>)
    requires lines != []
    ensures Stdout(lines) == Join(lines, '\n') + "\n"
  {
    if |lines| > 1 {
      StdoutIsJoin(lines[1..]);
    }
  }

  /** Lines without '\r' print as an output without '\r'. */
  lemma {:induction false} StdoutWithoutCarriageReturn(lines: seq<string>)
    requires forall i :: 0 <= i < |lines| ==> '\r' !in lines[i]
    ensures '\r' !in Stdout(lines)
  {
    if lines != [] {
      assert forall i :: 0 <= i < |lines[1..]| ==> lines[1..][i] == lines[i + 1];
      StdoutWithoutCarriageReturn(lines[1..]);
    }
  }

  /** A text that fits on one line, whether read in binary or in text mode, and does not
      end in whitespace. */
  predicate OneLine(m: string) {
    '\n' !in m && '\r' !in m && (m == [] || !IsSpace(m[|m| - 1]))
  }

  /** Reports whose status and message each fit on one line. */
  predicate Printable(rs: seq<Report>) {
    forall i :: 0 <= i < |rs| ==> OneLine(rs[i].status) && OneLine(rs[i].message)
  }

  lemma KeysAreOneLine(n: nat)
    ensures '\n' !in StatusKey(n) && '\n' !in MessageKey(n) && '=' !in StatusKey(n) && '=' !in MessageKey(n)
  {
    var d := NatToString(n);
    assert forall i :: 0 <= i < |d| ==> IsDigit(d[i]);
  }

  lemma KeysWithoutCarriageReturn(n: nat)
    ensures '\r' !in StatusKey(n) && '\r' !in MessageKey(n)
  {
    var d := NatToString(n);
    assert forall i :: 0 <= i < |d| ==> IsDigit(d[i]);
  }

  /** The fixed texts both harnesses print fit on one line. */
  lemma FixedTextsOneLine()
    ensures OneLine("PASS") && OneLine("FAIL") && OneLine("") && OneLine("Returned NULL")
  {
  }

  /** The printed lines of printable reports contain no newline, begin with a letter and
      do not end in whitespace. */
  lemma {:induction false} RenderOneLine(rs: seq<Report>)
    requires Printable(rs)
    ensures forall i :: 0 <= i < |Render(rs)| ==> '\n' !in Render(rs)[i] && '\r' !in Render(rs)[i]
    ensures rs != [] ==> Render(rs)[0] != [] && Render(rs)[0][0] == 'T'
    ensures rs != [] ==> var last := Render(rs)[|Render(rs)| - 1]; last != [] && !IsSpace(last[|last| - 1])
  {
    if rs != [] {
      var prefix := rs[..|rs| - 1];
      assert Printable(prefix) by {
        forall i | 0 <= i < |prefix| ensures OneLine(prefix[i].status) && OneLine(prefix[i].message) {
          assert prefix[i] == rs[i];
        }
      }
      RenderOneLine(prefix);
      var r := rs[|rs| - 1];
      assert OneLine(r.status) && OneLine(r.message);
      KeysAreOneLine(|rs|);
      KeysWithoutCarriageReturn(|rs|);
      var lines := Render(rs);
      assert lines == Render(prefix) + CaseLines(|rs|, r);
      forall i | 0 <= i < |lines| ensures '\n' !in lines[i] && '\r' !in lines[i] {
        if i < |Render(prefix)| {
          assert lines[i] == Render(prefix)[i];
        } else {
          assert lines[i] in CaseLines(|rs|, r);
        }
      }
      if prefix == [] {
        assert lines[0] == StatusKey(1) + "=" + r.status;
        assert lines[0][0] == 'T';
      } else {
        assert lines[0] == Render(prefix)[0];
      }
      var last := lines[|lines| - 1];
      assert last == MessageKey(|rs|) + "=" + r.message;
    }
  }
}
