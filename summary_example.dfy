/** The unit test of src/response/summary.rs, stated about the model: the text it reads
    decodes to the response it expects. */
module SummaryExample {
  import opened Wrappers
  import opened RustStr
  import opened RustNum
  import opened Base
  import opened Fields
  import Table
  import opened Summary

  /** The lines of the test's text, which the source writes one per line of the literal. */
  const INPUT_LINES: seq<string> := [
    "Product!STRING:0|Seqn!DEC:4|Flags!STRING:0",
    "## seqn = 2119172",
    "agent|1476930|cdn",
    "agent|2118018|",
    "agent_beta|1476931|cdn",
    "agent_beta|2110722|"]

  const INPUT: string := Join(INPUT_LINES, '\n')

  const EXPECTED: Response := Response(2119172, [
    SummaryRecord("agent", 1476930, "cdn"),
    SummaryRecord("agent", 2118018, ""),
    SummaryRecord("agent_beta", 1476931, "cdn"),
    SummaryRecord("agent_beta", 2110722, "")])

  /** The test's text decodes to the response the test expects. */
  lemma {:induction false} Decodes()
    ensures FromText(INPUT) == Ok(EXPECTED)
  {
    forall i | 0 <= i < |EXPECTED.records| ensures RecordWritable(EXPECTED.records[i]) {
      var v := EXPECTED.records[i];
      assert v.product[0] != Table.SEQN_PREFIX[0];
    }
    TextRoundTrip(EXPECTED);
    WrittenLines();
  }

  /** The test's lines are the lines the model writes for the expected response. */
  lemma {:induction false} WrittenLines()
    ensures ResponseText(EXPECTED) == INPUT
  {
    var lines := Table.RenderedLines(TableOf(EXPECTED));
    HeaderLine();
    SeqnLine();
    Rows();
    assert lines == INPUT_LINES;
  }

  lemma {:induction false} HeaderLine()
    ensures HeaderLineText(HEADERS) == INPUT_LINES[0]
  {
    var pieces := seq(|HEADERS|, i requires 0 <= i < |HEADERS| => HeaderText(HEADERS[i]));
    ColumnTexts();
    assert pieces == ["Product!STRING:0", "Seqn!DEC:4", "Flags!STRING:0"];
    JoinThree(pieces, '|');
    HeaderLineChars();
  }

  lemma {:induction false} ColumnTexts()
    ensures HeaderText(HEADERS[0]) == "Product!STRING:0"
    ensures HeaderText(HEADERS[1]) == "Seqn!DEC:4"
    ensures HeaderText(HEADERS[2]) == "Flags!STRING:0"
  {
    assert FormatDec(0) == "0" && FormatDec(4) == "4";
    assert TypeText(STRING_TYPE) == "STRING:0" && TypeText(DEC4_TYPE) == "DEC:4";
  }

  lemma {:induction false} HeaderLineChars()
    ensures "Product!STRING:0" + "|" + "Seqn!DEC:4" + "|" + "Flags!STRING:0" == INPUT_LINES[0]
  {
  }

  lemma {:induction false} SeqnLine()
    ensures Table.SeqnLine(2119172) == INPUT_LINES[1]
  {
    assert FormatDec(2) == "2";
    FormatDecStep(2, "2", 1);
    FormatDecStep(21, "21", 1);
    FormatDecStep(211, "211", 9);
    FormatDecStep(2119, "2119", 1);
    FormatDecStep(21191, "21191", 7);
    FormatDecStep(211917, "211917", 2);
  }

  lemma {:induction false} Rows()
    ensures forall i :: 0 <= i < 4 ==> Table.RowText(RowValues(EXPECTED.records[i])) == INPUT_LINES[i + 2]
  {
    var recs := EXPECTED.records;
    forall i | 0 <= i < 4 ensures Table.RowText(RowValues(recs[i])) == recs[i].product + "|" + FormatDec(recs[i].seqn) + "|" + recs[i].flags {
      JoinThree(RowValues(recs[i]), '|');
    }
    Numbers();
    RowChars();
  }

  lemma {:induction false} Numbers()
    ensures FormatDec(1476930) == "1476930" && FormatDec(2118018) == "2118018"
    ensures FormatDec(1476931) == "1476931" && FormatDec(2110722) == "2110722"
  {
    Number1476930();
    Number2118018();
    Number1476931();
    Number2110722();
  }

  lemma {:induction false} Number1476930()
    ensures FormatDec(1476930) == "1476930"
  {
    assert FormatDec(1) == "1";
    FormatDecStep(1, "1", 4);
    FormatDecStep(14, "14", 7);
    FormatDecStep(147, "147", 6);
    FormatDecStep(1476, "1476", 9);
    FormatDecStep(14769, "14769", 3);
    FormatDecStep(147693, "147693", 0);
  }

  lemma {:induction false} Number2118018()
    ensures FormatDec(2118018) == "2118018"
  {
    assert FormatDec(2) == "2";
    FormatDecStep(2, "2", 1);
    FormatDecStep(21, "21", 1);
    FormatDecStep(211, "211", 8);
    FormatDecStep(2118, "2118", 0);
    FormatDecStep(21180, "21180", 1);
    FormatDecStep(211801, "211801", 8);
  }

  lemma {:induction false} Number1476931()
    ensures FormatDec(1476931) == "1476931"
  {
    assert FormatDec(1) == "1";
    FormatDecStep(1, "1", 4);
    FormatDecStep(14, "14", 7);
    FormatDecStep(147, "147", 6);
    FormatDecStep(1476, "1476", 9);
    FormatDecStep(14769, "14769", 3);
    FormatDecStep(147693, "147693", 1);
  }

  lemma {:induction false} Number2110722()
    ensures FormatDec(2110722) == "2110722"
  {
    assert FormatDec(2) == "2";
    FormatDecStep(2, "2", 1);
    FormatDecStep(21, "21", 1);
    FormatDecStep(211, "211", 0);
    FormatDecStep(2110, "2110", 7);
    FormatDecStep(21107, "21107", 2);
    FormatDecStep(211072, "211072", 2);
  }

  lemma {:induction false} RowChars()
    ensures "agent" + "|" + "1476930" + "|" + "cdn" == INPUT_LINES[2]
    ensures "agent" + "|" + "2118018" + "|" + "" == INPUT_LINES[3]
    ensures "agent_beta" + "|" + "1476931" + "|" + "cdn" == INPUT_LINES[4]
    ensures "agent_beta" + "|" + "2110722" + "|" + "" == INPUT_LINES[5]
  {
  }

  lemma {:induction false} JoinThree(pieces: seq<string>, c: char)
    requires |pieces| == 3
    ensures Join(pieces, c) == pieces[0] + [c] + pieces[1] + [c] + pieces[2]
  {
    var tail := pieces[1..];
    assert tail[1..] == [pieces[2]];
    assert Join(tail, c) == pieces[1] + [c] + pieces[2];
    assert pieces[0] + [c] + (pieces[1] + [c] + pieces[2]) == pieces[0] + [c] + pieces[1] + [c] + pieces[2];
  }
}
