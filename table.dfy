/** The generic table of a TACT response (`Response` in src/response/base.rs) and
    `Response::try_from(&str)`: one pass over the lines that picks out the seqn line by its
    prefix, takes the first other line as the header and checks each later line against it. */
module Table {
  import opened Wrappers
  import opened RustStr
  import opened RustNum
  import opened Base

  const SEQN_PREFIX: string := "## seqn = "

  /** A parsed table: the sequence number, the columns and the raw rows. */
  datatype Response = Response(seqn: u32, headers: seq<Header>, records: seq<seq<string>>) {
    /** Every row has exactly one field per column. */
    predicate Valid() {
      forall i :: 0 <= i < |records| ==> |records[i]| == |headers|
    }
  }

  predicate IsSeqnLine(line: string) {
    SEQN_PREFIX <= line
  }

  /** The number of a seqn line, parsed as a `u32`. */
  function SeqnNumber(line: string): (r: Result<u32, Error>)
    requires IsSeqnLine(line)
    ensures r.Ok? <==> ParseDec(line[|SEQN_PREFIX|..], U32_MAX).Ok?
  {
    match ParseDec(line[|SEQN_PREFIX|..], U32_MAX)
    case Err(k) => Err(UnparseableInt(k))
    case Ok(n) => Ok(n)
  }

  /** The three variables the loop of `Response::try_from` updates. */
  datatype ScanState = ScanState(headers: Option<seq<Header>>, seqn: Option<u32>, records: seq<seq<string>>)

  const INITIAL: ScanState := ScanState(None, None, [])

  /** What the loop keeps true: no row before the header, and every row as wide as it. */
  ghost predicate StateValid(st: ScanState) {
    && (st.headers.None? ==> st.records == [])
    && (st.headers.Some? ==> forall i :: 0 <= i < |st.records| ==> |st.records[i]| == |st.headers.value|)
  }

  /** The body of the loop for one line. What it has read stays read: a seqn and a header,
      once set, are kept, and the rows are only ever appended to, one row at most per line. */
  function Step(st: ScanState, line: string): (r: Result<ScanState, Error>)
    ensures r.Ok? ==> (st.seqn.Some? ==> r.value.seqn == st.seqn) && (st.headers.Some? ==> r.value.headers == st.headers)
    ensures r.Ok? ==> st.records <= r.value.records && |r.value.records| <= |st.records| + 1
  {
    match StripPrefix(line, SEQN_PREFIX)
    case Some(_) =>
      if st.seqn.Some? then Err(MultipleSeqn)
      else (match SeqnNumber(line) case Err(e) => Err(e) case Ok(n) => Ok(st.(seqn := Some(n))))
    case None =>
      if st.headers.None? then
        match ParseHeaderLine(line)
        case Err(e) => Err(e)
        case Ok(hs) => Ok(st.(headers := Some(hs)))
      else
        var record := Split(line, '|');
        if |record| != |st.headers.value| then Err(MismatchedRecordLength(|record|, |st.headers.value|))
        else Ok(st.(records := st.records + [record]))
  }

  /** The loop over all lines: the first failing line ends it. It only ever appends rows, and it
      keeps the state valid. */
  function Scan(lines: seq<string>, st: ScanState): (r: Result<ScanState, Error>)
    ensures r.Ok? ==> st.records <= r.value.records
    ensures r.Ok? && StateValid(st) ==> StateValid(r.value)
  {
    if lines == [] then Ok(st)
    else
      match Step(st, lines[0])
      case Err(e) => Err(e)
      case Ok(next) => Scan(lines[1..], next)
  }

  /** After the loop: a missing header is reported before a missing seqn. */
  function Finish(st: ScanState): (r: Result<Response, Error>)
    requires StateValid(st)
    ensures r.Ok? ==> r.value.Valid()
    ensures r.Ok? <==> st.headers.Some? && st.seqn.Some?
    ensures st.headers.None? ==> r == Err(ExpectedHeaderLine)
    ensures st.headers.Some? && st.seqn.None? ==> r == Err(ExpectedSeqnLine)
  {
    if st.headers.None? then Err(ExpectedHeaderLine)
    else if st.seqn.None? then Err(ExpectedSeqnLine)
    else Ok(Response(st.seqn.value, st.headers.value, st.records))
  }

  /** `Response::try_from(&str)` as a function of the text. */
  function ParseResponse(input: string): (r: Result<Response, Error>)
    ensures r.Ok? ==> r.value.Valid()
  {
    match Scan(Lines(input), INITIAL)
    case Err(e) => Err(e)
    case Ok(st) => Finish(st)
  }

  /** `Response::try_from(&str)`: a loop over `input.lines()` that updates `headers`, `seqn`
      and `records` in place and returns at the first error. */
  method TryFromStr(input: string) returns (r: Result<Response, Error>)
    ensures r == ParseResponse(input)
    ensures r.Ok? ==> r.value.Valid()
  {
    var headers: Option<seq<Header>> := None;
    var seqn: Option<u32> := None;
    var records: seq<seq<string>> := [];
    var lines := Lines(input);
    var i := 0;
    while i < |lines|
      invariant 0 <= i <= |lines|
      invariant Scan(lines, INITIAL) == Scan(lines[i..], ScanState(headers, seqn, records))
    {
      var line := lines[i];
      assert lines[i..][0] == line && lines[i..][1..] == lines[i + 1..];
      var numberPart := StripPrefix(line, SEQN_PREFIX);
      if numberPart.Some? {
        if seqn.Some? {
          return Err(MultipleSeqn);
        }
        var n := ParseDec(numberPart.value, U32_MAX);
        if n.Err? {
          return Err(UnparseableInt(n.error));
        }
        seqn := Some(n.value);
      } else if headers.None? {
        var hs := ParseHeaderLine(line);
        if hs.Err? {
          return Err(hs.error);
        }
        headers := Some(hs.value);
      } else {
        var headersLen := |headers.value|;
        var record := Split(line, '|');
        if |record| != headersLen {
          return Err(MismatchedRecordLength(|record|, headersLen));
        }
        records := records + [record];
      }
      i := i + 1;
    }
    assert lines[i..] == [];
    if headers.None? {
      return Err(ExpectedHeaderLine);
    }
    if seqn.None? {
      return Err(ExpectedSeqnLine);
    }
    return Ok(Response(seqn.value, headers.value, records));
  }

  /** A row seen through its table (`Record` in base.rs): the columns and the row's values,
      one per column. */
  datatype RecordData = RecordData(headers: seq<Header>, values: seq<string>)

  type Record = r: RecordData | |r.values| == |r.headers| witness RecordData([], [])

  /** `Response::iter_records`: the rows in order, each paired with the columns. */
  function IterRecords(resp: Response): (r: seq<Record>)
    requires resp.Valid()
    ensures |r| == |resp.records|
    ensures forall i :: 0 <= i < |r| ==> r[i].headers == resp.headers && r[i].values == resp.records[i]
  {
    seq(|resp.records|, i requires 0 <= i < |resp.records| => RecordData(resp.headers, resp.records[i]))
  }

  // A description of the accepted texts that does not follow the loop: which lines are seqn
  // lines, which one is the header and which are rows depends only on the lines themselves.

  /** The seqn lines, in order. */
  function SeqnLines(lines: seq<string>): (r: seq<string>)
    ensures forall i :: 0 <= i < |r| ==> IsSeqnLine(r[i])
  {
    if lines == [] then []
    else (if IsSeqnLine(lines[0]) then [lines[0]] else []) + SeqnLines(lines[1..])
  }

  /** All the other lines, in order: the header line and then the rows. */
  function OtherLines(lines: seq<string>): (r: seq<string>)
    ensures forall i :: 0 <= i < |r| ==> !IsSeqnLine(r[i])
  {
    if lines == [] then []
    else (if IsSeqnLine(lines[0]) then [] else [lines[0]]) + OtherLines(lines[1..])
  }

  function SplitAll(rows: seq<string>): (r: seq<seq<string>>)
    ensures |r| == |rows| && forall i :: 0 <= i < |rows| ==> r[i] == Split(rows[i], '|')
  {
    seq(|rows|, i requires 0 <= i < |rows| => Split(rows[i], '|'))
  }

  /** The text is a table: exactly one seqn line, with a `u32` number; at least one other
      line, the first of which is a header line; and every later non-seqn line as wide as it. */
  ghost predicate WellFormed(lines: seq<string>) {
    var seqns := SeqnLines(lines);
    var others := OtherLines(lines);
    && |seqns| == 1 && SeqnNumber(seqns[0]).Ok?
    && |others| >= 1 && ParseHeaderLine(others[0]).Ok?
    && RowsFit(others[1..], |ParseHeaderLine(others[0]).value|)
  }

  /** The table such a text denotes. */
  ghost function Denotation(lines: seq<string>): Response
    requires WellFormed(lines)
  {
    var others := OtherLines(lines);
    Response(SeqnNumber(SeqnLines(lines)[0]).value, ParseHeaderLine(others[0]).value, SplitAll(others[1..]))
  }

  /** The number held once `seqns` have been read, starting from `seqn`. */
  function SeqnAfter(seqn: Option<u32>, seqns: seq<string>): Option<u32>
    requires forall i :: 0 <= i < |seqns| ==> IsSeqnLine(seqns[i])
  {
    if seqn.Some? || seqns == [] then seqn
    else match SeqnNumber(seqns[0]) case Ok(n) => Some(n) case Err(_) => None
  }

  /** The seqn lines are accepted: each number parses, and there is at most one seqn in all. */
  ghost predicate SeqnsAccepted(seqn: Option<u32>, seqns: seq<string>)
    requires forall i :: 0 <= i < |seqns| ==> IsSeqnLine(seqns[i])
  {
    && (forall i :: 0 <= i < |seqns| ==> SeqnNumber(seqns[i]).Ok?)
    && |seqns| <= (if seqn.Some? then 0 else 1)
  }

  /** The columns held once `others` have been read, starting from `headers`. */
  function HeadersAfter(headers: Option<seq<Header>>, others: seq<string>): Option<seq<Header>>
  {
    if headers.Some? then headers
    else if others == [] then None
    else match ParseHeaderLine(others[0]) case Ok(hs) => Some(hs) case Err(_) => None
  }

  /** Which of `others` are rows, read with `headers` already known or not. */
  function RowLines(headers: Option<seq<Header>>, others: seq<string>): seq<string>
  {
    if headers.Some? || others == [] then others else others[1..]
  }

  /** Every row has `width` fields. */
  predicate RowsFit(rows: seq<string>, width: nat) {
    forall j :: 0 <= j < |rows| ==> |Split(rows[j], '|')| == width
  }

  lemma {:induction false} RowsFitCons(row: string, rows: seq<string>, width: nat)
    ensures RowsFit([row] + rows, width) <==> |Split(row, '|')| == width && RowsFit(rows, width)
  {
    assert ([row] + rows)[0] == row;
    assert forall j :: 0 <= j < |rows| ==> ([row] + rows)[j + 1] == rows[j];
  }

  /** The other lines are accepted: a header line, when one is still due, parses, and every
      row is as wide as the columns. */
  ghost predicate OthersAccepted(headers: Option<seq<Header>>, others: seq<string>) {
    var rows := RowLines(headers, others);
    && (headers.None? && others != [] ==> ParseHeaderLine(others[0]).Ok?)
    && (rows != [] ==> HeadersAfter(headers, others).Some?)
    && (rows != [] ==> RowsFit(rows, |HeadersAfter(headers, others).value|))
  }

  /** The lines the loop gets through from `st` without an error. */
  ghost predicate Accepts(st: ScanState, lines: seq<string>) {
    SeqnsAccepted(st.seqn, SeqnLines(lines)) && OthersAccepted(st.headers, OtherLines(lines))
  }

  /** The state the loop reaches from `st` over such lines. */
  ghost function Expected(st: ScanState, lines: seq<string>): ScanState
  {
    var others := OtherLines(lines);
    ScanState(
      HeadersAfter(st.headers, others),
      SeqnAfter(st.seqn, SeqnLines(lines)),
      st.records + SplitAll(RowLines(st.headers, others)))
  }

  lemma {:induction false} SplitAllCons(row: string, rows: seq<string>)
    ensures SplitAll([row] + rows) == [Split(row, '|')] + SplitAll(rows)
  {
    assert |SplitAll([row] + rows)| == |[Split(row, '|')] + SplitAll(rows)|;
    forall i | 0 <= i < 1 + |rows|
      ensures SplitAll([row] + rows)[i] == ([Split(row, '|')] + SplitAll(rows))[i]
    {
      if i > 0 {
        assert ([row] + rows)[i] == rows[i - 1];
      }
    }
  }

  /** One step of the loop on a seqn line. */
  lemma {:induction false} StepSeqnLine(st: ScanState, lines: seq<string>)
    requires lines != [] && IsSeqnLine(lines[0])
    requires st.seqn.None? && SeqnNumber(lines[0]).Ok?
    ensures Scan(lines, st) == Scan(lines[1..], st.(seqn := Some(SeqnNumber(lines[0]).value)))
  {
  }

  lemma {:induction false} AcceptsSeqnLine(st: ScanState, lines: seq<string>)
    requires lines != [] && IsSeqnLine(lines[0])
    requires st.seqn.None? && SeqnNumber(lines[0]).Ok?
    ensures var next := st.(seqn := Some(SeqnNumber(lines[0]).value));
            && (Accepts(st, lines) <==> Accepts(next, lines[1..]))
            && Expected(st, lines) == Expected(next, lines[1..])
  {
    SortSeqnLine(lines);
    FirstSeqnAccepted(lines[0], SeqnLines(lines[1..]));
  }

  lemma {:induction false} SortSeqnLine(lines: seq<string>)
    requires lines != [] && IsSeqnLine(lines[0])
    ensures SeqnLines(lines) == [lines[0]] + SeqnLines(lines[1..])
    ensures OtherLines(lines) == OtherLines(lines[1..])
  {
  }

  lemma {:induction false} FirstSeqnAccepted(line: string, seqns: seq<string>)
    requires IsSeqnLine(line) && SeqnNumber(line).Ok?
    requires forall i :: 0 <= i < |seqns| ==> IsSeqnLine(seqns[i])
    ensures var n := SeqnNumber(line).value;
            && (SeqnsAccepted(None, [line] + seqns) <==> SeqnsAccepted(Some(n), seqns))
            && SeqnAfter(None, [line] + seqns) == SeqnAfter(Some(n), seqns)
  {
    assert ([line] + seqns)[0] == line;
  }

  /** One step of the loop on the header line. */
  lemma {:induction false} StepHeaderLine(st: ScanState, lines: seq<string>)
    requires lines != [] && !IsSeqnLine(lines[0])
    requires st.headers.None? && ParseHeaderLine(lines[0]).Ok?
    ensures Scan(lines, st) == Scan(lines[1..], st.(headers := Some(ParseHeaderLine(lines[0]).value)))
  {
  }

  lemma {:induction false} OthersAfterHeader(line: string, others: seq<string>)
    requires ParseHeaderLine(line).Ok?
    ensures HeadersAfter(None, [line] + others) == Some(ParseHeaderLine(line).value)
    ensures RowLines(None, [line] + others) == others
    ensures OthersAccepted(None, [line] + others) <==> OthersAccepted(Some(ParseHeaderLine(line).value), others)
  {
    assert ([line] + others)[0] == line && ([line] + others)[1..] == others;
  }

  lemma {:induction false} AcceptsHeaderLine(st: ScanState, lines: seq<string>)
    requires lines != [] && !IsSeqnLine(lines[0])
    requires st.headers.None? && ParseHeaderLine(lines[0]).Ok?
    ensures var next := st.(headers := Some(ParseHeaderLine(lines[0]).value));
            && (Accepts(st, lines) <==> Accepts(next, lines[1..]))
            && Expected(st, lines) == Expected(next, lines[1..])
  {
    assert SeqnLines(lines) == SeqnLines(lines[1..]);
    assert OtherLines(lines) == [lines[0]] + OtherLines(lines[1..]);
    OthersAfterHeader(lines[0], OtherLines(lines[1..]));
  }

  /** One step of the loop on a row of the right width. */
  lemma {:induction false} StepRowLine(st: ScanState, lines: seq<string>)
    requires lines != [] && !IsSeqnLine(lines[0])
    requires st.headers.Some? && |Split(lines[0], '|')| == |st.headers.value|
    ensures Scan(lines, st) == Scan(lines[1..], st.(records := st.records + [Split(lines[0], '|')]))
  {
  }

  lemma {:induction false} OthersAfterRow(headers: seq<Header>, line: string, others: seq<string>)
    requires |Split(line, '|')| == |headers|
    ensures OthersAccepted(Some(headers), [line] + others) <==> OthersAccepted(Some(headers), others)
  {
    var rows := [line] + others;
    assert RowLines(Some(headers), rows) == rows && RowLines(Some(headers), others) == others;
    assert HeadersAfter(Some(headers), rows) == HeadersAfter(Some(headers), others) == Some(headers);
    RowsFitCons(line, others, |headers|);
  }

  lemma {:induction false} AcceptsRowLine(st: ScanState, lines: seq<string>)
    requires lines != [] && !IsSeqnLine(lines[0])
    requires st.headers.Some? && |Split(lines[0], '|')| == |st.headers.value|
    ensures var next := st.(records := st.records + [Split(lines[0], '|')]);
            && (Accepts(st, lines) <==> Accepts(next, lines[1..]))
            && Expected(st, lines) == Expected(next, lines[1..])
  {
    var others := OtherLines(lines[1..]);
    assert SeqnLines(lines) == SeqnLines(lines[1..]);
    assert OtherLines(lines) == [lines[0]] + others;
    OthersAfterRow(st.headers.value, lines[0], others);
    SplitAllCons(lines[0], others);
    assert st.records + ([Split(lines[0], '|')] + SplitAll(others))
        == (st.records + [Split(lines[0], '|')]) + SplitAll(others);
  }

  /** The loop succeeds from `st` exactly on the lines Accepts describes, and ends in the
      state Expected describes. */
  lemma {:induction false} ScanCharacterized(st: ScanState, lines: seq<string>)
    ensures Scan(lines, st).Ok? <==> Accepts(st, lines)
    ensures Accepts(st, lines) ==> Scan(lines, st) == Ok(Expected(st, lines))
    decreases |lines|
  {
    if lines == [] {
      assert SeqnLines(lines) == [] && OtherLines(lines) == [];
      assert st.records + SplitAll([]) == st.records;
    } else {
      var line := lines[0];
      if IsSeqnLine(line) {
        assert SeqnLines(lines) == [line] + SeqnLines(lines[1..]);
        assert SeqnLines(lines)[0] == line;
        if st.seqn.None? && SeqnNumber(line).Ok? {
          StepSeqnLine(st, lines);
          AcceptsSeqnLine(st, lines);
          ScanCharacterized(st.(seqn := Some(SeqnNumber(line).value)), lines[1..]);
        }
      } else {
        assert OtherLines(lines) == [line] + OtherLines(lines[1..]);
        if st.headers.None? {
          if ParseHeaderLine(line).Ok? {
            StepHeaderLine(st, lines);
            AcceptsHeaderLine(st, lines);
            ScanCharacterized(st.(headers := Some(ParseHeaderLine(line).value)), lines[1..]);
          }
        } else if |Split(line, '|')| == |st.headers.value| {
          StepRowLine(st, lines);
          AcceptsRowLine(st, lines);
          ScanCharacterized(st.(records := st.records + [Split(line, '|')]), lines[1..]);
        } else {
          assert RowLines(st.headers, OtherLines(lines))[0] == line;
        }
      }
    }
  }

  lemma {:induction false} SeqnsWellFormed(seqns: seq<string>)
    requires forall i :: 0 <= i < |seqns| ==> IsSeqnLine(seqns[i])
    ensures (|seqns| == 1 && SeqnNumber(seqns[0]).Ok?) <==> SeqnsAccepted(None, seqns) && seqns != []
  {
  }

  lemma {:induction false} OthersWellFormed(others: seq<string>)
    ensures (|others| >= 1 && ParseHeaderLine(others[0]).Ok?
             && RowsFit(others[1..], |ParseHeaderLine(others[0]).value|))
            <==> OthersAccepted(None, others) && others != []
  {
    if others != [] && ParseHeaderLine(others[0]).Ok? {
      assert HeadersAfter(None, others) == Some(ParseHeaderLine(others[0]).value);
      assert RowLines(None, others) == others[1..];
    }
  }

  /** From the start, accepted lines with a seqn line and another line are the well-formed ones. */
  lemma {:induction false} WellFormedAccepted(lines: seq<string>)
    ensures WellFormed(lines) <==> Accepts(INITIAL, lines) && SeqnLines(lines) != [] && OtherLines(lines) != []
  {
    SeqnsWellFormed(SeqnLines(lines));
    OthersWellFormed(OtherLines(lines));
  }

  /** The state the loop ends in holds the table the text denotes. */
  lemma {:induction false} DenotationExpected(lines: seq<string>)
    requires WellFormed(lines)
    ensures var d := Denotation(lines);
            Expected(INITIAL, lines) == ScanState(Some(d.headers), Some(d.seqn), d.records)
  {
    assert [] + SplitAll(OtherLines(lines)[1..]) == SplitAll(OtherLines(lines)[1..]);
  }

  /** `Response::try_from` accepts exactly the well-formed texts, and returns the table they
      denote. */
  lemma {:induction false} ParseResponseCharacterized(input: string)
    ensures ParseResponse(input).Ok? <==> WellFormed(Lines(input))
    ensures WellFormed(Lines(input)) ==> ParseResponse(input) == Ok(Denotation(Lines(input)))
  {
    var lines := Lines(input);
    ScanCharacterized(INITIAL, lines);
    WellFormedAccepted(lines);
    if Accepts(INITIAL, lines) {
      var st := Expected(INITIAL, lines);
      assert Scan(lines, INITIAL) == Ok(st);
      assert st.headers.Some? <==> OtherLines(lines) != [];
      assert st.seqn.Some? <==> SeqnLines(lines) != [];
      if WellFormed(lines) {
        DenotationExpected(lines);
      }
    }
  }

  /** The loop over `a + b` is the loop over `a`, then over `b` from where it stopped. */
  lemma {:induction false} ScanAppend(a: seq<string>, b: seq<string>, st: ScanState)
    ensures Scan(a + b, st) == match Scan(a, st) case Err(e) => Err(e) case Ok(mid) => Scan(b, mid)
    decreases |a|
  {
    if a == [] {
      assert a + b == b;
    } else {
      assert (a + b)[0] == a[0] && (a + b)[1..] == a[1..] + b;
      match Step(st, a[0])
      case Err(_) =>
      case Ok(next) => ScanAppend(a[1..], b, next);
    }
  }

  lemma {:induction false} ScanCons(line: string, after: seq<string>, st: ScanState)
    ensures Step(st, line).Err? ==> Scan([line] + after, st) == Err(Step(st, line).error)
    ensures Step(st, line).Ok? ==> Scan([line] + after, st) == Scan(after, Step(st, line).value)
  {
    assert ([line] + after)[0] == line && ([line] + after)[1..] == after;
  }

  /** Where the text is cut: the loop gets through `before` and stops at `line`. */
  lemma {:induction false} StopsAt(input: string, before: seq<string>, line: string, after: seq<string>)
    requires Lines(input) == before + [line] + after
    requires Accepts(INITIAL, before)
    ensures Step(Expected(INITIAL, before), line).Err? ==>
              ParseResponse(input) == Err(Step(Expected(INITIAL, before), line).error)
  {
    var mid := Expected(INITIAL, before);
    ScanCharacterized(INITIAL, before);
    var rest := [line] + after;
    RegroupCut(before, line, after);
    ScanAfter(before, rest, INITIAL, mid);
    if Step(mid, line).Err? {
      ScanFails(rest, mid);
    }
  }

  lemma {:induction false} RegroupCut<T>(before: seq<T>, x: T, after: seq<T>)
    ensures before + [x] + after == before + ([x] + after)
  {
  }

  /** A line the loop rejects ends it with that error. */
  lemma {:induction false} ScanFails(lines: seq<string>, st: ScanState)
    requires |lines| >= 1 && Step(st, lines[0]).Err?
    ensures Scan(lines, st) == Err(Step(st, lines[0]).error)
  {
  }

  lemma {:induction false} ScanAfter(a: seq<string>, b: seq<string>, st: ScanState, mid: ScanState)
    requires Scan(a, st) == Ok(mid)
    ensures Scan(a + b, st) == Scan(b, mid)
  {
    ScanAppend(a, b, st);
  }

  /** A second seqn line fails the text, wherever it is and whatever follows it. */
  lemma {:induction false} SecondSeqnRejected(input: string, before: seq<string>, line: string, after: seq<string>)
    requires Lines(input) == before + [line] + after
    requires Accepts(INITIAL, before) && SeqnLines(before) != [] && IsSeqnLine(line)
    ensures ParseResponse(input) == Err(MultipleSeqn)
  {
    StopsAt(input, before, line, after);
  }

  /** A row whose width differs from the header's fails the text with both widths. */
  lemma {:induction false} MismatchedRowRejected(input: string, before: seq<string>, line: string, after: seq<string>, headers: seq<Header>)
    requires Lines(input) == before + [line] + after
    requires Accepts(INITIAL, before) && OtherLines(before) != [] && !IsSeqnLine(line)
    requires ParseHeaderLine(OtherLines(before)[0]) == Ok(headers)
    requires |Split(line, '|')| != |headers|
    ensures ParseResponse(input) == Err(MismatchedRecordLength(|Split(line, '|')|, |headers|))
  {
    assert Expected(INITIAL, before).headers == Some(headers);
    StopsAt(input, before, line, after);
  }

  /** A text without a header line fails with `ExpectedHeaderLine`, even when it also lacks
      the seqn line. */
  lemma {:induction false} NoHeaderLine(input: string)
    requires Accepts(INITIAL, Lines(input)) && OtherLines(Lines(input)) == []
    ensures ParseResponse(input) == Err(ExpectedHeaderLine)
  {
    ScanCharacterized(INITIAL, Lines(input));
  }

  /** A text with a header line and no seqn line fails with `ExpectedSeqnLine`. */
  lemma {:induction false} NoSeqnLine(input: string)
    requires Accepts(INITIAL, Lines(input)) && OtherLines(Lines(input)) != [] && SeqnLines(Lines(input)) == []
    ensures ParseResponse(input) == Err(ExpectedSeqnLine)
  {
    ScanCharacterized(INITIAL, Lines(input));
  }

  /** The empty text has no header line. */
  lemma {:induction false} EmptyInput()
    ensures ParseResponse("") == Err(ExpectedHeaderLine)
  {
    assert Lines("") == [];
  }

  // Writing a table out, the inverse of the parser: the header line, the seqn line and one
  // line per row, joined by newlines, the layout the servers send.

  function SeqnLine(seqn: u32): string
  {
    SEQN_PREFIX + FormatDec(seqn)
  }

  function RowText(values: seq<string>): string
  {
    Join(values, '|')
  }

  function RenderedLines(resp: Response): (lines: seq<string>)
    ensures |lines| == |resp.records| + 2
  {
    [HeaderLineText(resp.headers), SeqnLine(resp.seqn)] + RowTexts(resp.records)
  }

  function RowTexts(records: seq<seq<string>>): (lines: seq<string>)
    ensures |lines| == |records|
  {
    seq(|records|, i requires 0 <= i < |records| => RowText(records[i]))
  }

  function Render(resp: Response): string
  {
    Join(RenderedLines(resp), '\n')
  }

  /** Columns the header line can carry without changing its meaning: at least one, names
      without separators or line breaks, and a first name that does not start the line like a
      seqn line. */
  predicate HeadersWritable(headers: seq<Header>) {
    && |headers| >= 1
    && (forall i :: 0 <= i < |headers| ==> PlainName(headers[i].name) && '\n' !in headers[i].name)
    && !IsSeqnLine(headers[0].name)
  }

  /** A row that can be written on a line of its own: values without separators or line
      breaks, a first value that does not start the line like a seqn line, a last value without
      the `\r` that `str::lines` would take for part of a `\r\n`, and not the empty line, which
      `str::lines` drops at the end of the text. */
  predicate RowWritable(values: seq<string>) {
    && |values| >= 1
    && (forall j :: 0 <= j < |values| ==> '|' !in values[j] && '\n' !in values[j])
    && !IsSeqnLine(values[0])
    && !EndsWithCr(values[|values| - 1])
    && (|values| == 1 ==> values[0] != [])
  }

  predicate RowsWritable(records: seq<seq<string>>) {
    forall i :: 0 <= i < |records| ==> RowWritable(records[i])
  }

  predicate Writable(resp: Response) {
    resp.Valid() && HeadersWritable(resp.headers) && RowsWritable(resp.records)
  }

  /** A line that can stand as the header line for `headers`: it parses to them, holds no line
      break, does not start like a seqn line and does not end in `\r`. */
  predicate HeaderLineFor(header: string, headers: seq<Header>) {
    '\n' !in header && !IsSeqnLine(header) && !EndsWithCr(header) && ParseHeaderLine(header) == Ok(headers)
  }

  /** A line that starts with a text that is not a seqn line, followed by a character the seqn
      prefix does not hold, is not a seqn line. */
  lemma {:induction false} NotSeqnAfter(line: string, first: string)
    requires |first| < |line| && line[..|first|] == first && line[|first|] !in SEQN_PREFIX
    requires !IsSeqnLine(first)
    ensures !IsSeqnLine(line)
  {
    if |first| >= |SEQN_PREFIX| {
      assert line[..|SEQN_PREFIX|] == first[..|SEQN_PREFIX|];
    }
  }

  lemma {:induction false} SeqnLineFacts(seqn: u32)
    ensures var line := SeqnLine(seqn);
            IsSeqnLine(line) && '\n' !in line && !EndsWithCr(line) && SeqnNumber(line) == Ok(seqn)
  {
    var line := SeqnLine(seqn);
    assert line[..|SEQN_PREFIX|] == SEQN_PREFIX && line[|SEQN_PREFIX|..] == FormatDec(seqn);
    assert line[|line| - 1] == FormatDec(seqn)[|FormatDec(seqn)| - 1];
    ParseFormatDec(seqn, U32_MAX);
  }

  lemma {:induction false} RowLineFacts(values: seq<string>)
    requires RowWritable(values)
    ensures var line := RowText(values);
            line != [] && '\n' !in line && !IsSeqnLine(line) && !EndsWithCr(line) && Split(line, '|') == values
  {
    var line := RowText(values);
    var last := values[|values| - 1];
    JoinNotIn(values, '|', '\n');
    JoinEnd(values, '|');
    JoinStart(values, '|');
    SplitJoin(values, '|');
    if |values| >= 2 {
      NotSeqnAfter(line, values[0]);
    }
  }

  /** The header line does not start like a seqn line. */
  lemma {:induction false} HeaderLineNotSeqn(headers: seq<Header>)
    requires HeadersWritable(headers)
    ensures !IsSeqnLine(HeaderLineText(headers))
  {
    var pieces := seq(|headers|, i requires 0 <= i < |headers| => HeaderText(headers[i]));
    var line, name := HeaderLineText(headers), headers[0].name;
    JoinStart(pieces, '|');
    assert pieces[0] == name + "!" + TypeText(headers[0].typ);
    assert line[..|name|] == name && line[|name|] == '!';
    NotSeqnAfter(line, name);
  }

  /** The header line holds no line break and ends with the last column's length digit. */
  lemma {:induction false} HeaderLineChars(headers: seq<Header>)
    requires |headers| >= 1 && forall i :: 0 <= i < |headers| ==> '\n' !in headers[i].name
    ensures '\n' !in HeaderLineText(headers) && !EndsWithCr(HeaderLineText(headers))
  {
    var pieces := seq(|headers|, i requires 0 <= i < |headers| => HeaderText(headers[i]));
    forall i | 0 <= i < |pieces| ensures '\n' !in pieces[i] {
    }
    JoinNotIn(pieces, '|', '\n');
    HeaderLineEnd(headers);
  }

  lemma {:induction false} HeaderLineEnd(headers: seq<Header>)
    requires |headers| >= 1
    ensures !EndsWithCr(HeaderLineText(headers))
  {
    var pieces := seq(|headers|, i requires 0 <= i < |headers| => HeaderText(headers[i]));
    var last := pieces[|pieces| - 1];
    assert last == HeaderText(headers[|headers| - 1]);
    HeaderTextEnd(headers[|headers| - 1]);
    LastCharOfJoin(pieces, '|', last);
  }

  lemma {:induction false} LastCharOfJoin(pieces: seq<string>, c: char, last: string)
    requires |pieces| >= 1 && pieces[|pieces| - 1] == last && last != [] && '0' <= last[|last| - 1] <= '9'
    ensures !EndsWithCr(Join(pieces, c))
  {
    var s := Join(pieces, c);
    JoinEnd(pieces, c);
    assert s[|s| - 1] == last[|last| - 1];
    assert s[|s| - 1] != '\r';
  }

  lemma {:induction false} HeaderTextEnd(h: Header)
    ensures '0' <= HeaderText(h)[|HeaderText(h)| - 1] <= '9'
  {
    assert HeaderText(h)[|HeaderText(h)| - 1] == TypeText(h.typ)[|TypeText(h.typ)| - 1];
  }

  lemma {:induction false} HeaderLineFacts(headers: seq<Header>)
    requires HeadersWritable(headers)
    ensures var line := HeaderLineText(headers);
            '\n' !in line && !IsSeqnLine(line) && !EndsWithCr(line) && ParseHeaderLine(line) == Ok(headers)
  {
    HeaderLineChars(headers);
    HeaderLineNotSeqn(headers);
    HeaderLineRoundTrip(headers);
  }

  lemma {:induction false} NoSeqnLinesIn(rows: seq<string>)
    requires forall i :: 0 <= i < |rows| ==> !IsSeqnLine(rows[i])
    ensures SeqnLines(rows) == [] && OtherLines(rows) == rows
  {
    if rows != [] {
      NoSeqnLinesIn(rows[1..]);
      assert rows == [rows[0]] + rows[1..];
    }
  }

  /** A header line, a seqn line and rows: the seqn line is picked out, the others keep their
      order. */
  lemma {:induction false} SortedLines(lines: seq<string>)
    requires |lines| >= 2 && !IsSeqnLine(lines[0]) && IsSeqnLine(lines[1])
    requires forall k :: 2 <= k < |lines| ==> !IsSeqnLine(lines[k])
    ensures SeqnLines(lines) == [lines[1]]
    ensures OtherLines(lines) == [lines[0]] + lines[2..]
  {
    var rest := lines[2..];
    NoSeqnLinesIn(rest);
    assert lines[1..][1..] == rest;
    SortedSeqnLines(lines[0], lines[1..]);
    SortedOtherLines(lines[0], lines[1..]);
  }

  lemma {:induction false} SortedSeqnLines(header: string, tail: seq<string>)
    requires |tail| >= 1 && !IsSeqnLine(header) && IsSeqnLine(tail[0]) && SeqnLines(tail[1..]) == []
    ensures SeqnLines([header] + tail) == [tail[0]]
  {
    assert ([header] + tail)[1..] == tail;
  }

  lemma {:induction false} SortedOtherLines(header: string, tail: seq<string>)
    requires |tail| >= 1 && !IsSeqnLine(header) && IsSeqnLine(tail[0])
    ensures OtherLines([header] + tail) == [header] + OtherLines(tail[1..])
  {
    var lines := [header] + tail;
    assert lines[0] == header && lines[1..] == tail;
    assert OtherLines(tail) == [] + OtherLines(tail[1..]);
    assert OtherLines(lines) == [header] + OtherLines(tail);
  }

  lemma {:induction false} RowTextsFacts(records: seq<seq<string>>)
    requires forall i :: 0 <= i < |records| ==> RowWritable(records[i])
    ensures var lines := RowTexts(records);
            forall k :: 0 <= k < |lines| ==>
              && lines[k] != [] && '\n' !in lines[k] && !IsSeqnLine(lines[k]) && !EndsWithCr(lines[k])
              && Split(lines[k], '|') == records[k]
  {
    forall k | 0 <= k < |records|
      ensures var line := RowTexts(records)[k];
              && line != [] && '\n' !in line && !IsSeqnLine(line) && !EndsWithCr(line)
              && Split(line, '|') == records[k]
    {
      RowLineFacts(records[k]);
    }
  }

  /** At least two lines, none of which holds a line break or ends with `\r`, the second and
      every later one not empty, come back from the joined text. */
  lemma {:induction false} JoinedLines(lines: seq<string>)
    requires |lines| >= 2 && lines[1] != []
    requires forall k :: 0 <= k < |lines| ==> '\n' !in lines[k] && !EndsWithCr(lines[k])
    requires forall k :: 2 <= k < |lines| ==> lines[k] != []
    ensures Lines(Join(lines, '\n')) == lines
  {
    LinesOfJoin(lines);
  }

  lemma {:induction false} RenderedLineShapes(header: string, seqn: string, rows: seq<string>)
    requires '\n' !in header && !EndsWithCr(header) && '\n' !in seqn && !EndsWithCr(seqn) && seqn != []
    requires forall k :: 0 <= k < |rows| ==> rows[k] != [] && '\n' !in rows[k] && !EndsWithCr(rows[k])
    requires !IsSeqnLine(header) && IsSeqnLine(seqn) && forall k :: 0 <= k < |rows| ==> !IsSeqnLine(rows[k])
    ensures var lines := [header, seqn] + rows;
            && |lines| >= 2 && lines[1] != [] && lines[2..] == rows
            && (forall k :: 0 <= k < |lines| ==> '\n' !in lines[k] && !EndsWithCr(lines[k]))
            && (forall k :: 2 <= k < |lines| ==> lines[k] != [])
            && !IsSeqnLine(lines[0]) && IsSeqnLine(lines[1]) && (forall k :: 2 <= k < |lines| ==> !IsSeqnLine(lines[k]))
  {
  }

  /** Parsing a written-out table gives the table back. */
  lemma {:induction false} RenderRoundTrip(resp: Response)
    requires Writable(resp)
    ensures ParseResponse(Render(resp)) == Ok(resp)
  {
    HeaderLineFacts(resp.headers);
    assert Render(resp) == Join([HeaderLineText(resp.headers), SeqnLine(resp.seqn)] + RowTexts(resp.records), '\n');
    WrittenRoundTrip(HeaderLineText(resp.headers), resp);
  }

  /** The same holds for any header line that parses to the table's columns, however it spells
      their types: a header line, the seqn line and the rows, joined by newlines, parse to the
      table. */
  lemma {:induction false} WrittenRoundTrip(header: string, resp: Response)
    requires resp.Valid() && RowsWritable(resp.records) && HeaderLineFor(header, resp.headers)
    ensures ParseResponse(Join([header, SeqnLine(resp.seqn)] + RowTexts(resp.records), '\n')) == Ok(resp)
  {
    var lines := [header, SeqnLine(resp.seqn)] + RowTexts(resp.records);
    WrittenLines(header, resp);
    ParseResponseCharacterized(Join(lines, '\n'));
  }

  /** Those lines come back from the joined text, and they are a well-formed text that denotes
      the table. */
  lemma {:induction false} WrittenLines(header: string, resp: Response)
    requires resp.Valid() && RowsWritable(resp.records) && HeaderLineFor(header, resp.headers)
    ensures var lines := [header, SeqnLine(resp.seqn)] + RowTexts(resp.records);
            Lines(Join(lines, '\n')) == lines && WellFormed(lines) && Denotation(lines) == resp
  {
    var seqn, rows := SeqnLine(resp.seqn), RowTexts(resp.records);
    SeqnLineFacts(resp.seqn);
    RowTextsFacts(resp.records);
    RenderedLineShapes(header, seqn, rows);
    JoinedLines([header, seqn] + rows);
    WrittenDenotes(header, seqn, rows, resp);
  }

  /** Lines of that shape are well formed, and they denote the table. */
  lemma {:induction false} WrittenDenotes(header: string, seqn: string, rows: seq<string>, resp: Response)
    requires resp.Valid() && HeaderLineFor(header, resp.headers)
    requires IsSeqnLine(seqn) && SeqnNumber(seqn) == Ok(resp.seqn)
    requires |rows| == |resp.records| && forall k :: 0 <= k < |rows| ==> !IsSeqnLine(rows[k]) && Split(rows[k], '|') == resp.records[k]
    ensures WellFormed([header, seqn] + rows) && Denotation([header, seqn] + rows) == resp
  {
    var lines := [header, seqn] + rows;
    assert lines[0] == header && lines[1] == seqn && lines[2..] == rows;
    SortedLines(lines);
    assert ([header] + rows)[1..] == rows;
    assert RowsFit(rows, |resp.headers|);
    assert SplitAll(rows) == resp.records;
  }
}
