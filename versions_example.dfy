/** The unit test of src/response/versions.rs, stated about the model: the text it reads
    decodes to the response it expects. */
module VersionsExample {
  import opened Wrappers
  import opened RustStr
  import opened RustNum
  import opened Base
  import opened Fields
  import Table
  import opened Versions

  /** The cells of the test's header line; it spells one type `String`, in mixed case. */
  const HEADER_CELLS: seq<string> := [
    "Region!STRING:0", "BuildConfig!HEX:16", "CDNConfig!HEX:16", "KeyRing!HEX:16", "BuildId!DEC:4",
    "VersionsName!String:0", "ProductConfig!HEX:16"]

  /** The cells of the test's two rows, which differ only in the region. */
  const US_CELLS: seq<string> := [
    "us", "47e9e06f8371afb141e22614a912acc8", "74093d42ce367c7a67f2831dbf64088d", "", "53584", "10.2.5.53584",
    "53020d32e1a25648c8e1eafd5771935f"]
  const EU_CELLS: seq<string> := [
    "eu", "47e9e06f8371afb141e22614a912acc8", "74093d42ce367c7a67f2831dbf64088d", "", "53584", "10.2.5.53584",
     "53020d32e1a25648c8e1eafd5771935f"]

  /** The lines of the test's text, each written as its cells joined by `|`. */
  const INPUT_LINES: seq<string> :=
    [Join(HEADER_CELLS, '|'), "## seqn = 2118468", Join(US_CELLS, '|'), Join(EU_CELLS, '|')]

  const INPUT: string := Join(INPUT_LINES, '\n')

  const BUILD_CONFIG: Hex16 := [0x47, 0xe9, 0xe0, 0x6f, 0x83, 0x71, 0xaf, 0xb1, 0x41, 0xe2, 0x26, 0x14, 0xa9, 0x12, 0xac, 0xc8]
  const CDN_CONFIG: Hex16 := [0x74, 0x09, 0x3d, 0x42, 0xce, 0x36, 0x7c, 0x7a, 0x67, 0xf2, 0x83, 0x1d, 0xbf, 0x64, 0x08, 0x8d]
  const PRODUCT_CONFIG: Hex16 := [0x53, 0x2, 0xd, 0x32, 0xe1, 0xa2, 0x56, 0x48, 0xc8, 0xe1, 0xea, 0xfd, 0x57, 0x71, 0x93, 0x5f]

  /** The two records the test expects. */
  const US_RECORD: VersionsRecord := VersionsRecord("us", BUILD_CONFIG, CDN_CONFIG, None, 53584, "10.2.5.53584", PRODUCT_CONFIG)
  const EU_RECORD: VersionsRecord := VersionsRecord("eu", BUILD_CONFIG, CDN_CONFIG, None, 53584, "10.2.5.53584", PRODUCT_CONFIG)

  const EXPECTED: Response := Response(2118468, [US_RECORD, EU_RECORD])

  /** The test's text decodes to the response the test expects. */
  lemma {:induction false} Decodes()
    ensures FromText(INPUT) == Ok(EXPECTED)
  {
    Parses();
    TableRoundTrip(EXPECTED);
  }

  /** The test's text parses to the table the model writes for the expected response, under
      the test's own header line. */
  lemma {:induction false} Parses()
    ensures Table.ParseResponse(INPUT) == Ok(TableOf(EXPECTED))
  {
    HeaderLine();
    RowsWritable();
    WrittenLines();
    Table.WrittenRoundTrip(INPUT_LINES[0], TableOf(EXPECTED));
  }

  /** The test's lines are its header line, then the seqn line and the rows the model writes. */
  lemma {:induction false} WrittenLines()
    ensures INPUT_LINES == [INPUT_LINES[0], Table.SeqnLine(2118468)] + Table.RowTexts(TableOf(EXPECTED).records)
  {
    TwoRows(2118468, US_RECORD, EU_RECORD);
    Row(US_RECORD);
    Row(EU_RECORD);
    assert US_CELLS == RowCells(US_RECORD) && EU_CELLS == RowCells(EU_RECORD);
    SeqnLine();
  }

  lemma {:induction false} TwoRows(seqn: u32, a: VersionsRecord, b: VersionsRecord)
    ensures Table.RowTexts(TableOf(Response(seqn, [a, b])).records) == [Table.RowText(RowValues(a)), Table.RowText(RowValues(b))]
  {
  }

  lemma {:induction false} RowsWritable()
    ensures Table.RowsWritable(TableOf(EXPECTED).records)
  {
    var recs := EXPECTED.records;
    Writable(US_RECORD);
    Writable(EU_RECORD);
    forall i | 0 <= i < |recs| ensures Table.RowWritable(RowValues(recs[i])) {
      RowWritable(recs[i]);
    }
  }

  lemma {:induction false} Writable(v: VersionsRecord)
    requires (v.region == "us" || v.region == "eu") && v.versionsName == "10.2.5.53584"
    ensures RecordWritable(v)
  {
  }

  /** The header line parses to the standard columns, and can stand as the header line. */
  lemma {:induction false} HeaderLine()
    ensures Table.HeaderLineFor(Join(HEADER_CELLS, '|'), HEADERS)
  {
    var line := Join(HEADER_CELLS, '|');
    HeaderCells();
    Spellings();
    SpelledHeaderLine(HEADERS, SPELLINGS);
    CellChars();
    JoinNotIn(HEADER_CELLS, '|', '\n');
    JoinStart(HEADER_CELLS, '|');
    assert line[0] == HEADER_CELLS[0][0];
    JoinEnd(HEADER_CELLS, '|');
  }

  /** How the test spells each column's type name. */
  const SPELLINGS: seq<string> := ["STRING", "HEX", "HEX", "HEX", "DEC", "String", "HEX"]

  lemma {:induction false} Spellings()
    ensures |SPELLINGS| == |HEADERS|
    ensures forall i :: 0 <= i < |HEADERS| ==>
              && PlainName(HEADERS[i].name) && ':' !in SPELLINGS[i] && '|' !in SPELLINGS[i]
              && AsciiUpper(SPELLINGS[i]) == TypeNameText(HEADERS[i].typ.name)
  {
    HeadersWritable();
    UpperNames();
  }

  lemma {:induction false} UpperNames()
    ensures AsciiUpper("STRING") == "STRING" && AsciiUpper("String") == "STRING"
    ensures AsciiUpper("HEX") == "HEX" && AsciiUpper("DEC") == "DEC"
  {
  }

  /** The header cells are the columns, spelled as the test spells them. */
  lemma {:induction false} HeaderCells()
    ensures HEADER_CELLS == seq(|HEADERS|, i requires 0 <= i < |HEADERS| => SpelledHeaderText(HEADERS[i], SPELLINGS[i]))
  {
    Lengths();
    FirstCells();
    LastCells();
  }

  lemma {:induction false} Lengths()
    ensures FormatDec(0) == "0" && FormatDec(4) == "4" && FormatDec(16) == "16"
  {
    FormatDecStep(1, "1", 6);
  }

  lemma {:induction false} FirstCells()
    requires FormatDec(0) == "0" && FormatDec(16) == "16"
    ensures SpelledHeaderText(HEADERS[0], SPELLINGS[0]) == HEADER_CELLS[0]
    ensures SpelledHeaderText(HEADERS[1], SPELLINGS[1]) == HEADER_CELLS[1]
    ensures SpelledHeaderText(HEADERS[2], SPELLINGS[2]) == HEADER_CELLS[2]
    ensures SpelledHeaderText(HEADERS[3], SPELLINGS[3]) == HEADER_CELLS[3]
  {
  }

  lemma {:induction false} LastCells()
    requires FormatDec(0) == "0" && FormatDec(4) == "4" && FormatDec(16) == "16"
    ensures SpelledHeaderText(HEADERS[4], SPELLINGS[4]) == HEADER_CELLS[4]
    ensures SpelledHeaderText(HEADERS[5], SPELLINGS[5]) == HEADER_CELLS[5]
    ensures SpelledHeaderText(HEADERS[6], SPELLINGS[6]) == HEADER_CELLS[6]
  {
  }

  lemma {:induction false} CellChars()
    ensures forall i :: 0 <= i < |HEADER_CELLS| ==> '\n' !in HEADER_CELLS[i]
    ensures HEADER_CELLS[0][0] == 'R'
    ensures var last := HEADER_CELLS[|HEADER_CELLS| - 1]; last[|last| - 1] == '6'
  {
    FirstCellChars();
    LastCellChars();
  }

  lemma {:induction false} FirstCellChars()
    ensures '\n' !in "Region!STRING:0" && '\n' !in "BuildConfig!HEX:16" && '\n' !in "CDNConfig!HEX:16"
    ensures '\n' !in "KeyRing!HEX:16"
  {
  }

  lemma {:induction false} LastCellChars()
    ensures '\n' !in "BuildId!DEC:4" && '\n' !in "VersionsName!String:0" && '\n' !in "ProductConfig!HEX:16"
  {
  }

  lemma {:induction false} SeqnLine()
    ensures Table.SeqnLine(2118468) == "## seqn = 2118468"
  {
    assert FormatDec(2) == "2";
    FormatDecStep(2, "2", 1);
    FormatDecStep(21, "21", 1);
    FormatDecStep(211, "211", 8);
    FormatDecStep(2118, "2118", 4);
    FormatDecStep(21184, "21184", 6);
    FormatDecStep(211846, "211846", 8);
  }

  /** The cells the test writes for a record with the test's hashes and build. */
  function RowCells(v: VersionsRecord): seq<string>
  {
    [v.region, "47e9e06f8371afb141e22614a912acc8", "74093d42ce367c7a67f2831dbf64088d", "", "53584", v.versionsName,
     "53020d32e1a25648c8e1eafd5771935f"]
  }

  /** A row of the test is the row the model writes for its record. */
  lemma {:induction false} Row(v: VersionsRecord)
    requires v.buildConfig == BUILD_CONFIG && v.cdnConfig == CDN_CONFIG && v.keyRing == None
    requires v.buildId == 53584 && v.productConfig == PRODUCT_CONFIG
    ensures RowValues(v) == RowCells(v)
  {
    BuildConfigText();
    CdnConfigText();
    ProductConfigText();
    BuildId();
  }

  lemma {:induction false} BuildId()
    ensures FormatDec(53584) == "53584"
  {
    assert FormatDec(5) == "5";
    FormatDecStep(5, "5", 3);
    FormatDecStep(53, "53", 5);
    FormatDecStep(535, "535", 8);
    FormatDecStep(5358, "5358", 4);
  }

  /** The text of 16 bytes is the texts of its four quarters. */
  lemma {:induction false} Quarters(x: Hex16)
    ensures HexText(x) == HexText(x[..4]) + HexText(x[4..8]) + HexText(x[8..12]) + HexText(x[12..])
  {
    assert x == x[..4] + x[4..8] + x[8..12] + x[12..];
    HexTextAppend(x[..4], x[4..8]);
    HexTextAppend(x[..4] + x[4..8], x[8..12]);
    HexTextAppend(x[..4] + x[4..8] + x[8..12], x[12..]);
  }

  lemma {:induction false} BuildConfigText()
    ensures HexText(BUILD_CONFIG) == "47e9e06f8371afb141e22614a912acc8"
  {
    Quarters(BUILD_CONFIG);
    assert BUILD_CONFIG[..4] == [0x47, 0xe9, 0xe0, 0x6f];
    assert BUILD_CONFIG[4..8] == [0x83, 0x71, 0xaf, 0xb1];
    assert BUILD_CONFIG[8..12] == [0x41, 0xe2, 0x26, 0x14];
    assert BUILD_CONFIG[12..] == [0xa9, 0x12, 0xac, 0xc8];
    Build0(); Build1(); Build2(); Build3();
    BuildText();
  }

  lemma {:induction false} BuildText()
    ensures "47e9e06f" + "8371afb1" + "41e22614" + "a912acc8" == "47e9e06f8371afb141e22614a912acc8"
  {
  }

  lemma {:induction false} Build0() ensures HexText([0x47, 0xe9, 0xe0, 0x6f]) == "47e9e06f" { }
  lemma {:induction false} Build1() ensures HexText([0x83, 0x71, 0xaf, 0xb1]) == "8371afb1" { }
  lemma {:induction false} Build2() ensures HexText([0x41, 0xe2, 0x26, 0x14]) == "41e22614" { }
  lemma {:induction false} Build3() ensures HexText([0xa9, 0x12, 0xac, 0xc8]) == "a912acc8" { }

  lemma {:induction false} CdnConfigText()
    ensures HexText(CDN_CONFIG) == "74093d42ce367c7a67f2831dbf64088d"
  {
    Quarters(CDN_CONFIG);
    assert CDN_CONFIG[..4] == [0x74, 0x09, 0x3d, 0x42];
    assert CDN_CONFIG[4..8] == [0xce, 0x36, 0x7c, 0x7a];
    assert CDN_CONFIG[8..12] == [0x67, 0xf2, 0x83, 0x1d];
    assert CDN_CONFIG[12..] == [0xbf, 0x64, 0x08, 0x8d];
    Cdn0(); Cdn1(); Cdn2(); Cdn3();
    CdnText();
  }

  lemma {:induction false} CdnText()
    ensures "74093d42" + "ce367c7a" + "67f2831d" + "bf64088d" == "74093d42ce367c7a67f2831dbf64088d"
  {
  }

  lemma {:induction false} Cdn0() ensures HexText([0x74, 0x09, 0x3d, 0x42]) == "74093d42" { }
  lemma {:induction false} Cdn1() ensures HexText([0xce, 0x36, 0x7c, 0x7a]) == "ce367c7a" { }
  lemma {:induction false} Cdn2() ensures HexText([0x67, 0xf2, 0x83, 0x1d]) == "67f2831d" { }
  lemma {:induction false} Cdn3() ensures HexText([0xbf, 0x64, 0x08, 0x8d]) == "bf64088d" { }

  lemma {:induction false} ProductConfigText()
    ensures HexText(PRODUCT_CONFIG) == "53020d32e1a25648c8e1eafd5771935f"
  {
    Quarters(PRODUCT_CONFIG);
    assert PRODUCT_CONFIG[..4] == [0x53, 0x2, 0xd, 0x32];
    assert PRODUCT_CONFIG[4..8] == [0xe1, 0xa2, 0x56, 0x48];
    assert PRODUCT_CONFIG[8..12] == [0xc8, 0xe1, 0xea, 0xfd];
    assert PRODUCT_CONFIG[12..] == [0x57, 0x71, 0x93, 0x5f];
    Product0(); Product1(); Product2(); Product3();
    ProductText();
  }

  lemma {:induction false} ProductText()
    ensures "53020d32" + "e1a25648" + "c8e1eafd" + "5771935f" == "53020d32e1a25648c8e1eafd5771935f"
  {
  }

  lemma {:induction false} Product0() ensures HexText([0x53, 0x2, 0xd, 0x32]) == "53020d32" { }
  lemma {:induction false} Product1() ensures HexText([0xe1, 0xa2, 0x56, 0x48]) == "e1a25648" { }
  lemma {:induction false} Product2() ensures HexText([0xc8, 0xe1, 0xea, 0xfd]) == "c8e1eafd" { }
  lemma {:induction false} Product3() ensures HexText([0x57, 0x71, 0x93, 0x5f]) == "5771935f" { }
}
