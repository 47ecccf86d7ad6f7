# wownow: TACT response decoding, modelled in Dafny

wownow asks Blizzard's TACT version servers about products. It decodes the plain-text responses
they send back. A response is a table:

- a header line of `|`-separated columns, each written `Name!TYPE:LEN`;
- a `## seqn = N` line carrying a sequence number;
- one `|`-separated row per line, each with exactly one value per column.

The decoder reads this in one pass over the lines of the text. It knows the seqn line by its
prefix, takes the first other line as the header line and every later one as a row. From the
resulting table, the `versions` and `summary` schemas pick their columns by name and decode each
value with its declared type:

- `STRING:0`: a string, taken as is;
- `HEX:16`: 16 bytes written in hexadecimal;
- `DEC:4`: a `u32`.

The output layer then cuts each region's version name into a version and a build, collects one
product's versions, and adds products to a fetch record.

The model has one module per part of the program:

- `Wrappers`: `Option`, `Result`, and `MapAll`, the all-or-nothing
  `collect::<Result<Vec<_>, _>>()`.
- `RustStr`: the standard string operations the decoder relies on: `split`, `split_once`,
  `rsplit_once`, `strip_prefix`, `lines`, ASCII upper-casing, and the UTF-8 bytes of a string.
- `RustNum`: `from_str_radix` for bases 2 to 36, with its error kinds, and the decimal
  `Display` of integers.
- `Base`: type names, types, columns and the header line, with their parsing and printing.
- `Table`: the generic response. `ParseResponse` is the loop as a function over the lines.
  `TryFromStr` is the same loop written imperatively, over mutable `headers`, `seqn` and
  `records`. A second, declarative description of the accepted texts (`WellFormed` and
  `Denotation`) is proved equal to the loop. A writer (`Render`) is proved to be undone by
  the parser.
- `Fields`: looking a column up by name, and the four field decoders. The hexadecimal decoder
  is also written as the source writes it: a 16-byte array filled in place, chunk by chunk.
- `Versions` and `Summary`: the two schemas. Each has its record assembly, its conversion of
  the whole table, and round trips from records to text and back.
- `Output`: `Version`, `Product` and the `VersionsFetch` class, whose `products` list grows in
  place.
- `SummaryExample` and `VersionsExample`: the source's two unit tests, stated as facts about the
  model. Each test's text decodes to the response the test expects. The summary text is written
  as its six lines joined by `\n`. The versions lines are long, so each is written as its
  `|`-separated cells joined by `|`. Either way the text is the same as the test's literal.

## Model

| member | source | states |
|---|---|---|
| Wrappers.FirstError | src/response/summary.rs:23-34 | `None` iff every stage succeeds; otherwise the error of the first stage that fails, the `?` order of a sequence of fallible steps |
| Wrappers.MapAll | src/response/versions.rs:93-96 | the collection succeeds iff every element maps to `Ok`; the values are in order, one per element; an error is that of the first element that fails |
| RustStr.SplitOnce | src/response/base.rs:110-112 | `None` iff the separator is absent; otherwise the two parts joined by the separator give the text, and the first part holds no separator (cut at the first one) |
| RustStr.SplitOnceAt | src/response/base.rs:110-112 | a text whose first part holds no separator is cut exactly there |
| RustStr.RSplitOnce | src/output.rs:71 | `None` iff the separator is absent; otherwise the parts joined give the text, and the second part holds no separator (cut at the last one) |
| RustStr.RSplitOnceAt | src/output.rs:71 | a text whose second part holds no separator is cut exactly there |
| RustStr.Split | src/response/base.rs:195 | at least one piece; no piece holds the separator; the pieces joined by the separator give the text |
| RustStr.SplitJoin | src/response/base.rs:137 | pieces without the separator, joined and then split, come back unchanged |
| RustStr.StripPrefix | src/response/base.rs:184 | succeeds iff the text starts with the prefix; then prefix plus rest is the text |
| RustStr.Lines | src/response/base.rs:183 | no lines iff the text is empty; no line holds a `\n` (a bare `\r` at the very end of the text is kept, as current Rust releases do; releases before 1.77 dropped it too) |
| RustStr.LinesOfTerminated | src/response/base.rs:183 | lines each followed by `\n` read back as the same lines, with no empty last line |
| RustStr.LinesOfCrlf | src/response/base.rs:183 | lines each followed by `\r\n` read back as the same lines: the `\r` is dropped |
| RustStr.LinesOfJoin | src/response/base.rs:183 | lines joined by `\n`, none but the last ending in `\r`, the last non-empty, read back unchanged |
| RustStr.AsciiUpper | src/response/base.rs:81 | same length, each character upper-cased |
| RustNum.FromStrRadix | src/response/base.rs:266-267 | a result never exceeds the maximum; `Empty` exactly for the empty text |
| RustNum.ParseDec | src/response/base.rs:114 | a result never exceeds the maximum; `Empty` exactly for the empty text |
| RustNum.Denoted | src/response/base.rs:266-267 | the value a digit string denotes in the radix, most significant digit first, is at least the value carried in |
| RustNum.AccumulateDigits | src/response/base.rs:266-267 | the digit loop over all-digit text gives the denoted value when it is at most the maximum, and `PosOverflow` otherwise |
| RustNum.AccumulateInvalid | src/response/base.rs:266-267 | the first byte that is not a digit gives `InvalidDigit` when the digits before it fit, and `PosOverflow` when they already do not |
| RustNum.FromStrRadixCharacterized | src/response/base.rs:266-267 | the full outcome: `Empty` for the empty text; `InvalidDigit` for a lone sign; after one optional `+`, the denoted value or `PosOverflow` for all-digit text, and at the first non-digit `InvalidDigit` or `PosOverflow` by whether the digits before it fit |
| RustNum.FormatDecDenotes | src/response/base.rs:125 | the decimal text of a number is all digits and denotes that number |
| RustNum.ParseDecOverflow | src/response/base.rs:114 | the decimal text of a number above the maximum fails with `PosOverflow` |
| RustNum.FormatDec | src/response/base.rs:125 | at least one digit, all decimal, no leading zero beyond a single one |
| RustNum.ParseFormatDec | src/response/base.rs:114 | a number printed in decimal parses back to itself |
| RustNum.HexPair | src/response/base.rs:266-267 | two hexadecimal digits parse as a `u8` to 16 times the first plus the second |
| Base.ParseTypeName | src/response/base.rs:80-87 | succeeds iff the upper-cased name is `STRING`, `HEX` or `DEC`, and gives that variant; otherwise `UnknownTypeName` with the name as written |
| Base.TypeNameCaseInsensitive | src/response/base.rs:80-87 | two spellings equal up to ASCII case give the same outcome and variant |
| Base.TypeNameText | src/response/base.rs:90-98 | a printed type name is at least three upper-case ASCII letters |
| Base.TypeNameRoundTrip | src/response/base.rs:90-98 | the printed name parses back to the variant |
| Base.ParseType | src/response/base.rs:109-120 | `ExpectedColon(token)` iff the token has no `:`; on success the token is name, `:`, length, cut at the first colon, with the name matching up to case and the length parsing as a `usize` |
| Base.KnownNameParsed | src/response/base.rs:109-120 | a colon-free name that parses and a length that parses as a `usize`, joined by `:`, give the type of that name and length |
| Base.LengthParsedFirst | src/response/base.rs:114-117 | a bad length is reported as an integer error whatever the name is |
| Base.UnknownNameReported | src/response/base.rs:114-117 | a good length with an unknown name fails with `UnknownTypeName(name)` |
| Base.BadLength | src/response/base.rs:109-120 | `BOGUS:x` fails with an invalid-digit integer error, not on its name |
| Base.UnknownName | src/response/base.rs:109-120 | `BOGUS:0` fails with `UnknownTypeName("BOGUS")` |
| Base.MissingColon | src/response/base.rs:110-112 | `hex16` fails with `ExpectedColon("hex16")` |
| Base.TypeRoundTrip | src/response/base.rs:123-127 | parsing the `NAME:LEN` a type prints gives the type back |
| Base.TypeAnyCase | src/response/base.rs:109-120 | a type name spelled in any ASCII case, followed by `:` and the printed length, parses to the type |
| Base.TypeText | src/response/base.rs:123-127 | a printed type is at least five characters, holds no column separator and no line break, and ends in a digit |
| Base.ParseHeader | src/response/base.rs:144-153 | `ExpectedBang(piece)` iff the piece has no `!`; on success the piece is name, `!`, type token, cut at the first bang, and the token parses to the column's type |
| Base.ParseHeaderLine | src/response/base.rs:136-138 | succeeds iff every separator-delimited piece parses; then one column per piece, in order; otherwise the error of the first piece that fails |
| Base.HeaderRoundTrip | src/response/base.rs:141-153 | a column whose name holds neither separator prints as `name!TYPE:LEN` and parses back to itself |
| Base.HeaderLineRoundTrip | src/response/base.rs:136-138 | a printed header line parses back to its columns |
| Base.SpelledHeaderLine | src/response/base.rs:136-138 | a header line whose columns spell their type names in any ASCII case parses to the same columns, in order |
| Base.ParseHeaderLineJoin | src/response/base.rs:136-138 | pieces that each parse to a column, joined by the column separator, parse to those columns |
| Base.ColumnParses | src/response/base.rs:144-153 | `name!token` with a parsable token gives the column of that name and type |
| Base.SinglePiece | src/response/base.rs:136-138 | a line without a column separator is one column, or that column's error |
| Base.MissingBang | src/response/base.rs:150-152 | the header line `Region` fails with `ExpectedBang("Region")` |
| Base.ColumnTypeErrorReported | src/response/base.rs:144-149 | a column whose type fails passes that type error through unchanged |
| Table.SeqnNumber | src/response/base.rs:184-188 | the seqn succeeds iff the text after `## seqn = ` parses as a `u32` |
| Table.Step | src/response/base.rs:183-201 | one line read keeps what was read: a seqn or a header once set stays, and the rows are only appended to, one row at most |
| Table.Scan | src/response/base.rs:183-201 | the loop only appends rows, and keeps every row as wide as the header |
| Table.Finish | src/response/base.rs:203-211 | a missing header is `ExpectedHeaderLine`, reported before a missing seqn (`ExpectedSeqnLine`); the result succeeds iff both are present, and every row then has one value per column |
| Table.ParseResponse | src/response/base.rs:178-211 | a table that is returned has one value per column in every row |
| Table.TryFromStr | src/response/base.rs:178-211 | the imperative loop over `lines()`, mutable `headers`, `seqn` and `records`, returns exactly what ParseResponse describes |
| Table.IterRecords | src/response/base.rs:166-172 | one record per row, in order, each pairing the table's columns with that row's values |
| Table.StepSeqnLine | src/response/base.rs:184-188 | the first seqn line, if its number parses, sets the seqn and the loop goes on |
| Table.StepHeaderLine | src/response/base.rs:189-190 | the first other line, if it parses, becomes the header and the loop goes on |
| Table.StepRowLine | src/response/base.rs:191-199 | a later line of the header's width is appended as a row |
| Table.ScanCharacterized | src/response/base.rs:183-201 | the loop succeeds from a state exactly on the lines `Accepts` describes (seqn lines all parse and at most one in all; the header line parses; every row has its width), and then ends in the state `Expected` describes |
| Table.ScanAppend | src/response/base.rs:183-201 | the loop over two stretches of lines is the loop over the first, then over the second |
| Table.WellFormedAccepted | src/response/base.rs:178-211 | a text is well formed iff the loop accepts it and it holds at least one seqn line and one other line |
| Table.DenotationExpected | src/response/base.rs:206-210 | the loop ends holding the seqn, columns and rows the declarative description gives |
| Table.ParseResponseCharacterized | src/response/base.rs:178-211 | the parse succeeds iff the lines are well formed (exactly one seqn line, with a `u32`; a header line first among the other lines; every later line as wide), and then gives the declared table |
| Table.StopsAt | src/response/base.rs:183-201 | the first line the loop rejects decides the error of the whole parse; no partial table is returned |
| Table.SecondSeqnRejected | src/response/base.rs:184-187 | a second seqn line fails with `MultipleSeqn` wherever it is |
| Table.MismatchedRowRejected | src/response/base.rs:193-198 | a row of another width fails with `MismatchedRecordLength(got, expected)` |
| Table.NoHeaderLine | src/response/base.rs:203 | a text of seqn lines only fails with `ExpectedHeaderLine` |
| Table.NoSeqnLine | src/response/base.rs:204 | a text with a header but no seqn line fails with `ExpectedSeqnLine` |
| Table.EmptyInput | src/response/base.rs:183-203 | the empty text fails with `ExpectedHeaderLine` |
| Table.SeqnLineFacts | src/response/base.rs:184-188 | a written seqn line is recognised as one and its number reads back |
| Table.RowLineFacts | src/response/base.rs:195 | a written row is one line, not a seqn line, and splits back into its values |
| Table.HeaderLineFacts | src/response/base.rs:136-153 | a written header line is one line, not a seqn line, and parses back to its columns |
| Table.RenderRoundTrip | src/response/base.rs:178-211 | parsing the text a writable table is written as gives the table back |
| Table.WrittenRoundTrip | src/response/base.rs:178-211 | any header line that parses to the columns, holds no line break, does not start like a seqn line and does not end in `\r`, followed by the seqn line and writable rows, all joined by `\n`, parses to the table |
| Fields.FindHeader | src/response/base.rs:317-328 | `None` iff no column has the name; otherwise the first column with exactly that name |
| Fields.GetFieldByHeaderName | src/response/base.rs:317-328 | `None` iff no column has the name; otherwise the type and value of the first such column |
| Fields.FieldNamed | src/response/summary.rs:23-25 | a missing column is `ExpectedField(name)`; otherwise the field the lookup finds |
| Fields.FindHeaderAppend | src/response/base.rs:317-328 | a column appended under another name does not change what a name finds |
| Fields.FieldNamedAppend | src/response/base.rs:317-328 | a column appended under another name does not change a field lookup |
| Fields.FieldNamedAt | src/response/base.rs:317-328 | a column whose name no earlier column has is the one its name finds |
| Fields.ChunkAt | src/response/base.rs:264 | chunks have two bytes, except a last one of one byte exactly when the text has odd length |
| Fields.OptionHex16 | src/response/base.rs:253-271 | a type other than `HEX:16` is `UnexpectedType(actual, "HEX:16")`; `None` exactly for an empty `HEX:16` value |
| Fields.DecodeOptionHex16 | src/response/base.rs:253-271 | the in-place decoder over a zeroed 16-byte array returns what OptionHex16 describes |
| Fields.Fill | src/response/base.rs:263-268 | the chunk recursion succeeds only with at most 16 chunks left to place, leaves every byte before the start and from the chunk count on as it was, and fails only with an integer error or `OutOfBounds` |
| Fields.FillChunks | src/response/base.rs:263-268 | the in-place chunk loop returns what the chunk recursion `Fill` gives from zeros |
| Fields.FillCharacterized | src/response/base.rs:263-268 | the loop succeeds iff every chunk parses and there are at most 16; then each chunk's value is stored at its index and the rest is left as it was |
| Fields.FillOverlong | src/response/base.rs:265-267 | the seventeenth good chunk is written past the end of the array: the panic, `OutOfBounds(16, 16)` |
| Fields.FillFirstBadChunk | src/response/base.rs:265-267 | the first chunk that does not parse decides the error, before any index check |
| Fields.OptionHex16Characterized | src/response/base.rs:253-271 | a non-empty value decodes iff it is at most 16 parsable chunks, and then gives the chunk values padded with zeros |
| Fields.OptionHex16Overlong | src/response/base.rs:265-267 | a value of more than 32 characters whose first seventeen chunks parse is the panic |
| Fields.HexRoundTrip | src/response/base.rs:262-269 | 1 to 16 bytes written in hexadecimal decode to those bytes, padded with zeros |
| Fields.OddHexText | src/response/base.rs:264-267 | an odd final digit is a chunk of its own and gives its value alone |
| Fields.PlusChunk | src/response/base.rs:266-267 | a chunk `+d` is accepted as the digit `d` |
| Fields.Hex16From | src/response/base.rs:277-280 | succeeds iff the optional decoder gives `Some`, with the same bytes; an empty `HEX:16` value is `EmptyField("HEX:16")` |
| Fields.EmptyHex16 | src/response/base.rs:277-280 | the empty `HEX:16` value fails with `EmptyField("HEX:16")` |
| Fields.Dec4From | src/response/base.rs:286-294 | a type other than `DEC:4` is `UnexpectedType`; otherwise the value parses as a `u32` or gives its integer error |
| Fields.Dec4RoundTrip | src/response/base.rs:293 | a `u32` printed in decimal decodes back to itself |
| Fields.String0From | src/response/base.rs:300-308 | succeeds iff the type is `STRING:0`, with the value unchanged (the empty value too); the error names `DEC:4` as the expected type |
| Fields.TypeTexts | src/response/base.rs:228-239 | the three column types print as `STRING:0`, `HEX:16` and `DEC:4` |
| Summary.Assemble | src/response/summary.rs:22-41 | a record is built only when Product, Seqn and Flags each decode, in that order, with their types |
| Summary.AssembleFirstError | src/response/summary.rs:22-41 | the assembly succeeds iff no stage fails, a stage being a lookup and then its decoder; otherwise its error is the first failing stage's, Product before Seqn before Flags |
| Summary.AssembleDecoded | src/response/summary.rs:36-40 | three fields that decode give the record of their values |
| Summary.RecordFrom | src/response/summary.rs:22-41 | a row converts iff each standard column is present and decodes; otherwise the error is the first column's, in Product, Seqn, Flags order, that is missing or does not decode |
| Summary.MissingColumnReported | src/response/summary.rs:23-34 | the first standard column a row lacks, after columns that decode, is reported as `ExpectedField(name)` |
| Summary.FromTable | src/response/summary.rs:57-65 | succeeds iff every row converts; the seqn is the table's, one record per row in order; otherwise the error of the first row that fails |
| Summary.FromText | src/response/summary.rs:71-74 | a table error passes through unchanged; otherwise the table is converted |
| Summary.RecordFromStandard | src/response/summary.rs:23-34 | under the standard columns each lookup finds its own column |
| Summary.RecordRoundTrip | src/response/summary.rs:19-42 | a record written out as a row converts back to itself |
| Summary.ExtraColumnIgnored | src/response/summary.rs:23-34 | a column with another name changes nothing |
| Summary.EmptyFlags | src/response/summary.rs:31-34 | an empty Flags value is the empty string, not an error |
| Summary.TableRoundTrip | src/response/summary.rs:54-66 | the table of a response converts back to the response |
| Summary.TextRoundTrip | src/response/summary.rs:68-75 | the text of a response reads back as the response, when product and flags keep to one row |
| Versions.Assemble | src/response/versions.rs:35-74 | a record is built only when all seven fields decode, in the fixed order, with their types |
| Versions.Stage | src/response/versions.rs:36-63 | a failed lookup is that stage's error, whatever the decoder |
| Versions.StageFailure | src/response/versions.rs:35-74 | when every earlier stage succeeds, the first failing stage's error is the assembly's |
| Versions.AssembleFirstError | src/response/versions.rs:35-74 | the assembly succeeds iff none of the seven stages fails; otherwise its error is the first failing stage's |
| Versions.RecordFrom | src/response/versions.rs:32-75 | a row converts iff each of the seven standard columns is present and decodes; otherwise the error is the first column's, in the fixed order, that is missing or does not decode |
| Versions.MissingColumnReported | src/response/versions.rs:36-63 | the first standard column a row lacks, after columns that decode, is reported as `ExpectedField(name)` |
| Versions.FromTable | src/response/versions.rs:90-98 | succeeds iff every row converts; the seqn is the table's, one record per row in order; otherwise the error of the first row that fails |
| Versions.FromText | src/response/versions.rs:104-107 | a table error passes through unchanged; otherwise the table is converted |
| Versions.Hex16RoundTrip | src/response/base.rs:274-281 | 16 bytes written in hexadecimal decode back, as `Hex16` and as `Some` |
| Versions.AssembleDecoded | src/response/versions.rs:65-73 | seven fields that decode give the record of their values |
| Versions.RecordFromStandard | src/response/versions.rs:36-63 | under the standard columns each lookup finds its own column |
| Versions.RecordRoundTrip | src/response/versions.rs:32-75 | a record written out as a row converts back to itself |
| Versions.ExtraColumnIgnored | src/response/versions.rs:36-63 | a column with another name changes nothing |
| Versions.EmptyKeyRing | src/response/versions.rs:18-20 | a row whose other six columns decode and whose KeyRing is an empty `HEX:16` value converts, with no key ring |
| Versions.EmptyBuildConfigRejected | src/response/versions.rs:40-43 | an empty build configuration after a good region fails with `EmptyField("HEX:16")` |
| Versions.EmptyConfigRejected | src/response/versions.rs:40-63 | an empty build, CDN or product configuration means no record |
| Versions.TableRoundTrip | src/response/versions.rs:87-99 | the table of a response converts back to the response |
| Versions.TextRoundTrip | src/response/versions.rs:101-108 | the text of a response reads back as the response, when region and version name keep to one row |
| Output.VersionFrom | src/output.rs:66-80 | fails with `UnparseableVersion(versions_name)` iff the name has no `.`; otherwise the region is copied, version, `.` and build give the name back, and the build holds no `.` |
| Output.VersionSplitUnique | src/output.rs:71-78 | any version and dot-free build joined by `.` are cut back into exactly those parts |
| Output.FromVersionsResponse | src/output.rs:45-56 | the name is copied and there is one version per record, in order; it succeeds iff every version name has a `.`, and otherwise fails with the first record's error (the `unwrap` panic) |
| Output.VersionsFetch.constructor | src/output.rs:20-35 | a new fetch has no products and the given retrieval time |
| Output.VersionsFetch.AddProduct | src/output.rs:24-26 | the product is appended at the end; earlier products and the time are unchanged |
| SummaryExample.Decodes | src/response/summary.rs:90-129 | the test's text decodes to seqn 2119172 and its four records, in order, empty flags included |
| SummaryExample.WrittenLines | src/response/summary.rs:92-97 | the test's text is exactly the text the model writes for the expected response |
| VersionsExample.Decodes | src/response/versions.rs:123-176 | the test's text decodes to seqn 2118468 and its two records: the three hashes as bytes, no key ring, build 53584 and version name `10.2.5.53584` |
| VersionsExample.Parses | src/response/versions.rs:125-128 | the test's text parses to the table the model writes for the expected response, under the test's own header line |
| VersionsExample.HeaderLine | src/response/versions.rs:125 | the test's header line, which spells one type `String`, parses to the seven standard columns and can stand as a header line |

## Left out

- UTF-8 validation of raw bytes (the `TryFrom<&[u8]>` conversions, src/response/base.rs:214-221) is a library call on a byte buffer; inputs are modelled as strings, so the `Utf8` error is never produced.
- `to_uppercase` is modelled for ASCII only; Unicode case mappings are not.
- Network I/O, argument parsing, concurrency, printing and serialisation (src/api.rs, src/main.rs, src/lib.rs, the `Serialize` derives) are outside the decoder.
- Error messages: the model keeps each error variant and its payload but not the `Display` text.
- Output.VersionsFetch.constructor: the clock reading `Utc::now()` is a parameter (`now`), not read inside.
- Integer errors are modelled by their kind (empty, invalid digit, overflow); `usize` is taken as 64 bits.
- Fields.OptionHex16: the out-of-bounds write past the 16-byte array is a panic in the program; the model returns the error `OutOfBounds(16, 16)` instead.
- Output.FromVersionsResponse: the `unwrap` panic is returned as the error it would carry.
- Borrowing: record values and column names are copied strings, not borrows of the input.
- Table.IterRecords requires a table whose rows have one value per column; every table the parser returns has this.
- Table.Render, Summary.ResponseText and Versions.ResponseText write text; the program only reads it. The writers exist to state the round trips.
- Table.RenderRoundTrip is stated for writable tables only. Their values hold no separators or line breaks, the first value of a row does not start like a seqn line, no last value ends in `\r`, and no row is a single empty value. Text outside these limits reads back differently.
- Summary.TextRoundTrip and Versions.TextRoundTrip carry the same limits on each record's free-text fields.
