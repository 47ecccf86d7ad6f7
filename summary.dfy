/** The `summary` response (src/response/summary.rs): one row per product with the seqn of its
    latest data and its flags. */
module Summary {
  import opened Wrappers
  import opened RustStr
  import opened RustNum
  import opened Base
  import Table
  import opened Fields

  /** A row of the `summary` response. */
  datatype SummaryRecord = SummaryRecord(product: string, seqn: u32, flags: string)

  const COLUMN_NAMES: seq<string> := ["Product", "Seqn", "Flags"]

  /** The decoding half of `Record::try_from(BaseRecord)`, given the result of looking each
      column up: fields are taken in the source's order, and the first missing or
      undecodable one is the error. */
  function Assemble(product: Result<Field, Error>, seqn: Result<Field, Error>, flags: Result<Field, Error>)
    : (r: Result<SummaryRecord, Error>)
    ensures r.Ok? ==>
              && product.Ok? && String0From(product.value) == Ok(r.value.product)
              && seqn.Ok? && Dec4From(seqn.value) == Ok(r.value.seqn)
              && flags.Ok? && String0From(flags.value) == Ok(r.value.flags)
  {
    var productField :- product;
    var productValue :- String0From(productField);
    var seqnField :- seqn;
    var seqnValue :- Dec4From(seqnField);
    var flagsField :- flags;
    var flagsValue :- String0From(flagsField);
    Ok(SummaryRecord(productValue, seqnValue, flagsValue))
  }

  /** How each of the three fields fares, in the order the conversion takes them. */
  function Outcomes(product: Result<Field, Error>, seqn: Result<Field, Error>, flags: Result<Field, Error>)
    : seq<Option<Error>>
  {
    [StringOutcome(product), DecOutcome(seqn), StringOutcome(flags)]
  }

  /** The record is built exactly when every field is found and decodes, and otherwise the
      error is the first failure in the order Product, Seqn, Flags. */
  lemma {:induction false} AssembleFirstError(product: Result<Field, Error>, seqn: Result<Field, Error>, flags: Result<Field, Error>)
    ensures FirstError(Outcomes(product, seqn, flags)).None? <==> Assemble(product, seqn, flags).Ok?
    ensures FirstError(Outcomes(product, seqn, flags)).Some? ==>
              Assemble(product, seqn, flags) == Err(FirstError(Outcomes(product, seqn, flags)).value)
  {
    var o := Outcomes(product, seqn, flags);
    assert o[0] == StringOutcome(product) && o[1] == DecOutcome(seqn) && o[2] == StringOutcome(flags);
  }

  /** Three fields that decode give the record of their values. */
  lemma {:induction false} AssembleDecoded(product: Field, seqn: Field, flags: Field, v: SummaryRecord)
    requires String0From(product) == Ok(v.product) && Dec4From(seqn) == Ok(v.seqn) && String0From(flags) == Ok(v.flags)
    ensures Assemble(Ok(product), Ok(seqn), Ok(flags)) == Ok(v)
  {
  }

  /** How each standard column of a row fares: looked up by its name, then decoded. */
  function RecordOutcomes(rec: Table.Record): seq<Option<Error>>
  {
    Outcomes(FieldNamed(rec, COLUMN_NAMES[0]), FieldNamed(rec, COLUMN_NAMES[1]), FieldNamed(rec, COLUMN_NAMES[2]))
  }

  /** `Record::try_from(BaseRecord)`: each field is looked up by name with
      `get_field_by_header_name` (missing: `ExpectedField`) and decoded with its column's
      declared type; the first column that is missing or does not decode is the error. */
  function RecordFrom(rec: Table.Record): (r: Result<SummaryRecord, Error>)
    ensures r.Ok? <==> FirstError(RecordOutcomes(rec)).None?
    ensures r.Err? ==> Some(r.error) == FirstError(RecordOutcomes(rec))
  {
    AssembleFirstError(FieldNamed(rec, "Product"), FieldNamed(rec, "Seqn"), FieldNamed(rec, "Flags"));
    Assemble(FieldNamed(rec, "Product"), FieldNamed(rec, "Seqn"), FieldNamed(rec, "Flags"))
  }

  /** The first standard column a row lacks, after columns that decode, is reported by name. */
  lemma {:induction false} MissingColumnReported(rec: Table.Record, k: nat)
    requires k < |COLUMN_NAMES|
    requires forall i :: 0 <= i < |rec.headers| ==> rec.headers[i].name != COLUMN_NAMES[k]
    requires forall j :: 0 <= j < k ==> RecordOutcomes(rec)[j].None?
    ensures RecordFrom(rec) == Err(ExpectedField(COLUMN_NAMES[k]))
  {
    assert RecordOutcomes(rec)[k] == Some(ExpectedField(COLUMN_NAMES[k]));
  }

  /** The `summary` response. */
  datatype Response = Response(seqn: u32, records: seq<SummaryRecord>)

  /** `Response::try_from(BaseResponse)`: the seqn is kept and every row is converted, in
      order; the first row that fails decides the error. */
  function FromTable(table: Table.Response): (r: Result<Response, Error>)
    requires table.Valid()
    ensures r.Ok? <==> forall i :: 0 <= i < |table.records| ==> RecordFrom(Table.IterRecords(table)[i]).Ok?
    ensures r.Ok? ==>
              && r.value.seqn == table.seqn && |r.value.records| == |table.records|
              && forall i :: 0 <= i < |table.records| ==> RecordFrom(Table.IterRecords(table)[i]) == Ok(r.value.records[i])
    ensures r.Err? ==>
              exists i :: 0 <= i < |table.records| && RecordFrom(Table.IterRecords(table)[i]) == Err(r.error)
                && forall j :: 0 <= j < i ==> RecordFrom(Table.IterRecords(table)[j]).Ok?
  {
    var records :- MapAll(Table.IterRecords(table), RecordFrom);
    Ok(Response(table.seqn, records))
  }

  /** `Response::try_from(&str)`: the table first, then the conversion. */
  function FromText(input: string): (r: Result<Response, Error>)
    ensures Table.ParseResponse(input).Err? ==> r == Err(Table.ParseResponse(input).error)
    ensures r.Ok? ==> Table.ParseResponse(input).Ok? && r.value.seqn == Table.ParseResponse(input).value.seqn
    ensures Table.ParseResponse(input).Ok? ==> r == FromTable(Table.ParseResponse(input).value)
  {
    var table :- Table.ParseResponse(input);
    FromTable(table)
  }

  /** The columns the response declares, each with the type its field decodes. */
  const HEADERS: seq<Header> := [Header("Product", STRING_TYPE), Header("Seqn", DEC4_TYPE), Header("Flags", STRING_TYPE)]

  /** A record written out as a row under HEADERS. */
  function RowValues(v: SummaryRecord): (values: seq<string>)
    ensures |values| == |HEADERS|
  {
    [v.product, FormatDec(v.seqn), v.flags]
  }

  /** No two of the standard columns share a name. */
  lemma {:induction false} NamesDistinct()
    ensures forall i, j :: 0 <= j < i < |HEADERS| ==> HEADERS[j].name != HEADERS[i].name
  {
  }

  /** Under the standard columns, every lookup finds its column. */
  lemma {:induction false} RecordFromStandard(values: seq<string>)
    requires |values| == |HEADERS|
    ensures RecordFrom(Table.RecordData(HEADERS, values)) ==
            Assemble(Ok(Field(STRING_TYPE, values[0])), Ok(Field(DEC4_TYPE, values[1])), Ok(Field(STRING_TYPE, values[2])))
  {
    var rec: Table.Record := Table.RecordData(HEADERS, values);
    NamesDistinct();
    FieldNamedAt(rec, 0);
    FieldNamedAt(rec, 1);
    FieldNamedAt(rec, 2);
  }

  /** A record written out under the standard columns converts back to itself. */
  lemma {:induction false} RecordRoundTrip(v: SummaryRecord)
    ensures RecordFrom(Table.RecordData(HEADERS, RowValues(v))) == Ok(v)
  {
    RecordFromStandard(RowValues(v));
    Dec4RoundTrip(v.seqn);
  }

  /** A column with another name, appended to a row, changes nothing. */
  lemma {:induction false} ExtraColumnIgnored(rec: Table.Record, h: Header, value: string)
    requires h.name !in COLUMN_NAMES
    ensures RecordFrom(Table.RecordData(rec.headers + [h], rec.values + [value])) == RecordFrom(rec)
  {
    FieldNamedAppend(rec, h, value, "Product");
    FieldNamedAppend(rec, h, value, "Seqn");
    FieldNamedAppend(rec, h, value, "Flags");
  }

  /** An empty flags value is the empty string, not an error. */
  lemma {:induction false} EmptyFlags(product: string, seqn: u32)
    ensures RecordFrom(Table.RecordData(HEADERS, [product, FormatDec(seqn), ""])) == Ok(SummaryRecord(product, seqn, ""))
  {
    RecordRoundTrip(SummaryRecord(product, seqn, ""));
  }

  /** The table a response is written as: the standard columns and one row per record. */
  function TableOf(resp: Response): (t: Table.Response)
    ensures t.Valid() && t.seqn == resp.seqn && t.headers == HEADERS && |t.records| == |resp.records|
    ensures forall i :: 0 <= i < |resp.records| ==> t.records[i] == RowValues(resp.records[i])
  {
    Table.Response(resp.seqn, HEADERS, seq(|resp.records|, i requires 0 <= i < |resp.records| => RowValues(resp.records[i])))
  }

  /** The text of a response, as the server sends it. */
  function ResponseText(resp: Response): string
  {
    Table.Render(TableOf(resp))
  }

  /** A record whose row keeps its meaning on a line of its own: product and flags without
      separators or line breaks, a product that does not start like a seqn line, and flags
      that do not end in the `\r` of a `\r\n`. */
  predicate RecordWritable(v: SummaryRecord) {
    && '|' !in v.product && '\n' !in v.product && !Table.IsSeqnLine(v.product)
    && '|' !in v.flags && '\n' !in v.flags && !EndsWithCr(v.flags)
  }

  lemma {:induction false} HeadersWritable()
    ensures Table.HeadersWritable(HEADERS)
  {
    var first := HEADERS[0].name;
    assert first[0] != Table.SEQN_PREFIX[0];
  }

  lemma {:induction false} RowWritable(v: SummaryRecord)
    requires RecordWritable(v)
    ensures Table.RowWritable(RowValues(v))
  {
    var values := RowValues(v);
    assert '|' !in values[1] && '\n' !in values[1];
  }

  /** Reading the text of a response gives the response back. */
  lemma {:induction false} TextRoundTrip(resp: Response)
    requires forall i :: 0 <= i < |resp.records| ==> RecordWritable(resp.records[i])
    ensures FromText(ResponseText(resp)) == Ok(resp)
  {
    var t := TableOf(resp);
    HeadersWritable();
    forall i | 0 <= i < |t.records| ensures Table.RowWritable(t.records[i]) {
      RowWritable(resp.records[i]);
    }
    Table.RenderRoundTrip(t);
    TableRoundTrip(resp);
  }

  /** Converting the table of a response gives the response back. */
  lemma {:induction false} TableRoundTrip(resp: Response)
    ensures FromTable(TableOf(resp)) == Ok(resp)
  {
    var t := TableOf(resp);
    var recs := Table.IterRecords(t);
    forall i | 0 <= i < |recs| ensures RecordFrom(recs[i]) == Ok(resp.records[i]) {
      assert recs[i] == Table.RecordData(HEADERS, RowValues(resp.records[i]));
      RecordRoundTrip(resp.records[i]);
    }
    MapAllPointwise(recs, RecordFrom, resp.records);
  }
}
