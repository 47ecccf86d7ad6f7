/** The `versions` response (src/response/versions.rs): one row per region with the build and
    CDN configuration hashes, the key ring, the build number and the version name. */
module Versions {
  import opened Wrappers
  import opened RustStr
  import opened RustNum
  import opened Base
  import Table
  import opened Fields

  /** A row of the `versions` response. */
  datatype VersionsRecord = VersionsRecord(
    region: string,
    buildConfig: Hex16,
    cdnConfig: Hex16,
    keyRing: Option<Hex16>,
    buildId: u32,
    versionsName: string,
    productConfig: Hex16)

  /** The seven column names, in the order the conversion reads them. */
  const COLUMN_NAMES: seq<string> :=
    ["Region", "BuildConfig", "CDNConfig", "KeyRing", "BuildId", "VersionsName", "ProductConfig"]

  /** The decoding half of `Record::try_from(BaseRecord)`, given the result of looking each
      column up: fields are taken in the source's order, and the first missing or
      undecodable one is the error. */
  function Assemble(
    region: Result<Field, Error>, buildConfig: Result<Field, Error>, cdnConfig: Result<Field, Error>,
    keyRing: Result<Field, Error>, buildId: Result<Field, Error>, versionsName: Result<Field, Error>,
    productConfig: Result<Field, Error>): (r: Result<VersionsRecord, Error>)
    ensures r.Ok? ==>
              && region.Ok? && String0From(region.value) == Ok(r.value.region)
              && buildConfig.Ok? && Hex16From(buildConfig.value) == Ok(r.value.buildConfig)
              && cdnConfig.Ok? && Hex16From(cdnConfig.value) == Ok(r.value.cdnConfig)
              && keyRing.Ok? && OptionHex16(keyRing.value) == Ok(r.value.keyRing)
              && buildId.Ok? && Dec4From(buildId.value) == Ok(r.value.buildId)
              && versionsName.Ok? && String0From(versionsName.value) == Ok(r.value.versionsName)
              && productConfig.Ok? && Hex16From(productConfig.value) == Ok(r.value.productConfig)
  {
    var regionField :- region;
    var regionValue :- String0From(regionField);
    var buildConfigField :- buildConfig;
    var buildConfigValue :- Hex16From(buildConfigField);
    var cdnConfigField :- cdnConfig;
    var cdnConfigValue :- Hex16From(cdnConfigField);
    var keyRingField :- keyRing;
    var keyRingValue :- OptionHex16(keyRingField);
    var buildIdField :- buildId;
    var buildIdValue :- Dec4From(buildIdField);
    var versionsNameField :- versionsName;
    var versionsNameValue :- String0From(versionsNameField);
    var productConfigField :- productConfig;
    var productConfigValue :- Hex16From(productConfigField);
    Ok(VersionsRecord(regionValue, buildConfigValue, cdnConfigValue, keyRingValue, buildIdValue,
                      versionsNameValue, productConfigValue))
  }

  /** How the field of column `k` of COLUMN_NAMES fares, given what looking it up gave: the
      lookup's error, else the error of decoding the field as that column's type, else `None`. */
  function Stage(k: int, lookup: Result<Field, Error>): (o: Option<Error>)
    ensures lookup.Err? ==> o == Some(lookup.error)
  {
    if k == 0 || k == 5 then StringOutcome(lookup)
    else if k == 3 then OptionHexOutcome(lookup)
    else if k == 4 then DecOutcome(lookup)
    else HexOutcome(lookup)
  }

  /** How each of the seven fields fares, in the order the conversion takes them. */
  function Outcomes(lookups: seq<Result<Field, Error>>): (o: seq<Option<Error>>)
    requires |lookups| == 7
    ensures |o| == 7 && forall k :: 0 <= k < 7 ==> o[k] == Stage(k, lookups[k])
  {
    seq(7, k requires 0 <= k < 7 => Stage(k, lookups[k]))
  }

  /** The first field that fails, after fields that succeed, is the error of the conversion. */
  lemma {:induction false} StageFailure(lookups: seq<Result<Field, Error>>, k: int)
    requires |lookups| == 7 && 0 <= k < 7
    requires forall j :: 0 <= j < k ==> Stage(j, lookups[j]).None?
    requires Stage(k, lookups[k]).Some?
    ensures Assemble(lookups[0], lookups[1], lookups[2], lookups[3], lookups[4], lookups[5], lookups[6]) ==
            Err(Stage(k, lookups[k]).value)
  {
    var region, buildConfig, cdnConfig, keyRing, buildId, versionsName, productConfig :=
      lookups[0], lookups[1], lookups[2], lookups[3], lookups[4], lookups[5], lookups[6];
    if k == 0 {
      assert Stage(0, region).Some?;
    } else if k == 1 {
      assert Stage(0, region).None? && region.Ok? && String0From(region.value).Ok?;
      assert Stage(1, buildConfig).Some?;
    } else if k == 2 {
      assert Stage(0, region).None? && region.Ok? && String0From(region.value).Ok?;
      assert Stage(1, buildConfig).None? && buildConfig.Ok? && Hex16From(buildConfig.value).Ok?;
      assert Stage(2, cdnConfig).Some?;
    } else if k == 3 {
      assert Stage(0, region).None? && region.Ok? && String0From(region.value).Ok?;
      assert Stage(1, buildConfig).None? && buildConfig.Ok? && Hex16From(buildConfig.value).Ok?;
      assert Stage(2, cdnConfig).None? && cdnConfig.Ok? && Hex16From(cdnConfig.value).Ok?;
      assert Stage(3, keyRing).Some?;
    } else if k == 4 {
      assert Stage(0, region).None? && region.Ok? && String0From(region.value).Ok?;
      assert Stage(1, buildConfig).None? && buildConfig.Ok? && Hex16From(buildConfig.value).Ok?;
      assert Stage(2, cdnConfig).None? && cdnConfig.Ok? && Hex16From(cdnConfig.value).Ok?;
      assert Stage(3, keyRing).None? && keyRing.Ok? && OptionHex16(keyRing.value).Ok?;
      assert Stage(4, buildId).Some?;
    } else if k == 5 {
      assert Stage(0, region).None? && region.Ok? && String0From(region.value).Ok?;
      assert Stage(1, buildConfig).None? && buildConfig.Ok? && Hex16From(buildConfig.value).Ok?;
      assert Stage(2, cdnConfig).None? && cdnConfig.Ok? && Hex16From(cdnConfig.value).Ok?;
      assert Stage(3, keyRing).None? && keyRing.Ok? && OptionHex16(keyRing.value).Ok?;
      assert Stage(4, buildId).None? && buildId.Ok? && Dec4From(buildId.value).Ok?;
      assert Stage(5, versionsName).Some?;
    } else {
      assert Stage(0, region).None? && region.Ok? && String0From(region.value).Ok?;
      assert Stage(1, buildConfig).None? && buildConfig.Ok? && Hex16From(buildConfig.value).Ok?;
      assert Stage(2, cdnConfig).None? && cdnConfig.Ok? && Hex16From(cdnConfig.value).Ok?;
      assert Stage(3, keyRing).None? && keyRing.Ok? && OptionHex16(keyRing.value).Ok?;
      assert Stage(4, buildId).None? && buildId.Ok? && Dec4From(buildId.value).Ok?;
      assert Stage(5, versionsName).None? && versionsName.Ok? && String0From(versionsName.value).Ok?;
      assert Stage(6, productConfig).Some?;
    }
  }

  /** Seven fields that all succeed give a record. */
  lemma {:induction false} StagesSucceed(lookups: seq<Result<Field, Error>>)
    requires |lookups| == 7 && forall j :: 0 <= j < 7 ==> Stage(j, lookups[j]).None?
    ensures Assemble(lookups[0], lookups[1], lookups[2], lookups[3], lookups[4], lookups[5], lookups[6]).Ok?
  {
    assert Stage(0, lookups[0]).None? && Stage(1, lookups[1]).None? && Stage(2, lookups[2]).None?;
    assert Stage(3, lookups[3]).None? && Stage(4, lookups[4]).None? && Stage(5, lookups[5]).None?;
    assert Stage(6, lookups[6]).None?;
  }

  /** The record is built exactly when every field is found and decodes, and otherwise the
      error is the first failure in the order of COLUMN_NAMES. */
  lemma {:induction false} AssembleFirstError(lookups: seq<Result<Field, Error>>)
    requires |lookups| == 7
    ensures var r := Assemble(lookups[0], lookups[1], lookups[2], lookups[3], lookups[4], lookups[5], lookups[6]);
            && (FirstError(Outcomes(lookups)).None? <==> r.Ok?)
            && (FirstError(Outcomes(lookups)).Some? ==> r == Err(FirstError(Outcomes(lookups)).value))
  {
    var o := Outcomes(lookups);
    if FirstError(o).Some? {
      var k :| 0 <= k < |o| && o[k] == FirstError(o) && forall j :: 0 <= j < k ==> o[j].None?;
      StageFailure(lookups, k);
    } else {
      StagesSucceed(lookups);
    }
  }

  /** What looking each standard column up by its name gives. */
  function RecordLookups(rec: Table.Record): (lookups: seq<Result<Field, Error>>)
    ensures |lookups| == 7 && forall k :: 0 <= k < 7 ==> lookups[k] == FieldNamed(rec, COLUMN_NAMES[k])
  {
    seq(7, k requires 0 <= k < 7 => FieldNamed(rec, COLUMN_NAMES[k]))
  }

  lemma {:induction false} ColumnNames()
    ensures COLUMN_NAMES[0] == "Region" && COLUMN_NAMES[1] == "BuildConfig" && COLUMN_NAMES[2] == "CDNConfig"
    ensures COLUMN_NAMES[3] == "KeyRing" && COLUMN_NAMES[4] == "BuildId" && COLUMN_NAMES[5] == "VersionsName"
    ensures COLUMN_NAMES[6] == "ProductConfig"
  {
  }

  /** How each standard column of a row fares: looked up by its name, then decoded. */
  function RecordOutcomes(rec: Table.Record): seq<Option<Error>>
  {
    Outcomes(RecordLookups(rec))
  }

  /** `Record::try_from(BaseRecord)`: each field is looked up by name with
      `get_field_by_header_name` (missing: `ExpectedField`) and decoded with its column's
      declared type; the first column that is missing or does not decode is the error. */
  function RecordFrom(rec: Table.Record): (r: Result<VersionsRecord, Error>)
    ensures r.Ok? <==> FirstError(RecordOutcomes(rec)).None?
    ensures r.Err? ==> Some(r.error) == FirstError(RecordOutcomes(rec))
  {
    ColumnNames();
    AssembleFirstError(RecordLookups(rec));
    Assemble(
      FieldNamed(rec, "Region"), FieldNamed(rec, "BuildConfig"), FieldNamed(rec, "CDNConfig"),
      FieldNamed(rec, "KeyRing"), FieldNamed(rec, "BuildId"), FieldNamed(rec, "VersionsName"),
      FieldNamed(rec, "ProductConfig"))
  }

  /** The first standard column a row lacks, after columns that decode, is reported by name. */
  lemma {:induction false} MissingColumnReported(rec: Table.Record, k: nat)
    requires k < |COLUMN_NAMES|
    requires forall i :: 0 <= i < |rec.headers| ==> rec.headers[i].name != COLUMN_NAMES[k]
    requires forall j :: 0 <= j < k ==> RecordOutcomes(rec)[j].None?
    ensures RecordFrom(rec) == Err(ExpectedField(COLUMN_NAMES[k]))
  {
    assert RecordOutcomes(rec)[k] == Some(ExpectedField(COLUMN_NAMES[k]));
  }

  /** The `versions` response. */
  datatype Response = Response(seqn: u32, records: seq<VersionsRecord>)

  /** `Response::try_from(BaseResponse)`: the seqn is kept and every row is converted, in
      order; the first row that fails decides the error. */
  function FromTable(table: Table.Response): (r: Result<Response, Error>)
    requires table.Valid()
    ensures r.Ok? <==> forall i :: 0 <= i < |table.records| ==> RecordFrom(Table.IterRecords(table)[i]).Ok?
    ensures r.Ok? ==>
              && r.value.seqn == table.seqn && |r.value.records| == |table.records|
              && forall i :: 0 <= i < |table.records| ==> RecordFrom(Table.IterRecords(table)[i]) == Ok(r.value.records[i])
    ensures r.Err? ==>
              exists i :: 0 <= i < |table.records| && RecordFrom(Table.IterRecords(table)[i]) == Err(r.error)
                && forall j :: 0 <= j < i ==> RecordFrom(Table.IterRecords(table)[j]).Ok?
  {
    var records :- MapAll(Table.IterRecords(table), RecordFrom);
    Ok(Response(table.seqn, records))
  }

  /** `Response::try_from(&str)`: the table first, then the conversion. */
  function FromText(input: string): (r: Result<Response, Error>)
    ensures Table.ParseResponse(input).Err? ==> r == Err(Table.ParseResponse(input).error)
    ensures r.Ok? ==> Table.ParseResponse(input).Ok? && r.value.seqn == Table.ParseResponse(input).value.seqn
    ensures Table.ParseResponse(input).Ok? ==> r == FromTable(Table.ParseResponse(input).value)
  {
    var table :- Table.ParseResponse(input);
    FromTable(table)
  }

  /** The columns the response declares, each with the type its field decodes. */
  const HEADERS: seq<Header> := [
    Header("Region", STRING_TYPE), Header("BuildConfig", HEX16_TYPE), Header("CDNConfig", HEX16_TYPE),
    Header("KeyRing", HEX16_TYPE), Header("BuildId", DEC4_TYPE), Header("VersionsName", STRING_TYPE),
    Header("ProductConfig", HEX16_TYPE)]

  /** A record written out as a row under HEADERS. */
  function RowValues(v: VersionsRecord): (values: seq<string>)
    ensures |values| == |HEADERS|
  {
    [v.region, HexText(v.buildConfig), HexText(v.cdnConfig),
     match v.keyRing case None => "" case Some(k) => HexText(k),
     FormatDec(v.buildId), v.versionsName, HexText(v.productConfig)]
  }

  lemma {:induction false} Hex16RoundTrip(x: Hex16)
    ensures Hex16From(Field(HEX16_TYPE, HexText(x))) == Ok(x)
    ensures OptionHex16(Field(HEX16_TYPE, HexText(x))) == Ok(Some(x))
  {
    HexRoundTrip(x);
    assert x + seq(0, _ => 0) == x;
  }

  lemma {:induction false} AssembleDecoded(
    region: Field, buildConfig: Field, cdnConfig: Field, keyRing: Field, buildId: Field,
    versionsName: Field, productConfig: Field, v: VersionsRecord)
    requires String0From(region) == Ok(v.region) && Hex16From(buildConfig) == Ok(v.buildConfig)
    requires Hex16From(cdnConfig) == Ok(v.cdnConfig) && OptionHex16(keyRing) == Ok(v.keyRing)
    requires Dec4From(buildId) == Ok(v.buildId) && String0From(versionsName) == Ok(v.versionsName)
    requires Hex16From(productConfig) == Ok(v.productConfig)
    ensures Assemble(Ok(region), Ok(buildConfig), Ok(cdnConfig), Ok(keyRing), Ok(buildId),
                     Ok(versionsName), Ok(productConfig)) == Ok(v)
  {
  }

  /** No two of the standard columns share a name. */
  lemma {:induction false} NamesDistinct()
    ensures forall i, j :: 0 <= j < i < |HEADERS| ==> HEADERS[j].name != HEADERS[i].name
  {
  }

  /** Under the standard columns, every lookup finds its column. */
  lemma {:induction false} RecordFromStandard(values: seq<string>)
    requires |values| == |HEADERS|
    ensures RecordFrom(Table.RecordData(HEADERS, values)) ==
            Assemble(Ok(Field(STRING_TYPE, values[0])), Ok(Field(HEX16_TYPE, values[1])), Ok(Field(HEX16_TYPE, values[2])),
                     Ok(Field(HEX16_TYPE, values[3])), Ok(Field(DEC4_TYPE, values[4])), Ok(Field(STRING_TYPE, values[5])),
                     Ok(Field(HEX16_TYPE, values[6])))
  {
    var rec: Table.Record := Table.RecordData(HEADERS, values);
    NamesDistinct();
    FieldNamedAt(rec, 0);
    FieldNamedAt(rec, 1);
    FieldNamedAt(rec, 2);
    FieldNamedAt(rec, 3);
    FieldNamedAt(rec, 4);
    FieldNamedAt(rec, 5);
    FieldNamedAt(rec, 6);
  }

  /** A record written out under the standard columns converts back to itself. */
  lemma {:induction false} RecordRoundTrip(v: VersionsRecord)
    ensures RecordFrom(Table.RecordData(HEADERS, RowValues(v))) == Ok(v)
  {
    var values := RowValues(v);
    RecordFromStandard(values);
    Hex16RoundTrip(v.buildConfig);
    Hex16RoundTrip(v.cdnConfig);
    Hex16RoundTrip(v.productConfig);
    if v.keyRing.Some? {
      Hex16RoundTrip(v.keyRing.value);
    }
    Dec4RoundTrip(v.buildId);
    AssembleDecoded(
      Field(STRING_TYPE, values[0]), Field(HEX16_TYPE, values[1]), Field(HEX16_TYPE, values[2]),
      Field(HEX16_TYPE, values[3]), Field(DEC4_TYPE, values[4]), Field(STRING_TYPE, values[5]),
      Field(HEX16_TYPE, values[6]), v);
  }

  /** A column with another name, appended to a row, changes nothing. */
  lemma {:induction false} ExtraColumnIgnored(rec: Table.Record, h: Header, value: string)
    requires h.name !in COLUMN_NAMES
    ensures RecordFrom(Table.RecordData(rec.headers + [h], rec.values + [value])) == RecordFrom(rec)
  {
    var wider: Table.Record := Table.RecordData(rec.headers + [h], rec.values + [value]);
    FieldNamedAppend(rec, h, value, "Region");
    FieldNamedAppend(rec, h, value, "BuildConfig");
    FieldNamedAppend(rec, h, value, "CDNConfig");
    FieldNamedAppend(rec, h, value, "KeyRing");
    FieldNamedAppend(rec, h, value, "BuildId");
    FieldNamedAppend(rec, h, value, "VersionsName");
    FieldNamedAppend(rec, h, value, "ProductConfig");
  }

  /** An empty key ring does not stop the row, unlike an empty build configuration: when the
      other six fields decode, the record is built with the key ring `None`. */
  lemma {:induction false} EmptyKeyRing(rec: Table.Record)
    requires FieldNamed(rec, "KeyRing") == Ok(Field(HEX16_TYPE, ""))
    requires forall j :: 0 <= j < |COLUMN_NAMES| && j != 3 ==> RecordOutcomes(rec)[j].None?
    ensures RecordFrom(rec).Ok? && RecordFrom(rec).value.keyRing.None?
  {
    var keyRing := Field(HEX16_TYPE, "");
    assert OptionHex16(keyRing).Ok? && OptionHex16(keyRing).value.None?;
    ColumnNames();
    var o := RecordOutcomes(rec);
    assert o[3] == Stage(3, FieldNamed(rec, COLUMN_NAMES[3])) == None;
    forall j | 0 <= j < |o| ensures o[j].None? {
      if j != 3 {
        assert RecordOutcomes(rec)[j].None?;
      }
    }
    var r := RecordFrom(rec);
    assert r.Ok?;
    assert OptionHex16(keyRing) == Ok(r.value.keyRing);
  }

  /** An empty build configuration is an error naming `HEX:16`, though the same text is
      accepted as an empty key ring. */
  lemma {:induction false} EmptyBuildConfigRejected(rec: Table.Record)
    requires FieldNamed(rec, "Region").Ok? && String0From(FieldNamed(rec, "Region").value).Ok?
    requires FieldNamed(rec, "BuildConfig") == Ok(Field(HEX16_TYPE, ""))
    ensures RecordFrom(rec) == Err(EmptyField("HEX:16"))
  {
    EmptyHex16();
  }

  /** No record comes out of a row whose build, CDN or product configuration is empty. */
  lemma {:induction false} EmptyConfigRejected(rec: Table.Record, name: string)
    requires name == "BuildConfig" || name == "CDNConfig" || name == "ProductConfig"
    requires FieldNamed(rec, name) == Ok(Field(HEX16_TYPE, ""))
    ensures RecordFrom(rec).Err?
  {
    EmptyHex16();
  }

  /** The table a response is written as: the standard columns and one row per record. */
  function TableOf(resp: Response): (t: Table.Response)
    ensures t.Valid() && t.seqn == resp.seqn && t.headers == HEADERS && |t.records| == |resp.records|
    ensures forall i :: 0 <= i < |resp.records| ==> t.records[i] == RowValues(resp.records[i])
  {
    Table.Response(resp.seqn, HEADERS, seq(|resp.records|, i requires 0 <= i < |resp.records| => RowValues(resp.records[i])))
  }

  /** The text of a response, as the server sends it. */
  function ResponseText(resp: Response): string
  {
    Table.Render(TableOf(resp))
  }

  /** A record whose row keeps its meaning on a line of its own: region and version name
      without separators or line breaks, and a region that does not start like a seqn line. */
  predicate RecordWritable(v: VersionsRecord) {
    && '|' !in v.region && '\n' !in v.region && !Table.IsSeqnLine(v.region)
    && '|' !in v.versionsName && '\n' !in v.versionsName
  }

  lemma {:induction false} HeadersWritable()
    ensures Table.HeadersWritable(HEADERS)
  {
    var first := HEADERS[0].name;
    assert first[0] != Table.SEQN_PREFIX[0];
    LettersOnly(HEADERS[0].name);
    LettersOnly(HEADERS[1].name);
    LettersOnly(HEADERS[2].name);
    LettersOnly(HEADERS[3].name);
    LettersOnly(HEADERS[4].name);
    LettersOnly(HEADERS[5].name);
    LettersOnly(HEADERS[6].name);
    assert forall i :: 0 <= i < |HEADERS| ==> PlainName(HEADERS[i].name) && '\n' !in HEADERS[i].name;
  }

  /** A name made of letters holds no separator and no line break. */
  lemma {:induction false} LettersOnly(name: string)
    requires forall k :: 0 <= k < |name| ==> 'A' <= name[k] <= 'Z' || 'a' <= name[k] <= 'z'
    ensures PlainName(name) && '\n' !in name
  {
  }

  lemma {:induction false} RowWritable(v: VersionsRecord)
    requires RecordWritable(v)
    ensures Table.RowWritable(RowValues(v))
  {
    var values := RowValues(v);
    HexTextChars(v.buildConfig);
    HexTextChars(v.cdnConfig);
    if v.keyRing.Some? {
      HexTextChars(v.keyRing.value);
    }
    HexTextChars(v.productConfig);
    assert '|' !in values[4] && '\n' !in values[4];
  }

  /** Reading the text of a response gives the response back. */
  lemma {:induction false} TextRoundTrip(resp: Response)
    requires forall i :: 0 <= i < |resp.records| ==> RecordWritable(resp.records[i])
    ensures FromText(ResponseText(resp)) == Ok(resp)
  {
    var t := TableOf(resp);
    HeadersWritable();
    forall i | 0 <= i < |t.records| ensures Table.RowWritable(t.records[i]) {
      RowWritable(resp.records[i]);
    }
    Table.RenderRoundTrip(t);
    TableRoundTrip(resp);
  }

  /** Converting the table of a response gives the response back. */
  lemma {:induction false} TableRoundTrip(resp: Response)
    ensures FromTable(TableOf(resp)) == Ok(resp)
  {
    var t := TableOf(resp);
    var recs := Table.IterRecords(t);
    forall i | 0 <= i < |recs| ensures RecordFrom(recs[i]) == Ok(resp.records[i]) {
      assert recs[i] == Table.RecordData(HEADERS, RowValues(resp.records[i]));
      RecordRoundTrip(resp.records[i]);
    }
    MapAllPointwise(recs, RecordFrom, resp.records);
  }
}
