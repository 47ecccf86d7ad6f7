/** Typed access to the values of a row (src/response/base.rs): looking a value up by column
    name, and decoding it as `STRING:0`, `HEX:16` or `DEC:4`. */
module Fields {
  import opened Wrappers
  import opened RustStr
  import opened RustNum
  import opened Base
  import opened Table

  /** A value of a row together with the type its column declares. */
  datatype Field = Field(typ: Type, value: string)

  const STRING_TYPE: Type := Type(TypeName.String, 0)
  const HEX16_TYPE: Type := Type(TypeName.Hex, 16)
  const DEC4_TYPE: Type := Type(TypeName.Dec, 4)

  /** A 16-byte value, `[u8; 16]`. */
  type Hex16 = s: seq<byte> | |s| == 16 witness [0, 0, 0, 0, 0, 0, 0, 0, 0, 0, 0, 0, 0, 0, 0, 0]

  const ZEROS: Hex16 := [0, 0, 0, 0, 0, 0, 0, 0, 0, 0, 0, 0, 0, 0, 0, 0]

  /** The first column named `name`. */
  function FindHeader(headers: seq<Header>, name: string): (r: Option<nat>)
    ensures r.None? <==> forall i :: 0 <= i < |headers| ==> headers[i].name != name
    ensures r.Some? ==>
              r.value < |headers| && headers[r.value].name == name
              && forall j :: 0 <= j < r.value ==> headers[j].name != name
  {
    if headers == [] then None
    else if headers[0].name == name then Some(0)
    else
      match FindHeader(headers[1..], name)
      case None => None
      case Some(i) => Some(i + 1)
  }

  /** `Record::get_field_by_header_name`: the value under the first column of that name,
      with that column's type. */
  function GetFieldByHeaderName(rec: Record, name: string): (r: Option<Field>)
    ensures r.None? <==> forall i :: 0 <= i < |rec.headers| ==> rec.headers[i].name != name
    ensures r.Some? ==>
              exists i :: 0 <= i < |rec.headers| && rec.headers[i].name == name
                && (forall j :: 0 <= j < i ==> rec.headers[j].name != name)
                && r.value == Field(rec.headers[i].typ, rec.values[i])
  {
    match FindHeader(rec.headers, name)
    case None => None
    case Some(i) => Some(Field(rec.headers[i].typ, rec.values[i]))
  }

  /** `get_field_by_header_name(name).ok_or(Error::ExpectedField(name))`. */
  function FieldNamed(rec: Record, name: string): (r: Result<Field, Error>)
    ensures r.Err? <==> forall i :: 0 <= i < |rec.headers| ==> rec.headers[i].name != name
    ensures r.Err? ==> r.error == ExpectedField(name)
    ensures r.Ok? ==> GetFieldByHeaderName(rec, name) == Some(r.value)
  {
    match GetFieldByHeaderName(rec, name)
    case None => Err(ExpectedField(name))
    case Some(f) => Ok(f)
  }

  /** What looking a `STRING:0` column up and decoding its field contributes to a record
      conversion: the error of whichever of the two fails first, or `None`. */
  function StringOutcome(lookup: Result<Field, Error>): Option<Error> {
    match lookup
    case Err(e) => Some(e)
    case Ok(f) => (match String0From(f) case Err(e) => Some(e) case Ok(_) => None)
  }

  /** The same for a `HEX:16` column that must not be empty. */
  function HexOutcome(lookup: Result<Field, Error>): Option<Error> {
    match lookup
    case Err(e) => Some(e)
    case Ok(f) => (match Hex16From(f) case Err(e) => Some(e) case Ok(_) => None)
  }

  /** The same for a `HEX:16` column that may be empty. */
  function OptionHexOutcome(lookup: Result<Field, Error>): Option<Error> {
    match lookup
    case Err(e) => Some(e)
    case Ok(f) => (match OptionHex16(f) case Err(e) => Some(e) case Ok(_) => None)
  }

  /** The same for a `DEC:4` column. */
  function DecOutcome(lookup: Result<Field, Error>): Option<Error> {
    match lookup
    case Err(e) => Some(e)
    case Ok(f) => (match Dec4From(f) case Err(e) => Some(e) case Ok(_) => None)
  }

  /** A column appended under another name does not change what a name finds. */
  lemma {:induction false} FindHeaderAppend(headers: seq<Header>, h: Header, name: string)
    requires h.name != name
    ensures FindHeader(headers + [h], name) == FindHeader(headers, name)
  {
    if headers != [] {
      assert (headers + [h])[0] == headers[0] && (headers + [h])[1..] == headers[1..] + [h];
      FindHeaderAppend(headers[1..], h, name);
    } else {
      assert [] + [h] == [h] && [h][1..] == [];
    }
  }

  lemma {:induction false} FieldNamedAppend(rec: Record, h: Header, value: string, name: string)
    requires h.name != name
    ensures var wider: Record := RecordData(rec.headers + [h], rec.values + [value]);
            FieldNamed(wider, name) == FieldNamed(rec, name)
  {
    FindHeaderAppend(rec.headers, h, name);
    var wider: Record := RecordData(rec.headers + [h], rec.values + [value]);
    match FindHeader(rec.headers, name)
    case None =>
    case Some(i) => assert wider.values[i] == rec.values[i];
  }

  /** A column whose name no earlier column has is the one its name finds. */
  lemma {:induction false} FieldNamedAt(rec: Record, i: nat)
    requires i < |rec.headers|
    requires forall j :: 0 <= j < i ==> rec.headers[j].name != rec.headers[i].name
    ensures FieldNamed(rec, rec.headers[i].name) == Ok(Field(rec.headers[i].typ, rec.values[i]))
  {
    assert FindHeader(rec.headers, rec.headers[i].name) == Some(i);
  }

  /** The number of two-byte chunks (`chunks(2)`); the last may have one byte. */
  function NumChunks(b: seq<byte>): nat
  {
    (|b| + 1) / 2
  }

  /** The chunk at position `k`. */
  function ChunkAt(b: seq<byte>, k: nat): (c: seq<byte>)
    requires k < NumChunks(b)
    ensures 1 <= |c| <= 2
    ensures |c| == 1 <==> 2 * k + 1 == |b|
  {
    if 2 * k + 2 <= |b| then b[2 * k..2 * k + 2] else b[2 * k..]
  }

  /** The loop of `Option<Hex16>::try_from` from chunk `idx` on: each chunk is parsed as a `u8`
      in base 16 before it is stored, so a bad chunk is reported even past the end of the
      array, and a good one there is the `OutOfBounds` panic. */
  function Fill(b: seq<byte>, idx: nat, acc: Hex16): (r: Result<Hex16, Error>)
    ensures r.Ok? ==> idx >= NumChunks(b) || NumChunks(b) <= 16
    ensures r.Ok? ==> forall i :: 0 <= i < 16 && (i < idx || i >= NumChunks(b)) ==> r.value[i] == acc[i]
    ensures r.Err? ==> r.error.UnparseableInt? || r.error.OutOfBounds?
    decreases |b| - 2 * idx
  {
    if idx >= NumChunks(b) then Ok(acc)
    else
      match FromStrRadix(ChunkAt(b, idx), 16, U8_MAX)
      case Err(k) => Err(UnparseableInt(k))
      case Ok(v) => if idx >= 16 then Err(OutOfBounds(idx, 16)) else Fill(b, idx + 1, acc[idx := v])
  }

  /** `Option<Hex16>::try_from(&Field)`: the type must be exactly `HEX:16`; an empty value is
      `None`; otherwise the bytes are filled chunk by chunk into zeros. */
  function OptionHex16(f: Field): (r: Result<Option<Hex16>, Error>)
    ensures f.typ != HEX16_TYPE ==> r == Err(UnexpectedType(TypeText(f.typ), TypeText(HEX16_TYPE)))
    ensures (r.Ok? && r.value.None?) <==> f.typ == HEX16_TYPE && f.value == []
  {
    if f.typ != HEX16_TYPE then Err(UnexpectedType(TypeText(f.typ), TypeText(HEX16_TYPE)))
    else if f.value == [] then Ok(None)
    else
      match Fill(AsBytes(f.value), 0, ZEROS)
      case Err(e) => Err(e)
      case Ok(bytes) => Ok(Some(bytes))
  }

  /** `Option<Hex16>::try_from(&Field)` as the source writes it: a zeroed 16-byte array that the
      chunk loop writes into by index. */
  method DecodeOptionHex16(f: Field) returns (r: Result<Option<Hex16>, Error>)
    ensures r == OptionHex16(f)
  {
    if f.typ != HEX16_TYPE {
      return Err(UnexpectedType(TypeText(f.typ), TypeText(HEX16_TYPE)));
    }
    if f.value == [] {
      return Ok(None);
    }
    var filled := FillChunks(AsBytes(f.value));
    match filled
    case Err(e) => return Err(e);
    case Ok(bytes) => return Ok(Some(bytes));
  }

  /** The chunk loop of `Option<Hex16>::try_from`: a zeroed 16-byte array written by index,
      returning at the first chunk that does not parse or does not fit. */
  method FillChunks(b: seq<byte>) returns (r: Result<Hex16, Error>)
    ensures r == Fill(b, 0, ZEROS)
  {
    var bytes := new byte[16](_ => 0);
    assert bytes[..] == ZEROS;
    var idx := 0;
    while idx < NumChunks(b)
      invariant bytes.Length == 16
      invariant Fill(b, 0, ZEROS) == Fill(b, idx, bytes[..])
      decreases NumChunks(b) - idx
    {
      var v := FromStrRadix(ChunkAt(b, idx), 16, U8_MAX);
      if v.Err? {
        return Err(UnparseableInt(v.error));
      }
      if idx >= 16 {
        return Err(OutOfBounds(idx, 16));
      }
      bytes[idx] := v.value;
      idx := idx + 1;
    }
    return Ok(bytes[..]);
  }

  /** `Hex16::try_from(&Field)`: as `Option<Hex16>`, with an empty value an error naming the
      column's type. */
  function Hex16From(f: Field): (r: Result<Hex16, Error>)
    ensures r.Ok? <==> OptionHex16(f).Ok? && OptionHex16(f).value.Some?
    ensures r.Ok? ==> OptionHex16(f) == Ok(Some(r.value))
    ensures f.typ == HEX16_TYPE && f.value == [] ==> r == Err(EmptyField(TypeText(HEX16_TYPE)))
  {
    match OptionHex16(f)
    case Err(e) => Err(e)
    case Ok(None) => Err(EmptyField(TypeText(f.typ)))
    case Ok(Some(bytes)) => Ok(bytes)
  }

  /** `Dec4::try_from(&Field)`: the type must be exactly `DEC:4`, and the value a `u32`. */
  function Dec4From(f: Field): (r: Result<u32, Error>)
    ensures f.typ != DEC4_TYPE ==> r == Err(UnexpectedType(TypeText(f.typ), TypeText(DEC4_TYPE)))
    ensures f.typ == DEC4_TYPE && ParseDec(f.value, U32_MAX).Err? ==>
              r == Err(UnparseableInt(ParseDec(f.value, U32_MAX).error))
    ensures r.Ok? ==> f.typ == DEC4_TYPE && ParseDec(f.value, U32_MAX) == Ok(r.value)
  {
    if f.typ != DEC4_TYPE then Err(UnexpectedType(TypeText(f.typ), TypeText(DEC4_TYPE)))
    else
      match ParseDec(f.value, U32_MAX)
      case Err(k) => Err(UnparseableInt(k))
      case Ok(n) => Ok(n)
  }

  /** `String0::try_from(&Field)`: the type must be exactly `STRING:0` and the text is taken as
      it is. The error names `DEC:4` as the type expected, as the source does. */
  function String0From(f: Field): (r: Result<string, Error>)
    ensures r.Ok? <==> f.typ == STRING_TYPE
    ensures r.Ok? ==> r.value == f.value
    ensures r.Err? ==> r.error == UnexpectedType(TypeText(f.typ), TypeText(DEC4_TYPE))
  {
    if f.typ != STRING_TYPE then Err(UnexpectedType(TypeText(f.typ), TypeText(DEC4_TYPE)))
    else Ok(f.value)
  }

  /** Chunk `k` is a hexadecimal `u8`. */
  predicate ChunkParses(b: seq<byte>, k: nat)
    requires k < NumChunks(b)
  {
    FromStrRadix(ChunkAt(b, k), 16, U8_MAX).Ok?
  }

  function ChunkValue(b: seq<byte>, k: nat): byte
    requires k < NumChunks(b) && ChunkParses(b, k)
  {
    FromStrRadix(ChunkAt(b, k), 16, U8_MAX).value
  }

  /** Every chunk from `idx` on is a hexadecimal `u8`. */
  ghost predicate ChunksParseFrom(b: seq<byte>, idx: nat) {
    forall k :: idx <= k < NumChunks(b) ==> ChunkParses(b, k)
  }

  /** The loop succeeds exactly when every remaining chunk parses and they all fit the array;
      it then has stored each chunk's value at the chunk's position and left the rest alone. */
  lemma {:induction false} FillCharacterized(b: seq<byte>, idx: nat, acc: Hex16)
    ensures Fill(b, idx, acc).Ok? <==> idx >= NumChunks(b) || (NumChunks(b) <= 16 && ChunksParseFrom(b, idx))
    ensures Fill(b, idx, acc).Ok? ==>
              forall k :: 0 <= k < 16 ==>
                Fill(b, idx, acc).value[k] == if idx <= k < NumChunks(b) then ChunkValue(b, k) else acc[k]
    decreases NumChunks(b) - idx
  {
    if idx < NumChunks(b) && ChunkParses(b, idx) && idx < 16 {
      var next := acc[idx := ChunkValue(b, idx)];
      FillCharacterized(b, idx + 1, next);
      assert Fill(b, idx, acc) == Fill(b, idx + 1, next);
    }
  }

  /** A text longer than 32 bytes whose first seventeen chunks parse reaches the write past the
      end of the array: the panic, modelled as `OutOfBounds(16, 16)`. */
  lemma {:induction false} FillOverlong(b: seq<byte>, idx: nat, acc: Hex16)
    requires 16 < NumChunks(b) && idx <= 16
    requires forall k :: idx <= k <= 16 ==> ChunkParses(b, k)
    ensures Fill(b, idx, acc) == Err(OutOfBounds(16, 16))
    decreases 16 - idx
  {
    if idx < 16 {
      FillOverlong(b, idx + 1, acc[idx := ChunkValue(b, idx)]);
    }
  }

  /** The first chunk that does not parse decides the error, even past the sixteenth byte. */
  lemma {:induction false} FillFirstBadChunk(b: seq<byte>, idx: nat, acc: Hex16, bad: nat)
    requires idx <= bad <= 16 && bad < NumChunks(b)
    requires forall k :: idx <= k < bad ==> ChunkParses(b, k)
    requires !ChunkParses(b, bad)
    ensures Fill(b, idx, acc) == Err(UnparseableInt(FromStrRadix(ChunkAt(b, bad), 16, U8_MAX).error))
    decreases bad - idx
  {
    if idx < bad {
      FillStep(b, idx, acc);
      FillFirstBadChunk(b, idx + 1, acc[idx := ChunkValue(b, idx)], bad);
    } else {
      FillStops(b, idx, acc);
    }
  }

  /** A chunk that parses and fits is stored, and the loop goes on. */
  lemma {:induction false} FillStep(b: seq<byte>, idx: nat, acc: Hex16)
    requires idx < NumChunks(b) && idx < 16 && ChunkParses(b, idx)
    ensures Fill(b, idx, acc) == Fill(b, idx + 1, acc[idx := ChunkValue(b, idx)])
  {
  }

  /** A chunk that does not parse ends the loop with its error. */
  lemma {:induction false} FillStops(b: seq<byte>, idx: nat, acc: Hex16)
    requires idx < NumChunks(b) && !ChunkParses(b, idx)
    ensures Fill(b, idx, acc) == Err(UnparseableInt(FromStrRadix(ChunkAt(b, idx), 16, U8_MAX).error))
  {
  }

  /** The 16 bytes a parsable text of at most 32 bytes stands for: the chunk values, then zeros. */
  ghost function HexValue(b: seq<byte>): Hex16
    requires NumChunks(b) <= 16 && ChunksParseFrom(b, 0)
  {
    seq(16, k requires 0 <= k < 16 => if k < NumChunks(b) then ChunkValue(b, k) else 0)
  }

  /** `Option<Hex16>` of a non-empty `HEX:16` value: it succeeds exactly when the text is at
      most 32 bytes of chunks that parse, and gives the chunk values padded with zeros. */
  lemma {:induction false} OptionHex16Characterized(value: string)
    requires value != []
    ensures var b := AsBytes(value);
            OptionHex16(Field(HEX16_TYPE, value)).Ok? <==> NumChunks(b) <= 16 && ChunksParseFrom(b, 0)
    ensures var b := AsBytes(value);
            NumChunks(b) <= 16 && ChunksParseFrom(b, 0) ==> OptionHex16(Field(HEX16_TYPE, value)) == Ok(Some(HexValue(b)))
  {
    var b := AsBytes(value);
    FillCharacterized(b, 0, ZEROS);
    if NumChunks(b) <= 16 && ChunksParseFrom(b, 0) {
      assert Fill(b, 0, ZEROS).value == HexValue(b);
    }
  }

  /** The lower-case hexadecimal text of some bytes, two digits each (`{:02x}`). */
  function HexText(xs: seq<byte>): (s: string)
    ensures |s| == 2 * |xs| && IsAscii(s)
  {
    seq(2 * |xs|, i requires 0 <= i < 2 * |xs| => if i % 2 == 0 then DigitChar(xs[i / 2] / 16) else DigitChar(xs[i / 2] % 16))
  }

  /** The text of the bytes one after another is their texts one after another. */
  lemma {:induction false} HexTextAppend(xs: seq<byte>, ys: seq<byte>)
    ensures HexText(xs + ys) == HexText(xs) + HexText(ys)
  {
    var s, t := HexText(xs + ys), HexText(xs) + HexText(ys);
    forall i | 0 <= i < |s| ensures s[i] == t[i] {
      if i >= 2 * |xs| {
        var j := i - 2 * |xs|;
        assert i / 2 == j / 2 + |xs| && i % 2 == j % 2;
        assert (xs + ys)[i / 2] == ys[j / 2];
      }
    }
  }

  /** Hexadecimal text is digits and lower-case letters only: no separator, no line break. */
  lemma {:induction false} HexTextChars(xs: seq<byte>)
    ensures var s := HexText(xs);
            '|' !in s && '\n' !in s && !EndsWithCr(s)
  {
    var s := HexText(xs);
    forall i | 0 <= i < |s| ensures '0' <= s[i] <= '9' || 'a' <= s[i] <= 'f' {
      var v := if i % 2 == 0 then xs[i / 2] / 16 else xs[i / 2] % 16;
      assert s[i] == DigitChar(v);
    }
  }

  lemma {:induction false} HexTextChunks(xs: seq<byte>, k: nat)
    requires k < |xs|
    ensures var b := AsBytes(HexText(xs));
            NumChunks(b) == |xs| && ChunkAt(b, k) == [DigitChar(xs[k] / 16) as int, DigitChar(xs[k] % 16) as int]
  {
    var s := HexText(xs);
    AsciiAsBytes(s);
    assert s[2 * k] == DigitChar(xs[k] / 16) && s[2 * k + 1] == DigitChar(xs[k] % 16);
  }

  /** The bytes written out in hexadecimal come back, padded with zeros to 16. */
  lemma {:induction false} HexRoundTrip(xs: seq<byte>)
    requires 1 <= |xs| <= 16
    ensures OptionHex16(Field(HEX16_TYPE, HexText(xs))) == Ok(Some(xs + seq(16 - |xs|, _ => 0)))
  {
    var b := AsBytes(HexText(xs));
    forall k | 0 <= k < |xs| ensures NumChunks(b) == |xs| && ChunkParses(b, k) && ChunkValue(b, k) == xs[k] {
      HexTextChunks(xs, k);
      HexPair(xs[k] / 16, xs[k] % 16);
    }
    HexTextChunks(xs, 0);
    OptionHex16Characterized(HexText(xs));
    assert HexValue(b) == xs + seq(16 - |xs|, _ => 0);
  }

  /** One hexadecimal digit denotes its value. */
  lemma {:induction false} HexDigit(d: nat)
    requires d < 16
    ensures FromStrRadix([DigitChar(d) as int], 16, U8_MAX) == Ok(d)
  {
    var s: seq<byte> := [DigitChar(d) as int];
    assert ToDigit(s[0], 16) == Some(d);
    assert s[1..] == [];
    assert Accumulate(s[1..], 16, U8_MAX, d) == Ok(d);
    assert Accumulate(s, 16, U8_MAX, 0) == Ok(d);
  }

  /** A chunk may start with `+`, which `from_str_radix` skips. */
  lemma {:induction false} PlusChunk(d: nat)
    requires d < 16
    ensures FromStrRadix(['+' as int, DigitChar(d) as int], 16, U8_MAX) == Ok(d)
  {
    var s: seq<byte> := ['+' as int, DigitChar(d) as int];
    assert s[1..] == [DigitChar(d) as int];
    HexDigit(d);
  }

  /** An odd number of digits: the last one is a chunk of its own and gives its value alone. */
  lemma {:induction false} OddHexText(xs: seq<byte>, d: nat)
    requires |xs| < 16 && d < 16
    ensures OptionHex16(Field(HEX16_TYPE, HexText(xs) + [DigitChar(d)])) == Ok(Some(xs + [d] + seq(15 - |xs|, _ => 0)))
  {
    var s := HexText(xs) + [DigitChar(d)];
    OddHexChunks(xs, d);
    HexValueOf(AsBytes(s), xs + [d]);
    OptionHex16Characterized(s);
  }

  /** The chunks of such a text: the pairs of `xs`, then the lone digit. */
  lemma {:induction false} OddHexChunks(xs: seq<byte>, d: nat)
    requires |xs| < 16 && d < 16
    ensures var b, ys := AsBytes(HexText(xs) + [DigitChar(d)]), xs + [d];
            NumChunks(b) == |ys| && forall k :: 0 <= k < |ys| ==> ChunkParses(b, k) && ChunkValue(b, k) == ys[k]
  {
    var s := HexText(xs) + [DigitChar(d)];
    assert IsAscii(s);
    AsciiAsBytes(s);
    AsciiAsBytes(HexText(xs));
    var b := AsBytes(s);
    forall k | 0 <= k < |xs| ensures ChunkParses(b, k) && ChunkValue(b, k) == xs[k] {
      HexTextChunks(xs, k);
      assert ChunkAt(b, k) == ChunkAt(AsBytes(HexText(xs)), k);
      HexPair(xs[k] / 16, xs[k] % 16);
    }
    assert ChunkAt(b, |xs|) == [DigitChar(d) as int];
    HexDigit(d);
  }

  /** Chunks that parse to `ys` stand for `ys` padded with zeros. */
  lemma {:induction false} HexValueOf(b: seq<byte>, ys: seq<byte>)
    requires NumChunks(b) == |ys| <= 16
    requires forall k :: 0 <= k < |ys| ==> ChunkParses(b, k) && ChunkValue(b, k) == ys[k]
    ensures ChunksParseFrom(b, 0) && HexValue(b) == ys + seq(16 - |ys|, _ => 0)
  {
    assert HexValue(b) == ys + seq(16 - |ys|, _ => 0);
  }

  /** More than 32 bytes of good chunks is the panic. */
  lemma {:induction false} OptionHex16Overlong(value: string)
    requires 16 < NumChunks(AsBytes(value))
    requires forall k :: 0 <= k <= 16 ==> ChunkParses(AsBytes(value), k)
    ensures OptionHex16(Field(HEX16_TYPE, value)) == Err(OutOfBounds(16, 16))
  {
    FillOverlong(AsBytes(value), 0, ZEROS);
  }

  /** What `Display` prints for the three column types. */
  lemma {:induction false} TypeTexts()
    ensures TypeText(STRING_TYPE) == "STRING:0"
    ensures TypeText(HEX16_TYPE) == "HEX:16"
    ensures TypeText(DEC4_TYPE) == "DEC:4"
  {
    assert FormatDec(16) == FormatDec(1) + [DigitChar(6)];
  }

  /** An empty `HEX:16` value is an `EmptyField` error naming `HEX:16`. */
  lemma {:induction false} EmptyHex16()
    ensures Hex16From(Field(HEX16_TYPE, "")) == Err(EmptyField("HEX:16"))
  {
    TypeTexts();
  }

  /** `DEC:4` reads back every `u32` it prints. */
  lemma {:induction false} Dec4RoundTrip(n: u32)
    ensures Dec4From(Field(DEC4_TYPE, FormatDec(n))) == Ok(n)
  {
    ParseFormatDec(n, U32_MAX);
  }
}
