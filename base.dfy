/** The leaves of the TACT decoder (src/response/base.rs): its error enum, the column types
    `NAME:LEN` and the header line `name!TYPE:LEN|...`. */
module Base {
  import opened Wrappers
  import opened RustStr
  import opened RustNum

  /** The decoder's errors, with their payloads. `OutOfBounds` has no counterpart in the
      source's enum: it stands for the panic of an array index past the end. UTF-8 errors are
      not part of this model (its input is text). */
  datatype Error =
    | UnknownTypeName(name: string)
    | ExpectedColon(token: string)
    | ExpectedBang(token: string)
    | MultipleSeqn
    | MismatchedRecordLength(got: nat, headerLength: nat)
    | ExpectedHeaderLine
    | ExpectedSeqnLine
    | ExpectedField(field: string)
    | EmptyField(typeText: string)
    | UnexpectedType(actual: string, expected: string)
    | UnparseableInt(kind: IntErrorKind)
    | OutOfBounds(index: nat, length: nat)

  datatype TypeName = String | Hex | Dec

  /** `Display for TypeName`. */
  function TypeNameText(n: TypeName): (s: string)
    ensures |s| >= 3 && forall i :: 0 <= i < |s| ==> 'A' <= s[i] <= 'Z'
  {
    match n
    case String => "STRING"
    case Hex => "HEX"
    case Dec => "DEC"
  }

  /** `TypeName::try_from`: the token upper-cased must be one of the three names; the error
      carries the token as written. */
  function ParseTypeName(name: string): (r: Result<TypeName, Error>)
    ensures r.Ok? <==> AsciiUpper(name) in {"STRING", "HEX", "DEC"}
    ensures r.Ok? ==> AsciiUpper(name) == TypeNameText(r.value)
    ensures r.Err? ==> r.error == UnknownTypeName(name)
  {
    var upper := AsciiUpper(name);
    if upper == "STRING" then Ok(String)
    else if upper == "HEX" then Ok(Hex)
    else if upper == "DEC" then Ok(Dec)
    else Err(UnknownTypeName(name))
  }

  /** Two spellings that agree up to ASCII case parse to the same type name. */
  lemma {:induction false} TypeNameCaseInsensitive(a: string, b: string)
    requires AsciiUpper(a) == AsciiUpper(b)
    ensures ParseTypeName(a).Ok? == ParseTypeName(b).Ok?
    ensures ParseTypeName(a).Ok? ==> ParseTypeName(a).value == ParseTypeName(b).value
  {
  }

  /** Parsing what `Display` prints gives the name back. */
  lemma {:induction false} TypeNameRoundTrip(n: TypeName)
    ensures ParseTypeName(TypeNameText(n)) == Ok(n)
  {
    var t := TypeNameText(n);
    assert AsciiUpper(t) == t;
  }

  /** A column type; `length` is an `usize`. */
  datatype Type = Type(name: TypeName, length: usize)

  /** `Display for Type`: `NAME:LEN`, the name in upper case. */
  function TypeText(t: Type): (s: string)
    ensures |s| >= 5 && '|' !in s && '\n' !in s
    ensures '0' <= s[|s| - 1] <= '9'
  {
    var name, digits := TypeNameText(t.name), FormatDec(t.length);
    var s := name + ":" + digits;
    assert s[|s| - 1] == digits[|digits| - 1];
    assert forall i :: |name| < i < |s| ==> s[i] == digits[i - |name| - 1];
    s
  }

  /** `Type::try_from`: split at the first `:`, parse the length as an `usize`, and only then
      the name. */
  function ParseType(token: string): (r: Result<Type, Error>)
    ensures ':' !in token <==> r == Err(ExpectedColon(token))
    ensures r.Ok? ==>
              exists name, length :: token == name + ":" + length && ':' !in name
                && AsciiUpper(name) == TypeNameText(r.value.name) && ParseDec(length, USIZE_MAX) == Ok(r.value.length)
  {
    match SplitOnce(token, ':')
    case None => Err(ExpectedColon(token))
    case Some((name, length)) =>
      match ParseDec(length, USIZE_MAX)
      case Err(k) => Err(UnparseableInt(k))
      case Ok(len) =>
        match ParseTypeName(name)
        case Err(e) => Err(e)
        case Ok(n) => assert token == name + ":" + length; Ok(Type(n, len))
  }

  /** The length is parsed before the name: a bad length is reported whatever the name is. */
  lemma {:induction false} LengthParsedFirst(name: string, length: string)
    requires ':' !in name && ParseDec(length, USIZE_MAX).Err?
    ensures ParseType(name + ":" + length) == Err(UnparseableInt(ParseDec(length, USIZE_MAX).error))
  {
    SplitOnceAt(name, ':', length);
  }

  /** A well-formed token with an unknown name fails with the name as written. */
  lemma {:induction false} UnknownNameReported(name: string, length: string)
    requires ':' !in name && ParseDec(length, USIZE_MAX).Ok? && ParseTypeName(name).Err?
    ensures ParseType(name + ":" + length) == Err(UnknownTypeName(name))
  {
    SplitOnceAt(name, ':', length);
  }

  /** A well-formed token with a known name and a parsable length is that type, whatever the
      case of the name and however the length is written (`HEX:016`, `hex:+16`). */
  lemma {:induction false} KnownNameParsed(name: string, length: string)
    requires ':' !in name && ParseDec(length, USIZE_MAX).Ok? && ParseTypeName(name).Ok?
    ensures ParseType(name + ":" + length) == Ok(Type(ParseTypeName(name).value, ParseDec(length, USIZE_MAX).value))
  {
    SplitOnceAt(name, ':', length);
  }

  /** A token without a colon is rejected as such. */
  lemma {:induction false} MissingColon()
    ensures ParseType("hex16") == Err(ExpectedColon("hex16"))
  {
    var token := "hex16";
    assert ':' !in token;
  }

  /** `BOGUS:x` fails on its length, not on its unknown name. */
  lemma {:induction false} BadLength()
    ensures ParseType("BOGUS:x") == Err(UnparseableInt(InvalidDigit))
  {
    assert AsBytes("x") == ['x' as int] + AsBytes([]);
    assert ParseDec("x", USIZE_MAX) == Err(InvalidDigit);
    assert "BOGUS:x" == "BOGUS" + ":" + "x";
    assert ':' !in "BOGUS";
    LengthParsedFirst("BOGUS", "x");
  }

  /** `BOGUS:0` has a good length and fails on its name. */
  lemma {:induction false} UnknownName()
    ensures ParseType("BOGUS:0") == Err(UnknownTypeName("BOGUS"))
  {
    assert "BOGUS:0" == "BOGUS" + ":" + "0";
    ParseFormatDec(0, USIZE_MAX);
    assert FormatDec(0) == "0";
    assert AsciiUpper("BOGUS") == "BOGUS";
    assert ':' !in "BOGUS";
    UnknownNameReported("BOGUS", "0");
  }

  /** Parsing what `Display` prints gives the type back. */
  lemma {:induction false} TypeRoundTrip(t: Type)
    ensures ParseType(TypeText(t)) == Ok(t)
  {
    var name := TypeNameText(t.name);
    assert ':' !in name by { match t.name case String => case Hex => case Dec => }
    assert AsciiUpper(name) == name;
    TypeAnyCase(name, t);
  }

  /** The name may be spelled in any ASCII case: a spelling that upper-cases to the type's
      name, followed by the printed length, parses to the type. */
  lemma {:induction false} TypeAnyCase(name: string, t: Type)
    requires ':' !in name && AsciiUpper(name) == TypeNameText(t.name)
    ensures ParseType(name + ":" + FormatDec(t.length)) == Ok(t)
  {
    SplitOnceAt(name, ':', FormatDec(t.length));
    ParseFormatDec(t.length, USIZE_MAX);
    TypeNameCaseInsensitive(name, TypeNameText(t.name));
    TypeNameRoundTrip(t.name);
  }

  /** A column of the header line: its name, taken literally, and its declared type. */
  datatype Header = Header(name: string, typ: Type)

  /** `Header::try_from`: split at the first `!` into the name and the type token. */
  function ParseHeader(piece: string): (r: Result<Header, Error>)
    ensures '!' !in piece <==> r == Err(ExpectedBang(piece))
    ensures r.Ok? ==>
              exists token :: piece == r.value.name + "!" + token && '!' !in r.value.name && ParseType(token) == Ok(r.value.typ)
  {
    match SplitOnce(piece, '!')
    case None => Err(ExpectedBang(piece))
    case Some((name, token)) =>
      match ParseType(token)
      case Err(e) => Err(e)
      case Ok(t) => assert piece == name + "!" + token; Ok(Header(name, t))
  }

  /** `Header::parse_header_line`: one column per `|`-separated piece, in order; the first
      piece that fails decides the error. */
  function ParseHeaderLine(line: string): (r: Result<seq<Header>, Error>)
    ensures r.Ok? ==> forall i :: 0 <= i < |Split(line, '|')| ==> ParseHeader(Split(line, '|')[i]).Ok?
    ensures (forall i :: 0 <= i < |Split(line, '|')| ==> ParseHeader(Split(line, '|')[i]).Ok?) ==> r.Ok?
    ensures r.Ok? ==>
              |r.value| == |Split(line, '|')|
              && forall i :: 0 <= i < |r.value| ==> ParseHeader(Split(line, '|')[i]) == Ok(r.value[i])
    ensures r.Err? ==>
              exists i :: 0 <= i < |Split(line, '|')| && ParseHeader(Split(line, '|')[i]) == Err(r.error)
                && forall j :: 0 <= j < i ==> ParseHeader(Split(line, '|')[j]).Ok?
  {
    var pieces := Split(line, '|');
    var r := MapAll(pieces, ParseHeader);
    assert (forall i :: 0 <= i < |pieces| ==> ParseHeader(pieces[i]).Ok?) ==> r.Ok? by {
      if forall i :: 0 <= i < |pieces| ==> ParseHeader(pieces[i]).Ok? {
        assert forall i :: 0 <= i < |pieces| ==> (ParseHeader)(pieces[i]).Ok?;
      }
    }
    r
  }

  /** A column as the header line writes it. */
  function HeaderText(h: Header): string
  {
    h.name + "!" + TypeText(h.typ)
  }

  function HeaderLineText(headers: seq<Header>): string
  {
    Join(seq(|headers|, i requires 0 <= i < |headers| => HeaderText(headers[i])), '|')
  }

  /** A column name the header line can carry: it holds neither separator. */
  predicate PlainName(name: string) {
    '!' !in name && '|' !in name
  }

  /** Printing a column and parsing it gives the column back. */
  lemma {:induction false} HeaderRoundTrip(h: Header)
    requires PlainName(h.name)
    ensures '|' !in HeaderText(h)
    ensures ParseHeader(HeaderText(h)) == Ok(h)
  {
    assert HeaderText(h) == h.name + ['!'] + TypeText(h.typ);
    SplitOnceAt(h.name, '!', TypeText(h.typ));
    TypeRoundTrip(h.typ);
  }

  /** Printing columns and parsing the line gives the same columns back, in order. */
  lemma {:induction false} HeaderLineRoundTrip(headers: seq<Header>)
    requires |headers| >= 1
    requires forall i :: 0 <= i < |headers| ==> PlainName(headers[i].name)
    ensures ParseHeaderLine(HeaderLineText(headers)) == Ok(headers)
  {
    var pieces := seq(|headers|, i requires 0 <= i < |headers| => HeaderText(headers[i]));
    forall i | 0 <= i < |pieces| ensures '|' !in pieces[i] && ParseHeader(pieces[i]) == Ok(headers[i]) {
      HeaderRoundTrip(headers[i]);
    }
    ParseHeaderLineJoin(pieces, headers);
  }

  /** A column written with its type name spelled `spelling`. */
  function SpelledHeaderText(h: Header, spelling: string): string
  {
    h.name + "!" + (spelling + ":" + FormatDec(h.typ.length))
  }

  /** Type names are matched whatever their ASCII case: a header line whose columns spell
      their type names in any case parses to the same columns as the printed one. */
  lemma {:induction false} SpelledHeaderLine(headers: seq<Header>, spellings: seq<string>)
    requires |headers| >= 1 && |spellings| == |headers|
    requires forall i :: 0 <= i < |headers| ==>
               && PlainName(headers[i].name) && ':' !in spellings[i] && '|' !in spellings[i]
               && AsciiUpper(spellings[i]) == TypeNameText(headers[i].typ.name)
    ensures ParseHeaderLine(Join(seq(|headers|, i requires 0 <= i < |headers| => SpelledHeaderText(headers[i], spellings[i])), '|'))
            == Ok(headers)
  {
    var pieces := seq(|headers|, i requires 0 <= i < |headers| => SpelledHeaderText(headers[i], spellings[i]));
    forall i | 0 <= i < |pieces| ensures '|' !in pieces[i] && ParseHeader(pieces[i]) == Ok(headers[i]) {
      SpelledColumn(headers[i], spellings[i]);
    }
    ParseHeaderLineJoin(pieces, headers);
  }

  lemma {:induction false} SpelledColumn(h: Header, spelling: string)
    requires PlainName(h.name) && ':' !in spelling && '|' !in spelling && AsciiUpper(spelling) == TypeNameText(h.typ.name)
    ensures '|' !in SpelledHeaderText(h, spelling) && ParseHeader(SpelledHeaderText(h, spelling)) == Ok(h)
  {
    var token := spelling + ":" + FormatDec(h.typ.length);
    TypeAnyCase(spelling, h.typ);
    TokenChars(spelling, h.typ.length);
    ColumnParses(h.name, token);
  }

  lemma {:induction false} TokenChars(spelling: string, length: nat)
    requires '|' !in spelling
    ensures '|' !in spelling + ":" + FormatDec(length)
  {
    var token := spelling + ":" + FormatDec(length);
    forall i | |spelling| < i < |token| ensures token[i] != '|' {
      assert token[i] == FormatDec(length)[i - |spelling| - 1];
    }
  }

  /** A column written `name!token` parses to that name and the token's type. */
  lemma {:induction false} ColumnParses(name: string, token: string)
    requires PlainName(name) && '|' !in token && ParseType(token).Ok?
    ensures '|' !in name + "!" + token
    ensures ParseHeader(name + "!" + token) == Ok(Header(name, ParseType(token).value))
  {
    SplitOnceAt(name, '!', token);
  }

  /** Pieces that each parse, joined by `|`, parse to their columns in order. */
  lemma {:induction false} ParseHeaderLineJoin(pieces: seq<string>, headers: seq<Header>)
    requires |pieces| >= 1 && |pieces| == |headers|
    requires forall i :: 0 <= i < |pieces| ==> '|' !in pieces[i] && ParseHeader(pieces[i]) == Ok(headers[i])
    ensures ParseHeaderLine(Join(pieces, '|')) == Ok(headers)
  {
    SplitJoin(pieces, '|');
    assert ParseHeaderLine(Join(pieces, '|')) == MapAll(pieces, ParseHeader);
    MapAllPointwise(pieces, ParseHeader, headers);
  }

  /** A line that is one piece is parsed as one column. */
  lemma {:induction false} SinglePiece(piece: string)
    requires '|' !in piece
    ensures ParseHeaderLine(piece) == match ParseHeader(piece) case Ok(h) => Ok([h]) case Err(e) => Err(e)
  {
    SplitJoin([piece], '|');
    assert Split(piece, '|') == [piece];
    MapAllOne(piece, ParseHeader);
  }

  /** A piece without `!` is reported whole. */
  lemma {:induction false} MissingBang()
    ensures ParseHeaderLine("Region") == Err(ExpectedBang("Region"))
  {
    assert '|' !in "Region" && '!' !in "Region";
    SinglePiece("Region");
  }

  /** A column whose type token does not parse fails the line with the token's error. */
  lemma {:induction false} ColumnTypeErrorReported(name: string, token: string)
    requires PlainName(name) && '|' !in token && ParseType(token).Err?
    ensures ParseHeaderLine(name + "!" + token) == Err(ParseType(token).error)
  {
    var piece := name + "!" + token;
    SplitOnceAt(name, '!', token);
    assert ParseHeader(piece) == Err(ParseType(token).error);
    assert '|' !in piece;
    SinglePiece(piece);
  }
}
