/** Rust's unsigned integer parsing (`from_str_radix`, which `str::parse` uses with radix 10)
    and decimal `Display`, as the TACT decoder relies on them. Integers are parsed from the
    UTF-8 bytes of the text, one byte per digit, exactly as the Rust standard library does. */
module RustNum {
  import opened Wrappers
  import opened RustStr
  type u32 = n: int | 0 <= n < 0x1_0000_0000
  /** The model fixes a 64-bit target. */
  type usize = n: int | 0 <= n < 0x1_0000_0000_0000_0000

  const U8_MAX: nat := 0xFF
  const U32_MAX: nat := 0xFFFF_FFFF
  const USIZE_MAX: nat := 0xFFFF_FFFF_FFFF_FFFF

  /** The kinds of `ParseIntError` an unsigned parse can produce. */
  datatype IntErrorKind = Empty | InvalidDigit | PosOverflow

  /** `(b as char).to_digit(radix)`: ASCII digits and ASCII letters of either case. */
  function ToDigit(b: byte, radix: nat): (d: Option<nat>)
    requires 2 <= radix <= 36
    ensures d.Some? ==> d.value < radix
    ensures d.Some? <==> (exists v :: 0 <= v < radix && (DigitChar(v) as int == b || UpperDigitChar(v) as int == b))
  {
    if '0' as int <= b <= '9' as int && b - '0' as int < radix then
      var v := b - '0' as int; assert DigitChar(v) as int == b; Some(v)
    else if 'a' as int <= b <= 'z' as int && 10 + (b - 'a' as int) < radix then
      var v := 10 + (b - 'a' as int); assert DigitChar(v) as int == b; Some(v)
    else if 'A' as int <= b <= 'Z' as int && 10 + (b - 'A' as int) < radix then
      var v := 10 + (b - 'A' as int); assert UpperDigitChar(v) as int == b; Some(v)
    else None
  }

  /** The lower-case digit for a value below 36 (what `{:x}` and `Display` print). */
  function DigitChar(v: nat): char
    requires v < 36
  {
    if v < 10 then ('0' as int + v) as char else ('a' as int + v - 10) as char
  }

  function UpperDigitChar(v: nat): char
    requires v < 36
  {
    if v < 10 then ('0' as int + v) as char else ('A' as int + v - 10) as char
  }

  /** The digit loop of `from_str_radix`: left to right, an invalid digit fails before the
      overflow check of the same step, and a value above `max` fails with `PosOverflow`. */
  function Accumulate(digits: seq<byte>, radix: nat, max: nat, acc: nat): (r: Result<nat, IntErrorKind>)
    requires 2 <= radix <= 36 && acc <= max
    ensures r.Ok? ==> r.value <= max
    ensures r.Err? ==> r.error != Empty
  {
    if digits == [] then Ok(acc)
    else
      match ToDigit(digits[0], radix)
      case None => Err(InvalidDigit)
      case Some(d) =>
        if acc * radix + d > max then Err(PosOverflow)
        else Accumulate(digits[1..], radix, max, acc * radix + d)
  }

  /** `from_str_radix` for an unsigned type whose largest value is `max`: empty text fails with
      `Empty`, a lone sign with `InvalidDigit`, one leading `+` is accepted and a `-` is an
      invalid digit. */
  function FromStrRadix(src: seq<byte>, radix: nat, max: nat): (r: Result<nat, IntErrorKind>)
    requires 2 <= radix <= 36
    ensures r.Ok? ==> r.value <= max
    ensures r == Err(Empty) <==> src == []
  {
    if |src| == 0 then Err(Empty)
    else if (src[0] == '+' as int || src[0] == '-' as int) && |src| == 1 then Err(InvalidDigit)
    else Accumulate(if src[0] == '+' as int then src[1..] else src, radix, max, 0)
  }

  /** Every byte is a digit of the radix. */
  predicate AllDigits(s: seq<byte>, radix: nat)
    requires 2 <= radix <= 36
  {
    forall i :: 0 <= i < |s| ==> ToDigit(s[i], radix).Some?
  }

  /** The number the digits `s` denote in positional notation, read on from `acc`; no bound
      applies. */
  function Denoted(s: seq<byte>, radix: nat, acc: nat): (v: nat)
    requires 2 <= radix <= 36 && AllDigits(s, radix)
    ensures v >= acc
  {
    if s == [] then acc
    else
      assert forall i :: 0 <= i < |s| - 1 ==> s[1..][i] == s[i + 1];
      ScaleGrows(acc, radix);
      Denoted(s[1..], radix, acc * radix + ToDigit(s[0], radix).value)
  }

  lemma {:induction false} ScaleGrows(acc: nat, radix: nat)
    requires radix >= 2
    ensures acc * radix >= acc
  {
  }

  /** The digits `from_str_radix` reads: the text after one optional leading `+`. */
  function DigitPart(src: seq<byte>): seq<byte> {
    if |src| > 0 && src[0] == '+' as int then src[1..] else src
  }

  /** The digit loop gives the denoted number when it fits and `PosOverflow` when it does not. */
  lemma {:induction false} AccumulateDigits(s: seq<byte>, radix: nat, max: nat, acc: nat)
    requires 2 <= radix <= 36 && acc <= max && AllDigits(s, radix)
    ensures Accumulate(s, radix, max, acc) ==
            if Denoted(s, radix, acc) <= max then Ok(Denoted(s, radix, acc)) else Err(PosOverflow)
  {
    if s != [] {
      var d := ToDigit(s[0], radix).value;
      var next := acc * radix + d;
      assert forall i :: 0 <= i < |s| - 1 ==> s[1..][i] == s[i + 1];
      assert Denoted(s, radix, acc) == Denoted(s[1..], radix, next);
      if next <= max {
        assert Accumulate(s, radix, max, acc) == Accumulate(s[1..], radix, max, next);
        AccumulateDigits(s[1..], radix, max, next);
      } else {
        assert Accumulate(s, radix, max, acc) == Err(PosOverflow);
      }
    }
  }

  /** The digit loop stops at the first byte that is not a digit: `InvalidDigit`, unless the
      digits before it already overflowed. */
  lemma {:induction false} AccumulateInvalid(s: seq<byte>, k: nat, radix: nat, max: nat)
    requires 2 <= radix <= 36 && k < |s| && AllDigits(s[..k], radix) && ToDigit(s[k], radix).None?
    ensures Accumulate(s, radix, max, 0) ==
            if Denoted(s[..k], radix, 0) <= max then Err(InvalidDigit) else Err(PosOverflow)
  {
    assert s == s[..k] + s[k..];
    AccumulateAppend(s[..k], s[k..], radix, max, 0);
    AccumulateDigits(s[..k], radix, max, 0);
    assert s[k..][0] == s[k];
  }

  /** `from_str_radix` in full: empty text, a lone sign, the value of the digits after an
      optional `+` when they fit, `PosOverflow` when they do not, and `InvalidDigit` at the
      first byte that is not a digit when the digits before it fit. */
  lemma {:induction false} FromStrRadixCharacterized(src: seq<byte>, radix: nat, max: nat)
    requires 2 <= radix <= 36
    ensures src == [] ==> FromStrRadix(src, radix, max) == Err(Empty)
    ensures |src| == 1 && (src[0] == '+' as int || src[0] == '-' as int) ==>
              FromStrRadix(src, radix, max) == Err(InvalidDigit)
    ensures |src| >= 2 || (|src| == 1 && src[0] != '+' as int && src[0] != '-' as int) ==>
              var digits := DigitPart(src);
              && (AllDigits(digits, radix) ==>
                    FromStrRadix(src, radix, max) ==
                    if Denoted(digits, radix, 0) <= max then Ok(Denoted(digits, radix, 0)) else Err(PosOverflow))
              && (forall k :: 0 <= k < |digits| && AllDigits(digits[..k], radix) && ToDigit(digits[k], radix).None? ==>
                    FromStrRadix(src, radix, max) ==
                    if Denoted(digits[..k], radix, 0) <= max then Err(InvalidDigit) else Err(PosOverflow))
  {
    if |src| >= 2 || (|src| == 1 && src[0] != '+' as int && src[0] != '-' as int) {
      var digits := DigitPart(src);
      assert FromStrRadix(src, radix, max) == Accumulate(digits, radix, max, 0);
      if AllDigits(digits, radix) {
        AccumulateDigits(digits, radix, max, 0);
      }
      forall k | 0 <= k < |digits| && AllDigits(digits[..k], radix) && ToDigit(digits[k], radix).None?
        ensures Accumulate(digits, radix, max, 0) ==
                if Denoted(digits[..k], radix, 0) <= max then Err(InvalidDigit) else Err(PosOverflow)
      {
        AccumulateInvalid(digits, k, radix, max);
      }
    }
  }

  /** `Display` of an unsigned integer: its shortest decimal digits. */
  function FormatDec(n: nat): (s: string)
    ensures |s| >= 1
    ensures forall i :: 0 <= i < |s| ==> '0' <= s[i] <= '9'
    ensures n >= 10 ==> s[0] != '0'
  {
    if n < 10 then [DigitChar(n)] else FormatDec(n / 10) + [DigitChar(n % 10)]
  }

  /** Printing a number of two or more digits prints the number without its last digit,
      then that digit. */
  lemma {:induction false} FormatDecSnoc(n: nat, d: nat)
    requires n >= 1 && d < 10
    ensures FormatDec(10 * n + d) == FormatDec(n) + [DigitChar(d)]
  {
  }

  /** The same, with the shorter number's digits already known: printing digit by digit. */
  lemma {:induction false} FormatDecStep(n: nat, digits: string, d: nat)
    requires n >= 1 && d < 10 && FormatDec(n) == digits
    ensures FormatDec(10 * n + d) == digits + [DigitChar(d)]
  {
    FormatDecSnoc(n, d);
  }

  /** Digit loops compose: running over `a + b` is running over `a`, then over `b`. */
  lemma {:induction false} AccumulateAppend(a: seq<byte>, b: seq<byte>, radix: nat, max: nat, acc: nat)
    requires 2 <= radix <= 36 && acc <= max
    ensures Accumulate(a + b, radix, max, acc) ==
            match Accumulate(a, radix, max, acc)
            case Err(e) => Err(e)
            case Ok(v) => Accumulate(b, radix, max, v)
  {
    if a == [] {
      assert a + b == b;
    } else {
      assert (a + b)[0] == a[0];
      assert (a + b)[1..] == a[1..] + b;
      match ToDigit(a[0], radix)
      case None =>
      case Some(d) =>
        if acc * radix + d <= max {
          AccumulateAppend(a[1..], b, radix, max, acc * radix + d);
        }
    }
  }

  /** Parsing what `Display` prints gives the number back, for every value of the type. */
  lemma {:induction false} AccumulateFormatDec(n: nat, max: nat)
    requires n <= max
    ensures Accumulate(AsBytes(FormatDec(n)), 10, max, 0) == Ok(n)
  {
    var s := FormatDec(n);
    if n < 10 {
      assert AsBytes(s) == [DigitChar(n) as int];
      assert ToDigit(AsBytes(s)[0], 10) == Some(n);
      assert AsBytes(s)[1..] == [];
    } else {
      var p := FormatDec(n / 10);
      AccumulateFormatDec(n / 10, max);
      var d := [DigitChar(n % 10)];
      assert s == p + d;
      AsBytesAppend(p, d);
      assert AsBytes(d) == [DigitChar(n % 10) as int];
      AccumulateAppend(AsBytes(p), AsBytes(d), 10, max, 0);
      assert ToDigit(AsBytes(d)[0], 10) == Some(n % 10);
      assert AsBytes(d)[1..] == [];
    }
  }

  /** `str::parse::<T>()` for an unsigned `T` whose largest value is `max`. */
  function ParseDec(s: string, max: nat): (r: Result<nat, IntErrorKind>)
    ensures r.Ok? ==> r.value <= max
    ensures r == Err(Empty) <==> s == []
  {
    assert s != [] ==> |AsBytes(s)| > 0;
    FromStrRadix(AsBytes(s), 10, max)
  }

  /** Parsing what `Display` prints gives the number back, for every value of the type. */
  lemma {:induction false} ParseFormatDec(n: nat, max: nat)
    requires n <= max
    ensures ParseDec(FormatDec(n), max) == Ok(n)
  {
    AccumulateFormatDec(n, max);
    var b := AsBytes(FormatDec(n));
    assert FormatDec(n)[0] != '+' && FormatDec(n)[0] != '-';
    assert b[0] == Utf8(FormatDec(n)[0])[0];
  }

  /** The bytes `Display` prints are decimal digits, and they denote the number. */
  lemma {:induction false} FormatDecDenotes(n: nat)
    ensures AllDigits(AsBytes(FormatDec(n)), 10) && Denoted(AsBytes(FormatDec(n)), 10, 0) == n
  {
    var s := FormatDec(n);
    AsciiAsBytes(s);
    var b := AsBytes(s);
    forall i | 0 <= i < |b| ensures ToDigit(b[i], 10).Some? {
      assert b[i] == s[i] as int;
    }
    AccumulateFormatDec(n, n);
    AccumulateDigits(b, 10, n, 0);
  }

  /** A decimal above the largest value of the type does not parse: `PosOverflow`. */
  lemma {:induction false} ParseDecOverflow(n: nat, max: nat)
    requires n > max
    ensures ParseDec(FormatDec(n), max) == Err(PosOverflow)
  {
    FormatDecDenotes(n);
    var b := AsBytes(FormatDec(n));
    AsciiAsBytes(FormatDec(n));
    assert b[0] == FormatDec(n)[0] as int;
    assert DigitPart(b) == b;
    AccumulateDigits(b, 10, max, 0);
  }

  /** Two hexadecimal digits `hi lo` denote `16 * hi + lo`, which always fits a byte. */
  lemma {:induction false} HexPair(hi: nat, lo: nat)
    requires hi < 16 && lo < 16
    ensures FromStrRadix([DigitChar(hi) as int, DigitChar(lo) as int], 16, U8_MAX) == Ok(16 * hi + lo)
  {
    var s: seq<byte> := [DigitChar(hi) as int, DigitChar(lo) as int];
    assert ToDigit(s[0], 16) == Some(hi);
    assert ToDigit(s[1], 16) == Some(lo);
    assert s[1..][0] == s[1] && s[1..][1..] == [];
    assert Accumulate(s[1..][1..], 16, U8_MAX, 16 * hi + lo) == Ok(16 * hi + lo);
    assert Accumulate(s[1..], 16, U8_MAX, hi) == Ok(16 * hi + lo);
    assert Accumulate(s, 16, U8_MAX, 0) == Ok(16 * hi + lo);
  }
}
