/** The `str` operations the TACT decoder is written with: `split`, `split_once`,
    `rsplit_once`, `strip_prefix`, `lines`, ASCII upper-casing and `as_bytes` (UTF-8). */
module RustStr {
  import opened Wrappers

  type byte = b: int | 0 <= b < 0x100

  /** The position of the first `c` in `s`. */
  function IndexOf(s: string, c: char): (r: Option<nat>)
    ensures r.None? <==> c !in s
    ensures r.Some? ==> r.value < |s| && s[r.value] == c && c !in s[..r.value]
  {
    if |s| == 0 then None
    else if s[0] == c then Some(0)
    else
      match IndexOf(s[1..], c)
      case None => None
      case Some(i) => assert s[..i + 1] == [s[0]] + s[1..][..i]; Some(i + 1)
  }

  /** The first `c` of `a + [c] + b`, when `a` holds none, is the one after `a`. */
  lemma {:induction false} IndexOfAt(a: string, c: char, b: string)
    requires c !in a
    ensures IndexOf(a + [c] + b, c) == Some(|a|)
  {
    var s := a + [c] + b;
    assert s[|a|] == c && s[..|a|] == a;
  }

  /** The position of the last `c` in `s`. */
  function LastIndexOf(s: string, c: char): (r: Option<nat>)
    ensures r.None? <==> c !in s
    ensures r.Some? ==> r.value < |s| && s[r.value] == c && c !in s[r.value + 1..]
  {
    if |s| == 0 then None
    else if s[|s| - 1] == c then Some(|s| - 1)
    else
      assert s == s[..|s| - 1] + [s[|s| - 1]];
      match LastIndexOf(s[..|s| - 1], c)
      case None => None
      case Some(i) => assert s[i + 1..] == s[..|s| - 1][i + 1..] + [s[|s| - 1]]; Some(i)
  }

  /** `str::split_once`: the text before and after the first `c`. */
  function SplitOnce(s: string, c: char): (r: Option<(string, string)>)
    ensures r.None? <==> c !in s
    ensures r.Some? ==> r.value.0 + [c] + r.value.1 == s && c !in r.value.0
  {
    match IndexOf(s, c)
    case None => None
    case Some(i) => assert s == s[..i] + [c] + s[i + 1..]; Some((s[..i], s[i + 1..]))
  }

  /** `a c b` splits at the `c` when `a` holds none. */
  lemma {:induction false} SplitOnceAt(a: string, c: char, b: string)
    requires c !in a
    ensures SplitOnce(a + [c] + b, c) == Some((a, b))
  {
    var s := a + [c] + b;
    assert s[|a|] == c && s[..|a|] == a && s[|a| + 1..] == b;
  }

  /** `str::rsplit_once`: the text before and after the last `c`. */
  function RSplitOnce(s: string, c: char): (r: Option<(string, string)>)
    ensures r.None? <==> c !in s
    ensures r.Some? ==> r.value.0 + [c] + r.value.1 == s && c !in r.value.1
  {
    match LastIndexOf(s, c)
    case None => None
    case Some(i) => assert s == s[..i] + [c] + s[i + 1..]; Some((s[..i], s[i + 1..]))
  }

  /** `a c b` splits at the `c` when `b` holds none. */
  lemma {:induction false} RSplitOnceAt(a: string, c: char, b: string)
    requires c !in b
    ensures RSplitOnce(a + [c] + b, c) == Some((a, b))
  {
    var s := a + [c] + b;
    assert s[|a|] == c && s[..|a|] == a && s[|a| + 1..] == b;
  }

  /** `pieces.join(c)`, the inverse of Split. */
  function Join(pieces: seq<string>, c: char): string
  {
    if |pieces| == 0 then []
    else if |pieces| == 1 then pieces[0]
    else pieces[0] + [c] + Join(pieces[1..], c)
  }

  /** `str::split` on a character: always at least one piece, none of them holding `c`, and
      joining them with `c` gives `s` back. */
  function Split(s: string, c: char): (r: seq<string>)
    ensures |r| >= 1
    ensures forall i :: 0 <= i < |r| ==> c !in r[i]
    ensures Join(r, c) == s
    decreases |s|
  {
    match IndexOf(s, c)
    case None => [s]
    case Some(i) =>
      var rest := Split(s[i + 1..], c);
      assert ([s[..i]] + rest)[1..] == rest;
      assert s == s[..i] + [c] + s[i + 1..];
      [s[..i]] + rest
  }

  /** The pieces Split returns are the only ones without `c` that join to the text. */
  /** Split cuts at the first separator. */
  lemma {:induction false} SplitAt(a: string, c: char, b: string)
    requires c !in a
    ensures Split(a + [c] + b, c) == [a] + Split(b, c)
  {
    var s := a + [c] + b;
    IndexOfAt(a, c, b);
    assert s[..|a|] == a && s[|a| + 1..] == b;
  }

  lemma {:induction false} SplitJoin(pieces: seq<string>, c: char)
    requires |pieces| >= 1
    requires forall i :: 0 <= i < |pieces| ==> c !in pieces[i]
    ensures Split(Join(pieces, c), c) == pieces
  {
    if |pieces| == 1 {
      SplitOfOne(pieces[0], c);
    } else {
      var rest := pieces[1..];
      SplitJoin(rest, c);
      SplitAt(pieces[0], c, Join(rest, c));
      assert pieces == [pieces[0]] + rest;
    }
  }

  lemma {:induction false} SplitOfOne(s: string, c: char)
    requires c !in s
    ensures Split(s, c) == [s]
  {
  }

  /** A character that is neither the separator nor in any piece is not in the joined text. */
  lemma {:induction false} JoinNotIn(pieces: seq<string>, c: char, x: char)
    requires x != c
    requires forall i :: 0 <= i < |pieces| ==> x !in pieces[i]
    ensures x !in Join(pieces, c)
  {
    if |pieces| >= 2 {
      JoinNotIn(pieces[1..], c, x);
    }
  }

  /** The joined text starts with the first piece, followed by the separator when there are
      two pieces or more. */
  lemma {:induction false} JoinStart(pieces: seq<string>, c: char)
    requires |pieces| >= 1
    ensures var s, first := Join(pieces, c), pieces[0];
            |s| >= |first| && s[..|first|] == first
            && (|pieces| >= 2 ==> |s| > |first| && s[|first|] == c)
  {
  }

  /** The joined text ends with the last piece, with the separator just before it when there
      are two pieces or more. */
  lemma {:induction false} JoinEnd(pieces: seq<string>, c: char)
    requires |pieces| >= 1
    ensures var s, last := Join(pieces, c), pieces[|pieces| - 1];
            |s| >= |last| && s[|s| - |last|..] == last
            && (|pieces| >= 2 ==> |s| > |last| && s[|s| - |last| - 1] == c)
            && (last != [] ==> s[|s| - 1] == last[|last| - 1])
  {
    if |pieces| >= 2 {
      var rest := pieces[1..];
      JoinEnd(rest, c);
      assert rest[|rest| - 1] == pieces[|pieces| - 1];
      if |rest| == 1 {
        assert Join(rest, c) == rest[0];
      }
    }
  }

  /** Joining two non-empty runs of pieces is joining each, with one separator between. */
  lemma {:induction false} JoinAppend(a: seq<string>, b: seq<string>, c: char)
    requires |a| >= 1 && |b| >= 1
    ensures Join(a + b, c) == Join(a, c) + [c] + Join(b, c)
  {
    if |a| == 1 {
      assert (a + b)[1..] == b;
    } else {
      JoinAppend(a[1..], b, c);
      assert (a + b)[1..] == a[1..] + b;
    }
  }

  /** `str::strip_prefix`. */
  function StripPrefix(s: string, prefix: string): (r: Option<string>)
    ensures r.Some? <==> prefix <= s
    ensures r.Some? ==> prefix + r.value == s
  {
    if prefix <= s then assert s == prefix + s[|prefix|..]; Some(s[|prefix|..]) else None
  }

  /** One line of `str::lines`: the text before the end of the line. */
  function StripCr(line: string): string
  {
    if |line| > 0 && line[|line| - 1] == '\r' then line[..|line| - 1] else line
  }

  /** `str::lines`: the text is cut after every `\n`, the `\n` and a `\r` just before it are
      removed, and a final `\n` does not start an empty last line. A `\r` at the very end of a
      text that does not end in `\n` stays in the last line. */
  function Lines(s: string): (r: seq<string>)
    ensures r == [] <==> s == []
    ensures forall i :: 0 <= i < |r| ==> '\n' !in r[i]
    decreases |s|
  {
    if |s| == 0 then []
    else
      match IndexOf(s, '\n')
      case None => [s]
      case Some(i) =>
        var rest := Lines(s[i + 1..]);
        assert forall j :: 1 <= j < |rest| + 1 ==> ([StripCr(s[..i])] + rest)[j] == rest[j - 1];
        [StripCr(s[..i])] + rest
  }

  predicate EndsWithCr(line: string) {
    |line| > 0 && line[|line| - 1] == '\r'
  }

  /** Lines written out one after another, each followed by `terminator`. */
  function Terminated(lines: seq<string>, terminator: string): string
  {
    if |lines| == 0 then [] else lines[0] + terminator + Terminated(lines[1..], terminator)
  }

  /** `str::lines` cuts at the first `\n`. */
  lemma {:induction false} LinesAt(a: string, b: string)
    requires '\n' !in a
    ensures Lines(a + ['\n'] + b) == [StripCr(a)] + Lines(b)
  {
    var s := a + ['\n'] + b;
    IndexOfAt(a, '\n', b);
    assert s[..|a|] == a && s[|a| + 1..] == b;
  }

  /** Lines joined by `\n` come back from `str::lines` when none of them holds a `\n`, the last
      is not empty and no inner one ends with the `\r` that a `\r\n` ending would take away. */
  lemma {:induction false} LinesOfJoin(lines: seq<string>)
    requires |lines| >= 1 && lines[|lines| - 1] != []
    requires forall i :: 0 <= i < |lines| ==> '\n' !in lines[i]
    requires forall i :: 0 <= i < |lines| - 1 ==> !EndsWithCr(lines[i])
    ensures Lines(Join(lines, '\n')) == lines
  {
    if |lines| == 1 {
      LinesOfOne(lines[0]);
    } else {
      var rest := lines[1..];
      LinesOfJoin(rest);
      LinesAt(lines[0], Join(rest, '\n'));
      assert StripCr(lines[0]) == lines[0];
      assert lines == [lines[0]] + rest;
    }
  }

  /** A non-empty text without a `\n` is one line. */
  lemma {:induction false} LinesOfOne(line: string)
    requires line != [] && '\n' !in line
    ensures Lines(line) == [line]
  {
  }

  /** Every line, `\n`-terminated, comes back: a final newline adds no empty line. */
  lemma {:induction false} LinesOfTerminated(lines: seq<string>)
    requires forall i :: 0 <= i < |lines| ==> '\n' !in lines[i] && !EndsWithCr(lines[i])
    ensures Lines(Terminated(lines, "\n")) == lines
  {
    if |lines| > 0 {
      var rest := lines[1..];
      assert Terminated(lines, "\n") == lines[0] + ['\n'] + Terminated(rest, "\n");
      LinesAt(lines[0], Terminated(rest, "\n"));
      LinesOfTerminated(rest);
      assert StripCr(lines[0]) == lines[0];
      assert lines == [lines[0]] + rest;
    }
  }

  /** `\r\n` endings are removed completely, whatever the lines end with. */
  lemma {:induction false} LinesOfCrlf(lines: seq<string>)
    requires forall i :: 0 <= i < |lines| ==> '\n' !in lines[i]
    ensures Lines(Terminated(lines, "\r\n")) == lines
  {
    if |lines| > 0 {
      var rest := lines[1..];
      var first := lines[0] + ['\r'];
      assert Terminated(lines, "\r\n") == first + ['\n'] + Terminated(rest, "\r\n");
      assert '\n' !in first;
      LinesAt(first, Terminated(rest, "\r\n"));
      LinesOfCrlf(rest);
      assert StripCr(first) == lines[0];
      assert lines == [lines[0]] + rest;
    }
  }

  /** ASCII `to_uppercase`: lower-case ASCII letters become upper case, nothing else changes. */
  function UpperChar(c: char): char
  {
    if 'a' <= c <= 'z' then (c as int - 'a' as int + 'A' as int) as char else c
  }

  function AsciiUpper(s: string): (r: string)
    ensures |r| == |s| && forall i :: 0 <= i < |s| ==> r[i] == UpperChar(s[i])
  {
    seq(|s|, i requires 0 <= i < |s| => UpperChar(s[i]))
  }

  /** The UTF-8 encoding of one character. */
  function Utf8(c: char): (r: seq<byte>)
    ensures 1 <= |r| <= 4
    ensures |r| == 1 <==> c as int < 0x80
    ensures c as int < 0x80 ==> r[0] == c as int
    ensures forall i :: 0 <= i < |r| && c as int >= 0x80 ==> r[i] >= 0x80
  {
    var n := c as int;
    if n < 0x80 then [n]
    else if n < 0x800 then [0xC0 + n / 0x40, 0x80 + n % 0x40]
    else if n < 0x1_0000 then [0xE0 + n / 0x1000, 0x80 + n / 0x40 % 0x40, 0x80 + n % 0x40]
    else [0xF0 + n / 0x4_0000, 0x80 + n / 0x1000 % 0x40, 0x80 + n / 0x40 % 0x40, 0x80 + n % 0x40]
  }

  /** `str::as_bytes`. */
  function AsBytes(s: string): (r: seq<byte>)
    ensures |r| >= |s|
  {
    if |s| == 0 then [] else Utf8(s[0]) + AsBytes(s[1..])
  }

  predicate IsAscii(s: string) {
    forall i :: 0 <= i < |s| ==> s[i] as int < 0x80
  }

  /** An ASCII text is its own byte string, one byte per character. */
  lemma {:induction false} AsciiAsBytes(s: string)
    requires IsAscii(s)
    ensures |AsBytes(s)| == |s|
    ensures forall i :: 0 <= i < |s| ==> AsBytes(s)[i] == s[i] as int
  {
    if |s| > 0 {
      AsciiAsBytes(s[1..]);
      assert AsBytes(s) == [s[0] as int] + AsBytes(s[1..]);
    }
  }

  lemma {:induction false} AsBytesAppend(a: string, b: string)
    ensures AsBytes(a + b) == AsBytes(a) + AsBytes(b)
  {
    if |a| > 0 {
      assert (a + b)[0] == a[0] && (a + b)[1..] == a[1..] + b;
      AsBytesAppend(a[1..], b);
    } else {
      assert a + b == b;
    }
  }
}
