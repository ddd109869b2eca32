/** Export of string literals, and the scanner that reads them back. */
module StringExport {

  type Byte = b: int | 0 <= b < 256

  const TAB: Byte := 9
  const NEWLINE: Byte := 10
  const VTAB: Byte := 11
  const FEED: Byte := 12
  const RETURN: Byte := 13
  const ESC: Byte := 27
  const SPACE: Byte := 32
  const DOUBLE_QUOTE: Byte := 34
  const DOLLAR: Byte := 36
  const SINGLE_QUOTE: Byte := 39
  const ZERO: Byte := 48
  const BACKSLASH: Byte := 92
  const BACKTICK: Byte := 96

  // --------------------------------------------------------------------- the printers

  /** What zend_ast_export_str appends for one byte. */
  function EscapeSingle(c: Byte): seq<Byte> {
    if c == SINGLE_QUOTE || c == BACKSLASH then [BACKSLASH, c] else [c]
  }

  function EncodeSingle(s: seq<Byte>): seq<Byte> {
    if s == [] then [] else EscapeSingle(s[0]) + EncodeSingle(s[1..])
  }

  /** zend_ast_export_str */
  method ExportSingle(s: seq<Byte>) returns (out: seq<Byte>)
    ensures out == EncodeSingle(s)
  {
    hide EscapeSingle;
    out := [];
    for i := 0 to |s|
      invariant out + EncodeSingle(s[i..]) == EncodeSingle(s)
    {
      ghost var before, tail := out, EncodeSingle(s[i + 1..]);
      out := AppendSingle(out, s[i]);
      assert s[i..][1..] == s[i + 1..];
      assert before + (EscapeSingle(s[i]) + tail) == out + tail;
    }
    assert out + EncodeSingle(s[|s|..]) == out;
  }

  /** The body of its loop. */
  method AppendSingle(out: seq<Byte>, c: Byte) returns (r: seq<Byte>)
    ensures r == out + EscapeSingle(c)
  {
    if c == SINGLE_QUOTE || c == BACKSLASH {
      r := out + [BACKSLASH];
      r := r + [c];
    } else {
      r := out + [c];
    }
  }

  /** The letter that stands for a control character, if there is one. */
  function Letter(c: Byte): Byte {
    if c == NEWLINE then 110 else if c == RETURN then 114 else if c == TAB then 116
    else if c == FEED then 102 else if c == VTAB then 118 else if c == ESC then 101
    else 0
  }

  /** What zend_ast_export_qstr appends for one byte. */
  function EscapeQuoted(quote: Byte, c: Byte): seq<Byte> {
    if c < SPACE then
      if Letter(c) != 0 then [BACKSLASH, Letter(c)] else [BACKSLASH, ZERO, ZERO + c / 8, ZERO + c % 8]
    else if c == quote || c == DOLLAR || c == BACKSLASH then [BACKSLASH, c]
    else [c]
  }

  function EncodeQuoted(quote: Byte, s: seq<Byte>): seq<Byte> {
    if s == [] then [] else EscapeQuoted(quote, s[0]) + EncodeQuoted(quote, s[1..])
  }

  /** The body of the loop of zend_ast_export_qstr. */
  method AppendQuoted(out: seq<Byte>, quote: Byte, c: Byte) returns (r: seq<Byte>)
    ensures r == out + EscapeQuoted(quote, c)
  {
    if c < SPACE {
      if c == NEWLINE {
        r := out + [BACKSLASH, 110];
      } else if c == RETURN {
        r := out + [BACKSLASH, 114];
      } else if c == TAB {
        r := out + [BACKSLASH, 116];
      } else if c == FEED {
        r := out + [BACKSLASH, 102];
      } else if c == VTAB {
        r := out + [BACKSLASH, 118];
      } else if c == ESC {
        r := out + [BACKSLASH, 101];
      } else {
        r := out + [BACKSLASH, ZERO];
        r := r + [ZERO + c / 8];
        r := r + [ZERO + c % 8];
      }
    } else {
      r := out;
      if c == quote || c == DOLLAR || c == BACKSLASH {
        r := r + [BACKSLASH];
      }
      r := r + [c];
    }
  }

  /** zend_ast_export_qstr */
  method ExportQuoted(quote: Byte, s: seq<Byte>) returns (out: seq<Byte>)
    ensures out == EncodeQuoted(quote, s)
  {
    hide EscapeQuoted;
    out := [];
    for i := 0 to |s|
      invariant out + EncodeQuoted(quote, s[i..]) == EncodeQuoted(quote, s)
    {
      ghost var before, tail := out, EncodeQuoted(quote, s[i + 1..]);
      out := AppendQuoted(out, quote, s[i]);
      assert s[i..][1..] == s[i + 1..];
      assert before + (EscapeQuoted(quote, s[i]) + tail) == out + tail;
    }
    assert out + EncodeQuoted(quote, s[|s|..]) == out;
  }

  // ------------------------------------------------------ no more escapes than needed

  /** How many bytes `f` picks. */
  function Count(s: seq<Byte>, f: Byte -> bool): nat {
    if s == [] then 0 else Count(s[1..], f) + if f(s[0]) then 1 else 0
  }

  predicate SpecialSingle(c: Byte) {
    c == SINGLE_QUOTE || c == BACKSLASH
  }

  /** A single-quoted export is longer than the string by its quotes and backslashes. */
  lemma {:induction false} SingleLength(s: seq<Byte>)
    ensures |EncodeSingle(s)| == |s| + Count(s, SpecialSingle)
  {
    if s != [] {
      SingleLength(s[1..]);
    }
  }

  /** Bytes that are written with a backslash and one more byte. */
  predicate ShortEscape(quote: Byte, c: Byte) {
    || (c >= SPACE && (c == quote || c == DOLLAR || c == BACKSLASH))
    || c == NEWLINE || c == RETURN || c == TAB || c == FEED || c == VTAB || c == ESC
  }

  /** The other control characters. */
  predicate LongEscape(c: Byte) {
    c < SPACE && c != NEWLINE && c != RETURN && c != TAB && c != FEED && c != VTAB && c != ESC
  }

  /** A double-quoted or backtick export is longer by one byte for every short escape and by three for
      every other control character, and it has no control character of its own. */
  lemma {:induction false} QuotedLength(quote: Byte, s: seq<Byte>)
    ensures |EncodeQuoted(quote, s)| == |s| + Count(s, (c: Byte) => ShortEscape(quote, c)) + 3 * Count(s, LongEscape)
    ensures forall k :: 0 <= k < |EncodeQuoted(quote, s)| ==> EncodeQuoted(quote, s)[k] >= SPACE
  {
    hide EscapeQuoted, ShortEscape, LongEscape;
    if s != [] {
      QuotedLength(quote, s[1..]);
      EscapeLength(quote, s[0]);
    }
  }

  lemma EscapeLength(quote: Byte, c: Byte)
    ensures |EscapeQuoted(quote, c)| == 1 + (if ShortEscape(quote, c) then 1 else 0) + if LongEscape(c) then 3 else 0
    ensures forall k :: 0 <= k < |EscapeQuoted(quote, c)| ==> EscapeQuoted(quote, c)[k] >= SPACE
  {
  }

  // ----------------------------------------------------------- the scanner's side

  datatype Literal = Literal(value: seq<Byte>, rest: seq<Byte>) | Unclosed | Interpolated

  /** Position of the quote that closes a single-quoted literal, or the length of the text. */
  function ClosingSingle(t: seq<Byte>): (n: nat)
    ensures n <= |t|
  {
    if t == [] then 0
    else if t[0] == SINGLE_QUOTE then 0
    else if t[0] == BACKSLASH && |t| > 1 then 2 + ClosingSingle(t[2..])
    else 1 + ClosingSingle(t[1..])
  }

  /** The escape sequences of a single-quoted literal. */
  function UnescapeSingle(t: seq<Byte>): seq<Byte> {
    if t == [] then []
    else if t[0] == BACKSLASH && |t| > 1 then
      (if t[1] == BACKSLASH || t[1] == SINGLE_QUOTE then [t[1]] else [BACKSLASH, t[1]]) + UnescapeSingle(t[2..])
    else [t[0]] + UnescapeSingle(t[1..])
  }

  /** Read the literal whose opening quote has been passed. */
  function ReadSingle(t: seq<Byte>): Literal {
    var n := ClosingSingle(t);
    if n == |t| then Unclosed else Literal(UnescapeSingle(t[..n]), t[n + 1..])
  }

  /** Position of the first unescaped quote or dollar sign, or the length of the text. */
  function ClosingQuoted(t: seq<Byte>, quote: Byte): (n: nat)
    ensures n <= |t|
  {
    if t == [] then 0
    else if t[0] == quote || t[0] == DOLLAR then 0
    else if t[0] == BACKSLASH && |t| > 1 then 2 + ClosingQuoted(t[2..], quote)
    else 1 + ClosingQuoted(t[1..], quote)
  }

  predicate IsOctal(c: Byte) {
    ZERO <= c <= ZERO + 7
  }

  function HexDigit(c: Byte): int {
    if ZERO <= c <= ZERO + 9 then c - ZERO
    else if 65 <= c <= 70 then c - 55
    else if 97 <= c <= 102 then c - 87
    else -1
  }

  /** The octal number that `t` starts with, up to three digits, and how many digits it has. */
  function Octal(t: seq<Byte>): (r: (int, nat))
    requires t != [] && IsOctal(t[0])
    ensures 1 <= r.1 <= |t| && 0 <= r.0 < 512
  {
    var d0 := t[0] - ZERO;
    if |t| < 2 || !IsOctal(t[1]) then (d0, 1)
    else
      var d1 := d0 * 8 + (t[1] - ZERO);
      if |t| < 3 || !IsOctal(t[2]) then (d1, 2) else (d1 * 8 + (t[2] - ZERO), 3)
  }

  /** zend_scan_escape_string for the text behind a backslash: the bytes it stands for, and how many
      bytes of the text are used. `\u{...}` is not part of this model. */
  function UnescapeOne(t: seq<Byte>, quote: Byte): (r: (seq<Byte>, nat))
    requires t != []
    ensures 1 <= r.1 <= |t|
  {
    var c := t[0];
    if c == 110 then ([NEWLINE], 1)
    else if c == 114 then ([RETURN], 1)
    else if c == 116 then ([TAB], 1)
    else if c == 102 then ([FEED], 1)
    else if c == 118 then ([VTAB], 1)
    else if c == 101 then ([ESC], 1)
    else if (c == DOUBLE_QUOTE || c == BACKTICK) && c != quote then ([BACKSLASH, c], 1)
    else if c == DOUBLE_QUOTE || c == BACKTICK || c == BACKSLASH || c == DOLLAR then ([c], 1)
    else if (c == 120 || c == 88) && |t| > 1 && HexDigit(t[1]) >= 0 then
      if |t| > 2 && HexDigit(t[2]) >= 0 then ([HexDigit(t[1]) * 16 + HexDigit(t[2])], 3) else ([HexDigit(t[1])], 2)
    else if IsOctal(c) then ([Octal(t).0 % 256], Octal(t).1)
    else ([BACKSLASH, c], 1)
  }

  function UnescapeQuoted(t: seq<Byte>, quote: Byte): seq<Byte> {
    if t == [] then []
    else if t[0] == BACKSLASH && |t| > 1 then
      var (bytes, used) := UnescapeOne(t[1..], quote);
      bytes + UnescapeQuoted(t[1 + used..], quote)
    else [t[0]] + UnescapeQuoted(t[1..], quote)
  }

  function ReadQuoted(t: seq<Byte>, quote: Byte): Literal {
    var n := ClosingQuoted(t, quote);
    if n == |t| then Unclosed
    else if t[n] != quote then Interpolated
    else Literal(UnescapeQuoted(t[..n], quote), t[n + 1..])
  }

  // ----------------------------------------------------------------- the round trips

  /** The literal ends where the printer ends it. */
  lemma {:induction false} SingleCloses(s: seq<Byte>, rest: seq<Byte>)
    ensures ClosingSingle(EncodeSingle(s) + [SINGLE_QUOTE] + rest) == |EncodeSingle(s)|
  {
    var t := EncodeSingle(s) + [SINGLE_QUOTE] + rest;
    if s == [] {
    } else {
      SingleCloses(s[1..], rest);
      assert t[|EscapeSingle(s[0])|..] == EncodeSingle(s[1..]) + [SINGLE_QUOTE] + rest;
    }
  }

  lemma {:induction false} SingleUnescapes(s: seq<Byte>)
    ensures UnescapeSingle(EncodeSingle(s)) == s
  {
    if s != [] {
      SingleUnescapes(s[1..]);
      assert EncodeSingle(s)[|EscapeSingle(s[0])|..] == EncodeSingle(s[1..]);
      assert s == [s[0]] + s[1..];
    }
  }

  /** A printed single-quoted literal is read back as the string it was made from, whatever follows. */
  lemma SingleRoundTrip(s: seq<Byte>, rest: seq<Byte>)
    ensures ReadSingle(EncodeSingle(s) + [SINGLE_QUOTE] + rest) == Literal(s, rest)
  {
    var t := EncodeSingle(s) + [SINGLE_QUOTE] + rest;
    SingleCloses(s, rest);
    SingleUnescapes(s);
    assert t[..|EncodeSingle(s)|] == EncodeSingle(s);
    assert t[|EncodeSingle(s)| + 1..] == rest;
  }

  /** One escaped byte is passed as a whole by the search for the end. */
  lemma ClosingPastOne(quote: Byte, c: Byte, t: seq<Byte>)
    requires quote == DOUBLE_QUOTE || quote == BACKTICK
    ensures ClosingQuoted(EscapeQuoted(quote, c) + t, quote) == |EscapeQuoted(quote, c)| + ClosingQuoted(t, quote)
  {
    var e := EscapeQuoted(quote, c);
    if |e| == 1 {
      assert (e + t)[1..] == t;
    } else if |e| == 2 {
      assert (e + t)[2..] == t;
    } else {
      assert (e + t)[2..] == [ZERO + c / 8] + ([ZERO + c % 8] + t);
      ClosingPastDigit(quote, ZERO + c / 8, [ZERO + c % 8] + t);
      ClosingPastDigit(quote, ZERO + c % 8, t);
    }
  }

  lemma ClosingPastDigit(quote: Byte, d: Byte, t: seq<Byte>)
    requires (quote == DOUBLE_QUOTE || quote == BACKTICK) && ZERO <= d <= ZERO + 9
    ensures ClosingQuoted([d] + t, quote) == 1 + ClosingQuoted(t, quote)
  {
    assert ([d] + t)[1..] == t;
  }

  /** No unescaped quote or dollar sign appears inside the exported text. */
  lemma {:induction false} QuotedCloses(quote: Byte, s: seq<Byte>, rest: seq<Byte>)
    requires quote == DOUBLE_QUOTE || quote == BACKTICK
    ensures ClosingQuoted(EncodeQuoted(quote, s) + [quote] + rest, quote) == |EncodeQuoted(quote, s)|
  {
    if s == [] {
    } else {
      QuotedCloses(quote, s[1..], rest);
      var tail := EncodeQuoted(quote, s[1..]) + [quote] + rest;
      assert EncodeQuoted(quote, s) + [quote] + rest == EscapeQuoted(quote, s[0]) + tail;
      ClosingPastOne(quote, s[0], tail);
    }
  }

  /** The bytes behind the backslash of an escape stand for the byte that was escaped. */
  lemma UnescapeEscape(quote: Byte, c: Byte, t: seq<Byte>)
    requires quote == DOUBLE_QUOTE || quote == BACKTICK
    requires |EscapeQuoted(quote, c)| > 1
    ensures UnescapeOne(EscapeQuoted(quote, c)[1..] + t, quote) == ([c], |EscapeQuoted(quote, c)| - 1)
  {
    var e := EscapeQuoted(quote, c);
    var u := e[1..] + t;
    if |e| == 4 {
      OctalEscape(c, t);
      assert u == [ZERO, ZERO + c / 8, ZERO + c % 8] + t;
    } else {
      assert u[0] == e[1];
    }
  }

  lemma OctalEscape(c: Byte, t: seq<Byte>)
    requires c < SPACE
    ensures var u := [ZERO, ZERO + c / 8, ZERO + c % 8] + t; IsOctal(u[0]) && Octal(u) == (c, 3)
  {
  }

  lemma UnescapePastOne(quote: Byte, c: Byte, t: seq<Byte>)
    requires quote == DOUBLE_QUOTE || quote == BACKTICK
    ensures UnescapeQuoted(EscapeQuoted(quote, c) + t, quote) == [c] + UnescapeQuoted(t, quote)
  {
    hide UnescapeOne;
    var e := EscapeQuoted(quote, c);
    var u := e + t;
    if |e| == 1 {
      assert u[1..] == t;
    } else {
      UnescapeEscape(quote, c, t);
      assert u[1..] == e[1..] + t;
      assert u[|e|..] == t;
    }
  }

  lemma {:induction false} QuotedUnescapes(quote: Byte, s: seq<Byte>)
    requires quote == DOUBLE_QUOTE || quote == BACKTICK
    ensures UnescapeQuoted(EncodeQuoted(quote, s), quote) == s
  {
    if s != [] {
      QuotedUnescapes(quote, s[1..]);
      UnescapePastOne(quote, s[0], EncodeQuoted(quote, s[1..]));
      assert s == [s[0]] + s[1..];
    }
  }

  /** A printed double-quoted or backtick literal is read back as the string it was made from, and
      no variable is interpolated. */
  lemma QuotedRoundTrip(quote: Byte, s: seq<Byte>, rest: seq<Byte>)
    requires quote == DOUBLE_QUOTE || quote == BACKTICK
    ensures ReadQuoted(EncodeQuoted(quote, s) + [quote] + rest, quote) == Literal(s, rest)
  {
    var t := EncodeQuoted(quote, s) + [quote] + rest;
    QuotedCloses(quote, s, rest);
    QuotedUnescapes(quote, s);
    assert t[..|EncodeQuoted(quote, s)|] == EncodeQuoted(quote, s);
    assert t[|EncodeQuoted(quote, s)| + 1..] == rest;
  }
}
