/** Escaping a byte string for use inside a JSON string, against section 7 of RFC 8259. */
module JsonEscape {
  import opened Basics

  const QUOTE: byte := 0x22
  const BACKSLASH: byte := 0x5C

  // ----- escaping ----------------------------------------------------------------------------------------------------

  function HexDigit(v: nat): byte
    requires v < 16
  {
    if v < 10 then '0' as int + v else 'a' as int + (v - 10)
  }

  /** The letter of a two-character escape. */
  function Short(b: byte): Option<byte> {
    if b == QUOTE || b == BACKSLASH then Some(b)
    else if b == 0x08 then Some('b' as int)
    else if b == 0x0C then Some('f' as int)
    else if b == 0x0A then Some('n' as int)
    else if b == 0x0D then Some('r' as int)
    else if b == 0x09 then Some('t' as int)
    else None
  }

  function Escape(b: byte): seq<byte> {
    if Short(b).Some? then [BACKSLASH, Short(b).value]
    else if b <= 0x1F then [BACKSLASH, 'u' as int, '0' as int, '0' as int, HexDigit(b / 16 % 16), HexDigit(b % 16)]
    else [b]
  }

  function Sanitized(input: seq<byte>): seq<byte> {
    if input == [] then [] else Sanitized(input[..|input| - 1]) + Escape(input[|input| - 1])
  }

  method SanitizeStringForJson(input: seq<byte>) returns (result: seq<byte>)
    ensures result == Sanitized(input)
  {
    if input == [] { return input; }
    result := [];
    for i := 0 to |input|
      invariant result == Sanitized(input[..i])
    {
      assert input[..i + 1][..i] == input[..i];
      var uc := input[i];
      match uc
      case 0x22 => result := result + [BACKSLASH, QUOTE];
      case 0x5C => result := result + [BACKSLASH, BACKSLASH];
      case 0x08 => result := result + [BACKSLASH, 'b' as int];
      case 0x0C => result := result + [BACKSLASH, 'f' as int];
      case 0x0A => result := result + [BACKSLASH, 'n' as int];
      case 0x0D => result := result + [BACKSLASH, 'r' as int];
      case 0x09 => result := result + [BACKSLASH, 't' as int];
      case _ =>
        if uc <= 0x1F {
          result := result + [BACKSLASH, 'u' as int, '0' as int, '0' as int];
          result := result + [HexDigit(uc / 16 % 16)];
          result := result + [HexDigit(uc % 16)];
          assert Escape(uc) ==
                 [BACKSLASH, 'u' as int, '0' as int, '0' as int] + [HexDigit(uc / 16 % 16)] + [HexDigit(uc % 16)];
        } else {
          result := result + [uc];
        }
    }
    assert input[..|input|] == input;
  }

  // ----- reading a JSON string back ----------------------------------------------------------------------------------

  function HexValue(b: byte): Option<nat> {
    if '0' as int <= b <= '9' as int then Some(b - '0' as int)
    else if 'a' as int <= b <= 'f' as int then Some(b - 'a' as int + 10)
    else if 'A' as int <= b <= 'F' as int then Some(b - 'A' as int + 10)
    else None
  }

  /** The byte a two-character escape stands for. */
  function Long(letter: byte): Option<byte> {
    if letter == QUOTE || letter == BACKSLASH || letter == '/' as int then Some(letter)
    else if letter == 'b' as int then Some(0x08)
    else if letter == 'f' as int then Some(0x0C)
    else if letter == 'n' as int then Some(0x0A)
    else if letter == 'r' as int then Some(0x0D)
    else if letter == 't' as int then Some(0x09)
    else None
  }

  /** UTF-8 of a code point that is not half of a surrogate pair. */
  function Utf8(code: nat): Option<seq<byte>>
    requires code < 0x1_0000
  {
    if code < 0x80 then Some([code])
    else if code < 0x800 then Some([0xC0 + code / 64, 0x80 + code % 64])
    else if 0xD800 <= code < 0xE000 then None
    else Some([0xE0 + code / 4096, 0x80 + code / 64 % 64, 0x80 + code % 64])
  }

  datatype Token = Token(bytes: seq<byte>, length: nat)

  /** The first character of the contents of a JSON string, escaped or not. */
  function ReadToken(text: seq<byte>): Option<Token>
    requires text != []
  {
    if text[0] < 0x20 || text[0] == QUOTE then None
    else if text[0] != BACKSLASH then Some(Token([text[0]], 1))
    else if |text| < 2 then None
    else if Long(text[1]).Some? then Some(Token([Long(text[1]).value], 2))
    else if text[1] != 'u' as int || |text| < 6 then None
    else
      var d := [HexValue(text[2]), HexValue(text[3]), HexValue(text[4]), HexValue(text[5])];
      if d[0].None? || d[1].None? || d[2].None? || d[3].None? then None
      else
        var utf8 := Utf8(((d[0].value * 16 + d[1].value) * 16 + d[2].value) * 16 + d[3].value);
        if utf8.None? then None else Some(Token(utf8.value, 6))
  }

  /** A raw control byte, a raw quote or a malformed escape makes the whole unreadable. */
  function Unescape(text: seq<byte>): Option<seq<byte>> {
    if text == [] then Some([])
    else
      var token := ReadToken(text);
      if token.None? then None
      else
        var rest := Unescape(text[token.value.length..]);
        if rest.None? then None else Some(token.value.bytes + rest.value)
  }

  // ----- round trip --------------------------------------------------------------------------------------------------

  lemma HexRoundTrip(v: nat)
    requires v < 16
    ensures HexValue(HexDigit(v)) == Some(v) && HexDigit(v) == "0123456789abcdef"[v] as int
  {
  }

  lemma EscapeReads(b: byte, rest: seq<byte>)
    ensures ReadToken(Escape(b) + rest) == Some(Token([b], |Escape(b)|))
  {
    var text := Escape(b) + rest;
    if Short(b).None? && b <= 0x1F {
      HexRoundTrip(b / 16 % 16);
      HexRoundTrip(b % 16);
      assert text[..6] == Escape(b);
      assert HexValue(text[2]) == Some(0) && HexValue(text[3]) == Some(0);
      assert b == b / 16 % 16 * 16 + b % 16;
    }
  }

  /** The same text, taken from the front. */
  lemma {:induction false} SanitizedFront(input: seq<byte>)
    requires input != []
    ensures Sanitized(input) == Escape(input[0]) + Sanitized(input[1..])
  {
    var n := |input| - 1;
    if n > 0 {
      SanitizedFront(input[..n]);
      assert input[..n][1..] == input[1..][..n - 1];
    }
  }

  /** Un-escaping the sanitized text gives the input back. */
  lemma {:induction false} UnescapeSanitized(input: seq<byte>)
    ensures Unescape(Sanitized(input)) == Some(input)
  {
    if input != [] {
      SanitizedFront(input);
      var rest := Sanitized(input[1..]);
      EscapeReads(input[0], rest);
      assert (Escape(input[0]) + rest)[|Escape(input[0])|..] == rest;
      UnescapeSanitized(input[1..]);
      assert input == [input[0]] + input[1..];
    }
  }

  lemma SanitizedSnoc(input: seq<byte>, b: byte)
    ensures |Sanitized(input + [b])| == |Sanitized(input)| + |Escape(b)|
  {
    assert (input + [b])[..|input|] == input;
  }

  lemma {:induction false} SanitizedConcat(a: seq<byte>, b: seq<byte>)
    ensures |Sanitized(a + b)| == |Sanitized(a)| + |Sanitized(b)|
  {
    if b == [] {
      assert a + b == a;
    } else {
      var rest, last := b[..|b| - 1], b[|b| - 1];
      SanitizedConcat(a, rest);
      SanitizedSnoc(a + rest, last);
      assert a + b == a + rest + [last];
    }
  }

  /** A token is at least as long as the escapes of the bytes it stands for. */
  lemma TokenIsNoShorter(text: seq<byte>)
    requires text != [] && ReadToken(text).Some?
    ensures 0 < ReadToken(text).value.length <= |text|
    ensures |Sanitized(ReadToken(text).value.bytes)| <= ReadToken(text).value.length
  {
    var bytes := ReadToken(text).value.bytes;
    assert 1 <= |bytes| <= 3;
    assert |bytes| == 1 ==> bytes == [bytes[0]];
    SanitizedLength(bytes);
  }

  /** No byte takes more than six characters, and a byte that is not ASCII takes one. */
  lemma {:induction false} SanitizedLength(bytes: seq<byte>)
    ensures (forall b | b in bytes :: b >= 0x80) ==> |Sanitized(bytes)| == |bytes|
    ensures |bytes| == 1 ==> |Sanitized(bytes)| == |Escape(bytes[0])| <= 6
  {
    if bytes != [] {
      var rest, last := bytes[..|bytes| - 1], bytes[|bytes| - 1];
      assert bytes == rest + [last];
      assert last in bytes && forall b | b in rest :: b in bytes;
      SanitizedLength(rest);
    }
  }

  /** No other text that reads back as the input is shorter. */
  lemma {:induction false} ShortestText(text: seq<byte>, input: seq<byte>)
    requires Unescape(text) == Some(input)
    ensures |Sanitized(input)| <= |text|
    decreases |text|
  {
    if text != [] {
      var token := ReadToken(text).value;
      TokenIsNoShorter(text);
      var rest := Unescape(text[token.length..]).value;
      ShortestText(text[token.length..], rest);
      SanitizedConcat(token.bytes, rest);
    }
  }

  lemma {:induction false} NoRawControl(input: seq<byte>)
    ensures forall b | b in Sanitized(input) :: b >= 0x20
  {
    if input != [] {
      NoRawControl(input[..|input| - 1]);
      var last := Escape(input[|input| - 1]);
      assert forall b | b in last :: b >= 0x20;
    }
  }

  /** Where a JSON reader finds the closing quote; the length if there is none. */
  function ClosingQuote(text: seq<byte>, i: nat): nat
    requires i <= |text|
    decreases |text| - i
  {
    if i == |text| || text[i] == QUOTE then i
    else if text[i] == BACKSLASH && i + 1 < |text| then ClosingQuote(text, i + 2)
    else ClosingQuote(text, i + 1)
  }

  lemma {:induction false} SkipPlain(text: seq<byte>, i: nat, n: nat)
    requires i + n <= |text| && forall k | i <= k < i + n :: text[k] != QUOTE && text[k] != BACKSLASH
    ensures ClosingQuote(text, i) == ClosingQuote(text, i + n)
    decreases n
  {
    if n > 0 { SkipPlain(text, i + 1, n - 1); }
  }

  lemma SkipPair(text: seq<byte>, i: nat)
    requires i + 2 <= |text| && text[i] == BACKSLASH
    ensures ClosingQuote(text, i) == ClosingQuote(text, i + 2)
  {
  }

  predicate IsPlain(bytes: seq<byte>) {
    forall b | b in bytes :: b != QUOTE && b != BACKSLASH
  }

  /** A backslash, the byte it protects and plain bytes; or a plain byte. */
  predicate IsUnit(bytes: seq<byte>) {
    if bytes != [] && bytes[0] == BACKSLASH then |bytes| >= 2 && IsPlain(bytes[2..]) else IsPlain(bytes)
  }

  lemma EscapeIsUnit(b: byte)
    ensures IsUnit(Escape(b))
  {
    var e := Escape(b);
    assert Short(b).None? && b <= 0x1F ==> e[2..] == ['0' as int, '0' as int, HexDigit(b / 16 % 16), HexDigit(b % 16)];
  }

  /** The reader passes over such a unit in whole. */
  lemma SkipUnit(before: seq<byte>, unit: seq<byte>, after: seq<byte>)
    requires IsUnit(unit)
    ensures ClosingQuote(before + unit + after, |before|) == ClosingQuote(before + unit + after, |before| + |unit|)
  {
    var text, i := before + unit + after, |before|;
    var skipped := if unit != [] && unit[0] == BACKSLASH then 2 else 0;
    var plain := unit[skipped..];
    assert IsPlain(plain) by { if skipped == 0 { assert plain == unit; } }
    forall k | i + skipped <= k < i + |unit| ensures text[k] != QUOTE && text[k] != BACKSLASH {
      assert text[k] == plain[k - i - skipped] && plain[k - i - skipped] in plain;
    }
    if skipped == 2 { SkipPair(text, i); }
    SkipPlain(text, i + skipped, |unit| - skipped);
  }

  lemma {:induction false} SkipSanitized(before: seq<byte>, input: seq<byte>, after: seq<byte>)
    ensures var text := before + Sanitized(input) + after;
            ClosingQuote(text, |before|) == ClosingQuote(text, |before| + |Sanitized(input)|)
    decreases |input|
  {
    if input != [] {
      var rest, last := Sanitized(input[..|input| - 1]), Escape(input[|input| - 1]);
      SkipSanitized(before, input[..|input| - 1], last + after);
      EscapeIsUnit(input[|input| - 1]);
      SkipUnit(before + rest, last, after);
      SameText(before, rest, last, after);
    }
  }

  lemma SameText(a: seq<byte>, b: seq<byte>, c: seq<byte>, d: seq<byte>)
    ensures a + b + (c + d) == a + (b + c) + d == (a + b) + c + d
  {
  }

  lemma EndsAtQuote(text: seq<byte>, i: nat, j: nat)
    requires i <= j < |text| && text[j] == QUOTE && ClosingQuote(text, i) == ClosingQuote(text, j)
    ensures ClosingQuote(text, i) == j
  {
  }

  /** Between quotes the sanitized text ends the string exactly where it ends itself, whatever
      comes before and after. */
  lemma QuoteStaysOutside(before: seq<byte>, input: seq<byte>, after: seq<byte>, text: seq<byte>)
    requires text == before + Sanitized(input) + after && after != [] && after[0] == QUOTE
    ensures ClosingQuote(text, |before|) == |before| + |Sanitized(input)|
  {
    SkipSanitized(before, input, after);
    EndsAtQuote(text, |before|, |before| + |Sanitized(input)|);
  }
}
