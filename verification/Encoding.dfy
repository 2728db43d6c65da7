/** The two encodings inside the package hash: UTF-8 and `JSON.stringify` of strings. */
module Encoding {
  import opened Seqs

  type Byte = n: int | 0 <= n < 256

  // ----- UTF-8 ----------------------------------------------------------------

  function EncodeChar(c: char): (bytes: seq<Byte>)
    ensures |bytes| > 0
  {
    var n := c as int;
    if n < 0x80 then [n]
    else if n < 0x800 then [0xC0 + n / 64, 0x80 + n % 64]
    else if n < 0x1_0000 then [0xE0 + n / 64 / 64, 0x80 + n / 64 % 64, 0x80 + n % 64]
    else [0xF0 + n / 64 / 64 / 64, 0x80 + n / 64 / 64 % 64, 0x80 + n / 64 % 64, 0x80 + n % 64]
  }

  function Utf8(s: string): seq<Byte> {
    if s == "" then [] else EncodeChar(s[0]) + Utf8(s[1..])
  }

  /** The code point a whole encoding stands for. */
  function DecodeChar(bytes: seq<Byte>): int
    requires 1 <= |bytes| <= 4
  {
    var at := (k: int) requires 0 <= k < |bytes| => bytes[k] as int;
    if |bytes| == 1 then at(0)
    else if |bytes| == 2 then (at(0) - 0xC0) * 64 + (at(1) - 0x80)
    else if |bytes| == 3 then ((at(0) - 0xE0) * 64 + (at(1) - 0x80)) * 64 + (at(2) - 0x80)
    else (((at(0) - 0xF0) * 64 + (at(1) - 0x80)) * 64 + (at(2) - 0x80)) * 64 + (at(3) - 0x80)
  }

  lemma DecodeEncode(c: char)
    ensures DecodeChar(EncodeChar(c)) == c as int
  {
  }

  lemma EncodeCharPrefixFree(c: char, x: seq<Byte>, d: char, y: seq<Byte>)
    requires EncodeChar(c) + x == EncodeChar(d) + y
    ensures c == d && x == y
  {
    var e, f := EncodeChar(c), EncodeChar(d);
    assert (e + x)[0] == e[0] && (f + y)[0] == f[0];
    assert |e| == |f|;
    assert e == (e + x)[..|e|] && f == (f + y)[..|f|];
    DecodeEncode(c);
    DecodeEncode(d);
    assert x == (e + x)[|e|..] && y == (f + y)[|f|..];
  }

  lemma {:induction false} Utf8Injective(s: string, t: string)
    requires Utf8(s) == Utf8(t)
    ensures s == t
    decreases |s|
  {
    if s != "" && t != "" {
      EncodeCharPrefixFree(s[0], Utf8(s[1..]), t[0], Utf8(t[1..]));
      Utf8Injective(s[1..], t[1..]);
      assert s == [s[0]] + s[1..] && t == [t[0]] + t[1..];
    }
  }

  // ----- JSON strings (section 7 of RFC 8259) ---------------------------------

  function HexDigit(n: int): char
    requires 0 <= n < 16
  {
    "0123456789abcdef"[n]
  }

  function EscapeChar(c: char): (text: string)
    ensures |text| > 0
  {
    if c == '"' then "\\\""
    else if c == '\\' then "\\\\"
    else if c == '\U{8}' then "\\b"
    else if c == '\U{C}' then "\\f"
    else if c == '\n' then "\\n"
    else if c == '\r' then "\\r"
    else if c == '\t' then "\\t"
    else if (c as int) < 0x20 then "\\u00" + [HexDigit(c as int / 16), HexDigit(c as int % 16)]
    else [c]
  }

  function Escape(s: string): string {
    if s == "" then "" else EscapeChar(s[0]) + Escape(s[1..])
  }

  function Quote(s: string): string {
    "\"" + Escape(s) + "\""
  }

  function JoinQuoted(items: seq<string>): string {
    if items == [] then ""
    else if |items| == 1 then Quote(items[0])
    else Quote(items[0]) + "," + JoinQuoted(items[1..])
  }

  /** `JSON.stringify` of an array of strings. */
  function Stringify(items: seq<string>): string {
    "[" + JoinQuoted(items) + "]"
  }

  lemma HexDigitInjective(m: int, n: int)
    requires 0 <= m < 16 && 0 <= n < 16 && HexDigit(m) == HexDigit(n)
    ensures m == n
  {
    assert HexDigit(m) == if m < 10 then '0' + m as char else 'a' + (m - 10) as char;
    assert HexDigit(n) == if n < 10 then '0' + n as char else 'a' + (n - 10) as char;
  }

  lemma EscapeCharPrefixFree(c: char, x: string, d: char, y: string)
    requires EscapeChar(c) + x == EscapeChar(d) + y
    ensures c == d && x == y
  {
    var e, f := EscapeChar(c), EscapeChar(d);
    assert (e + x)[0] == e[0] && (f + y)[0] == f[0];
    if |e| > 1 && |f| > 1 {
      assert (e + x)[1] == e[1] && (f + y)[1] == f[1];
    }
    assert |e| == |f|;
    assert forall k | 0 <= k < |e| :: e[k] == (e + x)[k] == (f + y)[k] == f[k];
    if |e| == 6 {
      assert e[4] == HexDigit(c as int / 16) && e[5] == HexDigit(c as int % 16);
      assert f[4] == HexDigit(d as int / 16) && f[5] == HexDigit(d as int % 16);
      HexDigitInjective(c as int / 16, d as int / 16);
      HexDigitInjective(c as int % 16, d as int % 16);
    }
    assert x == (e + x)[|e|..] && y == (f + y)[|f|..];
  }

  /** What follows an opening quote: the escaped string, its closing quote, the rest. */
  function Tail(s: string, rest: string): string {
    if s == "" then "\"" + rest else EscapeChar(s[0]) + Tail(s[1..], rest)
  }

  lemma {:induction false} QuoteIsTail(s: string, rest: string)
    ensures Escape(s) + "\"" + rest == Tail(s, rest)
    decreases |s|
  {
    if s != "" {
      QuoteIsTail(s[1..], rest);
      assert EscapeChar(s[0]) + Escape(s[1..]) + "\"" + rest == EscapeChar(s[0]) + (Escape(s[1..]) + "\"" + rest);
    }
  }

  lemma TailStart(s: string, rest: string)
    ensures |Tail(s, rest)| > 0 && (Tail(s, rest)[0] == '"' <==> s == "")
  {
  }

  /** A quoted string ends at its own closing quote, whatever follows. */
  lemma {:induction false} TailPrefixFree(s: string, x: string, t: string, y: string)
    requires Tail(s, x) == Tail(t, y)
    ensures s == t && x == y
    decreases |s|
  {
    TailStart(s, x);
    TailStart(t, y);
    if s == "" {
      assert ("\"" + x)[1..] == x && ("\"" + y)[1..] == y;
    } else {
      EscapeCharPrefixFree(s[0], Tail(s[1..], x), t[0], Tail(t[1..], y));
      TailPrefixFree(s[1..], x, t[1..], y);
      assert s == [s[0]] + s[1..] && t == [t[0]] + t[1..];
    }
  }

  lemma QuoteThen(s: string, rest: string)
    ensures Quote(s) + rest == "\"" + Tail(s, rest)
  {
    QuoteIsTail(s, rest);
    var escaped := Escape(s);
    assert "\"" + escaped + "\"" + rest == "\"" + (escaped + "\"" + rest);
  }

  /** What follows the first item. */
  function AfterFirst(items: seq<string>): string
    requires items != []
  {
    if |items| == 1 then "" else "," + JoinQuoted(items[1..])
  }

  lemma JoinQuotedTail(items: seq<string>)
    requires items != []
    ensures JoinQuoted(items) == "\"" + Tail(items[0], AfterFirst(items))
  {
    var first := Quote(items[0]);
    QuoteThen(items[0], AfterFirst(items));
    if |items| == 1 {
      assert first + "" == first;
    } else {
      Associate(first, ",", JoinQuoted(items[1..]));
    }
  }

  /** Equal lists of quoted items have equal first items and go on alike. */
  lemma JoinQuotedStep(a: seq<string>, b: seq<string>)
    requires a != [] && b != [] && JoinQuoted(a) == JoinQuoted(b)
    ensures a[0] == b[0] && AfterFirst(a) == AfterFirst(b)
  {
    JoinQuotedTail(a);
    JoinQuotedTail(b);
    ConsTail('"', Tail(a[0], AfterFirst(a)));
    ConsTail('"', Tail(b[0], AfterFirst(b)));
    TailPrefixFree(a[0], AfterFirst(a), b[0], AfterFirst(b));
  }

  lemma AfterFirstSame(a: seq<string>, b: seq<string>)
    requires a != [] && b != [] && AfterFirst(a) == AfterFirst(b)
    ensures JoinQuoted(a[1..]) == JoinQuoted(b[1..])
  {
    if |a| > 1 {
      ConsTail(',', JoinQuoted(a[1..]));
    }
    if |b| > 1 {
      ConsTail(',', JoinQuoted(b[1..]));
    }
  }

  lemma {:induction false} JoinQuotedInjective(a: seq<string>, b: seq<string>)
    requires JoinQuoted(a) == JoinQuoted(b)
    ensures a == b
    decreases |a|
  {
    if a != [] && b != [] {
      JoinQuotedStep(a, b);
      AfterFirstSame(a, b);
      JoinQuotedInjective(a[1..], b[1..]);
      HeadTail(a);
      HeadTail(b);
    } else if a != [] {
      JoinQuotedTail(a);
    } else if b != [] {
      JoinQuotedTail(b);
    }
  }

  lemma StringifyInjective(a: seq<string>, b: seq<string>)
    requires Stringify(a) == Stringify(b)
    ensures a == b
  {
    var x, y := JoinQuoted(a), JoinQuoted(b);
    assert x == Stringify(a)[1..|Stringify(a)| - 1] && y == Stringify(b)[1..|Stringify(b)| - 1];
    JoinQuotedInjective(a, b);
  }
}
