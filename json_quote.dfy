/**
 * `JSON.stringify` applied to a string: the QuoteJSONString operation of
 * ECMA-262, which wraps the text in double quotes and escapes the quote,
 * the backslash and every control character below U+0020. Its partner is
 * a reader for JSON string literals, so that the label written into a DOT
 * line can be recovered exactly.
 */
module JsonQuote {
  import opened Options

  predicate IsControl(c: char) {
    (c as int) < 0x20
  }

  /** No character of `s` is a control character (so in particular no line break). */
  predicate Printable(s: string) {
    forall i :: 0 <= i < |s| ==> !IsControl(s[i])
  }

  function HexDigit(d: nat): (c: char)
    requires d < 16
    ensures !IsControl(c)
  {
    "0123456789abcdef"[d]
  }

  function HexValue(c: char): (r: Option<nat>)
    ensures r.Some? ==> r.value < 16
  {
    if '0' <= c <= '9' then Some((c as int) - ('0' as int))
    else if 'a' <= c <= 'f' then Some((c as int) - ('a' as int) + 10)
    else if 'A' <= c <= 'F' then Some((c as int) - ('A' as int) + 10)
    else None
  }

  /** The code unit written by a `\uXXXX` escape, if all four characters are hex digits. */
  function HexQuad(q: string): (r: Option<nat>)
    requires |q| == 4
    ensures r.Some? ==> r.value < 0x10000
  {
    match (HexValue(q[0]), HexValue(q[1]), HexValue(q[2]), HexValue(q[3]))
    case (Some(a), Some(b), Some(c), Some(d)) => Some(((a * 16 + b) * 16 + c) * 16 + d)
    case _ => None
  }

  /** The escaped form of one character: a two-character escape from the fixed table,
    * a six-character `\u00XX` escape for the other control characters, otherwise itself. */
  function EscapeChar(c: char): (e: string)
    ensures 1 <= |e| <= 6
    ensures Printable(e)
    ensures e[0] == '\\' || (e == [c] && c != '"')
  {
    var code := c as int;
    if c == '"' then ['\\', '"']
    else if c == '\\' then ['\\', '\\']
    else if code == 0x08 then ['\\', 'b']
    else if code == 0x09 then ['\\', 't']
    else if code == 0x0A then ['\\', 'n']
    else if code == 0x0C then ['\\', 'f']
    else if code == 0x0D then ['\\', 'r']
    else if code < 0x20 then ['\\', 'u', '0', '0', HexDigit(code / 16), HexDigit(code % 16)]
    else [c]
  }

  function Escape(s: string): (e: string)
    ensures Printable(e)
    ensures |e| >= |s|
  {
    if s == [] then [] else EscapeChar(s[0]) + Escape(s[1..])
  }

  /** `JSON.stringify(s)` for a string `s`. */
  function Quote(s: string): (q: string)
    ensures |q| >= 2 && q[0] == '"' && q[|q| - 1] == '"'
    ensures Printable(q)
  {
    "\"" + Escape(s) + "\""
  }

  /** The character a short escape `\x` stands for, if `x` names one. */
  function ShortEscape(x: char): (r: Option<char>)
  {
    if x == '"' then Some('"')
    else if x == '\\' then Some('\\')
    else if x == '/' then Some('/')
    else if x == 'b' then Some(8 as char)
    else if x == 't' then Some('\t')
    else if x == 'n' then Some('\n')
    else if x == 'f' then Some(12 as char)
    else if x == 'r' then Some('\r')
    else None
  }

  function Prepend(c: char, rest: Option<string>): (r: Option<string>)
    ensures r.Some? <==> rest.Some?
  {
    if rest.Some? then Some([c] + rest.value) else None
  }

  predicate IsScalar(code: int) {
    0 <= code < 0xD800 || 0xE000 <= code < 0x11_0000
  }

  /** Decodes the body of a JSON string literal (the text between its quotes). An
    * unescaped quote or control character, or a malformed escape, is refused. */
  function Unescape(t: string): (r: Option<string>)
    decreases |t|
  {
    if t == [] then Some([])
    else if t[0] == '\\' then
      if |t| < 2 then None
      else if t[1] == 'u' then
        if |t| < 6 then None
        else match HexQuad(t[2..6])
          case Some(code) =>
            if IsScalar(code) then Prepend(code as char, Unescape(t[6..])) else None
          case None => None
      else match ShortEscape(t[1])
        case Some(c) => Prepend(c, Unescape(t[2..]))
        case None => None
    else if t[0] == '"' || IsControl(t[0]) then None
    else Prepend(t[0], Unescape(t[1..]))
  }

  /** Reads a JSON string literal: a quote, an escaped body, a quote. */
  function Unquote(q: string): (r: Option<string>)
  {
    if |q| >= 2 && q[0] == '"' && q[|q| - 1] == '"' then Unescape(q[1..|q| - 1]) else None
  }

  /** A `\u00XX` escape of a control character decodes back to that character. */
  lemma UnescapeControl(c: char, t: string)
    requires IsControl(c)
    ensures var code := c as int;
      Unescape(['\\', 'u', '0', '0', HexDigit(code / 16), HexDigit(code % 16)] + t) == Prepend(c, Unescape(t))
  {
    var code := c as int;
    var e := ['\\', 'u', '0', '0', HexDigit(code / 16), HexDigit(code % 16)];
    var u := e + t;
    assert u[2..6] == e[2..6];
    assert HexValue(HexDigit(code / 16)) == Some(code / 16);
    assert HexValue(HexDigit(code % 16)) == Some(code % 16);
    assert HexQuad(u[2..6]) == Some(code);
    assert (code as char) == c;
    assert u[6..] == t;
  }

  /** Decoding the escape of `c` followed by any text reads back `c` and then that text. */
  lemma UnescapeChar(c: char, t: string)
    ensures Unescape(EscapeChar(c) + t) == Prepend(c, Unescape(t))
  {
    var e := EscapeChar(c);
    if |e| == 6 {
      UnescapeControl(c, t);
    } else if |e| == 2 {
      assert (e + t)[2..] == t;
    } else {
      assert (e + t)[1..] == t;
    }
  }

  /** Decoding the escaped text gives back the original text. */
  lemma {:induction false} UnescapeEscape(s: string)
    ensures Unescape(Escape(s)) == Some(s)
  {
    if s != [] {
      UnescapeEscape(s[1..]);
      UnescapeChar(s[0], Escape(s[1..]));
      assert [s[0]] + s[1..] == s;
    }
  }

  /** `Unquote(Quote(s)) == Some(s)` for every string `s`: quoting loses nothing. */
  lemma UnquoteQuote(s: string)
    ensures Unquote(Quote(s)) == Some(s)
  {
    var q := Quote(s);
    assert q[1..|q| - 1] == Escape(s);
    UnescapeEscape(s);
  }

  /** Distinct labels are written as distinct quoted strings. */
  lemma QuoteInjective(s: string, t: string)
    requires s != t
    ensures Quote(s) != Quote(t)
  {
    UnquoteQuote(s);
    UnquoteQuote(t);
  }
}
