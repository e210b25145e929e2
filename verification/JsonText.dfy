/** JSON string literals: the escapes `jcs.py` and `json.dumps` write, and their reader. */
module JsonText {
  import opened Wrappers

  function HexDigit(d: nat): char
    requires d < 16
  {
    if d < 10 then ('0' as int + d) as char else ('a' as int + d - 10) as char
  }

  function HexValue(c: char): Option<nat> {
    if '0' <= c <= '9' then Some(c as int - '0' as int)
    else if 'a' <= c <= 'f' then Some(c as int - 'a' as int + 10)
    else if 'A' <= c <= 'F' then Some(c as int - 'A' as int + 10)
    else None
  }

  function Hex4(n: nat): (s: string)
    requires n < 0x10000
    ensures |s| == 4
  {
    [HexDigit(n / 4096), HexDigit(n / 256 % 16), HexDigit(n / 16 % 16), HexDigit(n % 16)]
  }

  /** `\uXXXX`. */
  function UnicodeEscape(n: nat): (s: string)
    requires n < 0x10000
    ensures |s| == 6
  {
    "\\u" + Hex4(n)
  }

  function NamedEscape(c: char): Option<string> {
    match c as int
    case 0x08 => Some("\\b")
    case 0x09 => Some("\\t")
    case 0x0A => Some("\\n")
    case 0x0C => Some("\\f")
    case 0x0D => Some("\\r")
    case 0x22 => Some("\\\"")
    case 0x5C => Some("\\\\")
    case _ => None
  }

  /** One character as `_format_string` writes it. */
  function EscapeChar(c: char): (r: string)
    ensures r != ""
  {
    var named := NamedEscape(c);
    if named.Some? then named.value
    else if c as int < 0x20 then UnicodeEscape(c as int)
    else [c]
  }

  /** One character as `json.dumps` writes it with `ensure_ascii`. */
  function EscapeCharAscii(c: char): (r: string)
    ensures r != ""
  {
    var named := NamedEscape(c);
    var n := c as int;
    if named.Some? then named.value
    else if 0x20 <= n < 0x7F then [c]
    else if n < 0x10000 then UnicodeEscape(n)
    else UnicodeEscape(0xD800 + (n - 0x10000) / 1024) + UnicodeEscape(0xDC00 + (n - 0x10000) % 1024)
  }

  function Escape(s: string): string {
    if s == "" then "" else EscapeChar(s[0]) + Escape(s[1..])
  }

  function EscapeAscii(s: string): string {
    if s == "" then "" else EscapeCharAscii(s[0]) + EscapeAscii(s[1..])
  }

  /** `_format_string`. */
  function FormatString(s: string): string {
    "\"" + Escape(s) + "\""
  }

  /** The loop of `_format_string`: one piece appended per character. */
  method FormatStringLoop(value: string) returns (text: string)
    ensures text == FormatString(value)
  {
    text := "\"";
    for i := 0 to |value|
      invariant text + Escape(value[i..]) == "\"" + Escape(value)
    {
      assert value[i..][1..] == value[i + 1..];
      assert text + Escape(value[i..]) == (text + EscapeChar(value[i])) + Escape(value[i + 1..]);
      text := text + EscapeChar(value[i]);
    }
    assert text + Escape("") == text;
    text := text + "\"";
  }

  // ----- reading -----

  function ReadHex4(t: string): Option<nat> {
    if |t| < 4 then None
    else
      var a :- HexValue(t[0]);
      var b :- HexValue(t[1]);
      var c :- HexValue(t[2]);
      var d :- HexValue(t[3]);
      Some(a * 4096 + b * 256 + c * 16 + d)
  }

  /** A `\uXXXX` escape after its `\u`; a high surrogate needs its low half, and none may stand alone. */
  function ReadUnicode(t: string): (r: Option<(char, string)>)
    ensures r.Some? ==> |r.value.1| < |t|
  {
    var n :- ReadHex4(t);
    if n < 0xD800 || 0xE000 <= n < 0x10000 then Some((n as char, t[4..]))
    else if 0xD800 <= n < 0xDC00 && |t| >= 6 && t[4] == '\\' && t[5] == 'u' then
      var m :- ReadHex4(t[6..]);
      if 0xDC00 <= m < 0xE000 then
        Some(((0x10000 + (n - 0xD800) * 1024 + (m - 0xDC00)) as char, t[10..]))
      else None
    else None
  }

  /** One character of a string literal, escaped or plain. Control characters must be escaped. */
  function ReadChar(t: string): (r: Option<(char, string)>)
    ensures r.Some? ==> |r.value.1| < |t|
  {
    if t == "" || t[0] == '"' || (t[0] as int) < 0x20 then None
    else if t[0] != '\\' then Some((t[0], t[1..]))
    else if |t| < 2 then None
    else if t[1] == '"' || t[1] == '\\' || t[1] == '/' then Some((t[1], t[2..]))
    else if t[1] == 'b' then Some((0x08 as char, t[2..]))
    else if t[1] == 'f' then Some((0x0C as char, t[2..]))
    else if t[1] == 'n' then Some((0x0A as char, t[2..]))
    else if t[1] == 'r' then Some((0x0D as char, t[2..]))
    else if t[1] == 't' then Some((0x09 as char, t[2..]))
    else if t[1] == 'u' then ReadUnicode(t[2..])
    else None
  }

  /** The characters up to the closing quote, and what follows it. */
  function ReadString(t: string): (r: Option<(string, string)>)
    ensures r.Some? ==> |r.value.1| < |t|
  {
    if t != "" && t[0] == '"' then Some(("", t[1..]))
    else
      var (c, t1) :- ReadChar(t);
      var (s, t2) :- ReadString(t1);
      Some(([c] + s, t2))
  }

  lemma HexRoundTrip(d: nat)
    requires d < 16
    ensures HexValue(HexDigit(d)) == Some(d)
  {
  }

  lemma ReadHexText(n: nat, rest: string)
    requires n < 0x10000
    ensures ReadHex4(Hex4(n) + rest) == Some(n)
  {
    HexRoundTrip(n / 4096);
    HexRoundTrip(n / 256 % 16);
    HexRoundTrip(n / 16 % 16);
    HexRoundTrip(n % 16);
    assert n / 16 / 16 == n / 256 && n / 256 / 16 == n / 4096;
  }

  lemma ReadUnicodeText(n: nat, rest: string)
    requires n < 0xD800 || 0xE000 <= n < 0x10000
    ensures ReadChar(UnicodeEscape(n) + rest) == Some((n as char, rest))
  {
    var t := UnicodeEscape(n) + rest;
    assert t[2..] == Hex4(n) + rest;
    ReadHexText(n, rest);
    assert (Hex4(n) + rest)[4..] == rest;
  }

  lemma ReadPair(hi: nat, lo: nat, rest: string)
    requires 0xD800 <= hi < 0xDC00 <= lo < 0xE000
    ensures ReadChar(UnicodeEscape(hi) + UnicodeEscape(lo) + rest)
         == Some(((0x10000 + (hi - 0xD800) * 1024 + (lo - 0xDC00)) as char, rest))
  {
    hide Hex4, ReadHex4;
    var t := UnicodeEscape(hi) + UnicodeEscape(lo) + rest;
    var tail := UnicodeEscape(lo) + rest;
    assert t[2..] == Hex4(hi) + tail;
    ReadHexText(hi, tail);
    assert t[2..][6..] == Hex4(lo) + rest;
    ReadHexText(lo, rest);
    assert t[2..][10..] == rest;
    assert t[2..][4] == tail[0] && t[2..][5] == tail[1];
  }

  lemma ReadNamed(c: char, rest: string)
    requires NamedEscape(c).Some?
    ensures ReadChar(NamedEscape(c).value + rest) == Some((c, rest))
  {
    var t := NamedEscape(c).value + rest;
    assert t[2..] == rest;
  }

  lemma ReadPlain(c: char, rest: string)
    requires NamedEscape(c).None? && c as int >= 0x20
    ensures ReadChar([c] + rest) == Some((c, rest))
  {
    assert ([c] + rest)[1..] == rest;
  }

  lemma ReadEscapedChar(c: char, rest: string)
    ensures ReadChar(EscapeChar(c) + rest) == Some((c, rest))
    ensures ReadChar(EscapeCharAscii(c) + rest) == Some((c, rest))
  {
    hide ReadChar, UnicodeEscape, NamedEscape;
    var n := c as int;
    if NamedEscape(c).Some? {
      ReadNamed(c, rest);
    } else {
      if n >= 0x20 {
        ReadPlain(c, rest);
      }
      if n < 0x10000 {
        ReadUnicodeText(n, rest);
      } else {
        ReadPair(0xD800 + (n - 0x10000) / 1024, 0xDC00 + (n - 0x10000) % 1024, rest);
      }
    }
  }

  lemma EscapeStart(c: char)
    ensures EscapeChar(c)[0] != '"' && EscapeCharAscii(c)[0] != '"'
  {
  }

  /** Reading a formatted string gives the string back, whichever escapes were used. */
  lemma {:induction false} ReadFormatted(s: string, rest: string)
    ensures ReadString(Escape(s) + "\"" + rest) == Some((s, rest))
    ensures ReadString(EscapeAscii(s) + "\"" + rest) == Some((s, rest))
  {
    if s == "" {
      assert "" + "\"" + rest == "\"" + rest;
      assert ("\"" + rest)[1..] == rest;
    } else {
      ReadFormatted(s[1..], rest);
      EscapeStart(s[0]);
      hide ReadChar, EscapeChar, EscapeCharAscii;
      ReadEscapedChar(s[0], Escape(s[1..]) + "\"" + rest);
      ReadEscapedChar(s[0], EscapeAscii(s[1..]) + "\"" + rest);
      EscapedHead(EscapeChar(s[0]), Escape(s[1..]), rest);
      EscapedHead(EscapeCharAscii(s[0]), EscapeAscii(s[1..]), rest);
      assert s == [s[0]] + s[1..];
    }
  }

  lemma EscapedHead(head: string, tail: string, rest: string)
    requires head != ""
    ensures head + tail + "\"" + rest == head + (tail + "\"" + rest)
    ensures (head + tail + "\"" + rest)[0] == head[0]
  {
  }

  // ----- the canonical text among all texts of a string -----

  /** No text of a character is shorter than its escape. */
  lemma ShortestEscape(c: char, t: string)
    requires ReadChar(t).Some? && ReadChar(t).value.0 == c
    ensures |EscapeChar(c)| <= |t| - |ReadChar(t).value.1|
  {
    hide HexValue, Hex4;
  }

  /** The canonical literal of a string is the shortest text that reads as it. */
  lemma {:induction false} ShortestText(s: string, t: string)
    requires ReadString(t).Some? && ReadString(t).value.0 == s
    ensures |Escape(s)| + 1 <= |t| - |ReadString(t).value.1|
    decreases |t|
  {
    hide ReadChar, EscapeChar;
    if t[0] != '"' {
      var (c, t1) := ReadChar(t).value;
      ShortestEscape(c, t);
      assert s[0] == c && s[1..] == ReadString(t1).value.0;
      ShortestText(s[1..], t1);
    }
  }

  /** The hexadecimal digits it writes are lower-case. */
  lemma LowerHex(c: char)
    requires |EscapeChar(c)| == 6
    ensures EscapeChar(c)[..2] == "\\u"
    ensures forall i | 2 <= i < 6 :: '0' <= EscapeChar(c)[i] <= '9' || 'a' <= EscapeChar(c)[i] <= 'f'
  {
  }

  /** The ASCII-only escaping writes printable ASCII alone, and leaves that as it is but for quote and backslash. */
  lemma {:induction false} AsciiOnly(s: string)
    ensures forall c <- EscapeAscii(s) :: 0x20 <= c as int < 0x7F
    ensures (forall c <- s :: 0x20 <= c as int < 0x7F && c != '"' && c != '\\') ==> EscapeAscii(s) == s
  {
    hide EscapeCharAscii;
    if s != "" {
      AsciiChar(s[0]);
      AsciiOnly(s[1..]);
      assert s[0] in s && forall c <- s[1..] :: c in s;
    }
  }

  lemma AsciiChar(c: char)
    ensures forall d <- EscapeCharAscii(c) :: 0x20 <= d as int < 0x7F
    ensures 0x20 <= c as int < 0x7F && c != '"' && c != '\\' ==> EscapeCharAscii(c) == [c]
  {
  }

  /** What a hexadecimal digit stands for: its place in either row of digits. */
  lemma HexValueMeaning(c: char, d: nat)
    ensures HexValue(c) == Some(d) <==> d < 16 && (c == "0123456789abcdef"[d] || c == "0123456789ABCDEF"[d])
  {
    var lower, upper := "0123456789abcdef", "0123456789ABCDEF";
    assert forall i | 0 <= i < 10 :: lower[i] as int == '0' as int + i && upper[i] == lower[i];
    assert forall i | 10 <= i < 16 :: lower[i] as int == 'a' as int + i - 10 && upper[i] as int == 'A' as int + i - 10;
    if d < 16 {
      assert if d < 10 then lower[d] as int == '0' as int + d else lower[d] as int == 'a' as int + d - 10;
    }
  }
}
