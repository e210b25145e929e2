/** Strict UTF-8, as `str.encode("utf-8")` and `bytes.decode("utf-8")` do it on text without surrogates. */
module Utf8 {
  import opened Wrappers
  import opened Bytes

  function EncodeChar(c: char): (b: bytes)
    ensures 1 <= |b| <= 4
  {
    var n := c as int;
    if n < 0x80 then [n]
    else if n < 0x800 then [0xC0 + n / 64, 0x80 + n % 64]
    else if n < 0x10000 then [0xE0 + n / 4096, 0x80 + n / 64 % 64, 0x80 + n % 64]
    else [0xF0 + n / 262144, 0x80 + n / 4096 % 64, 0x80 + n / 64 % 64, 0x80 + n % 64]
  }

  function Encode(s: string): bytes {
    if s == [] then [] else EncodeChar(s[0]) + Encode(s[1..])
  }

  predicate IsContinuation(b: byte) { 0x80 <= b < 0xC0 }

  predicate IsScalar(n: int) { 0 <= n < 0xD800 || 0xE000 <= n < 0x110000 }

  /** The code of a multi-byte form: the payload bits of its bytes, six at a time. */
  function Code(high: int, b: byte): int { high * 64 + (b - 0x80) }

  function Payload(lead: int, base: int): int { lead - base }

  function CodeOf2(b: bytes): int requires |b| >= 2 { Code(Payload(b[0], 0xC0), b[1]) }

  function CodeOf3(b: bytes): int requires |b| >= 3 { Code(Code(Payload(b[0], 0xE0), b[1]), b[2]) }

  function CodeOf4(b: bytes): int requires |b| >= 4 { Code(Code(Code(Payload(b[0], 0xF0), b[1]), b[2]), b[3]) }

  /** The first character of `b` and how many bytes it takes: no overlong form, no surrogate. */
  function DecodeChar(b: bytes): (r: Option<(char, nat)>)
    ensures r.Some? ==> 1 <= r.value.1 <= |b|
  {
    if b == [] then None
    else if b[0] < 0x80 then Some((b[0] as char, 1))
    else if 0xC2 <= b[0] < 0xE0 && |b| >= 2 && IsContinuation(b[1]) then
      Some((CodeOf2(b) as char, 2))
    else if 0xE0 <= b[0] < 0xF0 && |b| >= 3 && IsContinuation(b[1]) && IsContinuation(b[2]) then
      if CodeOf3(b) >= 0x800 && IsScalar(CodeOf3(b)) then Some((CodeOf3(b) as char, 3)) else None
    else if 0xF0 <= b[0] < 0xF5 && |b| >= 4
            && IsContinuation(b[1]) && IsContinuation(b[2]) && IsContinuation(b[3]) then
      if CodeOf4(b) >= 0x10000 && IsScalar(CodeOf4(b)) then Some((CodeOf4(b) as char, 4)) else None
    else None
  }

  function Decode(b: bytes): Option<string> {
    if b == [] then Some("")
    else
      var (c, n) :- DecodeChar(b);
      var rest :- Decode(b[n..]);
      Some([c] + rest)
  }

  lemma Six(high: int, b: byte)
    requires IsContinuation(b)
    ensures Code(high, b) / 64 == high && Code(high, b) % 64 == b - 0x80
  {
  }

  lemma Sixes(n: nat)
    ensures Code(n / 64, 0x80 + n % 64) == n
    ensures Code(n / 4096, 0x80 + n / 64 % 64) == n / 64
    ensures Code(n / 262144, 0x80 + n / 4096 % 64) == n / 4096
  {
    assert n / 64 / 64 == n / 4096 && n / 4096 / 64 == n / 262144;
  }

  lemma DecodeEncodeChar(c: char, rest: bytes)
    ensures DecodeChar(EncodeChar(c) + rest) == Some((c, |EncodeChar(c)|))
  {
    var n := c as int;
    var b := EncodeChar(c) + rest;
    Sixes(n);
    if 0x80 <= n < 0x800 {
      assert CodeOf2(b) == n;
    } else if 0x800 <= n < 0x10000 {
      assert CodeOf3(b) == n;
    } else if 0x10000 <= n {
      assert CodeOf4(b) == n;
    }
  }

  lemma ThreeBytes(high: int, b: byte, c: byte)
    requires IsContinuation(b) && IsContinuation(c)
    ensures var n := Code(Code(high, b), c);
            n / 4096 == high && n / 64 % 64 == b - 0x80 && n % 64 == c - 0x80
  {
    Six(high, b);
    Six(Code(high, b), c);
    var n := Code(Code(high, b), c);
    assert n / 4096 == n / 64 / 64;
  }

  lemma FourBytes(high: int, b: byte, c: byte, d: byte)
    requires IsContinuation(b) && IsContinuation(c) && IsContinuation(d)
    ensures var n := Code(Code(Code(high, b), c), d);
            && n / 262144 == high && n / 4096 % 64 == b - 0x80 && n / 64 % 64 == c - 0x80 && n % 64 == d - 0x80
  {
    ThreeBytes(high, b, c);
    Six(Code(Code(high, b), c), d);
    hide Code;
    var m, n := Code(Code(high, b), c), Code(Code(Code(high, b), c), d);
    assert n / 64 == m;
    assert n / 4096 == m / 64 && n / 262144 == m / 4096;
  }

  lemma EncodeDecodeChar(b: bytes)
    requires DecodeChar(b).Some?
    ensures EncodeChar(DecodeChar(b).value.0) == b[..DecodeChar(b).value.1]
  {
    var (c, n) := DecodeChar(b).value;
    if n == 2 {
      Six(Payload(b[0], 0xC0), b[1]);
      hide Code;
      assert c as int == CodeOf2(b);
    } else if n == 3 {
      ThreeBytes(Payload(b[0], 0xE0), b[1], b[2]);
      hide Code;
      assert c as int == CodeOf3(b);
    } else if n == 4 {
      FourBytes(Payload(b[0], 0xF0), b[1], b[2], b[3]);
      hide Code;
      assert c as int == CodeOf4(b);
    }
  }

  lemma {:induction false} DecodeEncode(s: string)
    ensures Decode(Encode(s)) == Some(s)
  {
    if s != [] {
      hide DecodeChar, EncodeChar;
      var rest := Encode(s[1..]);
      DecodeEncodeChar(s[0], rest);
      DecodeEncode(s[1..]);
      CutTail(EncodeChar(s[0]), rest);
      assert s == [s[0]] + s[1..];
    }
  }

  /** Only encodings decode: the two functions are inverse on their domains. */
  lemma {:induction false} EncodeDecode(b: bytes)
    requires Decode(b).Some?
    ensures Encode(Decode(b).value) == b
  {
    if b != [] {
      hide DecodeChar, EncodeChar;
      var (c, n) := DecodeChar(b).value;
      var rest := Decode(b[n..]).value;
      EncodeDecode(b[n..]);
      EncodeDecodeChar(b);
      CutTail([c], rest);
      GlueTail(b, n);
    }
  }

  lemma EncodeInjective(a: string, b: string)
    requires Encode(a) == Encode(b)
    ensures a == b
  {
    DecodeEncode(a);
    DecodeEncode(b);
  }

  predicate IsAscii(s: string) {
    forall c <- s :: c as int < 128
  }

  /** ASCII text is its own encoding; any other text takes more bytes than it has characters. */
  lemma {:induction false} EncodeAscii(s: string)
    ensures |Encode(s)| >= |s|
    ensures IsAscii(s) ==> |Encode(s)| == |s| && forall i | 0 <= i < |s| :: Encode(s)[i] == s[i] as int
    ensures !IsAscii(s) ==> |Encode(s)| > |s|
  {
    if s != [] {
      EncodeAscii(s[1..]);
      assert s == [s[0]] + s[1..];
      assert forall c :: c in s <==> c == s[0] || c in s[1..];
      assert s[0] in s;
      assert IsAscii(s) <==> s[0] as int < 128 && IsAscii(s[1..]);
    }
  }

  lemma {:induction false} EncodeNul(s: string)
    ensures 0 in Encode(s) <==> 0 as char in s
  {
    if s != [] {
      EncodeNul(s[1..]);
      assert s == [s[0]] + s[1..];
    }
  }
}
