/** Unpadded base64url: section 5 of RFC 4648 as `b64.py` reads and writes it. */
module Base64Url {
  import opened Wrappers
  import opened Bytes

  type sextet = n: int | 0 <= n < 64

  predicate InAlphabet(c: char) {
    'A' <= c <= 'Z' || 'a' <= c <= 'z' || '0' <= c <= '9' || c == '-' || c == '_'
  }

  predicate AllInAlphabet(t: string) {
    forall c <- t :: InAlphabet(c)
  }

  function SextetChar(n: sextet): (c: char)
    ensures InAlphabet(c)
  {
    if n < 26 then ('A' as int + n) as char
    else if n < 52 then ('a' as int + n - 26) as char
    else if n < 62 then ('0' as int + n - 52) as char
    else if n == 62 then '-' else '_'
  }

  function CharSextet(c: char): (n: sextet)
    requires InAlphabet(c)
    ensures SextetChar(n) == c
  {
    if 'A' <= c <= 'Z' then c as int - 'A' as int
    else if 'a' <= c <= 'z' then c as int - 'a' as int + 26
    else if '0' <= c <= '9' then c as int - '0' as int + 52
    else if c == '-' then 62 else 63
  }

  lemma SextetRoundTrip(n: sextet)
    ensures CharSextet(SextetChar(n)) == n
  {
  }

  function Sextet0(a: byte): sextet { a / 4 }

  function Sextet1(a: byte, b: byte): sextet { a % 4 * 16 + b / 16 }

  function Sextet2(b: byte, c: byte): sextet { b % 16 * 4 + c / 64 }

  function Sextet3(c: byte): sextet { c % 64 }

  /** Three bytes to four sextets; a shorter last group is filled with zero bits. */
  function Pack(data: bytes): seq<sextet> {
    if |data| == 0 then []
    else if |data| == 1 then [Sextet0(data[0]), Sextet1(data[0], 0)]
    else if |data| == 2 then [Sextet0(data[0]), Sextet1(data[0], data[1]), Sextet2(data[1], 0)]
    else
      [Sextet0(data[0]), Sextet1(data[0], data[1]), Sextet2(data[1], data[2]), Sextet3(data[2])]
      + Pack(data[3..])
  }

  function Byte0(a: sextet, b: sextet): byte { a * 4 + b / 16 }

  function Byte1(b: sextet, c: sextet): byte { b % 16 * 16 + c / 4 }

  function Byte2(c: sextet, d: sextet): byte { c % 4 * 64 + d }

  /** The bits past the last whole byte are dropped, as CPython's decoder drops them. */
  function Unpack(s: seq<sextet>): bytes
    requires |s| % 4 != 1
  {
    if |s| == 0 then []
    else if |s| == 2 then [Byte0(s[0], s[1])]
    else if |s| == 3 then [Byte0(s[0], s[1]), Byte1(s[1], s[2])]
    else
      [Byte0(s[0], s[1]), Byte1(s[1], s[2]), Byte2(s[2], s[3])]
      + Unpack(s[4..])
  }

  function Chars(s: seq<sextet>): (t: string)
    ensures |t| == |s| && AllInAlphabet(t)
  {
    seq(|s|, i requires 0 <= i < |s| => SextetChar(s[i]))
  }

  function Sextets(t: string): (s: seq<sextet>)
    requires AllInAlphabet(t)
    ensures |s| == |t| && Chars(s) == t
  {
    seq(|t|, i requires 0 <= i < |t| => CharSextet(t[i]))
  }

  /** `b64url_encode`. */
  function Encode(data: bytes): string {
    Chars(Pack(data))
  }

  /** `b64url_decode`; `None` is its `ValueError`. */
  function Decode(t: string): Option<bytes> {
    if !AllInAlphabet(t) || |t| % 4 == 1 then None else Some(Unpack(Sextets(t)))
  }

  /** The bits of the last sextet that carry no data are zero. */
  predicate Tidy(s: seq<sextet>) {
    && (|s| % 4 == 2 ==> s[|s| - 1] % 16 == 0)
    && (|s| % 4 == 3 ==> s[|s| - 1] % 4 == 0)
  }

  predicate UnusedBitsZero(t: string)
    requires AllInAlphabet(t)
  {
    Tidy(Sextets(t))
  }

  lemma {:induction false} PackLength(data: bytes)
    ensures |Pack(data)| == (|data| * 4 + 2) / 3
    ensures |Pack(data)| % 4 != 1
  {
    if |data| >= 3 {
      PackLength(data[3..]);
    }
  }

  lemma {:induction false} UnpackLength(s: seq<sextet>)
    requires |s| % 4 != 1
    ensures |Unpack(s)| == 3 * |s| / 4
  {
    if |s| >= 4 {
      UnpackLength(s[4..]);
    }
  }

  lemma BytesOfSextets(a: byte, b: byte, c: byte)
    ensures Byte0(Sextet0(a), Sextet1(a, b)) == a
    ensures Byte1(Sextet1(a, b), Sextet2(b, c)) == b
    ensures Byte2(Sextet2(b, c), Sextet3(c)) == c
  {
  }

  lemma SextetsOfBytes(a: sextet, b: sextet, c: sextet, d: sextet)
    ensures Sextet0(Byte0(a, b)) == a
    ensures Sextet1(Byte0(a, b), Byte1(b, c)) == b
    ensures Sextet2(Byte1(b, c), Byte2(c, d)) == c
    ensures Sextet3(Byte2(c, d)) == d
  {
  }

  lemma SextetsOfLastByte(a: sextet, b: sextet, c: sextet)
    ensures Sextet1(Byte0(a, b), 0) == b <==> b % 16 == 0
    ensures Sextet2(Byte1(b, c), 0) == c <==> c % 4 == 0
  {
    assert Byte0(a, b) % 4 == b / 16;
    LowBits(b % 16, c);
  }

  lemma LowBits(high: nat, c: sextet)
    ensures (high * 16 + c / 4) % 16 == c / 4
  {
  }

  lemma {:induction false} UnpackPack(data: bytes)
    ensures |Pack(data)| % 4 != 1
    ensures Unpack(Pack(data)) == data
  {
    hide Byte0, Byte1, Byte2, Sextet0, Sextet1, Sextet2, Sextet3;
    PackLength(data);
    if |data| == 1 {
      BytesOfSextets(data[0], 0, 0);
    } else if |data| == 2 {
      BytesOfSextets(data[0], data[1], 0);
    } else if |data| >= 3 {
      BytesOfSextets(data[0], data[1], data[2]);
      UnpackPack(data[3..]);
      assert Pack(data)[4..] == Pack(data[3..]);
      GlueTail(data, 3);
      assert data[..3] == [data[0], data[1], data[2]];
    }
  }

  lemma UnpackFour(s: seq<sextet>)
    requires |s| >= 4 && |s| % 4 != 1
    ensures var b := Unpack(s);
            && |b| >= 3 && b[3..] == Unpack(s[4..])
            && b[0] == Byte0(s[0], s[1]) && b[1] == Byte1(s[1], s[2]) && b[2] == Byte2(s[2], s[3])
  {
    hide Byte0, Byte1, Byte2;
    CutTail([Byte0(s[0], s[1]), Byte1(s[1], s[2]), Byte2(s[2], s[3])], Unpack(s[4..]));
  }

  lemma PackThree(b: bytes)
    requires |b| >= 3
    ensures Pack(b) == [Sextet0(b[0]), Sextet1(b[0], b[1]), Sextet2(b[1], b[2]), Sextet3(b[2])] + Pack(b[3..])
  {
  }

  lemma PackUnpackGroup(s: seq<sextet>)
    requires |s| >= 4 && |s| % 4 != 1
    ensures Pack(Unpack(s)) == s[..4] + Pack(Unpack(s[4..]))
  {
    hide Pack, Unpack, Byte0, Byte1, Byte2, Sextet0, Sextet1, Sextet2, Sextet3;
    UnpackFour(s);
    PackThree(Unpack(s));
    SextetsOfBytes(s[0], s[1], s[2], s[3]);
    assert s[..4] == [s[0], s[1], s[2], s[3]];
  }

  lemma TidyTail(s: seq<sextet>)
    requires |s| >= 4
    ensures |s[4..]| % 4 == |s| % 4
    ensures Tidy(s) <==> Tidy(s[4..])
  {
  }

  lemma {:induction false} PackUnpack(s: seq<sextet>)
    requires |s| % 4 != 1
    ensures Pack(Unpack(s)) == s <==> Tidy(s)
  {
    hide Pack, Unpack, Tidy;
    if |s| >= 4 {
      TidyTail(s);
      PackUnpack(s[4..]);
      PackUnpackGroup(s);
      SameHead(s[..4], Pack(Unpack(s[4..])), s[4..]);
      GlueTail(s, 4);
    } else {
      PackUnpackShort(s);
    }
  }

  lemma PackUnpackTwo(a: sextet, b: sextet)
    ensures Pack(Unpack([a, b])) == [a, Sextet1(Byte0(a, b), 0)]
  {
    SextetsOfBytes(a, b, 0, 0);
    hide Byte0, Sextet0, Sextet1;
  }

  lemma PackUnpackThree(a: sextet, b: sextet, c: sextet)
    ensures Pack(Unpack([a, b, c])) == [a, b, Sextet2(Byte1(b, c), 0)]
  {
    SextetsOfBytes(a, b, c, 0);
    hide Byte0, Byte1, Sextet0, Sextet1, Sextet2;
  }

  lemma PackUnpackEmpty()
    ensures Pack(Unpack([])) == []
  {
  }

  lemma PackUnpackShort(s: seq<sextet>)
    requires |s| < 4 && |s| != 1
    ensures Pack(Unpack(s)) == s <==> Tidy(s)
  {
    hide Pack, Unpack, Byte0, Byte1, Sextet1, Sextet2;
    if |s| == 2 {
      var t := [s[0], s[1]];
      assert s == t;
      PackUnpackTwo(s[0], s[1]);
      SextetsOfLastByte(s[0], s[1], 0);
    } else if |s| == 3 {
      var t := [s[0], s[1], s[2]];
      assert s == t;
      PackUnpackThree(s[0], s[1], s[2]);
      SextetsOfLastByte(s[0], s[1], s[2]);
    } else {
      assert s == [];
      PackUnpackEmpty();
    }
  }

  // ----- what the encoding promises -----

  lemma SextetsChars(s: seq<sextet>)
    ensures Sextets(Chars(s)) == s
  {
    forall i | 0 <= i < |s| ensures Sextets(Chars(s))[i] == s[i] {
      SextetRoundTrip(s[i]);
    }
  }

  /** Decoding what was encoded gives the bytes back, for every byte string. */
  lemma DecodeEncode(data: bytes)
    ensures Decode(Encode(data)) == Some(data)
  {
    UnpackPack(data);
    SextetsChars(Pack(data));
    hide Pack, Unpack, Sextets, Chars;
  }

  /**
   * Which texts decode, to how many bytes, and exactly when the text is the one
   * the encoder would have written: its unused trailing bits are zero.
   */
  lemma DecodeDomain(t: string)
    ensures Decode(t).Some? <==> AllInAlphabet(t) && |t| % 4 != 1
    ensures Decode(t).Some? ==> |Decode(t).value| == 3 * |t| / 4
    ensures Decode(t).Some? ==> (Encode(Decode(t).value) == t <==> UnusedBitsZero(t))
  {
    hide Pack, Unpack, Sextets, Chars, Tidy;
    if Decode(t).Some? {
      var s := Sextets(t);
      UnpackLength(s);
      PackUnpack(s);
      SextetsChars(Pack(Unpack(s)));
      SextetsChars(s);
    }
  }

  lemma EncodeShape(data: bytes)
    ensures AllInAlphabet(Encode(data)) && |Encode(data)| == (|data| * 4 + 2) / 3
    ensures UnusedBitsZero(Encode(data))
  {
    PackLength(data);
    DecodeEncode(data);
    DecodeDomain(Encode(data));
  }

  lemma EncodeInjective(a: bytes, b: bytes)
    requires Encode(a) == Encode(b)
    ensures a == b
  {
    DecodeEncode(a);
    DecodeEncode(b);
  }
}
