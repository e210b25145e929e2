/**
 * `loads`: a strict JSON reader (valid UTF-8, no duplicate member, no NaN or Infinity, nothing
 * after the value), and its round trip with the canonical form.
 */
module JsonReader {
  import opened Wrappers
  import opened Bytes
  import opened KeyOrder
  import opened Number
  import opened NumberReader
  import opened JsonText
  import opened Jcs
  import Decimal
  import Utf8

  predicate IsSpace(c: char) { c == ' ' || c == '\t' || c == '\n' || c == '\r' }

  function SkipSpace(t: string): (r: string)
    ensures |r| <= |t|
    ensures r != "" ==> !IsSpace(r[0])
  {
    if t != "" && IsSpace(t[0]) then SkipSpace(t[1..]) else t
  }

  /** The value at the start of `t` and what follows it. */
  function ReadValue(t: string): (r: Option<(Json, string)>)
    ensures r.Some? ==> |r.value.1| < |t|
    decreases |t|, 0
  {
    if t == "" then None
    else if t[0] == '"' then
      var (s, rest) :- ReadString(t[1..]);
      Some((Str(s), rest))
    else if t[0] == '[' then
      var t1 := SkipSpace(t[1..]);
      if t1 != "" && t1[0] == ']' then Some((Arr([]), t1[1..]))
      else
        var (items, rest) :- ReadItems(t1);
        Some((Arr(items), rest))
    else if t[0] == '{' then
      var t1 := SkipSpace(t[1..]);
      if t1 != "" && t1[0] == '}' then Some((Obj(map[]), t1[1..]))
      else
        var (members, rest) :- ReadMembers(t1, map[]);
        Some((Obj(members), rest))
    else if "null" <= t then Some((Null, t[4..]))
    else if "true" <= t then Some((Bool(true), t[4..]))
    else if "false" <= t then Some((Bool(false), t[5..]))
    else
      var (n, rest) :- ReadNumber(t);
      Some((Num(n), rest))
  }

  /** Array items up to and including the closing bracket. */
  function ReadItems(t: string): (r: Option<(seq<Json>, string)>)
    ensures r.Some? ==> |r.value.1| < |t|
    decreases |t|, 1
  {
    var (item, t1) :- ReadValue(t);
    var t2 := SkipSpace(t1);
    if t2 == "" then None
    else if t2[0] == ']' then Some(([item], t2[1..]))
    else if t2[0] == ',' then
      var (items, rest) :- ReadItems(SkipSpace(t2[1..]));
      Some(([item] + items, rest))
    else None
  }

  /** Object members up to and including the closing brace, added to `seen`; a repeated name fails. */
  function ReadMembers(t: string, seen: map<string, Json>): (r: Option<(map<string, Json>, string)>)
    ensures r.Some? ==> |r.value.1| < |t|
    decreases |t|, 1
  {
    if t == "" || t[0] != '"' then None
    else
      var (key, t1) :- ReadString(t[1..]);
      var t2 := SkipSpace(t1);
      if t2 == "" || t2[0] != ':' || key in seen then None
      else
        var (value, t3) :- ReadValue(SkipSpace(t2[1..]));
        var t4 := SkipSpace(t3);
        if t4 == "" then None
        else if t4[0] == '}' then Some((seen[key := value], t4[1..]))
        else if t4[0] == ',' then ReadMembers(SkipSpace(t4[1..]), seen[key := value])
        else None
  }

  /** `loads` of a `str`. */
  function Loads(t: string): Option<Json> {
    var (j, rest) :- ReadValue(SkipSpace(t));
    if SkipSpace(rest) == "" then Some(j) else None
  }

  /** `loads` of `bytes`. */
  function LoadsBytes(b: bytes): Option<Json> {
    var t :- Utf8.Decode(b);
    Loads(t)
  }

  // ----- reading canonical text -----

  lemma NoSpace(t: string)
    requires t == "" || !IsSpace(t[0])
    ensures SkipSpace(t) == t
  {
  }

  lemma CanonStart(j: Json)
    ensures Canon(j) != "" && !IsSpace(Canon(j)[0]) && Canon(j)[0] != ']' && Canon(j)[0] != '}'
    ensures j.Num? ==> Canon(j)[0] == '-' || '0' <= Canon(j)[0] <= '9'
  {
    hide CanonItems, CanonMembers, SortedKeys, FormatDigits, Escape;
    if j.Num? && j.n.Scaled? {
      DigitsStart(j.n.digits, j.n.point);
    }
  }

  lemma DigitsStart(digits: string, n: int)
    requires Decimal.Normal(digits)
    ensures FormatDigits(digits, n) != "" && '0' <= FormatDigits(digits, n)[0] <= '9'
  {
    hide FormatDigits, BandLiteral;
    BandsExact(digits, n);
    var l := BandLiteral(digits, n);
    assert l.whole[0] in l.whole;
  }

  /** Reading back a canonical text gives the value it was made from. */
  lemma {:induction false} ReadCanon(j: Json, rest: string)
    requires Terminated(rest)
    ensures ReadValue(Canon(j) + rest) == Some((j, rest))
    decreases j, 2
  {
    hide ReadItems, ReadMembers, ReadNumber, ReadString, Format, Escape, SortedKeys;
    var t := Canon(j) + rest;
    match j
    case Null =>
      assert t[4..] == rest;
    case Bool(b) =>
      assert t[if b then 4 else 5..] == rest;
    case Num(n) =>
      CanonStart(j);
      ReadFormat(n, rest);
    case Str(s) =>
      assert t[1..] == Escape(s) + "\"" + rest;
      ReadFormatted(s, rest);
    case Arr(_) => ReadCanonArray(j, rest);
    case Obj(_) => ReadCanonObject(j, rest);
  }

  lemma ReadCanonArray(j: Json, rest: string)
    requires j.Arr?
    ensures ReadValue(Canon(j) + rest) == Some((j, rest))
    decreases j, 1
  {
    hide ReadItems, ReadMembers, ReadNumber, ReadString;
    var body := CanonItems(j.items, true) + "]" + rest;
    Assoc4("[", CanonItems(j.items, true), "]", rest);
    assert (Canon(j) + rest)[1..] == body;
    if j.items == [] {
      assert body == "]" + rest;
    } else {
      Assoc(CanonItems(j.items, true), "]", rest);
      ItemsStart(j.items, "]" + rest);
      ReadCanonItems(j.items, rest);
    }
  }

  lemma ReadObject(body: string)
    requires body != "" && body[0] == '"'
    ensures ReadValue("{" + body)
         == match ReadMembers(body, map[]) case None => None case Some((ms, rest)) => Some((Obj(ms), rest))
  {
    hide ReadMembers, ReadItems, ReadNumber, ReadString;
    assert ("{" + body)[1..] == body;
    NoSpace(body);
  }

  lemma EmptyMembers(j: Json)
    requires j.Obj?
    ensures CanonMembers(j, [], true) == ""
  {
  }

  lemma ReadEmptyObject(rest: string)
    ensures ReadValue("{" + "" + "}" + rest) == Some((Obj(map[]), rest))
  {
    hide ReadItems, ReadMembers, ReadNumber, ReadString;
    var t := "{" + "" + "}" + rest;
    assert t[1..] == "}" + rest && t[1..][1..] == rest;
    NoSpace("}" + rest);
  }

  lemma ReadCanonObject(j: Json, rest: string)
    requires j.Obj?
    ensures ReadValue(Canon(j) + rest) == Some((j, rest))
    decreases j, 1
  {
    hide ReadItems, ReadMembers, ReadNumber, ReadString, SortedKeys, CanonMembers;
    var ks := SortedKeys(j.members.Keys);
    var body := CanonMembers(j, ks, true) + "}" + rest;
    Assoc4("{", CanonMembers(j, ks, true), "}", rest);
    if ks == [] {
      assert j.members.Keys == {} by {
        assert forall k :: k in j.members.Keys ==> k in ks;
      }
      EmptyMembers(j);
      ReadEmptyObject(rest);
    } else {
      Assoc(CanonMembers(j, ks, true), "}", rest);
      MembersStart(j, ks, "}" + rest);
      ReadObject(body);
      SortedKeysSorted(j.members.Keys);
      SortedDistinct(ks);
      ReadCanonMembers(j, ks, map[], rest);
      assert map[] + (map k | k in ks :: j.members[k]) == j.members;
    }
  }

  lemma ItemsStart(items: seq<Json>, tail: string)
    requires items != []
    ensures var t := CanonItems(items, true) + tail;
            t != "" && !IsSpace(t[0]) && t[0] != ']' && SkipSpace(t) == t
  {
    CanonStart(items[0]);
    var t := CanonItems(items, true) + tail;
    assert t[0] == Canon(items[0])[0];
  }

  lemma MembersStart(j: Json, ks: seq<string>, tail: string)
    requires j.Obj? && ks != [] && forall k <- ks :: k in j.members
    ensures var t := CanonMembers(j, ks, true) + tail;
            t != "" && t[0] == '"' && SkipSpace(t) == t
  {
    assert FormatString(ks[0])[0] == '"';
  }

  lemma {:induction false} ReadCanonItems(items: seq<Json>, rest: string)
    requires items != []
    ensures ReadItems(CanonItems(items, true) + "]" + rest) == Some((items, rest))
    decreases items, 0
  {
    hide Canon, ReadValue, ReadMembers;
    var tail := CanonItems(items[1..], false) + "]" + rest;
    assert CanonItems(items, true) + "]" + rest == Canon(items[0]) + tail;
    if |items| == 1 {
      assert tail == "]" + rest;
      ReadCanon(items[0], tail);
      assert tail[1..] == rest && items == [items[0]];
    } else {
      var more := CanonItems(items[1..], true) + "]" + rest;
      assert CanonItems(items[1..], false) == "," + CanonItems(items[1..], true);
      assert tail == "," + more;
      ReadCanon(items[0], tail);
      assert tail[1..] == more;
      ItemsStart(items[1..], "]" + rest);
      Assoc(CanonItems(items[1..], true), "]", rest);
      ReadCanonItems(items[1..], rest);
      assert items == [items[0]] + items[1..];
    }
  }

  ghost predicate Distinct(ks: seq<string>) {
    forall i, j | 0 <= i < j < |ks| :: ks[i] != ks[j]
  }

  lemma SortedDistinct(ks: seq<string>)
    requires StrictlySorted(ks)
    ensures Distinct(ks)
  {
    forall i, j | 0 <= i < j < |ks| ensures ks[i] != ks[j] {
      KeyOrderTotal(ks[i], ks[j]);
    }
  }

  lemma FormatStringStart(s: string, tail: string)
    ensures var t := FormatString(s) + tail;
            t[0] == '"' && t[1..] == Escape(s) + "\"" + tail
  {
  }

  /** One step of `ReadMembers`: a name, a colon, a value, and the separator before `tail[1..]`. */
  lemma MembersStep(t: string, key: string, t1: string, value: Json, tail: string, seen: map<string, Json>)
    requires t != "" && t[0] == '"' && ReadString(t[1..]) == Some((key, t1))
    requires t1 != "" && t1[0] == ':' && key !in seen
    requires ReadValue(SkipSpace(t1[1..])) == Some((value, tail))
    requires tail != "" && (tail[0] == '}' || tail[0] == ',')
    ensures ReadMembers(t, seen)
         == if tail[0] == '}' then Some((seen[key := value], tail[1..]))
            else ReadMembers(SkipSpace(tail[1..]), seen[key := value])
  {
    hide ReadValue, ReadItems, ReadString;
    NoSpace(t1);
    NoSpace(tail);
  }

  lemma ReadOneMember(key: string, v: string, value: Json, tail: string, seen: map<string, Json>)
    requires key !in seen
    requires v != "" && !IsSpace(v[0]) && ReadValue(v + tail) == Some((value, tail))
    requires tail != "" && (tail[0] == '}' || tail[0] == ',')
    ensures ReadMembers(FormatString(key) + ":" + v + tail, seen)
         == if tail[0] == '}' then Some((seen[key := value], tail[1..]))
            else ReadMembers(SkipSpace(tail[1..]), seen[key := value])
  {
    hide ReadValue, ReadItems, ReadMembers, ReadString, FormatString, Escape, SkipSpace;
    var afterKey := ":" + v + tail;
    Assoc4(FormatString(key), ":", v, tail);
    FormatStringStart(key, afterKey);
    ReadFormatted(key, afterKey);
    assert afterKey[1..] == v + tail;
    NoSpace(v + tail);
    MembersStep(FormatString(key) + ":" + v + tail, key, afterKey, value, tail, seen);
  }

  lemma Regroup(k: string, v: string, m: string, close: string, rest: string)
    ensures "" + k + ":" + v + m + close + rest == k + ":" + v + (m + close + rest)
  {
  }

  lemma MembersHead(j: Json, ks: seq<string>, rest: string)
    requires j.Obj? && ks != [] && forall k <- ks :: k in j.members
    ensures CanonMembers(j, ks, true) + "}" + rest
         == FormatString(ks[0]) + ":" + Canon(j.members[ks[0]]) + (CanonMembers(j, ks[1..], false) + "}" + rest)
  {
    Regroup(FormatString(ks[0]), Canon(j.members[ks[0]]), CanonMembers(j, ks[1..], false), "}", rest);
    hide Canon, FormatString;
  }

  lemma MembersTail(j: Json, ks: seq<string>, rest: string)
    requires j.Obj? && ks != [] && forall k <- ks :: k in j.members
    ensures var t := CanonMembers(j, ks, false) + "}" + rest;
            t == "," + (CanonMembers(j, ks, true) + "}" + rest)
            && t[0] == ',' && t[1..] == CanonMembers(j, ks, true) + "}" + rest
  {
    hide Canon, FormatString;
    assert CanonMembers(j, ks, false) == "," + CanonMembers(j, ks, true);
  }

  lemma {:induction false} ReadCanonMembers(j: Json, ks: seq<string>, seen: map<string, Json>, rest: string)
    requires j.Obj? && ks != [] && forall k <- ks :: k in j.members
    requires Distinct(ks) && forall k <- ks :: k !in seen
    ensures ReadMembers(CanonMembers(j, ks, true) + "}" + rest, seen)
         == Some((seen + (map k | k in ks :: j.members[k]), rest))
    decreases j, 0, ks
  {
    hide Canon, ReadValue, ReadItems, ReadMembers, FormatString, SkipSpace;
    var key, value := ks[0], j.members[ks[0]];
    var tail := CanonMembers(j, ks[1..], false) + "}" + rest;
    MembersHead(j, ks, rest);
    CanonStart(value);
    if |ks| == 1 {
      assert tail == "}" + rest && tail[1..] == rest;
      ReadCanon(value, tail);
      ReadOneMember(key, Canon(value), value, tail, seen);
      assert seen + (map k | k in ks :: j.members[k]) == seen[key := value];
    } else {
      MembersTail(j, ks[1..], rest);
      ReadCanon(value, tail);
      ReadOneMember(key, Canon(value), value, tail, seen);
      Assoc(CanonMembers(j, ks[1..], true), "}", rest);
      MembersStart(j, ks[1..], "}" + rest);
      ReadCanonMembers(j, ks[1..], seen[key := value], rest);
      AddMembers(j, ks, seen);
    }
  }

  lemma AddMembers(j: Json, ks: seq<string>, seen: map<string, Json>)
    requires j.Obj? && ks != [] && forall k <- ks :: k in j.members
    ensures seen + (map k | k in ks :: j.members[k])
         == seen[ks[0] := j.members[ks[0]]] + (map k | k in ks[1..] :: j.members[k])
  {
    assert forall k :: k in ks <==> k == ks[0] || k in ks[1..];
  }

  // ----- what canonicalization promises -----

  /** Strictly reading any canonical form returns the original value. */
  lemma LoadsCanon(j: Json)
    ensures Loads(Canon(j)) == Some(j)
  {
    CanonStart(j);
    assert Canon(j) + "" == Canon(j);
    ReadCanon(j, "");
  }

  /** One canonical text per value, one value per canonical text. */
  lemma CanonInjective(a: Json, b: Json)
    ensures Canon(a) == Canon(b) <==> a == b
  {
    LoadsCanon(a);
    LoadsCanon(b);
  }

  lemma LoadsCanonicalized(j: Json)
    requires Canonicalize(j).Some?
    ensures LoadsBytes(Canonicalize(j).value) == Some(j)
  {
    Utf8.DecodeEncode(Canon(j));
    LoadsCanon(j);
  }

  lemma CanonicalizeInjective(a: Json, b: Json)
    requires Canonicalize(a).Some? && Canonicalize(a) == Canonicalize(b)
    ensures a == b
  {
    LoadsCanonicalized(a);
    LoadsCanonicalized(b);
  }
}
