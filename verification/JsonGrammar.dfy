/** The JSON grammar as trees, every spelling of them, and the reader that accepts exactly those. */
module JsonGrammar {
  import opened Wrappers
  import opened Bytes
  import opened Decimal
  import opened Number
  import opened NumberReader
  import opened JsonText
  import opened Jcs
  import opened JsonReader
  import Utf8

  // ----- the grammar -----

  /** One character of a string literal and the text that spells it. */
  datatype Piece = Piece(text: string, c: char)

  /** A value with all the white space inside it. */
  datatype Tree =
    | Word(value: Json)
    | Number(negative: bool, literal: Literal)
    | Text(pieces: seq<Piece>)
    | EmptyList(space: string)
    | List(space: string, items: Items)
    | EmptyDict(space: string)
    | Dict(space: string, members: Members)

  /** The items of a list: each with the white space behind it and behind the comma. */
  datatype Items =
    | OneItem(item: Tree, after: string)
    | MoreItems(item: Tree, after: string, before: string, rest: Items)

  /** The members of an object, likewise, with the white space on both sides of the colon. */
  datatype Members =
    | OneMember(name: seq<Piece>, left: string, right: string, value: Tree, after: string)
    | MoreMembers(name: seq<Piece>, left: string, right: string, value: Tree, after: string, before: string,
                  rest: Members)

  /** Plain, by one of the eight short escapes, or by one or two four-digit escapes. */
  ghost predicate Spells(p: Piece) {
    || (p.text == [p.c] && p.c as int >= 0x20 && p.c != '"' && p.c != '\\')
    || p in {Piece("\\\"", '"'), Piece("\\\\", '\\'), Piece("\\/", '/'), Piece("\\b", 8 as char), Piece("\\t", 9 as char),
             Piece("\\n", 10 as char), Piece("\\f", 12 as char), Piece("\\r", 13 as char)}
    || (|p.text| == 6 && p.text[..2] == "\\u" && ReadHex4(p.text[2..]) == Some(p.c as int))
    || (|p.text| == 12 && p.text[..2] == "\\u" && p.text[6..8] == "\\u"
        && var hi, lo := ReadHex4(p.text[2..6]), ReadHex4(p.text[8..]);
           && hi.Some? && lo.Some? && 0xD800 <= hi.value < 0xDC00 && 0xDC00 <= lo.value < 0xE000
           && p.c as int == 0x10000 + (hi.value - 0xD800) * 1024 + (lo.value - 0xDC00))
  }

  ghost predicate AllSpell(pieces: seq<Piece>) { forall p <- pieces :: Spells(p) }

  function PiecesText(pieces: seq<Piece>): string {
    if pieces == [] then "" else pieces[0].text + PiecesText(pieces[1..])
  }

  function CharsOf(pieces: seq<Piece>): string {
    if pieces == [] then "" else [pieces[0].c] + CharsOf(pieces[1..])
  }

  predicate AllSpace(s: string) { forall c <- s :: c in " \t\n\r" }

  /** The text of a tree. */
  function TextOfTree(t: Tree): string
    decreases t, 0
  {
    match t
    case Word(value) => if value.Null? then "null" else if value == Bool(true) then "true" else "false"
    case Number(negative, literal) => (if negative then "-" else "") + literal.Text()
    case Text(pieces) => "\"" + (PiecesText(pieces) + "\"")
    case EmptyList(space) => "[" + (space + "]")
    case List(space, items) => "[" + (space + TextOfItems(items))
    case EmptyDict(space) => "{" + (space + "}")
    case Dict(space, members) => "{" + (space + TextOfMembers(members))
  }

  function TextOfItems(items: Items): string
    decreases items, 0
  {
    match items
    case OneItem(item, after) => TextOfTree(item) + (after + "]")
    case MoreItems(item, after, before, rest) => TextOfTree(item) + (after + ("," + (before + TextOfItems(rest))))
  }

  /** The text of a member up to the end of its value. */
  function MemberText(m: Members): string
    decreases m, 0
  {
    "\"" + (PiecesText(m.name) + ("\"" + (m.left + (":" + (m.right + TextOfTree(m.value))))))
  }

  function TextOfMembers(m: Members): string
    decreases m, 1
  {
    match m
    case OneMember(_, _, _, _, after) => MemberText(m) + (after + "}")
    case MoreMembers(_, _, _, _, after, before, rest) => MemberText(m) + (after + ("," + (before + TextOfMembers(rest))))
  }

  /** Number literals of JSON, spelled strings, white space where it may stand, and no name twice. */
  ghost predicate WellFormed(t: Tree) {
    match t
    case Word(value) => value.Null? || value.Bool?
    case Number(_, literal) => literal.JsonValid()
    case Text(pieces) => AllSpell(pieces)
    case EmptyList(space) => AllSpace(space)
    case List(space, items) => AllSpace(space) && WellFormedItems(items)
    case EmptyDict(space) => AllSpace(space)
    case Dict(space, members) => AllSpace(space) && WellFormedMembers(members) && Distinct(members, {})
  }

  ghost predicate WellFormedItems(items: Items) {
    && WellFormed(items.item) && AllSpace(items.after)
    && (items.MoreItems? ==> AllSpace(items.before) && WellFormedItems(items.rest))
  }

  ghost predicate WellFormedMembers(m: Members) {
    && AllSpell(m.name) && AllSpace(m.left) && AllSpace(m.right) && WellFormed(m.value) && AllSpace(m.after)
    && (m.MoreMembers? ==> AllSpace(m.before) && WellFormedMembers(m.rest))
  }

  /** No name is in `used` or comes twice, as strings, however spelled. */
  ghost predicate Distinct(m: Members, used: set<string>) {
    && CharsOf(m.name) !in used
    && (m.MoreMembers? ==> Distinct(m.rest, used + {CharsOf(m.name)}))
  }

  /** The value that a tree stands for. */
  ghost function ValueOf(t: Tree): Json
    requires WellFormed(t)
  {
    match t
    case Word(value) => value
    case Number(negative, literal) =>
      NumberOfExact(negative, literal);
      Num(NumberOf(negative, literal))
    case Text(pieces) => Str(CharsOf(pieces))
    case EmptyList(_) => Arr([])
    case List(_, items) => Arr(ValuesOf(items))
    case EmptyDict(_) => Obj(map[])
    case Dict(_, members) => Obj(MembersOf(members, map[]))
  }

  ghost function ValuesOf(items: Items): seq<Json>
    requires WellFormedItems(items)
  {
    [ValueOf(items.item)] + (if items.MoreItems? then ValuesOf(items.rest) else [])
  }

  ghost function MembersOf(m: Members, seen: map<string, Json>): map<string, Json>
    requires WellFormedMembers(m)
  {
    var next := seen[CharsOf(m.name) := ValueOf(m.value)];
    if m.MoreMembers? then MembersOf(m.rest, next) else next
  }

  // ----- white space -----

  lemma {:induction false} SkipAll(s: string, t: string)
    requires AllSpace(s) && (t == "" || !IsSpace(t[0]))
    ensures SkipSpace(s + t) == t
  {
    if s == "" {
      assert s + t == t;
    } else {
      assert s[0] in s;
      SkipAll(s[1..], t);
      assert (s + t)[1..] == s[1..] + t;
    }
  }

  /** What was skipped. */
  lemma {:induction false} Skipped(t: string) returns (space: string)
    ensures AllSpace(space) && t == space + SkipSpace(t)
  {
    if t != "" && IsSpace(t[0]) {
      var more := Skipped(t[1..]);
      space := [t[0]] + more;
    } else {
      space := "";
    }
  }

  // ----- strings -----

  lemma HexBound(t: string)
    ensures ReadHex4(t).Some? ==> ReadHex4(t).value < 0x10000
  {
  }

  lemma SpelledUnicode(p: Piece, rest: string)
    requires |p.text| == 6 && p.text[..2] == "\\u" && ReadHex4(p.text[2..]) == Some(p.c as int)
    ensures ReadChar(p.text + rest) == Some((p.c, rest)) && p.text[0] == '\\'
  {
    hide HexValue;
    HexBound(p.text[2..]);
    var t := p.text + rest;
    assert t[0] == p.text[..2][0] && t[1] == p.text[..2][1];
    var u := t[2..];
    assert forall i | 0 <= i < 4 :: u[i] == p.text[2..][i];
    assert u[4..] == rest;
  }

  lemma SpelledPair(p: Piece, rest: string, hi: nat, lo: nat)
    requires |p.text| == 12 && p.text[..2] == "\\u" && p.text[6..8] == "\\u"
    requires ReadHex4(p.text[2..6]) == Some(hi) && ReadHex4(p.text[8..]) == Some(lo)
    requires 0xD800 <= hi < 0xDC00 <= lo < 0xE000
    requires p.c as int == 0x10000 + (hi - 0xD800) * 1024 + (lo - 0xDC00)
    ensures ReadChar(p.text + rest) == Some((p.c, rest)) && p.text[0] == '\\'
  {
    hide HexValue;
    var t := p.text + rest;
    assert t[0] == p.text[..2][0] && t[1] == p.text[..2][1];
    var u := t[2..];
    assert forall i | 0 <= i < 4 :: u[i] == p.text[2..6][i];
    assert u[4] == p.text[6..8][0] && u[5] == p.text[6..8][1];
    var w := u[6..];
    assert forall i | 0 <= i < 4 :: w[i] == p.text[8..][i];
    assert u[10..] == rest;
  }

  lemma SpelledChar(p: Piece, rest: string)
    requires Spells(p)
    ensures ReadChar(p.text + rest) == Some((p.c, rest)) && p.text != "" && p.text[0] != '"'
  {
    hide ReadUnicode, ReadHex4;
    if |p.text| == 6 {
      SpelledUnicode(p, rest);
    } else if |p.text| == 12 {
      SpelledPair(p, rest, ReadHex4(p.text[2..6]).value, ReadHex4(p.text[8..]).value);
    } else {
      assert (p.text + rest)[|p.text|..] == rest;
    }
  }

  lemma {:induction false} SpelledString(pieces: seq<Piece>, rest: string)
    requires AllSpell(pieces)
    ensures ReadString(PiecesText(pieces) + ("\"" + rest)) == Some((CharsOf(pieces), rest))
  {
    hide ReadChar, Spells;
    if pieces == [] {
      assert PiecesText(pieces) + ("\"" + rest) == "\"" + rest && ("\"" + rest)[1..] == rest;
    } else {
      assert pieces[0] in pieces;
      var tail := PiecesText(pieces[1..]) + ("\"" + rest);
      SpelledChar(pieces[0], tail);
      SpelledString(pieces[1..], rest);
      Assoc(pieces[0].text, PiecesText(pieces[1..]), "\"" + rest);
    }
  }

  lemma ReadUnicodeSpells(t: string)
    requires |t| >= 2 && t[..2] == "\\u" && ReadUnicode(t[2..]).Some?
    ensures var (c, rest) := ReadUnicode(t[2..]).value;
            |rest| <= |t| && Spells(Piece(t[..|t| - |rest|], c)) && t[|t| - |rest|..] == rest
  {
    hide HexValue;
    var u := t[2..];
    var (c, rest) := ReadUnicode(u).value;
    var text := t[..|t| - |rest|];
    assert text[..2] == t[..2];
    if |rest| == |t| - 6 {
      assert text[2..] == u[..4];
    } else {
      assert text[2..6] == u[..4] && text[6..8] == u[4..6] && u[4..6] == "\\u" && text[8..] == u[6..10];
    }
  }

  lemma ReadCharSpells(t: string) returns (p: Piece)
    requires ReadChar(t).Some?
    ensures var (c, rest) := ReadChar(t).value;
            Spells(p) && p.c == c && t == p.text + rest
  {
    hide ReadUnicode, ReadHex4;
    var (c, rest) := ReadChar(t).value;
    p := Piece(t[..|t| - |rest|], c);
    if t[0] != '\\' {
      assert t[..1] == [c];
    } else if t[1] == 'u' {
      assert t[..2] == "\\u";
      ReadUnicodeSpells(t);
    } else {
      assert t[..2] == ['\\', t[1]];
    }
  }

  lemma {:induction false} ReadStringSpells(t: string) returns (pieces: seq<Piece>)
    requires ReadString(t).Some?
    ensures var (s, rest) := ReadString(t).value;
            AllSpell(pieces) && CharsOf(pieces) == s && t == PiecesText(pieces) + ("\"" + rest)
    decreases |t|
  {
    hide ReadChar, Spells;
    if t[0] == '"' {
      pieces := [];
    } else {
      var p := ReadCharSpells(t);
      var more := ReadStringSpells(ReadChar(t).value.1);
      pieces := [p] + more;
      var (_, rest) := ReadString(t).value;
      Assoc(p.text, PiecesText(more), "\"" + rest);
    }
  }

  // ----- every text that is read is a tree's -----

  lemma CountedDigits(t: string)
    requires t != "" && IsDigit(t[0])
    ensures CountDigits(t) > 0 && t == t[..CountDigits(t)] + t[CountDigits(t)..]
  {
  }

  lemma FracRead(t: string)
    ensures t == FracText(ReadFrac(t).0) + ReadFrac(t).1
  {
    if |t| >= 2 && t[0] == '.' && IsDigit(t[1]) {
      CountedDigits(t[1..]);
      assert t == "." + t[1..];
    }
  }

  lemma ExpRead(t: string)
    ensures t == ExpText(ReadExp(t).0) + ReadExp(t).1
  {
    var (exp, rest) := ReadExp(t);
    if exp.Exponent? {
      var tail := t[1 + |exp.sign|..];
      assert t == [t[0]] + exp.sign + tail;
      assert tail == exp.digits + rest;
    }
  }

  lemma LiteralRead(t: string)
    requires ReadLiteral(t).Some?
    ensures t == ReadLiteral(t).value.0.Text() + ReadLiteral(t).value.1
  {
    hide CountDigits, ReadFrac, ReadExp, FracText, ExpText;
    var n := if t[0] == '0' then 1 else CountDigits(t);
    FracRead(t[n..]);
    ExpRead(ReadFrac(t[n..]).1);
    var (frac, t1) := ReadFrac(t[n..]);
    var (exp, t2) := ReadExp(t1);
    Assoc(FracText(frac), ExpText(exp), t2);
    Assoc(t[..n], FracText(frac) + ExpText(exp), t2);
    Assoc(t[..n], FracText(frac), ExpText(exp));
    assert t == t[..n] + t[n..];
  }

  lemma NumberRead(t: string) returns (tree: Tree)
    requires ReadNumber(t).Some?
    ensures var (n, rest) := ReadNumber(t).value;
            WellFormed(tree) && ValueOf(tree) == Num(n) && t == TextOfTree(tree) + rest
  {
    hide ReadLiteral, Literal.Text, Literal.JsonValid, NumberOf;
    var negative := t != "" && t[0] == '-';
    var body := if negative then t[1..] else t;
    LiteralRead(body);
    ReadLiteralValid(body);
    tree := Number(negative, ReadLiteral(body).value.0);
    if negative {
      assert t == "-" + body;
      Assoc("-", ReadLiteral(body).value.0.Text(), ReadLiteral(body).value.1);
    } else {
      assert "" + ReadLiteral(body).value.0.Text() == ReadLiteral(body).value.0.Text();
    }
  }

  lemma Opened(t: string, open: char) returns (space: string)
    requires t != "" && t[0] == open
    ensures AllSpace(space) && t == [open] + (space + SkipSpace(t[1..]))
  {
    space := Skipped(t[1..]);
  }

  /** Cutting off one character at the front. */
  lemma First(t: string, c: char)
    requires t != "" && t[0] == c
    ensures t == [c] + t[1..]
  {
  }

  lemma {:induction false} ReadsTree(t: string) returns (tree: Tree)
    requires ReadValue(t).Some?
    ensures var (j, rest) := ReadValue(t).value;
            WellFormed(tree) && ValueOf(tree) == j && t == TextOfTree(tree) + rest
    decreases |t|, 0
  {
    hide ReadItems, ReadMembers, ReadNumber, ReadString, SkipSpace;
    var (j, rest) := ReadValue(t).value;
    if t[0] == '"' {
      tree := ReadsText(t);
    } else if t[0] == '[' {
      tree := ReadsList(t);
    } else if t[0] == '{' {
      tree := ReadsDict(t);
    } else if "null" <= t || "true" <= t || "false" <= t {
      tree := Word(j);
      GlueTail(t, |t| - |rest|);
    } else {
      tree := NumberRead(t);
    }
  }

  lemma ReadsText(t: string) returns (tree: Tree)
    requires t != "" && t[0] == '"' && ReadValue(t).Some?
    ensures var (j, rest) := ReadValue(t).value;
            WellFormed(tree) && ValueOf(tree) == j && t == TextOfTree(tree) + rest
  {
    hide ReadItems, ReadMembers, ReadNumber, ReadString, AllSpell;
    var pieces := ReadStringSpells(t[1..]);
    tree := Text(pieces);
    var (_, rest) := ReadString(t[1..]).value;
    First(t, '"');
    Assoc(PiecesText(pieces), "\"", rest);
    Assoc("\"", PiecesText(pieces) + "\"", rest);
  }

  lemma ReadsList(t: string) returns (tree: Tree)
    requires t != "" && t[0] == '[' && ReadValue(t).Some?
    ensures var (j, rest) := ReadValue(t).value;
            WellFormed(tree) && ValueOf(tree) == j && t == TextOfTree(tree) + rest
    decreases |t|, 0, 0
  {
    hide ReadItems, ReadMembers, ReadNumber, ReadString, SkipSpace, AllSpace;
    var space := Opened(t, '[');
    var t1 := SkipSpace(t[1..]);
    var (_, rest) := ReadValue(t).value;
    if t1 != "" && t1[0] == ']' {
      tree := EmptyList(space);
      First(t1, ']');
      Assoc(space, "]", rest);
      Assoc("[", space + "]", rest);
    } else {
      var items := ReadsItems(t1);
      tree := List(space, items);
      Assoc(space, TextOfItems(items), rest);
      Assoc("[", space + TextOfItems(items), rest);
    }
  }

  lemma {:induction false} ReadsItems(t: string) returns (items: Items)
    requires ReadItems(t).Some?
    ensures var (js, rest) := ReadItems(t).value;
            WellFormedItems(items) && ValuesOf(items) == js && t == TextOfItems(items) + rest
    decreases |t|, 1
  {
    hide ReadValue, ReadMembers, SkipSpace, AllSpace;
    var (item, t1) := ReadValue(t).value;
    var (_, rest) := ReadItems(t).value;
    var tree := ReadsTree(t);
    var after := Skipped(t1);
    var t2 := SkipSpace(t1);
    First(t2, t2[0]);
    if t2[0] == ']' {
      items := OneItem(tree, after);
      Assoc(after, "]", rest);
      Assoc(TextOfTree(tree), after + "]", rest);
    } else {
      var before := Skipped(t2[1..]);
      var more := ReadsItems(SkipSpace(t2[1..]));
      items := MoreItems(tree, after, before, more);
      Nested(TextOfTree(tree), after, before, TextOfItems(more), rest);
    }
  }

  lemma Nested(a: string, after: string, before: string, more: string, rest: string)
    ensures a + (after + ("," + (before + (more + rest)))) == a + (after + ("," + (before + more))) + rest
  {
    Assoc(before, more, rest);
    Assoc(",", before + more, rest);
    Assoc(after, "," + (before + more), rest);
    Assoc(a, after + ("," + (before + more)), rest);
  }

  lemma ReadsDict(t: string) returns (tree: Tree)
    requires t != "" && t[0] == '{' && ReadValue(t).Some?
    ensures var (j, rest) := ReadValue(t).value;
            WellFormed(tree) && ValueOf(tree) == j && t == TextOfTree(tree) + rest
    decreases |t|, 0, 0
  {
    hide ReadItems, ReadMembers, ReadNumber, ReadString, SkipSpace, AllSpace;
    var space := Opened(t, '{');
    var t1 := SkipSpace(t[1..]);
    var (_, rest) := ReadValue(t).value;
    if t1 != "" && t1[0] == '}' {
      tree := EmptyDict(space);
      First(t1, '}');
      Assoc(space, "}", rest);
      Assoc("{", space + "}", rest);
    } else {
      var none: map<string, Json> := map[];
      assert none.Keys == {};
      var members := ReadsMembers(t1, none);
      tree := Dict(space, members);
      Assoc(space, TextOfMembers(members), rest);
      Assoc("{", space + TextOfMembers(members), rest);
    }
  }

  /** One member up to the end of its value: its pieces, in order. */
  lemma MemberParts(m: Members, tail: string)
    ensures MemberText(m) + tail
         == "\"" + (PiecesText(m.name) + ("\"" + (m.left + (":" + (m.right + (TextOfTree(m.value) + tail))))))
  {
    var v := TextOfTree(m.value);
    Assoc(m.right, v, tail);
    Assoc(":", m.right + v, tail);
    Assoc(m.left, ":" + (m.right + v), tail);
    Assoc("\"", m.left + (":" + (m.right + v)), tail);
    Assoc(PiecesText(m.name), "\"" + (m.left + (":" + (m.right + v))), tail);
    Assoc("\"", PiecesText(m.name) + ("\"" + (m.left + (":" + (m.right + v)))), tail);
  }

  lemma {:induction false} ReadsMembers(t: string, seen: map<string, Json>) returns (m: Members)
    requires ReadMembers(t, seen).Some?
    ensures var (ms, rest) := ReadMembers(t, seen).value;
            && WellFormedMembers(m) && Distinct(m, seen.Keys) && MembersOf(m, seen) == ms
            && t == TextOfMembers(m) + rest
    decreases |t|, 1
  {
    hide ReadValue, ReadItems, ReadString, SkipSpace, AllSpace, AllSpell, TextOfTree, MemberText;
    var (_, rest) := ReadMembers(t, seen).value;
    First(t, '"');
    var name := ReadStringSpells(t[1..]);
    var (key, t1) := ReadString(t[1..]).value;
    var left := Skipped(t1);
    var t2 := SkipSpace(t1);
    First(t2, ':');
    var right := Skipped(t2[1..]);
    var t2' := SkipSpace(t2[1..]);
    var tree := ReadsTree(t2');
    var (value, t3) := ReadValue(t2').value;
    var after := Skipped(t3);
    var t4 := SkipSpace(t3);
    First(t4, t4[0]);
    if t4[0] == '}' {
      m := OneMember(name, left, right, tree, after);
      MemberParts(m, after + ("}" + rest));
      Assoc(after, "}", rest);
      Assoc(MemberText(m), after + "}", rest);
    } else {
      var before := Skipped(t4[1..]);
      var next := seen[key := value];
      assert next.Keys == seen.Keys + {key};
      var more := ReadsMembers(SkipSpace(t4[1..]), next);
      m := MoreMembers(name, left, right, tree, after, before, more);
      MemberParts(m, after + ("," + (before + (TextOfMembers(more) + rest))));
      Nested(MemberText(m), after, before, TextOfMembers(more), rest);
    }
  }

  // ----- and every tree's text is read -----

  /** What may follow a value: nothing, white space, or the end or the next part of a container. */
  lemma TreeStart(t: Tree)
    requires WellFormed(t)
    ensures var s := TextOfTree(t);
            s != "" && !IsSpace(s[0]) && s[0] != ']' && s[0] != '}'
  {
    hide TextOfItems, TextOfMembers, PiecesText, AllSpell, AllSpace;
    if t.Number? {
      assert t.literal.whole[0] in t.literal.whole;
    }
  }

  lemma SpaceEnds(space: string, c: char, rest: string)
    requires AllSpace(space) && c in ",]}"
    ensures Terminated(space + ([c] + rest)) && SkipSpace(space + ([c] + rest)) == [c] + rest
  {
    SkipAll(space, [c] + rest);
    if space != "" {
      assert space[0] in space;
    }
  }

  lemma NumberText(negative: bool, l: Literal, rest: string)
    requires l.JsonValid() && Terminated(rest)
    ensures ReadNumber((if negative then "-" else "") + l.Text() + rest) == Some((NumberOf(negative, l), rest))
  {
    hide ReadLiteral, NumberOf;
    ReadLiteralText(l, rest);
    assert l.whole[0] in l.whole;
    var body := l.Text() + rest;
    assert body[0] == l.whole[0];
    hide Literal.Text;
    if negative {
      Assoc("-", l.Text(), rest);
      assert ("-" + body)[1..] == body;
    } else {
      assert "" + l.Text() == l.Text();
    }
  }

  lemma {:induction false} TreeReads(t: Tree, rest: string)
    requires WellFormed(t) && Terminated(rest)
    ensures ReadValue(TextOfTree(t) + rest) == Some((ValueOf(t), rest))
    decreases t, 0
  {
    hide ReadValue, ReadItems, ReadMembers, AllSpace, AllSpell, PiecesText, Terminated, NumberOf, Literal.JsonValid;
    match t
    case Word(value) =>
      WordReads(value, rest);
    case Number(negative, literal) =>
      NumberReads(negative, literal, rest, ValueOf(t).n);
    case Text(pieces) =>
      TextReads(pieces, rest);
    case EmptyList(space) =>
      ListOpens(space, "]", rest);
    case List(space, items) =>
      ItemsRead(items, rest);
      ListOpens(space, TextOfItems(items), rest);
    case EmptyDict(space) =>
      DictOpens(space, "}", rest);
    case Dict(space, members) =>
      DictReads(space, members, rest);
  }

  lemma DictReads(space: string, members: Members, rest: string)
    requires WellFormed(Dict(space, members))
    ensures ReadValue("{" + (space + TextOfMembers(members)) + rest) == Some((Obj(MembersOf(members, map[])), rest))
    decreases members, 1
  {
    hide ReadValue, ReadMembers, AllSpace, WellFormedMembers, Distinct;
    var none: map<string, Json> := map[];
    assert none.Keys == {};
    MembersRead(members, none, rest);
    DictOpens(space, TextOfMembers(members), rest);
  }

  lemma ListOpens(space: string, inside: string, rest: string)
    requires AllSpace(space) && inside != "" && !IsSpace(inside[0])
    ensures ReadValue("[" + (space + inside) + rest)
         == if inside[0] == ']' then Some((Arr([]), (inside + rest)[1..]))
            else match ReadItems(inside + rest) case None => None case Some((items, r)) => Some((Arr(items), r))
    ensures ("]" + rest)[1..] == rest
  {
    hide ReadItems, ReadMembers, ReadNumber, ReadString, SkipSpace, AllSpace;
    Contained('[', space, inside, rest);
  }

  lemma DictOpens(space: string, inside: string, rest: string)
    requires AllSpace(space) && inside != "" && !IsSpace(inside[0])
    ensures ReadValue("{" + (space + inside) + rest)
         == if inside[0] == '}' then Some((Obj(map[]), (inside + rest)[1..]))
            else match ReadMembers(inside + rest, map[]) case None => None case Some((ms, r)) => Some((Obj(ms), r))
    ensures ("}" + rest)[1..] == rest
  {
    hide ReadItems, ReadMembers, ReadNumber, ReadString, SkipSpace, AllSpace;
    Contained('{', space, inside, rest);
  }

  lemma WordReads(value: Json, rest: string)
    requires value.Null? || value.Bool?
    ensures ReadValue(TextOfTree(Word(value)) + rest) == Some((value, rest))
  {
    hide ReadItems, ReadMembers, ReadNumber, ReadString;
    var s := TextOfTree(Word(value)) + rest;
    assert s[if value == Bool(false) then 5 else 4..] == rest;
  }

  lemma NumberReads(negative: bool, l: Literal, rest: string, n: JsonNumber)
    requires l.JsonValid() && Terminated(rest) && n == NumberOf(negative, l)
    ensures ReadValue((if negative then "-" else "") + l.Text() + rest) == Some((Num(n), rest))
  {
    hide ReadItems, ReadMembers, ReadNumber, ReadString, NumberOf;
    NumberText(negative, l, rest);
    assert l.whole[0] in l.whole;
    var s := (if negative then "-" else "") + l.Text() + rest;
    assert s[0] == '-' || IsDigit(s[0]);
  }

  lemma TextReads(pieces: seq<Piece>, rest: string)
    requires AllSpell(pieces)
    ensures ReadValue("\"" + (PiecesText(pieces) + "\"") + rest) == Some((Str(CharsOf(pieces)), rest))
  {
    hide ReadItems, ReadMembers, ReadNumber, ReadString, PiecesText, AllSpell;
    SpelledString(pieces, rest);
    Assoc(PiecesText(pieces), "\"", rest);
    Assoc("\"", PiecesText(pieces) + "\"", rest);
    assert ("\"" + (PiecesText(pieces) + ("\"" + rest)))[1..] == PiecesText(pieces) + ("\"" + rest);
  }

  /** The inside of a container, past its white space. */
  lemma Contained(open: char, space: string, inside: string, rest: string)
    requires AllSpace(space) && inside != "" && !IsSpace(inside[0])
    ensures var t := [open] + (space + inside) + rest;
            t[0] == open && SkipSpace(t[1..]) == inside + rest && (inside + rest)[0] == inside[0]
  {
    Assoc(space, inside, rest);
    assert ([open] + (space + inside) + rest)[1..] == space + (inside + rest);
    SkipAll(space, inside + rest);
  }

  lemma ItemsStart(items: Items)
    requires WellFormedItems(items)
    ensures var s := TextOfItems(items);
            s != "" && !IsSpace(s[0]) && s[0] != ']' && SkipSpace(s) == s
  {
    hide TextOfTree;
    TreeStart(items.item);
  }

  lemma {:induction false} ItemsRead(items: Items, rest: string)
    requires WellFormedItems(items)
    ensures ReadItems(TextOfItems(items) + rest) == Some((ValuesOf(items), rest))
    ensures TextOfItems(items) != "" && !IsSpace(TextOfItems(items)[0]) && TextOfItems(items)[0] != ']'
    decreases items, 0
  {
    hide ReadValue, ReadMembers, SkipSpace, AllSpace, Terminated, TextOfTree;
    ItemsStart(items);
    var a := TextOfTree(items.item);
    match items
    case OneItem(item, after) =>
      Assoc(after, "]", rest);
      Assoc(a, after + "]", rest);
      SpaceEnds(after, ']', rest);
      TreeReads(item, after + ("]" + rest));
      assert ("]" + rest)[1..] == rest && ValuesOf(items) == [ValueOf(item)];
    case MoreItems(item, after, before, more) =>
      var tail := TextOfItems(more) + rest;
      Nested(a, after, before, TextOfItems(more), rest);
      SpaceEnds(after, ',', before + tail);
      TreeReads(item, after + ("," + (before + tail)));
      assert ("," + (before + tail))[1..] == before + tail;
      ItemsRead(more, rest);
      SkipAll(before, tail);
  }

  lemma MembersStart(m: Members)
    ensures var s := TextOfMembers(m);
            s != "" && s[0] == '"'
  {
    hide TextOfTree;
  }

  /** One member as the reader takes it apart. */
  lemma MemberReads(m: Members, tail: string)
    requires AllSpell(m.name) && AllSpace(m.left) && AllSpace(m.right) && WellFormed(m.value) && Terminated(tail)
    ensures var t := MemberText(m) + tail;
            && t[0] == '"' && ReadString(t[1..]).Some?
            && var (key, t1) := ReadString(t[1..]).value;
               && key == CharsOf(m.name)
               && var t2 := SkipSpace(t1);
                  && t2 != "" && t2[0] == ':'
                  && ReadValue(SkipSpace(t2[1..])) == Some((ValueOf(m.value), tail))
    decreases m.value, 1
  {
    hide ReadValue, ReadString, SkipSpace, AllSpace, AllSpell, Terminated, TextOfTree, PiecesText;
    MemberParts(m, tail);
    var v := TextOfTree(m.value) + tail;
    var colon := ":" + (m.right + v);
    SpelledString(m.name, m.left + colon);
    assert (MemberText(m) + tail)[1..] == PiecesText(m.name) + ("\"" + (m.left + colon));
    SkipAll(m.left, colon);
    assert colon[1..] == m.right + v;
    TreeStart(m.value);
    SkipAll(m.right, v);
    TreeReads(m.value, tail);
  }

  lemma {:induction false} MembersRead(m: Members, seen: map<string, Json>, rest: string)
    requires WellFormedMembers(m) && Distinct(m, seen.Keys)
    ensures ReadMembers(TextOfMembers(m) + rest, seen) == Some((MembersOf(m, seen), rest))
    ensures TextOfMembers(m) != "" && TextOfMembers(m)[0] == '"'
    decreases m, 0
  {
    hide ReadValue, ReadItems, ReadString, SkipSpace, AllSpace, AllSpell, Terminated, TextOfTree, MemberText, CharsOf;
    MembersStart(m);
    match m
    case OneMember(name, left, right, value, after) =>
      Assoc(after, "}", rest);
      Assoc(MemberText(m), after + "}", rest);
      SpaceEnds(after, '}', rest);
      MemberReads(m, after + ("}" + rest));
      assert ("}" + rest)[1..] == rest;
    case MoreMembers(name, left, right, value, after, before, more) =>
      var tail := TextOfMembers(more) + rest;
      Nested(MemberText(m), after, before, TextOfMembers(more), rest);
      SpaceEnds(after, ',', before + tail);
      MemberReads(m, after + ("," + (before + tail)));
      assert ("," + (before + tail))[1..] == before + tail;
      var next := seen[CharsOf(name) := ValueOf(value)];
      assert next.Keys == seen.Keys + {CharsOf(name)};
      MembersRead(more, next, rest);
      SkipAll(before, tail);
  }

  // ----- the reader as a whole -----

  /** The text is some spelling of the value, with white space around it. */
  ghost predicate IsJson(t: string, j: Json) {
    exists before: string, tree: Tree, after: string ::
      && AllSpace(before) && AllSpace(after) && WellFormed(tree) && ValueOf(tree) == j
      && t == before + (TextOfTree(tree) + after)
  }

  /**
   * `loads` accepts exactly the texts of JSON values that name no member of an object twice, in any
   * spelling and with any white space, each as its value.
   */
  lemma LoadsMeaning(t: string, j: Json)
    ensures Loads(t) == Some(j) <==> IsJson(t, j)
  {
    if Loads(t) == Some(j) {
      LoadsSound(t);
    }
    forall before: string, tree: Tree, after: string |
      AllSpace(before) && AllSpace(after) && WellFormed(tree) && ValueOf(tree) == j
      && t == before + (TextOfTree(tree) + after)
      ensures Loads(t) == Some(j)
    {
      LoadsComplete(before, tree, after);
    }
    hide Loads, WellFormed, ValueOf, TextOfTree, AllSpace;
  }

  lemma LoadsSound(t: string)
    requires Loads(t).Some?
    ensures IsJson(t, Loads(t).value)
  {
    hide ReadValue, SkipSpace, WellFormed, ValueOf, TextOfTree, AllSpace;
    var before := Skipped(t);
    var tree := ReadsTree(SkipSpace(t));
    var (j, rest) := ReadValue(SkipSpace(t)).value;
    var after := Skipped(rest);
    assert after + "" == after;
    assert t == before + (TextOfTree(tree) + after);
  }

  lemma LoadsComplete(before: string, tree: Tree, after: string)
    requires AllSpace(before) && AllSpace(after) && WellFormed(tree)
    ensures Loads(before + (TextOfTree(tree) + after)) == Some(ValueOf(tree))
  {
    hide ReadValue, SkipSpace, ValueOf, TextOfTree;
    TreeStart(tree);
    SkipAll(before, TextOfTree(tree) + after);
    if after != "" {
      assert after[0] in after;
    }
    TreeReads(tree, after);
    SkipAll(after, "");
    assert after + "" == after;
  }

  /** `loads` of bytes accepts exactly the UTF-8 encodings of such texts. */
  lemma LoadsBytesMeaning(b: bytes, j: Json)
    ensures LoadsBytes(b) == Some(j) <==> exists t: string :: b == Utf8.Encode(t) && IsJson(t, j)
  {
    hide Loads, IsJson, Utf8.Decode, Utf8.Encode;
    if LoadsBytes(b) == Some(j) {
      var t := Utf8.Decode(b).value;
      Utf8.EncodeDecode(b);
      LoadsMeaning(t, j);
    }
    forall t: string | b == Utf8.Encode(t) && IsJson(t, j) ensures LoadsBytes(b) == Some(j) {
      Utf8.DecodeEncode(t);
      LoadsMeaning(t, j);
    }
  }
}
