/** SPIFFE IDs: the parser that splits on slashes and the manifest's pattern, one language. */
module SpiffeId {
  import opened Wrappers
  import opened Bytes
  import Utf8

  const SCHEME := "spiffe://"
  const MAX_ID_BYTES := 2048
  const MAX_TRUST_DOMAIN_BYTES := 255

  predicate IsLower(c: char) { 'a' <= c <= 'z' }

  predicate IsUpper(c: char) { 'A' <= c <= 'Z' }

  predicate IsNumeral(c: char) { '0' <= c <= '9' }

  /** `[a-z0-9._-]` */
  predicate InTrustDomain(c: char) { IsLower(c) || IsNumeral(c) || c in "._-" }

  /** `[A-Za-z0-9_-]` */
  predicate InWord(c: char) { IsLower(c) || IsUpper(c) || IsNumeral(c) || c in "_-" }

  /** `[A-Za-z0-9._-]` */
  predicate InSegment(c: char) { InWord(c) || c == '.' }

  predicate IsDot(c: char) { c == '.' }

  predicate All(s: string, chars: char -> bool) { forall c <- s :: chars(c) }

  // ----- the parser -----

  predicate SegmentOk(segment: string) {
    segment != "" && segment != "." && segment != ".." && All(segment, InSegment)
  }

  /** `parse_spiffe_id` on a string: the trust domain and the path, or its `IDENTITY_FAILED`. */
  function ParseSpiffeId(value: string): Option<(string, string)> {
    if |Utf8.Encode(value)| > MAX_ID_BYTES || !(SCHEME <= value) then None
    else
      var rest := value[|SCHEME|..];
      var slash := IndexOf(rest, '/');
      var trustDomain := rest[..slash];
      if |trustDomain| > MAX_TRUST_DOMAIN_BYTES || trustDomain == "" || !All(trustDomain, InTrustDomain) then None
      else if slash == |rest| then None
      else
        var path := rest[slash + 1..];
        if forall segment <- Split(path, '/') :: SegmentOk(segment) then Some((trustDomain, "/" + path)) else None
  }

  /** What was parsed, joined again, is the input. */
  lemma Rejoin(value: string)
    requires ParseSpiffeId(value).Some?
    ensures var (trustDomain, path) := ParseSpiffeId(value).value;
            SCHEME + trustDomain + path == value
  {
    var rest := value[|SCHEME|..];
    var slash := IndexOf(rest, '/');
    GlueTail(value, |SCHEME|);
    GlueAt(rest, slash);
    Assoc(rest[..slash], "/", rest[slash + 1..]);
    Assoc(SCHEME, rest[..slash], "/" + rest[slash + 1..]);
    hide Utf8.Encode, All;
  }

  // ----- patterns -----

  datatype Pattern =
    | Text(text: string)
    | OneOf(chars: char -> bool)
    | Then(first: Pattern, second: Pattern)
    | Or(left: Pattern, right: Pattern)
    | Repeat(body: Pattern, least: nat, most: Option<nat>)

  /** `fullmatch`. */
  ghost predicate Matches(p: Pattern, s: string)
    decreases p
  {
    match p
    case Text(text) => s == text
    case OneOf(chars) => |s| == 1 && chars(s[0])
    case Then(first, second) => exists i | 0 <= i <= |s| :: Matches(first, s[..i]) && Matches(second, s[i..])
    case Or(left, right) => Matches(left, s) || Matches(right, s)
    case Repeat(body, least, most) =>
      exists parts: seq<string> ::
        && Concat(parts) == s && least <= |parts| && (most.Some? ==> |parts| <= most.value)
        && forall part <- parts :: Matches(body, part)
  }

  function Any(chars: char -> bool): Pattern { Repeat(OneOf(chars), 0, None) }

  /** A bracket expression: the ranges it lists. */
  predicate InRanges(c: char, ranges: seq<(char, char)>) {
    exists r <- ranges :: r.0 <= c <= r.1
  }

  function Bracket(ranges: seq<(char, char)>): char -> bool {
    (c: char) => InRanges(c, ranges)
  }

  /** `[a-z0-9._-]` */
  function DomainChars(): char -> bool {
    Bracket([('a', 'z'), ('0', '9'), ('.', '.'), ('_', '_'), ('-', '-')])
  }

  /** `[A-Za-z0-9_-]` */
  function WordChars(): char -> bool {
    Bracket([('A', 'Z'), ('a', 'z'), ('0', '9'), ('_', '_'), ('-', '-')])
  }

  /** `[A-Za-z0-9._-]` */
  function SegmentChars(): char -> bool {
    Bracket([('A', 'Z'), ('a', 'z'), ('0', '9'), ('.', '.'), ('_', '_'), ('-', '-')])
  }

  /** `\.` */
  function DotChars(): char -> bool { Bracket([('.', '.')]) }

  lemma InFive(c: char, a: (char, char), b: (char, char), d: (char, char), e: (char, char), f: (char, char))
    ensures InRanges(c, [a, b, d, e, f]) <==>
            a.0 <= c <= a.1 || b.0 <= c <= b.1 || d.0 <= c <= d.1 || e.0 <= c <= e.1 || f.0 <= c <= f.1
  {
    var rs := [a, b, d, e, f];
    assert rs[0] in rs && rs[1] in rs && rs[2] in rs && rs[3] in rs && rs[4] in rs;
  }

  lemma InSix(c: char, first: (char, char), rest: seq<(char, char)>)
    ensures InRanges(c, [first] + rest) <==> first.0 <= c <= first.1 || InRanges(c, rest)
  {
    assert ([first] + rest)[0] in [first] + rest;
  }

  /** The brackets of the pattern are the character classes of the parser. */
  lemma Classes(c: char)
    ensures DomainChars()(c) == InTrustDomain(c) && WordChars()(c) == InWord(c)
    ensures SegmentChars()(c) == InSegment(c) && DotChars()(c) == (c == '.')
  {
    hide InRanges;
    InFive(c, ('a', 'z'), ('0', '9'), ('.', '.'), ('_', '_'), ('-', '-'));
    InFive(c, ('A', 'Z'), ('a', 'z'), ('0', '9'), ('_', '_'), ('-', '-'));
    InFive(c, ('a', 'z'), ('0', '9'), ('.', '.'), ('_', '_'), ('-', '-'));
    InSix(c, ('A', 'Z'), [('a', 'z'), ('0', '9'), ('.', '.'), ('_', '_'), ('-', '-')]);
    assert [('A', 'Z')] + [('a', 'z'), ('0', '9'), ('.', '.'), ('_', '_'), ('-', '-')]
        == [('A', 'Z'), ('a', 'z'), ('0', '9'), ('.', '.'), ('_', '_'), ('-', '-')];
    OneRange(c, '.');
  }

  lemma OneRange(c: char, d: char)
    ensures InRanges(c, [(d, d)]) <==> c == d
  {
    assert [(d, d)][0] in [(d, d)];
  }

  lemma AllClasses(s: string)
    ensures All(s, DomainChars()) == All(s, InTrustDomain) && All(s, SegmentChars()) == All(s, InSegment)
    ensures All(s, DotChars()) == All(s, IsDot)
  {
    hide DomainChars, WordChars, SegmentChars, DotChars, InTrustDomain, InWord, InSegment;
    forall c: char ensures
      && DomainChars()(c) == InTrustDomain(c) && SegmentChars()(c) == InSegment(c) && DotChars()(c) == (c == '.')
    {
      Classes(c);
    }
  }

  /** `[A-Za-z0-9._-]*[A-Za-z0-9_-][A-Za-z0-9._-]*|\.{3,}` */
  function SegmentPattern(): Pattern {
    Or(Then(Any(SegmentChars()), Then(OneOf(WordChars()), Any(SegmentChars()))), Repeat(OneOf(DotChars()), 3, None))
  }

  /** `(/segment)+` */
  function PathPattern(): Pattern { Repeat(Then(Text("/"), SegmentPattern()), 1, None) }

  function TrustDomainPattern(): Pattern { Repeat(OneOf(DomainChars()), 1, Some(255)) }

  /** `_SPIFFE_HINT_SUBJECT`. */
  function HintPattern(): Pattern { Then(Text(SCHEME), Then(TrustDomainPattern(), PathPattern())) }

  /** The `spiffe` branch of `_validate_identity_hint`. */
  ghost predicate HintAccepted(subject: string) {
    |subject| <= 2048 && Matches(HintPattern(), subject)
  }

  // ----- one language -----

  function Singles(s: string): (parts: seq<string>)
    ensures |parts| == |s| && forall i | 0 <= i < |s| :: parts[i] == [s[i]]
  {
    seq(|s|, i requires 0 <= i < |s| => [s[i]])
  }

  lemma {:induction false} ConcatSingles(parts: seq<string>)
    requires forall part <- parts :: |part| == 1
    ensures |Concat(parts)| == |parts| && forall i | 0 <= i < |parts| :: Concat(parts)[i] == parts[i][0]
  {
    if parts != [] {
      assert parts[0] in parts;
      ConcatSingles(parts[1..]);
      forall i | 0 <= i < |parts| ensures Concat(parts)[i] == parts[i][0] {
        if i > 0 {
          assert Concat(parts)[i] == Concat(parts[1..])[i - 1] && parts[i] == parts[1..][i - 1];
        }
      }
    }
  }

  lemma ClassOfParts(chars: char -> bool, parts: seq<string>)
    requires forall part <- parts :: Matches(OneOf(chars), part)
    ensures |Concat(parts)| == |parts| && All(Concat(parts), chars)
  {
    forall part | part in parts ensures |part| == 1 && chars(part[0]) {
      OneOfMatches(chars, part);
    }
    hide Matches;
    ConcatSingles(parts);
    var s := Concat(parts);
    forall c | c in s ensures chars(c) {
      var i :| 0 <= i < |s| && s[i] == c;
      assert parts[i] in parts;
    }
  }

  lemma SinglesMatch(chars: char -> bool, s: string)
    requires All(s, chars)
    ensures Concat(Singles(s)) == s && forall part <- Singles(s) :: Matches(OneOf(chars), part)
  {
    hide Matches;
    var parts := Singles(s);
    ConcatSingles(parts);
    forall part | part in parts ensures Matches(OneOf(chars), part) {
      var i :| 0 <= i < |parts| && parts[i] == part;
      assert s[i] in s;
      OneOfMatches(chars, part);
    }
  }

  /** A repeated character class is a bound on the length and a class for every character. */
  lemma RepeatedClass(chars: char -> bool, least: nat, most: Option<nat>, s: string)
    ensures Matches(Repeat(OneOf(chars), least, most), s)
            <==> All(s, chars) && least <= |s| && (most.Some? ==> |s| <= most.value)
  {
    hide All;
    if Matches(Repeat(OneOf(chars), least, most), s) {
      var parts: seq<string> :|
        && Concat(parts) == s && least <= |parts| && (most.Some? ==> |parts| <= most.value)
        && forall part <- parts :: Matches(OneOf(chars), part);
      ClassOfParts(chars, parts);
    }
    if All(s, chars) && least <= |s| && (most.Some? ==> |s| <= most.value) {
      SinglesMatch(chars, s);
    }
  }

  lemma ThenAt(first: Pattern, second: Pattern, s: string, i: nat)
    requires i <= |s| && Matches(first, s[..i]) && Matches(second, s[i..])
    ensures Matches(Then(first, second), s)
  {
  }

  lemma TextMatches(text: string, s: string)
    ensures Matches(Text(text), s) <==> s == text
  {
  }

  lemma OrMatches(left: Pattern, right: Pattern, s: string)
    ensures Matches(Or(left, right), s) <==> Matches(left, s) || Matches(right, s)
  {
  }

  lemma ThenCut(first: Pattern, second: Pattern, s: string) returns (i: nat)
    requires Matches(Then(first, second), s)
    ensures i <= |s| && Matches(first, s[..i]) && Matches(second, s[i..])
  {
    i :| 0 <= i <= |s| && Matches(first, s[..i]) && Matches(second, s[i..]);
  }

  lemma OneWord(s: string, i: nat)
    requires i < |s| && InWord(s[i]) && All(s, InSegment)
    ensures Matches(Then(Any(SegmentChars()), Then(OneOf(WordChars()), Any(SegmentChars()))), s)
  {
    hide SegmentChars, WordChars;
    var t := s[i..];
    AllClasses(s[..i]);
    AllClasses(t[1..]);
    Classes(s[i]);
    RepeatedClass(SegmentChars(), 0, None, s[..i]);
    RepeatedClass(SegmentChars(), 0, None, t[1..]);
    OneOfMatches(WordChars(), t[..1]);
    assert t[..1] == [s[i]];
    assert forall c :: c in t[1..] ==> c in s;
    ThenAt(OneOf(WordChars()), Any(SegmentChars()), t, 1);
    ThenAt(Any(SegmentChars()), Then(OneOf(WordChars()), Any(SegmentChars())), s, i);
  }

  lemma AroundWord(s: string, i: nat)
    requires i < |s| && All(s[..i], InSegment) && InWord(s[i]) && All(s[i + 1..], InSegment)
    ensures All(s, InSegment)
  {
    hide InWord;
    forall c | c in s ensures InSegment(c) {
      var j :| 0 <= j < |s| && s[j] == c;
      assert j < i ==> s[..i][j] == c;
      assert j > i ==> s[i + 1..][j - i - 1] == c;
    }
  }

  lemma WordInside(s: string)
    requires Matches(Then(Any(SegmentChars()), Then(OneOf(WordChars()), Any(SegmentChars()))), s)
    ensures All(s, InSegment) && exists i | 0 <= i < |s| :: InWord(s[i])
  {
    hide Matches, SegmentChars, WordChars, All, InWord;
    var i := ThenCut(Any(SegmentChars()), Then(OneOf(WordChars()), Any(SegmentChars())), s);
    var t := s[i..];
    var k := ThenCut(OneOf(WordChars()), Any(SegmentChars()), t);
    RepeatedClass(SegmentChars(), 0, None, s[..i]);
    RepeatedClass(SegmentChars(), 0, None, t[k..]);
    AllClasses(s[..i]);
    AllClasses(t[k..]);
    Classes(t[..k][0]);
    OneOfMatches(WordChars(), t[..k]);
    assert t[..k][0] == s[i] && t[k..] == s[i + 1..];
    AroundWord(s, i);
  }

  lemma OneOfMatches(chars: char -> bool, s: string)
    ensures Matches(OneOf(chars), s) <==> |s| == 1 && chars(s[0])
  {
  }

  lemma DotsInSegment(s: string)
    ensures All(s, IsDot) ==> All(s, InSegment)
  {
  }

  lemma HasWord(s: string)
    requires exists i | 0 <= i < |s| :: InWord(s[i])
    ensures s != "" && s != "." && s != ".."
  {
  }

  /** The pattern's two alternatives are the parser's segments; three dots or more are one of them. */
  lemma SegmentMeaning(s: string)
    ensures Matches(SegmentPattern(), s) <==> SegmentOk(s)
  {
    hide Matches, Any, All, SegmentChars, WordChars, DotChars;
    AllClasses(s);
    var word := Then(Any(SegmentChars()), Then(OneOf(WordChars()), Any(SegmentChars())));
    RepeatedClass(DotChars(), 3, None, s);
    OrMatches(word, Repeat(OneOf(DotChars()), 3, None), s);
    DotsInSegment(s);
    if Matches(word, s) {
      WordInside(s);
      HasWord(s);
    }
    if SegmentOk(s) {
      if i :| 0 <= i < |s| && InWord(s[i]) {
        OneWord(s, i);
      } else {
        AllDots(s);
      }
    }
  }

  lemma AllDots(s: string)
    requires All(s, InSegment) && forall i | 0 <= i < |s| :: !InWord(s[i])
    ensures All(s, IsDot)
    ensures s == "" || s == "." || s == ".." || |s| >= 3
  {
    forall i | 0 <= i < |s| ensures s[i] == '.' {
      assert s[i] in s;
    }
    assert |s| == 1 ==> s == [s[0]];
    assert |s| == 2 ==> s == [s[0], s[1]];
  }

  /** The pieces of a path, each with its slash in front. */
  function Slashed(segments: seq<string>): (parts: seq<string>)
    ensures |parts| == |segments|
  {
    seq(|segments|, i requires 0 <= i < |segments| => "/" + segments[i])
  }

  lemma {:induction false} ConcatSlashed(segments: seq<string>)
    requires segments != []
    ensures Concat(Slashed(segments)) == "/" + Join(segments, '/')
  {
    var parts := Slashed(segments);
    if |segments| == 1 {
      assert parts == [parts[0]] && Concat(parts) == parts[0] + Concat(parts[1..]);
    } else {
      ConcatSlashed(segments[1..]);
      assert parts[1..] == Slashed(segments[1..]);
    }
  }

  lemma SlashedPart(part: string)
    ensures Matches(Then(Text("/"), SegmentPattern()), part)
            <==> part != "" && part[0] == '/' && SegmentOk(part[1..])
  {
    hide Matches, SegmentPattern, SegmentOk;
    if Matches(Then(Text("/"), SegmentPattern()), part) {
      var i := ThenCut(Text("/"), SegmentPattern(), part);
      TextMatches("/", part[..i]);
      assert |part[..i]| == 1 && part[..i][0] == part[0];
      SegmentMeaning(part[1..]);
    }
    if part != "" && part[0] == '/' && SegmentOk(part[1..]) {
      assert part[..1] == "/";
      TextMatches("/", part[..1]);
      SegmentMeaning(part[1..]);
      ThenAt(Text("/"), SegmentPattern(), part, 1);
    }
  }

  lemma SegmentNoSlash(segment: string)
    requires SegmentOk(segment)
    ensures '/' !in segment
  {
  }

  /** A path matches when it starts with a slash and its split is valid segments. */
  lemma PathMeaning(s: string)
    ensures Matches(PathPattern(), s)
            <==> s != "" && s[0] == '/' && forall segment <- Split(s[1..], '/') :: SegmentOk(segment)
  {
    hide SegmentOk, SegmentPattern, Matches;
    var body := Then(Text("/"), SegmentPattern());
    if Matches(PathPattern(), s) {
      var parts := RepeatParts(body, 1, s);
      PathSplits(parts);
    }
    if s != "" && s[0] == '/' && forall segment <- Split(s[1..], '/') :: SegmentOk(segment) {
      var segments := Split(s[1..], '/');
      var parts := Slashed(segments);
      ConcatSlashed(segments);
      JoinSplit(s[1..], '/');
      assert s == "/" + s[1..];
      forall part | part in parts ensures Matches(body, part) {
        var i :| 0 <= i < |parts| && parts[i] == part;
        assert segments[i] in segments && part[1..] == segments[i];
        SlashedPart(part);
      }
      RepeatMatches(body, 1, parts);
    }
  }

  lemma RepeatParts(body: Pattern, least: nat, s: string) returns (parts: seq<string>)
    requires Matches(Repeat(body, least, None), s)
    ensures Concat(parts) == s && least <= |parts| && forall part <- parts :: Matches(body, part)
  {
    parts :| Concat(parts) == s && least <= |parts| && forall part <- parts :: Matches(body, part);
  }

  lemma RepeatMatches(body: Pattern, least: nat, parts: seq<string>)
    requires least <= |parts| && forall part <- parts :: Matches(body, part)
    ensures Matches(Repeat(body, least, None), Concat(parts))
  {
  }

  lemma Tails(parts: seq<string>) returns (segments: seq<string>)
    requires forall part <- parts :: part != "" && part[0] == '/' && SegmentOk(part[1..])
    ensures Slashed(segments) == parts && forall segment <- segments :: SegmentOk(segment)
  {
    hide SegmentOk;
    segments := seq(|parts|, i requires 0 <= i < |parts| => TailOf(parts[i]));
    forall i | 0 <= i < |parts| ensures Slashed(segments)[i] == parts[i] && SegmentOk(segments[i]) {
      assert parts[i] in parts;
      assert parts[i] == "/" + parts[i][1..];
    }
  }

  lemma PathSplits(parts: seq<string>)
    requires 1 <= |parts| && forall part <- parts :: Matches(Then(Text("/"), SegmentPattern()), part)
    ensures var s := Concat(parts);
            s != "" && s[0] == '/' && forall segment <- Split(s[1..], '/') :: SegmentOk(segment)
  {
    hide SegmentOk, SegmentPattern, Matches;
    forall part | part in parts ensures part != "" && part[0] == '/' && SegmentOk(part[1..]) {
      SlashedPart(part);
    }
    var segments := Tails(parts);
    ConcatSlashed(segments);
    forall segment | segment in segments ensures '/' !in segment {
      SegmentNoSlash(segment);
    }
    SplitJoin(segments, '/');
    assert ("/" + Join(segments, '/'))[1..] == Join(segments, '/');
  }

  function TailOf(part: string): string { if part == "" then "" else part[1..] }

  /** A text cut into scheme, trust domain and path. */
  ghost predicate Shape(trustDomain: string, path: string) {
    && 1 <= |trustDomain| <= MAX_TRUST_DOMAIN_BYTES && All(trustDomain, InTrustDomain)
    && path != "" && path[0] == '/' && forall segment <- Split(path[1..], '/') :: SegmentOk(segment)
  }

  lemma ShapeIsAscii(trustDomain: string, path: string)
    requires Shape(trustDomain, path)
    ensures '/' !in trustDomain && Utf8.IsAscii(SCHEME + trustDomain + path)
  {
    var segments := Split(path[1..], '/');
    JoinSplit(path[1..], '/');
    JoinAscii(segments);
    assert path == "/" + path[1..];
    forall c | c in SCHEME + trustDomain + path ensures c as int < 128 {
      assert c in SCHEME || c in trustDomain || c == '/' || c in path[1..];
    }
  }

  lemma {:induction false} JoinAscii(segments: seq<string>)
    requires segments != [] && forall segment <- segments :: SegmentOk(segment)
    ensures Utf8.IsAscii(Join(segments, '/'))
  {
    assert segments[0] in segments;
    if |segments| > 1 {
      JoinAscii(segments[1..]);
    }
  }

  lemma ParserShape(s: string)
    ensures ParseSpiffeId(s).Some? <==>
            exists td, path :: s == SCHEME + td + path && Shape(td, path) && |s| <= MAX_ID_BYTES
  {
    hide Utf8.Encode, SegmentOk, All;
    Utf8.EncodeAscii(s);
    if ParseSpiffeId(s).Some? {
      Rejoin(s);
      var (td, path) := ParseSpiffeId(s).value;
      assert path[1..] == s[|SCHEME|..][|td| + 1..];
      assert Shape(td, path);
    }
    if td, path :| s == SCHEME + td + path && Shape(td, path) && |s| <= MAX_ID_BYTES {
      ShapeIsAscii(td, path);
      ShapeParses(s, td, path);
    }
  }

  lemma ShapeParses(s: string, td: string, path: string)
    requires s == SCHEME + td + path && Shape(td, path) && '/' !in td
    requires |Utf8.Encode(s)| <= MAX_ID_BYTES
    ensures ParseSpiffeId(s) == Some((td, path))
  {
    hide Utf8.Encode, SegmentOk, All;
    var tail := path[1..];
    assert path == ['/'] + tail;
    assert s[|SCHEME|..] == td + ['/'] + tail;
    IndexOfAfter(td, '/', tail);
    CutAt(td, '/', tail);
  }

  lemma PatternShape(s: string)
    ensures Matches(HintPattern(), s) <==> exists td, path :: s == SCHEME + td + path && Shape(td, path)
  {
    hide SegmentOk, PathPattern, TrustDomainPattern, All, Matches, Shape;
    var tail := Then(TrustDomainPattern(), PathPattern());
    if Matches(HintPattern(), s) {
      var i := ThenCut(Text(SCHEME), tail, s);
      var k := ThenCut(TrustDomainPattern(), PathPattern(), s[i..]);
      TextMatches(SCHEME, s[..i]);
      var td, path := s[i..][..k], s[i..][k..];
      ShapeMatches(td, path);
      GlueTail(s, i);
      GlueTail(s[i..], k);
      Assoc(SCHEME, td, path);
    }
    if td, path :| s == SCHEME + td + path && Shape(td, path) {
      ShapeMatches(td, path);
      CutTail(td, path);
      CutTail(SCHEME, td + path);
      Assoc(SCHEME, td, path);
      TextMatches(SCHEME, SCHEME);
      ThenAt(TrustDomainPattern(), PathPattern(), td + path, |td|);
      ThenAt(Text(SCHEME), tail, s, |SCHEME|);
    }
  }

  lemma ShapeMatches(td: string, path: string)
    ensures Shape(td, path) <==> Matches(TrustDomainPattern(), td) && Matches(PathPattern(), path)
  {
    AllClasses(td);
    RepeatedClass(DomainChars(), 1, Some(255), td);
    PathMeaning(path);
    hide Matches, SegmentOk, All;
  }

  /** The parser and the manifest's pattern accept exactly the same strings. */
  lemma OneLanguage(s: string)
    ensures ParseSpiffeId(s).Some? <==> HintAccepted(s)
  {
    ParserShape(s);
    PatternShape(s);
    hide ParseSpiffeId, Matches, Shape;
  }

  /** A segment of dots alone is a name from three dots on, in both grammars. */
  lemma DotsOnly(n: nat)
    ensures var dots: string := seq(n, i => '.');
            && (SegmentOk(dots) <==> n >= 3)
            && (Matches(SegmentPattern(), dots) <==> n >= 3)
  {
    var dots: string := seq(n, i => '.');
    SegmentMeaning(dots);
  }
}
