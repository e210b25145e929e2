/** The member-name order of section 3.2.3 of RFC 8785, computed as `jcs.py` computes it. */
module KeyOrder {
  import opened Bytes

  // ----- UTF-16 -----

  type unit = u: int | 0 <= u < 0x10000

  function CharUnits(c: char): (u: seq<unit>)
    ensures |u| == 1 || |u| == 2
  {
    var n := c as int;
    if n < 0x10000 then [n]
    else [0xD800 + (n - 0x10000) / 1024, 0xDC00 + (n - 0x10000) % 1024]
  }

  function Utf16(s: string): seq<unit> {
    if s == [] then [] else CharUnits(s[0]) + Utf16(s[1..])
  }

  function BigEndian(u: seq<unit>): bytes {
    if u == [] then [] else [u[0] / 256, u[0] % 256] + BigEndian(u[1..])
  }

  /** `k.encode("utf-16-be")`. */
  function Utf16Be(s: string): bytes {
    BigEndian(Utf16(s))
  }

  lemma {:induction false} Utf16Injective(a: string, b: string)
    requires Utf16(a) == Utf16(b)
    ensures a == b
  {
    if a != [] && b != [] {
      assert Utf16(a)[0] == CharUnits(a[0])[0] && Utf16(b)[0] == CharUnits(b[0])[0];
      assert |CharUnits(a[0])| == 2 <==> 0xD800 <= Utf16(a)[0] < 0xDC00;
      assert |CharUnits(b[0])| == 2 <==> 0xD800 <= Utf16(b)[0] < 0xDC00;
      var n := |CharUnits(a[0])|;
      assert Utf16(a)[..n] == CharUnits(a[0]) && Utf16(b)[..n] == CharUnits(b[0]);
      assert Utf16(a)[n..] == Utf16(a[1..]) && Utf16(b)[n..] == Utf16(b[1..]);
      Utf16Injective(a[1..], b[1..]);
      assert a == [a[0]] + a[1..] && b == [b[0]] + b[1..];
    }
  }

  // ----- lexicographic order -----

  predicate LexLess(a: seq<int>, b: seq<int>) {
    if a == [] || b == [] then a == [] && b != []
    else if a[0] != b[0] then a[0] < b[0]
    else LexLess(a[1..], b[1..])
  }

  lemma {:induction false} LexTotal(a: seq<int>, b: seq<int>)
    ensures LexLess(a, b) || a == b || LexLess(b, a)
    ensures !LexLess(a, a)
    ensures !(LexLess(a, b) && LexLess(b, a))
  {
    if a != [] {
      LexTotal(a[1..], if b == [] then [] else b[1..]);
      assert a == [a[0]] + a[1..];
    }
    if b != [] {
      assert b == [b[0]] + b[1..];
    }
  }

  lemma {:induction false} LexTransitive(a: seq<int>, b: seq<int>, c: seq<int>)
    requires LexLess(a, b) && LexLess(b, c)
    ensures LexLess(a, c)
  {
    if a != [] && b != [] && c != [] && a[0] == b[0] == c[0] {
      LexTransitive(a[1..], b[1..], c[1..]);
    }
  }

  /** Comparing big-endian bytes is comparing code units, which is the order the RFC asks for. */
  lemma {:induction false} ByteOrderIsUnitOrder(a: seq<unit>, b: seq<unit>)
    ensures LexLess(BigEndian(a), BigEndian(b)) <==> LexLess(a, b)
  {
    if a != [] && b != [] {
      ByteOrderIsUnitOrder(a[1..], b[1..]);
      var x, y := BigEndian(a), BigEndian(b);
      assert x[1..][1..] == BigEndian(a[1..]) && y[1..][1..] == BigEndian(b[1..]);
      assert x[1..][0] == a[0] % 256 && y[1..][0] == b[0] % 256;
    }
  }

  /** The sort key comparison of `jcs.py`. */
  predicate KeyLess(a: string, b: string) {
    LexLess(Utf16Be(a), Utf16Be(b))
  }

  lemma {:induction false} BigEndianInjective(a: seq<unit>, b: seq<unit>)
    requires BigEndian(a) == BigEndian(b)
    ensures a == b
  {
    if a != [] && b != [] {
      var x, y := BigEndian(a), BigEndian(b);
      assert x[0] == y[0] && x[1] == y[1];
      assert x[2..] == BigEndian(a[1..]) && y[2..] == BigEndian(b[1..]);
      BigEndianInjective(a[1..], b[1..]);
      assert a == [a[0]] + a[1..] && b == [b[0]] + b[1..];
    }
  }

  /** `KeyLess` is a strict total order on member names: two names never tie. */
  lemma KeyOrderTotal(a: string, b: string)
    ensures KeyLess(a, b) || a == b || KeyLess(b, a)
    ensures !KeyLess(a, a)
    ensures !(KeyLess(a, b) && KeyLess(b, a))
    ensures KeyLess(a, b) <==> LexLess(Utf16(a), Utf16(b))
  {
    LexTotal(Utf16Be(a), Utf16Be(b));
    LexTotal(Utf16Be(a), Utf16Be(a));
    ByteOrderIsUnitOrder(Utf16(a), Utf16(b));
    if Utf16Be(a) == Utf16Be(b) {
      BigEndianInjective(Utf16(a), Utf16(b));
      Utf16Injective(a, b);
    }
  }

  function PairCode(high: int, low: int): int {
    0x10000 + (high - 0xD800) * 1024 + (low - 0xDC00)
  }

  /** UTF-16 itself: one unit for a character of the basic plane, a surrogate pair for any other. */
  lemma CharUnitsMeaning(c: char)
    ensures c as int < 0x10000 ==> CharUnits(c) == [c as int]
    ensures c as int >= 0x10000 ==>
              && |CharUnits(c)| == 2
              && 0xD800 <= CharUnits(c)[0] < 0xDC00 <= CharUnits(c)[1] < 0xE000
              && PairCode(CharUnits(c)[0], CharUnits(c)[1]) == c as int
  {
  }

  lemma {:induction false} Utf16Concat(a: string, b: string)
    ensures Utf16(a + b) == Utf16(a) + Utf16(b)
    ensures forall c: char :: Utf16([c]) == CharUnits(c)
  {
    hide CharUnits;
    forall c: char ensures Utf16([c]) == CharUnits(c) {
      assert [c][1..] == [] && Utf16([]) == [];
      assert CharUnits(c) + [] == CharUnits(c);
    }
    if a == "" {
      assert a + b == b;
    } else {
      Utf16Concat(a[1..], b);
      assert (a + b)[0] == a[0] && (a + b)[1..] == a[1..] + b;
    }
  }

  /** The units agree up to `i` and the first is smaller there. */
  predicate SmallerAt(a: seq<int>, b: seq<int>, i: nat) {
    i < |a| && i < |b| && a[..i] == b[..i] && a[i] < b[i]
  }

  lemma SmallerStep(a: seq<int>, b: seq<int>)
    requires a != [] && b != [] && a[0] == b[0]
    ensures a < b <==> a[1..] < b[1..]
    ensures (exists i: nat :: SmallerAt(a, b, i)) <==> (exists i: nat :: SmallerAt(a[1..], b[1..], i))
  {
    if i: nat :| SmallerAt(a, b, i) {
      assert a[1..][..i - 1] == a[..i][1..] && b[1..][..i - 1] == b[..i][1..];
      assert SmallerAt(a[1..], b[1..], i - 1);
    }
    if i: nat :| SmallerAt(a[1..], b[1..], i) {
      assert a[..i + 1] == [a[0]] + a[1..][..i] && b[..i + 1] == [b[0]] + b[1..][..i];
      assert SmallerAt(a, b, i + 1);
    }
  }

  lemma FirstUnits(a: seq<int>, b: seq<int>, i: nat)
    requires SmallerAt(a, b, i)
    ensures i > 0 ==> a[0] == b[0]
  {
    if i > 0 {
      assert a[..i][0] == b[..i][0];
    }
  }

  lemma {:induction false} LexMeaning(a: seq<int>, b: seq<int>)
    ensures LexLess(a, b) <==> a < b || exists i: nat :: SmallerAt(a, b, i)
  {
    if a != [] && b != [] {
      if a[0] == b[0] {
        SmallerStep(a, b);
        LexMeaning(a[1..], b[1..]);
      } else {
        assert SmallerAt(a, b, 0) <==> a[0] < b[0];
        forall i: nat | SmallerAt(a, b, i) ensures i == 0 {
          FirstUnits(a, b, i);
        }
      }
    }
  }

  /**
   * A name comes before another exactly when its UTF-16 units are a proper prefix of the other's, or
   * the two agree up to some unit and its own is the smaller there. Names ascend in this order.
   */
  lemma KeyLessMeaning(a: string, b: string)
    ensures KeyLess(a, b) <==>
            Utf16(a) < Utf16(b) || exists i: nat :: SmallerAt(Utf16(a), Utf16(b), i)
  {
    KeyOrderTotal(a, b);
    LexMeaning(Utf16(a), Utf16(b));
    hide KeyLess, LexLess, Utf16;
  }

  // ----- sorted member names -----

  ghost predicate StrictlySorted(ks: seq<string>) {
    forall i, j | 0 <= i < j < |ks| :: KeyLess(ks[i], ks[j])
  }

  function Elements<T>(s: seq<T>): set<T> { set x | x in s }

  /** `k` put into sorted `ks`, before the first larger name. */
  function Insert(ks: seq<string>, k: string): (r: seq<string>)
    ensures forall x :: x in r <==> x == k || x in ks
  {
    if ks == [] || KeyLess(k, ks[0]) then [k] + ks
    else [ks[0]] + Insert(ks[1..], k)
  }

  lemma {:induction false} InsertSorted(ks: seq<string>, k: string)
    requires StrictlySorted(ks) && k !in ks
    ensures StrictlySorted(Insert(ks, k))
    ensures Elements(Insert(ks, k)) == Elements(ks) + {k}
  {
    hide KeyLess;
    if ks != [] {
      KeyOrderTotal(k, ks[0]);
      if KeyLess(k, ks[0]) {
        forall j | 0 < j < |ks| ensures KeyLess(k, ks[j]) {
          KeyLessTransitive(k, ks[0], ks[j]);
        }
      } else {
        InsertSorted(ks[1..], k);
        var rest := Insert(ks[1..], k);
        forall j | 0 <= j < |rest| ensures KeyLess(ks[0], rest[j]) {
          assert rest[j] in Elements(rest);
        }
        assert ks == [ks[0]] + ks[1..];
        assert Elements([ks[0]] + rest) == {ks[0]} + Elements(rest);
      }
    }
  }

  /** A set of names has one strictly sorted listing. */
  lemma {:induction false} SortedUnique(a: seq<string>, b: seq<string>)
    requires StrictlySorted(a) && StrictlySorted(b) && Elements(a) == Elements(b)
    ensures a == b
  {
    assert Elements(a) == {} <==> a == [] by { assert a != [] ==> a[0] in Elements(a); }
    assert Elements(b) == {} <==> b == [] by { assert b != [] ==> b[0] in Elements(b); }
    if a != [] {
      assert a[0] in Elements(b) && b[0] in Elements(a);
      FirstIsLeast(a, b[0]);
      FirstIsLeast(b, a[0]);
      KeyOrderTotal(a[0], b[0]);
      TailElements(a);
      TailElements(b);
      SortedUnique(a[1..], b[1..]);
      assert a == [a[0]] + a[1..] && b == [b[0]] + b[1..];
    }
  }

  lemma FirstIsLeast(a: seq<string>, k: string)
    requires StrictlySorted(a) && k in a
    ensures k == a[0] || KeyLess(a[0], k)
  {
  }

  lemma TailElements(a: seq<string>)
    requires a != [] && StrictlySorted(a)
    ensures Elements(a[1..]) == Elements(a) - {a[0]}
  {
    KeyOrderTotal(a[0], a[0]);
    assert a == [a[0]] + a[1..];
    assert a[0] !in a[1..];
  }

  predicate IsLeast(names: set<string>, k: string) {
    k in names && forall x <- names :: x == k || KeyLess(k, x)
  }

  lemma {:induction false} LeastExists(names: set<string>) returns (least: string)
    requires names != {}
    ensures IsLeast(names, least)
  {
    hide KeyLess;
    var k :| k in names;
    if names == {k} {
      return k;
    }
    least := LeastExists(names - {k});
    KeyOrderTotal(k, least);
    if KeyLess(k, least) {
      forall x <- names ensures x == k || KeyLess(k, x) {
        if x != k && x != least {
          KeyLessTransitive(k, least, x);
        }
      }
      least := k;
    }
  }

  lemma KeyLessTransitive(a: string, b: string, c: string)
    requires KeyLess(a, b) && KeyLess(b, c)
    ensures KeyLess(a, c)
  {
    LexTransitive(Utf16Be(a), Utf16Be(b), Utf16Be(c));
  }

  lemma LeastUnique(names: set<string>)
    requires names != {}
    ensures exists k :: IsLeast(names, k)
    ensures forall k, l :: IsLeast(names, k) && IsLeast(names, l) ==> k == l
  {
    hide KeyLess;
    var least := LeastExists(names);
    forall k, l | IsLeast(names, k) && IsLeast(names, l) ensures k == l {
      KeyOrderTotal(k, l);
    }
  }

  /** `sorted(names, key=...)`: the names, least first. */
  function SortedKeys(names: set<string>): (ks: seq<string>)
    ensures forall k :: k in ks <==> k in names
  {
    if names == {} then []
    else
      LeastUnique(names);
      var k :| IsLeast(names, k);
      [k] + SortedKeys(names - {k})
  }

  lemma {:induction false} SortedKeysSorted(names: set<string>)
    ensures StrictlySorted(SortedKeys(names)) && Elements(SortedKeys(names)) == names
  {
    hide KeyLess;
    if names != {} {
      LeastUnique(names);
      var k :| IsLeast(names, k);
      var rest := SortedKeys(names - {k});
      SortedKeysSorted(names - {k});
      assert SortedKeys(names) == [k] + rest;
      forall j | 0 <= j < |rest| ensures KeyLess(k, rest[j]) {
        assert rest[j] in rest;
      }
    }
  }

  /** The sort, step by step: names are put in one at a time, in any order. */
  method SortKeys(names: set<string>) returns (ks: seq<string>)
    ensures ks == SortedKeys(names)
  {
    ks := [];
    var left := names;
    while left != {}
      invariant left <= names
      invariant StrictlySorted(ks) && Elements(ks) == names - left
      decreases left
    {
      var k :| k in left;
      assert k !in ks by { assert k !in Elements(ks); }
      InsertSorted(ks, k);
      ks := Insert(ks, k);
      left := left - {k};
    }
    SortedKeysSorted(names);
    SortedUnique(ks, SortedKeys(names));
  }
}
