/** `issuer_keys_from`: the bounded walk over a caller's issuer-key value. */
module IssuerKeys {
  import opened Wrappers
  import opened Bytes
  import opened KeyMath
  import opened PyHeap
  import opened Jwk
  import Base64Url

  const MAX_DEPTH := 16
  const MAX_CANDIDATES := 64
  const MAX_NODES_VISITED := 4096

  // ----- the value, unrolled -----

  datatype Candidate = Config(text: string) | Key(o: PyObject)

  datatype KeyTree = Nothing | Leaf(candidates: seq<Candidate>) | Many(items: seq<KeyTree>)

  /** What a value stands for, if its lists nest at most `d` deep and every part has a known shape. */
  ghost function TreeOf(heap: Heap, v: PyObject, d: int): Option<KeyTree>
    requires Closed(heap) && v in heap
    decreases if d < 0 then 0 else d + 1, 0
  {
    if d < 0 then None
    else
      match heap[v]
      case NoneShape => Some(Nothing)
      case StrShape(s) => Some(Leaf([Config(s)]))
      case DictShape(entries) =>
        if "keys" !in entries then Some(Leaf([Key(v)]))
        else if heap[entries["keys"]].ListShape? then Some(Leaf(KeysOf(heap[entries["keys"]].items)))
        else None
      case ListShape(items) =>
        var trees :- TreesOf(heap, items, |items|, d - 1);
        Some(Many(trees))
      case _ => None
  }

  function KeysOf(objects: seq<PyObject>): (cs: seq<Candidate>)
    ensures |cs| == |objects| && forall i | 0 <= i < |objects| :: cs[i] == Key(objects[i])
  {
    seq(|objects|, i requires 0 <= i < |objects| => Key(objects[i]))
  }

  ghost function TreesOf(heap: Heap, items: seq<PyObject>, n: nat, d: int): Option<seq<KeyTree>>
    requires Closed(heap) && n <= |items| && forall x <- items :: x in heap
    decreases if d < 0 then 0 else d + 1, 1, n
  {
    if n == 0 then Some([])
    else
      var front :- TreesOf(heap, items, n - 1, d);
      var last :- TreeOf(heap, items[n - 1], d);
      Some(front + [last])
  }

  /** Left to right. */
  function Candidates(t: KeyTree): seq<Candidate>
    decreases t, 0
  {
    match t
    case Nothing => []
    case Leaf(cs) => cs
    case Many(items) => CandidatesOf(items)
  }

  function CandidatesOf(ts: seq<KeyTree>): seq<Candidate>
    decreases ts, 0
  {
    if ts == [] then [] else CandidatesOf(ts[..|ts| - 1]) + Candidates(ts[|ts| - 1])
  }

  /** One per call of the walk. */
  function Nodes(t: KeyTree): (n: nat)
    ensures n >= 1
    decreases t, 0
  {
    match t
    case Many(items) => 1 + NodesOf(items)
    case _ => 1
  }

  function NodesOf(ts: seq<KeyTree>): nat
    decreases ts, 0
  {
    if ts == [] then 0 else NodesOf(ts[..|ts| - 1]) + Nodes(ts[|ts| - 1])
  }

  // ----- candidates -----

  ghost function FieldsOf(heap: Heap, entries: map<string, PyObject>): Fields
    requires forall k <- entries :: entries[k] in heap
  {
    map k | k in entries :: heap[entries[k]]
  }

  ghost function Parse(suite: Suite, heap: Heap, c: Candidate): Option<IssuerKey>
    requires Closed(heap)
  {
    match c
    case Config(text) => ReadConfig(suite, text).result
    case Key(o) =>
      if o in heap && heap[o].DictShape? then ReadJwk(suite, FieldsOf(heap, heap[o].entries)).result else None
  }

  /** What a candidate in the heap stands for: its text, or its object's members, describe the key. */
  ghost predicate Stands(suite: Suite, heap: Heap, c: Candidate, key: IssuerKey)
    requires Closed(heap)
  {
    match c
    case Config(text) =>
      && key.kid == None
      && (match key.key
          case Okp(raw) => |text| == 43 && Base64Url.Decode(text) == Some(raw) && |raw| == 32
          case CompressedPoint(raw) =>
            |text| == 44 && Base64Url.Decode(text) == Some(raw) && |raw| == 33 && suite.p256Point(raw)
          case _ => false)
    case Key(o) =>
      && o in heap && heap[o].DictShape?
      && HasKid(FieldsOf(heap, heap[o].entries), key.kid) && Describes(suite, FieldsOf(heap, heap[o].entries), key.key)
  }

  lemma ParseMeaning(suite: Suite, heap: Heap, c: Candidate, key: IssuerKey)
    requires Closed(heap)
    ensures Parse(suite, heap, c) == Some(key) <==> Stands(suite, heap, c, key)
  {
    hide ReadJwk, ReadConfig, HasKid, Describes, Base64Url.Decode;
    match c
    case Config(text) =>
      ConfigMeaning(suite, text, key);
    case Key(o) =>
      if o in heap && heap[o].DictShape? {
        JwkMeaning(suite, FieldsOf(heap, heap[o].entries), key);
      }
  }

  ghost function ParseAll(suite: Suite, heap: Heap, cs: seq<Candidate>): (r: Option<seq<IssuerKey>>)
    requires Closed(heap)
    ensures r.Some? ==> |r.value| == |cs|
  {
    if cs == [] then Some([])
    else
      var front :- ParseAll(suite, heap, cs[..|cs| - 1]);
      var last :- Parse(suite, heap, cs[|cs| - 1]);
      Some(front + [last])
  }

  /** The keys of a list of candidates: at each position the key that the candidate there stands for. */
  lemma ParseAllMeaning(suite: Suite, heap: Heap, cs: seq<Candidate>, keys: seq<IssuerKey>)
    requires Closed(heap)
    ensures ParseAll(suite, heap, cs) == Some(keys) <==>
            |keys| == |cs| && forall i | 0 <= i < |cs| :: Stands(suite, heap, cs[i], keys[i])
  {
    hide Parse, Stands, ParseAll;
    ParseEach(suite, heap, cs);
    forall c, key ensures Parse(suite, heap, c) == Some(key) <==> Stands(suite, heap, c, key) {
      ParseMeaning(suite, heap, c, key);
    }
    if |keys| == |cs| && forall i | 0 <= i < |cs| :: Stands(suite, heap, cs[i], keys[i]) {
      forall c | c in cs ensures Parse(suite, heap, c).Some? {
        var i :| 0 <= i < |cs| && cs[i] == c;
        assert Stands(suite, heap, cs[i], keys[i]);
      }
      assert ParseAll(suite, heap, cs).value == keys;
    }
  }

  lemma {:induction false} ParseEach(suite: Suite, heap: Heap, cs: seq<Candidate>)
    requires Closed(heap)
    ensures ParseAll(suite, heap, cs).Some? <==> forall c <- cs :: Parse(suite, heap, c).Some?
    ensures ParseAll(suite, heap, cs).Some? ==>
              forall i | 0 <= i < |cs| :: Parse(suite, heap, cs[i]) == Some(ParseAll(suite, heap, cs).value[i])
  {
    hide Parse;
    if cs != [] {
      var front := cs[..|cs| - 1];
      ParseEach(suite, heap, front);
      assert forall c :: c in cs <==> c in front || c == cs[|cs| - 1];
    }
  }

  lemma {:induction false} ParseAllConcat(suite: Suite, heap: Heap, a: seq<Candidate>, b: seq<Candidate>)
    requires Closed(heap)
    ensures var pa, pb := ParseAll(suite, heap, a), ParseAll(suite, heap, b);
            ParseAll(suite, heap, a + b) == if pa.Some? && pb.Some? then Some(pa.value + pb.value) else None
  {
    hide Parse;
    var pa := ParseAll(suite, heap, a);
    if b == [] {
      assert a + b == a;
      assert pa.Some? ==> pa.value + [] == pa.value;
    } else {
      var front := b[..|b| - 1];
      ParseAllConcat(suite, heap, a, front);
      assert (a + b)[..|a + b| - 1] == a + front && (a + b)[|a + b| - 1] == b[|b| - 1];
      var pf, last := ParseAll(suite, heap, front), Parse(suite, heap, b[|b| - 1]);
      if pa.Some? && pf.Some? && last.Some? {
        Assoc(pa.value, pf.value, [last.value]);
      }
    }
  }

  // ----- the budget -----

  /** The rest of the budget admits this tree. */
  ghost predicate Fits(suite: Suite, heap: Heap, t: KeyTree, visited: nat, taken: nat)
    requires Closed(heap)
  {
    && visited + Nodes(t) <= MAX_NODES_VISITED
    && taken + |Candidates(t)| <= MAX_CANDIDATES
    && ParseAll(suite, heap, Candidates(t)).Some?
  }

  ghost predicate Admits(suite: Suite, heap: Heap, v: PyObject, depth: nat, visited: nat, taken: nat)
    requires Closed(heap) && v in heap
  {
    var t := TreeOf(heap, v, MAX_DEPTH - depth);
    t.Some? && Fits(suite, heap, t.value, visited, taken)
  }

  /** A prefix of the items costs no more than all of them. */
  lemma {:induction false} PrefixFits(suite: Suite, heap: Heap, items: seq<PyObject>, n: nat, m: nat, d: int)
    requires Closed(heap) && n <= m <= |items| && forall x <- items :: x in heap
    requires TreesOf(heap, items, m, d).Some?
    ensures TreesOf(heap, items, n, d).Some?
    ensures var a, b := TreesOf(heap, items, n, d).value, TreesOf(heap, items, m, d).value;
            && NodesOf(a) <= NodesOf(b) && |CandidatesOf(a)| <= |CandidatesOf(b)|
            && (ParseAll(suite, heap, CandidatesOf(b)).Some? ==> ParseAll(suite, heap, CandidatesOf(a)).Some?)
  {
    hide Parse, TreeOf;
    if n < m {
      PrefixFits(suite, heap, items, n, m - 1, d);
      ItemsStep(suite, heap, items, m - 1, d);
    }
  }

  /** Unrolling one more item. */
  lemma ItemsStep(suite: Suite, heap: Heap, items: seq<PyObject>, i: nat, d: int)
    requires Closed(heap) && i < |items| && forall x <- items :: x in heap
    requires TreesOf(heap, items, i, d).Some?
    ensures TreesOf(heap, items, i + 1, d).Some? <==> TreeOf(heap, items[i], d).Some?
    ensures TreeOf(heap, items[i], d).Some? ==>
              var a, t := TreesOf(heap, items, i, d).value, TreeOf(heap, items[i], d).value;
              var b := TreesOf(heap, items, i + 1, d).value;
              && NodesOf(b) == NodesOf(a) + Nodes(t) && CandidatesOf(b) == CandidatesOf(a) + Candidates(t)
              && var pa, pt := ParseAll(suite, heap, CandidatesOf(a)), ParseAll(suite, heap, Candidates(t));
                 ParseAll(suite, heap, CandidatesOf(b)) == if pa.Some? && pt.Some? then Some(pa.value + pt.value) else None
  {
    hide Parse, TreeOf, Nodes, Candidates;
    if TreeOf(heap, items[i], d).Some? {
      var a, t := TreesOf(heap, items, i, d).value, TreeOf(heap, items[i], d).value;
      var b := a + [t];
      assert b[..|b| - 1] == a;
      ParseAllConcat(suite, heap, CandidatesOf(a), Candidates(t));
    }
  }

  // ----- the walk -----

  /** The state of one `issuer_keys_from` call; `parsed` and `decoded` count its work. */
  class KeyWalk {
    var out: seq<IssuerKey>
    var visits: nat
    ghost var parsed: nat
    ghost var decoded: nat

    constructor ()
      ensures out == [] && visits == parsed == decoded == 0
    {
      out, visits, parsed, decoded := [], 0, 0, 0;
    }

    /** Every candidate parsed so far is in `out`. */
    ghost predicate Running()
      reads this
    {
      |out| == parsed <= MAX_CANDIDATES && visits <= MAX_NODES_VISITED && WorkBounded()
    }

    ghost predicate WorkBounded()
      reads this
    {
      && visits <= MAX_NODES_VISITED + 1 && parsed <= MAX_CANDIDATES
      && decoded <= parsed * (2 * MAX_B64_MEMBER_CHARS)
    }

    /** `_visit`. */
    method Visit() returns (r: Outcome<()>)
      modifies this`visits
      ensures visits == old(visits) + 1
      ensures r.Ok? <==> visits <= MAX_NODES_VISITED
    {
      visits := visits + 1;
      r := if visits > MAX_NODES_VISITED then Crash("ValueError") else Ok(());
    }

    /** `_reserve`. */
    method Reserve() returns (r: Outcome<()>)
      ensures r.Ok? <==> |out| < MAX_CANDIDATES
    {
      r := if |out| >= MAX_CANDIDATES then Crash("ValueError") else Ok(());
    }

    /** `_reserve(out)`, the parse of one candidate and `out.append(...)`. */
    method Take(suite: Suite, c: Candidate, ghost heap: Heap) returns (r: Outcome<()>)
      requires Closed(heap) && Pictures(heap) && Running()
      requires c.Key? ==> c.o in heap
      modifies this`out, this`parsed, this`decoded
      ensures WorkBounded()
      ensures r.Ok? <==> |old(out)| < MAX_CANDIDATES && Parse(suite, heap, c).Some?
      ensures r.Ok? ==> Running() && out == old(out) + [Parse(suite, heap, c).value]
    {
      hide ReadJwk, ReadConfig, Concat;
      var _ :- Reserve();
      var w: Work<IssuerKey> := Work(None, []);
      match c {
        case Config(text) =>
          w := ReadConfig(suite, text);
          CandidateCost(suite, map[], text);
        case Key(o) =>
          if o.shape.DictShape? {
            var entries := o.shape.entries;
            assert forall k <- entries :: entries[k] in heap;
            var fields := map k | k in entries :: entries[k].shape;
            assert fields == FieldsOf(heap, entries);
            w := ReadJwk(suite, fields);
            CandidateCost(suite, fields, "");
          } else {
            NoCost();
          }
      }
      parsed, decoded := parsed + 1, decoded + |Concat(w.decoded)|;
      if w.result.None? {
        return Crash("ValueError");
      }
      out := out + [w.result.value];
      return Ok(());
    }

    /** The candidates of one leaf, in order. */
    method TakeAll(suite: Suite, cs: seq<Candidate>, ghost heap: Heap) returns (r: Outcome<()>)
      requires Closed(heap) && Pictures(heap) && Running()
      requires forall c <- cs :: c.Key? ==> c.o in heap
      modifies this`out, this`parsed, this`decoded
      ensures WorkBounded()
      ensures r.Ok? <==> |old(out)| + |cs| <= MAX_CANDIDATES && ParseAll(suite, heap, cs).Some?
      ensures r.Ok? ==> Running() && out == old(out) + ParseAll(suite, heap, cs).value
    {
      hide Parse;
      assert cs[..0] == [];
      for i := 0 to |cs|
        invariant Running()
        invariant |old(out)| + i <= MAX_CANDIDATES && ParseAll(suite, heap, cs[..i]).Some?
        invariant out == old(out) + ParseAll(suite, heap, cs[..i]).value
      {
        assert cs[..i + 1][..i] == cs[..i];
        assert cs[i] in cs;
        var taken := Take(suite, cs[i], heap);
        if !taken.Ok? {
          assert cs == cs[..i + 1] + cs[i + 1..];
          ParseAllConcat(suite, heap, cs[..i + 1], cs[i + 1..]);
          return taken;
        }
      }
      assert cs[..|cs|] == cs;
      return Ok(());
    }

    /**
     * `_issuer_keys_from`. It succeeds exactly when the value unrolls within the depth cap and what
     * it unrolls to fits the rest of the other two caps and parses; then it has appended the keys
     * left to right and counted every node. Whatever the heap looks like, it returns, and the work
     * stays bounded.
     */
    method From(suite: Suite, value: PyObject, depth: nat, ghost heap: Heap) returns (r: Outcome<()>)
      requires Closed(heap) && value in heap && Pictures(heap) && Running()
      requires depth <= MAX_DEPTH + 1
      modifies this
      ensures WorkBounded()
      ensures r.Ok? <==> Admits(suite, heap, value, depth, old(visits), |old(out)|)
      ensures r.Ok? ==>
                var t := TreeOf(heap, value, MAX_DEPTH - depth).value;
                && Running() && visits == old(visits) + Nodes(t)
                && out == old(out) + ParseAll(suite, heap, Candidates(t)).value
      decreases MAX_DEPTH + 1 - depth, 1
    {
      hide ParseAll;
      var _ :- Visit();
      if depth > MAX_DEPTH {
        return Crash("ValueError");
      }
      match value.shape {
        case NoneShape =>
          r := TakeAll(suite, [], heap);
        case StrShape(s) =>
          r := TakeAll(suite, [Config(s)], heap);
        case DictShape(entries) =>
          if "keys" in entries {
            var keys := entries["keys"];
            if keys.shape.ListShape? {
              r := TakeAll(suite, KeysOf(keys.shape.items), heap);
            } else {
              r := Crash("ValueError");
            }
          } else {
            r := TakeAll(suite, [Key(value)], heap);
          }
        case ListShape(items) =>
          r := FromList(suite, value, depth, heap);
        case _ =>
          r := Crash("ValueError");
      }
    }

    /** The loop over a list's items. */
    method FromList(suite: Suite, value: PyObject, depth: nat, ghost heap: Heap) returns (r: Outcome<()>)
      requires Closed(heap) && value in heap && Pictures(heap) && Running()
      requires depth <= MAX_DEPTH && heap[value].ListShape? && 0 < visits
      modifies this
      ensures WorkBounded()
      ensures r.Ok? <==> Admits(suite, heap, value, depth, old(visits) - 1, |old(out)|)
      ensures r.Ok? ==>
                var t := TreeOf(heap, value, MAX_DEPTH - depth).value;
                && Running() && visits == old(visits) - 1 + Nodes(t)
                && out == old(out) + ParseAll(suite, heap, Candidates(t)).value
      decreases MAX_DEPTH + 1 - depth, 0, 1
    {
      hide ParseAll, Parse, TreeOf, TreesOf, Nodes, NodesOf, Candidates, CandidatesOf, Closed, Pictures;
      ListContents(heap, value);
      var items := value.shape.items;
      ghost var d := MAX_DEPTH - depth - 1;
      EmptyItems(suite, heap, items, d);
      ListTree(heap, value, d + 1);
      for i := 0 to |items|
        invariant Running() && Pictures(heap)
        invariant Reached(suite, heap, items, i, d, old(visits), old(out))
      {
        var step := FromItem(suite, items, i, depth, heap, old(visits), old(out));
        if !step.Ok? {
          return step;
        }
      }
      return Ok(());
    }

    /** The first `i` items are done: they fit, and their keys and nodes are counted. */
    ghost predicate Reached(suite: Suite, heap: Heap, items: seq<PyObject>, i: nat, d: int,
                            visited: nat, taken: seq<IssuerKey>)
      requires Closed(heap) && i <= |items| && forall x <- items :: x in heap
      reads this
    {
      var ts := TreesOf(heap, items, i, d);
      && ts.Some? && FitsMany(suite, heap, ts.value, visited, |taken|)
      && visits == visited + NodesOf(ts.value)
      && out == taken + ParseAll(suite, heap, CandidatesOf(ts.value)).value
    }

    /** The body of the loop. */
    method FromItem(suite: Suite, items: seq<PyObject>, i: nat, depth: nat, ghost heap: Heap,
                    ghost visited: nat, ghost taken: seq<IssuerKey>)
      returns (r: Outcome<()>)
      requires Closed(heap) && Pictures(heap) && Running() && depth <= MAX_DEPTH
      requires i < |items| && forall x <- items :: x in heap
      requires Reached(suite, heap, items, i, MAX_DEPTH - depth - 1, visited, taken)
      modifies this
      ensures Pictures(heap) && WorkBounded()
      ensures r.Ok? ==> Running() && Reached(suite, heap, items, i + 1, MAX_DEPTH - depth - 1, visited, taken)
      ensures !r.Ok? ==>
                var all := TreesOf(heap, items, |items|, MAX_DEPTH - depth - 1);
                all.Some? ==> !FitsMany(suite, heap, all.value, visited, |taken|)
      decreases MAX_DEPTH + 1 - depth, 0, 0
    {
      hide ParseAll, Parse, TreeOf, TreesOf, Nodes, NodesOf, Candidates, CandidatesOf, Closed, Pictures;
      ghost var d := MAX_DEPTH - depth - 1;
      FitsStep(suite, heap, items, i, d, visited, |taken|);
      r := From(suite, items[i], depth + 1, heap);
      if r.Ok? {
        OutStep(suite, heap, items, i, d, taken);
      }
    }
  }

  /** Whether one more item still fits, and that all of them cannot fit when it does not. */
  lemma FitsStep(suite: Suite, heap: Heap, items: seq<PyObject>, i: nat, d: int, visited: nat, taken: nat)
    requires Closed(heap) && i < |items| && forall x <- items :: x in heap
    requires TreesOf(heap, items, i, d).Some?
    requires FitsMany(suite, heap, TreesOf(heap, items, i, d).value, visited, taken)
    ensures var ts := TreesOf(heap, items, i, d).value;
            var t := TreeOf(heap, items[i], d);
            var next := TreesOf(heap, items, i + 1, d);
            (t.Some? && Fits(suite, heap, t.value, visited + NodesOf(ts), taken + |CandidatesOf(ts)|))
            <==> next.Some? && FitsMany(suite, heap, next.value, visited, taken)
    ensures var next := TreesOf(heap, items, i + 1, d);
            var all := TreesOf(heap, items, |items|, d);
            all.Some? && FitsMany(suite, heap, all.value, visited, taken)
            ==> next.Some? && FitsMany(suite, heap, next.value, visited, taken)
  {
    hide ParseAll, TreeOf, TreesOf, Nodes, NodesOf, Candidates, CandidatesOf;
    ItemsStep(suite, heap, items, i, d);
    if TreesOf(heap, items, |items|, d).Some? {
      PrefixFits(suite, heap, items, i + 1, |items|, d);
    }
  }

  ghost predicate FitsMany(suite: Suite, heap: Heap, ts: seq<KeyTree>, visited: nat, taken: nat)
    requires Closed(heap)
  {
    && visited + NodesOf(ts) <= MAX_NODES_VISITED
    && taken + |CandidatesOf(ts)| <= MAX_CANDIDATES
    && ParseAll(suite, heap, CandidatesOf(ts)).Some?
  }

  /** The keys of one more item follow the keys so far. */
  lemma OutStep(suite: Suite, heap: Heap, items: seq<PyObject>, i: nat, d: int, out: seq<IssuerKey>)
    requires Closed(heap) && i < |items| && forall x <- items :: x in heap
    requires TreesOf(heap, items, i, d).Some? && TreeOf(heap, items[i], d).Some?
    ensures var ts := TreesOf(heap, items, i, d).value;
            var t := TreeOf(heap, items[i], d).value;
            var next := TreesOf(heap, items, i + 1, d);
            && next.Some? && NodesOf(next.value) == NodesOf(ts) + Nodes(t)
            && var a, b := ParseAll(suite, heap, CandidatesOf(ts)), ParseAll(suite, heap, Candidates(t));
               var c := ParseAll(suite, heap, CandidatesOf(next.value));
               a.Some? && b.Some? ==> c.Some? && out + a.value + b.value == out + c.value
  {
    hide ParseAll, TreeOf, TreesOf, Nodes, NodesOf, Candidates, CandidatesOf;
    ItemsStep(suite, heap, items, i, d);
    forall a: seq<IssuerKey>, b: seq<IssuerKey> ensures out + a + b == out + (a + b) {
    }
  }

  lemma EmptyItems(suite: Suite, heap: Heap, items: seq<PyObject>, d: int)
    requires Closed(heap) && forall x <- items :: x in heap
    ensures TreesOf(heap, items, 0, d) == Some([])
    ensures NodesOf([]) == 0 && CandidatesOf([]) == [] && ParseAll(suite, heap, []) == Some([])
  {
  }

  lemma NoCost()
    ensures |Concat<char>([])| == 0
  {
  }

  lemma ListContents(heap: Heap, v: PyObject)
    requires Closed(heap) && Pictures(heap) && v in heap && heap[v].ListShape?
    ensures v.shape == heap[v] && forall x <- heap[v].items :: x in heap
  {
  }

  lemma ListTree(heap: Heap, v: PyObject, d: nat)
    requires Closed(heap) && v in heap && heap[v].ListShape?
    ensures var items := heap[v].items;
            var ts := TreesOf(heap, items, |items|, d - 1);
            && TreeOf(heap, v, d) == (if ts.Some? then Some(Many(ts.value)) else None)
            && (ts.Some? ==> Nodes(Many(ts.value)) == 1 + NodesOf(ts.value))
            && (ts.Some? ==> Candidates(Many(ts.value)) == CandidatesOf(ts.value))
  {
  }

  /**
   * `issuer_keys_from`: exactly the left-to-right flattening, or a failure when the value does not
   * unroll within 16 levels of lists, has more than 4096 nodes or 64 candidates, or a candidate
   * does not parse. In every run at most 4097 nodes are visited, 64 candidates parsed and
   * 64 * 2 * 8192 characters decoded.
   */
  method IssuerKeysFrom(suite: Suite, value: PyObject, ghost heap: Heap)
    returns (r: Outcome<seq<IssuerKey>>, ghost visits: nat, ghost parsed: nat, ghost decoded: nat)
    requires Closed(heap) && value in heap && Pictures(heap)
    ensures r.Ok? <==>
            var t := TreeOf(heap, value, 16);
            && t.Some? && Nodes(t.value) <= 4096 && |Candidates(t.value)| <= 64
            && ParseAll(suite, heap, Candidates(t.value)).Some?
    ensures r.Ok? ==>
              var t := TreeOf(heap, value, 16).value;
              && Some(r.value) == ParseAll(suite, heap, Candidates(t)) && visits == Nodes(t)
              && parsed == |Candidates(t)|
    ensures visits <= 4097 && parsed <= 64 && decoded <= 64 * 2 * 8192
  {
    hide ParseAll;
    var walk := new KeyWalk();
    var done := walk.From(suite, value, 0, heap);
    visits, parsed, decoded := walk.visits, walk.parsed, walk.decoded;
    if !done.Ok? {
      return done.PropagateFailure(), visits, parsed, decoded;
    }
    ghost var keys := ParseAll(suite, heap, Candidates(TreeOf(heap, value, MAX_DEPTH).value));
    assert keys.Some? && walk.out == keys.value;
    r := Ok(walk.out);
  }

  /** A list that contains itself never unrolls: the walk refuses it. */
  lemma CycleRefused(suite: Suite, heap: Heap, v: PyObject, d: int)
    requires Closed(heap) && v in heap && heap[v].ListShape? && v in heap[v].items
    ensures TreeOf(heap, v, d).None?
    decreases if d < 0 then 0 else d + 1
  {
    if d >= 0 {
      CycleRefused(suite, heap, v, d - 1);
      var items := heap[v].items;
      var i :| 0 <= i < |items| && items[i] == v;
      if TreesOf(heap, items, |items|, d - 1).Some? {
        PrefixFits(suite, heap, items, i + 1, |items|, d - 1);
      }
    }
  }
}
