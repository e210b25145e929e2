/** `_serialize` as it runs: an output list and a shared visit counter, over heap objects. */
module JcsWalk {
  import opened Wrappers
  import opened Bytes
  import opened KeyOrder
  import opened Number
  import opened Jcs
  import opened PyHeap
  import JsonText

  // ----- one more item, one more member -----

  lemma {:induction false} CanonItemsSnoc(items: seq<Json>, last: Json, first: bool)
    ensures CanonItems(items + [last], first)
         == CanonItems(items, first) + (if first && items == [] then "" else ",") + Canon(last)
  {
    hide Canon;
    if items == [] {
      assert [last][1..] == [];
    } else {
      CanonItemsSnoc(items[1..], last, false);
      assert (items + [last])[1..] == items[1..] + [last];
    }
  }

  lemma {:induction false} NodesOfItemsConcat(a: seq<Json>, b: seq<Json>)
    ensures NodesOfItems(a + b) == NodesOfItems(a) + NodesOfItems(b)
  {
    if a == [] {
      assert a + b == b;
    } else {
      NodesOfItemsConcat(a[1..], b);
      assert (a + b)[1..] == a[1..] + b;
    }
  }

  lemma {:induction false} CanonMembersSnoc(j: Json, ks: seq<string>, last: string, first: bool)
    requires j.Obj? && last in j.members && forall k <- ks :: k in j.members
    ensures CanonMembers(j, ks + [last], first)
         == CanonMembers(j, ks, first) + (if first && ks == [] then "" else ",")
            + JsonText.FormatString(last) + ":" + Canon(j.members[last])
  {
    hide Canon, JsonText.FormatString;
    if ks == [] {
      assert [last][1..] == [];
    } else {
      CanonMembersSnoc(j, ks[1..], last, false);
      assert (ks + [last])[1..] == ks[1..] + [last];
    }
  }

  lemma {:induction false} NodesOfMembersConcat(j: Json, a: seq<string>, b: seq<string>)
    requires j.Obj? && (forall k <- a :: k in j.members) && forall k <- b :: k in j.members
    ensures NodesOfMembers(j, a + b) == NodesOfMembers(j, a) + NodesOfMembers(j, b)
  {
    if a == [] {
      assert a + b == b;
    } else {
      NodesOfMembersConcat(j, a[1..], b);
      assert (a + b)[1..] == a[1..] + b;
    }
  }

  /** The state of one `dumps` call. */
  class Canonicalizer {
    var out: seq<string>
    var visits: nat

    constructor ()
      ensures out == [] && visits == 0
    {
      out := [];
      visits := 0;
    }

    ghost function Text(): string
      reads this
    {
      Concat(out)
    }

    /** `out.append(piece)`. */
    method Append(piece: string)
      modifies this`out
      ensures Text() == old(Text()) + piece
    {
      ConcatSnoc(out, piece);
      out := out + [piece];
    }

    /** A formatted member name and its colon. */
    method AppendName(name: string)
      modifies this`out
      ensures Text() == old(Text()) + (name + ":")
    {
      ghost var before := Text();
      Append(name);
      Append(":");
      assert before + name + ":" == before + (name + ":");
    }

    /** `_visit`. */
    method Visit() returns (r: Outcome<()>)
      modifies this`visits
      ensures visits == old(visits) + 1
      ensures r.Ok? <==> visits <= MAX_NODES_VISITED
    {
      visits := visits + 1;
      r := if visits > MAX_NODES_VISITED then Crash("JcsError") else Ok(());
    }

    /**
     * `_serialize`. It succeeds exactly when the value unrolls within the depth cap and its nodes
     * fit the counter; then it has appended the canonical text and counted every node. Whatever
     * the heap looks like, it returns and the counter never passes the cap by more than one.
     */
    method Serialize(value: PyObject, depth: nat, ghost heap: Heap) returns (r: Outcome<()>)
      requires Closed(heap) && value in heap && Pictures(heap)
      requires depth <= MAX_DEPTH + 1 && visits <= MAX_NODES_VISITED
      modifies this
      ensures Pictures(heap) && visits <= MAX_NODES_VISITED + 1
      ensures r.Ok? <==> Admits(heap, value, depth, old(visits))
      ensures r.Ok? ==>
                var j := Unroll(heap, value, MAX_DEPTH - depth).value;
                Text() == old(Text()) + Canon(j) && visits == old(visits) + Nodes(j)
      decreases MAX_DEPTH + 1 - depth, 1
    {
      var _ :- Visit();
      if depth > MAX_DEPTH {
        return Crash("JcsError");
      }
      match value.shape {
        case ListShape(_) =>
          r := SerializeList(value, depth, heap);
        case DictShape(_) =>
          r := SerializeDict(value, depth, heap);
        case _ =>
          r := SerializeLeaf(value, depth, heap);
      }
    }

    /** The branches without recursion, entered after the node itself was counted. */
    method SerializeLeaf(value: PyObject, depth: nat, ghost heap: Heap) returns (r: Outcome<()>)
      requires Closed(heap) && value in heap && Pictures(heap)
      requires !value.shape.ListShape? && !value.shape.DictShape?
      requires depth <= MAX_DEPTH && 1 <= visits <= MAX_NODES_VISITED
      modifies this`out
      ensures Pictures(heap)
      ensures r.Ok? <==> Admits(heap, value, depth, visits - 1)
      ensures r.Ok? ==>
                var j := Unroll(heap, value, MAX_DEPTH - depth).value;
                Text() == old(Text()) + Canon(j) && Nodes(j) == 1
    {
      match value.shape {
        case NoneShape =>
          Append("null");
        case BoolShape(b) =>
          Append(if b then "true" else "false");
        case StrShape(s) =>
          var text := JsonText.FormatStringLoop(s);
          Append(text);
        case NumShape(n) =>
          var text := FormatNumber(n);
          if text == None {
            return Crash("JcsError");
          }
          Append(text.value);
        case _ =>
          return Crash("JcsError");
      }
      r := Ok(());
    }

    /** The `list` branch. */
    method SerializeList(value: PyObject, depth: nat, ghost heap: Heap) returns (r: Outcome<()>)
      requires Closed(heap) && value in heap && Pictures(heap) && value.shape.ListShape?
      requires depth <= MAX_DEPTH && 1 <= visits <= MAX_NODES_VISITED
      modifies this
      ensures Pictures(heap) && visits <= MAX_NODES_VISITED + 1
      ensures r.Ok? <==> Admits(heap, value, depth, old(visits) - 1)
      ensures r.Ok? ==>
                var j := Unroll(heap, value, MAX_DEPTH - depth).value;
                Text() == old(Text()) + Canon(j) && visits == old(visits) - 1 + Nodes(j)
      decreases MAX_DEPTH + 1 - depth, 0
    {
      hide Unroll, Canon, Nodes, Concat, Entries, Pieces, Total, Children, Prefixes, Closed, Pictures;
      ShapeOf(heap, value);
      var items := value.shape.items;
      ghost var d := MAX_DEPTH - depth;
      ghost var es, prefixes := Entries(heap, value, d), Prefixes(heap, value);
      ghost var before, start := Text() + "[", visits;
      ContainerMeaning(heap, value, d);
      ListLength(heap, value);
      PiecesBegin(prefixes, es);
      Append("[");
      for i := 0 to |items|
        invariant Pictures(heap) && visits <= MAX_NODES_VISITED && AllSome(es, i)
        invariant Text() == before + Pieces(prefixes, es, i)
        invariant visits == start + Total(es, i)
      {
        ListChild(heap, value, d, i);
        PiecesStep(prefixes, es, i, before);
        if i > 0 {
          Append(",");
        }
        r := Serialize(items[i], depth + 1, heap);
        if !r.Ok? {
          return;
        }
      }
      Append("]");
      r := Ok(());
    }

    /** The `dict` branch: members in the order of their sorted names. */
    method SerializeDict(value: PyObject, depth: nat, ghost heap: Heap) returns (r: Outcome<()>)
      requires Closed(heap) && value in heap && Pictures(heap) && value.shape.DictShape?
      requires depth <= MAX_DEPTH && 1 <= visits <= MAX_NODES_VISITED
      modifies this
      ensures Pictures(heap) && visits <= MAX_NODES_VISITED + 1
      ensures r.Ok? <==> Admits(heap, value, depth, old(visits) - 1)
      ensures r.Ok? ==>
                var j := Unroll(heap, value, MAX_DEPTH - depth).value;
                Text() == old(Text()) + Canon(j) && visits == old(visits) - 1 + Nodes(j)
      decreases MAX_DEPTH + 1 - depth, 0, 1
    {
      hide Unroll, Canon, Nodes, Concat, Entries, Pieces, Total, Children, Prefixes, Closed, Pictures,
        SortedKeys, JsonText.FormatString;
      ShapeOf(heap, value);
      var entries := value.shape.entries;
      ghost var d := MAX_DEPTH - depth;
      ghost var es, prefixes := Entries(heap, value, d), Prefixes(heap, value);
      ghost var before, start := Text() + "{", visits;
      ContainerMeaning(heap, value, d);
      DictLength(heap, value);
      PiecesBegin(prefixes, es);
      var ks := SortKeys(entries.Keys);
      Append("{");
      for i := 0 to |ks|
        invariant Pictures(heap) && visits <= MAX_NODES_VISITED && AllSome(es, i)
        invariant Text() == before + Pieces(prefixes, es, i)
        invariant visits == start + Total(es, i)
      {
        DictChild(heap, value, d, i);
        PiecesStep(prefixes, es, i, before);
        r := SerializeMember(i, ks[i], entries[ks[i]], depth, heap);
        if !r.Ok? {
          return;
        }
      }
      Append("}");
      r := Ok(());
    }

    /** The body of the `dict` loop. */
    method SerializeMember(i: nat, key: string, child: PyObject, depth: nat, ghost heap: Heap)
      returns (r: Outcome<()>)
      requires Closed(heap) && child in heap && Pictures(heap)
      requires depth <= MAX_DEPTH && visits <= MAX_NODES_VISITED
      modifies this
      ensures Pictures(heap) && visits <= MAX_NODES_VISITED + 1
      ensures r.Ok? <==> Admits(heap, child, depth + 1, old(visits))
      ensures r.Ok? ==>
                var j := Unroll(heap, child, MAX_DEPTH - depth - 1).value;
                && Text() == old(Text()) + Separator(i) + (JsonText.FormatString(key) + ":") + Canon(j)
                && visits == old(visits) + Nodes(j)
      decreases MAX_DEPTH + 1 - depth, 0, 0
    {
      hide Unroll, Canon, Nodes, Concat, Closed, Pictures, JsonText.FormatString;
      assert Text() + "" == Text();
      if i > 0 {
        Append(",");
      }
      var name := JsonText.FormatStringLoop(key);
      AppendName(name);
      r := Serialize(child, depth + 1, heap);
    }
  }

  /** The remaining budget admits the unrolled value. */
  ghost predicate Admits(heap: Heap, value: PyObject, depth: nat, used: nat)
    requires Closed(heap) && value in heap
  {
    var u := Unroll(heap, value, MAX_DEPTH - depth);
    u.Some? && used + Nodes(u.value) <= MAX_NODES_VISITED
  }

  // ----- the two loops: a container's children in the order they are written -----

  ghost predicate IsContainer(heap: Heap, v: PyObject) {
    v in heap && (heap[v].ListShape? || heap[v].DictShape?)
  }

  lemma ShapeOf(heap: Heap, v: PyObject)
    requires Pictures(heap) && v in heap
    ensures v.shape == heap[v]
  {
  }

  ghost function Names(heap: Heap, v: PyObject): (ks: seq<string>)
    requires v in heap && heap[v].DictShape?
  {
    SortedKeys(heap[v].entries.Keys)
  }

  ghost function Children(heap: Heap, v: PyObject): (xs: seq<PyObject>)
    requires Closed(heap) && IsContainer(heap, v)
    ensures forall x <- xs :: x in heap
  {
    if heap[v].ListShape? then heap[v].items
    else
      var ks := Names(heap, v);
      seq(|ks|, i requires 0 <= i < |ks| => heap[v].entries[ks[i]])
  }

  /** What is written in front of each child. */
  ghost function Prefixes(heap: Heap, v: PyObject): (ps: seq<string>)
    requires Closed(heap) && IsContainer(heap, v)
    ensures |ps| == |Children(heap, v)|
  {
    if heap[v].ListShape? then seq(|heap[v].items|, i => "")
    else
      var ks := Names(heap, v);
      seq(|ks|, i requires 0 <= i < |ks| => JsonText.FormatString(ks[i]) + ":")
  }

  ghost function Entries(heap: Heap, v: PyObject, d: int): (es: seq<Option<Json>>)
    requires Closed(heap) && IsContainer(heap, v)
    ensures |es| == |Children(heap, v)|
  {
    var xs := Children(heap, v);
    seq(|xs|, i requires 0 <= i < |xs| => Unroll(heap, xs[i], d - 1))
  }

  lemma ListLength(heap: Heap, v: PyObject)
    requires Closed(heap) && IsContainer(heap, v) && heap[v].ListShape?
    ensures |Children(heap, v)| == |heap[v].items|
  {
  }

  lemma DictLength(heap: Heap, v: PyObject)
    requires Closed(heap) && IsContainer(heap, v) && heap[v].DictShape?
    ensures |Children(heap, v)| == |Names(heap, v)|
  {
  }

  lemma ListChild(heap: Heap, v: PyObject, d: int, i: nat)
    requires Closed(heap) && IsContainer(heap, v) && heap[v].ListShape? && i < |heap[v].items|
    ensures |Children(heap, v)| == |heap[v].items| && heap[v].items[i] in heap
    ensures Entries(heap, v, d)[i] == Unroll(heap, heap[v].items[i], d - 1)
    ensures Prefixes(heap, v)[i] == ""
  {
  }

  lemma DictChild(heap: Heap, v: PyObject, d: int, i: nat)
    requires Closed(heap) && IsContainer(heap, v) && heap[v].DictShape?
    requires i < |Names(heap, v)|
    ensures |Children(heap, v)| == |Names(heap, v)| && Names(heap, v)[i] in heap[v].entries
    ensures heap[v].entries[Names(heap, v)[i]] in heap
    ensures Entries(heap, v, d)[i] == Unroll(heap, heap[v].entries[Names(heap, v)[i]], d - 1)
    ensures Prefixes(heap, v)[i] == JsonText.FormatString(Names(heap, v)[i]) + ":"
  {
    assert Names(heap, v)[i] in Names(heap, v);
  }

  ghost predicate AllSome(es: seq<Option<Json>>, n: nat) {
    n <= |es| && forall k | 0 <= k < n :: es[k].Some?
  }

  function Separator(i: nat): string { if i == 0 then "" else "," }

  ghost function Pieces(prefixes: seq<string>, es: seq<Option<Json>>, n: nat): string
    requires |prefixes| == |es| && AllSome(es, n)
  {
    if n == 0 then ""
    else Pieces(prefixes, es, n - 1) + Separator(n - 1) + prefixes[n - 1] + Canon(es[n - 1].value)
  }

  ghost function Total(es: seq<Option<Json>>, n: nat): nat
    requires AllSome(es, n)
  {
    if n == 0 then 0 else Total(es, n - 1) + Nodes(es[n - 1].value)
  }

  lemma PiecesBegin(prefixes: seq<string>, es: seq<Option<Json>>)
    requires |prefixes| == |es|
    ensures Pieces(prefixes, es, 0) == "" && Total(es, 0) == 0
  {
  }

  lemma PiecesStep(prefixes: seq<string>, es: seq<Option<Json>>, i: nat, before: string)
    requires |prefixes| == |es| && AllSome(es, i) && i < |es|
    ensures i == 0 ==> before + Pieces(prefixes, es, i) + Separator(i) == before + Pieces(prefixes, es, i)
    ensures es[i].Some? ==>
              && before + Pieces(prefixes, es, i + 1)
                 == before + Pieces(prefixes, es, i) + Separator(i) + prefixes[i] + Canon(es[i].value)
              && Total(es, i + 1) == Total(es, i) + Nodes(es[i].value)
    ensures AllSome(es, |es|) ==> Total(es, i + 1) <= Total(es, |es|)
  {
    hide Canon, Nodes, Pieces, Total, Separator;
    PiecesUnfold(prefixes, es, i);
    if i == 0 {
      NoText(before + Pieces(prefixes, es, i));
    }
    if es[i].Some? {
      PieceText(before, Pieces(prefixes, es, i), Separator(i), prefixes[i], Canon(es[i].value));
    }
    if AllSome(es, |es|) {
      TotalMonotone(es, i + 1);
    }
  }

  lemma PiecesUnfold(prefixes: seq<string>, es: seq<Option<Json>>, i: nat)
    requires |prefixes| == |es| && AllSome(es, i) && i < |es|
    ensures i == 0 ==> Separator(i) == ""
    ensures es[i].Some? ==>
              && Pieces(prefixes, es, i + 1)
                 == Pieces(prefixes, es, i) + Separator(i) + prefixes[i] + Canon(es[i].value)
              && Total(es, i + 1) == Total(es, i) + Nodes(es[i].value)
  {
    hide Canon, Nodes;
  }

  lemma NoText(s: string)
    ensures s + "" == s
  {
  }

  lemma PieceText(a: string, b: string, c: string, d: string, e: string)
    ensures a + (b + c + d + e) == a + b + c + d + e
  {
  }

  lemma {:induction false} TotalMonotone(es: seq<Option<Json>>, n: nat)
    requires AllSome(es, |es|) && n <= |es|
    ensures Total(es, n) <= Total(es, |es|)
    decreases |es| - n
  {
    hide Nodes;
    if n < |es| {
      TotalMonotone(es, n + 1);
    }
  }

  lemma {:induction false} ItemsPieces(prefixes: seq<string>, es: seq<Option<Json>>, js: seq<Json>, n: nat)
    requires |prefixes| == |es| == |js| && n <= |js|
    requires forall i | 0 <= i < n :: prefixes[i] == "" && es[i] == Some(js[i])
    ensures CanonItems(js[..n], true) == Pieces(prefixes, es, n)
    ensures NodesOfItems(js[..n]) == Total(es, n)
  {
    hide Canon, Nodes;
    if n > 0 {
      ItemsPieces(prefixes, es, js, n - 1);
      assert js[..n] == js[..n - 1] + [js[n - 1]];
      CanonItemsSnoc(js[..n - 1], js[n - 1], true);
      NodesOfItemsConcat(js[..n - 1], [js[n - 1]]);
      assert NodesOfItems([js[n - 1]]) == Nodes(js[n - 1]) + NodesOfItems([]);
    }
  }

  lemma {:induction false} MembersPieces(prefixes: seq<string>, es: seq<Option<Json>>, j: Json, ks: seq<string>, n: nat)
    requires |prefixes| == |es| == |ks| && n <= |ks| && j.Obj?
    requires forall i | 0 <= i < |ks| :: ks[i] in j.members
    requires forall i | 0 <= i < n ::
               prefixes[i] == JsonText.FormatString(ks[i]) + ":" && es[i] == Some(j.members[ks[i]])
    ensures CanonMembers(j, ks[..n], true) == Pieces(prefixes, es, n)
    ensures NodesOfMembers(j, ks[..n]) == Total(es, n)
  {
    hide Canon, Nodes, JsonText.FormatString;
    if n > 0 {
      hide CanonMembers, NodesOfMembers, Pieces, Total;
      MembersPieces(prefixes, es, j, ks, n - 1);
      PiecesUnfold(prefixes, es, n - 1);
      var k := ks[n - 1];
      assert ks[..n] == ks[..n - 1] + [k];
      CanonMembersSnoc(j, ks[..n - 1], k, true);
      NodesOfMembersConcat(j, ks[..n - 1], [k]);
      NodesOfOne(j, k);
      Assoc(CanonMembers(j, ks[..n - 1], true) + Separator(n - 1), JsonText.FormatString(k), ":");
    }
  }

  lemma NodesOfOne(j: Json, k: string)
    requires j.Obj? && k in j.members
    ensures NodesOfMembers(j, [k]) == Nodes(j.members[k])
  {
    hide Nodes;
    assert NodesOfMembers(j, [k]) == Nodes(j.members[k]) + NodesOfMembers(j, []);
  }

  ghost function Opening(shape: Shape): string { if shape.ListShape? then "[" else "{" }

  ghost function Closing(shape: Shape): string { if shape.ListShape? then "]" else "}" }

  /** A container unrolls when all its children do, and is written as its pieces in brackets. */
  lemma ContainerMeaning(heap: Heap, v: PyObject, d: nat)
    requires Closed(heap) && IsContainer(heap, v)
    ensures var es := Entries(heap, v, d);
            var u := Unroll(heap, v, d);
            && (u.Some? <==> AllSome(es, |es|))
            && (u.Some? ==> Nodes(u.value) == 1 + Total(es, |es|))
            && (u.Some? ==>
                  Canon(u.value) == Opening(heap[v]) + Pieces(Prefixes(heap, v), es, |es|) + Closing(heap[v]))
  {
    ContainerUnrolls(heap, v, d);
    if Unroll(heap, v, d).Some? {
      if heap[v].ListShape? {
        ListMeaning(heap, v, d);
      } else {
        DictMeaning(heap, v, d);
      }
    }
    hide *;
  }

  lemma ContainerUnrolls(heap: Heap, v: PyObject, d: nat)
    requires Closed(heap) && IsContainer(heap, v)
    ensures Unroll(heap, v, d).Some? <==> AllSome(Entries(heap, v, d), |Children(heap, v)|)
  {
    var es := Entries(heap, v, d);
    if AllSome(es, |es|) {
      if heap[v].ListShape? {
        forall i | 0 <= i < |es| ensures Unroll(heap, heap[v].items[i], d - 1).Some? {
          assert es[i].Some?;
        }
      } else {
        var ks := Names(heap, v);
        forall k <- heap[v].entries ensures Unroll(heap, heap[v].entries[k], d - 1).Some? {
          var i :| 0 <= i < |ks| && ks[i] == k;
          assert es[i].Some?;
        }
      }
    }
  }

  lemma ListMeaning(heap: Heap, v: PyObject, d: nat)
    requires Closed(heap) && IsContainer(heap, v) && heap[v].ListShape?
    requires Unroll(heap, v, d).Some? && AllSome(Entries(heap, v, d), |Children(heap, v)|)
    ensures var es := Entries(heap, v, d);
            var j := Unroll(heap, v, d).value;
            && Nodes(j) == 1 + Total(es, |es|)
            && Canon(j) == "[" + Pieces(Prefixes(heap, v), es, |es|) + "]"
  {
    var es := Entries(heap, v, d);
    var u := UnrollItems(heap, heap[v].items, d - 1);
    forall i | 0 <= i < |es| ensures Prefixes(heap, v)[i] == "" && es[i] == Some(u.value[i]) {
      ListChild(heap, v, d, i);
    }
    ItemsPieces(Prefixes(heap, v), es, u.value, |es|);
    assert u.value[..|es|] == u.value;
  }

  lemma DictMeaning(heap: Heap, v: PyObject, d: nat)
    requires Closed(heap) && IsContainer(heap, v) && heap[v].DictShape?
    requires Unroll(heap, v, d).Some? && AllSome(Entries(heap, v, d), |Children(heap, v)|)
    ensures var es := Entries(heap, v, d);
            var j := Unroll(heap, v, d).value;
            && Nodes(j) == 1 + Total(es, |es|)
            && Canon(j) == "{" + Pieces(Prefixes(heap, v), es, |es|) + "}"
  {
    DictMembers(heap, v, d);
    ObjectText(Unroll(heap, v, d).value, Names(heap, v), Prefixes(heap, v), Entries(heap, v, d));
    hide *;
  }

  lemma ObjectText(j: Json, ks: seq<string>, prefixes: seq<string>, es: seq<Option<Json>>)
    requires j.Obj? && ks == SortedKeys(j.members.Keys) && |prefixes| == |es| == |ks|
    requires forall i | 0 <= i < |ks| ::
               && prefixes[i] == JsonText.FormatString(ks[i]) + ":"
               && ks[i] in j.members && es[i] == Some(j.members[ks[i]])
    ensures AllSome(es, |es|) && Nodes(j) == 1 + Total(es, |es|)
    ensures Canon(j) == "{" + Pieces(prefixes, es, |es|) + "}"
  {
    hide JsonText.FormatString, SortedKeys, Canon, Nodes, CanonMembers, NodesOfMembers, Pieces, Total;
    ObjectCanon(j);
    MembersPieces(prefixes, es, j, ks, |ks|);
    TakeAll(ks);
  }

  lemma TakeAll<T>(s: seq<T>)
    ensures s[..|s|] == s
  {
  }

  lemma ObjectCanon(j: Json)
    requires j.Obj?
    ensures Canon(j) == "{" + CanonMembers(j, SortedKeys(j.members.Keys), true) + "}"
    ensures Nodes(j) == 1 + NodesOfMembers(j, SortedKeys(j.members.Keys))
  {
  }

  lemma DictMembers(heap: Heap, v: PyObject, d: nat)
    requires Closed(heap) && IsContainer(heap, v) && heap[v].DictShape?
    requires Unroll(heap, v, d).Some? && AllSome(Entries(heap, v, d), |Children(heap, v)|)
    ensures var j := Unroll(heap, v, d).value;
            var ks := Names(heap, v);
            && j.Obj? && j.members.Keys == heap[v].entries.Keys && |Children(heap, v)| == |ks|
            && forall i | 0 <= i < |ks| ::
                 && ks[i] in j.members && Prefixes(heap, v)[i] == JsonText.FormatString(ks[i]) + ":"
                 && Entries(heap, v, d)[i] == Some(j.members[ks[i]])
  {
    hide JsonText.FormatString, SortedKeys;
    var j := Unroll(heap, v, d).value;
    var ks := Names(heap, v);
    forall i | 0 <= i < |ks|
      ensures ks[i] in j.members && Prefixes(heap, v)[i] == JsonText.FormatString(ks[i]) + ":"
      ensures Entries(heap, v, d)[i] == Some(j.members[ks[i]])
    {
      DictChild(heap, v, d, i);
    }
  }

  /** `dumps`: a fresh walk from depth 0. */
  method Dumps(value: PyObject, ghost heap: Heap) returns (r: Outcome<string>, ghost visits: nat)
    requires Closed(heap) && value in heap && Pictures(heap)
    ensures r.Ok? <==> Unroll(heap, value, 256).Some? && Nodes(Unroll(heap, value, 256).value) <= 200000
    ensures r.Ok? ==> r.value == Canon(Unroll(heap, value, 256).value)
    ensures r.Ok? ==> visits == Nodes(Unroll(heap, value, 256).value)
    ensures visits <= 200001
  {
    hide Canon, Nodes, Unroll, Closed, Pictures;
    var walk := new Canonicalizer();
    assert Concat(walk.out) == "";
    var done := walk.Serialize(value, 0, heap);
    visits := walk.visits;
    if !done.Ok? {
      return done.PropagateFailure(), visits;
    }
    r := Ok(Concat(walk.out));
  }

  /** On a value of any depth, the caps of the walk are `Canonicalizable`. */
  lemma DumpsRefinesCanon(heap: Heap, value: PyObject, limit: nat)
    requires Closed(heap) && value in heap
    requires MAX_DEPTH <= limit && Unroll(heap, value, limit).Some?
    ensures var j := Unroll(heap, value, limit).value;
            Admits(heap, value, 0, 0) <==> Canonicalizable(j)
    ensures Admits(heap, value, 0, 0) ==> Unroll(heap, value, MAX_DEPTH) == Unroll(heap, value, limit)
  {
    UnrollDepth(heap, value, MAX_DEPTH, limit);
  }

  /** A list that contains itself never unrolls, so it is always refused. */
  lemma CycleRefused(heap: Heap, v: PyObject, d: int)
    requires Closed(heap) && v in heap && heap[v].ListShape? && v in heap[v].items
    ensures Unroll(heap, v, d).None?
  {
    if d >= 0 {
      CycleRefused(heap, v, d - 1);
    }
  }
}
