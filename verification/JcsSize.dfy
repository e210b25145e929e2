/** Simple bounds on the nodes and the depth of a JSON value. */
module JcsSize {
  import opened KeyOrder
  import opened Jcs

  lemma {:induction false} SortedCount(names: set<string>)
    ensures |SortedKeys(names)| == |names|
    decreases |names|
  {
    hide KeyLess;
    if names != {} {
      LeastUnique(names);
      var k :| IsLeast(names, k);
      SortedCount(names - {k});
      assert SortedKeys(names) == [k] + SortedKeys(names - {k});
    }
  }

  /** At most `d` levels below the value, and at most `c` values in all. */
  predicate Within(j: Json, d: nat, c: nat) {
    DepthWithin(j, d) && Nodes(j) <= c
  }

  lemma {:induction false} ItemsNodes(items: seq<Json>, c: nat)
    requires forall x <- items :: Nodes(x) <= c
    ensures NodesOfItems(items) <= |items| * c
  {
    hide Nodes;
    if items != [] {
      assert items[0] in items;
      ItemsNodes(items[1..], c);
      assert |items| * c == c + |items[1..]| * c;
    }
  }

  lemma {:induction false} MembersNodes(j: Json, ks: seq<string>, c: nat)
    requires j.Obj? && forall k <- ks :: k in j.members && Nodes(j.members[k]) <= c
    ensures NodesOfMembers(j, ks) <= |ks| * c
  {
    hide Nodes;
    if ks != [] {
      assert ks[0] in ks;
      MembersNodes(j, ks[1..], c);
      assert |ks| * c == c + |ks[1..]| * c;
    }
  }

  lemma ArrayWithin(items: seq<Json>, d: nat, c: nat)
    requires forall x <- items :: Within(x, d, c)
    ensures Within(Arr(items), d + 1, 1 + |items| * c)
  {
    ItemsNodes(items, c);
    assert Nodes(Arr(items)) == 1 + NodesOfItems(items);
    hide Nodes, NodesOfItems;
  }

  lemma ObjectWithin(members: map<string, Json>, d: nat, c: nat)
    requires forall k <- members :: Within(members[k], d, c)
    ensures Within(Obj(members), d + 1, 1 + |members| * c)
  {
    SortedCount(members.Keys);
    MembersNodes(Obj(members), SortedKeys(members.Keys), c);
    assert Nodes(Obj(members)) == 1 + NodesOfMembers(Obj(members), SortedKeys(members.Keys));
    assert |members.Keys| == |members|;
    hide Nodes, NodesOfMembers, SortedKeys;
  }

  /** Anything but a list or an object. */
  predicate IsLeaf(j: Json) { !j.Arr? && !j.Obj? }

  lemma LeafWithin(j: Json, d: nat, c: nat)
    requires IsLeaf(j) && c >= 1
    ensures Within(j, d, c)
  {
  }

  lemma {:induction false} DeeperWithin(j: Json, d: nat, e: nat)
    requires DepthWithin(j, d) && d <= e
    ensures DepthWithin(j, e)
    decreases j
  {
    match j
    case Arr(items) =>
      forall x | x in items ensures DepthWithin(x, e - 1) {
        DeeperWithin(x, d - 1, e - 1);
      }
    case Obj(members) =>
      forall k | k in members ensures DepthWithin(members[k], e - 1) {
        DeeperWithin(members[k], d - 1, e - 1);
      }
    case _ =>
  }

  /** A value well inside both caps canonicalizes. */
  lemma SmallCanonicalizes(j: Json, d: nat, c: nat)
    requires Within(j, d, c) && d <= MAX_DEPTH && c <= MAX_NODES_VISITED
    ensures Canonicalize(j).Some?
  {
    DeeperWithin(j, d, MAX_DEPTH);
    hide Nodes, DepthWithin;
  }
}
