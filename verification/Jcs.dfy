/** JSON values and their RFC 8785 canonical form, as text and as bytes. */
module Jcs {
  import opened Wrappers
  import opened Bytes
  import opened KeyOrder
  import opened Number
  import JsonText
  import Utf8

  /**
   * A JSON value. A number is the exact decimal it denotes and an object is a map, so
   * equality is equality up to member order and numeric spelling.
   */
  datatype Json =
    | Null
    | Bool(b: bool)
    | Num(n: JsonNumber)
    | Str(s: string)
    | Arr(items: seq<Json>)
    | Obj(members: map<string, Json>)

  /** `_serialize` without its caps: the canonical text of `j`. */
  function Canon(j: Json): string
    decreases j, 0
  {
    match j
    case Null => "null"
    case Bool(b) => if b then "true" else "false"
    case Num(n) => Format(n)
    case Str(s) => JsonText.FormatString(s)
    case Arr(items) => "[" + CanonItems(items, true) + "]"
    case Obj(members) => "{" + CanonMembers(j, SortedKeys(members.Keys), true) + "}"
  }

  function CanonItems(items: seq<Json>, first: bool): string
    decreases items, 0
  {
    if items == [] then ""
    else (if first then "" else ",") + Canon(items[0]) + CanonItems(items[1..], false)
  }

  function CanonMembers(j: Json, ks: seq<string>, first: bool): string
    requires j.Obj? && forall k <- ks :: k in j.members
    decreases j, 0, ks
  {
    if ks == [] then ""
    else
      (if first then "" else ",") + JsonText.FormatString(ks[0]) + ":" + Canon(j.members[ks[0]])
      + CanonMembers(j, ks[1..], false)
  }

  /** The number of values in `j`, itself included: one per `_serialize` call. */
  function Nodes(j: Json): (n: nat)
    ensures n >= 1
    decreases j, 0
  {
    match j
    case Arr(items) => 1 + NodesOfItems(items)
    case Obj(members) => 1 + NodesOfMembers(j, SortedKeys(members.Keys))
    case _ => 1
  }

  function NodesOfItems(items: seq<Json>): nat
    decreases items, 0
  {
    if items == [] then 0 else Nodes(items[0]) + NodesOfItems(items[1..])
  }

  function NodesOfMembers(j: Json, ks: seq<string>): nat
    requires j.Obj? && forall k <- ks :: k in j.members
    decreases j, 0, ks
  {
    if ks == [] then 0 else Nodes(j.members[ks[0]]) + NodesOfMembers(j, ks[1..])
  }

  /** Every value in `j` lies at most `d` levels below it. */
  predicate DepthWithin(j: Json, d: int)
    decreases j
  {
    && d >= 0
    && (j.Arr? ==> forall x <- j.items :: DepthWithin(x, d - 1))
    && (j.Obj? ==> forall k <- j.members :: DepthWithin(j.members[k], d - 1))
  }

  const MAX_DEPTH := 256
  const MAX_NODES_VISITED := 200000

  predicate Canonicalizable(j: Json) {
    DepthWithin(j, MAX_DEPTH) && Nodes(j) <= MAX_NODES_VISITED
  }

  /** `canonicalize`; `None` is its `JcsError`. */
  function Canonicalize(j: Json): Option<bytes> {
    if Canonicalizable(j) then Some(Utf8.Encode(Canon(j))) else None
  }
}
