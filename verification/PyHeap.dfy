/** Python values as objects in the heap: they may be shared and may contain themselves. */
module PyHeap {
  import opened Wrappers
  import opened Number
  import opened Jcs

  /** One object's type and contents. `Other` is any type that is not JSON. */
  datatype Shape =
    | NoneShape
    | BoolShape(b: bool)
    | StrShape(s: string)
    | NumShape(n: PyNumber)
    | ListShape(items: seq<PyObject>)
    | DictShape(entries: map<string, PyObject>)
    | OtherShape

  class PyObject {
    var shape: Shape
  }

  /** A picture of the objects of a heap; a walk never changes them. */
  type Heap = map<PyObject, Shape>

  ghost predicate Pictures(heap: Heap)
    reads heap.Keys
  {
    forall o <- heap :: o.shape == heap[o]
  }

  /** `heap` holds everything reachable from its members. */
  ghost predicate Closed(heap: Heap) {
    forall o <- heap ::
      && (heap[o].ListShape? ==> forall x <- heap[o].items :: x in heap)
      && (heap[o].DictShape? ==> forall k <- heap[o].entries :: heap[o].entries[k] in heap)
  }

  /**
   * The JSON value that `v` unrolls to, if it nests at most `d` levels and every leaf has one.
   * Shared objects are copied; a cycle never unrolls.
   */
  ghost function Unroll(heap: Heap, v: PyObject, d: int): Option<Json>
    requires Closed(heap) && v in heap
    decreases if d < 0 then 0 else d + 1, 0
  {
    if d < 0 then None
    else
      match heap[v]
      case NoneShape => Some(Null)
      case BoolShape(b) => Some(Bool(b))
      case StrShape(s) => Some(Str(s))
      case NumShape(n) => UnrollNumber(n)
      case ListShape(items) =>
        var js :- UnrollItems(heap, items, d - 1);
        Some(Arr(js))
      case DictShape(entries) =>
        if forall k <- entries :: Unroll(heap, entries[k], d - 1).Some? then
          Some(Obj(map k | k in entries :: Unroll(heap, entries[k], d - 1).value))
        else None
      case OtherShape => None
  }

  ghost function UnrollNumber(n: PyNumber): Option<Json> {
    match n
    case NotFinite => None
    case Finite(negative, magnitude) =>
      NumberOfExact(negative, magnitude);
      Some(Num(NumberOf(negative, magnitude)))
  }

  ghost function UnrollItems(heap: Heap, items: seq<PyObject>, d: int): (r: Option<seq<Json>>)
    requires Closed(heap) && forall x <- items :: x in heap
    ensures r.Some? <==> forall i | 0 <= i < |items| :: Unroll(heap, items[i], d).Some?
    ensures r.Some? ==> |r.value| == |items|
    ensures r.Some? ==> forall i | 0 <= i < |items| :: Unroll(heap, items[i], d) == Some(r.value[i])
    decreases if d < 0 then 0 else d + 1, 1, |items|
  {
    if items == [] then Some([])
    else
      var tail := items[1..];
      assert forall i | 0 <= i < |tail| :: tail[i] == items[i + 1];
      var j := Unroll(heap, items[0], d);
      var js := UnrollItems(heap, tail, d);
      if j.Some? && js.Some? then Some([j.value] + js.value) else None
  }

  lemma UnrollDepthList(heap: Heap, v: PyObject, d: int, limit: int)
    requires Closed(heap) && v in heap && 0 <= d <= limit
    requires heap[v].ListShape? && Unroll(heap, v, limit).Some?
    ensures Unroll(heap, v, d)
         == if DepthWithin(Unroll(heap, v, limit).value, d) then Unroll(heap, v, limit) else None
    decreases limit, 0
  {
    var items := heap[v].items;
    var deep := UnrollItems(heap, items, limit - 1).value;
    forall i | 0 <= i < |items|
      ensures Unroll(heap, items[i], d - 1) == if DepthWithin(deep[i], d - 1) then Some(deep[i]) else None
    {
      UnrollDepth(heap, items[i], d - 1, limit - 1);
    }
    var u := UnrollItems(heap, items, d - 1);
    if u.Some? {
      assert u.value == deep;
      assert forall x <- deep :: DepthWithin(x, d - 1);
    } else {
      var i :| 0 <= i < |items| && Unroll(heap, items[i], d - 1).None?;
      assert deep[i] in deep && !DepthWithin(deep[i], d - 1);
    }
  }

  lemma UnrollDepthDict(heap: Heap, v: PyObject, d: int, limit: int)
    requires Closed(heap) && v in heap && 0 <= d <= limit
    requires heap[v].DictShape? && Unroll(heap, v, limit).Some?
    ensures Unroll(heap, v, d)
         == if DepthWithin(Unroll(heap, v, limit).value, d) then Unroll(heap, v, limit) else None
    decreases limit, 0
  {
    var entries := heap[v].entries;
    var deep := Unroll(heap, v, limit).value;
    forall k <- entries
      ensures Unroll(heap, entries[k], d - 1)
           == if DepthWithin(deep.members[k], d - 1) then Some(deep.members[k]) else None
    {
      UnrollDepth(heap, entries[k], d - 1, limit - 1);
    }
    if Unroll(heap, v, d).Some? {
      assert Unroll(heap, v, d).value.members == deep.members;
    }
  }

  /** Looking less deep finds the same value, or nothing when some part of it lies deeper. */
  lemma {:induction false} UnrollDepth(heap: Heap, v: PyObject, d: int, limit: int)
    requires Closed(heap) && v in heap && d <= limit
    requires Unroll(heap, v, limit).Some?
    ensures Unroll(heap, v, d)
         == if DepthWithin(Unroll(heap, v, limit).value, d) then Unroll(heap, v, limit) else None
    decreases if limit < 0 then 0 else limit, 1
  {
    if d >= 0 {
      if heap[v].ListShape? {
        UnrollDepthList(heap, v, d, limit);
      } else if heap[v].DictShape? {
        UnrollDepthDict(heap, v, d, limit);
      }
    }
  }
}
