/** The intersection list of a projection-mesh vertex in projecttin.c: a doubly
    linked list kept in order of height, then of descending layer. */
module IntersectionList {

  datatype Entry = Entry(z: real, layerId: int, triangles: seq<int>)

  // ----- the list as a value -----

  /** The scan goes past an entry that lies below, or level with it in a higher layer. */
  predicate Passes(e: Entry, z: real, layerId: int) {
    e.z < z || (e.z == z && e.layerId > layerId)
  }

  /** The number of leading entries that the scan goes past. */
  function Position(c: seq<Entry>, z: real, layerId: int): (i: nat)
    ensures i <= |c|
    ensures forall j :: 0 <= j < i ==> Passes(c[j], z, layerId)
    ensures i < |c| ==> !Passes(c[i], z, layerId)
  {
    if c == [] || !Passes(c[0], z, layerId) then 0 else 1 + Position(c[1..], z, layerId)
  }

  function WithTriangle(e: Entry, triangle: int): Entry {
    if triangle in e.triangles then e else e.(triangles := e.triangles + [triangle])
  }

  /** The list after adding a point: merged into an entry with the same height and
      layer, else inserted where the scan stops. */
  function Inserted(c: seq<Entry>, triangle: int, z: real, layerId: int): seq<Entry> {
    var i := Position(c, z, layerId);
    if i < |c| && c[i].z == z && c[i].layerId == layerId then c[i := WithTriangle(c[i], triangle)]
    else c[..i] + [Entry(z, layerId, [triangle])] + c[i..]
  }

  /** Strictly in order, and no entry lists a triangle twice. */
  ghost predicate Ordered(c: seq<Entry>) {
    Ascending(c) && forall i :: 0 <= i < |c| ==> NoRepeats(c[i].triangles)
  }

  /** In order of z, then of descending layer, without duplicates. */
  predicate Ascending(c: seq<Entry>) {
    forall i, j :: 0 <= i < j < |c| ==> Below(c[i], c[j])
  }

  predicate Below(e: Entry, f: Entry) {
    e.z < f.z || (e.z == f.z && e.layerId > f.layerId)
  }

  ghost predicate NoRepeats(s: seq<int>) {
    forall a, b :: 0 <= a < b < |s| ==> s[a] != s[b]
  }

  lemma NotTwice(e: Entry, triangle: int)
    requires NoRepeats(e.triangles)
    ensures NoRepeats(WithTriangle(e, triangle).triangles)
  {
  }

  lemma InsertedOrdered(c: seq<Entry>, triangle: int, z: real, layerId: int)
    requires Ordered(c)
    ensures Ordered(Inserted(c, triangle, z, layerId))
  {
    InsertedAscending(c, triangle, z, layerId);
    InsertedOnce(c, triangle, z, layerId);
    hide Inserted, Ascending, NoRepeats;
  }

  lemma InsertedOnce(c: seq<Entry>, triangle: int, z: real, layerId: int)
    requires forall i :: 0 <= i < |c| ==> NoRepeats(c[i].triangles)
    ensures var r := Inserted(c, triangle, z, layerId); forall i :: 0 <= i < |r| ==> NoRepeats(r[i].triangles)
  {
    var i, r := Position(c, z, layerId), Inserted(c, triangle, z, layerId);
    forall j | 0 <= j < |r| ensures NoRepeats(r[j].triangles) {
      if j == i && |r| == |c| {
        NotTwice(c[i], triangle);
      } else {
        assert j != i ==> r[j] == c[if j < i || |r| == |c| then j else j - 1];
      }
    }
  }

  lemma InsertedAscending(c: seq<Entry>, triangle: int, z: real, layerId: int)
    requires Ascending(c)
    ensures Ascending(Inserted(c, triangle, z, layerId))
  {
    var i, r := Position(c, z, layerId), Inserted(c, triangle, z, layerId);
    if |r| == |c| {
      assert forall j :: 0 <= j < |c| ==> r[j].z == c[j].z && r[j].layerId == c[j].layerId;
    } else {
      assert r[i] == Entry(z, layerId, [triangle]);
      forall j, k | 0 <= j < k < |r| ensures Below(r[j], r[k]) {
        var j', k' := if j < i then j else j - 1, if k < i then k else k - 1;
        assert j != i ==> r[j] == c[j'];
        assert k != i ==> r[k] == c[k'];
        if j == i && k > i + 1 {
          assert Below(c[i], c[k']);
        }
      }
    }
  }

  /** The list records that the given triangle has a point at this height and layer. */
  predicate Records(c: seq<Entry>, triangle: int, z: real, layerId: int) {
    exists i :: 0 <= i < |c| && c[i].z == z && c[i].layerId == layerId && triangle in c[i].triangles
  }

  /** Adding a point records exactly that point besides what was recorded before. */
  lemma InsertedRecords(c: seq<Entry>, triangle: int, z: real, layerId: int, t: int, y: real, l: int)
    ensures Records(Inserted(c, triangle, z, layerId), t, y, l)
      <==> (Records(c, t, y, l) || (t == triangle && y == z && l == layerId))
  {
    var i, r := Position(c, z, layerId), Inserted(c, triangle, z, layerId);
    assert i < |r| && r[i].z == z && r[i].layerId == layerId && triangle in r[i].triangles;
    if Records(c, t, y, l) {
      var j :| 0 <= j < |c| && c[j].z == y && c[j].layerId == l && t in c[j].triangles;
      var j' := if |r| == |c| || j < i then j else j + 1;
      assert r[j'].z == y && r[j'].layerId == l && t in r[j'].triangles;
    }
    if Records(r, t, y, l) {
      var j :| 0 <= j < |r| && r[j].z == y && r[j].layerId == l && t in r[j].triangles;
      if j != i || |r| == |c| {
        var j' := if |r| == |c| || j < i then j else j - 1;
        assert c[j'].z == y && c[j'].layerId == l;
      }
    }
  }

  // ----- the linked list -----

  class Node {
    var z: real
    var layerId: int
    var triangles: seq<int>
    var next: Node?
    var prev: Node?

    constructor (triangle: int, z: real, layerId: int)
      ensures this.z == z && this.layerId == layerId && triangles == [triangle]
    {
      this.z, this.layerId, this.triangles := z, layerId, [triangle];
      next, prev := null, null;
    }
  }

  class List {
    var head: Node?
    var tail: Node?
    ghost var nodes: seq<Node>

    ghost function Nodes(): set<Node>
      reads this
    {
      set n | n in nodes
    }

    /** The links agree with the sequence of nodes, in both directions. */
    ghost predicate Valid()
      reads this, Nodes()
    {
      && (forall i, j :: 0 <= i < j < |nodes| ==> nodes[i] != nodes[j])
      && (if nodes == [] then head == null && tail == null else head == nodes[0] && tail == nodes[|nodes| - 1])
      && (forall i {:trigger nodes[i].next} :: 0 <= i < |nodes| ==>
            nodes[i].next == if i + 1 < |nodes| then nodes[i + 1] else null)
      && (forall i {:trigger nodes[i].prev} :: 0 <= i < |nodes| ==>
            nodes[i].prev == if i > 0 then nodes[i - 1] else null)
    }

    ghost function Contents(): (c: seq<Entry>)
      reads this, Nodes()
      ensures |c| == |nodes|
    {
      seq(|nodes|, i requires 0 <= i < |nodes| reads this, Nodes() =>
        Entry(nodes[i].z, nodes[i].layerId, nodes[i].triangles))
    }

    constructor ()
      ensures Valid() && Contents() == []
    {
      head, tail, nodes := null, null, [];
    }

    /** Finds where a point belongs: the entry with the same height and layer, else
        the first entry above it, else the end of the list. */
    method Scan(z: real, layerId: int) returns (ptr: Node?, duplicate: bool, ghost i: nat)
      requires Valid()
      ensures i == Position(Contents(), z, layerId)
      ensures ptr == if i < |nodes| then nodes[i] else null
      ensures duplicate <==> i < |nodes| && Contents()[i].z == z && Contents()[i].layerId == layerId
      ensures head != null ==> nodes != []
    {
      ptr, duplicate, i := head, false, 0;
      var found := false;
      ghost var c := Contents();
      while ptr != null && !found && !duplicate
        invariant i <= |nodes| && ptr == if i < |nodes| then nodes[i] else null
        invariant forall j :: 0 <= j < i ==> Passes(c[j], z, layerId)
        invariant found || duplicate ==> i < |nodes| && !Passes(c[i], z, layerId)
        invariant duplicate <==> i < |nodes| && (found || duplicate) && nodes[i].z == z && nodes[i].layerId == layerId
        decreases |nodes| - i, !found && !duplicate
      {
        if z == ptr.z && layerId == ptr.layerId {
          duplicate := true;
        } else if ptr.z > z {
          found := true;
        } else if z == ptr.z && ptr.layerId < layerId {
          found := true;
        } else {
          ptr := ptr.next;
          i := i + 1;
        }
      }
      PositionIs(c, z, layerId, i);
    }

    /** Records a triangle in an entry that is already on the list. */
    method Merge(ptr: Node, triangle: int, ghost i: nat)
      requires Valid() && i < |nodes| && ptr == nodes[i]
      modifies nodes
      ensures Valid() && nodes == old(nodes)
      ensures Contents() == old(Contents())[i := WithTriangle(old(Contents())[i], triangle)]
    {
      if triangle !in ptr.triangles {
        ptr.triangles := ptr.triangles + [triangle];
      }
    }

    /** Links a new element in before ptr. */
    method LinkBefore(ptr: Node, newElement: Node, ghost i: nat)
      requires Valid() && i < |nodes| && ptr == nodes[i] && newElement !in nodes
      modifies this, nodes, newElement
      ensures Valid() && nodes == old(nodes)[..i] + [newElement] + old(nodes)[i..]
      ensures forall n :: n in nodes ==> n.z == old(n.z) && n.layerId == old(n.layerId) && n.triangles == old(n.triangles)
    {
      ghost var before := nodes;
      if ptr.prev != null {
        ptr.prev.next := newElement;
      } else {
        head := newElement;
      }
      newElement.next := ptr;
      newElement.prev := ptr.prev;
      ptr.prev := newElement;
      nodes := nodes[..i] + [newElement] + nodes[i..];
      assert forall k :: 0 <= k < i ==> nodes[k] == before[k];
      assert forall k :: i < k < |nodes| ==> nodes[k] == before[k - 1];
    }

    /** Inserts a new element before ptr. */
    method InsertBefore(ptr: Node, newElement: Node, ghost i: nat)
      requires Valid() && i < |nodes| && ptr == nodes[i] && newElement !in nodes
      modifies this, nodes, newElement
      ensures Valid() && nodes == old(nodes)[..i] + [newElement] + old(nodes)[i..]
      ensures Contents() == old(Contents())[..i]
        + [Entry(old(newElement.z), old(newElement.layerId), old(newElement.triangles))] + old(Contents())[i..]
    {
      hide Valid;
      ghost var c, before := Contents(), nodes;
      LinkBefore(ptr, newElement, i);
      assert newElement in nodes;
      forall k | 0 <= k < |nodes| ensures k < i ==> Contents()[k] == c[k] ensures k > i ==> Contents()[k] == c[k - 1] {
        assert nodes[k] in nodes;
        assert nodes[k] == if k < i then before[k] else if k == i then newElement else before[k - 1];
      }
      Spliced(c, Contents(), Entry(newElement.z, newElement.layerId, newElement.triangles), i);
    }

    /** Links a new element in at the end of a nonempty list. */
    method Append(newElement: Node)
      requires Valid() && nodes != [] && newElement !in nodes
      modifies this, nodes, newElement
      ensures Valid() && nodes == old(nodes)[..|old(nodes)|] + [newElement] + old(nodes)[|old(nodes)|..]
      ensures Contents() == old(Contents())
        + [Entry(old(newElement.z), old(newElement.layerId), old(newElement.triangles))]
    {
      tail.next := newElement;
      newElement.next := null;
      newElement.prev := tail;
      tail := newElement;
      nodes := nodes + [newElement];
    }

    /** Makes a new element the whole list. */
    method First(newElement: Node)
      requires Valid() && head == null
      modifies this, newElement
      ensures Valid() && nodes == [newElement] && old(Contents()) == []
      ensures Contents() == [Entry(old(newElement.z), old(newElement.layerId), old(newElement.triangles))]
    {
      head := newElement;
      tail := newElement;
      newElement.next := null;
      newElement.prev := null;
      nodes := [newElement];
    }

    /** Adds an intersection point of a projection triangle. */
    method AddIntersectionPoint(triangle: int, z: real, layerId: int)
      requires Valid()
      modifies this, Nodes()
      ensures Valid() && fresh(Nodes() - old(Nodes()))
      ensures Contents() == Inserted(old(Contents()), triangle, z, layerId)
    {
      hide Valid, Contents;
      var newElement := new Node(triangle, z, layerId);
      ghost var c := Contents();
      if head == null {
        First(newElement);
      } else {
        var ptr, duplicate, i := Scan(z, layerId);
        assert Contents() == c;
        if duplicate {
          Merge(ptr, triangle, i);
        } else {
          if ptr != null {
            InsertBefore(ptr, newElement, i);
          } else {
            Append(newElement);
          }
        }
      }
    }
  }

  lemma Spliced(c: seq<Entry>, d: seq<Entry>, e: Entry, i: nat)
    requires i <= |c| && |d| == |c| + 1 && d[i] == e
    requires forall k :: 0 <= k < i ==> d[k] == c[k]
    requires forall k :: i < k < |d| ==> d[k] == c[k - 1]
    ensures d == c[..i] + [e] + c[i..]
  {
  }

  lemma {:induction false} PositionIs(c: seq<Entry>, z: real, layerId: int, i: nat)
    requires i <= |c| && forall j :: 0 <= j < i ==> Passes(c[j], z, layerId)
    requires i < |c| ==> !Passes(c[i], z, layerId)
    ensures i == Position(c, z, layerId)
  {
  }
}
