/** The projection mesh of projecttin.c: vertices linked in order of x, and a sweep
    that projects the triangles of a TIN onto the vertices under them. */
module ProjectionMesh {
  import opened Reals
  import opened LineTriangle
  import opened IntersectionList

  datatype Tin = Tin(vertices: seq<Point>, triangles: seq<(nat, nat, nat)>, matId: int) {
    predicate Valid() {
      forall k :: 0 <= k < |triangles| ==>
        triangles[k].0 < |vertices| && triangles[k].1 < |vertices| && triangles[k].2 < |vertices|
    }

    function At(k: nat): Triangle
      requires Valid() && k < |triangles|
    {
      Triangle(vertices[triangles[k].0], vertices[triangles[k].1], vertices[triangles[k].2])
    }
  }

  // ----- what projecting onto one vertical line does -----

  /** The vertical line at (x, y) meets a triangle that is not itself vertical. */
  ghost predicate Hits(t: Triangle, x: real, y: real) {
    Along(ZDIRECTION, Normal(t)) != 0.0 && exists w :: MeetsAt(ZDIRECTION, x, y, t, w)
  }

  ghost function HitHeight(t: Triangle, x: real, y: real): (w: real)
    requires Hits(t, x, y)
    ensures MeetsAt(ZDIRECTION, x, y, t, w)
  {
    var w :| MeetsAt(ZDIRECTION, x, y, t, w);
    w
  }

  lemma HitHeightUnique(t: Triangle, x: real, y: real, w: real)
    requires Along(ZDIRECTION, Normal(t)) != 0.0 && MeetsAt(ZDIRECTION, x, y, t, w)
    ensures Hits(t, x, y) && HitHeight(t, x, y) == w
  {
    MeetsOnPlane(t, x, y, w);
    MeetsOnPlane(t, x, y, HitHeight(t, x, y));
    AreaIsNormal(ZDIRECTION, x, y, t);
    hide MeetsAt, OnPlane, AreaOf;
    PlanePointUnique(CornerOf(ZDIRECTION, x, y, t.v0), CornerOf(ZDIRECTION, x, y, t.v1), CornerOf(ZDIRECTION, x, y, t.v2),
                     w, HitHeight(t, x, y));
  }

  lemma MeetsOnPlane(t: Triangle, x: real, y: real, w: real)
    requires MeetsAt(ZDIRECTION, x, y, t, w)
    ensures OnPlane(CornerOf(ZDIRECTION, x, y, t.v0), CornerOf(ZDIRECTION, x, y, t.v1), CornerOf(ZDIRECTION, x, y, t.v2), w)
  {
    var d := ZDIRECTION;
    var s0, s1, s2 := MeetsWeights(d, x, y, t, w);
    hide OnPlane, Mix;
    OnTriangleMeets(d, x, y, t, s0, s1, s2);
    AffineOnPlane(s0, s1, s2, CornerOf(d, x, y, t.v0), CornerOf(d, x, y, t.v1), CornerOf(d, x, y, t.v2));
  }

  function Min(a: real, b: real): real {
    if a < b then a else b
  }

  function Max(a: real, b: real): real {
    if a < b then b else a
  }

  function MinX(t: Triangle): real {
    Min(Min(t.v0.x, t.v1.x), t.v2.x)
  }

  function MaxX(t: Triangle): real {
    Max(Max(t.v0.x, t.v1.x), t.v2.x)
  }

  /** A line outside the x range of a triangle does not meet it. */
  lemma HitInRange(t: Triangle, x: real, y: real)
    requires Hits(t, x, y)
    ensures MinX(t) <= x <= MaxX(t)
  {
    var d := ZDIRECTION;
    var w :| MeetsAt(d, x, y, t, w);
    var s0, s1, s2 := MeetsWeights(d, x, y, t, w);
    MixBounds(s0, s1, s2, t.v0.x, t.v1.x, t.v2.x, MinX(t), MaxX(t));
  }

  lemma MixBounds(s0: real, s1: real, s2: real, a: real, b: real, c: real, lo: real, hi: real)
    requires Weights(s0, s1, s2) && lo <= a <= hi && lo <= b <= hi && lo <= c <= hi
    ensures lo <= Mix(s0, s1, s2, a, b, c) <= hi
  {
    Scaled(s0, lo, a);
    Scaled(s1, lo, b);
    Scaled(s2, lo, c);
    Scaled(s0, a, hi);
    Scaled(s1, b, hi);
    Scaled(s2, c, hi);
    WeightsOfOne(s0, s1, s2, lo);
    WeightsOfOne(s0, s1, s2, hi);
    assert Mix(s0, s1, s2, a, b, c) == Times(s0, a) + Times(s1, b) + Times(s2, c);
    hide Times, Mix;
  }

  lemma WeightsOfOne(s0: real, s1: real, s2: real, m: real)
    requires s0 + s1 + s2 == 1.0
    ensures Times(s0, m) + Times(s1, m) + Times(s2, m) == m
  {
    assert s0 * m == (1.0 - s1 - s2) * m;
  }

  lemma Scaled(s: real, a: real, b: real)
    requires s >= 0.0 && a <= b
    ensures Times(s, a) <= Times(s, b)
  {
    assert s * (b - a) >= 0.0;
  }

  /** The list after adding one point for each of the vertex's first n projection triangles. */
  function AddedForAll(c: seq<Entry>, tris: seq<int>, n: nat, z: real, matId: int): seq<Entry>
    requires n <= |tris|
  {
    if n == 0 then c else Inserted(AddedForAll(c, tris, n - 1, z, matId), tris[n - 1], z, matId)
  }

  ghost function AfterTriangle(c: seq<Entry>, tris: seq<int>, x: real, y: real, t: Triangle, matId: int): seq<Entry> {
    if Hits(t, x, y) then AddedForAll(c, tris, |tris|, HitHeight(t, x, y), matId) else c
  }

  /** The list at (x, y) after testing the vertex against the first k triangles of a TIN. */
  ghost function AfterTin(c: seq<Entry>, tris: seq<int>, x: real, y: real, tin: Tin, k: nat): seq<Entry>
    requires tin.Valid() && k <= |tin.triangles|
  {
    if k == 0 then c
    else AfterTriangle(AfterTin(c, tris, x, y, tin, k - 1), tris, x, y, tin.At(k - 1), tin.matId)
  }

  lemma {:induction false} AddedForAllRecords(c: seq<Entry>, tris: seq<int>, n: nat, z: real, matId: int, s: int, h: real, l: int)
    requires n <= |tris|
    ensures Records(AddedForAll(c, tris, n, z, matId), s, h, l)
      <==> (Records(c, s, h, l) || (s in tris[..n] && h == z && l == matId))
    ensures Ordered(c) ==> Ordered(AddedForAll(c, tris, n, z, matId))
  {
    if n > 0 {
      hide Records, Inserted, Ordered;
      AddedForAllRecords(c, tris, n - 1, z, matId, s, h, l);
      InsertedRecords(AddedForAll(c, tris, n - 1, z, matId), tris[n - 1], z, matId, s, h, l);
      if Ordered(c) {
        InsertedOrdered(AddedForAll(c, tris, n - 1, z, matId), tris[n - 1], z, matId);
      }
      assert tris[..n] == tris[..n - 1] + [tris[n - 1]];
    }
  }

  /** Projecting a TIN keeps a vertex's list strictly ordered and records, besides
      what was there, exactly the heights at which its triangles are met. */
  lemma {:induction false} AfterTinRecords(c: seq<Entry>, tris: seq<int>, x: real, y: real, tin: Tin, k: nat, s: int, h: real, l: int)
    requires tin.Valid() && k <= |tin.triangles|
    ensures Ordered(c) ==> Ordered(AfterTin(c, tris, x, y, tin, k))
    ensures Records(AfterTin(c, tris, x, y, tin, k), s, h, l)
      <==> (Records(c, s, h, l) || (s in tris && l == tin.matId
            && exists i :: 0 <= i < k && Hits(tin.At(i), x, y) && HitHeight(tin.At(i), x, y) == h))
  {
    if k > 0 {
      hide Records, Inserted, Ordered, Hits, HitHeight;
      var before, t := AfterTin(c, tris, x, y, tin, k - 1), tin.At(k - 1);
      AfterTinRecords(c, tris, x, y, tin, k - 1, s, h, l);
      if Hits(t, x, y) {
        AddedForAllRecords(before, tris, |tris|, HitHeight(t, x, y), tin.matId, s, h, l);
        assert tris[..|tris|] == tris;
      }
    }
  }

  /** A vertex without its links. */
  datatype Spot = Spot(x: real, y: real, triangles: seq<int>)

  ghost function AfterSpot(c: seq<Entry>, s: Spot, t: Triangle, matId: int): seq<Entry> {
    AfterTriangle(c, s.triangles, s.x, s.y, t, matId)
  }

  /** Every list before place i is what testing its vertex makes of it, the others are as before. */
  ghost predicate Swept(before: seq<seq<Entry>>, now: seq<seq<Entry>>, spots: seq<Spot>, t: Triangle, matId: int, i: nat) {
    && i <= |now| == |before| == |spots|
    && (forall k :: 0 <= k < i ==> now[k] == AfterSpot(before[k], spots[k], t, matId))
    && (forall k :: i <= k < |now| ==> now[k] == before[k])
  }

  lemma NoneSwept(before: seq<seq<Entry>>, spots: seq<Spot>, t: Triangle, matId: int)
    requires |before| == |spots|
    ensures Swept(before, before, spots, t, matId, 0)
  {
  }

  lemma SweptNext(before: seq<seq<Entry>>, now: seq<seq<Entry>>, spots: seq<Spot>, t: Triangle, matId: int, i: nat)
    requires Swept(before, now, spots, t, matId, i) && i < |now|
    ensures Swept(before, now[i := AfterSpot(now[i], spots[i], t, matId)], spots, t, matId, i + 1)
  {
    hide AfterSpot;
  }

  /** Vertices out of range need no update. */
  lemma SweptSkip(before: seq<seq<Entry>>, now: seq<seq<Entry>>, spots: seq<Spot>, t: Triangle, matId: int, i: nat, m: nat)
    requires Swept(before, now, spots, t, matId, i) && i <= m <= |spots|
    requires forall k :: i <= k < m ==> spots[k].x < MinX(t) || spots[k].x > MaxX(t)
    ensures Swept(before, now, spots, t, matId, m)
  {
    hide AfterTriangle, MinX, MaxX;
    forall k | i <= k < m ensures now[k] == AfterSpot(before[k], spots[k], t, matId) {
      OutOfRange(before[k], spots[k].triangles, spots[k].x, spots[k].y, t, matId);
    }
  }

  /** The list of every vertex is what testing it against the first n triangles makes of it. */
  ghost predicate Projected(before: seq<seq<Entry>>, now: seq<seq<Entry>>, spots: seq<Spot>, tin: Tin, n: nat)
    requires tin.Valid() && n <= |tin.triangles|
  {
    && |before| == |now| == |spots|
    && forall k :: 0 <= k < |now| ==>
         now[k] == AfterTin(before[k], spots[k].triangles, spots[k].x, spots[k].y, tin, n)
  }

  lemma NoneProjected(before: seq<seq<Entry>>, spots: seq<Spot>, tin: Tin)
    requires tin.Valid() && |before| == |spots|
    ensures Projected(before, before, spots, tin, 0)
  {
  }

  lemma NextProjected(before: seq<seq<Entry>>, mid: seq<seq<Entry>>, now: seq<seq<Entry>>, spots: seq<Spot>, tin: Tin, n: nat)
    requires tin.Valid() && n < |tin.triangles| && Projected(before, mid, spots, tin, n)
    requires Swept(mid, now, spots, tin.At(n), tin.matId, |spots|)
    ensures Projected(before, now, spots, tin, n + 1)
  {
    hide AfterTriangle, Tin.At;
  }

  // ----- the mesh -----

  /** A vertex owns its intersection list. */
  class MeshVertex {
    var x: real
    var y: real
    var triangles: seq<int>
    var next: MeshVertex?
    var prev: MeshVertex?
    const list: List

    constructor (x: real, y: real)
      ensures this.x == x && this.y == y && triangles == []
      ensures fresh(list) && EmptyList(list)
    {
      this.x, this.y, triangles := x, y, [];
      next, prev := null, null;
      list := new List();
    }
  }

  ghost predicate EmptyList(l: List)
    reads l
  {
    l.nodes == [] && l.head == null && l.tail == null
  }

  /** Two vertices have different lists with different nodes. */
  ghost predicate Apart(u: MeshVertex, v: MeshVertex)
    reads u.list, v.list
  {
    u.list != v.list && u.list.Nodes() !! v.list.Nodes()
  }

  class Mesh {
    var vertices: seq<MeshVertex>
    var head: MeshVertex?
    var tail: MeshVertex?
    var current: MeshVertex?
    ghost var order: seq<MeshVertex>
    ghost var lists: set<List>
    ghost var nodes: set<Node>

    /** The links agree with the sequence of vertices, in both directions. */
    ghost predicate Linked()
      reads this`head, this`tail, this`order, order
    {
      && (forall i, j :: 0 <= i < j < |order| ==> order[i] != order[j])
      && (if order == [] then head == null && tail == null else head == order[0] && tail == order[|order| - 1])
      && (forall i {:trigger order[i].next} :: 0 <= i < |order| ==>
            order[i].next == if i + 1 < |order| then order[i + 1] else null)
      && (forall i {:trigger order[i].prev} :: 0 <= i < |order| ==>
            order[i].prev == if i > 0 then order[i - 1] else null)
    }

    ghost function Xs(): (xs: seq<real>)
      reads this`order, order
      ensures |xs| == |order|
    {
      var o := order;
      seq(|o|, k requires 0 <= k < |o| reads o => o[k].x)
    }

    /** The linked list runs through all the vertices in order of x. */
    ghost predicate InPlace()
      reads this`head, this`tail, this`order, this`vertices, order
    {
      && Linked()
      && InOrder(Xs())
      && (forall v :: v in order ==> v in vertices) && (forall v :: v in vertices ==> v in order)
    }

    /** Every intersection list is well linked and strictly in order, and shares nothing with
        another; lists and nodes are those of all the vertices, perhaps with more. */
    ghost predicate ListsValid()
      reads this`order, this`lists, this`nodes, lists, nodes
    {
      && (forall v :: v in order ==> v.list in lists && v.list.Nodes() <= nodes)
      && (forall v :: v in order ==> v.list.Valid() && Ordered(v.list.Contents()))
      && (forall u, v :: u in order && v in order && u != v ==> Apart(u, v))
    }

    ghost predicate Valid()
      reads this`head, this`tail, this`order, this`vertices, this`lists, this`nodes, order, lists, nodes
    {
      InPlace() && ListsValid()
    }

    constructor ()
      ensures Valid() && vertices == [] && lists == {} && nodes == {}
    {
      vertices, head, tail, current, order := [], null, null, null, [];
      lists, nodes := {}, {};
    }

    /** Finds the first vertex beyond x, to insert before. */
    method FindLater(x: real) returns (ptr: MeshVertex?, ghost i: nat)
      requires InPlace()
      ensures i <= |order| && ptr == if i < |order| then order[i] else null
      ensures forall j :: 0 <= j < i ==> order[j].x <= x
      ensures i < |order| ==> order[i].x > x
    {
      ptr, i := head, 0;
      while ptr != null && ptr.x <= x
        invariant i <= |order| && ptr == if i < |order| then order[i] else null
        invariant forall j :: 0 <= j < i ==> order[j].x <= x
        decreases |order| - i
      {
        ptr := ptr.next;
        i := i + 1;
      }
    }

    /** Links a vertex in before ptr. */
    method LinkBefore(ptr: MeshVertex, v: MeshVertex, ghost i: nat)
      requires Linked() && i < |order| && ptr == order[i] && v !in order
      modifies this`head, this`order, order, v
      ensures Linked() && order == old(order)[..i] + [v] + old(order)[i..]
      ensures forall u :: u in order ==> u.x == old(u.x) && u.y == old(u.y)
    {
      ghost var before := order;
      if ptr.prev != null {
        ptr.prev.next := v;
      } else {
        head := v;
      }
      v.next := ptr;
      v.prev := ptr.prev;
      ptr.prev := v;
      order := order[..i] + [v] + order[i..];
      assert forall k :: 0 <= k < i ==> order[k] == before[k];
      assert forall k :: i < k < |order| ==> order[k] == before[k - 1];
    }

    /** Links a vertex in at the end. */
    method LinkLast(v: MeshVertex)
      requires Linked() && v !in order
      modifies this`head, this`tail, this`order, order, v
      ensures Linked() && order == old(order) + [v]
      ensures forall u :: u in order ==> u.x == old(u.x) && u.y == old(u.y)
    {
      if head == null {
        head := v;
        v.prev := null;
      } else {
        tail.next := v;
        v.prev := tail;
      }
      v.next := null;
      tail := v;
      order := order + [v];
    }

    /** Links a vertex in at place i. */
    method LinkAt(ptr: MeshVertex?, v: MeshVertex, ghost i: nat)
      requires Linked() && i <= |order| && ptr == (if i < |order| then order[i] else null) && v !in order
      modifies this`head, this`tail, this`order, order, v
      ensures Linked() && order == old(order)[..i] + [v] + old(order)[i..]
      ensures Xs() == old(Xs())[..i] + [old(v.x)] + old(Xs())[i..]
      ensures v.x == old(v.x) && v.y == old(v.y)
    {
      hide Linked;
      ghost var before, xs := order, Xs();
      if ptr != null {
        LinkBefore(ptr, v, i);
      } else {
        LinkLast(v);
      }
      assert v in order;
      forall k | 0 <= k < |order|
        ensures Xs()[k] == if k < i then xs[k] else if k == i then old(v.x) else xs[k - 1]
      {
        assert order[k] in order;
        assert order[k] == if k < i then before[k] else if k == i then v else before[k - 1];
      }
    }

    /** Adds a vertex behind all vertices that are not to the right of it. */
    method AddVertex(x: real, y: real) returns (index: nat, ghost i: nat)
      requires Valid()
      modifies this, order
      ensures Valid() && nodes == old(nodes)
      ensures index == |old(vertices)| && |vertices| == index + 1 && vertices[..index] == old(vertices)
      ensures lists == old(lists) + {vertices[index].list} && fresh(vertices[index].list)
      ensures fresh(vertices[index]) && vertices[index].x == x && vertices[index].y == y
      ensures i <= |old(order)| && order == old(order)[..i] + [vertices[index]] + old(order)[i..]
    {
      hide Linked, InOrder, Xs, ListsValid, EmptyList;
      var v := new MeshVertex(x, y);
      index, i := PlaceVertex(v);
      lists := lists + {v.list};
      ListsGrown(v, i);
    }

    /** Links a vertex in and records it. */
    method PlaceVertex(v: MeshVertex) returns (index: nat, ghost i: nat)
      requires InPlace() && v !in order && EmptyList(v.list)
      modifies `vertices, `head, `tail, `order, order, v
      ensures InPlace() && index == |old(vertices)| && vertices == old(vertices) + [v]
      ensures v.x == old(v.x) && v.y == old(v.y) && EmptyList(v.list)
      ensures i <= |old(order)| && order == old(order)[..i] + [v] + old(order)[i..]
    {
      var ptr;
      ptr, i := FindLater(v.x);
      ghost var before, known, xs := order, vertices, Xs();
      SortedSpliced(xs, v.x, i);
      hide Linked, Xs, InOrder;
      index := |vertices|;
      LinkAt(ptr, v, i);
      SplicedMembers(before, order, known, v, i);
      AppendVertex(v);
    }

    lemma BothNow()
      requires Valid()
      ensures InPlace() && ListsValid()
    {
    }

    /** A new vertex brings an empty list of its own. */
    twostate lemma ListsGrown(new v: MeshVertex, i: nat)
      requires old(ListsValid()) && unchanged(old(lists)) && unchanged(old(nodes))
      requires i <= |old(order)| && order == old(order)[..i] + [v] + old(order)[i..]
      requires fresh(v.list) && EmptyList(v.list)
      requires lists == old(lists) + {v.list} && nodes == old(nodes)
      ensures ListsValid()
    {
      assert v.list.Valid();
      hide Ordered, List.Valid;
      forall u | u in order ensures u == v || u in old(order) {
      }
      assert v.list.Contents() == [];
      assert Ordered([]) by {
        NoneOrdered();
      }
      forall u, w | u in order && w in order && u != w ensures Apart(u, w) {
        if u != v && w != v {
          assert old(Apart(u, w));
        }
      }
    }

    /** Records a vertex in the vertex array; the list is not affected. */
    method AppendVertex(v: MeshVertex)
      modifies this`vertices
      ensures vertices == old(vertices) + [v] && Xs() == old(Xs())
      ensures old(Linked()) ==> Linked()
    {
      vertices := vertices + [v];
    }

    /** The first vertex at or to the right of minX becomes current. */
    method FindFirstProjectionPoint(minX: real) returns (p: MeshVertex?, ghost i: nat)
      requires Valid()
      modifies `current
      ensures i <= |order| && p == (if i < |order| then order[i] else null) && (p != null ==> current == p)
      ensures forall j :: 0 <= j < i ==> order[j].x < minX
    {
      p, i := head, 0;
      while p != null
        invariant i <= |order| && p == if i < |order| then order[i] else null
        invariant forall j :: 0 <= j < i ==> order[j].x < minX
        decreases |order| - i
      {
        if p.x >= minX {
          current := p;
          return;
        }
        p := p.next;
        i := i + 1;
      }
    }

    /** The vertex after the current one, unless it is to the right of maxX. */
    method NextProjectionPoint(maxX: real, ghost i: nat) returns (p: MeshVertex?)
      requires Valid() && i < |order| && current == order[i]
      modifies `current
      ensures current == p && (p != null ==> i + 1 < |order| && p == order[i + 1] && p.x <= maxX)
      ensures p == null && i + 1 < |order| ==> order[i + 1].x > maxX
    {
      if current.next != null && current.next.x <= maxX {
        current := current.next;
        p := current;
      } else {
        current := null;
        p := null;
      }
    }

    /** Tests one vertex against a triangle and records the point, if there is one,
        for every projection triangle of the vertex. */
    static method ProjectOntoVertex(p: MeshVertex, t: Triangle, matId: int)
      requires p.list.Valid()
      modifies p.list, p.list.Nodes()
      ensures p.list.Valid() && fresh(p.list.Nodes() - old(p.list.Nodes()))
      ensures p.list.Contents() == AfterTriangle(old(p.list.Contents()), p.triangles, p.x, p.y, t, matId)
    {
      hide MeetsAt, Inserted, List.Valid, List.Contents;
      var intersects, zIntersection, normalComponent := IntersectLineWithTriangle(ZDIRECTION, p.x, p.y, t);
      if intersects {
        HitHeightUnique(t, p.x, p.y, zIntersection);
        for i := 0 to |p.triangles|
          invariant p.list.Valid() && fresh(p.list.Nodes() - old(p.list.Nodes()))
          invariant p.list.Contents() == AddedForAll(old(p.list.Contents()), p.triangles, i, zIntersection, matId)
        {
          p.list.AddIntersectionPoint(p.triangles[i], zIntersection, matId);
        }
      }
    }

    /** The intersection list of a vertex; a vertex of a valid mesh owns its list. */
    static ghost function ListAt(v: MeshVertex, ls: set<List>, ns: set<Node>): seq<Entry>
      reads ls, ns
    {
      if v.list in ls && v.list.Nodes() <= ns then v.list.Contents() else []
    }

    /** The intersection lists of the vertices, in list order. */
    ghost function Lists(): (c: seq<seq<Entry>>)
      reads this`order, this`lists, this`nodes, lists, nodes
      ensures |c| == |order|
      ensures forall k :: 0 <= k < |order| ==> c[k] == ListAt(order[k], lists, nodes)
    {
      var o, ls, ns := order, lists, nodes;
      seq(|o|, k requires 0 <= k < |o| reads ls, ns => ListAt(o[k], ls, ns))
    }

    /** Where the vertices are and which projection triangles they have. */
    ghost function Spots(): (c: seq<Spot>)
      reads this`order, order
      ensures |c| == |order|
      ensures forall k :: 0 <= k < |order| ==> c[k] == Spot(order[k].x, order[k].y, order[k].triangles)
    {
      var o := order;
      seq(|o|, k requires 0 <= k < |o| reads o => Spot(o[k].x, o[k].y, o[k].triangles))
    }

    /** One step of the sweep. */
    method ProjectOnto(p: MeshVertex, t: Triangle, matId: int, ghost i: nat)
      requires Valid() && i < |order| && p == order[i]
      modifies `nodes, p.list, p.list.Nodes()
      ensures Valid() && fresh(nodes - old(nodes)) && Spots() == old(Spots())
      ensures Lists() == old(Lists())[i := AfterSpot(old(Lists())[i], old(Spots())[i], t, matId)]
    {
      hide *;
      ListOfOne(p);
      ProjectKeeping(p, t, matId);
      ListsUpdated(p);
      SpotIs(p, t, matId, i);
    }

    /** All is valid afterwards, and the other lists are kept. */
    method ProjectKeeping(p: MeshVertex, t: Triangle, matId: int)
      requires Valid() && p in order
      modifies `nodes, p.list, p.list.Nodes()
      ensures Valid() && InPlace() && ListsValid() && fresh(nodes - old(nodes))
      ensures p.list.Contents() == AfterTriangle(old(p.list.Contents()), p.triangles, p.x, p.y, t, matId)
      ensures forall u :: u in order && u != p ==> ListKept(u)
    {
      hide *;
      ListOfOne(p);
      AfterOrdered(p.list.Contents(), p.triangles, p.x, p.y, t, matId);
      ProjectAlone(p, t, matId);
      nodes := nodes + p.list.Nodes();
      StillInPlace();
      StillListsValid(p);
      BothValid();
    }

    /** The lists in order, when only one has changed. */
    twostate lemma ListsUpdated(p: MeshVertex)
      requires InPlace() && old(ListsValid()) && ListsValid() && unchanged(this`order) && unchanged(order)
      requires forall u :: u in order && u != p ==> ListKept(u)
      ensures Spots() == old(Spots())
      ensures forall i :: 0 <= i < |order| && p == order[i] ==>
                old(Lists())[i] == old(p.list.Contents()) && Lists() == old(Lists())[i := p.list.Contents()]
    {
      hide AfterTriangle, List.Contents, List.Nodes, List.Valid, Ordered, Apart, InOrder;
      forall k | 0 <= k < |order| ensures order[k] != p ==> Lists()[k] == old(Lists())[k] {
        assert order[k] in order;
      }
    }

    lemma BothValid()
      requires InPlace() && ListsValid()
      ensures Valid()
    {
    }

    lemma SpotIs(p: MeshVertex, t: Triangle, matId: int, i: nat)
      requires i < |order| && p == order[i]
      ensures forall c :: AfterSpot(c, Spots()[i], t, matId) == AfterTriangle(c, p.triangles, p.x, p.y, t, matId)
    {
    }

    /** The other lists are kept. */
    method ProjectAlone(p: MeshVertex, t: Triangle, matId: int)
      requires p.list.Valid()
      requires forall u :: u in order && u != p ==> u.list != p.list && u.list.Nodes() !! p.list.Nodes()
      modifies p.list, p.list.Nodes()
      ensures p.list.Valid() && fresh(p.list.Nodes() - old(p.list.Nodes()))
      ensures p.list.Contents() == AfterTriangle(old(p.list.Contents()), p.triangles, p.x, p.y, t, matId)
      ensures forall u :: u in order && u != p ==> ListKept(u)
    {
      hide AfterTriangle, List.Valid, List.Contents, ListKept;
      ProjectOntoVertex(p, t, matId);
      forall u | u in order && u != p ensures ListKept(u) {
        KeepsList(u);
      }
    }

    lemma ListOfOne(p: MeshVertex)
      requires Valid() && p in order
      ensures InPlace() && ListsValid() && p.list in lists && p.list.Nodes() <= nodes
      ensures p.list.Valid() && Ordered(p.list.Contents())
      ensures forall u :: u in order && u != p ==> u.list != p.list && u.list.Nodes() !! p.list.Nodes()
    {
      forall u | u in order && u != p ensures Apart(u, p) {
      }
      hide List.Valid, List.Contents, List.Nodes, Ordered;
    }

    /** The list of a vertex is as it was. */
    twostate predicate ListKept(u: MeshVertex)
      reads u.list, u.list.Nodes()
    {
      && u.list.Nodes() == old(u.list.Nodes()) && u.list.Contents() == old(u.list.Contents())
      && u.list.Valid() == old(u.list.Valid())
    }

    twostate lemma KeepsList(u: MeshVertex)
      requires unchanged(u.list) && unchanged(u.list.Nodes())
      ensures ListKept(u)
    {
    }

    twostate lemma StillInPlace()
      requires old(InPlace()) && unchanged(this`head, this`tail, this`order, this`vertices) && unchanged(order)
      ensures InPlace()
    {
    }

    /** The lists stay valid when one has been added to and the others are kept. */
    twostate lemma StillListsValid(p: MeshVertex)
      requires old(ListsValid()) && unchanged(this`order, this`lists)
      requires forall u :: u in order && u != p ==> ListKept(u)
      requires p.list.Valid() && Ordered(p.list.Contents()) && fresh(p.list.Nodes() - old(p.list.Nodes()))
      requires nodes == old(nodes) + p.list.Nodes()
      ensures ListsValid()
    {
      hide Ordered, List.Valid, List.Contents, List.Nodes;
      forall u, v | u in order && v in order && u != v ensures Apart(u, v) {
        assert old(Apart(u, v));
      }
    }

    /** Projects onto the current vertex and moves on to the next. */
    method SweepStep(p: MeshVertex, t: Triangle, matId: int, maxX: real, ghost i: nat) returns (q: MeshVertex?)
      requires Valid() && i < |order| && p == order[i] && current == p
      modifies `current, `nodes, lists, nodes
      ensures Valid() && fresh(nodes - old(nodes)) && Spots() == old(Spots())
      ensures Lists() == old(Lists())[i := AfterSpot(old(Lists())[i], old(Spots())[i], t, matId)]
      ensures q != null ==> i + 1 < |order| && q == order[i + 1] && current == q
      ensures q == null ==> forall j :: i + 1 <= j < |order| ==> Spots()[j].x > maxX
    {
      hide *;
      ListOfOne(p);
      ProjectOnto(p, t, matId, i);
      q := NextProjectionPoint(maxX, i);
      BothNow();
      LaterBeyond(maxX, i + 1);
    }

    /** Projects one triangle by sweeping the vertices in its x range. */
    method ProjectTriangle(t: Triangle, matId: int)
      requires Valid()
      modifies `current, `nodes, lists, nodes
      ensures Valid() && fresh(nodes - old(nodes)) && Spots() == old(Spots())
      ensures Swept(old(Lists()), Lists(), Spots(), t, matId, |order|)
    {
      hide *;
      ghost var before, spots := Lists(), Spots();
      NoneSwept(before, spots, t, matId);
      var minX, maxX := MinX(t), MaxX(t);
      var p, i := FindFirstProjectionPoint(minX);
      SweptSkip(before, Lists(), spots, t, matId, 0, i);
      while p != null
        invariant Valid() && fresh(nodes - old(nodes)) && Spots() == spots && i <= |order|
        invariant Swept(before, Lists(), spots, t, matId, i)
        invariant p != null ==> i < |order| && p == order[i] && current == p
        invariant p == null ==> forall j :: i <= j < |order| ==> spots[j].x > maxX
        decreases |order| - i, p != null
      {
        SweptNext(before, Lists(), spots, t, matId, i);
        p := SweepStep(p, t, matId, maxX, i);
        i := i + 1;
      }
      SweptSkip(before, Lists(), spots, t, matId, i, |order|);
    }

    /** Projects every triangle of a TIN.  The sweep has the effect of testing every
        vertex of the mesh against every triangle, and leaves well formed lists. */
    method AddTin(tin: Tin)
      requires Valid() && tin.Valid()
      modifies `current, `nodes, lists, nodes
      ensures Valid() && fresh(nodes - old(nodes)) && Spots() == old(Spots())
      ensures Projected(old(Lists()), Lists(), Spots(), tin, |tin.triangles|)
    {
      hide *;
      ghost var before, spots := Lists(), Spots();
      NoneProjected(before, spots, tin);
      for index := 0 to |tin.triangles|
        invariant Valid() && fresh(nodes - old(nodes)) && Spots() == spots
        invariant Projected(before, Lists(), spots, tin, index)
      {
        ghost var mid := Lists();
        ProjectTriangle(tin.At(index), tin.matId);
        NextProjected(before, mid, Lists(), spots, tin, index);
      }
    }

    lemma LaterBeyond(maxX: real, i: nat)
      requires InPlace() && i <= |order|
      ensures i < |order| && order[i].x > maxX ==> forall j :: i <= j < |order| ==> order[j].x > maxX
    {
      hide Linked;
      assert forall j :: 0 <= j < |order| ==> order[j].x == Xs()[j];
    }
  }

  lemma NoneOrdered()
    ensures Ordered([])
  {
  }

  lemma AfterOrdered(c: seq<Entry>, tris: seq<int>, x: real, y: real, t: Triangle, matId: int)
    requires Ordered(c)
    ensures Ordered(AfterTriangle(c, tris, x, y, t, matId))
  {
    if Hits(t, x, y) {
      AddedForAllRecords(c, tris, |tris|, HitHeight(t, x, y), matId, 0, 0.0, 0);
    }
  }

  lemma OutOfRange(c: seq<Entry>, tris: seq<int>, x: real, y: real, t: Triangle, matId: int)
    requires x < MinX(t) || x > MaxX(t)
    ensures AfterTriangle(c, tris, x, y, t, matId) == c
  {
    if Hits(t, x, y) {
      HitInRange(t, x, y);
    }
  }

  predicate InOrder(xs: seq<real>) {
    forall j, k :: 0 <= j < k < |xs| ==> xs[j] <= xs[k]
  }

  lemma SortedSpliced(xs: seq<real>, x: real, i: nat)
    requires i <= |xs| && InOrder(xs)
    requires (forall j :: 0 <= j < i ==> xs[j] <= x) && (i < |xs| ==> x <= xs[i])
    ensures InOrder(xs[..i] + [x] + xs[i..])
  {
  }

  lemma SplicedMembers<T>(before: seq<T>, after: seq<T>, known: seq<T>, v: T, i: nat)
    requires i <= |before| && after == before[..i] + [v] + before[i..]
    requires (forall u :: u in before ==> u in known) && (forall u :: u in known ==> u in before)
    ensures (forall u :: u in after ==> u in known + [v]) && (forall u :: u in known + [v] ==> u in after)
  {
    assert before == before[..i] + before[i..];
  }
}
