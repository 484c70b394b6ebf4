/** gmsSOL2pfsol.c: the vertices of several solids are concatenated, sorted and welded,
    and the triangles of every solid are rewritten to the welded vertices. */
module Weld {
  import opened QuickSort

  type Corners = (nat, nat, nat)

  datatype Solid = Solid(vertices: seq<Vertex>, triangles: seq<Corners>) {
    predicate Valid() {
      forall t :: 0 <= t < |triangles| ==>
        triangles[t].0 < |vertices| && triangles[t].1 < |vertices| && triangles[t].2 < |vertices|
    }
  }

  /** The vertices of the first n solids, one solid after another. */
  function Concatenated(solids: seq<Solid>, n: nat): seq<Vertex>
    requires n <= |solids|
  {
    if n == 0 then [] else Concatenated(solids, n - 1) + solids[n - 1].vertices
  }

  /** Where the vertices of solid n start. */
  function Start(solids: seq<Solid>, n: nat): nat
    requires n <= |solids|
  {
    |Concatenated(solids, n)|
  }

  /** In order of z, then y, then x, hence different. */
  ghost predicate StrictlyIncreasing(s: seq<Vertex>) {
    forall i, j :: 0 <= i < j < |s| ==> Precedes(s[i], s[j])
  }

  predicate Precedes(u: Vertex, v: Vertex) {
    u.z < v.z || (u.z == v.z && (u.y < v.y || (u.y == v.y && u.x < v.x)))
  }

  lemma LessPrecedes(u: Vertex, v: Vertex)
    ensures ZYX.Less(u, v) <==> Precedes(u, v)
  {
  }

  lemma LessOrSame(u: Vertex, v: Vertex, w: Vertex)
    ensures ZYX.AtMost(u, v) && u != v ==> ZYX.Less(u, v)
    ensures ZYX.Less(u, v) && ZYX.Less(v, w) ==> ZYX.Less(u, w)
  {
  }

  ghost predicate IncreasingTo(r: seq<Vertex>, i: nat) {
    forall a, b :: 0 <= a < b <= i && b < |r| ==> ZYX.Less(r[a], r[b])
  }

  /** The sorted vertices 0..v - 1 are mapped to copies of themselves among r[..i + 1]. */
  ghost predicate Mapped(s: seq<Vertex>, r: seq<Vertex>, oldToNew: seq<int>, p: seq<int>, v: nat, i: nat) {
    && i < |r| == |s| == |p| == |oldToNew| && v <= |s|
    && (forall u :: 0 <= u < |p| ==> 0 <= p[u] < |p|)
    && (forall u :: 0 <= u < v ==> 0 <= oldToNew[p[u]] <= i && r[oldToNew[p[u]]] == s[u])
  }

  ghost predicate DrawnFrom(s: seq<Vertex>, r: seq<Vertex>, i: nat) {
    forall k :: 0 <= k <= i && k < |r| ==> r[k] in s
  }

  /** From v on nothing has been written yet; the last vertex kept is the one before v. */
  ghost predicate Ahead(s: seq<Vertex>, r: seq<Vertex>, v: nat, i: nat) {
    && i < |r| == |s| && v <= |s| && (if v == 0 then i == 0 else i < v && r[i] == s[v - 1])
    && (forall k :: v <= k < |s| ==> r[k] == s[k])
  }

  /** Part way through the weld: the first i + 1 vertices are the distinct ones among
      the first v sorted vertices, and the map takes each of those v to its copy. */
  ghost predicate Welded(s: seq<Vertex>, r: seq<Vertex>, oldToNew: seq<int>, p: seq<int>, v: nat, i: nat) {
    && Ahead(s, r, v, i) && IncreasingTo(r, i) && DrawnFrom(s, r, i) && Mapped(s, r, oldToNew, p, v, i)
  }

  /** The step on a vertex equal to the last one kept. */
  lemma WeldSame(s: seq<Vertex>, r: seq<Vertex>, oldToNew: seq<int>, p: seq<int>, v: nat, i: nat)
    requires Welded(s, r, oldToNew, p, v, i) && v < |s| && Permutes(p, 0, |s| - 1) && r[v] == r[i]
    ensures 0 <= p[v] < |oldToNew| && Welded(s, r, oldToNew[p[v] := i], p, v + 1, i)
  {
    hide IncreasingTo, DrawnFrom;
    var m := oldToNew[p[v] := i];
    forall u | 0 <= u < v + 1 ensures 0 <= m[p[u]] <= i && r[m[p[u]]] == s[u] {
      assert u != v ==> p[u] != p[v];
    }
  }

  lemma MappedNew(s: seq<Vertex>, r: seq<Vertex>, oldToNew: seq<int>, p: seq<int>, v: nat, i: nat)
    requires Mapped(s, r, oldToNew, p, v, i) && v < |s| && Permutes(p, 0, |s| - 1) && r[v] == s[v] && i + 1 < |r|
    ensures 0 <= p[v] < |oldToNew| && Mapped(s, r[i + 1 := r[v]], oldToNew[p[v] := i + 1], p, v + 1, i + 1)
  {
    var t, m := r[i + 1 := r[v]], oldToNew[p[v] := i + 1];
    forall u | 0 <= u < v + 1 ensures 0 <= m[p[u]] <= i + 1 && t[m[p[u]]] == s[u] {
      assert u != v ==> p[u] != p[v];
    }
  }

  lemma IncreasingNew(r: seq<Vertex>, i: nat, w: Vertex)
    requires IncreasingTo(r, i) && i + 1 < |r| && ZYX.Less(r[i], w)
    ensures IncreasingTo(r[i + 1 := w], i + 1)
  {
    hide Order.Less;
    var t := r[i + 1 := w];
    forall a, b | 0 <= a < b <= i + 1 ensures ZYX.Less(t[a], t[b]) {
      LessOrSame(r[a], r[i], w);
    }
  }

  /** The step on a vertex that differs from the last one kept. */
  lemma WeldNew(s: seq<Vertex>, r: seq<Vertex>, oldToNew: seq<int>, p: seq<int>, v: nat, i: nat)
    requires Welded(s, r, oldToNew, p, v, i) && v < |s| && Permutes(p, 0, |s| - 1) && r[v] != r[i]
    requires Sorted(ZYX, s, 0, |s| - 1)
    ensures 0 <= p[v] < |oldToNew| && i + 1 < |r|
    ensures Welded(s, r[i + 1 := r[v]], oldToNew[p[v] := i + 1], p, v + 1, i + 1)
  {
    assert 0 < v && r[v] == s[v] && r[i] == s[v - 1] && ZYX.AtMost(s[v - 1], s[v]);
    hide Order.Less, Sorted, Permutes;
    LessOrSame(r[i], r[v], r[v]);
    MappedNew(s, r, oldToNew, p, v, i);
    IncreasingNew(r, i, r[v]);
    hide IncreasingTo, Mapped;
  }

  lemma StartWelded(s: seq<Vertex>, oldToNew: seq<int>, p: seq<int>)
    requires |s| > 0 && |oldToNew| == |s| == |p| && Permutes(p, 0, |s| - 1)
    ensures Welded(s, s, oldToNew, p, 0, 0)
  {
  }

  /** Copies vertex v to the next place if it differs from the one at i0. */
  method KeepIfNew(vertices: array<Vertex>, v: nat, i0: nat) returns (i: nat)
    requires v < vertices.Length && i0 < vertices.Length && (vertices[v] != vertices[i0] ==> i0 + 1 < vertices.Length)
    modifies vertices
    ensures i == if old(vertices[v]) != old(vertices[i0]) then i0 + 1 else i0
    ensures vertices[..] == if i > i0 then old(vertices[..])[i := old(vertices[v])] else old(vertices[..])
  {
    i := i0;
    if vertices[v].x != vertices[i].x || vertices[v].y != vertices[i].y || vertices[v].z != vertices[i].z {
      i := i + 1;
      vertices[i] := vertices[v];
    }
  }

  /** Handles sorted vertex v: keeps it if it differs from the last one kept. */
  method WeldVertex(vertices: array<Vertex>, newToOld: array<int>, oldToNew: array<int>, v: nat, i0: nat,
                    ghost s: seq<Vertex>, ghost p: seq<int>) returns (i: nat)
    requires v < vertices.Length == newToOld.Length && i0 < vertices.Length && newToOld != oldToNew && newToOld[..] == p
    requires Welded(s, vertices[..], oldToNew[..], p, v, i0) && Permutes(p, 0, |p| - 1)
    requires Sorted(ZYX, s, 0, |s| - 1)
    modifies vertices, oldToNew
    ensures i < vertices.Length && Welded(s, vertices[..], oldToNew[..], p, v + 1, i)
  {
    ghost var r, m := vertices[..], oldToNew[..];
    assert |s| == |r| == |m|;
    hide Welded, Permutes, Sorted;
    if r[v] != r[i0] {
      WeldNew(s, r, m, p, v, i0);
    } else {
      WeldSame(s, r, m, p, v, i0);
    }
    i := KeepIfNew(vertices, v, i0);
    oldToNew[newToOld[v]] := i;
    assert oldToNew[..] == m[p[v] := i];
  }

  /** Goes through the sorted vertices in order; i is the place of the last one kept. */
  method WeldAll(vertices: array<Vertex>, newToOld: array<int>, oldToNew: array<int>,
                 ghost s: seq<Vertex>, ghost p: seq<int>) returns (i: nat)
    requires 0 < vertices.Length == newToOld.Length && newToOld != oldToNew && newToOld[..] == p
    requires Permutes(p, 0, |p| - 1) && Sorted(ZYX, s, 0, |s| - 1)
    requires Welded(s, vertices[..], oldToNew[..], p, 0, 0)
    modifies vertices, oldToNew
    ensures i < vertices.Length && Welded(s, vertices[..], oldToNew[..], p, vertices.Length, i)
  {
    hide Permutes, Sorted, Welded;
    i := 0;
    for v := 0 to vertices.Length
      invariant Welded(s, vertices[..], oldToNew[..], p, v, i) && i < vertices.Length && newToOld[..] == p
    {
      i := WeldVertex(vertices, newToOld, oldToNew, v, i, s, p);
    }
  }

  /** Eliminates duplicates from the sorted vertices in place. */
  method EliminateDuplicates(vertices: array<Vertex>, newToOld: array<int>, ghost p: seq<int>)
    returns (oldToNew: array<int>, nvertices: nat)
    requires vertices.Length > 0 && newToOld.Length == vertices.Length && newToOld[..] == p
    requires Permutes(p, 0, |p| - 1) && Sorted(ZYX, vertices[..], 0, vertices.Length - 1)
    modifies vertices
    ensures fresh(oldToNew) && nvertices > 0
    ensures Welded(old(vertices[..]), vertices[..], oldToNew[..], p, vertices.Length, nvertices - 1)
  {
    hide Permutes, Sorted;
    oldToNew := new int[vertices.Length];
    StartWelded(vertices[..], oldToNew[..], p);
    var i := WeldAll(vertices, newToOld, oldToNew, vertices[..], p);
    nvertices := i + 1;
  }

  // ----- what the weld achieves -----

  /** The map takes every vertex of c to a vertex of us with the same coordinates. */
  ghost predicate MapsOnto(c: seq<Vertex>, us: seq<Vertex>, oldToNew: seq<int>) {
    && |oldToNew| == |c|
    && forall u :: 0 <= u < |c| ==> 0 <= oldToNew[u] < |us| && us[oldToNew[u]] == c[u]
  }

  /** The welded vertices are strictly increasing, hence distinct; they are exactly the
      input vertices; and the map takes every input vertex to its copy. */
  lemma WeldComplete(c: seq<Vertex>, s: seq<Vertex>, r: seq<Vertex>, oldToNew: seq<int>, p: seq<int>, i: nat)
    requires Permutes(p, 0, |p| - 1) && Through(c, s, p) && Welded(s, r, oldToNew, p, |s|, i)
    ensures i < |r| && StrictlyIncreasing(r[..i + 1])
    ensures MapsOnto(c, r[..i + 1], oldToNew)
    ensures forall v :: v in r[..i + 1] <==> v in c
  {
    hide Order.Less, Precedes;
    var us := r[..i + 1];
    forall a, b | 0 <= a < b < |us| ensures Precedes(us[a], us[b]) {
      LessPrecedes(us[a], us[b]);
    }
    forall u | 0 <= u < |c| ensures 0 <= oldToNew[u] <= i && r[..i + 1][oldToNew[u]] == c[u] {
      PermutesOnto(p, 0, |p| - 1, u);
      var k :| 0 <= k < |p| && p[k] == u;
      assert s[k] == c[p[k]];
    }
    forall v ensures v in r[..i + 1] <==> v in c {
      if v in r[..i + 1] {
        var k :| 0 <= k <= i && r[k] == v;
        assert v in s;
        var u :| 0 <= u < |s| && s[u] == v;
        assert c[p[u]] == v;
      }
      if v in c {
        var u :| 0 <= u < |c| && c[u] == v;
        assert r[..i + 1][oldToNew[u]] == v;
      }
    }
  }

  // ----- the program -----

  /** A rewritten triangle has the corners of the original. */
  predicate SameCorners(vs: seq<Vertex>, t: Corners, us: seq<Vertex>, r: Corners) {
    && t.0 < |vs| && t.1 < |vs| && t.2 < |vs| && r.0 < |us| && r.1 < |us| && r.2 < |us|
    && us[r.0] == vs[t.0] && us[r.1] == vs[t.1] && us[r.2] == vs[t.2]
  }

  /** Every triangle of every solid has been rewritten without moving a corner. */
  ghost predicate Remapped(solids: seq<Solid>, us: seq<Vertex>, out: seq<seq<Corners>>, n: nat)
    requires n <= |solids|
  {
    && |out| == n
    && forall s :: 0 <= s < n ==> SolidRemapped(solids[s], us, out[s])
  }

  ghost predicate SolidRemapped(solid: Solid, us: seq<Vertex>, out: seq<Corners>) {
    && |out| == |solid.triangles|
    && forall t :: 0 <= t < |out| ==> SameCorners(solid.vertices, solid.triangles[t], us, out[t])
  }

  /** The concatenated vertices hold those of every solid from where it starts. */
  lemma {:induction false} ConcatenatedAt(solids: seq<Solid>, n: nat, s: nat)
    requires s < n <= |solids|
    ensures Start(solids, s) + |solids[s].vertices| <= Start(solids, n)
    ensures Concatenated(solids, n)[Start(solids, s)..Start(solids, s) + |solids[s].vertices|] == solids[s].vertices
  {
    if s < n - 1 {
      ConcatenatedAt(solids, n - 1, s);
    }
  }

  /** Copies the vertices of the solids into one array. */
  method Concatenate(solids: seq<Solid>) returns (vertices: array<Vertex>)
    ensures fresh(vertices) && vertices[..] == Concatenated(solids, |solids|)
  {
    var all := [];
    for s := 0 to |solids|
      invariant all == Concatenated(solids, s)
    {
      all := all + solids[s].vertices;
    }
    vertices := new Vertex[|all|](i requires 0 <= i < |all| => all[i]);
  }

  /** Rewrites the triangles of one solid, whose vertices start at v. */
  method RemapSolid(solid: Solid, v: nat, oldToNew: array<int>, ghost c: seq<Vertex>, ghost us: seq<Vertex>)
    returns (out: seq<Corners>)
    requires solid.Valid() && v + |solid.vertices| <= |c| && c[v..v + |solid.vertices|] == solid.vertices
    requires MapsOnto(c, us, oldToNew[..])
    ensures SolidRemapped(solid, us, out)
  {
    ghost var part := c[v..v + |solid.vertices|];
    assert forall k :: 0 <= k < |part| ==> part[k] == c[v + k];
    out := [];
    for t := 0 to |solid.triangles|
      invariant |out| == t
      invariant forall k :: 0 <= k < t ==> SameCorners(solid.vertices, solid.triangles[k], us, out[k])
    {
      var (v0, v1, v2) := solid.triangles[t];
      out := out + [(oldToNew[v + v0], oldToNew[v + v1], oldToNew[v + v2])];
    }
  }

  /** Writes out the triangles of all the solids. */
  method WriteSolids(solids: seq<Solid>, oldToNew: array<int>, ghost us: seq<Vertex>) returns (out: seq<seq<Corners>>)
    requires forall s :: 0 <= s < |solids| ==> solids[s].Valid()
    requires MapsOnto(Concatenated(solids, |solids|), us, oldToNew[..])
    ensures Remapped(solids, us, out, |solids|)
  {
    hide MapsOnto, SolidRemapped;
    out := [];
    var v := 0;
    for s := 0 to |solids|
      invariant v == Start(solids, s) && Remapped(solids, us, out, s)
    {
      ConcatenatedAt(solids, |solids|, s);
      var r := RemapSolid(solids[s], v, oldToNew, Concatenated(solids, |solids|), us);
      out := out + [r];
      v := v + |solids[s].vertices|;
    }
  }

  /** The program on the solids it has read, when they have at least one vertex. */
  method WeldSolids(solids: seq<Solid>) returns (us: seq<Vertex>, out: seq<seq<Corners>>)
    requires (forall s :: 0 <= s < |solids| ==> solids[s].Valid()) && Start(solids, |solids|) > 0
    ensures StrictlyIncreasing(us)
    ensures forall v :: v in us <==> v in Concatenated(solids, |solids|)
    ensures Remapped(solids, us, out, |solids|)
  {
    hide Permutes, Through, Sorted, Welded, StrictlyIncreasing, MapsOnto, Remapped;
    var vertices := Concatenate(solids);
    ghost var c := vertices[..];
    var newToOld, p := SortVertices(ZYX, vertices, true);
    ghost var sorted := vertices[..];
    var oldToNew, nvertices := EliminateDuplicates(vertices, newToOld, p);
    WeldComplete(c, sorted, vertices[..], oldToNew[..], p, nvertices - 1);
    us := vertices[..nvertices];
    assert us == vertices[..][..nvertices - 1 + 1];
    out := WriteSolids(solids, oldToNew, us);
  }
}
