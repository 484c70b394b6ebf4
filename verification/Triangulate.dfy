/** gmstriangulate.c: a TIN takes over those triangles of a mask TIN whose corners have
    a vertex at the same (x, y).  Both vertex lists are sorted, joined by a merge, the
    triangles are selected, and the vertices left unused are squeezed out in place. */
module Triangulate {
  import opened QuickSort
  import opened Sequences
  import opened Weld

  predicate SameXY(u: Vertex, v: Vertex) {
    u.x == v.x && u.y == v.y
  }

  /** How many of the first n vertices stand at the position of k. */
  function Count(s: seq<Vertex>, n: nat, k: Vertex): nat
    requires n <= |s|
  {
    if n == 0 then 0 else Count(s, n - 1, k) + if SameXY(s[n - 1], k) then 1 else 0
  }

  lemma {:induction false} CountMonotone(s: seq<Vertex>, n: nat, m: nat, k: Vertex)
    requires n <= m <= |s|
    ensures Count(s, n, k) <= Count(s, m, k)
    ensures Count(s, n, k) == Count(s, m, k) || exists i :: n <= i < m && SameXY(s[i], k)
  {
    if n < m {
      CountMonotone(s, n, m - 1, k);
    }
  }

  lemma CountPassed(s: seq<Vertex>, n: nat, k: Vertex)
    requires n < |s| && SameXY(s[n], k)
    ensures Count(s, n, k) < Count(s, |s|, k)
  {
    CountMonotone(s, n + 1, |s|, k);
  }

  lemma {:induction false} CountAlike(s: seq<Vertex>, n: nat, k: Vertex, k': Vertex)
    requires n <= |s| && SameXY(k, k')
    ensures Count(s, n, k) == Count(s, n, k')
  {
    if n > 0 {
      CountAlike(s, n - 1, k, k');
    }
  }

  // ----- the merge -----

  /** At position k neither list has been read past the other, unless the other is used up. */
  ghost predicate Level(ms: seq<Vertex>, vs: seq<Vertex>, a: nat, b: nat, k: Vertex)
    requires a <= |ms| && b <= |vs|
  {
    && (Count(ms, a, k) > Count(vs, b, k) ==> Count(vs, b, k) == Count(vs, |vs|, k))
    && (Count(vs, b, k) > Count(ms, a, k) ==> Count(ms, a, k) == Count(ms, |ms|, k))
  }

  /** Of the mask vertices at one position the r-th goes with the r-th vertex of the TIN
      at that position, or with none if there are only r there. */
  ghost predicate Paired(ms: seq<Vertex>, vs: seq<Vertex>, u: nat, m: int)
    requires u < |ms|
  {
    if Count(ms, u, ms[u]) < Count(vs, |vs|, ms[u])
    then 0 <= m < |vs| && SameXY(vs[m], ms[u]) && Count(vs, m, ms[u]) == Count(ms, u, ms[u])
    else m == -1
  }

  ghost predicate InRange(p: seq<int>, n: nat) {
    |p| == n && forall u :: 0 <= u < |p| ==> 0 <= p[u] < n
  }

  /** The first a mask vertices have been paired, the others not yet touched. */
  ghost predicate Joined(ms: seq<Vertex>, vs: seq<Vertex>, map': seq<int>, p: seq<int>, a: nat) {
    && |map'| == |ms| && InRange(p, |ms|) && a <= |ms|
    && (forall u :: 0 <= u < a ==> Paired(ms, vs, u, map'[p[u]]))
    && (forall u :: a <= u < |ms| ==> map'[p[u]] == -1)
  }

  ghost predicate Merging(ms: seq<Vertex>, vs: seq<Vertex>, map': seq<int>, p: seq<int>, a: nat, b: nat) {
    Joined(ms, vs, map', p, a) && b <= |vs| && forall k :: Level(ms, vs, a, b, k)
  }

  lemma RestIsAbove(s: seq<Vertex>, n: nat, k: Vertex)
    requires n < |s| && Sorted(YX, s, 0, |s| - 1) && YX.Less(k, s[n])
    ensures Count(s, n, k) == Count(s, |s|, k)
  {
    CountMonotone(s, n, |s|, k);
    forall i | n <= i < |s| ensures !SameXY(s[i], k) {
      assert i == n || YX.AtMost(s[n], s[i]);
    }
  }

  lemma MaskBehind(ms: seq<Vertex>, vs: seq<Vertex>, map': seq<int>, p: seq<int>, a: nat, b: nat)
    requires Merging(ms, vs, map', p, a, b) && a < |ms| && b < |vs| && YX.Less(ms[a], vs[b])
    requires Sorted(YX, vs, 0, |vs| - 1)
    ensures Merging(ms, vs, map', p, a + 1, b)
  {
    var w := ms[a];
    assert Level(ms, vs, a, b, w);
    CountPassed(ms, a, w);
    RestIsAbove(vs, b, w);
    var a' := a + 1;
    forall k ensures Level(ms, vs, a', b, k) {
      assert Level(ms, vs, a, b, k);
      if SameXY(w, k) {
        CountAlike(ms, a, k, w);
        CountAlike(vs, b, k, w);
        CountAlike(vs, |vs|, k, w);
        CountAlike(ms, |ms|, k, w);
      }
    }
  }

  lemma TinBehind(ms: seq<Vertex>, vs: seq<Vertex>, map': seq<int>, p: seq<int>, a: nat, b: nat)
    requires Merging(ms, vs, map', p, a, b) && a < |ms| && b < |vs| && YX.Less(vs[b], ms[a])
    requires Sorted(YX, ms, 0, |ms| - 1)
    ensures Merging(ms, vs, map', p, a, b + 1)
  {
    var w := vs[b];
    assert Level(ms, vs, a, b, w);
    CountPassed(vs, b, w);
    RestIsAbove(ms, a, w);
    var b' := b + 1;
    forall k ensures Level(ms, vs, a, b', k) {
      assert Level(ms, vs, a, b, k);
      if SameXY(w, k) {
        CountAlike(ms, a, k, w);
        CountAlike(vs, b, k, w);
        CountAlike(vs, |vs|, k, w);
        CountAlike(ms, |ms|, k, w);
      }
    }
  }

  lemma Meeting(ms: seq<Vertex>, vs: seq<Vertex>, map': seq<int>, p: seq<int>, a: nat, b: nat)
    requires Merging(ms, vs, map', p, a, b) && a < |ms| && b < |vs| && SameXY(ms[a], vs[b])
    requires Permutes(p, 0, |p| - 1)
    ensures 0 <= p[a] < |map'| && Merging(ms, vs, map'[p[a] := b], p, a + 1, b + 1)
  {
    var w, m := ms[a], map'[p[a] := b];
    assert Level(ms, vs, a, b, w);
    CountPassed(ms, a, w);
    CountPassed(vs, b, w);
    assert Paired(ms, vs, a, b);
    forall u | 0 <= u < |ms| ensures u < a + 1 ==> Paired(ms, vs, u, m[p[u]]) {
      assert u != a ==> p[u] != p[a];
    }
    var a', b' := a + 1, b + 1;
    forall k ensures Level(ms, vs, a', b', k) {
      assert Level(ms, vs, a, b, k);
      if SameXY(w, k) {
        CountAlike(ms, a, k, w);
        CountAlike(vs, b, k, w);
      }
    }
  }

  lemma MergeDone(ms: seq<Vertex>, vs: seq<Vertex>, map': seq<int>, p: seq<int>, a: nat, b: nat)
    requires Merging(ms, vs, map', p, a, b) && (a == |ms| || b == |vs|)
    ensures Joined(ms, vs, map', p, |ms|)
  {
    forall u | a <= u < |ms| ensures Paired(ms, vs, u, map'[p[u]]) {
      assert Level(ms, vs, a, b, ms[u]);
      CountPassed(ms, u, ms[u]);
      CountMonotone(ms, a, u, ms[u]);
    }
  }

  lemma MergeStart(ms: seq<Vertex>, vs: seq<Vertex>, map': seq<int>, p: seq<int>)
    requires |map'| == |ms| && Permutes(p, 0, |p| - 1) && |p| == |ms| && forall u :: 0 <= u < |map'| ==> map'[u] == -1
    ensures Merging(ms, vs, map', p, 0, 0)
  {
  }

  /** Advances through both sorted lists, noting the place in the TIN of every mask
      vertex that has a partner there. */
  method Merge(maskVertices: array<Vertex>, maskNewToOld: array<int>, vertices: array<Vertex>, maskOldToTin: array<int>,
               ghost ms: seq<Vertex>, ghost vs: seq<Vertex>, ghost p: seq<int>)
    requires maskVertices[..] == ms && vertices[..] == vs && maskNewToOld[..] == p && |ms| == |p|
    requires maskOldToTin != maskNewToOld && Permutes(p, 0, |p| - 1)
    requires Sorted(YX, ms, 0, |ms| - 1) && Sorted(YX, vs, 0, |vs| - 1)
    requires Merging(ms, vs, maskOldToTin[..], p, 0, 0)
    modifies maskOldToTin
    ensures Joined(ms, vs, maskOldToTin[..], p, |ms|)
  {
    hide Permutes, Sorted, Merging, Joined;
    var maskV, v := 0, 0;
    while maskV < maskVertices.Length && v < vertices.Length
      invariant 0 <= maskV <= maskVertices.Length && 0 <= v <= vertices.Length
      invariant Merging(ms, vs, maskOldToTin[..], p, maskV, v)
      decreases maskVertices.Length - maskV + vertices.Length - v
    {
      maskV, v := MergeStep(maskVertices, maskNewToOld, vertices, maskOldToTin, ms, vs, p, maskV, v);
    }
    MergeDone(ms, vs, maskOldToTin[..], p, maskV, v);
  }

  method MergeStep(maskVertices: array<Vertex>, maskNewToOld: array<int>, vertices: array<Vertex>,
                   maskOldToTin: array<int>, ghost ms: seq<Vertex>, ghost vs: seq<Vertex>, ghost p: seq<int>,
                   maskV0: nat, v0: nat) returns (maskV: nat, v: nat)
    requires maskVertices[..] == ms && vertices[..] == vs && maskNewToOld[..] == p && |ms| == |p|
    requires maskOldToTin != maskNewToOld && Permutes(p, 0, |p| - 1)
    requires Sorted(YX, ms, 0, |ms| - 1) && Sorted(YX, vs, 0, |vs| - 1) && maskV0 < |ms| && v0 < |vs|
    requires Merging(ms, vs, maskOldToTin[..], p, maskV0, v0)
    modifies maskOldToTin
    ensures maskV0 <= maskV <= |ms| && v0 <= v <= |vs| && maskV + v > maskV0 + v0
    ensures Merging(ms, vs, maskOldToTin[..], p, maskV, v)
  {
    ghost var m := maskOldToTin[..];
    maskV, v := maskV0, v0;
    hide Permutes, Sorted, Merging;
    if YX.Less(maskVertices[maskV], vertices[v]) {
      MaskBehind(ms, vs, m, p, maskV, v);
      maskV := maskV + 1;
    } else if YX.Less(vertices[v], maskVertices[maskV]) {
      TinBehind(ms, vs, m, p, maskV, v);
      v := v + 1;
    } else {
      Meeting(ms, vs, m, p, maskV, v);
      assert maskNewToOld[maskV] == p[maskV];
      maskOldToTin[maskNewToOld[maskV]] := v;
      assert maskOldToTin[..] == m[p[maskV] := v];
      maskV := maskV + 1;
      v := v + 1;
    }
  }

  // ----- selecting triangles -----

  predicate HasPartners(t: Corners, map': seq<int>) {
    && t.0 < |map'| && t.1 < |map'| && t.2 < |map'|
    && map'[t.0] > -1 && map'[t.1] > -1 && map'[t.2] > -1
  }

  predicate Relabelled(t: Corners, map': seq<int>, r: Corners) {
    HasPartners(t, map') && map'[t.0] == r.0 && map'[t.1] == r.1 && map'[t.2] == r.2
  }

  /** ts are, in order, the first n triangles of old that have partners, relabelled. */
  ghost predicate Selection(old': seq<Corners>, map': seq<int>, ts: seq<Corners>, picks: seq<nat>, n: nat) {
    && n <= |old'| && |picks| == |ts| && Increasing(picks)
    && (forall t :: 0 <= t < |ts| ==> picks[t] < n && Relabelled(old'[picks[t]], map', ts[t]))
    && (forall k :: 0 <= k < n && HasPartners(old'[k], map') ==> k in picks)
  }

  lemma SelectionNext(old': seq<Corners>, map': seq<int>, ts: seq<Corners>, picks: seq<nat>, n: nat, r: Corners)
    requires Selection(old', map', ts, picks, n) && n < |old'|
    ensures !HasPartners(old'[n], map') ==> Selection(old', map', ts, picks, n + 1)
    ensures Relabelled(old'[n], map', r) ==> Selection(old', map', ts + [r], picks + [n], n + 1)
  {
    assert forall k :: k in picks + [n] <==> k in picks || k == n;
  }

  /** Keeps the mask triangles all of whose corners have a partner in the TIN. */
  method SelectTriangles(maskTriangles: seq<Corners>, maskOldToTin: array<int>)
    returns (triangles: array<Corners>, ntriangles: nat, ghost picks: seq<nat>)
    requires forall t :: 0 <= t < |maskTriangles| ==>
               maskTriangles[t].0 < maskOldToTin.Length && maskTriangles[t].1 < maskOldToTin.Length
               && maskTriangles[t].2 < maskOldToTin.Length
    ensures fresh(triangles) && ntriangles <= triangles.Length
    ensures Selection(maskTriangles, maskOldToTin[..], triangles[..ntriangles], picks, |maskTriangles|)
  {
    ghost var m := maskOldToTin[..];
    triangles := new Corners[|maskTriangles|];
    ntriangles, picks := 0, [];
    for maskT := 0 to |maskTriangles|
      invariant ntriangles <= maskT && maskOldToTin[..] == m
      invariant Selection(maskTriangles, m, triangles[..ntriangles], picks, maskT)
    {
      var (c0, c1, c2) := maskTriangles[maskT];
      var v0, v1, v2 := maskOldToTin[c0], maskOldToTin[c1], maskOldToTin[c2];
      ghost var ts := triangles[..ntriangles];
      if v0 > -1 && v1 > -1 && v2 > -1 {
        SelectionNext(maskTriangles, m, ts, picks, maskT, (v0, v1, v2));
        triangles[ntriangles] := (v0, v1, v2);
        ntriangles, picks := ntriangles + 1, picks + [maskT];
        assert triangles[..ntriangles] == ts + [(v0 as nat, v1 as nat, v2 as nat)];
      } else {
        SelectionNext(maskTriangles, m, ts, picks, maskT, (0, 0, 0));
      }
    }
  }

  // ----- deleting unused vertices -----

  predicate HasCorner(t: Corners, v: int) {
    t.0 == v || t.1 == v || t.2 == v
  }

  predicate Used(ts: seq<Corners>, v: int) {
    exists t :: 0 <= t < |ts| && HasCorner(ts[t], v)
  }

  ghost predicate Marked(ts: seq<Corners>, marks: seq<int>) {
    forall v :: 0 <= v < |marks| ==> marks[v] == if Used(ts, v) then 1 else -1
  }

  predicate CornersBelow(ts: seq<Corners>, n: nat) {
    forall t :: 0 <= t < |ts| ==> ts[t].0 < n && ts[t].1 < n && ts[t].2 < n
  }

  lemma UsedNext(ts: seq<Corners>, t: nat, v: int)
    requires t < |ts|
    ensures Used(ts[..t + 1], v) <==> Used(ts[..t], v) || HasCorner(ts[t], v)
  {
    var qs := ts[..t + 1];
    if Used(ts[..t], v) {
      var k :| 0 <= k < t && HasCorner(ts[..t][k], v);
      assert HasCorner(qs[k], v);
    }
    if HasCorner(ts[t], v) {
      assert HasCorner(qs[t], v);
    }
    if Used(qs, v) && !HasCorner(ts[t], v) {
      var k :| 0 <= k < t + 1 && HasCorner(qs[k], v);
      assert HasCorner(ts[..t][k], v);
    }
  }

  lemma MarkedNext(ts: seq<Corners>, t: nat, marks: seq<int>)
    requires t < |ts| && CornersBelow(ts, |marks|) && Marked(ts[..t], marks)
    ensures Marked(ts[..t + 1], marks[ts[t].0 := 1][ts[t].1 := 1][ts[t].2 := 1])
  {
    forall v | 0 <= v < |marks| ensures Used(ts[..t + 1], v) <==> Used(ts[..t], v) || HasCorner(ts[t], v) {
      UsedNext(ts, t, v);
    }
  }

  /** Marks the vertices that some triangle uses. */
  method MarkUsed(ts: seq<Corners>, oldToNew: array<int>)
    requires CornersBelow(ts, oldToNew.Length)
    modifies oldToNew
    ensures Marked(ts, oldToNew[..])
  {
    for v := 0 to oldToNew.Length
      invariant forall u :: 0 <= u < v ==> oldToNew[u] == -1
    {
      oldToNew[v] := -1;
    }
    for t := 0 to |ts|
      invariant Marked(ts[..t], oldToNew[..])
    {
      hide Marked;
      MarkedNext(ts, t, oldToNew[..]);
      ghost var m := oldToNew[..];
      oldToNew[ts[t].0] := 1;
      oldToNew[ts[t].1] := 1;
      oldToNew[ts[t].2] := 1;
      assert oldToNew[..] == m[ts[t].0 := 1][ts[t].1 := 1][ts[t].2 := 1];
    }
    assert ts[..|ts|] == ts;
  }

  /** The marked ones among the first v vertices of s stand, in order, at the front of r. */
  ghost predicate Packed(s: seq<Vertex>, marks: seq<int>, r: seq<Vertex>, kept: seq<nat>, v: nat) {
    && |kept| <= v <= |s| == |r| == |marks| && Increasing(kept)
    && (forall k :: 0 <= k < |kept| ==> kept[k] < v && marks[kept[k]] > -1 && r[k] == s[kept[k]])
    && (forall k :: v <= k < |s| ==> r[k] == s[k])
  }

  /** Each marked one among the first v vertices is mapped to its new place. */
  ghost predicate Renamed(marks: seq<int>, map': seq<int>, kept: seq<nat>, v: nat) {
    && v <= |marks| == |map'|
    && (forall u :: 0 <= u < v && marks[u] > -1 ==> 0 <= map'[u] < |kept| && kept[map'[u]] == u)
    && (forall u :: v <= u < |marks| ==> map'[u] == marks[u])
  }

  lemma PackedNext(s: seq<Vertex>, marks: seq<int>, r: seq<Vertex>, kept: seq<nat>, v: nat)
    requires Packed(s, marks, r, kept, v) && v < |s|
    ensures Packed(s, marks, r, kept, v + 1)
    ensures marks[v] > -1 ==> Packed(s, marks, r[|kept| := r[v]], kept + [v], v + 1)
  {
  }

  lemma RenamedNext(marks: seq<int>, map': seq<int>, kept: seq<nat>, v: nat)
    requires Renamed(marks, map', kept, v) && v < |marks|
    ensures map'[v] == marks[v]
    ensures marks[v] <= -1 ==> Renamed(marks, map', kept, v + 1)
    ensures Renamed(marks, map'[v := |kept|], kept + [v], v + 1)
  {
  }

  /** Moves vertex v to place newV and notes that. */
  method MoveVertex(vertices: array<Vertex>, oldToNew: array<int>, v: nat, newV: nat)
    requires v < vertices.Length && v < oldToNew.Length && newV < vertices.Length
    modifies vertices, oldToNew
    ensures vertices[..] == old(vertices[..])[newV := old(vertices[v])]
    ensures oldToNew[..] == old(oldToNew[..])[v := newV]
  {
    vertices[newV] := vertices[v];
    oldToNew[v] := newV;
  }

  /** Moves the marked vertices to the front and turns the marks into their new places. */
  method PackVertices(vertices: array<Vertex>, oldToNew: array<int>) returns (nvertices: nat, ghost kept: seq<nat>)
    requires vertices.Length == oldToNew.Length
    modifies vertices, oldToNew
    ensures nvertices == |kept|
    ensures Packed(old(vertices[..]), old(oldToNew[..]), vertices[..], kept, vertices.Length)
    ensures Renamed(old(oldToNew[..]), oldToNew[..], kept, vertices.Length)
  {
    ghost var s, marks := vertices[..], oldToNew[..];
    nvertices, kept := 0, [];
    for v := 0 to vertices.Length
      invariant nvertices == |kept| <= v
      invariant Packed(s, marks, vertices[..], kept, v) && Renamed(marks, oldToNew[..], kept, v)
    {
      hide Packed, Renamed;
      PackedNext(s, marks, vertices[..], kept, v);
      RenamedNext(marks, oldToNew[..], kept, v);
      if oldToNew[v] > -1 {
        MoveVertex(vertices, oldToNew, v, nvertices);
        nvertices, kept := nvertices + 1, kept + [v];
      }
    }
  }

  function Renumbered(t: Corners, map': seq<int>): (r: Corners)
    requires HasPartners(t, map')
  {
    (map'[t.0], map'[t.1], map'[t.2])
  }

  /** Rewrites the first ntriangles triangles in place. */
  method Renumber(triangles: array<Corners>, ntriangles: nat, oldToNew: array<int>)
    requires ntriangles <= triangles.Length
    requires forall t :: 0 <= t < ntriangles ==> HasPartners(triangles[t], oldToNew[..])
    modifies triangles
    ensures forall t :: 0 <= t < ntriangles ==> triangles[t] == Renumbered(old(triangles[t]), oldToNew[..])
  {
    ghost var m := oldToNew[..];
    for t := 0 to ntriangles
      invariant oldToNew[..] == m
      invariant forall k :: t <= k < ntriangles ==> triangles[k] == old(triangles[k])
      invariant forall k :: 0 <= k < t ==> triangles[k] == Renumbered(old(triangles[k]), m)
    {
      var (v0, v1, v2) := triangles[t];
      triangles[t] := (oldToNew[v0], oldToNew[v1], oldToNew[v2]);
    }
  }

  /** The triangles r over the vertices us are the triangles ts over vs, corner by corner. */
  ghost predicate SameGeometry(vs: seq<Vertex>, ts: seq<Corners>, us: seq<Vertex>, r: seq<Corners>) {
    && |r| == |ts|
    && forall t :: 0 <= t < |ts| ==> SameCorners(vs, ts[t], us, r[t])
  }

  /** us are the vertices of vs at the places kept, in the same order. */
  ghost predicate Subsequence(vs: seq<Vertex>, us: seq<Vertex>, kept: seq<nat>) {
    && |us| == |kept| && Increasing(kept)
    && forall k :: 0 <= k < |us| ==> kept[k] < |vs| && us[k] == vs[kept[k]]
  }

  ghost predicate AllUsed(us: seq<Vertex>, ts: seq<Corners>) {
    forall v :: 0 <= v < |us| ==> Used(ts, v)
  }

  lemma MarkedPartners(ts: seq<Corners>, marks: seq<int>, map': seq<int>, kept: seq<nat>, t: nat)
    requires Marked(ts, marks) && Renamed(marks, map', kept, |marks|) && CornersBelow(ts, |marks|) && t < |ts|
    ensures HasPartners(ts[t], map')
  {
    assert HasCorner(ts[t], ts[t].0) && HasCorner(ts[t], ts[t].1) && HasCorner(ts[t], ts[t].2);
  }

  /** Every triangle of rs is the one of ts rewritten through the map. */
  ghost predicate RenumberedAll(ts: seq<Corners>, map': seq<int>, rs: seq<Corners>) {
    |rs| == |ts| && forall t :: 0 <= t < |ts| ==> HasPartners(ts[t], map') && rs[t] == Renumbered(ts[t], map')
  }

  lemma GeometryKept(s: seq<Vertex>, ts: seq<Corners>, marks: seq<int>, r: seq<Vertex>, map': seq<int>,
                     kept: seq<nat>, rs: seq<Corners>)
    requires Marked(ts, marks) && CornersBelow(ts, |marks|)
    requires Packed(s, marks, r, kept, |s|) && Renamed(marks, map', kept, |marks|) && RenumberedAll(ts, map', rs)
    ensures SameGeometry(s, ts, r[..|kept|], rs)
  {
    var us := r[..|kept|];
    forall t | 0 <= t < |ts| ensures SameCorners(s, ts[t], us, rs[t]) {
      assert HasCorner(ts[t], ts[t].0) && HasCorner(ts[t], ts[t].1) && HasCorner(ts[t], ts[t].2);
      CornerKept(s, ts, marks, r, map', kept, t, ts[t].0);
      CornerKept(s, ts, marks, r, map', kept, t, ts[t].1);
      CornerKept(s, ts, marks, r, map', kept, t, ts[t].2);
    }
    hide Marked, Packed, Renamed, Used, HasCorner;
  }

  lemma CornerKept(s: seq<Vertex>, ts: seq<Corners>, marks: seq<int>, r: seq<Vertex>, map': seq<int>,
                   kept: seq<nat>, t: nat, v: nat)
    requires Marked(ts, marks) && v < |marks| && t < |ts| && HasCorner(ts[t], v)
    requires Packed(s, marks, r, kept, |s|) && Renamed(marks, map', kept, |marks|)
    ensures v < |s| && 0 <= map'[v] < |kept| <= |r| && r[..|kept|][map'[v]] == s[v]
  {
    assert Used(ts, v);
  }

  lemma UsedKept(s: seq<Vertex>, ts: seq<Corners>, marks: seq<int>, r: seq<Vertex>, map': seq<int>,
                 kept: seq<nat>, rs: seq<Corners>, v: nat)
    requires Marked(ts, marks) && CornersBelow(ts, |marks|) && v < |kept|
    requires Packed(s, marks, r, kept, |s|) && Renamed(marks, map', kept, |marks|) && RenumberedAll(ts, map', rs)
    ensures Used(rs, v)
  {
    var u := kept[v];
    assert marks[u] > -1 && Used(ts, u);
    var t :| 0 <= t < |ts| && HasCorner(ts[t], u);
    assert kept[map'[u]] == u;
    hide Marked, Packed, Renamed, Used;
    KeptOnce(kept, map'[u], v);
    assert HasCorner(rs[t], v);
    UsedBy(rs, t, v);
  }

  lemma UsedBy(ts: seq<Corners>, t: nat, v: int)
    requires t < |ts| && HasCorner(ts[t], v)
    ensures Used(ts, v)
  {
  }

  lemma CompactionKeeps(s: seq<Vertex>, ts: seq<Corners>, marks: seq<int>, r: seq<Vertex>, map': seq<int>,
                        kept: seq<nat>, rs: seq<Corners>)
    requires Marked(ts, marks) && CornersBelow(ts, |marks|)
    requires Packed(s, marks, r, kept, |s|) && Renamed(marks, map', kept, |marks|) && RenumberedAll(ts, map', rs)
    ensures SameGeometry(s, ts, r[..|kept|], rs) && Subsequence(s, r[..|kept|], kept) && AllUsed(r[..|kept|], rs)
  {
    GeometryKept(s, ts, marks, r, map', kept, rs);
    forall v: nat | v < |kept| ensures Used(rs, v) {
      UsedKept(s, ts, marks, r, map', kept, rs, v);
    }
    hide SameGeometry, RenumberedAll, Used, Renamed, Marked, CornersBelow;
  }

  lemma KeptOnce(kept: seq<nat>, i: int, j: int)
    requires Increasing(kept) && 0 <= i < |kept| && 0 <= j < |kept| && kept[i] == kept[j]
    ensures i == j
  {
  }

  /** Deletes the vertices of a TIN that no triangle uses. */
  method DeleteUnused(vertices: array<Vertex>, triangles: array<Corners>, ntriangles: nat)
    returns (nvertices: nat, ghost kept: seq<nat>)
    requires ntriangles <= triangles.Length && CornersBelow(triangles[..ntriangles], vertices.Length)
    modifies vertices, triangles
    ensures nvertices <= vertices.Length
    ensures SameGeometry(old(vertices[..]), old(triangles[..ntriangles]), vertices[..nvertices], triangles[..ntriangles])
    ensures Subsequence(old(vertices[..]), vertices[..nvertices], kept)
    ensures AllUsed(vertices[..nvertices], triangles[..ntriangles])
  {
    var oldToNew := new int[vertices.Length];
    ghost var s, ts := vertices[..], triangles[..ntriangles];
    hide *;
    MarkUsed(triangles[..ntriangles], oldToNew);
    ghost var marks := oldToNew[..];
    nvertices, kept := PackVertices(vertices, oldToNew);
    ghost var r, map' := vertices[..], oldToNew[..];
    AllMarkedPartners(s, ts, marks, r, map', kept);
    RenumberAll(triangles, ntriangles, oldToNew, ts);
    CompactionKeeps(s, ts, marks, r, map', kept, triangles[..ntriangles]);
  }

  lemma AllMarkedPartners(s: seq<Vertex>, ts: seq<Corners>, marks: seq<int>, r: seq<Vertex>, map': seq<int>, kept: seq<nat>)
    requires Marked(ts, marks) && CornersBelow(ts, |marks|)
    requires Packed(s, marks, r, kept, |s|) && Renamed(marks, map', kept, |marks|)
    ensures forall t :: 0 <= t < |ts| ==> HasPartners(ts[t], map')
    ensures |kept| <= |r|
  {
    forall t | 0 <= t < |ts| ensures HasPartners(ts[t], map') {
      MarkedPartners(ts, marks, map', kept, t);
    }
  }

  /** Rewrites the triangles, which are ts. */
  method RenumberAll(triangles: array<Corners>, ntriangles: nat, oldToNew: array<int>, ghost ts: seq<Corners>)
    requires ntriangles <= triangles.Length && triangles[..ntriangles] == ts
    requires forall t :: 0 <= t < ntriangles ==> HasPartners(ts[t], oldToNew[..])
    modifies triangles
    ensures RenumberedAll(ts, oldToNew[..], triangles[..ntriangles])
  {
    assert forall t :: 0 <= t < ntriangles ==> triangles[t] == ts[t];
    hide HasPartners;
    Renumber(triangles, ntriangles, oldToNew);
  }

  // ----- what the program achieves -----

  predicate Occurs(s: seq<Vertex>, k: Vertex) {
    exists i :: 0 <= i < |s| && SameXY(s[i], k)
  }

  lemma {:induction false} OccursIffCounted(s: seq<Vertex>, n: nat, k: Vertex)
    requires n <= |s|
    ensures Count(s, n, k) > 0 <==> exists i :: 0 <= i < n && SameXY(s[i], k)
  {
    if n > 0 {
      OccursIffCounted(s, n - 1, k);
    }
  }

  lemma {:induction false} CountConcat(s: seq<Vertex>, t: seq<Vertex>, n: nat, k: Vertex)
    requires n <= |t|
    ensures Count(s + t, |s| + n, k) == Count(s, |s|, k) + Count(t, n, k)
  {
    if n > 0 {
      CountConcat(s, t, n - 1, k);
    } else {
      CountPrefix(s + t, s, |s|, k);
    }
  }

  lemma {:induction false} CountPrefix(s: seq<Vertex>, t: seq<Vertex>, n: nat, k: Vertex)
    requires n <= |s| && n <= |t| && s[..n] == t[..n]
    ensures Count(s, n, k) == Count(t, n, k)
  {
    if n > 0 {
      var m := n - 1;
      assert s[..n][m] == s[m] && t[..n][m] == t[m];
      assert s[..m] == s[..n][..m] && t[..m] == t[..n][..m];
      CountPrefix(s, t, n - 1, k);
    }
  }

  function Without<T>(s: seq<T>, j: nat): seq<T>
    requires j < |s|
  {
    s[..j] + s[j + 1..]
  }

  lemma WithoutMultiset<T>(s: seq<T>, j: nat)
    requires j < |s|
    ensures multiset(s) == multiset(Without(s, j)) + multiset{s[j]}
  {
    assert s == s[..j] + [s[j]] + s[j + 1..];
  }

  lemma CountWithout(s: seq<Vertex>, j: nat, k: Vertex)
    requires j < |s|
    ensures Count(s, |s|, k) == Count(Without(s, j), |s| - 1, k) + if SameXY(s[j], k) then 1 else 0
  {
    assert s == s[..j] + [s[j]] + s[j + 1..];
    CountConcat(s[..j], s[j + 1..], |s| - j - 1, k);
    CountConcat(s[..j] + [s[j]], s[j + 1..], |s| - j - 1, k);
    CountConcat(s[..j], [s[j]], 1, k);
  }

  /** How many vertices stand at a position does not depend on their order. */
  lemma {:induction false} CountRearranged(a: seq<Vertex>, b: seq<Vertex>, k: Vertex)
    requires multiset(a) == multiset(b)
    ensures Count(a, |a|, k) == Count(b, |b|, k)
    decreases |a|
  {
    hide Without;
    assert |a| == |multiset(a)| == |multiset(b)| == |b|;
    if b != [] {
      assert b[0] in multiset(a);
      var j :| 0 <= j < |a| && a[j] == b[0];
      WithoutMultiset(a, j);
      WithoutMultiset(b, 0);
      WithoutSize(a, j);
      WithoutSize(b, 0);
      assert multiset(Without(a, j)) == multiset(a) - multiset{a[j]};
      assert multiset(Without(b, 0)) == multiset(b) - multiset{b[0]};
      CountRearranged(Without(a, j), Without(b, 0), k);
      CountWithout(a, j, k);
      CountWithout(b, 0, k);
    }
  }

  lemma WithoutSize<T>(s: seq<T>, j: nat)
    requires j < |s|
    ensures |Without(s, j)| == |s| - 1
  {
  }

  lemma {:induction false} NthVertex(s: seq<Vertex>, n: nat, k: Vertex, r: nat) returns (u: nat)
    requires n <= |s| && r < Count(s, n, k)
    ensures u < n && SameXY(s[u], k) && Count(s, u, k) == r
  {
    if SameXY(s[n - 1], k) && r == Count(s, n - 1, k) {
      u := n - 1;
    } else {
      u := NthVertex(s, n - 1, k, r);
    }
  }

  /** At every position the TIN shares with the mask it has no fewer vertices there. */
  ghost predicate EnoughVertices(ms: seq<Vertex>, vs: seq<Vertex>) {
    forall c :: 0 <= c < |ms| && Occurs(vs, ms[c]) ==> Count(ms, |ms|, ms[c]) <= Count(vs, |vs|, ms[c])
  }

  ghost predicate DistinctXY(s: seq<Vertex>) {
    forall i, j :: 0 <= i < j < |s| ==> !SameXY(s[i], s[j])
  }

  lemma DistinctIsEnough(ms: seq<Vertex>, vs: seq<Vertex>)
    requires DistinctXY(ms)
    ensures EnoughVertices(ms, vs)
  {
    forall c | 0 <= c < |ms| && Occurs(vs, ms[c])
      ensures Count(ms, |ms|, ms[c]) <= Count(vs, |vs|, ms[c])
    {
      OccursIffCounted(vs, |vs|, ms[c]);
      CountMonotone(ms, 0, c, ms[c]);
      CountMonotone(ms, c + 1, |ms|, ms[c]);
    }
  }

  /** A partner stands at the position of its mask vertex. */
  ghost predicate PartnersFit(old': seq<Vertex>, vs: seq<Vertex>, map': seq<int>) {
    && |map'| == |old'|
    && forall c :: 0 <= c < |old'| && map'[c] > -1 ==> map'[c] < |vs| && SameXY(vs[map'[c]], old'[c])
  }

  /** Every mask vertex whose position occurs in the TIN has a partner. */
  ghost predicate PartnersComplete(old': seq<Vertex>, vs: seq<Vertex>, map': seq<int>) {
    && |map'| == |old'|
    && forall c :: 0 <= c < |old'| && Occurs(vs, old'[c]) ==> map'[c] > -1
  }

  lemma JoinFits(old': seq<Vertex>, ms: seq<Vertex>, vs: seq<Vertex>, map': seq<int>, p: seq<int>)
    requires Joined(ms, vs, map', p, |ms|) && Permutes(p, 0, |p| - 1) && Through(old', ms, p)
    ensures PartnersFit(old', vs, map')
  {
    forall c | 0 <= c < |old'| && map'[c] > -1 ensures map'[c] < |vs| && SameXY(vs[map'[c]], old'[c]) {
      PermutesOnto(p, 0, |p| - 1, c);
      var u :| 0 <= u < |p| && p[u] == c;
      assert Paired(ms, vs, u, map'[p[u]]);
    }
  }

  /** The merge misses no shared position just when the mask crowds none of them. */
  lemma CompleteIffEnough(old': seq<Vertex>, ms: seq<Vertex>, vs: seq<Vertex>, map': seq<int>, p: seq<int>)
    requires Joined(ms, vs, map', p, |ms|) && Permutes(p, 0, |p| - 1) && Through(old', ms, p)
    ensures PartnersComplete(old', vs, map') <==> EnoughVertices(old', vs)
  {
    SameMultiset(old', ms, p);
    if EnoughVertices(old', vs) {
      forall c | 0 <= c < |old'| && Occurs(vs, old'[c]) ensures map'[c] > -1 {
        PermutesOnto(p, 0, |p| - 1, c);
        var u :| 0 <= u < |p| && p[u] == c;
        assert Paired(ms, vs, u, map'[p[u]]);
        CountRearranged(old', ms, old'[c]);
        CountPassed(ms, u, ms[u]);
      }
    }
    if PartnersComplete(old', vs, map') {
      forall c | 0 <= c < |old'| && Occurs(vs, old'[c])
        ensures Count(old', |old'|, old'[c]) <= Count(vs, |vs|, old'[c])
      {
        var k := old'[c];
        CountRearranged(old', ms, k);
        if Count(ms, |ms|, k) > Count(vs, |vs|, k) {
          var u := NthVertex(ms, |ms|, k, Count(vs, |vs|, k));
          CountAlike(ms, u, ms[u], k);
          CountAlike(vs, |vs|, ms[u], k);
          assert Paired(ms, vs, u, map'[p[u]]);
          OccursAlike(vs, k, old'[p[u]]);
          assert false;
        }
      }
    }
  }

  /** Two mask vertices over one TIN vertex: the join that the merge makes leaves the second
      without a partner, and every join leaves one without. */
  lemma CrowdedMaskMisses(k: Vertex, l: Vertex, u: Vertex, ms: seq<Vertex>, map': seq<int>, p: seq<int>)
    requires SameXY(k, l) && SameXY(u, k)
    ensures Joined([k, l], [u], [0, -1], [0, 1], 2)
    ensures Joined(ms, [u], map', p, |ms|) && Permutes(p, 0, |p| - 1) && Through([k, l], ms, p)
            ==> !PartnersComplete([k, l], [u], map')
  {
    assert Count([k, l], 0, k) == 0 && Count([k, l], 1, l) == 1 && Count([u], 0, k) == 0 && Count([u], 1, l) == 1;
    assert Paired([k, l], [u], 0, 0);
    assert Paired([k, l], [u], 1, -1);
    hide Joined, Permutes, Through, PartnersComplete;
    if Joined(ms, [u], map', p, |ms|) && Permutes(p, 0, |p| - 1) && Through([k, l], ms, p) {
      CompleteIffEnough([k, l], ms, [u], map', p);
      assert Occurs([u], [k, l][0]);
    }
  }

  lemma OccursAlike(s: seq<Vertex>, k: Vertex, k': Vertex)
    requires Occurs(s, k) && SameXY(k, k')
    ensures Occurs(s, k')
  {
    var i :| 0 <= i < |s| && SameXY(s[i], k);
    assert SameXY(s[i], k');
  }

  predicate CornersOccur(old': seq<Vertex>, t: Corners, vs: seq<Vertex>) {
    && t.0 < |old'| && t.1 < |old'| && t.2 < |old'|
    && Occurs(vs, old'[t.0]) && Occurs(vs, old'[t.1]) && Occurs(vs, old'[t.2])
  }

  /** A triangle whose corners stand at the (x, y) of those of a mask triangle. */
  predicate SamePositions(old': seq<Vertex>, t: Corners, us: seq<Vertex>, r: Corners) {
    && t.0 < |old'| && t.1 < |old'| && t.2 < |old'| && r.0 < |us| && r.1 < |us| && r.2 < |us|
    && SameXY(old'[t.0], us[r.0]) && SameXY(old'[t.1], us[r.1]) && SameXY(old'[t.2], us[r.2])
  }

  /** ts are the mask triangles picked, in mask order, moved onto the vertices us. */
  ghost predicate Transferred(old': seq<Vertex>, mt: seq<Corners>, us: seq<Vertex>, ts: seq<Corners>, picks: seq<nat>) {
    && |ts| == |picks| && Increasing(picks)
    && forall t :: 0 <= t < |ts| ==> picks[t] < |mt| && SamePositions(old', mt[picks[t]], us, ts[t])
  }

  ghost predicate PicksAll(old': seq<Vertex>, mt: seq<Corners>, vs: seq<Vertex>, picks: seq<nat>) {
    forall k :: 0 <= k < |mt| ==> (k in picks <==> CornersOccur(old', mt[k], vs))
  }

  lemma SelectionTransfers(old': seq<Vertex>, mt: seq<Corners>, vs: seq<Vertex>, map': seq<int>, ts: seq<Corners>,
                           picks: seq<nat>)
    requires PartnersFit(old', vs, map') && Selection(mt, map', ts, picks, |mt|)
    ensures Transferred(old', mt, vs, ts, picks) && CornersBelow(ts, |vs|)
  {
  }

  /** No triangle whose corners all occur in the TIN has a corner without partner. */
  ghost predicate AllPartnered(old': seq<Vertex>, mt: seq<Corners>, vs: seq<Vertex>, map': seq<int>) {
    forall k :: 0 <= k < |mt| && CornersOccur(old', mt[k], vs) ==> HasPartners(mt[k], map')
  }

  /** A selection is complete just when no triangle whose corners all occur has a corner
      without partner. */
  lemma CompleteIffAllPartnered(old': seq<Vertex>, mt: seq<Corners>, vs: seq<Vertex>, map': seq<int>, ts: seq<Corners>,
                                picks: seq<nat>)
    requires PartnersFit(old', vs, map') && Selection(mt, map', ts, picks, |mt|)
    ensures PicksAll(old', mt, vs, picks) <==> AllPartnered(old', mt, vs, map')
  {
    forall k | 0 <= k < |mt| ensures k in picks <==> HasPartners(mt[k], map')
      ensures k in picks ==> CornersOccur(old', mt[k], vs)
    {
      if k in picks {
        var t :| 0 <= t < |picks| && picks[t] == k;
        assert Relabelled(mt[k], map', ts[t]);
      }
    }
    hide CornersOccur, HasPartners;
  }

  /** Every mask vertex whose position occurs in the TIN is a corner of a mask triangle whose
      corners all occur in it. */
  ghost predicate Reached(old': seq<Vertex>, mt: seq<Corners>, vs: seq<Vertex>) {
    forall c :: 0 <= c < |old'| && Occurs(vs, old'[c]) ==> ReachedBy(old', mt, vs, c)
  }

  ghost predicate ReachedBy(old': seq<Vertex>, mt: seq<Corners>, vs: seq<Vertex>, c: nat) {
    exists k :: 0 <= k < |mt| && HasCorner(mt[k], c) && CornersOccur(old', mt[k], vs)
  }

  /** With enough vertices all the triangles that can be made are picked; on a mask that
      reaches all its vertices, only with enough. */
  ghost predicate PicksAllJustIf(old': seq<Vertex>, mt: seq<Corners>, vs: seq<Vertex>, picks: seq<nat>) {
    && (EnoughVertices(old', vs) ==> PicksAll(old', mt, vs, picks))
    && (Reached(old', mt, vs) && PicksAll(old', mt, vs, picks) ==> EnoughVertices(old', vs))
  }

  lemma SelectionComplete(old': seq<Vertex>, mt: seq<Corners>, vs: seq<Vertex>, map': seq<int>, ts: seq<Corners>,
                          picks: seq<nat>)
    requires PartnersFit(old', vs, map') && Selection(mt, map', ts, picks, |mt|)
    requires PartnersComplete(old', vs, map') <==> EnoughVertices(old', vs)
    ensures PicksAllJustIf(old', mt, vs, picks)
  {
    CompleteIffAllPartnered(old', mt, vs, map', ts, picks);
    FitSize(old', vs, map');
    hide *;
    if EnoughVertices(old', vs) {
      CompleteIsPartnered(old', mt, vs, map');
    }
    if Reached(old', mt, vs) && AllPartnered(old', mt, vs, map') {
      PartneredIsComplete(old', mt, vs, map');
    }
    JustIf(old', mt, vs, picks);
  }

  lemma JustIf(old': seq<Vertex>, mt: seq<Corners>, vs: seq<Vertex>, picks: seq<nat>)
    requires EnoughVertices(old', vs) ==> PicksAll(old', mt, vs, picks)
    requires Reached(old', mt, vs) && PicksAll(old', mt, vs, picks) ==> EnoughVertices(old', vs)
    ensures PicksAllJustIf(old', mt, vs, picks)
  {
    hide EnoughVertices, PicksAll, Reached;
  }

  lemma CompleteIsPartnered(old': seq<Vertex>, mt: seq<Corners>, vs: seq<Vertex>, map': seq<int>)
    requires |map'| == |old'| && PartnersComplete(old', vs, map')
    ensures AllPartnered(old', mt, vs, map')
  {
    hide Occurs;
  }

  lemma PartneredIsComplete(old': seq<Vertex>, mt: seq<Corners>, vs: seq<Vertex>, map': seq<int>)
    requires |map'| == |old'| && Reached(old', mt, vs) && AllPartnered(old', mt, vs, map')
    ensures PartnersComplete(old', vs, map')
  {
    hide Occurs, ReachedBy, AllPartnered;
    forall c | 0 <= c < |old'| && Occurs(vs, old'[c]) ensures map'[c] > -1 {
      PartnerOfReached(old', mt, vs, map', c);
    }
  }

  lemma PartnerOfReached(old': seq<Vertex>, mt: seq<Corners>, vs: seq<Vertex>, map': seq<int>, c: nat)
    requires |map'| == |old'| && AllPartnered(old', mt, vs, map') && ReachedBy(old', mt, vs, c)
    ensures c < |map'| && map'[c] > -1
  {
    var k :| 0 <= k < |mt| && HasCorner(mt[k], c) && CornersOccur(old', mt[k], vs);
    hide CornersOccur;
    assert HasPartners(mt[k], map');
  }

  /** Whatever the triangles of the mask, the selection is complete, if and only if the TIN has
      enough vertices: otherwise a triangle at a vertex without partner is missed. */
  lemma AlwaysCompleteIffEnough(old': seq<Vertex>, ms: seq<Vertex>, vs: seq<Vertex>, map': seq<int>, p: seq<int>)
    requires Joined(ms, vs, map', p, |ms|) && Permutes(p, 0, |p| - 1) && Through(old', ms, p)
    ensures EnoughVertices(old', vs)
      <==> forall mt, ts, picks :: CornersBelow(mt, |old'|) && Selection(mt, map', ts, picks, |mt|)
             ==> PicksAll(old', mt, vs, picks)
  {
    CompleteIffEnough(old', ms, vs, map', p);
    JoinFits(old', ms, vs, map', p);
    hide Joined, Permutes, Through, EnoughVertices, PartnersFit;
    if EnoughVertices(old', vs) {
      forall mt, ts, picks | CornersBelow(mt, |old'|) && Selection(mt, map', ts, picks, |mt|)
        ensures PicksAll(old', mt, vs, picks)
      {
        hide *;
        SelectionComplete(old', mt, vs, map', ts, picks);
        PicksIfEnough(old', mt, vs, picks);
      }
    } else {
      FitSize(old', vs, map');
      var c :| 0 <= c < |old'| && Occurs(vs, old'[c]) && map'[c] <= -1;
      var mt: seq<Corners> := [(c, c, c)];
      assert CornersBelow(mt, |old'|) && Selection(mt, map', [], [], 1) && CornersOccur(old', mt[0], vs);
      assert !PicksAll(old', mt, vs, []);
    }
  }

  lemma PicksIfEnough(old': seq<Vertex>, mt: seq<Corners>, vs: seq<Vertex>, picks: seq<nat>)
    requires PicksAllJustIf(old', mt, vs, picks) && EnoughVertices(old', vs)
    ensures PicksAll(old', mt, vs, picks)
  {
  }

  lemma TransferKept(old': seq<Vertex>, mt: seq<Corners>, vs: seq<Vertex>, ts: seq<Corners>, us: seq<Vertex>,
                     rs: seq<Corners>, picks: seq<nat>)
    requires Transferred(old', mt, vs, ts, picks) && SameGeometry(vs, ts, us, rs)
    ensures Transferred(old', mt, us, rs, picks)
  {
  }

  lemma OccursRearranged(vs: seq<Vertex>, ws: seq<Vertex>, k: Vertex)
    requires multiset(vs) == multiset(ws)
    ensures Occurs(vs, k) <==> Occurs(ws, k)
  {
    CountRearranged(vs, ws, k);
    OccursIffCounted(vs, |vs|, k);
    OccursIffCounted(ws, |ws|, k);
  }

  lemma PicksRearranged(old': seq<Vertex>, mt: seq<Corners>, vs: seq<Vertex>, ws: seq<Vertex>, picks: seq<nat>)
    requires PicksAllJustIf(old', mt, vs, picks) && multiset(vs) == multiset(ws)
    ensures PicksAllJustIf(old', mt, ws, picks)
  {
    forall k ensures Occurs(vs, k) <==> Occurs(ws, k) {
      OccursRearranged(vs, ws, k);
    }
    EnoughRearranged(old', vs, ws);
    hide EnoughVertices, Occurs;
    assert PicksAll(old', mt, vs, picks) <==> PicksAll(old', mt, ws, picks);
    hide PicksAll;
    forall c | 0 <= c < |old'| ensures ReachedBy(old', mt, vs, c) <==> ReachedBy(old', mt, ws, c) {
      ReachedRearranged(old', mt, vs, ws, c);
      ReachedRearranged(old', mt, ws, vs, c);
    }
  }

  lemma ReachedRearranged(old': seq<Vertex>, mt: seq<Corners>, vs: seq<Vertex>, ws: seq<Vertex>, c: nat)
    requires forall k :: Occurs(vs, k) <==> Occurs(ws, k)
    ensures ReachedBy(old', mt, vs, c) ==> ReachedBy(old', mt, ws, c)
  {
    hide Occurs, HasCorner;
    if ReachedBy(old', mt, vs, c) {
      var k :| 0 <= k < |mt| && HasCorner(mt[k], c) && CornersOccur(old', mt[k], vs);
      assert CornersOccur(old', mt[k], ws);
    }
  }

  lemma EnoughRearranged(old': seq<Vertex>, vs: seq<Vertex>, ws: seq<Vertex>)
    requires multiset(vs) == multiset(ws)
    ensures EnoughVertices(old', vs) <==> EnoughVertices(old', ws)
  {
    forall k ensures Occurs(vs, k) <==> Occurs(ws, k) {
      OccursRearranged(vs, ws, k);
    }
    forall c | 0 <= c < |old'| ensures Count(vs, |vs|, old'[c]) == Count(ws, |ws|, old'[c]) {
      CountRearranged(vs, ws, old'[c]);
    }
  }

  /** Sorts the vertices of a TIN and finds the partners of the mask vertices among them. */
  method JoinTin(maskVertices: array<Vertex>, maskNewToOld: array<int>, vertices: array<Vertex>,
                 ghost old': seq<Vertex>, ghost p: seq<int>) returns (maskOldToTin: array<int>)
    requires maskNewToOld[..] == p && Permutes(p, 0, |p| - 1) && Through(old', maskVertices[..], p)
    requires Sorted(YX, maskVertices[..], 0, maskVertices.Length - 1) && maskVertices != vertices
    modifies vertices
    ensures multiset(vertices[..]) == multiset(old(vertices[..])) && Sorted(YX, vertices[..], 0, vertices.Length - 1)
    ensures fresh(maskOldToTin) && PartnersFit(old', vertices[..], maskOldToTin[..])
    ensures PartnersComplete(old', vertices[..], maskOldToTin[..]) <==> EnoughVertices(old', vertices[..])
  {
    ThroughSizes(old', maskVertices[..], p);
    hide Permutes, Through, Sorted, Joined, Merging, PartnersFit, PartnersComplete, EnoughVertices;
    ghost var ms, ws := maskVertices[..], vertices[..];
    var _, q := SortVertices(YX, vertices, false);
    ghost var vs := vertices[..];
    SameMultiset(ws, vs, q);
    maskOldToTin := new int[maskVertices.Length](i => -1);
    MergeStart(ms, vs, maskOldToTin[..], p);
    Merge(maskVertices, maskNewToOld, vertices, maskOldToTin, ms, vs, p);
    JoinFits(old', ms, vs, maskOldToTin[..], p);
    CompleteIffEnough(old', ms, vs, maskOldToTin[..], p);
  }

  lemma FitSize(old': seq<Vertex>, vs: seq<Vertex>, map': seq<int>)
    requires PartnersFit(old', vs, map')
    ensures |map'| == |old'|
  {
  }

  /** The program on one TIN: joins it with the sorted mask and selects its triangles. */
  method TakeTriangles(maskVertices: array<Vertex>, maskNewToOld: array<int>, maskTriangles: seq<Corners>,
                       vertices: array<Vertex>, ghost old': seq<Vertex>, ghost p: seq<int>)
    returns (triangles: array<Corners>, ntriangles: nat, ghost picks: seq<nat>)
    requires maskNewToOld[..] == p && Permutes(p, 0, |p| - 1) && Through(old', maskVertices[..], p)
    requires Sorted(YX, maskVertices[..], 0, maskVertices.Length - 1) && maskVertices != vertices
    requires CornersBelow(maskTriangles, |old'|)
    modifies vertices
    ensures multiset(vertices[..]) == multiset(old(vertices[..])) && Sorted(YX, vertices[..], 0, vertices.Length - 1)
    ensures fresh(triangles) && ntriangles <= triangles.Length
    ensures CornersBelow(triangles[..ntriangles], vertices.Length)
    ensures Transferred(old', maskTriangles, vertices[..], triangles[..ntriangles], picks)
    ensures PicksAllJustIf(old', maskTriangles, vertices[..], picks)
  {
    hide Permutes, Through, Sorted, PartnersFit, PartnersComplete, EnoughVertices, Selection, Transferred, PicksAllJustIf;
    var maskOldToTin := JoinTin(maskVertices, maskNewToOld, vertices, old', p);
    ghost var m, vs := maskOldToTin[..], vertices[..];
    FitSize(old', vs, m);
    triangles, ntriangles, picks := SelectTriangles(maskTriangles, maskOldToTin);
    hide CornersBelow;
    ghost var ts := triangles[..ntriangles];
    SelectionTransfers(old', maskTriangles, vs, m, ts, picks);
    SelectionComplete(old', maskTriangles, vs, m, ts, picks);
  }

  /** A TIN with vertices ws after selection: its vertices are sorted, and its triangles are, in
      order, mask triangles whose corners all occur in it, and all of those just if it has
      enough vertices. */
  ghost predicate Taken(mask: Solid, ws: seq<Vertex>, vs: seq<Vertex>, ss: seq<Corners>, picks: seq<nat>) {
    && multiset(vs) == multiset(ws) && Sorted(YX, vs, 0, |vs| - 1) && CornersBelow(ss, |vs|)
    && Transferred(mask.vertices, mask.triangles, vs, ss, picks)
    && PicksAllJustIf(mask.vertices, mask.triangles, ws, picks)
  }

  /** The first half of the program on one TIN. */
  method SelectInTin(maskVertices: array<Vertex>, maskNewToOld: array<int>, mask: Solid, ws: seq<Vertex>, ghost p: seq<int>)
    returns (vs: seq<Vertex>, ss: seq<Corners>, ghost picks: seq<nat>)
    requires maskNewToOld[..] == p && Permutes(p, 0, |p| - 1) && Through(mask.vertices, maskVertices[..], p)
    requires Sorted(YX, maskVertices[..], 0, maskVertices.Length - 1) && CornersBelow(mask.triangles, |mask.vertices|)
    ensures Taken(mask, ws, vs, ss, picks)
  {
    var vertices := new Vertex[|ws|](i requires 0 <= i < |ws| => ws[i]);
    assert vertices[..] == ws;
    hide Permutes, Through, Sorted, Transferred, PicksAllJustIf, CornersBelow;
    var triangles, ntriangles;
    triangles, ntriangles, picks := TakeTriangles(maskVertices, maskNewToOld, mask.triangles, vertices, mask.vertices, p);
    vs, ss := vertices[..], triangles[..ntriangles];
    PicksRearranged(mask.vertices, mask.triangles, vs, ws, picks);
  }

  /** A TIN when it is done: every vertex left is used, and those left are some of its own, in
      (y, x) order. */
  ghost predicate Cleaned(ws: seq<Vertex>, us: seq<Vertex>, ts: seq<Corners>) {
    AllUsed(us, ts) && Sorted(YX, us, 0, |us| - 1) && multiset(us) <= multiset(ws)
  }

  /** The second half of the program on one TIN; the selection still holds. */
  method CleanTin(ghost mask: Solid, ghost ws: seq<Vertex>, vs: seq<Vertex>, ss: seq<Corners>, ghost picks: seq<nat>)
    returns (us: seq<Vertex>, ts: seq<Corners>)
    requires Taken(mask, ws, vs, ss, picks)
    ensures Cleaned(ws, us, ts)
    ensures Transferred(mask.vertices, mask.triangles, us, ts, picks)
  {
    var vertices := new Vertex[|vs|](i requires 0 <= i < |vs| => vs[i]);
    var triangles := new Corners[|ss|](i requires 0 <= i < |ss| => ss[i]);
    assert vertices[..] == vs && triangles[..] == triangles[..|ss|] == ss;
    hide Sorted, Transferred, PicksAllJustIf, SameGeometry, Subsequence, AllUsed, CornersBelow;
    var nvertices, kept := DeleteUnused(vertices, triangles, |ss|);
    us, ts := vertices[..nvertices], triangles[..|ss|];
    TransferKept(mask.vertices, mask.triangles, vs, ss, us, ts, picks);
    SubsequenceSorted(vs, us, kept);
  }

  ghost predicate AllTaken(mask: Solid, wss: seq<seq<Vertex>>, vss: seq<seq<Vertex>>, sss: seq<seq<Corners>>,
                           pickss: seq<seq<nat>>, n: nat) {
    && |vss| == |sss| == |pickss| == n <= |wss|
    && forall t :: 0 <= t < n ==> Taken(mask, wss[t], vss[t], sss[t], pickss[t])
  }

  /** Sorts a copy of the mask's vertices. */
  method SortMask(mask: Solid) returns (maskVertices: array<Vertex>, maskNewToOld: array<int>, ghost p: seq<int>)
    ensures maskNewToOld[..] == p && Permutes(p, 0, |p| - 1) && Through(mask.vertices, maskVertices[..], p)
    ensures Sorted(YX, maskVertices[..], 0, maskVertices.Length - 1)
  {
    maskVertices := new Vertex[|mask.vertices|](i requires 0 <= i < |mask.vertices| => mask.vertices[i]);
    assert maskVertices[..] == mask.vertices;
    hide Permutes, Through, Sorted;
    maskNewToOld, p := SortVertices(YX, maskVertices, true);
  }

  /** Selects the triangles of all the TINs. */
  method SelectInTins(mask: Solid, tins: seq<seq<Vertex>>)
    returns (vss: seq<seq<Vertex>>, sss: seq<seq<Corners>>, ghost pickss: seq<seq<nat>>)
    requires mask.Valid()
    ensures AllTaken(mask, tins, vss, sss, pickss, |tins|)
  {
    assert CornersBelow(mask.triangles, |mask.vertices|);
    hide *;
    var maskVertices, maskNewToOld, p := SortMask(mask);
    vss, sss, pickss := [], [], [];
    NoneTaken(mask, tins);
    ghost var ms := maskVertices[..];
    for t := 0 to |tins|
      invariant AllTaken(mask, tins, vss, sss, pickss, t) && maskVertices[..] == ms && maskNewToOld[..] == p
    {
      var vs, ss, picks := SelectInTin(maskVertices, maskNewToOld, mask, tins[t], p);
      NextTaken(mask, tins, vss, sss, pickss, t, vs, ss, picks);
      vss, sss, pickss := vss + [vs], sss + [ss], pickss + [picks];
    }
  }

  lemma NoneTaken(mask: Solid, tins: seq<seq<Vertex>>)
    ensures AllTaken(mask, tins, [], [], [], 0)
  {
  }

  lemma NextTaken(mask: Solid, tins: seq<seq<Vertex>>, vss: seq<seq<Vertex>>, sss: seq<seq<Corners>>,
                  pickss: seq<seq<nat>>, t: nat, vs: seq<Vertex>, ss: seq<Corners>, picks: seq<nat>)
    requires t < |tins| && AllTaken(mask, tins, vss, sss, pickss, t) && Taken(mask, tins[t], vs, ss, picks)
    ensures AllTaken(mask, tins, vss + [vs], sss + [ss], pickss + [picks], t + 1)
  {
    hide Taken;
  }

  /** The program on one mask and the TINs read: first the triangles of all of them are
      selected, then the vertices left unused in each are deleted. */
  method TriangulateTins(mask: Solid, tins: seq<seq<Vertex>>)
    returns (uss: seq<seq<Vertex>>, tss: seq<seq<Corners>>, ghost pickss: seq<seq<nat>>)
    requires mask.Valid()
    ensures |uss| == |tss| == |pickss| == |tins|
    ensures forall t :: 0 <= t < |tins| ==> Cleaned(tins[t], uss[t], tss[t])
    ensures forall t :: 0 <= t < |tins| ==>
              && Transferred(mask.vertices, mask.triangles, uss[t], tss[t], pickss[t])
              && PicksAllJustIf(mask.vertices, mask.triangles, tins[t], pickss[t])
  {
    hide Taken, Cleaned, Transferred, PicksAllJustIf, Solid.Valid;
    var vss, sss;
    vss, sss, pickss := SelectInTins(mask, tins);
    uss, tss := [], [];
    for t := 0 to |tins|
      invariant |uss| == |tss| == t
      invariant forall u :: 0 <= u < t ==> Cleaned(tins[u], uss[u], tss[u])
      invariant forall u :: 0 <= u < t ==> Transferred(mask.vertices, mask.triangles, uss[u], tss[u], pickss[u])
    {
      var us, ts := CleanTin(mask, tins[t], vss[t], sss[t], pickss[t]);
      uss, tss := uss + [us], tss + [ts];
    }
    forall t | 0 <= t < |tins| ensures PicksAllJustIf(mask.vertices, mask.triangles, tins[t], pickss[t]) {
      TakenPicks(mask, tins[t], vss[t], sss[t], pickss[t]);
    }
  }

  lemma TakenPicks(mask: Solid, ws: seq<Vertex>, vs: seq<Vertex>, ss: seq<Corners>, picks: seq<nat>)
    requires Taken(mask, ws, vs, ss, picks)
    ensures PicksAllJustIf(mask.vertices, mask.triangles, ws, picks)
  {
  }

  lemma SubsequenceSorted(vs: seq<Vertex>, us: seq<Vertex>, kept: seq<nat>)
    requires Subsequence(vs, us, kept)
    ensures multiset(us) <= multiset(vs)
    ensures Sorted(YX, vs, 0, |vs| - 1) ==> Sorted(YX, us, 0, |us| - 1)
  {
    hide Order.Less;
    SubsequenceOf(vs, us, kept);
  }

  lemma PrefixAndNext<T>(s: seq<T>, j: nat)
    requires j < |s|
    ensures multiset(s[..j]) + multiset{s[j]} <= multiset(s)
  {
    assert s == s[..j] + [s[j]] + s[j + 1..];
  }

  lemma SubsequenceShorter(vs: seq<Vertex>, us: seq<Vertex>, kept: seq<nat>, m: nat)
    requires Subsequence(vs, us, kept) && |us| == m + 1
    ensures kept[m] < |vs| && us[m] == vs[kept[m]] && Subsequence(vs[..kept[m]], us[..m], kept[..m])
  {
  }

  lemma {:induction false} SubsequenceOf(vs: seq<Vertex>, us: seq<Vertex>, kept: seq<nat>)
    requires Subsequence(vs, us, kept)
    ensures multiset(us) <= multiset(vs)
  {
    assert |us| == |kept|;
    hide Subsequence;
    if us != [] {
      var m := |us| - 1;
      SubsequenceShorter(vs, us, kept, m);
      SubsequenceOf(vs[..kept[m]], us[..m], kept[..m]);
      PrefixAndNext(vs, kept[m]);
      assert us == us[..m] + [us[m]];
    }
  }
}
