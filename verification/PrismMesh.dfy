/** bgmsfem2pfsol.c: the table of faces, the splitting of prisms into triangles and the
    selection of the boundary. */
module PrismMesh {
  import opened Faces
  import opened Reals
  import opened Sequences

  /** A face as stored: the untouched slots of the table hold zeros. */
  datatype Face = Face(tri: Tri, sister: int)

  const NO_FACE := Face(Tri(0, 0, 0), 0)

  // ----- orientation -----

  /** The component of the vector from the first vertex of t to the node o along the normal of t. */
  function Projection(p: seq<Point>, t: Tri, o: nat): real
    requires t.a < |p| && t.b < |p| && t.c < |p| && o < |p|
  {
    var u0, v0, w0 := p[t.b].x - p[t.a].x, p[t.b].y - p[t.a].y, p[t.b].z - p[t.a].z;
    var u1, v1, w1 := p[t.c].x - p[t.a].x, p[t.c].y - p[t.a].y, p[t.c].z - p[t.a].z;
    (p[o].x - p[t.a].x) * (v0 * w1 - v1 * w0) + (p[o].y - p[t.a].y) * (w0 * u1 - w1 * u0)
      + (p[o].z - p[t.a].z) * (u0 * v1 - u1 * v0)
  }

  /** t with its normal turned away from the node o. */
  function Outward(p: seq<Point>, t: Tri, o: nat): Tri
    requires t.a < |p| && t.b < |p| && t.c < |p| && o < |p|
  {
    if Projection(p, t, o) > 0.0 then Tri(t.b, t.a, t.c) else t
  }

  lemma SwapTurns(p: seq<Point>, t: Tri, o: nat)
    requires t.a < |p| && t.b < |p| && t.c < |p| && o < |p|
    ensures Projection(p, Tri(t.b, t.a, t.c), o) == -Projection(p, t, o)
  {
    var a, b, c, d := p[t.a], p[t.b], p[t.c], p[o];
    Triple(b.x - a.x, b.y - a.y, b.z - a.z, c.x - a.x, c.y - a.y, c.z - a.z, d.x - a.x, d.y - a.y, d.z - a.z);
  }

  lemma Triple(u0: real, v0: real, w0: real, u1: real, v1: real, w1: real, e: real, f: real, g: real)
    ensures (e - u0) * ((-v0) * (w1 - w0) - (v1 - v0) * (-w0)) + (f - v0) * ((-w0) * (u1 - u0) - (w1 - w0) * (-u0))
              + (g - w0) * ((-u0) * (v1 - v0) - (u1 - u0) * (-v0))
            == -(e * (v0 * w1 - v1 * w0) + f * (w0 * u1 - w1 * u0) + g * (u0 * v1 - u1 * v0))
  {
  }

  /** The stored face keeps its vertices and has the node o on the inner side. */
  lemma OutwardFacesAway(p: seq<Point>, t: Tri, o: nat)
    requires t.a < |p| && t.b < |p| && t.c < |p| && o < |p|
    ensures Projection(p, Outward(p, t, o), o) <= 0.0
    ensures forall v :: Outward(p, t, o).On(v) <==> t.On(v)
    ensures Outward(p, t, o).Proper() <==> t.Proper()
    ensures forall a, b :: Sides(Outward(p, t, o), a, b) == Sides(t, a, b)
  {
    SwapTurns(p, t, o);
    hide Projection;
  }

  // ----- prisms -----

  /** For each side of a prism the number of its nodes, and the nodes in order. */
  const FACE_ARRAY: seq<seq<int>> := [
    [3, 0, 2, 1, -1],
    [3, 3, 4, 5, -1],
    [4, 0, 1, 4, 3],
    [4, 1, 2, 5, 4],
    [4, 2, 0, 3, 5]]

  /** Nodes on the inner side of the triangles of each side. */
  const OPPOSITE_ARRAY: seq<seq<int>> := [[3, -1], [0, -1], [2, 5], [0, 3], [1, 4]]

  predicate IsPrism(n: seq<nat>, count: nat) {
    && |n| == 6
    && (forall i :: 0 <= i < 6 ==> n[i] < count)
    && (forall i, j :: 0 <= i < j < 6 ==> n[i] != n[j])
  }

  /** The node below or above node i. */
  function Facing(i: nat): (j: nat)
    requires i < 6
    ensures j < 6
  {
    (i + 3) % 6
  }

  predicate SameLevel(p: seq<Point>, n: seq<nat>, i: nat)
    requires IsPrism(n, |p|) && i < 6
  {
    p[n[i]].z == p[n[Facing(i)]].z
  }

  /** The three upper nodes have the elevations of the lower ones. */
  predicate Flat(p: seq<Point>, n: seq<nat>)
    requires IsPrism(n, |p|)
  {
    SameLevel(p, n, 0) && SameLevel(p, n, 1) && SameLevel(p, n, 2)
  }

  /** The node across the prism from the first node of a base that has one at another elevation. */
  function Across(p: seq<Point>, n: seq<nat>, i: nat, j: nat, k: nat): (o: nat)
    requires IsPrism(n, |p|) && i < 6 && j < 6 && k < 6
    ensures o < |p|
  {
    if !SameLevel(p, n, i) then n[Facing(i)] else if !SameLevel(p, n, j) then n[Facing(j)] else n[Facing(k)]
  }

  /** A four-sided side v1, v2, v3, v4 is cut from v1 if v1 < v2 and from v2 otherwise. */
  function Split(v1: nat, v2: nat, v3: nat, v4: nat): (Tri, Tri) {
    if v1 < v2 then (Tri(v1, v2, v3), Tri(v3, v4, v1)) else (Tri(v2, v3, v4), Tri(v4, v1, v2))
  }

  function QuadFaces(p: seq<Point>, v1: nat, v2: nat, v3: nat, v4: nat, o1: nat, o2: nat): seq<Tri>
    requires v1 < |p| && v2 < |p| && v3 < |p| && v4 < |p| && o1 < |p| && o2 < |p|
  {
    var s := Split(v1, v2, v3, v4);
    [Outward(p, s.0, o1), Outward(p, s.1, o2)]
  }

  /** The triangles of side f of a prism. */
  function SideFaces(p: seq<Point>, n: seq<nat>, f: nat): seq<Tri>
    requires IsPrism(n, |p|) && f < 5
  {
    if f == 0 then [Outward(p, Tri(n[0], n[2], n[1]), Across(p, n, 0, 2, 1))]
    else if f == 1 then [Outward(p, Tri(n[3], n[4], n[5]), Across(p, n, 3, 4, 5))]
    else if f == 2 then QuadFaces(p, n[0], n[1], n[4], n[3], n[2], n[5])
    else if f == 3 then QuadFaces(p, n[1], n[2], n[5], n[4], n[0], n[3])
    else QuadFaces(p, n[2], n[0], n[3], n[5], n[1], n[4])
  }

  function SideCount(f: nat): nat {
    if f < 2 then 1 else 2
  }

  function SidesFrom(f: nat): nat {
    if f < 2 then 8 - f else if f < 5 then 2 * (5 - f) else 0
  }

  /** The triangles of the first f sides of a prism. */
  function ElementFaces(p: seq<Point>, n: seq<nat>, f: nat): seq<Tri>
    requires IsPrism(n, |p|) && f <= 5
  {
    if f == 0 then [] else ElementFaces(p, n, f - 1) + SideFaces(p, n, f - 1)
  }

  lemma SidesNext(p: seq<Point>, n: seq<nat>, ts: seq<Tri>, f: nat)
    requires IsPrism(n, |p|) && f < 5
    ensures ts + ElementFaces(p, n, f) + SideFaces(p, n, f) == ts + ElementFaces(p, n, f + 1)
    ensures SidesFrom(f) == SidesFrom(f + 1) + SideCount(f)
  {
    hide SideFaces;
  }

  // ----- the table -----

  /** The list holds the faces that node v belongs to. */
  ghost predicate ListsFaces(ts: seq<Tri>, v: nat, list: seq<nat>) {
    && Increasing(list)
    && (forall i :: 0 <= i < |list| ==> list[i] < |ts| && ts[list[i]].On(v))
    && (forall k :: 0 <= k < |ts| && ts[k].On(v) ==> k in list)
  }

  predicate InRange(t: Tri, n: nat) {
    t.a < n && t.b < n && t.c < n
  }

  ghost predicate Indexed(ts: seq<Tri>, lists: seq<seq<nat>>) {
    && (forall k :: 0 <= k < |ts| ==> InRange(ts[k], |lists|))
    && forall v :: 0 <= v < |lists| ==> ListsFaces(ts, v, lists[v])
  }

  ghost predicate Stored(faces: seq<Face>, ts: seq<Tri>, sisters: seq<int>) {
    && |ts| == |sisters| <= |faces|
    && (forall k :: 0 <= k < |ts| ==> faces[k] == Face(ts[k], sisters[k]))
    && (forall k :: |ts| <= k < |faces| ==> faces[k] == NO_FACE)
  }

  /** Face |ts| appended to the lists of its vertices. */
  function WithFace(lists: seq<seq<nat>>, t: Tri, face: nat): seq<seq<nat>>
    requires InRange(t, |lists|)
  {
    var l1 := lists[t.a := lists[t.a] + [face]];
    var l2 := l1[t.b := l1[t.b] + [face]];
    l2[t.c := l2[t.c] + [face]]
  }

  lemma ListNext(ts: seq<Tri>, v: nat, list: seq<nat>, t: Tri)
    requires ListsFaces(ts, v, list)
    ensures t.On(v) ==> ListsFaces(ts + [t], v, list + [|ts|])
    ensures !t.On(v) ==> ListsFaces(ts + [t], v, list)
  {
    if t.On(v) {
      var us, l := ts + [t], list + [|ts|];
      forall k | 0 <= k < |us| && us[k].On(v) ensures k in l {
        if k < |ts| {
          assert k in list;
        } else {
          assert l[|list|] == k;
        }
      }
    }
  }

  lemma IndexedNext(ts: seq<Tri>, lists: seq<seq<nat>>, t: Tri)
    requires Indexed(ts, lists) && InRange(t, |lists|) && t.Proper()
    ensures Indexed(ts + [t], WithFace(lists, t, |ts|))
  {
    var us, ls := ts + [t], WithFace(lists, t, |ts|);
    forall v | 0 <= v < |ls| ensures ListsFaces(us, v, ls[v]) {
      ListNext(ts, v, lists[v], t);
    }
  }

  lemma StoredNext(faces: seq<Face>, ts: seq<Tri>, sisters: seq<int>, t: Tri, found: int)
    requires Stored(faces, ts, sisters) && |ts| < |faces| && -1 <= found < |ts|
    ensures Stored(WithSister(faces, |ts|, t, found), ts + [t], Recorded(sisters, found))
  {
  }

  /** The state of the table: ts are the faces added so far. */
  ghost predicate Consistent(n: nat, nodeFaces: seq<seq<nat>>, faces: seq<Face>, count: nat, ts: seq<Tri>, sisters: seq<int>) {
    && |nodeFaces| == n && count == |ts|
    && AllProper(ts) && Paired(ts, sisters) && Indexed(ts, nodeFaces) && Stored(faces, ts, sisters)
  }

  /** The slots after face t has been added next to the face found. */
  function WithSister(faces: seq<Face>, count: nat, t: Tri, found: int): seq<Face>
    requires count < |faces| && -1 <= found < count
  {
    (if found != -1 && faces[found].sister == -1 then faces[found := faces[found].(sister := count)] else faces)
      [count := Face(t, found)]
  }

  lemma ConsistentNext(n: nat, nodeFaces: seq<seq<nat>>, faces: seq<Face>, ts: seq<Tri>, sisters: seq<int>,
                       t: Tri, found: int)
    requires Consistent(n, nodeFaces, faces, |ts|, ts, sisters) && |ts| < |faces|
    requires t.Proper() && InRange(t, n) && FirstLike(ts, t, found)
    ensures |sisters| == |ts|
    ensures Consistent(n, WithFace(nodeFaces, t, |ts|), WithSister(faces, |ts|, t, found), |ts| + 1, ts + [t],
                       Recorded(sisters, found))
  {
    RecordedPaired(ts, sisters, t, found);
    StoredNext(faces, ts, sisters, t, found);
    IndexedNext(ts, nodeFaces, t);
    assert |WithFace(nodeFaces, t, |ts|)| == n;
    hide Paired, Stored, Indexed, WithFace, WithSister, FirstLike;
  }

  class Table {
    const points: seq<Point>
    var nodeFaces: seq<seq<nat>>
    var faces: seq<Face>
    var count: nat
    ghost var ts: seq<Tri>
    ghost var sisters: seq<int>

    ghost predicate Valid()
      reads this
    {
      Consistent(|points|, nodeFaces, faces, count, ts, sisters)
    }

    /** An empty table with the given number of slots. */
    constructor (points: seq<Point>, slots: nat)
      ensures Valid() && this.points == points && count == 0 && ts == [] && |faces| == slots
    {
      this.points := points;
      nodeFaces := seq(|points|, i => []);
      faces := seq(slots, i => NO_FACE);
      count, ts, sisters := 0, [], [];
    }

    /** Whether every vertex of the face is among the given ones. */
    static method SameVertices(face: Tri, vertices: Tri) returns (foundNode: bool)
      ensures foundNode <==> Like(face, vertices)
    {
      var nodes, vs := [face.a, face.b, face.c], [vertices.a, vertices.b, vertices.c];
      foundNode := false;
      var j := 0;
      while j < 3
        invariant 0 <= j <= 3 && (j > 0 ==> foundNode)
        invariant forall i :: 0 <= i < j ==> nodes[i] in vs
      {
        foundNode := false;
        var k := 0;
        while k < 3 && !foundNode
          invariant 0 <= k <= 3 && (foundNode ==> nodes[j] in vs)
          invariant !foundNode ==> forall i :: 0 <= i < k ==> vs[i] != nodes[j]
        {
          if nodes[j] == vs[k] {
            foundNode := true;
          }
          k := k + 1;
        }
        if !foundNode {
          assert nodes[j] != vs[0] && nodes[j] != vs[1] && nodes[j] != vs[2];
          break;
        }
        j := j + 1;
      }
      if foundNode {
        assert nodes[0] in vs && nodes[1] in vs && nodes[2] in vs;
      }
    }

    /** Goes through the faces listed until one has the given vertices. */
    static method SearchList(list: seq<nat>, faces: seq<Face>, vertices: Tri) returns (r: int, ghost n: nat)
      requires forall i :: 0 <= i < |list| ==> list[i] < |faces|
      ensures n <= |list| && forall j :: 0 <= j < n ==> !Like(faces[list[j]].tri, vertices)
      ensures if n < |list| then r == list[n] && Like(faces[list[n]].tri, vertices) else r == -1
    {
      hide Like;
      var foundFace := false;
      var i := 0;
      while i < |list| && !foundFace
        invariant 0 <= i <= |list| && (foundFace ==> i > 0 && Like(faces[list[i - 1]].tri, vertices))
        invariant forall j :: 0 <= j < (if foundFace then i - 1 else i) ==> !Like(faces[list[j]].tri, vertices)
      {
        foundFace := SameVertices(faces[list[i]].tri, vertices);
        i := i + 1;
      }
      r := if foundFace then list[i - 1] else -1;
      n := if foundFace then i - 1 else |list|;
    }

    /** The first face with the given vertices, one of which is node; -1 if there is none. */
    method FaceExists(node: nat, vertices: Tri) returns (r: int)
      requires Valid() && vertices.On(node) && node < |points| && vertices.Proper()
      ensures FirstLike(ts, vertices, r)
    {
      assert ListsFaces(ts, node, nodeFaces[node]);
      hide Paired, Indexed, Like, FirstLike;
      ghost var n;
      r, n := SearchList(nodeFaces[node], faces, vertices);
      FirstInList(ts, node, nodeFaces[node], vertices, r, n);
    }

    static lemma FirstInList(ts: seq<Tri>, v: nat, list: seq<nat>, t: Tri, r: int, n: nat)
      requires AllProper(ts) && t.Proper() && ListsFaces(ts, v, list) && t.On(v) && n <= |list|
      requires forall j :: 0 <= j < n ==> !Like(ts[list[j]], t)
      requires if n < |list| then r == list[n] && Like(ts[r], t) else r == -1
      ensures FirstLike(ts, t, r)
    {
      forall i | 0 <= i < |ts| && (r == -1 || i < r) ensures !Like(ts[i], t) {
        if ts[i].On(v) {
          assert i in list;
          var j :| 0 <= j < |list| && list[j] == i;
          assert j < n;
        } else {
          LikeIsEquivalence(ts[i], t, t);
        }
      }
    }

    /** Adds a face, whose element lies on the side of the opposite node. */
    method AddFace(vertices: Tri, opposite: nat)
      requires Valid() && count < |faces| && InRange(vertices, |points|) && opposite < |points| && vertices.Proper()
      modifies this
      ensures Valid() && |faces| == |old(faces)| && count == old(count) + 1
      ensures ts == old(ts) + [Outward(points, vertices, opposite)]
    {
      var found := FaceExists(vertices.a, vertices);
      var t := vertices;
      if Projection(points, vertices, opposite) > 0.0 {
        t := Tri(vertices.b, vertices.a, vertices.c);
      }
      FoundOutward(ts, vertices, t, found);
      hide Projection, Consistent, FirstLike, WithFace;
      assert count == |ts| by {
        TableSizes(|points|, nodeFaces, faces, count, ts, sisters);
      }
      ConsistentNext(|points|, nodeFaces, faces, ts, sisters, t, found);
      TableSizes(|points|, nodeFaces, faces, count, ts, sisters);
      FoundSize(ts, t, found);
      if found != -1 {
        if faces[found].sister == -1 {
          faces := faces[found := faces[found].(sister := count)];
        }
      }
      faces := faces[count := Face(t, found)];
      nodeFaces := WithFace(nodeFaces, t, count);
      ts, sisters := ts + [t], Recorded(sisters, found);
      count := count + 1;
    }

    static lemma TableSizes(n: nat, nodeFaces: seq<seq<nat>>, faces: seq<Face>, count: nat, ts: seq<Tri>, sisters: seq<int>)
      requires Consistent(n, nodeFaces, faces, count, ts, sisters)
      ensures count == |ts| == |sisters| <= |faces| && |nodeFaces| == n
    {
    }

    static lemma FoundSize(ts: seq<Tri>, v: Tri, found: int)
      requires FirstLike(ts, v, found)
      ensures -1 <= found < |ts|
    {
    }

    static lemma FoundOutward(ts: seq<Tri>, v: Tri, t: Tri, found: int)
      requires FirstLike(ts, v, found) && forall u :: t.On(u) <==> v.On(u)
      ensures FirstLike(ts, t, found)
    {
    }

    /** A node on the inner side of base f: the first one across from it at another elevation. */
    static method FindAcross(p: seq<Point>, n: seq<nat>, f: nat) returns (o: nat)
      requires IsPrism(n, |p|) && !Flat(p, n) && f < 2
      ensures o == if f == 0 then Across(p, n, 0, 2, 1) else Across(p, n, 3, 4, 5)
    {
      assert SameLevel(p, n, 3) == SameLevel(p, n, 0) && SameLevel(p, n, 4) == SameLevel(p, n, 1)
             && SameLevel(p, n, 5) == SameLevel(p, n, 2);
      var side := FACE_ARRAY[f];
      assert side == if f == 0 then [3, 0, 2, 1, -1] else [3, 3, 4, 5, -1];
      hide SameLevel;
      var j := 0;
      while j < 3 && SameLevel(p, n, side[j + 1])
        invariant 0 <= j <= 3
        invariant (j > 0 ==> SameLevel(p, n, side[1])) && (j > 1 ==> SameLevel(p, n, side[2]))
        invariant j > 2 ==> SameLevel(p, n, side[3])
      {
        j := j + 1;
      }
      o := n[Facing(side[j + 1])];
    }

    /** Adds the two triangles of a four-sided side. */
    method AddQuad(v1: nat, v2: nat, v3: nat, v4: nat, o1: nat, o2: nat)
      requires Valid() && count + 2 <= |faces| && o1 < |points| && o2 < |points|
      requires v1 < |points| && v2 < |points| && v3 < |points| && v4 < |points|
      requires v1 != v2 && v1 != v3 && v1 != v4 && v2 != v3 && v2 != v4 && v3 != v4
      modifies this
      ensures Valid() && |faces| == |old(faces)| && count == old(count) + 2
      ensures ts == old(ts) + QuadFaces(points, v1, v2, v3, v4, o1, o2)
    {
      hide Consistent, Outward;
      if v1 < v2 {
        AddFace(Tri(v1, v2, v3), o1);
        AddFace(Tri(v3, v4, v1), o2);
      } else {
        AddFace(Tri(v2, v3, v4), o1);
        AddFace(Tri(v4, v1, v2), o2);
      }
    }

    /** Adds the triangles of one side of a prism. */
    method AddSide(n: seq<nat>, f: nat)
      requires Valid() && IsPrism(n, |points|) && !Flat(points, n) && f < 5 && count + SideCount(f) <= |faces|
      modifies this
      ensures Valid() && |faces| == |old(faces)| && count == old(count) + SideCount(f)
      ensures ts == old(ts) + SideFaces(points, n, f)
    {
      hide Consistent, Outward, QuadFaces, Across, Flat;
      var side := FACE_ARRAY[f];
      if side[0] == 3 {
        var o := FindAcross(points, n, f);
        AddFace(Tri(n[side[1]], n[side[2]], n[side[3]]), o);
      } else {
        var opposite := OPPOSITE_ARRAY[f];
        AddQuad(n[side[1]], n[side[2]], n[side[3]], n[side[4]], n[opposite[0]], n[opposite[1]]);
      }
    }

    /** Adds the eight triangles of a prism. */
    method AddElement(n: seq<nat>)
      requires Valid() && IsPrism(n, |points|) && !Flat(points, n) && count + 8 <= |faces|
      modifies this
      ensures Valid() && |faces| == |old(faces)| && count == old(count) + 8
      ensures ts == old(ts) + ElementFaces(points, n, 5)
    {
      ghost var ts0 := ts;
      for f := 0 to 5
        invariant Valid() && |faces| == |old(faces)| && ts == ts0 + ElementFaces(points, n, f)
        invariant count + SidesFrom(f) == old(count) + 8
      {
        hide SideFaces, ElementFaces, Consistent, Flat, IsPrism;
        SidesNext(points, n, ts0, f);
        AddSide(n, f);
      }
    }
  }

  // ----- the program -----

  predicate SameXY(p: seq<Point>, a: nat, b: nat)
    requires a < |p| && b < |p|
  {
    p[a].x == p[b].x && p[a].y == p[b].y
  }

  /** Elements without volume are passed over. */
  predicate Skipped(p: seq<Point>, n: seq<nat>)
    requires IsPrism(n, |p|)
  {
    Flat(p, n) || SameXY(p, n[0], n[1]) || SameXY(p, n[0], n[2]) || SameXY(p, n[1], n[2])
  }

  predicate AllPrisms(p: seq<Point>, elements: seq<seq<nat>>) {
    forall e :: 0 <= e < |elements| ==> IsPrism(elements[e], |p|)
  }

  /** The triangles of one element. */
  function KeptFaces(p: seq<Point>, n: seq<nat>): seq<Tri>
    requires IsPrism(n, |p|)
  {
    if Skipped(p, n) then [] else ElementFaces(p, n, 5)
  }

  /** The triangles of the first m elements. */
  function MeshFaces(p: seq<Point>, elements: seq<seq<nat>>, m: nat): seq<Tri>
    requires m <= |elements| && AllPrisms(p, elements)
  {
    if m == 0 then []
    else MeshFaces(p, elements, m - 1) + KeptFaces(p, elements[m - 1])
  }

  /** Adds one element unless it has no volume. */
  method KeepElement(t: Table, n: seq<nat>)
    requires t.Valid() && IsPrism(n, |t.points|) && t.count + 8 <= |t.faces|
    modifies t
    ensures t.Valid() && |t.faces| == |old(t.faces)| && t.count <= old(t.count) + 8
    ensures t.ts == old(t.ts) + KeptFaces(t.points, n)
  {
    hide Consistent, ElementFaces;
    if !Skipped(t.points, n) {
      t.AddElement(n);
    }
  }

  /** Adds the elements of the mesh one after another. */
  method FillTable(t: Table, elements: seq<seq<nat>>)
    requires t.Valid() && AllPrisms(t.points, elements)
    requires |t.faces| == 8 * |elements| && t.count == 0 && t.ts == []
    modifies t
    ensures t.Valid() && t.ts == MeshFaces(t.points, elements, |elements|)
  {
    hide *;
    MeshFacesFrom(t.points, elements, 0);
    for e := 0 to |elements|
      invariant t.Valid() && |t.faces| == 8 * |elements|
      invariant t.ts == MeshFaces(t.points, elements, e) && t.count <= 8 * e
    {
      MeshFacesFrom(t.points, elements, e + 1);
      KeepElement(t, elements[e]);
    }
  }

  /** Builds the face table of the mesh; there are eight slots for every element, whether
      it is passed over or not. */
  method BuildTable(p: seq<Point>, elements: seq<seq<nat>>) returns (t: Table)
    requires AllPrisms(p, elements)
    ensures t.Valid() && t.points == p && t.ts == MeshFaces(p, elements, |elements|)
  {
    hide *;
    t := new Table(p, 8 * |elements|);
    FillTable(t, elements);
  }

  datatype Written = Written(v0: int, v1: int, v2: int)

  /** The faces as they are written out, with nodes counted from zero. */
  function Shifted(ts: seq<Tri>): (r: seq<Written>)
    ensures |r| == |ts|
  {
    seq(|ts|, i requires 0 <= i < |ts| => Written(ts[i].a - 1, ts[i].b - 1, ts[i].c - 1))
  }

  /** Counts the slots that have no sister. */
  method CountBoundary(faces: seq<Face>, ghost ts: seq<Tri>, ghost sisters: seq<int>) returns (faceCount: nat)
    requires Stored(faces, ts, sisters)
    ensures faceCount == |Unpaired(ts, sisters)|
  {
    faceCount := 0;
    for j := 0 to |faces|
      invariant faceCount == |UnpairedBefore(ts, sisters, j)|
    {
      PrefixUnpaired(ts, sisters, j);
      assert faces[j].sister == -1 <==> j < |ts| && sisters[j] == -1;
      hide UnpairedBefore;
      if faces[j].sister == -1 {
        faceCount := faceCount + 1;
      }
    }
    assert ts[..|ts|] == ts && sisters[..|ts|] == sisters;
  }

  /** Lists the slots that have no sister, in order. */
  method ListBoundary(faces: seq<Face>, ghost ts: seq<Tri>, ghost sisters: seq<int>) returns (out: seq<Written>)
    requires Stored(faces, ts, sisters)
    ensures out == Shifted(Unpaired(ts, sisters))
  {
    out := [];
    for j := 0 to |faces|
      invariant out == Shifted(UnpairedBefore(ts, sisters, j))
    {
      PrefixUnpaired(ts, sisters, j);
      assert faces[j].sister == -1 <==> j < |ts| && sisters[j] == -1;
      assert faces[j].sister == -1 ==> faces[j].tri == ts[j];
      hide UnpairedBefore;
      if faces[j].sister == -1 {
        var f := faces[j].tri;
        out := out + [Written(f.a - 1, f.b - 1, f.c - 1)];
      }
    }
    assert ts[..|ts|] == ts && sisters[..|ts|] == sisters;
  }

  function UnpairedBefore(ts: seq<Tri>, sisters: seq<int>, j: nat): seq<Tri>
    requires |ts| == |sisters|
  {
    if j <= |ts| then Unpaired(ts[..j], sisters[..j]) else Unpaired(ts, sisters)
  }

  lemma PrefixUnpaired(ts: seq<Tri>, sisters: seq<int>, j: nat)
    requires |ts| == |sisters|
    ensures UnpairedBefore(ts, sisters, j + 1)
            == UnpairedBefore(ts, sisters, j) + if j < |ts| && sisters[j] == -1 then [ts[j]] else []
  {
    if j < |ts| {
      assert ts[..j + 1][..j] == ts[..j] && sisters[..j + 1][..j] == sisters[..j];
    } else if j == |ts| {
      assert ts[..j] == ts && sisters[..j] == sisters;
    }
  }

  // ----- what the split achieves -----

  /** Two pairs of triangles with the same vertices. */
  predicate SamePair(s: (Tri, Tri), t: (Tri, Tri)) {
    (Like(s.0, t.0) && Like(s.1, t.1)) || (Like(s.0, t.1) && Like(s.1, t.0))
  }

  /** Two upright prisms cut the side between them along the same diagonal. */
  lemma SharedSideCutAlike(v1: nat, v2: nat, v3: nat, v4: nat)
    requires v1 != v2
    ensures SamePair(Split(v1, v2, v3, v4), Split(v2, v1, v4, v3))
  {
  }

  /** If one of them is listed upside down they do just when the lower and the upper nodes
      are in the same order. */
  lemma InvertedSideCutAlike(v1: nat, v2: nat, v3: nat, v4: nat)
    requires v1 != v2 && v1 != v3 && v1 != v4 && v2 != v3 && v2 != v4 && v3 != v4
    ensures SamePair(Split(v1, v2, v3, v4), Split(v4, v3, v2, v1)) <==> (v1 < v2 <==> v3 < v4)
  {
  }

  predicate LikeSome(t: Tri, us: seq<Tri>) {
    exists k :: 0 <= k < |us| && Like(t, us[k])
  }

  lemma LikeTurned(p: seq<Point>, s: Tri, o: nat, r: Tri, q: nat)
    requires InRange(s, |p|) && InRange(r, |p|) && o < |p| && q < |p|
    ensures Like(s, r) ==> Like(Outward(p, s, o), Outward(p, r, q))
  {
    hide Projection;
  }

  /** A side between two upright prisms gives both of them the same two faces, whichever
      way their normals were turned, so each has a sister on the other prism. */
  lemma SharedSideFacesMatch(p: seq<Point>, v1: nat, v2: nat, v3: nat, v4: nat, o1: nat, o2: nat, q1: nat, q2: nat)
    requires v1 < |p| && v2 < |p| && v3 < |p| && v4 < |p| && o1 < |p| && o2 < |p| && q1 < |p| && q2 < |p| && v1 != v2
    ensures forall t :: t in QuadFaces(p, v1, v2, v3, v4, o1, o2) ==>
              LikeSome(t, QuadFaces(p, v2, v1, v4, v3, q1, q2))
  {
    var s, r := Split(v1, v2, v3, v4), Split(v2, v1, v4, v3);
    var us := QuadFaces(p, v2, v1, v4, v3, q1, q2);
    SharedSideCutAlike(v1, v2, v3, v4);
    LikeTurned(p, s.0, o1, r.0, q1);
    LikeTurned(p, s.0, o1, r.1, q2);
    LikeTurned(p, s.1, o2, r.0, q1);
    LikeTurned(p, s.1, o2, r.1, q2);
    hide Outward, Like;
    assert us[0] == Outward(p, r.0, q1) && us[1] == Outward(p, r.1, q2);
    assert LikeSome(Outward(p, s.0, o1), us);
    assert LikeSome(Outward(p, s.1, o2), us);
  }

  lemma QuadSides(p: seq<Point>, v1: nat, v2: nat, v3: nat, v4: nat, o1: nat, o2: nat, a: nat, b: nat)
    requires v1 < |p| && v2 < |p| && v3 < |p| && v4 < |p| && o1 < |p| && o2 < |p|
    ensures AllSides(QuadFaces(p, v1, v2, v3, v4, o1, o2), a, b)
            == Side(v1, v2, a, b) + Side(v2, v3, a, b) + Side(v3, v4, a, b) + Side(v4, v1, a, b)
               + 2 * (if v1 < v2 then Side(v1, v3, a, b) else Side(v2, v4, a, b))
  {
    var s := Split(v1, v2, v3, v4);
    OutwardFacesAway(p, s.0, o1);
    OutwardFacesAway(p, s.1, o2);
    hide Outward;
    var us := QuadFaces(p, v1, v2, v3, v4, o1, o2);
    assert us[..1] == [us[0]] && us[..1][..0] == [];
    assert AllSides(us[..1], a, b) == Sides(us[0], a, b);
  }

  lemma BaseSides(p: seq<Point>, t: Tri, o: nat, a: nat, b: nat)
    requires InRange(t, |p|) && o < |p|
    ensures AllSides([Outward(p, t, o)], a, b) == Sides(t, a, b)
  {
    OutwardFacesAway(p, t, o);
    hide Outward;
    assert [Outward(p, t, o)][..0] == [];
  }

  lemma SideTurned(u: nat, v: nat, a: nat, b: nat)
    ensures Side(u, v, a, b) == Side(v, u, a, b)
  {
  }

  /** The sides of the triangles of side f, as edges of the prism each counted from both its sides. */
  lemma BasesSides(p: seq<Point>, n: seq<nat>, a: nat, b: nat)
    requires IsPrism(n, |p|)
    ensures AllSides(SideFaces(p, n, 0), a, b) == Side(n[0], n[1], a, b) + Side(n[1], n[2], a, b) + Side(n[2], n[0], a, b)
    ensures AllSides(SideFaces(p, n, 1), a, b) == Side(n[3], n[4], a, b) + Side(n[4], n[5], a, b) + Side(n[5], n[3], a, b)
  {
    BaseSides(p, Tri(n[0], n[2], n[1]), Across(p, n, 0, 2, 1), a, b);
    BaseSides(p, Tri(n[3], n[4], n[5]), Across(p, n, 3, 4, 5), a, b);
    SideTurned(n[0], n[1], a, b);
    SideTurned(n[1], n[2], a, b);
    SideTurned(n[2], n[0], a, b);
    hide AllSides, Outward, Across, Side;
  }

  lemma WallSides(p: seq<Point>, n: seq<nat>, i: nat, j: nat, o: nat, f: nat, a: nat, b: nat) returns (d: nat)
    requires IsPrism(n, |p|)
    requires (i, j, o, f) == (0, 1, 2, 2) || (i, j, o, f) == (1, 2, 0, 3) || (i, j, o, f) == (2, 0, 1, 4)
    ensures AllSides(SideFaces(p, n, f), a, b)
            == Side(n[i], n[j], a, b) + Side(n[i + 3], n[j + 3], a, b) + Side(n[i], n[i + 3], a, b)
               + Side(n[j], n[j + 3], a, b) + 2 * d
  {
    hide AllSides, Outward, Across, Side, QuadFaces;
    d := if n[i] < n[j] then Side(n[i], n[j + 3], a, b) else Side(n[j], n[i + 3], a, b);
    assert SideFaces(p, n, f) == QuadFaces(p, n[i], n[j], n[j + 3], n[i + 3], n[o], n[o + 3]);
    QuadSides(p, n[i], n[j], n[j + 3], n[i + 3], n[o], n[o + 3], a, b);
    SideTurned(n[i + 3], n[j + 3], a, b);
    SideTurned(n[i], n[i + 3], a, b);
  }

  /** Every edge lies in an even number of the triangles of a prism. */
  lemma PrismIsClosed(p: seq<Point>, n: seq<nat>, a: nat, b: nat) returns (half: nat)
    requires IsPrism(n, |p|)
    ensures AllSides(ElementFaces(p, n, 5), a, b) == 2 * half
  {
    hide AllSides, SideFaces, ElementFaces, Side;
    BasesSides(p, n, a, b);
    var d2 := WallSides(p, n, 0, 1, 2, 2, a, b);
    var d3 := WallSides(p, n, 1, 2, 0, 3, a, b);
    var d4 := WallSides(p, n, 2, 0, 1, 4, a, b);
    PrismSides(p, n, a, b);
    half := Side(n[0], n[1], a, b) + Side(n[1], n[2], a, b) + Side(n[2], n[0], a, b) + Side(n[3], n[4], a, b)
            + Side(n[4], n[5], a, b) + Side(n[5], n[3], a, b) + Side(n[0], n[3], a, b) + Side(n[1], n[4], a, b)
            + Side(n[2], n[5], a, b) + d2 + d3 + d4;
  }

  lemma PrismSides(p: seq<Point>, n: seq<nat>, a: nat, b: nat)
    requires IsPrism(n, |p|)
    ensures AllSides(ElementFaces(p, n, 5), a, b)
            == AllSides(SideFaces(p, n, 0), a, b) + AllSides(SideFaces(p, n, 1), a, b) + AllSides(SideFaces(p, n, 2), a, b)
               + AllSides(SideFaces(p, n, 3), a, b) + AllSides(SideFaces(p, n, 4), a, b)
  {
    hide SideFaces;
    assert AllSides(ElementFaces(p, n, 0), a, b) == 0;
    hide AllSides;
    AllSidesConcat(ElementFaces(p, n, 0), SideFaces(p, n, 0), a, b);
    AllSidesConcat(ElementFaces(p, n, 1), SideFaces(p, n, 1), a, b);
    AllSidesConcat(ElementFaces(p, n, 2), SideFaces(p, n, 2), a, b);
    AllSidesConcat(ElementFaces(p, n, 3), SideFaces(p, n, 3), a, b);
    AllSidesConcat(ElementFaces(p, n, 4), SideFaces(p, n, 4), a, b);
  }

  /** Every edge lies in an even number of the faces of the mesh. */
  lemma {:induction false} MeshIsClosed(p: seq<Point>, elements: seq<seq<nat>>, m: nat, a: nat, b: nat)
    returns (half: nat)
    requires m <= |elements| && AllPrisms(p, elements)
    ensures AllSides(MeshFaces(p, elements, m), a, b) == 2 * half
  {
    hide *;
    MeshFacesFrom(p, elements, m);
    if m == 0 {
      half := 0;
      AllSidesNone(a, b);
    } else {
      var h := MeshIsClosed(p, elements, m - 1, a, b);
      var k := KeptIsClosed(p, elements[m - 1], a, b);
      AllSidesConcat(MeshFaces(p, elements, m - 1), KeptFaces(p, elements[m - 1]), a, b);
      half := h + k;
    }
  }

  lemma AllSidesNone(a: nat, b: nat)
    ensures AllSides([], a, b) == 0
  {
  }

  lemma MeshFacesFrom(p: seq<Point>, elements: seq<seq<nat>>, m: nat)
    requires m <= |elements| && AllPrisms(p, elements)
    ensures m == 0 ==> MeshFaces(p, elements, m) == []
    ensures m > 0 ==> IsPrism(elements[m - 1], |p|)
                      && MeshFaces(p, elements, m) == MeshFaces(p, elements, m - 1) + KeptFaces(p, elements[m - 1])
  {
    hide KeptFaces;
  }

  lemma KeptIsClosed(p: seq<Point>, n: seq<nat>, a: nat, b: nat) returns (half: nat)
    requires IsPrism(n, |p|)
    ensures AllSides(KeptFaces(p, n), a, b) == 2 * half
  {
    if Skipped(p, n) {
      half := 0;
    } else {
      hide ElementFaces, IsPrism, AllSides;
      half := PrismIsClosed(p, n, a, b);
    }
  }

  /** The faces written out bound the domain, modulo 2: unless three faces of the mesh have
      the same vertices, every edge lies in an even number of them. */
  lemma BoundaryIsClosed(p: seq<Point>, elements: seq<seq<nat>>, sisters: seq<int>, a: nat, b: nat)
    requires AllPrisms(p, elements)
    requires var ts := MeshFaces(p, elements, |elements|);
             AllProper(ts) && |ts| == |sisters| && Paired(ts, sisters) && AtMostTwice(ts)
    ensures AllSides(Unpaired(MeshFaces(p, elements, |elements|), sisters), a, b) % 2 == 0
  {
    var ts := MeshFaces(p, elements, |elements|);
    hide *;
    var half := MeshIsClosed(p, elements, |elements|, a, b);
    UnpairedParity(ts, sisters, a, b);
    EvenTotal(AllSides(Unpaired(ts, sisters), a, b), AllSides(ts, a, b), half);
  }

  lemma EvenTotal(x: nat, y: nat, half: nat)
    requires SameParity(x, y) && y == 2 * half
    ensures x % 2 == 0
  {
  }

  // ----- the sides inside the domain -----

  /** Where the triangles of side f of element e start in the table. */
  function SideStart(p: seq<Point>, elements: seq<seq<nat>>, e: nat, f: nat): nat
    requires AllPrisms(p, elements) && e < |elements| && f <= 5
  {
    |MeshFaces(p, elements, e)| + |ElementFaces(p, elements[e], f)|
  }

  lemma {:induction false} MeshPrefix(p: seq<Point>, elements: seq<seq<nat>>, m: nat, n: nat)
    requires AllPrisms(p, elements) && m <= n <= |elements|
    ensures MeshFaces(p, elements, m) <= MeshFaces(p, elements, n)
  {
    hide *;
    if m < n {
      MeshPrefix(p, elements, m, n - 1);
      MeshFacesFrom(p, elements, n);
    }
  }

  lemma ElementFrom(p: seq<Point>, n: seq<nat>, f: nat)
    requires IsPrism(n, |p|) && f < 5
    ensures ElementFaces(p, n, f + 1) == ElementFaces(p, n, f) + SideFaces(p, n, f)
  {
    hide SideFaces;
  }

  lemma {:induction false} ElementPrefix(p: seq<Point>, n: seq<nat>, f: nat, g: nat)
    requires IsPrism(n, |p|) && f <= g <= 5
    ensures ElementFaces(p, n, f) <= ElementFaces(p, n, g)
  {
    hide *;
    if f < g {
      ElementPrefix(p, n, f, g - 1);
      ElementFrom(p, n, g - 1);
    }
  }

  /** The table holds the triangles of side f of element e, between what comes before that
      element and what comes after it. */
  lemma SideInMesh(p: seq<Point>, elements: seq<seq<nat>>, e: nat, f: nat, i: nat)
    requires AllPrisms(p, elements) && e < |elements| && !Skipped(p, elements[e]) && f < 5
    requires i < |SideFaces(p, elements[e], f)|
    ensures var k := SideStart(p, elements, e, f) + i;
            && |MeshFaces(p, elements, e)| <= k < |MeshFaces(p, elements, e + 1)| <= |MeshFaces(p, elements, |elements|)|
            && MeshFaces(p, elements, |elements|)[k] == SideFaces(p, elements[e], f)[i]
  {
    hide *;
    SideStartIs(p, elements, e, f);
    KeptInMesh(p, elements, e);
    SideInKept(p, elements[e], f);
    PlaceInParts(MeshFaces(p, elements, e), ElementFaces(p, elements[e], f), SideFaces(p, elements[e], f),
                 ElementFaces(p, elements[e], 5), MeshFaces(p, elements, |elements|), i);
  }

  lemma SideInKept(p: seq<Point>, n: seq<nat>, f: nat)
    requires IsPrism(n, |p|) && f < 5
    ensures ElementFaces(p, n, f) + SideFaces(p, n, f) <= ElementFaces(p, n, 5)
  {
    hide *;
    ElementFrom(p, n, f);
    ElementPrefix(p, n, f + 1, 5);
  }

  lemma KeptInMesh(p: seq<Point>, elements: seq<seq<nat>>, e: nat)
    requires AllPrisms(p, elements) && e < |elements| && !Skipped(p, elements[e])
    ensures MeshFaces(p, elements, e) + ElementFaces(p, elements[e], 5) <= MeshFaces(p, elements, |elements|)
    ensures MeshFaces(p, elements, e + 1) == MeshFaces(p, elements, e) + ElementFaces(p, elements[e], 5)
    ensures IsPrism(elements[e], |p|)
  {
    SideStartIs(p, elements, e, 0);
    hide *;
    MeshFacesFrom(p, elements, e + 1);
    MeshPrefix(p, elements, e + 1, |elements|);
  }

  lemma PlaceInParts(before: seq<Tri>, sides: seq<Tri>, side: seq<Tri>, kept: seq<Tri>, all: seq<Tri>, i: nat)
    requires sides + side <= kept && before + kept <= all && i < |side|
    ensures |before| + |sides| + i < |before + kept| <= |all| && all[|before| + |sides| + i] == side[i]
  {
    var k := |sides| + i;
    assert kept[k] == (sides + side)[k] == side[i];
    assert all[|before| + k] == (before + kept)[|before| + k] == kept[k];
  }

  lemma SideStartIs(p: seq<Point>, elements: seq<seq<nat>>, e: nat, f: nat)
    requires AllPrisms(p, elements) && e < |elements| && f <= 5
    ensures SideStart(p, elements, e, f) == |MeshFaces(p, elements, e)| + |ElementFaces(p, elements[e], f)|
    ensures !Skipped(p, elements[e]) ==> KeptFaces(p, elements[e]) == ElementFaces(p, elements[e], 5)
  {
  }

  /** Triangles of different elements with the same vertices are inside the domain: both have
      a sister, each other if no third face has these vertices, and the faces written out
      include none with these vertices. */
  lemma AlikeAreInside(p: seq<Point>, elements: seq<seq<nat>>, sisters: seq<int>, e: nat, f: nat, i: nat,
                       e': nat, f': nat, i': nat)
    requires AllPrisms(p, elements) && e < |elements| && e' < |elements| && e != e' && f < 5 && f' < 5
    requires !Skipped(p, elements[e]) && !Skipped(p, elements[e'])
    requires i < |SideFaces(p, elements[e], f)| && i' < |SideFaces(p, elements[e'], f')|
    requires Like(SideFaces(p, elements[e], f)[i], SideFaces(p, elements[e'], f')[i'])
    requires AllProper(MeshFaces(p, elements, |elements|)) && Paired(MeshFaces(p, elements, |elements|), sisters)
    ensures Inside(MeshFaces(p, elements, |elements|), sisters, SideStart(p, elements, e, f) + i,
                   SideStart(p, elements, e', f') + i')
  {
    hide *;
    SideInMesh(p, elements, e, f, i);
    SideInMesh(p, elements, e', f', i');
    MeshPrefix(p, elements, if e < e' then e + 1 else e' + 1, if e < e' then e' else e);
    AlikeInside(MeshFaces(p, elements, |elements|), sisters, SideStart(p, elements, e, f) + i,
                SideStart(p, elements, e', f') + i');
  }

  lemma AlikeInside(ts: seq<Tri>, sisters: seq<int>, k: nat, m: nat)
    requires AllProper(ts) && Paired(ts, sisters) && k < |ts| && m < |ts| && k != m && Like(ts[k], ts[m])
    ensures Inside(ts, sisters, k, m)
  {
    AlikeArePaired(ts, sisters, k, m);
    hide Unpaired, Like, Paired;
  }

  /** Faces k and m have sisters, each other if no three faces have the same vertices, and the
      unpaired faces include none with the vertices of face k. */
  ghost predicate Inside(ts: seq<Tri>, sisters: seq<int>, k: nat, m: nat) {
    && |ts| == |sisters| && k < |ts| && m < |ts| && sisters[k] != -1 && sisters[m] != -1
    && (AtMostTwice(ts) ==> sisters[k] == m && sisters[m] == k)
    && forall u :: u in Unpaired(ts, sisters) ==> !Like(u, ts[k])
  }

  /** The corners of four-sided side f in order. */
  function Quad(n: seq<nat>, f: nat): (nat, nat, nat, nat)
    requires |n| == 6 && 2 <= f < 5
  {
    if f == 2 then (n[0], n[1], n[4], n[3]) else if f == 3 then (n[1], n[2], n[5], n[4]) else (n[2], n[0], n[3], n[5])
  }

  function SplitOf(q: (nat, nat, nat, nat)): (Tri, Tri) {
    Split(q.0, q.1, q.2, q.3)
  }

  /** The triangles of a side are those of its split, perhaps turned. */
  lemma SideIsSplit(p: seq<Point>, n: seq<nat>, f: nat)
    requires IsPrism(n, |p|) && 2 <= f < 5
    ensures |SideFaces(p, n, f)| == 2 && SplitOf(Quad(n, f)).0.Proper() && SplitOf(Quad(n, f)).1.Proper()
    ensures Like(SideFaces(p, n, f)[0], SplitOf(Quad(n, f)).0) && Like(SplitOf(Quad(n, f)).0, SideFaces(p, n, f)[0])
    ensures Like(SideFaces(p, n, f)[1], SplitOf(Quad(n, f)).1) && Like(SplitOf(Quad(n, f)).1, SideFaces(p, n, f)[1])
    ensures SideFaces(p, n, f)[0].Proper() && SideFaces(p, n, f)[1].Proper()
  {
    var o := if f == 2 then 2 else f - 3;
    var s := SplitOf(Quad(n, f));
    LikeOutward(p, s.0, n[o]);
    LikeOutward(p, s.1, n[o + 3]);
    hide Outward, Like;
    assert SideFaces(p, n, f) == [Outward(p, s.0, n[o]), Outward(p, s.1, n[o + 3])];
  }

  lemma LikeOutward(p: seq<Point>, t: Tri, o: nat)
    requires InRange(t, |p|) && o < |p|
    ensures Like(Outward(p, t, o), t) && Like(t, Outward(p, t, o)) && (Outward(p, t, o).Proper() <==> t.Proper())
  {
    hide Projection;
  }

  /** If two elements share a four-sided side and cut it alike, as they do when both stand
      upright, the two triangles of the side are paired across it and not written out. */
  lemma SharedSideIsInside(p: seq<Point>, elements: seq<seq<nat>>, sisters: seq<int>, e: nat, f: nat, e': nat, f': nat)
    returns (turned: bool)
    requires AllPrisms(p, elements) && e < |elements| && e' < |elements| && e != e' && 2 <= f < 5 && 2 <= f' < 5
    requires !Skipped(p, elements[e]) && !Skipped(p, elements[e'])
    requires SamePair(SplitOf(Quad(elements[e], f)), SplitOf(Quad(elements[e'], f')))
    requires AllProper(MeshFaces(p, elements, |elements|)) && Paired(MeshFaces(p, elements, |elements|), sisters)
    ensures var ts, k, m := MeshFaces(p, elements, |elements|), SideStart(p, elements, e, f), SideStart(p, elements, e', f');
            if turned then Inside(ts, sisters, k, m + 1) && Inside(ts, sisters, k + 1, m)
            else Inside(ts, sisters, k, m) && Inside(ts, sisters, k + 1, m + 1)
  {
    hide MeshFaces, SideFaces, Skipped, Split, Inside, Unpaired, Paired, SideStart;
    var s, r := SplitOf(Quad(elements[e], f)), SplitOf(Quad(elements[e'], f'));
    SideIsSplit(p, elements[e], f);
    SideIsSplit(p, elements[e'], f');
    var a, b := SideFaces(p, elements[e], f), SideFaces(p, elements[e'], f');
    turned := !(Like(s.0, r.0) && Like(s.1, r.1));
    var j := if turned then 1 else 0;
    LikeThrough(a[0], s.0, if turned then r.1 else r.0, b[j]);
    LikeThrough(a[1], s.1, if turned then r.0 else r.1, b[1 - j]);
    AlikeAreInside(p, elements, sisters, e, f, 0, e', f', j);
    AlikeAreInside(p, elements, sisters, e, f, 1, e', f', 1 - j);
  }

  lemma LikeThrough(a: Tri, s: Tri, r: Tri, b: Tri)
    requires Like(a, s) && Like(s, r) && Like(r, b)
    ensures Like(a, b)
  {
  }

  /** Both stand upright: each sees the other's side from behind. */
  lemma UprightSideIsInside(p: seq<Point>, elements: seq<seq<nat>>, sisters: seq<int>, e: nat, f: nat, e': nat, f': nat)
    returns (turned: bool)
    requires AllPrisms(p, elements) && e < |elements| && e' < |elements| && e != e' && 2 <= f < 5 && 2 <= f' < 5
    requires !Skipped(p, elements[e]) && !Skipped(p, elements[e'])
    requires var q := Quad(elements[e], f); Quad(elements[e'], f') == (q.1, q.0, q.3, q.2)
    requires AllProper(MeshFaces(p, elements, |elements|)) && Paired(MeshFaces(p, elements, |elements|), sisters)
    ensures var ts, k, m := MeshFaces(p, elements, |elements|), SideStart(p, elements, e, f), SideStart(p, elements, e', f');
            if turned then Inside(ts, sisters, k, m + 1) && Inside(ts, sisters, k + 1, m)
            else Inside(ts, sisters, k, m) && Inside(ts, sisters, k + 1, m + 1)
  {
    hide MeshFaces, Skipped, Split, Inside, Unpaired, Paired, SideStart, SamePair;
    var q := Quad(elements[e], f);
    SharedSideCutAlike(q.0, q.1, q.2, q.3);
    turned := SharedSideIsInside(p, elements, sisters, e, f, e', f');
  }
}
