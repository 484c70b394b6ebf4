/** pfmask-to-pfsol up to the hand-over to the mesh simplifier: build all grid
    vertices, emit the faces of the active cells, keep the vertices in use and
    renumber the triangles. */
module MaskMesh {
  import opened Reals
  import opened RowMajor
  import opened MaskSurface

  datatype Vertex = Vertex(p: Point, used: bool, newIndex: nat)

  // ----- vertex numbering -----

  lemma VertexForm(g: Grid, i: nat, j: nat, k: nat)
    ensures g.VertexIndex(i, j, k) == (k * (g.ny + 1) + j) * (g.nx + 1) + i
  {
  }

  lemma VertexInRange(g: Grid, i: nat, j: nat, k: nat)
    requires i <= g.nx && j <= g.ny && k <= 1
    ensures g.VertexIndex(i, j, k) < VertexCount(g)
  {
    VertexForm(g, i, j, k);
    InGrid(g.ny + 1, 2, j, k);
    InGrid(g.nx + 1, 2 * (g.ny + 1), i, k * (g.ny + 1) + j);
  }

  lemma VertexInjective(g: Grid, i: nat, j: nat, k: nat, i': nat, j': nat, k': nat)
    requires i <= g.nx && i' <= g.nx && j <= g.ny && j' <= g.ny
    requires g.VertexIndex(i, j, k) == g.VertexIndex(i', j', k')
    ensures i == i' && j == j' && k == k'
  {
    VertexForm(g, i, j, k);
    VertexForm(g, i', j', k');
    GridInjective(g.nx + 1, i, k * (g.ny + 1) + j, i', k' * (g.ny + 1) + j');
    GridInjective(g.ny + 1, j, k, j', k');
  }

  function VertexCount(g: Grid): nat {
    2 * (g.ny + 1) * (g.nx + 1)
  }

  /** Vertex (i', j', k') is built before vertex (i, j, k). */
  predicate Before(i': nat, j': nat, k': nat, i: nat, j: nat, k: nat) {
    k' < k || (k' == k && (j' < j || (j' == j && i' < i)))
  }

  ghost predicate PlacedBefore(g: Grid, w: Frame, vs: seq<Vertex>, i: nat, j: nat, k: nat) {
    && |vs| == VertexCount(g)
    && (forall v :: 0 <= v < |vs| ==> !vs[v].used)
    && forall i': nat, j': nat, k': nat | i' <= g.nx && j' <= g.ny && k' <= 1 && Before(i', j', k', i, j, k) ::
         g.VertexIndex(i', j', k') < |vs| && vs[g.VertexIndex(i', j', k')].p == w.At(i', j', k')
  }

  lemma PlaceNext(g: Grid, w: Frame, vs: seq<Vertex>, i: nat, j: nat, k: nat)
    requires i <= g.nx && j <= g.ny && k <= 1 && PlacedBefore(g, w, vs, i, j, k)
    requires g.VertexIndex(i, j, k) < |vs|
    ensures PlacedBefore(g, w, vs[g.VertexIndex(i, j, k) := Vertex(w.At(i, j, k), false, 0)], i + 1, j, k)
  {
    hide Grid.VertexIndex, Frame.At;
    var v := g.VertexIndex(i, j, k);
    var r := vs[v := Vertex(w.At(i, j, k), false, 0)];
    forall i': nat, j': nat, k': nat | i' <= g.nx && j' <= g.ny && k' <= 1 && Before(i', j', k', i + 1, j, k)
      ensures g.VertexIndex(i', j', k') < |r| && r[g.VertexIndex(i', j', k')].p == w.At(i', j', k')
    {
      if (i', j', k') != (i, j, k) {
        assert Before(i', j', k', i, j, k);
        if g.VertexIndex(i', j', k') == v {
          VertexInjective(g, i, j, k, i', j', k');
        }
      }
    }
  }

  /** Builds the list of all possible vertices. */
  method PlaceVertices(g: Grid, w: Frame) returns (vertices: array<Vertex>)
    ensures fresh(vertices) && PlacedBefore(g, w, vertices[..], 0, 0, 2)
  {
    hide Grid.VertexIndex, PlacedBefore, Frame.At;
    vertices := new Vertex[VertexCount(g)](_ => Vertex(Point(0.0, 0.0, 0.0), false, 0));
    StartPlacing(g, w, vertices[..]);
    for k := 0 to 2
      invariant PlacedBefore(g, w, vertices[..], 0, 0, k)
    {
      for j := 0 to g.ny + 1
        invariant PlacedBefore(g, w, vertices[..], 0, j, k)
      {
        for i := 0 to g.nx + 1
          invariant PlacedBefore(g, w, vertices[..], i, j, k)
        {
          VertexInRange(g, i, j, k);
          PlaceNext(g, w, vertices[..], i, j, k);
          vertices[g.VertexIndex(i, j, k)] := Vertex(w.At(i, j, k), false, 0);
        }
        RowPlaced(g, w, vertices[..], j, k);
      }
      LayerPlaced(g, w, vertices[..], k);
    }
  }

  lemma StartPlacing(g: Grid, w: Frame, vs: seq<Vertex>)
    requires |vs| == VertexCount(g) && forall v :: 0 <= v < |vs| ==> !vs[v].used
    ensures PlacedBefore(g, w, vs, 0, 0, 0)
  {
  }

  lemma RowPlaced(g: Grid, w: Frame, vs: seq<Vertex>, j: nat, k: nat)
    requires PlacedBefore(g, w, vs, g.nx + 1, j, k)
    ensures PlacedBefore(g, w, vs, 0, j + 1, k)
  {
    hide Grid.VertexIndex, Frame.At;
  }

  lemma LayerPlaced(g: Grid, w: Frame, vs: seq<Vertex>, k: nat)
    requires PlacedBefore(g, w, vs, 0, g.ny + 1, k)
    ensures PlacedBefore(g, w, vs, 0, 0, k + 1)
  {
    hide Grid.VertexIndex, Frame.At;
  }

  // ----- face emission -----

  predicate HasCorner(t: Triangle, v: nat) {
    v == t.v0 || v == t.v1 || v == t.v2
  }

  predicate CornerOf(ts: seq<Triangle>, v: nat) {
    exists t :: t in ts && HasCorner(t, v)
  }

  lemma CornerOfConcat(s: seq<Triangle>, t: seq<Triangle>, v: nat)
    ensures CornerOf(s + t, v) <==> CornerOf(s, v) || CornerOf(t, v)
  {
    if CornerOf(s, v) {
      var x :| x in s && HasCorner(x, v);
      assert x in s + t;
    } else if CornerOf(t, v) {
      var x :| x in t && HasCorner(x, v);
      assert x in s + t;
    }
  }

  /** The used flags mark exactly the corners of the triangles so far. */
  ghost predicate Marked(vs: seq<Vertex>, ts: seq<Triangle>) {
    forall v: nat :: CornerOf(ts, v) <==> v < |vs| && vs[v].used
  }

  /** Only used flags differ, and none has been cleared. */
  predicate SamePoints(vs: seq<Vertex>, us: seq<Vertex>) {
    |vs| == |us| && forall v :: 0 <= v < |vs| ==> vs[v].p == us[v].p && (us[v].used ==> vs[v].used)
  }

  function MarkAll(vs: seq<Vertex>, marks: seq<nat>): (r: seq<Vertex>)
    requires forall m :: m in marks ==> m < |vs|
    ensures |r| == |vs|
    ensures forall v :: 0 <= v < |vs| ==> r[v] == if v in marks then vs[v].(used := true) else vs[v]
  {
    seq(|vs|, v requires 0 <= v < |vs| => if v in marks then vs[v].(used := true) else vs[v])
  }

  /** Marks four vertices as used. */
  method MarkUsed(vertices: array<Vertex>, a: nat, b: nat, c: nat, d: nat)
    requires a < vertices.Length && b < vertices.Length && c < vertices.Length && d < vertices.Length
    modifies vertices
    ensures vertices[..] == MarkAll(old(vertices[..]), [a, b, c, d])
  {
    vertices[a] := vertices[a].(used := true);
    vertices[b] := vertices[b].(used := true);
    vertices[c] := vertices[c].(used := true);
    vertices[d] := vertices[d].(used := true);
  }

  /** Marking the corners of a face that are not marked yet keeps the flags exact. */
  lemma FaceMarked(vs: seq<Vertex>, ts: seq<Triangle>, face: seq<Triangle>, marks: seq<nat>)
    requires Marked(vs, ts) && forall m :: m in marks ==> m < |vs| && CornerOf(face, m)
    requires forall v: nat :: CornerOf(face, v) ==> v in marks || CornerOf(ts, v)
    ensures Marked(MarkAll(vs, marks), ts + face) && SamePoints(MarkAll(vs, marks), vs)
  {
    var us := MarkAll(vs, marks);
    forall v: nat ensures CornerOf(ts + face, v) <==> v < |us| && us[v].used {
      CornerOfConcat(ts, face, v);
      hide CornerOf;
      assert CornerOf(ts, v) <==> v < |vs| && vs[v].used;
    }
  }

  /** The corners of a face are the four listed vertices. */
  ghost predicate HasCorners(face: seq<Triangle>, a: nat, b: nat, c: nat, d: nat) {
    forall v: nat :: CornerOf(face, v) <==> v == a || v == b || v == c || v == d
  }

  lemma PairCorners(face: seq<Triangle>, a: nat, b: nat, c: nat, d: nat)
    requires |face| == 2
    requires forall v: nat :: HasCorner(face[0], v) || HasCorner(face[1], v) <==> v == a || v == b || v == c || v == d
    ensures HasCorners(face, a, b, c, d)
  {
    assert face[0] in face && face[1] in face;
  }

  lemma FaceCorners(g: Grid, i: nat, j: nat, p: int)
    ensures HasCorners(TopFace(g, i, j, p), g.VertexIndex(i, j, 1), g.VertexIndex(i + 1, j, 1),
                       g.VertexIndex(i, j + 1, 1), g.VertexIndex(i + 1, j + 1, 1))
    ensures HasCorners(BottomFace(g, i, j, p), g.VertexIndex(i, j, 0), g.VertexIndex(i + 1, j, 0),
                       g.VertexIndex(i, j + 1, 0), g.VertexIndex(i + 1, j + 1, 0))
    ensures HasCorners(LeftFace(g, i, j, p), g.VertexIndex(i, j, 0), g.VertexIndex(i, j, 1),
                       g.VertexIndex(i, j + 1, 0), g.VertexIndex(i, j + 1, 1))
    ensures HasCorners(RightFace(g, i, j, p), g.VertexIndex(i + 1, j, 0), g.VertexIndex(i + 1, j, 1),
                       g.VertexIndex(i + 1, j + 1, 0), g.VertexIndex(i + 1, j + 1, 1))
    ensures HasCorners(FrontFace(g, i, j, p), g.VertexIndex(i, j, 0), g.VertexIndex(i, j, 1),
                       g.VertexIndex(i + 1, j, 1), g.VertexIndex(i + 1, j, 0))
    ensures HasCorners(BackFace(g, i, j, p), g.VertexIndex(i, j + 1, 0), g.VertexIndex(i, j + 1, 1),
                       g.VertexIndex(i + 1, j + 1, 0), g.VertexIndex(i + 1, j + 1, 1))
  {
    hide Grid.VertexIndex, HasCorners;
    PairCorners(TopFace(g, i, j, p), g.VertexIndex(i, j, 1), g.VertexIndex(i + 1, j, 1),
                g.VertexIndex(i, j + 1, 1), g.VertexIndex(i + 1, j + 1, 1));
    PairCorners(BottomFace(g, i, j, p), g.VertexIndex(i, j, 0), g.VertexIndex(i + 1, j, 0),
                g.VertexIndex(i, j + 1, 0), g.VertexIndex(i + 1, j + 1, 0));
    PairCorners(LeftFace(g, i, j, p), g.VertexIndex(i, j, 0), g.VertexIndex(i, j, 1),
                g.VertexIndex(i, j + 1, 0), g.VertexIndex(i, j + 1, 1));
    PairCorners(RightFace(g, i, j, p), g.VertexIndex(i + 1, j, 0), g.VertexIndex(i + 1, j, 1),
                g.VertexIndex(i + 1, j + 1, 0), g.VertexIndex(i + 1, j + 1, 1));
    PairCorners(FrontFace(g, i, j, p), g.VertexIndex(i, j, 0), g.VertexIndex(i, j, 1),
                g.VertexIndex(i + 1, j, 1), g.VertexIndex(i + 1, j, 0));
    PairCorners(BackFace(g, i, j, p), g.VertexIndex(i, j + 1, 0), g.VertexIndex(i, j + 1, 1),
                g.VertexIndex(i + 1, j + 1, 0), g.VertexIndex(i + 1, j + 1, 1));
  }

  /** Pushes the two triangles of a face and marks vertices a, b, c and m.  The
      fourth corner d is m itself or already a corner of an earlier triangle. */
  method EmitFace(vertices: array<Vertex>, ts: seq<Triangle>, face: seq<Triangle>,
                  a: nat, b: nat, c: nat, m: nat, ghost d: nat) returns (r: seq<Triangle>)
    requires Marked(vertices[..], ts) && HasCorners(face, a, b, c, d)
    requires a < vertices.Length && b < vertices.Length && c < vertices.Length && m < vertices.Length
    requires m == d || ((m == a || m == b || m == c) && CornerOf(ts, d))
    modifies vertices
    ensures r == ts + face
    ensures Marked(vertices[..], r) && SamePoints(vertices[..], old(vertices[..]))
    ensures CornerOf(r, a) && CornerOf(r, b) && CornerOf(r, c) && CornerOf(r, d)
    ensures forall v: nat :: CornerOf(ts, v) ==> CornerOf(r, v)
  {
    r := ts + face;
    assert forall v: nat :: CornerOf(r, v) <==> CornerOf(ts, v) || CornerOf(face, v) by {
      forall v: nat ensures CornerOf(r, v) <==> CornerOf(ts, v) || CornerOf(face, v) {
        CornerOfConcat(ts, face, v);
      }
    }
    hide Marked, CornerOf;
    FaceMarked(vertices[..], ts, face, [a, b, c, m]);
    MarkUsed(vertices, a, b, c, m);
  }

  /** Emits a side face unless the neighbour on that side is active. */
  method EmitSide(vertices: array<Vertex>, ts: seq<Triangle>, neighbour: bool, face: seq<Triangle>,
                  a: nat, b: nat, c: nat, m: nat, ghost d: nat) returns (r: seq<Triangle>)
    requires Marked(vertices[..], ts) && HasCorners(face, a, b, c, d)
    requires a < vertices.Length && b < vertices.Length && c < vertices.Length && m < vertices.Length
    requires m == d || ((m == a || m == b || m == c) && CornerOf(ts, d))
    modifies vertices
    ensures r == ts + if neighbour then [] else face
    ensures Marked(vertices[..], r) && SamePoints(vertices[..], old(vertices[..]))
    ensures forall v: nat :: CornerOf(ts, v) ==> CornerOf(r, v)
  {
    hide CornerOf, HasCorners, Marked;
    r := ts;
    if !neighbour {
      r := EmitFace(vertices, ts, face, a, b, c, m, d);
    }
  }

  /** Emits the faces of one active cell. */
  method EmitCell(g: Grid, vertices: array<Vertex>, ts: seq<Triangle>, i: nat, j: nat) returns (r: seq<Triangle>)
    requires g.Valid() && i < g.nx && j < g.ny && g.Active(i, j) && vertices.Length == VertexCount(g)
    requires Marked(vertices[..], ts)
    modifies vertices
    ensures r == ts + CellFaces(g, i, j)
    ensures Marked(vertices[..], r) && SamePoints(vertices[..], old(vertices[..]))
  {
    hide Marked, CornerOf, Grid.VertexIndex;
    hide TopFace, BottomFace, LeftFace, RightFace, FrontFace, BackFace;
    r := EmitLevelFaces(g, vertices, ts, i, j);
    r := EmitXFaces(g, vertices, r, i, j);
    r := EmitYFaces(g, vertices, r, i, j);
  }

  /** The left and right faces of a cell, where there is no active neighbour. */
  method EmitXFaces(g: Grid, vertices: array<Vertex>, ts: seq<Triangle>, i: nat, j: nat) returns (r: seq<Triangle>)
    requires g.Valid() && i < g.nx && j < g.ny && vertices.Length == VertexCount(g)
    requires Marked(vertices[..], ts)
    modifies vertices
    ensures r == ts + (if g.Active(i - 1, j) then [] else LeftFace(g, i, j, g.Indicator(LEFT, i, j)))
                 + (if g.Active(i + 1, j) then [] else RightFace(g, i, j, g.Indicator(RIGHT, i, j)))
    ensures Marked(vertices[..], r) && SamePoints(vertices[..], old(vertices[..]))
    ensures forall v: nat :: CornerOf(ts, v) ==> CornerOf(r, v)
  {
    CornersInRange(g, i, j);
    hide Marked, CornerOf, HasCorners, Grid.VertexIndex, LeftFace, RightFace;
    r := ts;
    var left := g.Indicator(LEFT, i, j);
    FaceCorners(g, i, j, left);
    r := EmitSide(vertices, r, i > 0 && g.Indicator(TOP, i - 1, j) != 0, LeftFace(g, i, j, left), g.VertexIndex(i, j, 0), g.VertexIndex(i, j, 1),
                  g.VertexIndex(i, j + 1, 0), g.VertexIndex(i, j + 1, 1), g.VertexIndex(i, j + 1, 1));
    var right := g.Indicator(RIGHT, i, j);
    FaceCorners(g, i, j, right);
    r := EmitSide(vertices, r, i < g.nx - 1 && g.Indicator(TOP, i + 1, j) != 0, RightFace(g, i, j, right), g.VertexIndex(i + 1, j, 0), g.VertexIndex(i + 1, j, 1),
                  g.VertexIndex(i + 1, j + 1, 0), g.VertexIndex(i + 1, j + 1, 1), g.VertexIndex(i + 1, j + 1, 1));
  }

  /** The front and back faces of a cell, where there is no active neighbour.  The
      marks of the front face repeat one vertex and miss another; the missed one is
      a corner of the bottom face. */
  method EmitYFaces(g: Grid, vertices: array<Vertex>, ts: seq<Triangle>, i: nat, j: nat) returns (r: seq<Triangle>)
    requires g.Valid() && i < g.nx && j < g.ny && vertices.Length == VertexCount(g)
    requires Marked(vertices[..], ts) && CornerOf(ts, g.VertexIndex(i + 1, j, 0))
    modifies vertices
    ensures r == ts + (if g.Active(i, j - 1) then [] else FrontFace(g, i, j, g.Indicator(FRONT, i, j)))
                 + (if g.Active(i, j + 1) then [] else BackFace(g, i, j, g.Indicator(BACK, i, j)))
    ensures Marked(vertices[..], r) && SamePoints(vertices[..], old(vertices[..]))
  {
    CornersInRange(g, i, j);
    hide Marked, CornerOf, HasCorners, Grid.VertexIndex, FrontFace, BackFace;
    r := ts;
    var front := g.Indicator(FRONT, i, j);
    FaceCorners(g, i, j, front);
    r := EmitSide(vertices, r, j > 0 && g.Indicator(TOP, i, j - 1) != 0, FrontFace(g, i, j, front), g.VertexIndex(i, j, 0), g.VertexIndex(i, j, 1),
                  g.VertexIndex(i + 1, j, 1), g.VertexIndex(i + 1, j, 1), g.VertexIndex(i + 1, j, 0));
    var back := g.Indicator(BACK, i, j);
    FaceCorners(g, i, j, back);
    r := EmitSide(vertices, r, j < g.ny - 1 && g.Indicator(TOP, i, j + 1) != 0, BackFace(g, i, j, back), g.VertexIndex(i, j + 1, 0), g.VertexIndex(i, j + 1, 1),
                  g.VertexIndex(i + 1, j + 1, 0), g.VertexIndex(i + 1, j + 1, 1), g.VertexIndex(i + 1, j + 1, 1));
  }

  /** The top and bottom faces of a cell. */
  method EmitLevelFaces(g: Grid, vertices: array<Vertex>, ts: seq<Triangle>, i: nat, j: nat)
    returns (r: seq<Triangle>)
    requires g.Valid() && i < g.nx && j < g.ny && vertices.Length == VertexCount(g)
    requires Marked(vertices[..], ts)
    modifies vertices
    ensures r == ts + TopFace(g, i, j, g.Indicator(TOP, i, j)) + BottomFace(g, i, j, g.Indicator(BOTTOM, i, j))
    ensures Marked(vertices[..], r) && SamePoints(vertices[..], old(vertices[..]))
    ensures CornerOf(r, g.VertexIndex(i + 1, j, 0))
  {
    CornersInRange(g, i, j);
    hide Marked, CornerOf, HasCorners, Grid.VertexIndex, TopFace, BottomFace;
    var top := g.Indicator(TOP, i, j);
    FaceCorners(g, i, j, top);
    r := EmitFace(vertices, ts, TopFace(g, i, j, top), g.VertexIndex(i, j, 1), g.VertexIndex(i + 1, j, 1),
                  g.VertexIndex(i, j + 1, 1), g.VertexIndex(i + 1, j + 1, 1), g.VertexIndex(i + 1, j + 1, 1));
    var bottom := g.Indicator(BOTTOM, i, j);
    FaceCorners(g, i, j, bottom);
    r := EmitFace(vertices, r, BottomFace(g, i, j, bottom), g.VertexIndex(i, j, 0), g.VertexIndex(i + 1, j, 0),
                  g.VertexIndex(i, j + 1, 0), g.VertexIndex(i + 1, j + 1, 0), g.VertexIndex(i + 1, j + 1, 0));
  }

  lemma CornersInRange(g: Grid, i: nat, j: nat)
    requires i < g.nx && j < g.ny
    ensures forall i': nat, j': nat, k': nat | i <= i' <= i + 1 && j <= j' <= j + 1 && k' <= 1 ::
      g.VertexIndex(i', j', k') < VertexCount(g)
  {
    forall i': nat, j': nat, k': nat | i <= i' <= i + 1 && j <= j' <= j + 1 && k' <= 1
      ensures g.VertexIndex(i', j', k') < VertexCount(g)
    {
      VertexInRange(g, i', j', k');
    }
  }

  lemma NoCorners(vs: seq<Vertex>)
    requires forall v :: 0 <= v < |vs| ==> !vs[v].used
    ensures Marked(vs, [])
  {
  }

  /** Emits the faces of every active cell, row by row. */
  method EmitSurface(g: Grid, vertices: array<Vertex>) returns (ts: seq<Triangle>)
    requires g.Valid() && vertices.Length == VertexCount(g)
    requires forall v :: 0 <= v < vertices.Length ==> !vertices[v].used
    modifies vertices
    ensures ts == Surface(g, g.ny)
    ensures Marked(vertices[..], ts) && SamePoints(vertices[..], old(vertices[..]))
  {
    ts := [];
    NoCorners(vertices[..]);
    for j := 0 to g.ny
      invariant ts == Surface(g, j)
      invariant Marked(vertices[..], ts) && SamePoints(vertices[..], old(vertices[..]))
    {
      hide Marked, RowFaces, VertexCount;
      ts := EmitRow(g, vertices, ts, j);
    }
  }

  method EmitRow(g: Grid, vertices: array<Vertex>, ts: seq<Triangle>, j: nat) returns (r: seq<Triangle>)
    requires g.Valid() && vertices.Length == VertexCount(g) && j < g.ny && Marked(vertices[..], ts)
    modifies vertices
    ensures r == ts + RowFaces(g, j, g.nx)
    ensures Marked(vertices[..], r) && SamePoints(vertices[..], old(vertices[..]))
  {
    hide Marked, CellFaces, VertexCount, Grid.Indicator;
    r := ts;
    for i := 0 to g.nx
      invariant r == ts + RowFaces(g, j, i)
      invariant Marked(vertices[..], r) && SamePoints(vertices[..], old(vertices[..]))
    {
      if g.Indicator(TOP, i, j) != 0 {
        r := EmitCell(g, vertices, r, i, j);
      } else {
        InactiveCell(g, i, j);
      }
    }
  }

  lemma InactiveCell(g: Grid, i: nat, j: nat)
    requires g.Valid() && i < g.nx && j < g.ny && !g.Active(i, j)
    ensures CellFaces(g, i, j) == []
  {
  }

  // ----- dropping unused vertices and renumbering -----

  predicate Numbered(vs: seq<Vertex>, v: nat, n: nat)
    requires v <= |vs|
  {
    exists u :: 0 <= u < v && vs[u].used && vs[u].newIndex == n
  }

  /** The used vertices before v have been numbered and copied to ns. */
  ghost predicate Compacted(vs: seq<Vertex>, ns: seq<Point>, v: nat)
    requires v <= |vs|
  {
    && (forall u :: 0 <= u < v && vs[u].used ==> vs[u].newIndex < |ns| && ns[vs[u].newIndex] == vs[u].p)
    && (forall n :: 0 <= n < |ns| ==> Numbered(vs, v, n))
  }

  /** The used vertices before v have been numbered in order. */
  ghost predicate NumberedInOrder(vs: seq<Vertex>, v: nat)
    requires v <= |vs|
  {
    forall u, w :: 0 <= u < w < v && vs[u].used && vs[w].used ==> vs[u].newIndex < vs[w].newIndex
  }

  lemma NextInOrder(vs: seq<Vertex>, ns: seq<Point>, v: nat)
    requires v < |vs| && Compacted(vs, ns, v) && NumberedInOrder(vs, v)
    ensures !vs[v].used ==> NumberedInOrder(vs, v + 1)
    ensures vs[v].used ==> NumberedInOrder(vs[v := vs[v].(newIndex := |ns|)], v + 1)
  {
  }

  lemma CompactNext(vs: seq<Vertex>, ns: seq<Point>, v: nat)
    requires v < |vs| && Compacted(vs, ns, v)
    ensures !vs[v].used ==> Compacted(vs, ns, v + 1)
    ensures vs[v].used ==> Compacted(vs[v := vs[v].(newIndex := |ns|)], ns + [vs[v].p], v + 1)
  {
    if !vs[v].used {
      var v' := v + 1;
      forall n | 0 <= n < |ns| ensures Numbered(vs, v', n) {
        assert Numbered(vs, v, n);
      }
    } else {
      var us, ms := vs[v := vs[v].(newIndex := |ns|)], ns + [vs[v].p];
      var v' := v + 1;
      forall n | 0 <= n < |ms| ensures Numbered(us, v', n) {
        if n < |ns| {
          assert Numbered(vs, v, n);
          var u :| 0 <= u < v && vs[u].used && vs[u].newIndex == n;
          assert us[u].used && us[u].newIndex == n;
        } else {
          assert us[v].used && us[v].newIndex == n;
        }
      }
    }
  }

  predicate SameButIndex(vs: seq<Vertex>, us: seq<Vertex>) {
    |vs| == |us| && forall v :: 0 <= v < |vs| ==> vs[v].p == us[v].p && vs[v].used == us[v].used
  }

  /** Creates the list of used vertices, recording in each its new index. */
  method Compact(vertices: array<Vertex>) returns (ns: seq<Point>)
    modifies vertices
    ensures Compacted(vertices[..], ns, vertices.Length) && SameButIndex(vertices[..], old(vertices[..]))
    ensures NumberedInOrder(vertices[..], vertices.Length)
  {
    var newIndex := 0;
    ns := [];
    for v := 0 to vertices.Length
      invariant newIndex == |ns| && Compacted(vertices[..], ns, v) && NumberedInOrder(vertices[..], v)
      invariant SameButIndex(vertices[..], old(vertices[..]))
    {
      NextInOrder(vertices[..], ns, v);
      hide Compacted, NumberedInOrder;
      CompactNext(vertices[..], ns, v);
      if vertices[v].used {
        vertices[v] := vertices[v].(newIndex := newIndex);
        newIndex := newIndex + 1;
        ns := ns + [vertices[v].p];
      }
    }
  }

  function NewIndex(vs: seq<Vertex>): nat -> nat {
    (v: nat) => if v < |vs| then vs[v].newIndex else 0
  }

  /** Rewrites the corners of every triangle to the new indices. */
  method Reindex(vertices: array<Vertex>, ts: seq<Triangle>) returns (r: seq<Triangle>)
    requires forall t :: t in ts ==> t.v0 < vertices.Length && t.v1 < vertices.Length && t.v2 < vertices.Length
    ensures r == Relabel(ts, NewIndex(vertices[..]))
  {
    r := ts;
    ghost var want := Relabel(ts, NewIndex(vertices[..]));
    for k := 0 to |ts|
      invariant r == want[..k] + ts[k..]
    {
      assert ts[k] in ts && r[k] == ts[k];
      r := r[k := Triangle(vertices[r[k].v0].newIndex, vertices[r[k].v1].newIndex, vertices[r[k].v2].newIndex, r[k].patch)];
      assert r[k] == want[k];
    }
  }

  function Place(vs: seq<Vertex>): nat -> Point {
    (v: nat) => if v < |vs| then vs[v].p else Point(0.0, 0.0, 0.0)
  }

  function At(ns: seq<Point>): nat -> Point {
    (n: nat) => if n < |ns| then ns[n] else Point(0.0, 0.0, 0.0)
  }

  /** The renumbered triangles have the corners the original ones had. */
  ghost predicate SameCorners(ns: seq<Point>, r: seq<Triangle>, at: nat -> Point, ts: seq<Triangle>) {
    && |r| == |ts|
    && forall k :: 0 <= k < |ts| ==>
         && r[k].v0 < |ns| && r[k].v1 < |ns| && r[k].v2 < |ns| && r[k].patch == ts[k].patch
         && ns[r[k].v0] == at(ts[k].v0) && ns[r[k].v1] == at(ts[k].v1) && ns[r[k].v2] == at(ts[k].v2)
  }

  lemma CornersKept(vs: seq<Vertex>, ns: seq<Point>, ts: seq<Triangle>)
    requires Marked(vs, ts) && Compacted(vs, ns, |vs|)
    ensures SameCorners(ns, Relabel(ts, NewIndex(vs)), Place(vs), ts)
    ensures forall n: nat :: CornerOf(Relabel(ts, NewIndex(vs)), n) <==> n < |ns|
  {
    var r := Relabel(ts, NewIndex(vs));
    forall k | 0 <= k < |ts| ensures forall v: nat :: HasCorner(ts[k], v) ==> v < |vs| && vs[v].used {
      assert ts[k] in ts;
      forall v: nat | HasCorner(ts[k], v) ensures v < |vs| && vs[v].used {
        assert CornerOf(ts, v);
      }
    }
    forall n: nat | n < |ns| ensures CornerOf(r, n) {
      assert Numbered(vs, |vs|, n);
      var u :| 0 <= u < |vs| && vs[u].used && vs[u].newIndex == n;
      assert CornerOf(ts, u);
      var t :| t in ts && HasCorner(t, u);
      var k :| 0 <= k < |ts| && ts[k] == t;
      assert r[k] in r && HasCorner(r[k], n);
    }
    forall n: nat | CornerOf(r, n) ensures n < |ns| {
      var t :| t in r && HasCorner(t, n);
      var k :| 0 <= k < |r| && r[k] == t;
      assert HasCorner(ts[k], ts[k].v0) && HasCorner(ts[k], ts[k].v1) && HasCorner(ts[k], ts[k].v2);
    }
    forall k | 0 <= k < |ts|
      ensures r[k].v0 < |ns| && r[k].v1 < |ns| && r[k].v2 < |ns|
      ensures ns[r[k].v0] == Place(vs)(ts[k].v0) && ns[r[k].v1] == Place(vs)(ts[k].v1)
           && ns[r[k].v2] == Place(vs)(ts[k].v2)
    {
      assert HasCorner(ts[k], ts[k].v0) && HasCorner(ts[k], ts[k].v1) && HasCorner(ts[k], ts[k].v2);
    }
  }

  lemma {:induction false} SameVolume(ns: seq<Point>, r: seq<Triangle>, at: nat -> Point, ts: seq<Triangle>)
    requires SameCorners(ns, r, at, ts)
    ensures Sum(VolumeMeasure(At(ns)), r) == Sum(VolumeMeasure(at), ts)
  {
    hide Det;
    if ts != [] {
      var m := |ts| - 1;
      SameVolume(ns, r[..m], at, ts[..m]);
      assert Measure(VolumeMeasure(At(ns)), r[m]) == Measure(VolumeMeasure(at), ts[m]);
    }
  }

  lemma PlacedAll(g: Grid, w: Frame, before: seq<Vertex>, vs: seq<Vertex>)
    requires PlacedBefore(g, w, before, 0, 0, 2) && |vs| == |before|
    requires forall v :: 0 <= v < |vs| ==> vs[v].p == before[v].p
    ensures Placed(g, w, Place(vs))
  {
    hide Grid.VertexIndex, Frame.At;
  }

  lemma MarkedTriangles(vs: seq<Vertex>, us: seq<Vertex>, ts: seq<Triangle>)
    requires Marked(vs, ts) && SameButIndex(us, vs)
    ensures Marked(us, ts)
    ensures forall t :: t in ts ==> t.v0 < |us| && t.v1 < |us| && t.v2 < |us|
  {
    forall t | t in ts ensures t.v0 < |us| && t.v1 < |us| && t.v2 < |us| {
      assert HasCorner(t, t.v0) && HasCorner(t, t.v1) && HasCorner(t, t.v2);
      assert CornerOf(ts, t.v0) && CornerOf(ts, t.v1) && CornerOf(ts, t.v2);
    }
  }
}
