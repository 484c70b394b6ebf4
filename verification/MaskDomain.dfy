/** pfmask-to-pfsol: the mesh handed to the simplifier, and where its triangles lie. */
module MaskDomain {
  import opened Reals
  import opened RowMajor
  import opened MaskSurface
  import opened MaskMesh
  import opened Sequences

  // ----- the faces of the domain -----

  /** The face of cell (i, j) on one of its sides: 0 top, 1 bottom, 2 low x, 3 high x, 4 low y, 5 high y. */
  datatype Face = Face(i: nat, j: nat, side: nat)

  /** Whether the top array marks a cell; it marks none beyond the edge. */
  predicate Marks(g: Grid, i: int, j: int)
    requires g.Valid()
  {
    0 <= i < g.nx && 0 <= j < g.ny && (InGrid(g.nx, g.ny, i, j); g.indicators[0][j * g.nx + i] != 0)
  }

  /** The face bounds the domain: its cell is marked and the one across it is not. */
  predicate Bounds(g: Grid, f: Face)
    requires g.Valid()
  {
    && Marks(g, f.i, f.j)
    && match f.side
       case 0 => true
       case 1 => true
       case 2 => !Marks(g, f.i - 1, f.j)
       case 3 => !Marks(g, f.i + 1, f.j)
       case 4 => !Marks(g, f.i, f.j - 1)
       case 5 => !Marks(g, f.i, f.j + 1)
       case _ => false
  }

  /** Its patch is the entry of the cell in the array of the side. */
  function PatchOf(g: Grid, f: Face): int
    requires g.Valid() && f.i < g.nx && f.j < g.ny && f.side < 6
  {
    InGrid(g.nx, g.ny, f.i, f.j);
    g.indicators[f.side][f.j * g.nx + f.i]
  }

  /** Its four corners, counterclockwise as seen from outside. */
  function Quad(w: Frame, f: Face): (q: seq<Point>)
    ensures |q| == 4
  {
    var x0, x1 := w.sx + f.i as real * w.dx, w.sx + (f.i + 1) as real * w.dx;
    var y0, y1 := w.sy + f.j as real * w.dy, w.sy + (f.j + 1) as real * w.dy;
    var z0, z1 := w.sz, w.sz + w.dz;
    match f.side
    case 0 => [Point(x0, y0, z1), Point(x1, y0, z1), Point(x1, y1, z1), Point(x0, y1, z1)]
    case 1 => [Point(x0, y0, z0), Point(x0, y1, z0), Point(x1, y1, z0), Point(x1, y0, z0)]
    case 2 => [Point(x0, y0, z0), Point(x0, y0, z1), Point(x0, y1, z1), Point(x0, y1, z0)]
    case 3 => [Point(x1, y0, z0), Point(x1, y1, z0), Point(x1, y1, z1), Point(x1, y0, z1)]
    case 4 => [Point(x0, y0, z0), Point(x1, y0, z0), Point(x1, y0, z1), Point(x0, y0, z1)]
    case _ => [Point(x0, y1, z0), Point(x0, y1, z1), Point(x1, y1, z1), Point(x1, y1, z0)]
  }

  /** The same three corners in the same sense of rotation. */
  predicate SameTurn(a: Point, b: Point, c: Point, p: Point, q: Point, r: Point) {
    (a == p && b == q && c == r) || (b == p && c == q && a == r) || (c == p && a == q && b == r)
  }

  /** The triangles a, b, c and d, e, f cut the four corners along a diagonal. */
  predicate Cuts(a: Point, b: Point, c: Point, d: Point, e: Point, f: Point, q: seq<Point>)
    requires |q| == 4
  {
    || (SameTurn(a, b, c, q[0], q[1], q[2]) && SameTurn(d, e, f, q[0], q[2], q[3]))
    || (SameTurn(a, b, c, q[0], q[1], q[3]) && SameTurn(d, e, f, q[1], q[2], q[3]))
    || (SameTurn(d, e, f, q[0], q[1], q[2]) && SameTurn(a, b, c, q[0], q[2], q[3]))
    || (SameTurn(d, e, f, q[0], q[1], q[3]) && SameTurn(a, b, c, q[1], q[2], q[3]))
  }

  /** Two triangles, their corners placed by at, cut the face and have its patch. */
  predicate IsFace(g: Grid, w: Frame, at: nat -> Point, t: Triangle, u: Triangle, f: Face)
    requires g.Valid()
  {
    && Bounds(g, f) && t.patch == PatchOf(g, f) && u.patch == PatchOf(g, f)
    && Cuts(at(t.v0), at(t.v1), at(t.v2), at(u.v0), at(u.v1), at(u.v2), Quad(w, f))
  }

  /** The triangles are, two by two, the faces listed. */
  ghost predicate AreFaces(g: Grid, w: Frame, at: nat -> Point, ts: seq<Triangle>, fs: seq<Face>)
    requires g.Valid()
  {
    |ts| == 2 * |fs| && forall k :: 0 <= k < |fs| ==> IsFace(g, w, at, ts[2 * k], ts[2 * k + 1], fs[k])
  }

  lemma FacesConcat(g: Grid, w: Frame, at: nat -> Point, ts: seq<Triangle>, fs: seq<Face>, us: seq<Triangle>, hs: seq<Face>)
    requires g.Valid() && AreFaces(g, w, at, ts, fs) && AreFaces(g, w, at, us, hs)
    ensures AreFaces(g, w, at, ts + us, fs + hs)
  {
    hide IsFace;
    forall k | 0 <= k < |fs + hs| ensures IsFace(g, w, at, (ts + us)[2 * k], (ts + us)[2 * k + 1], (fs + hs)[k]) {
      if k >= |fs| {
        var m := k - |fs|;
        assert (ts + us)[2 * k] == us[2 * m] && (ts + us)[2 * k + 1] == us[2 * m + 1];
      }
    }
  }

  // ----- the faces in the order of the program -----

  function OneFace(f: Face, there: bool): seq<Face> {
    if there then [f] else []
  }

  function CellList(g: Grid, i: nat, j: nat): seq<Face>
    requires g.Valid() && i < g.nx && j < g.ny
  {
    if !g.Active(i, j) then []
    else
      [Face(i, j, 0)] + [Face(i, j, 1)] + OneFace(Face(i, j, 2), !g.Active(i - 1, j))
      + OneFace(Face(i, j, 3), !g.Active(i + 1, j)) + OneFace(Face(i, j, 4), !g.Active(i, j - 1))
      + OneFace(Face(i, j, 5), !g.Active(i, j + 1))
  }

  function RowList(g: Grid, j: nat, i: nat): seq<Face>
    requires g.Valid() && i <= g.nx && j < g.ny
  {
    if i == 0 then [] else RowList(g, j, i - 1) + CellList(g, i - 1, j)
  }

  function FaceList(g: Grid, j: nat): seq<Face>
    requires g.Valid() && j <= g.ny
  {
    if j == 0 then [] else FaceList(g, j - 1) + RowList(g, j - 1, g.nx)
  }

  lemma ActiveIffMarks(g: Grid, i: int, j: int)
    requires g.Valid()
    ensures g.Active(i, j) <==> Marks(g, i, j)
  {
  }

  /** The corners of a cell. */
  lemma CornersAt(g: Grid, w: Frame, at: nat -> Point, i: nat, j: nat, k: nat)
    requires i <= g.nx && j <= g.ny && k <= 1 && Placed(g, w, at)
    ensures at(g.VertexIndex(i, j, k))
         == Point(Along(w.sx, i, w.dx), Along(w.sy, j, w.dy), if k == 0 then w.sz else w.sz + w.dz)
  {
    assert at(g.VertexIndex(i, j, k)) == w.At(i, j, k);
    hide Placed, Grid.VertexIndex;
    FrameAlong(w, i, j, k);
  }

  lemma FrameAlong(w: Frame, i: nat, j: nat, k: nat)
    requires k <= 1
    ensures w.At(i, j, k) == Point(Along(w.sx, i, w.dx), Along(w.sy, j, w.dy), if k == 0 then w.sz else w.sz + w.dz)
  {
    assert Along(w.sx, i, w.dx) == w.sx + i as real * w.dx;
    assert Along(w.sy, j, w.dy) == w.sy + j as real * w.dy;
    if k == 0 {
      assert k as real * w.dz == 0.0;
    } else {
      assert k as real * w.dz == w.dz;
    }
  }

  lemma OneIsFace(g: Grid, w: Frame, at: nat -> Point, ts: seq<Triangle>, f: Face)
    requires g.Valid() && |ts| == 2 && IsFace(g, w, at, ts[0], ts[1], f)
    ensures AreFaces(g, w, at, ts, [f])
  {
    hide IsFace;
  }

  function Along(start: real, n: nat, step: real): real {
    start + n as real * step
  }

  /** The corners of a face, with coordinates as terms of their own. */
  lemma QuadAlong(w: Frame, f: Face)
    ensures var x0, x1 := Along(w.sx, f.i, w.dx), Along(w.sx, f.i + 1, w.dx);
            var y0, y1 := Along(w.sy, f.j, w.dy), Along(w.sy, f.j + 1, w.dy);
            var z0, z1 := w.sz, w.sz + w.dz;
            Quad(w, f) == match f.side
              case 0 => [Point(x0, y0, z1), Point(x1, y0, z1), Point(x1, y1, z1), Point(x0, y1, z1)]
              case 1 => [Point(x0, y0, z0), Point(x0, y1, z0), Point(x1, y1, z0), Point(x1, y0, z0)]
              case 2 => [Point(x0, y0, z0), Point(x0, y0, z1), Point(x0, y1, z1), Point(x0, y1, z0)]
              case 3 => [Point(x1, y0, z0), Point(x1, y1, z0), Point(x1, y1, z1), Point(x1, y0, z1)]
              case 4 => [Point(x0, y0, z0), Point(x1, y0, z0), Point(x1, y0, z1), Point(x0, y0, z1)]
              case _ => [Point(x0, y1, z0), Point(x0, y1, z1), Point(x1, y1, z1), Point(x1, y1, z0)]
  {
  }

  lemma TopQuad(g: Grid, w: Frame, at: nat -> Point, i: nat, j: nat)
    requires i < g.nx && j < g.ny && Placed(g, w, at)
    ensures Quad(w, Face(i, j, 0)) == [at(g.VertexIndex(i, j, 1)), at(g.VertexIndex(i + 1, j, 1)),
                                       at(g.VertexIndex(i + 1, j + 1, 1)), at(g.VertexIndex(i, j + 1, 1))]
  {
    hide Grid.VertexIndex, Placed, Along, Quad;
    CornersAt(g, w, at, i, j, 1);
    CornersAt(g, w, at, i + 1, j, 1);
    CornersAt(g, w, at, i + 1, j + 1, 1);
    CornersAt(g, w, at, i, j + 1, 1);
    QuadAlong(w, Face(i, j, 0));
  }

  lemma TopIsFace(g: Grid, w: Frame, at: nat -> Point, i: nat, j: nat)
    requires g.Valid() && Placed(g, w, at) && Bounds(g, Face(i, j, 0))
    ensures AreFaces(g, w, at, TopFace(g, i, j, PatchOf(g, Face(i, j, 0))), [Face(i, j, 0)])
  {
    TopQuad(g, w, at, i, j);
    MarksInside(g, Face(i, j, 0));
    hide Grid.VertexIndex, Placed, Bounds, PatchOf, Marks, Quad;
    var ts := TopFace(g, i, j, PatchOf(g, Face(i, j, 0)));
    assert IsFace(g, w, at, ts[0], ts[1], Face(i, j, 0));
    OneIsFace(g, w, at, ts, Face(i, j, 0));
  }

  lemma BottomQuad(g: Grid, w: Frame, at: nat -> Point, i: nat, j: nat)
    requires i < g.nx && j < g.ny && Placed(g, w, at)
    ensures Quad(w, Face(i, j, 1)) == [at(g.VertexIndex(i, j, 0)), at(g.VertexIndex(i, j + 1, 0)),
                                       at(g.VertexIndex(i + 1, j + 1, 0)), at(g.VertexIndex(i + 1, j, 0))]
  {
    hide Grid.VertexIndex, Placed, Along, Quad;
    CornersAt(g, w, at, i, j, 0);
    CornersAt(g, w, at, i, j + 1, 0);
    CornersAt(g, w, at, i + 1, j + 1, 0);
    CornersAt(g, w, at, i + 1, j, 0);
    QuadAlong(w, Face(i, j, 1));
  }

  lemma BottomIsFace(g: Grid, w: Frame, at: nat -> Point, i: nat, j: nat)
    requires g.Valid() && Placed(g, w, at) && Bounds(g, Face(i, j, 1))
    ensures AreFaces(g, w, at, BottomFace(g, i, j, PatchOf(g, Face(i, j, 1))), [Face(i, j, 1)])
  {
    BottomQuad(g, w, at, i, j);
    MarksInside(g, Face(i, j, 1));
    hide Grid.VertexIndex, Placed, Bounds, PatchOf, Marks, Quad;
    var ts := BottomFace(g, i, j, PatchOf(g, Face(i, j, 1)));
    assert IsFace(g, w, at, ts[0], ts[1], Face(i, j, 1));
    OneIsFace(g, w, at, ts, Face(i, j, 1));
  }

  lemma LeftQuad(g: Grid, w: Frame, at: nat -> Point, i: nat, j: nat)
    requires i < g.nx && j < g.ny && Placed(g, w, at)
    ensures Quad(w, Face(i, j, 2)) == [at(g.VertexIndex(i, j, 0)), at(g.VertexIndex(i, j, 1)),
                                       at(g.VertexIndex(i, j + 1, 1)), at(g.VertexIndex(i, j + 1, 0))]
  {
    hide Grid.VertexIndex, Placed, Along, Quad;
    CornersAt(g, w, at, i, j, 0);
    CornersAt(g, w, at, i, j, 1);
    CornersAt(g, w, at, i, j + 1, 1);
    CornersAt(g, w, at, i, j + 1, 0);
    QuadAlong(w, Face(i, j, 2));
  }

  lemma LeftIsFace(g: Grid, w: Frame, at: nat -> Point, i: nat, j: nat)
    requires g.Valid() && Placed(g, w, at) && Bounds(g, Face(i, j, 2))
    ensures AreFaces(g, w, at, LeftFace(g, i, j, PatchOf(g, Face(i, j, 2))), [Face(i, j, 2)])
  {
    LeftQuad(g, w, at, i, j);
    MarksInside(g, Face(i, j, 2));
    hide Grid.VertexIndex, Placed, Bounds, PatchOf, Marks, Quad;
    var ts := LeftFace(g, i, j, PatchOf(g, Face(i, j, 2)));
    assert IsFace(g, w, at, ts[0], ts[1], Face(i, j, 2));
    OneIsFace(g, w, at, ts, Face(i, j, 2));
  }

  lemma RightQuad(g: Grid, w: Frame, at: nat -> Point, i: nat, j: nat)
    requires i < g.nx && j < g.ny && Placed(g, w, at)
    ensures Quad(w, Face(i, j, 3)) == [at(g.VertexIndex(i + 1, j, 0)), at(g.VertexIndex(i + 1, j + 1, 0)),
                                       at(g.VertexIndex(i + 1, j + 1, 1)), at(g.VertexIndex(i + 1, j, 1))]
  {
    hide Grid.VertexIndex, Placed, Along, Quad;
    CornersAt(g, w, at, i + 1, j, 0);
    CornersAt(g, w, at, i + 1, j + 1, 0);
    CornersAt(g, w, at, i + 1, j + 1, 1);
    CornersAt(g, w, at, i + 1, j, 1);
    QuadAlong(w, Face(i, j, 3));
  }

  lemma RightIsFace(g: Grid, w: Frame, at: nat -> Point, i: nat, j: nat)
    requires g.Valid() && Placed(g, w, at) && Bounds(g, Face(i, j, 3))
    ensures AreFaces(g, w, at, RightFace(g, i, j, PatchOf(g, Face(i, j, 3))), [Face(i, j, 3)])
  {
    RightQuad(g, w, at, i, j);
    MarksInside(g, Face(i, j, 3));
    hide Grid.VertexIndex, Placed, Bounds, PatchOf, Marks, Quad;
    var ts := RightFace(g, i, j, PatchOf(g, Face(i, j, 3)));
    assert IsFace(g, w, at, ts[0], ts[1], Face(i, j, 3));
    OneIsFace(g, w, at, ts, Face(i, j, 3));
  }

  lemma FrontQuad(g: Grid, w: Frame, at: nat -> Point, i: nat, j: nat)
    requires i < g.nx && j < g.ny && Placed(g, w, at)
    ensures Quad(w, Face(i, j, 4)) == [at(g.VertexIndex(i, j, 0)), at(g.VertexIndex(i + 1, j, 0)),
                                       at(g.VertexIndex(i + 1, j, 1)), at(g.VertexIndex(i, j, 1))]
  {
    hide Grid.VertexIndex, Placed, Along, Quad;
    CornersAt(g, w, at, i, j, 0);
    CornersAt(g, w, at, i + 1, j, 0);
    CornersAt(g, w, at, i + 1, j, 1);
    CornersAt(g, w, at, i, j, 1);
    QuadAlong(w, Face(i, j, 4));
  }

  lemma FrontIsFace(g: Grid, w: Frame, at: nat -> Point, i: nat, j: nat)
    requires g.Valid() && Placed(g, w, at) && Bounds(g, Face(i, j, 4))
    ensures AreFaces(g, w, at, FrontFace(g, i, j, PatchOf(g, Face(i, j, 4))), [Face(i, j, 4)])
  {
    FrontQuad(g, w, at, i, j);
    MarksInside(g, Face(i, j, 4));
    hide Grid.VertexIndex, Placed, Bounds, PatchOf, Marks, Quad;
    var ts := FrontFace(g, i, j, PatchOf(g, Face(i, j, 4)));
    assert IsFace(g, w, at, ts[0], ts[1], Face(i, j, 4));
    OneIsFace(g, w, at, ts, Face(i, j, 4));
  }

  lemma BackQuad(g: Grid, w: Frame, at: nat -> Point, i: nat, j: nat)
    requires i < g.nx && j < g.ny && Placed(g, w, at)
    ensures Quad(w, Face(i, j, 5)) == [at(g.VertexIndex(i, j + 1, 0)), at(g.VertexIndex(i, j + 1, 1)),
                                       at(g.VertexIndex(i + 1, j + 1, 1)), at(g.VertexIndex(i + 1, j + 1, 0))]
  {
    hide Grid.VertexIndex, Placed, Along, Quad;
    CornersAt(g, w, at, i, j + 1, 0);
    CornersAt(g, w, at, i, j + 1, 1);
    CornersAt(g, w, at, i + 1, j + 1, 1);
    CornersAt(g, w, at, i + 1, j + 1, 0);
    QuadAlong(w, Face(i, j, 5));
  }

  lemma BackIsFace(g: Grid, w: Frame, at: nat -> Point, i: nat, j: nat)
    requires g.Valid() && Placed(g, w, at) && Bounds(g, Face(i, j, 5))
    ensures AreFaces(g, w, at, BackFace(g, i, j, PatchOf(g, Face(i, j, 5))), [Face(i, j, 5)])
  {
    BackQuad(g, w, at, i, j);
    MarksInside(g, Face(i, j, 5));
    hide Grid.VertexIndex, Placed, Bounds, PatchOf, Marks, Quad;
    var ts := BackFace(g, i, j, PatchOf(g, Face(i, j, 5)));
    assert IsFace(g, w, at, ts[0], ts[1], Face(i, j, 5));
    OneIsFace(g, w, at, ts, Face(i, j, 5));
  }

  lemma CellIsList(g: Grid, w: Frame, at: nat -> Point, i: nat, j: nat)
    requires g.Valid() && Placed(g, w, at) && i < g.nx && j < g.ny
    ensures AreFaces(g, w, at, CellFaces(g, i, j), CellList(g, i, j))
  {
    if g.Active(i, j) {
      CellBounds(g, i, j);
      TopIsFace(g, w, at, i, j);
      BottomIsFace(g, w, at, i, j);
      var l, r, f, b := !g.Active(i - 1, j), !g.Active(i + 1, j), !g.Active(i, j - 1), !g.Active(i, j + 1);
      var t2 := if l then LeftFace(g, i, j, g.Indicator(LEFT, i, j)) else [];
      var t3 := if r then RightFace(g, i, j, g.Indicator(RIGHT, i, j)) else [];
      var t4 := if f then FrontFace(g, i, j, g.Indicator(FRONT, i, j)) else [];
      var t5 := if b then BackFace(g, i, j, g.Indicator(BACK, i, j)) else [];
      NoFaces(g, w, at);
      if l { LeftIsFace(g, w, at, i, j); }
      if r { RightIsFace(g, w, at, i, j); }
      if f { FrontIsFace(g, w, at, i, j); }
      if b { BackIsFace(g, w, at, i, j); }
      var t0, t1 := TopFace(g, i, j, g.Indicator(TOP, i, j)), BottomFace(g, i, j, g.Indicator(BOTTOM, i, j));
      var h2, h3 := OneFace(Face(i, j, 2), l), OneFace(Face(i, j, 3), r);
      var h4, h5 := OneFace(Face(i, j, 4), f), OneFace(Face(i, j, 5), b);
      assert CellFaces(g, i, j) == t0 + t1 + t2 + t3 + t4 + t5;
      hide AreFaces, TopFace, BottomFace, LeftFace, RightFace, FrontFace, BackFace, PatchOf, Grid.Indicator, Bounds, CellFaces;
      FacesConcat(g, w, at, t0, [Face(i, j, 0)], t1, [Face(i, j, 1)]);
      FacesConcat(g, w, at, t0 + t1, [Face(i, j, 0)] + [Face(i, j, 1)], t2, h2);
      FacesConcat(g, w, at, t0 + t1 + t2, [Face(i, j, 0)] + [Face(i, j, 1)] + h2, t3, h3);
      FacesConcat(g, w, at, t0 + t1 + t2 + t3, [Face(i, j, 0)] + [Face(i, j, 1)] + h2 + h3, t4, h4);
      FacesConcat(g, w, at, t0 + t1 + t2 + t3 + t4, [Face(i, j, 0)] + [Face(i, j, 1)] + h2 + h3 + h4, t5, h5);
    } else {
      NoFaces(g, w, at);
    }
  }

  lemma NoFaces(g: Grid, w: Frame, at: nat -> Point)
    requires g.Valid()
    ensures AreFaces(g, w, at, [], [])
  {
  }

  lemma CellBounds(g: Grid, i: nat, j: nat)
    requires g.Valid() && i < g.nx && j < g.ny && g.Active(i, j)
    ensures Bounds(g, Face(i, j, 0)) && Bounds(g, Face(i, j, 1))
    ensures Bounds(g, Face(i, j, 2)) <==> !g.Active(i - 1, j)
    ensures Bounds(g, Face(i, j, 3)) <==> !g.Active(i + 1, j)
    ensures Bounds(g, Face(i, j, 4)) <==> !g.Active(i, j - 1)
    ensures Bounds(g, Face(i, j, 5)) <==> !g.Active(i, j + 1)
    ensures PatchOf(g, Face(i, j, 0)) == g.Indicator(TOP, i, j) && PatchOf(g, Face(i, j, 1)) == g.Indicator(BOTTOM, i, j)
    ensures PatchOf(g, Face(i, j, 2)) == g.Indicator(LEFT, i, j) && PatchOf(g, Face(i, j, 3)) == g.Indicator(RIGHT, i, j)
    ensures PatchOf(g, Face(i, j, 4)) == g.Indicator(FRONT, i, j) && PatchOf(g, Face(i, j, 5)) == g.Indicator(BACK, i, j)
  {
    ActiveIffMarks(g, i, j);
    ActiveIffMarks(g, i - 1, j);
    ActiveIffMarks(g, i + 1, j);
    ActiveIffMarks(g, i, j - 1);
    ActiveIffMarks(g, i, j + 1);
    hide Grid.Active, Marks;
  }

  lemma ListsNext(g: Grid, i: nat, j: nat)
    requires g.Valid() && i < g.nx && j < g.ny
    ensures RowFaces(g, j, i + 1) == RowFaces(g, j, i) + CellFaces(g, i, j)
    ensures RowList(g, j, i + 1) == RowList(g, j, i) + CellList(g, i, j)
  {
    hide CellFaces, CellList;
  }

  lemma ListsStart(g: Grid, j: nat)
    requires g.Valid()
    ensures Surface(g, 0) == [] && FaceList(g, 0) == []
    ensures j < g.ny ==> RowFaces(g, j, 0) == [] && RowList(g, j, 0) == []
  {
  }

  lemma RowsNext(g: Grid, j: nat)
    requires g.Valid() && j < g.ny
    ensures Surface(g, j + 1) == Surface(g, j) + RowFaces(g, j, g.nx)
    ensures FaceList(g, j + 1) == FaceList(g, j) + RowList(g, j, g.nx)
  {
    hide RowFaces, RowList;
  }

  lemma {:induction false} RowIsList(g: Grid, w: Frame, at: nat -> Point, j: nat, i: nat)
    requires g.Valid() && Placed(g, w, at) && i <= g.nx && j < g.ny
    ensures AreFaces(g, w, at, RowFaces(g, j, i), RowList(g, j, i))
  {
    hide *;
    if i == 0 {
      ListsStart(g, j);
      NoFaces(g, w, at);
    } else {
      RowIsList(g, w, at, j, i - 1);
      CellIsList(g, w, at, i - 1, j);
      ListsNext(g, i - 1, j);
      FacesConcat(g, w, at, RowFaces(g, j, i - 1), RowList(g, j, i - 1), CellFaces(g, i - 1, j), CellList(g, i - 1, j));
    }
  }

  lemma {:induction false} SurfaceIsList(g: Grid, w: Frame, at: nat -> Point, j: nat)
    requires g.Valid() && Placed(g, w, at) && j <= g.ny
    ensures AreFaces(g, w, at, Surface(g, j), FaceList(g, j))
  {
    hide *;
    if j == 0 {
      ListsStart(g, j);
      NoFaces(g, w, at);
    } else {
      SurfaceIsList(g, w, at, j - 1);
      RowIsList(g, w, at, j - 1, g.nx);
      RowsNext(g, j - 1);
      FacesConcat(g, w, at, Surface(g, j - 1), FaceList(g, j - 1), RowFaces(g, j - 1, g.nx), RowList(g, j - 1, g.nx));
    }
  }

  // ----- every face of the domain is listed once -----

  lemma MarksInside(g: Grid, f: Face)
    requires g.Valid()
    ensures Bounds(g, f) ==> f.i < g.nx && f.j < g.ny && f.side < 6
  {
  }

  /** The faces of cell (i, j), of the first i cells of row j, and of the first j rows. */
  function OfCell(g: Grid, i: nat, j: nat): Face -> bool
    requires g.Valid()
  {
    f => Bounds(g, f) && f.i == i && f.j == j
  }

  function OfRow(g: Grid, j: nat, i: nat): Face -> bool
    requires g.Valid()
  {
    f => Bounds(g, f) && f.j == j && f.i < i
  }

  function OfRows(g: Grid, j: nat): Face -> bool
    requires g.Valid()
  {
    f => Bounds(g, f) && f.j < j
  }

  lemma WantedNext(g: Grid, i: nat, j: nat, f: Face)
    requires g.Valid()
    ensures OfRow(g, j, i + 1)(f) <==> OfRow(g, j, i)(f) || OfCell(g, i, j)(f)
    ensures !(OfRow(g, j, i)(f) && OfCell(g, i, j)(f))
    ensures OfRows(g, j + 1)(f) <==> OfRows(g, j)(f) || OfRow(g, j, g.nx)(f)
    ensures !(OfRows(g, j)(f) && OfRow(g, j, g.nx)(f))
    ensures !OfRow(g, j, 0)(f) && !OfRows(g, 0)(f) && (OfRows(g, g.ny)(f) <==> Bounds(g, f))
  {
    MarksInside(g, f);
    hide Bounds;
  }

  lemma CellListed(g: Grid, i: nat, j: nat)
    requires g.Valid() && i < g.nx && j < g.ny
    ensures Lists(CellList(g, i, j), OfCell(g, i, j))
  {
    forall f ensures f in CellList(g, i, j) <==> OfCell(g, i, j)(f) {
      CellHas(g, i, j, f);
    }
    CellOnce(g, i, j);
    hide Bounds, CellList;
  }

  lemma CellOnce(g: Grid, i: nat, j: nat)
    requires g.Valid() && i < g.nx && j < g.ny
    ensures var fs := CellList(g, i, j); forall a, b :: 0 <= a < b < |fs| ==> fs[a] != fs[b]
  {
    if g.Active(i, j) {
      SidesOnce(i, j, !g.Active(i - 1, j), !g.Active(i + 1, j), !g.Active(i, j - 1), !g.Active(i, j + 1));
    }
  }

  lemma SidesOnce(i: nat, j: nat, l: bool, r: bool, f: bool, b: bool)
    ensures var fs := [Face(i, j, 0)] + [Face(i, j, 1)] + OneFace(Face(i, j, 2), l) + OneFace(Face(i, j, 3), r)
                      + OneFace(Face(i, j, 4), f) + OneFace(Face(i, j, 5), b);
            forall c, d :: 0 <= c < d < |fs| ==> fs[c].side < fs[d].side
  {
    var f2, f3, f4 := OneFace(Face(i, j, 2), l), OneFace(Face(i, j, 3), r), OneFace(Face(i, j, 4), f);
    var f5 := OneFace(Face(i, j, 5), b);
    SidesAscend([Face(i, j, 0)], [Face(i, j, 1)], 1);
    SidesAscend([Face(i, j, 0)] + [Face(i, j, 1)], f2, 2);
    SidesAscend([Face(i, j, 0)] + [Face(i, j, 1)] + f2, f3, 3);
    SidesAscend([Face(i, j, 0)] + [Face(i, j, 1)] + f2 + f3, f4, 4);
    SidesAscend([Face(i, j, 0)] + [Face(i, j, 1)] + f2 + f3 + f4, f5, 5);
  }

  lemma SidesAscend(fs: seq<Face>, hs: seq<Face>, k: nat)
    requires forall c :: 0 <= c < |fs| ==> fs[c].side < k
    requires forall c, d :: 0 <= c < d < |fs| ==> fs[c].side < fs[d].side
    requires |hs| <= 1 && forall c :: 0 <= c < |hs| ==> hs[c].side == k
    ensures forall c :: 0 <= c < |fs + hs| ==> (fs + hs)[c].side < k + 1
    ensures forall c, d :: 0 <= c < d < |fs + hs| ==> (fs + hs)[c].side < (fs + hs)[d].side
  {
  }

  lemma CellHas(g: Grid, i: nat, j: nat, f: Face)
    requires g.Valid() && i < g.nx && j < g.ny
    ensures f in CellList(g, i, j) <==> Bounds(g, f) && f.i == i && f.j == j
  {
    if g.Active(i, j) {
      CellBounds(g, i, j);
    }
    ActiveIffMarks(g, i, j);
    MarksInside(g, f);
    hide Marks, Grid.Active, PatchOf;
    if f.i == i && f.j == j {
      assert Bounds(g, f) ==> Marks(g, i, j);
    }
  }

  lemma {:induction false} RowListed(g: Grid, j: nat, i: nat)
    requires g.Valid() && i <= g.nx && j < g.ny
    ensures Lists(RowList(g, j, i), OfRow(g, j, i))
  {
    hide *;
    forall f ensures !OfRow(g, j, 0)(f) {
      WantedNext(g, 0, j, f);
    }
    if i == 0 {
      ListsStart(g, j);
      ListsNone(OfRow(g, j, 0));
    } else {
      RowListed(g, j, i - 1);
      CellListed(g, i - 1, j);
      ListsNext(g, i - 1, j);
      var v, w, both := OfRow(g, j, i - 1), OfCell(g, i - 1, j), OfRow(g, j, i);
      forall f ensures !(v(f) && w(f)) && (both(f) <==> v(f) || w(f)) {
        WantedNext(g, i - 1, j, f);
      }
      ListsJoin(RowList(g, j, i - 1), CellList(g, i - 1, j), v, w, both);
    }
  }

  lemma {:induction false} AllListed(g: Grid, j: nat)
    requires g.Valid() && j <= g.ny
    ensures Lists(FaceList(g, j), OfRows(g, j))
  {
    hide *;
    forall f ensures !OfRows(g, 0)(f) {
      WantedNext(g, 0, 0, f);
    }
    if j == 0 {
      ListsStart(g, j);
      ListsNone(OfRows(g, 0));
    } else {
      AllListed(g, j - 1);
      RowListed(g, j - 1, g.nx);
      RowsNext(g, j - 1);
      var v, w, both := OfRows(g, j - 1), OfRow(g, j - 1, g.nx), OfRows(g, j);
      forall f ensures !(v(f) && w(f)) && (both(f) <==> v(f) || w(f)) {
        WantedNext(g, 0, j - 1, f);
      }
      ListsJoin(FaceList(g, j - 1), RowList(g, j - 1, g.nx), v, w, both);
    }
  }

  /** The faces of the domain are listed, each once. */
  ghost predicate IsDomain(g: Grid, fs: seq<Face>)
    requires g.Valid()
  {
    (forall a, b :: 0 <= a < b < |fs| ==> fs[a] != fs[b]) && forall f :: f in fs <==> Bounds(g, f)
  }

  lemma DomainListed(g: Grid)
    requires g.Valid()
    ensures IsDomain(g, FaceList(g, g.ny))
  {
    AllListed(g, g.ny);
    hide FaceList, Bounds;
    forall f ensures f in FaceList(g, g.ny) <==> Bounds(g, f) {
      WantedNext(g, 0, 0, f);
    }
  }

  // ----- the mesh -----

  /** Moving the corners to the vertices kept does not move the faces. */
  lemma FacesKept(g: Grid, w: Frame, ns: seq<Point>, r: seq<Triangle>, at: nat -> Point, ts: seq<Triangle>, fs: seq<Face>)
    requires g.Valid() && AreFaces(g, w, at, ts, fs) && SameCorners(ns, r, at, ts)
    ensures AreFaces(g, w, At(ns), r, fs)
  {
    hide Cuts, Bounds, PatchOf, Quad;
    forall k | 0 <= k < |fs| ensures IsFace(g, w, At(ns), r[2 * k], r[2 * k + 1], fs[k]) {
      assert IsFace(g, w, at, ts[2 * k], ts[2 * k + 1], fs[k]);
    }
  }

  /** The mesh handed to the simplifier: closed, enclosing exactly the active cells,
      with the corners every triangle was emitted with, and with no vertex unused. */
  method BuildMesh(g: Grid, w: Frame) returns (ns: seq<Point>, r: seq<Triangle>, ghost fs: seq<Face>)
    requires g.Valid()
    ensures IsDomain(g, fs) && AreFaces(g, w, At(ns), r, fs)
    ensures Closed(r)
    ensures Sum(VolumeMeasure(At(ns)), r) == Scaled(ActiveCells(g, g.ny), 6.0 * CellVolume(w))
    ensures forall n: nat :: CornerOf(r, n) <==> n < |ns|
    ensures exists at: nat -> Point :: Placed(g, w, at) && SameCorners(ns, r, at, Surface(g, g.ny))
  {
    var vertices := PlaceVertices(g, w);
    ghost var before := vertices[..];
    var ts := EmitSurface(g, vertices);
    ghost var marked := vertices[..];
    ns := Compact(vertices);
    MarkedTriangles(marked, vertices[..], ts);
    r := Reindex(vertices, ts);
    fs := FaceList(g, g.ny);
    hide IsDomain, AreFaces, FaceList, Closed, Sum, VolumeMeasure, Placed, PlacedBefore, SameCorners, CornerOf, Marked, Compacted, Surface, Relabel;
    SurfaceClosed(g, NewIndex(vertices[..]));
    PlacedAll(g, w, before, vertices[..]);
    SurfaceVolume(g, w, Place(vertices[..]));
    CornersKept(vertices[..], ns, ts);
    SameVolume(ns, r, Place(vertices[..]), ts);
    DomainListed(g);
    SurfaceIsList(g, w, Place(vertices[..]), g.ny);
    FacesKept(g, w, ns, r, Place(vertices[..]), ts, fs);
  }
}
