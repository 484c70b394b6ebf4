/** solidtools.c, MakePatchySolid: the triangles of the face table form a closed, consistently
    oriented surface, in whatever order the patches put them. */
module PatchClosed {
  import opened RowMajor
  import opened PatchTable
  import opened PatchSlots
  import opened PatchFill
  import opened PatchPoints
  import S = MaskSurface
  import M = MaskMesh

  // ----- faces by their corners -----

  /** A face by the corners of its two triangles. */
  datatype Outline = Outline(c0: Corner, c1: Corner, c2: Corner, c3: Corner, c4: Corner, c5: Corner)

  ghost predicate RowInRange(r: Row, n: nat) {
    && 0 <= r.p0 < n && 0 <= r.p1 < n && 0 <= r.p2 < n && 0 <= r.p3 < n && 0 <= r.p4 < n && 0 <= r.p5 < n
  }

  ghost predicate RowsInRange(rs: seq<Row>, n: nat) {
    forall t :: 0 <= t < |rs| ==> RowInRange(rs[t], n)
  }

  function OutlineOf(labels: seq<Corner>, r: Row): Outline
    requires RowInRange(r, |labels|)
  {
    Outline(labels[r.p0], labels[r.p1], labels[r.p2], labels[r.p3], labels[r.p4], labels[r.p5])
  }

  function Outlines(labels: seq<Corner>, rs: seq<Row>): (os: seq<Outline>)
    requires RowsInRange(rs, |labels|)
    ensures |os| == |rs|
  {
    seq(|rs|, t requires 0 <= t < |rs| => OutlineOf(labels, rs[t]))
  }

  /** More points leave the outlines as they are. */
  lemma OutlinesKept(labels: seq<Corner>, more: seq<Corner>, rs: seq<Row>)
    requires RowsInRange(rs, |labels|) && labels <= more
    ensures RowsInRange(rs, |more|) && Outlines(more, rs) == Outlines(labels, rs)
  {
  }

  /** The outline of the face of cell (i, j) that looks a given way. */
  function FaceOutline(i: nat, j: nat, dir: nat): Outline
    requires dir < 6
  {
    var b0, b1, b2, b3 := Corner(i, j, 0), Corner(i + 1, j, 0), Corner(i, j + 1, 0), Corner(i + 1, j + 1, 0);
    var t0, t1, t2, t3 := Corner(i, j, 1), Corner(i + 1, j, 1), Corner(i, j + 1, 1), Corner(i + 1, j + 1, 1);
    if dir == BOTTOM then Outline(b1, b0, b2, b2, b3, b1)
    else if dir == TOP then Outline(t2, t0, t1, t1, t3, t2)
    else if dir == WEST then Outline(t2, b2, b0, b0, t0, t2)
    else if dir == EAST then Outline(b1, b3, t3, t3, t1, b1)
    else if dir == SOUTH then Outline(t0, b0, b1, b1, t1, t0)
    else Outline(b3, b2, t2, t2, t3, b3)
  }

  function KeyOutlines(i: nat, j: nat, ks: seq<Key>): (os: seq<Outline>)
    requires AllFace(ks)
    ensures |os| == |ks|
  {
    seq(|ks|, t requires 0 <= t < |ks| => FaceOutline(i, j, ks[t].dir))
  }

  /** The outlines of the faces of a cell; of the first i cells of a row; of the first j rows. */
  function CellOutlines(m: Mask, i: nat, j: nat): seq<Outline>
    requires m.Valid() && i < m.nx && j < m.ny
  {
    CellDirs(m, i, j);
    KeyOutlines(i, j, CellKeys(m, i, j))
  }

  function RowOutlines(m: Mask, j: nat, i: nat): seq<Outline>
    requires m.Valid() && i <= m.nx && j < m.ny
  {
    if i == 0 then [] else RowOutlines(m, j, i - 1) + CellOutlines(m, i - 1, j)
  }

  function AllOutlines(m: Mask, j: nat): seq<Outline>
    requires m.Valid() && j <= m.ny
  {
    if j == 0 then [] else AllOutlines(m, j - 1) + RowOutlines(m, j - 1, m.nx)
  }

  /** The rows made from the points of a cell have the outlines of its faces. */
  lemma CellRowsOutline(labels: seq<Corner>, i: nat, j: nat, p: seq<int>, ks: seq<Key>)
    requires |p| == 8 && AllFace(ks)
    requires forall k :: 0 <= k < 8 ==> 0 <= p[k] < |labels| && labels[p[k]] == CellCorner(i, j, k)
    ensures RowsInRange(FaceRows(p, ks), |labels|)
    ensures Outlines(labels, FaceRows(p, ks)) == KeyOutlines(i, j, ks)
  {
    CellCorners(i, j);
    hide CellCorner;
  }

  lemma OutlinesConcat(labels: seq<Corner>, rs: seq<Row>, qs: seq<Row>)
    requires RowsInRange(rs, |labels|) && RowsInRange(qs, |labels|)
    ensures RowsInRange(rs + qs, |labels|)
    ensures Outlines(labels, rs + qs) == Outlines(labels, rs) + Outlines(labels, qs)
  {
  }

  // ----- sums over outlines -----

  type Measure = (nat, nat, nat) -> real

  function Vertex(g: S.Grid, c: Corner): nat {
    g.VertexIndex(c.i, c.j, c.level)
  }

  function OutlineSum(g: S.Grid, f: Measure, o: Outline): real {
    f(Vertex(g, o.c0), Vertex(g, o.c1), Vertex(g, o.c2)) + f(Vertex(g, o.c3), Vertex(g, o.c4), Vertex(g, o.c5))
  }

  function Total(g: S.Grid, f: Measure, os: seq<Outline>): real {
    if os == [] then 0.0 else Total(g, f, os[..|os| - 1]) + OutlineSum(g, f, os[|os| - 1])
  }

  lemma {:induction false} TotalConcat(g: S.Grid, f: Measure, os: seq<Outline>, qs: seq<Outline>)
    ensures Total(g, f, os + qs) == Total(g, f, os) + Total(g, f, qs)
  {
    hide OutlineSum;
    if qs == [] {
      assert os + qs == os;
    } else {
      var n := |qs| - 1;
      assert (os + qs)[..|os| + n] == os + qs[..n];
      TotalConcat(g, f, os, qs[..n]);
    }
  }

  lemma TotalOne(g: S.Grid, f: Measure, o: Outline)
    ensures Total(g, f, [o]) == OutlineSum(g, f, o)
  {
    assert [o][..0] == [];
  }

  /** The mask as a grid with the same active cells. */
  function GridOf(m: Mask): S.Grid
    requires m.Valid()
  {
    var on := seq(|m.cells|, c requires 0 <= c < |m.cells| => if m.cells[c] == 1 then 1 else 0);
    S.Grid(m.nx, m.ny, [on, on, on, on, on, on])
  }

  lemma GridActive(m: Mask, i: int, j: int)
    requires m.Valid()
    ensures GridOf(m).Valid() && (GridOf(m).Active(i, j) <==> m.Active(i, j))
  {
    var g := GridOf(m);
    if 0 <= i < m.nx && 0 <= j < m.ny {
      InGrid(m.nx, m.ny, i, j);
      assert g.indicators[0][j * m.nx + i] == if m.cells[j * m.nx + i] == 1 then 1 else 0;
    }
  }

  /** The two triangles of a face circulate around its four sides. */
  lemma OutlineCirculates(g: S.Grid, u: nat, v: nat, r: nat -> nat, o: Outline)
    requires o.c3 == o.c2 && o.c5 == o.c0
    ensures OutlineSum(g, S.EdgeMeasure(u, v, r), o)
      == S.Side(u, v, r(Vertex(g, o.c0)), r(Vertex(g, o.c1))) + S.Side(u, v, r(Vertex(g, o.c1)), r(Vertex(g, o.c2)))
         + S.Side(u, v, r(Vertex(g, o.c2)), r(Vertex(g, o.c4))) + S.Side(u, v, r(Vertex(g, o.c4)), r(Vertex(g, o.c0)))
  {
    S.SideTurns(u, v, r(Vertex(g, o.c0)), r(Vertex(g, o.c2)));
  }

  /** A face circulates like the face of the grid on the same side, whichever diagonal it has. */
  lemma LevelFacesCirculate(g: S.Grid, u: nat, v: nat, r: nat -> nat, i: nat, j: nat, patch: int)
    ensures var f := S.EdgeMeasure(u, v, r);
      && OutlineSum(g, f, FaceOutline(i, j, BOTTOM)) == S.Sum(f, S.BottomFace(g, i, j, patch))
      && OutlineSum(g, f, FaceOutline(i, j, TOP)) == S.Sum(f, S.TopFace(g, i, j, patch))
  {
    OutlineCirculates(g, u, v, r, FaceOutline(i, j, BOTTOM));
    OutlineCirculates(g, u, v, r, FaceOutline(i, j, TOP));
    S.QuadSum(u, v, r, S.BottomFace(g, i, j, patch), g.VertexIndex(i + 1, j + 1, 0), g.VertexIndex(i + 1, j, 0),
              g.VertexIndex(i, j, 0), g.VertexIndex(i, j + 1, 0));
    S.QuadSum(u, v, r, S.TopFace(g, i, j, patch), g.VertexIndex(i, j, 1), g.VertexIndex(i + 1, j, 1),
              g.VertexIndex(i + 1, j + 1, 1), g.VertexIndex(i, j + 1, 1));
    hide S.Side, S.Sum, OutlineSum, S.Grid.VertexIndex;
  }

  lemma XFacesCirculate(g: S.Grid, u: nat, v: nat, r: nat -> nat, i: nat, j: nat, patch: int)
    ensures var f := S.EdgeMeasure(u, v, r);
      && OutlineSum(g, f, FaceOutline(i, j, WEST)) == S.Sum(f, S.LeftFace(g, i, j, patch))
      && OutlineSum(g, f, FaceOutline(i, j, EAST)) == S.Sum(f, S.RightFace(g, i, j, patch))
  {
    OutlineCirculates(g, u, v, r, FaceOutline(i, j, WEST));
    OutlineCirculates(g, u, v, r, FaceOutline(i, j, EAST));
    S.QuadSum(u, v, r, S.LeftFace(g, i, j, patch), g.VertexIndex(i, j + 1, 0), g.VertexIndex(i, j, 0),
              g.VertexIndex(i, j, 1), g.VertexIndex(i, j + 1, 1));
    S.QuadSum(u, v, r, S.RightFace(g, i, j, patch), g.VertexIndex(i + 1, j, 1), g.VertexIndex(i + 1, j, 0),
              g.VertexIndex(i + 1, j + 1, 0), g.VertexIndex(i + 1, j + 1, 1));
    hide S.Side, S.Sum, OutlineSum, S.Grid.VertexIndex;
  }

  lemma YFacesCirculate(g: S.Grid, u: nat, v: nat, r: nat -> nat, i: nat, j: nat, patch: int)
    ensures var f := S.EdgeMeasure(u, v, r);
      && OutlineSum(g, f, FaceOutline(i, j, SOUTH)) == S.Sum(f, S.FrontFace(g, i, j, patch))
      && OutlineSum(g, f, FaceOutline(i, j, NORTH)) == S.Sum(f, S.BackFace(g, i, j, patch))
  {
    OutlineCirculates(g, u, v, r, FaceOutline(i, j, SOUTH));
    OutlineCirculates(g, u, v, r, FaceOutline(i, j, NORTH));
    S.QuadSum(u, v, r, S.FrontFace(g, i, j, patch), g.VertexIndex(i, j, 0), g.VertexIndex(i + 1, j, 0),
              g.VertexIndex(i + 1, j, 1), g.VertexIndex(i, j, 1));
    S.QuadSum(u, v, r, S.BackFace(g, i, j, patch), g.VertexIndex(i + 1, j + 1, 1), g.VertexIndex(i + 1, j + 1, 0),
              g.VertexIndex(i, j + 1, 0), g.VertexIndex(i, j + 1, 1));
    hide S.Side, S.Sum, OutlineSum, S.Grid.VertexIndex;
  }

  // ----- the sum over the whole mask -----

  lemma SideOutlines(m: Mask, i: int, j: int, dir: nat, a: nat, b: nat)
    requires m.Valid() && dir < 6
    ensures AllFace(SideKeys(m, i, j, dir))
    ensures KeyOutlines(a, b, SideKeys(m, i, j, dir)) == if m.Active(i, j) then [] else [FaceOutline(a, b, dir)]
  {
  }

  lemma KeyOutlinesConcat(i: nat, j: nat, ks: seq<Key>, ls: seq<Key>)
    requires AllFace(ks) && AllFace(ls)
    ensures AllFace(ks + ls) && KeyOutlines(i, j, ks + ls) == KeyOutlines(i, j, ks) + KeyOutlines(i, j, ls)
  {
    hide FaceOutline;
  }

  function IfNot(b: bool, x: real): real {
    if b then 0.0 else x
  }

  /** The faces of an active cell, side by side. */
  lemma CellTotal(m: Mask, g: S.Grid, f: Measure, i: nat, j: nat)
    requires m.Valid() && i < m.nx && j < m.ny && m.At(i, j) == 1
    ensures Total(g, f, CellOutlines(m, i, j))
      == OutlineSum(g, f, FaceOutline(i, j, BOTTOM)) + OutlineSum(g, f, FaceOutline(i, j, TOP))
         + IfNot(m.Active(i - 1, j), OutlineSum(g, f, FaceOutline(i, j, WEST)))
         + IfNot(m.Active(i + 1, j), OutlineSum(g, f, FaceOutline(i, j, EAST)))
         + IfNot(m.Active(i, j - 1), OutlineSum(g, f, FaceOutline(i, j, SOUTH)))
         + IfNot(m.Active(i, j + 1), OutlineSum(g, f, FaceOutline(i, j, NORTH)))
  {
    hide Total, OutlineSum, FaceOutline, KeyOutlines, CellOutlines, SideKeys, AllFace, IfNot, Mask.Active;
    var b, t := [Key(DefaultValue(BOTTOM), BOTTOM)], [Key(DefaultValue(TOP), TOP)];
    DefaultTotal(g, f, i, j, BOTTOM);
    DefaultTotal(g, f, i, j, TOP);
    SideTotal(m, g, f, i - 1, j, WEST, i, j);
    SideTotal(m, g, f, i + 1, j, EAST, i, j);
    SideTotal(m, g, f, i, j - 1, SOUTH, i, j);
    SideTotal(m, g, f, i, j + 1, NORTH, i, j);
    CellOutlinesNested(m, i, j);
    SixTotals(g, f, KeyOutlines(i, j, b), KeyOutlines(i, j, t), KeyOutlines(i, j, SideKeys(m, i - 1, j, WEST)),
              KeyOutlines(i, j, SideKeys(m, i + 1, j, EAST)), KeyOutlines(i, j, SideKeys(m, i, j - 1, SOUTH)),
              KeyOutlines(i, j, SideKeys(m, i, j + 1, NORTH)));
  }

  lemma SideTotal(m: Mask, g: S.Grid, f: Measure, i: int, j: int, dir: nat, a: nat, b: nat)
    requires m.Valid() && dir < 6
    ensures AllFace(SideKeys(m, i, j, dir))
    ensures Total(g, f, KeyOutlines(a, b, SideKeys(m, i, j, dir)))
      == IfNot(m.Active(i, j), OutlineSum(g, f, FaceOutline(a, b, dir)))
  {
    SideOutlines(m, i, j, dir, a, b);
    hide SideKeys, FaceOutline, OutlineSum, KeyOutlines, AllFace;
    OneOrNone(g, f, FaceOutline(a, b, dir));
  }

  lemma DefaultTotal(g: S.Grid, f: Measure, i: nat, j: nat, dir: nat)
    requires dir < 6
    ensures AllFace([Key(DefaultValue(dir), dir)])
    ensures Total(g, f, KeyOutlines(i, j, [Key(DefaultValue(dir), dir)])) == OutlineSum(g, f, FaceOutline(i, j, dir))
  {
    assert KeyOutlines(i, j, [Key(DefaultValue(dir), dir)]) == [FaceOutline(i, j, dir)];
    hide FaceOutline, OutlineSum;
    TotalOne(g, f, FaceOutline(i, j, dir));
  }

  lemma CellOutlinesNested(m: Mask, i: nat, j: nat)
    requires m.Valid() && i < m.nx && j < m.ny && m.At(i, j) == 1
    ensures AllFace([Key(DefaultValue(BOTTOM), BOTTOM)]) && AllFace([Key(DefaultValue(TOP), TOP)])
    ensures SidesAreFaces(m, i, j)
    ensures CellOutlines(m, i, j)
      == KeyOutlines(i, j, [Key(DefaultValue(BOTTOM), BOTTOM)]) + (KeyOutlines(i, j, [Key(DefaultValue(TOP), TOP)])
         + (KeyOutlines(i, j, SideKeys(m, i - 1, j, WEST)) + (KeyOutlines(i, j, SideKeys(m, i + 1, j, EAST))
            + (KeyOutlines(i, j, SideKeys(m, i, j - 1, SOUTH)) + KeyOutlines(i, j, SideKeys(m, i, j + 1, NORTH))))))
  {
    CellKeysNested(m, i, j);
    SidesFace(m, i, j);
    var b, t := [Key(DefaultValue(BOTTOM), BOTTOM)], [Key(DefaultValue(TOP), TOP)];
    var w, e := SideKeys(m, i - 1, j, WEST), SideKeys(m, i + 1, j, EAST);
    var s, n := SideKeys(m, i, j - 1, SOUTH), SideKeys(m, i, j + 1, NORTH);
    assert AllFace(b) && AllFace(t);
    hide SideKeys, KeyOutlines, CellKeys, AllFace;
    KeyOutlinesConcat(i, j, s, n);
    KeyOutlinesConcat(i, j, e, s + n);
    KeyOutlinesConcat(i, j, w, e + (s + n));
    KeyOutlinesConcat(i, j, t, w + (e + (s + n)));
    KeyOutlinesConcat(i, j, b, t + (w + (e + (s + n))));
  }

  lemma OneOrNone(g: S.Grid, f: Measure, o: Outline)
    ensures Total(g, f, [o]) == OutlineSum(g, f, o) && Total(g, f, []) == 0.0
  {
    TotalOne(g, f, o);
  }

  lemma SixTotals(g: S.Grid, f: Measure, a: seq<Outline>, b: seq<Outline>, c: seq<Outline>, d: seq<Outline>,
                  e: seq<Outline>, h: seq<Outline>)
    ensures Total(g, f, a + (b + (c + (d + (e + h)))))
      == Total(g, f, a) + Total(g, f, b) + Total(g, f, c) + Total(g, f, d) + Total(g, f, e) + Total(g, f, h)
  {
    hide Total;
    TotalConcat(g, f, e, h);
    TotalConcat(g, f, d, e + h);
    TotalConcat(g, f, c, d + (e + h));
    TotalConcat(g, f, b, c + (d + (e + h)));
    TotalConcat(g, f, a, b + (c + (d + (e + h))));
  }

  /** A cell's faces circulate like the faces of the grid's cell. */
  lemma CellCirculates(m: Mask, u: nat, v: nat, r: nat -> nat, i: nat, j: nat)
    requires m.Valid() && i < m.nx && j < m.ny
    ensures GridOf(m).Valid()
    ensures Total(GridOf(m), S.EdgeMeasure(u, v, r), CellOutlines(m, i, j))
      == S.Sum(S.EdgeMeasure(u, v, r), S.CellFaces(GridOf(m), i, j))
  {
    var g, f := GridOf(m), S.EdgeMeasure(u, v, r);
    GridActive(m, i, j);
    GridActive(m, i - 1, j);
    GridActive(m, i + 1, j);
    GridActive(m, i, j - 1);
    GridActive(m, i, j + 1);
    if m.Active(i, j) {
      CellTotal(m, g, f, i, j);
      GridCellSum(g, u, v, r, i, j);
    } else {
      EmptyTotal(m, g, f, i, j);
    }
    hide GridOf, Mask.Active, S.Grid.Active, OutlineSum, FaceOutline, Total, S.Sum, S.CellFaces, CellOutlines;
  }

  lemma EmptyTotal(m: Mask, g: S.Grid, f: Measure, i: nat, j: nat)
    requires m.Valid() && g.Valid() && i < m.nx && j < m.ny && g.nx == m.nx && g.ny == m.ny
    requires !m.Active(i, j) && !g.Active(i, j)
    ensures Total(g, f, CellOutlines(m, i, j)) == S.Sum(f, S.CellFaces(g, i, j)) == 0.0
  {
    assert CellKeys(m, i, j) == [];
    assert CellOutlines(m, i, j) == [];
    assert S.CellFaces(g, i, j) == [];
  }

  lemma GridCellSum(g: S.Grid, u: nat, v: nat, r: nat -> nat, i: nat, j: nat)
    requires g.Valid() && i < g.nx && j < g.ny && g.Active(i, j)
    ensures var f := S.EdgeMeasure(u, v, r);
      S.Sum(f, S.CellFaces(g, i, j))
      == OutlineSum(g, f, FaceOutline(i, j, BOTTOM)) + OutlineSum(g, f, FaceOutline(i, j, TOP))
         + IfNot(g.Active(i - 1, j), OutlineSum(g, f, FaceOutline(i, j, WEST)))
         + IfNot(g.Active(i + 1, j), OutlineSum(g, f, FaceOutline(i, j, EAST)))
         + IfNot(g.Active(i, j - 1), OutlineSum(g, f, FaceOutline(i, j, SOUTH)))
         + IfNot(g.Active(i, j + 1), OutlineSum(g, f, FaceOutline(i, j, NORTH)))
  {
    var f := S.EdgeMeasure(u, v, r);
    LevelFacesCirculate(g, u, v, r, i, j, g.Indicator(S.TOP, i, j));
    LevelFacesCirculate(g, u, v, r, i, j, g.Indicator(S.BOTTOM, i, j));
    XFacesCirculate(g, u, v, r, i, j, g.Indicator(S.LEFT, i, j));
    XFacesCirculate(g, u, v, r, i, j, g.Indicator(S.RIGHT, i, j));
    YFacesCirculate(g, u, v, r, i, j, g.Indicator(S.FRONT, i, j));
    YFacesCirculate(g, u, v, r, i, j, g.Indicator(S.BACK, i, j));
    S.EmptySum(f);
    hide S.Sum, S.TopFace, S.BottomFace, S.LeftFace, S.RightFace, S.FrontFace, S.BackFace, OutlineSum, FaceOutline,
         S.Grid.Active, S.Grid.Indicator;
    S.SumOfSix(f, S.TopFace(g, i, j, g.Indicator(S.TOP, i, j)), S.BottomFace(g, i, j, g.Indicator(S.BOTTOM, i, j)),
               if g.Active(i - 1, j) then [] else S.LeftFace(g, i, j, g.Indicator(S.LEFT, i, j)),
               if g.Active(i + 1, j) then [] else S.RightFace(g, i, j, g.Indicator(S.RIGHT, i, j)),
               if g.Active(i, j - 1) then [] else S.FrontFace(g, i, j, g.Indicator(S.FRONT, i, j)),
               if g.Active(i, j + 1) then [] else S.BackFace(g, i, j, g.Indicator(S.BACK, i, j)));
  }

  lemma RowFrom(m: Mask, g: S.Grid, j: nat, i: nat)
    requires m.Valid() && i <= m.nx && j < m.ny && g.Valid() && g.nx == m.nx && g.ny == m.ny
    ensures i == 0 ==> RowOutlines(m, j, i) == [] && S.RowFaces(g, j, i) == []
    ensures i > 0 ==> RowOutlines(m, j, i) == RowOutlines(m, j, i - 1) + CellOutlines(m, i - 1, j)
                      && S.RowFaces(g, j, i) == S.RowFaces(g, j, i - 1) + S.CellFaces(g, i - 1, j)
  {
    hide CellOutlines, S.CellFaces;
  }

  lemma {:induction false} RowCirculates(m: Mask, g: S.Grid, u: nat, v: nat, r: nat -> nat, j: nat, i: nat)
    requires m.Valid() && i <= m.nx && j < m.ny && g == GridOf(m) && g.Valid() && g.nx == m.nx && g.ny == m.ny
    ensures Total(g, S.EdgeMeasure(u, v, r), RowOutlines(m, j, i)) == S.Sum(S.EdgeMeasure(u, v, r), S.RowFaces(g, j, i))
  {
    hide *;
    var f := S.EdgeMeasure(u, v, r);
    RowFrom(m, g, j, i);
    if i == 0 {
      S.EmptySum(f);
      NoTotal(g, f);
    } else {
      RowCirculates(m, g, u, v, r, j, i - 1);
      CellCirculates(m, u, v, r, i - 1, j);
      TotalConcat(g, f, RowOutlines(m, j, i - 1), CellOutlines(m, i - 1, j));
      S.SumConcat(f, S.RowFaces(g, j, i - 1), S.CellFaces(g, i - 1, j));
    }
  }

  lemma NoTotal(g: S.Grid, f: Measure)
    ensures Total(g, f, []) == 0.0
  {
  }

  lemma RowsFrom(m: Mask, g: S.Grid, j: nat)
    requires m.Valid() && j <= m.ny && g.Valid() && g.nx == m.nx && g.ny == m.ny
    ensures j == 0 ==> AllOutlines(m, j) == [] && S.Surface(g, j) == []
    ensures j > 0 ==> AllOutlines(m, j) == AllOutlines(m, j - 1) + RowOutlines(m, j - 1, m.nx)
                      && S.Surface(g, j) == S.Surface(g, j - 1) + S.RowFaces(g, j - 1, g.nx)
  {
    hide RowOutlines, S.RowFaces;
  }

  lemma {:induction false} RowsCirculate(m: Mask, g: S.Grid, u: nat, v: nat, r: nat -> nat, j: nat)
    requires m.Valid() && j <= m.ny && g == GridOf(m) && g.Valid() && g.nx == m.nx && g.ny == m.ny
    ensures Total(g, S.EdgeMeasure(u, v, r), AllOutlines(m, j)) == S.Sum(S.EdgeMeasure(u, v, r), S.Surface(g, j))
  {
    hide *;
    var f := S.EdgeMeasure(u, v, r);
    RowsFrom(m, g, j);
    if j == 0 {
      S.EmptySum(f);
      NoTotal(g, f);
    } else {
      RowsCirculate(m, g, u, v, r, j - 1);
      RowCirculates(m, g, u, v, r, j - 1, m.nx);
      TotalConcat(g, f, AllOutlines(m, j - 1), RowOutlines(m, j - 1, m.nx));
      S.SumConcat(f, S.Surface(g, j - 1), S.RowFaces(g, j - 1, m.nx));
    }
  }

  /** Nothing circulates around the faces of a mask. */
  lemma NothingCirculates(m: Mask, u: nat, v: nat, r: nat -> nat)
    requires m.Valid()
    ensures Total(GridOf(m), S.EdgeMeasure(u, v, r), AllOutlines(m, m.ny)) == 0.0
  {
    GridActive(m, 0, 0);
    var g := GridOf(m);
    assert g.nx == m.nx && g.ny == m.ny;
    hide *;
    RowsCirculate(m, g, u, v, r, m.ny);
    S.SurfaceCirculation(g, u, v, r);
  }
}
