/** The triangle surface that pfmask-to-pfsol emits for a 2-D mask, and what is
    true of it for every mask: it is closed and it encloses the active cells. */
module MaskSurface {
  import opened Reals
  import opened RowMajor

  const TOP := 0
  const BOTTOM := 1
  const LEFT := 2
  const RIGHT := 3
  const FRONT := 4
  const BACK := 5

  /** A grid of nx by ny cells, one layer deep, with six indicator arrays. */
  datatype Grid = Grid(nx: nat, ny: nat, indicators: seq<seq<int>>) {
    predicate Valid() {
      |indicators| == 6 && forall s :: 0 <= s < 6 ==> |indicators[s]| == ny * nx
    }

    /** The indicator of one side at cell (i, j). */
    function Indicator(side: nat, i: nat, j: nat): int
      requires Valid() && side < 6 && i < nx && j < ny
    {
      InGrid(nx, ny, i, j);
      indicators[side][j * nx + i]
    }

    /** The top indicator decides which cells belong to the domain. */
    predicate Active(i: int, j: int)
      requires Valid()
    {
      0 <= i < nx && 0 <= j < ny && Indicator(TOP, i, j) != 0
    }

    function VertexIndex(i: nat, j: nat, k: nat): (v: nat) {
      (nx + 1) * (ny + 1) * k + j * (nx + 1) + i
    }
  }

  datatype Triangle = Triangle(v0: nat, v1: nat, v2: nat, patch: int)

  // ----- the faces of one cell -----

  function TopFace(g: Grid, i: nat, j: nat, patch: int): seq<Triangle> {
    [Triangle(g.VertexIndex(i, j, 1), g.VertexIndex(i + 1, j, 1), g.VertexIndex(i + 1, j + 1, 1), patch),
     Triangle(g.VertexIndex(i, j, 1), g.VertexIndex(i + 1, j + 1, 1), g.VertexIndex(i, j + 1, 1), patch)]
  }

  function BottomFace(g: Grid, i: nat, j: nat, patch: int): seq<Triangle> {
    [Triangle(g.VertexIndex(i, j, 0), g.VertexIndex(i + 1, j + 1, 0), g.VertexIndex(i + 1, j, 0), patch),
     Triangle(g.VertexIndex(i, j, 0), g.VertexIndex(i, j + 1, 0), g.VertexIndex(i + 1, j + 1, 0), patch)]
  }

  function LeftFace(g: Grid, i: nat, j: nat, patch: int): seq<Triangle> {
    [Triangle(g.VertexIndex(i, j, 0), g.VertexIndex(i, j, 1), g.VertexIndex(i, j + 1, 0), patch),
     Triangle(g.VertexIndex(i, j, 1), g.VertexIndex(i, j + 1, 1), g.VertexIndex(i, j + 1, 0), patch)]
  }

  function RightFace(g: Grid, i: nat, j: nat, patch: int): seq<Triangle> {
    [Triangle(g.VertexIndex(i + 1, j + 1, 0), g.VertexIndex(i + 1, j, 1), g.VertexIndex(i + 1, j, 0), patch),
     Triangle(g.VertexIndex(i + 1, j, 1), g.VertexIndex(i + 1, j + 1, 0), g.VertexIndex(i + 1, j + 1, 1), patch)]
  }

  function FrontFace(g: Grid, i: nat, j: nat, patch: int): seq<Triangle> {
    [Triangle(g.VertexIndex(i, j, 0), g.VertexIndex(i + 1, j, 0), g.VertexIndex(i + 1, j, 1), patch),
     Triangle(g.VertexIndex(i, j, 0), g.VertexIndex(i + 1, j, 1), g.VertexIndex(i, j, 1), patch)]
  }

  function BackFace(g: Grid, i: nat, j: nat, patch: int): seq<Triangle> {
    [Triangle(g.VertexIndex(i + 1, j + 1, 1), g.VertexIndex(i + 1, j + 1, 0), g.VertexIndex(i, j + 1, 0), patch),
     Triangle(g.VertexIndex(i, j + 1, 1), g.VertexIndex(i + 1, j + 1, 1), g.VertexIndex(i, j + 1, 0), patch)]
  }

  /** The triangles emitted for cell (i, j): top and bottom always, a side only
      where the neighbour on that side is missing or inactive. */
  function CellFaces(g: Grid, i: nat, j: nat): seq<Triangle>
    requires g.Valid() && i < g.nx && j < g.ny
  {
    if !g.Active(i, j) then []
    else
      TopFace(g, i, j, g.Indicator(TOP, i, j))
      + BottomFace(g, i, j, g.Indicator(BOTTOM, i, j))
      + (if g.Active(i - 1, j) then [] else LeftFace(g, i, j, g.Indicator(LEFT, i, j)))
      + (if g.Active(i + 1, j) then [] else RightFace(g, i, j, g.Indicator(RIGHT, i, j)))
      + (if g.Active(i, j - 1) then [] else FrontFace(g, i, j, g.Indicator(FRONT, i, j)))
      + (if g.Active(i, j + 1) then [] else BackFace(g, i, j, g.Indicator(BACK, i, j)))
  }

  /** The triangles of the first i cells of row j. */
  function RowFaces(g: Grid, j: nat, i: nat): seq<Triangle>
    requires g.Valid() && i <= g.nx && j < g.ny
  {
    if i == 0 then [] else RowFaces(g, j, i - 1) + CellFaces(g, i - 1, j)
  }

  /** The triangles of the first j rows. */
  function Surface(g: Grid, j: nat): seq<Triangle>
    requires g.Valid() && j <= g.ny
  {
    if j == 0 then [] else Surface(g, j - 1) + RowFaces(g, j - 1, g.nx)
  }

  // ----- oriented sums over triangles -----

  /** A measure of an oriented triangle that does not depend on which corner comes
      first and changes sign with the orientation. */
  ghost predicate Oriented(f: (nat, nat, nat) -> real) {
    && (forall a, b, c :: f(b, c, a) == f(a, b, c))
    && (forall a, b, c :: f(c, b, a) == -f(a, b, c))
  }

  function Measure(f: (nat, nat, nat) -> real, t: Triangle): real {
    f(t.v0, t.v1, t.v2)
  }

  function Sum(f: (nat, nat, nat) -> real, ts: seq<Triangle>): real {
    if ts == [] then 0.0 else Sum(f, ts[..|ts| - 1]) + Measure(f, ts[|ts| - 1])
  }

  lemma {:induction false} SumConcat(f: (nat, nat, nat) -> real, s: seq<Triangle>, t: seq<Triangle>)
    ensures Sum(f, s + t) == Sum(f, s) + Sum(f, t)
  {
    if t == [] {
      assert s + t == s;
    } else {
      SumConcat(f, s, t[..|t| - 1]);
      assert (s + t)[..|s + t| - 1] == s + t[..|t| - 1];
    }
  }

  lemma SumPair(f: (nat, nat, nat) -> real, ts: seq<Triangle>)
    requires |ts| == 2
    ensures Sum(f, ts) == Measure(f, ts[0]) + Measure(f, ts[1])
  {
    assert ts[..1][..0] == [];
    assert Sum(f, ts[..1]) == Measure(f, ts[0]);
  }

  /** The wall at the low-x side of cell (i, j), facing down the x axis. */
  function XWall(g: Grid, f: (nat, nat, nat) -> real, i: nat, j: nat): real {
    Sum(f, LeftFace(g, i, j, 0))
  }

  /** The wall at the low-y side of cell (i, j), facing down the y axis. */
  function YWall(g: Grid, f: (nat, nat, nat) -> real, i: nat, j: nat): real {
    Sum(f, FrontFace(g, i, j, 0))
  }

  /** All six faces of a cell. */
  function Box(g: Grid, f: (nat, nat, nat) -> real, i: nat, j: nat): real {
    Sum(f, TopFace(g, i, j, 0)) + Sum(f, BottomFace(g, i, j, 0))
    + XWall(g, f, i, j) - XWall(g, f, i + 1, j) + YWall(g, f, i, j) - YWall(g, f, i, j + 1)
  }

  lemma PatchIrrelevant(f: (nat, nat, nat) -> real, s: seq<Triangle>, t: seq<Triangle>)
    requires |s| == |t| == 2
    requires forall k :: 0 <= k < 2 ==> s[k] == t[k].(patch := s[k].patch)
    ensures Sum(f, s) == Sum(f, t)
  {
    SumPair(f, s);
    SumPair(f, t);
    assert forall k :: 0 <= k < 2 ==> Measure(f, s[k]) == Measure(f, t[k]);
  }

  /** The right face of one cell is the left face of the next, turned over; likewise back and front. */
  lemma OppositeFaces(g: Grid, f: (nat, nat, nat) -> real, i: nat, j: nat, p: int)
    requires Oriented(f)
    ensures Sum(f, RightFace(g, i, j, p)) == -XWall(g, f, i + 1, j)
    ensures Sum(f, BackFace(g, i, j, p)) == -YWall(g, f, i, j + 1)
  {
    SumPair(f, RightFace(g, i, j, p));
    SumPair(f, LeftFace(g, i + 1, j, 0));
    SumPair(f, BackFace(g, i, j, p));
    SumPair(f, FrontFace(g, i, j + 1, 0));
    hide Sum;
    var a, b, c, d := g.VertexIndex(i + 1, j, 0), g.VertexIndex(i + 1, j, 1),
                      g.VertexIndex(i + 1, j + 1, 0), g.VertexIndex(i + 1, j + 1, 1);
    assert f(c, b, a) == -f(a, b, c);
    assert f(b, c, d) == -f(d, c, b) == -f(b, d, c);
    var p0, q0, p1, q1 := g.VertexIndex(i, j + 1, 0), g.VertexIndex(i + 1, j + 1, 0),
                          g.VertexIndex(i, j + 1, 1), g.VertexIndex(i + 1, j + 1, 1);
    assert f(q1, q0, p0) == -f(p0, q0, q1);
    assert f(p1, q1, p0) == -f(p0, q1, p1);
  }

  /** What is left out at the walls between two active cells. */
  function XInner(g: Grid, f: (nat, nat, nat) -> real, i: nat, j: nat): real
    requires g.Valid()
  {
    if g.Active(i, j) && g.Active(i - 1, j) then XWall(g, f, i, j) else 0.0
  }

  function YInner(g: Grid, f: (nat, nat, nat) -> real, i: nat, j: nat): real
    requires g.Valid()
  {
    if g.Active(i, j) && g.Active(i, j - 1) then YWall(g, f, i, j) else 0.0
  }

  function ActiveBox(g: Grid, f: (nat, nat, nat) -> real, i: nat, j: nat): real
    requires g.Valid()
  {
    if g.Active(i, j) then Box(g, f, i, j) else 0.0
  }

  lemma SumOfSix(f: (nat, nat, nat) -> real, a: seq<Triangle>, b: seq<Triangle>, c: seq<Triangle>,
                 d: seq<Triangle>, e: seq<Triangle>, h: seq<Triangle>)
    ensures Sum(f, a + b + c + d + e + h) == Sum(f, a) + Sum(f, b) + Sum(f, c) + Sum(f, d) + Sum(f, e) + Sum(f, h)
  {
    SumConcat(f, a, b);
    SumConcat(f, a + b, c);
    SumConcat(f, a + b + c, d);
    SumConcat(f, a + b + c + d, e);
    SumConcat(f, a + b + c + d + e, h);
  }

  lemma FaceSums(g: Grid, f: (nat, nat, nat) -> real, i: nat, j: nat, p: int)
    requires Oriented(f)
    ensures Sum(f, TopFace(g, i, j, p)) == Sum(f, TopFace(g, i, j, 0))
    ensures Sum(f, BottomFace(g, i, j, p)) == Sum(f, BottomFace(g, i, j, 0))
    ensures Sum(f, LeftFace(g, i, j, p)) == XWall(g, f, i, j)
    ensures Sum(f, FrontFace(g, i, j, p)) == YWall(g, f, i, j)
    ensures Sum(f, RightFace(g, i, j, p)) == -XWall(g, f, i + 1, j)
    ensures Sum(f, BackFace(g, i, j, p)) == -YWall(g, f, i, j + 1)
  {
    PatchIrrelevant(f, TopFace(g, i, j, p), TopFace(g, i, j, 0));
    PatchIrrelevant(f, BottomFace(g, i, j, p), BottomFace(g, i, j, 0));
    PatchIrrelevant(f, LeftFace(g, i, j, p), LeftFace(g, i, j, 0));
    PatchIrrelevant(f, FrontFace(g, i, j, p), FrontFace(g, i, j, 0));
    OppositeFaces(g, f, i, j, p);
  }

  /** A cell contributes its whole box, less what telescopes against its neighbours. */
  lemma CellSum(g: Grid, f: (nat, nat, nat) -> real, i: nat, j: nat)
    requires g.Valid() && i < g.nx && j < g.ny && Oriented(f)
    ensures Sum(f, CellFaces(g, i, j)) == ActiveBox(g, f, i, j)
      + (XInner(g, f, i + 1, j) - XInner(g, f, i, j)) + (YInner(g, f, i, j + 1) - YInner(g, f, i, j))
  {
    hide Sum, TopFace, BottomFace, LeftFace, RightFace, FrontFace, BackFace, Oriented, XWall, YWall;
    EmptySum(f);
    if g.Active(i, j) {
      FaceSums(g, f, i, j, g.Indicator(TOP, i, j));
      FaceSums(g, f, i, j, g.Indicator(BOTTOM, i, j));
      FaceSums(g, f, i, j, g.Indicator(LEFT, i, j));
      FaceSums(g, f, i, j, g.Indicator(RIGHT, i, j));
      FaceSums(g, f, i, j, g.Indicator(FRONT, i, j));
      FaceSums(g, f, i, j, g.Indicator(BACK, i, j));
      SumOfSix(f, TopFace(g, i, j, g.Indicator(TOP, i, j)), BottomFace(g, i, j, g.Indicator(BOTTOM, i, j)),
               if g.Active(i - 1, j) then [] else LeftFace(g, i, j, g.Indicator(LEFT, i, j)),
               if g.Active(i + 1, j) then [] else RightFace(g, i, j, g.Indicator(RIGHT, i, j)),
               if g.Active(i, j - 1) then [] else FrontFace(g, i, j, g.Indicator(FRONT, i, j)),
               if g.Active(i, j + 1) then [] else BackFace(g, i, j, g.Indicator(BACK, i, j)));
    }
  }

  lemma EmptySum(f: (nat, nat, nat) -> real)
    ensures Sum(f, []) == 0.0
  {
  }

  /** The boxes of the active cells among the first i of row j. */
  function RowBoxes(g: Grid, f: (nat, nat, nat) -> real, j: nat, i: nat): real
    requires g.Valid()
  {
    if i == 0 then 0.0 else RowBoxes(g, f, j, i - 1) + ActiveBox(g, f, i - 1, j)
  }

  function RowInner(g: Grid, f: (nat, nat, nat) -> real, j: nat, i: nat): real
    requires g.Valid()
  {
    if i == 0 then 0.0 else RowInner(g, f, j, i - 1) + YInner(g, f, i - 1, j)
  }

  function Boxes(g: Grid, f: (nat, nat, nat) -> real, j: nat): real
    requires g.Valid()
  {
    if j == 0 then 0.0 else Boxes(g, f, j - 1) + RowBoxes(g, f, j - 1, g.nx)
  }

  lemma {:induction false} RowSum(g: Grid, f: (nat, nat, nat) -> real, j: nat, i: nat)
    requires g.Valid() && i <= g.nx && j < g.ny && Oriented(f)
    ensures Sum(f, RowFaces(g, j, i)) == RowBoxes(g, f, j, i) + XInner(g, f, i, j)
      + RowInner(g, f, j + 1, i) - RowInner(g, f, j, i)
  {
    hide Oriented, CellFaces, ActiveBox, YInner;
    if i > 0 {
      RowSum(g, f, j, i - 1);
      SumConcat(f, RowFaces(g, j, i - 1), CellFaces(g, i - 1, j));
      CellSum(g, f, i - 1, j);
      hide XInner;
    }
  }

  lemma {:induction false} RowInnerVanishes(g: Grid, f: (nat, nat, nat) -> real, j: nat, i: nat)
    requires g.Valid() && (j == 0 || j == g.ny)
    ensures RowInner(g, f, j, i) == 0.0
  {
    if i > 0 {
      RowInnerVanishes(g, f, j, i - 1);
    }
  }

  lemma {:induction false} RowsSum(g: Grid, f: (nat, nat, nat) -> real, j: nat)
    requires g.Valid() && j <= g.ny && Oriented(f)
    ensures Sum(f, Surface(g, j)) == Boxes(g, f, j) + RowInner(g, f, j, g.nx)
  {
    hide Oriented, RowFaces, RowBoxes, RowInner, XWall;
    if j == 0 {
      RowInnerVanishes(g, f, 0, g.nx);
    } else {
      RowsSum(g, f, j - 1);
      SumConcat(f, Surface(g, j - 1), RowFaces(g, j - 1, g.nx));
      RowSum(g, f, j - 1, g.nx);
    }
  }

  /** Every oriented measure of the whole surface is that of the active boxes. */
  lemma SurfaceSum(g: Grid, f: (nat, nat, nat) -> real)
    requires g.Valid() && Oriented(f)
    ensures Sum(f, Surface(g, g.ny)) == Boxes(g, f, g.ny)
  {
    RowsSum(g, f, g.ny);
    RowInnerVanishes(g, f, g.ny, g.nx);
  }

  // ----- closedness -----

  function Indicates(b: bool): int {
    if b then 1 else 0
  }

  /** How often the directed edge from u to v occurs. */
  function EdgeCount(ts: seq<Triangle>, u: nat, v: nat): nat {
    if ts == [] then 0
    else
      var t := ts[|ts| - 1];
      EdgeCount(ts[..|ts| - 1], u, v) + Indicates(t.v0 == u && t.v1 == v) + Indicates(t.v1 == u && t.v2 == v)
      + Indicates(t.v2 == u && t.v0 == v)
  }

  /** Every directed edge occurs as often as its reverse. */
  ghost predicate Closed(ts: seq<Triangle>) {
    forall u: nat, v: nat :: EdgeCount(ts, u, v) == EdgeCount(ts, v, u)
  }

  /** +1 along the edge from u to v, -1 along its reverse. */
  function Along(u: nat, v: nat, a: nat, b: nat): int {
    Indicates(a == u && b == v) - Indicates(a == v && b == u)
  }

  function Circulation(u: nat, v: nat, a: nat, b: nat, c: nat): real {
    (Along(u, v, a, b) + Along(u, v, b, c) + Along(u, v, c, a)) as real
  }

  function EdgeMeasure(u: nat, v: nat, relabel: nat -> nat): (nat, nat, nat) -> real {
    (a: nat, b: nat, c: nat) => Circulation(u, v, relabel(a), relabel(b), relabel(c))
  }

  lemma EdgeMeasureOriented(u: nat, v: nat, relabel: nat -> nat)
    ensures Oriented(EdgeMeasure(u, v, relabel))
  {
    var f := EdgeMeasure(u, v, relabel);
    forall a: nat, b: nat, c: nat ensures f(b, c, a) == f(a, b, c) && f(c, b, a) == -f(a, b, c) {
      var x, y, z := relabel(a), relabel(b), relabel(c);
      hide Indicates;
      assert Circulation(u, v, y, z, x) == Circulation(u, v, x, y, z);
      assert Circulation(u, v, z, y, x) == -Circulation(u, v, x, y, z);
    }
  }

  /** A face of two triangles circulates around its four sides; the diagonal cancels. */
  function Side(u: nat, v: nat, a: nat, b: nat): real {
    Along(u, v, a, b) as real
  }

  lemma QuadSum(u: nat, v: nat, relabel: nat -> nat, ts: seq<Triangle>, a: nat, b: nat, c: nat, d: nat)
    requires |ts| == 2
    requires (ts[0].v0, ts[0].v1, ts[0].v2) == (a, b, c) || (ts[0].v1, ts[0].v2, ts[0].v0) == (a, b, c)
          || (ts[0].v2, ts[0].v0, ts[0].v1) == (a, b, c)
    requires (ts[1].v0, ts[1].v1, ts[1].v2) == (a, c, d) || (ts[1].v1, ts[1].v2, ts[1].v0) == (a, c, d)
          || (ts[1].v2, ts[1].v0, ts[1].v1) == (a, c, d)
    ensures Sum(EdgeMeasure(u, v, relabel), ts)
         == Side(u, v, relabel(a), relabel(b)) + Side(u, v, relabel(b), relabel(c))
            + Side(u, v, relabel(c), relabel(d)) + Side(u, v, relabel(d), relabel(a))
  {
    SumPair(EdgeMeasure(u, v, relabel), ts);
    SideTurns(u, v, relabel(a), relabel(c));
  }

  lemma SideTurns(u: nat, v: nat, a: nat, b: nat)
    ensures Side(u, v, a, b) == -Side(u, v, b, a)
  {
  }

  lemma BoxCirculation(g: Grid, u: nat, v: nat, relabel: nat -> nat, i: nat, j: nat)
    ensures Box(g, EdgeMeasure(u, v, relabel), i, j) == 0.0
  {
    var f := EdgeMeasure(u, v, relabel);
    var a, b, c, d := g.VertexIndex(i, j, 0), g.VertexIndex(i + 1, j, 0),
                      g.VertexIndex(i + 1, j + 1, 0), g.VertexIndex(i, j + 1, 0);
    var e, h, k, l := g.VertexIndex(i, j, 1), g.VertexIndex(i + 1, j, 1),
                      g.VertexIndex(i + 1, j + 1, 1), g.VertexIndex(i, j + 1, 1);
    QuadSum(u, v, relabel, TopFace(g, i, j, 0), e, h, k, l);
    QuadSum(u, v, relabel, BottomFace(g, i, j, 0), c, b, a, d);
    QuadSum(u, v, relabel, LeftFace(g, i, j, 0), d, a, e, l);
    QuadSum(u, v, relabel, LeftFace(g, i + 1, j, 0), c, b, h, k);
    QuadSum(u, v, relabel, FrontFace(g, i, j, 0), a, b, h, e);
    QuadSum(u, v, relabel, FrontFace(g, i, j + 1, 0), d, c, k, l);
    hide Side, Sum;
    BoxSides(u, v, relabel(a), relabel(b), relabel(c), relabel(d), relabel(e), relabel(h), relabel(k), relabel(l));
  }

  /** Around the six faces of a box every side is walked once each way. */
  lemma BoxSides(u: nat, v: nat, a: nat, b: nat, c: nat, d: nat, e: nat, h: nat, k: nat, l: nat)
    ensures Side(u, v, a, b) == -Side(u, v, b, a) && Side(u, v, b, c) == -Side(u, v, c, b)
    ensures Side(u, v, c, d) == -Side(u, v, d, c) && Side(u, v, d, a) == -Side(u, v, a, d)
    ensures Side(u, v, e, h) == -Side(u, v, h, e) && Side(u, v, h, k) == -Side(u, v, k, h)
    ensures Side(u, v, k, l) == -Side(u, v, l, k) && Side(u, v, l, e) == -Side(u, v, e, l)
    ensures Side(u, v, a, e) == -Side(u, v, e, a) && Side(u, v, b, h) == -Side(u, v, h, b)
    ensures Side(u, v, c, k) == -Side(u, v, k, c) && Side(u, v, d, l) == -Side(u, v, l, d)
  {
  }

  lemma LastMeasure(f: (nat, nat, nat) -> real, ts: seq<Triangle>)
    requires ts != []
    ensures Sum(f, ts) == Sum(f, ts[..|ts| - 1]) + Measure(f, ts[|ts| - 1])
  {
  }

  /** Rewrites the corners of every triangle. */
  function Relabel(ts: seq<Triangle>, relabel: nat -> nat): (r: seq<Triangle>)
    ensures |r| == |ts|
  {
    seq(|ts|, k requires 0 <= k < |ts| =>
      Triangle(relabel(ts[k].v0), relabel(ts[k].v1), relabel(ts[k].v2), ts[k].patch))
  }

  lemma {:induction false} CirculationCounts(ts: seq<Triangle>, u: nat, v: nat, relabel: nat -> nat)
    ensures Sum(EdgeMeasure(u, v, relabel), ts)
         == (EdgeCount(Relabel(ts, relabel), u, v) - EdgeCount(Relabel(ts, relabel), v, u)) as real
  {
    if ts != [] {
      var rest, t := ts[..|ts| - 1], ts[|ts| - 1];
      CirculationCounts(rest, u, v, relabel);
      var all, some := Relabel(ts, relabel), Relabel(rest, relabel);
      assert all[..|all| - 1] == some;
      hide Indicates, Sum;
      var a, b, c := relabel(t.v0), relabel(t.v1), relabel(t.v2);
      assert EdgeCount(all, u, v) == EdgeCount(some, u, v)
        + Indicates(a == u && b == v) + Indicates(b == u && c == v) + Indicates(c == u && a == v);
      assert EdgeCount(all, v, u) == EdgeCount(some, v, u)
        + Indicates(a == v && b == u) + Indicates(b == v && c == u) + Indicates(c == v && a == u);
      assert Circulation(u, v, a, b, c) == (Along(u, v, a, b) + Along(u, v, b, c) + Along(u, v, c, a)) as real;
      LastMeasure(EdgeMeasure(u, v, relabel), ts);
    }
  }

  lemma {:induction false} RowBoxesVanish(g: Grid, f: (nat, nat, nat) -> real, j: nat, i: nat)
    requires g.Valid() && forall i: nat, j: nat :: Box(g, f, i, j) == 0.0
    ensures RowBoxes(g, f, j, i) == 0.0
  {
    if i > 0 {
      RowBoxesVanish(g, f, j, i - 1);
    }
  }

  lemma {:induction false} BoxesVanish(g: Grid, f: (nat, nat, nat) -> real, j: nat)
    requires g.Valid() && forall i: nat, j: nat :: Box(g, f, i, j) == 0.0
    ensures Boxes(g, f, j) == 0.0
  {
    if j > 0 {
      BoxesVanish(g, f, j - 1);
      RowBoxesVanish(g, f, j - 1, g.nx);
    }
  }

  /** However its vertices are renumbered, nothing circulates around the surface of any mask. */
  lemma SurfaceCirculation(g: Grid, u: nat, v: nat, relabel: nat -> nat)
    requires g.Valid()
    ensures Sum(EdgeMeasure(u, v, relabel), Surface(g, g.ny)) == 0.0
  {
    var f := EdgeMeasure(u, v, relabel);
    EdgeMeasureOriented(u, v, relabel);
    forall i: nat, j: nat ensures Box(g, f, i, j) == 0.0 {
      BoxCirculation(g, u, v, relabel, i, j);
    }
    SurfaceSum(g, f);
    BoxesVanish(g, f, g.ny);
  }

  /** However its vertices are renumbered, the surface of any mask is closed and consistently oriented. */
  lemma SurfaceClosed(g: Grid, relabel: nat -> nat)
    requires g.Valid()
    ensures Closed(Relabel(Surface(g, g.ny), relabel))
  {
    var ts := Relabel(Surface(g, g.ny), relabel);
    forall u: nat, v: nat ensures EdgeCount(ts, u, v) == EdgeCount(ts, v, u) {
      SurfaceCirculation(g, u, v, relabel);
      CirculationCounts(Surface(g, g.ny), u, v, relabel);
    }
  }

  // ----- enclosed volume -----

  /** Six times the signed volume of the tetrahedron from the origin to a triangle. */
  function Det(p: Point, q: Point, r: Point): real {
    p.x * (q.y * r.z - q.z * r.y) - p.y * (q.x * r.z - q.z * r.x) + p.z * (q.x * r.y - q.y * r.x)
  }

  function VolumeMeasure(at: nat -> Point): (nat, nat, nat) -> real {
    (a: nat, b: nat, c: nat) => Det(at(a), at(b), at(c))
  }

  lemma DetTurns(p: Point, q: Point, r: Point)
    ensures Det(q, r, p) == Det(p, q, r) && Det(r, q, p) == -Det(p, q, r)
  {
  }

  lemma VolumeMeasureOriented(at: nat -> Point)
    ensures Oriented(VolumeMeasure(at))
  {
    forall a: nat, b: nat, c: nat
      ensures VolumeMeasure(at)(b, c, a) == VolumeMeasure(at)(a, b, c)
      ensures VolumeMeasure(at)(c, b, a) == -VolumeMeasure(at)(a, b, c)
    {
      hide Det;
      DetTurns(at(a), at(b), at(c));
    }
  }

  /** Twice the signed area of a plane triangle. */
  function Area(p: real, p': real, q: real, q': real, r: real, r': real): real {
    (q - p) * (r' - p') - (q' - p') * (r - p)
  }

  lemma DetInPlanes(p: real, p': real, q: real, q': real, r: real, r': real, c: real)
    ensures Det(Point(c, p, p'), Point(c, q, q'), Point(c, r, r')) == c * Area(p, p', q, q', r, r')
    ensures Det(Point(p, c, p'), Point(q, c, q'), Point(r, c, r')) == -c * Area(p, p', q, q', r, r')
    ensures Det(Point(p, p', c), Point(q, q', c), Point(r, r', c)) == c * Area(p, p', q, q', r, r')
  {
  }

  lemma HalfCells(p: real, p': real, d: real, d': real)
    ensures Area(p, p', p, p' + d', p + d, p') == -(d * d') == Area(p, p' + d', p + d, p' + d', p + d, p')
    ensures Area(p, p', p + d, p', p + d, p' + d') == d * d' == Area(p, p', p + d, p' + d', p, p' + d')
    ensures Area(p, p', p + d, p' + d', p + d, p') == -(d * d') == Area(p, p', p, p' + d', p + d, p' + d')
  {
  }

  /** The six faces of a box with one corner at (x, y, z). */
  lemma BoxVolume(x: real, y: real, z: real, dx: real, dy: real, dz: real)
    ensures Det(Point(x, y, z + dz), Point(x + dx, y, z + dz), Point(x + dx, y + dy, z + dz))
          + Det(Point(x, y, z + dz), Point(x + dx, y + dy, z + dz), Point(x, y + dy, z + dz))
          == 2.0 * ((z + dz) * (dx * dy))
    ensures Det(Point(x, y, z), Point(x + dx, y + dy, z), Point(x + dx, y, z))
          + Det(Point(x, y, z), Point(x, y + dy, z), Point(x + dx, y + dy, z)) == -2.0 * (z * (dx * dy))
    ensures Det(Point(x, y, z), Point(x, y, z + dz), Point(x, y + dy, z))
          + Det(Point(x, y, z + dz), Point(x, y + dy, z + dz), Point(x, y + dy, z)) == -2.0 * (x * (dy * dz))
    ensures Det(Point(x, y, z), Point(x + dx, y, z), Point(x + dx, y, z + dz))
          + Det(Point(x, y, z), Point(x + dx, y, z + dz), Point(x, y, z + dz)) == -2.0 * (y * (dx * dz))
  {
    HalfCells(x, y, dx, dy);
    HalfCells(y, z, dy, dz);
    HalfCells(x, z, dx, dz);
    DetInPlanes(x, y, x + dx, y, x + dx, y + dy, z + dz);
    DetInPlanes(x, y, x + dx, y + dy, x, y + dy, z + dz);
    DetInPlanes(x, y, x + dx, y + dy, x + dx, y, z);
    DetInPlanes(x, y, x, y + dy, x + dx, y + dy, z);
    DetInPlanes(y, z, y, z + dz, y + dy, z, x);
    DetInPlanes(y, z + dz, y + dy, z + dz, y + dy, z, x);
    DetInPlanes(x, z, x + dx, z, x + dx, z + dz, y);
    DetInPlanes(x, z, x + dx, z + dz, x, z + dz, y);
    hide Det, Area;
  }

  /** Where the vertices of a grid lie: spacing dx, dy, dz from a starting corner. */
  datatype Frame = Frame(sx: real, sy: real, sz: real, dx: real, dy: real, dz: real) {
    function At(i: nat, j: nat, k: nat): Point {
      Point(sx + i as real * dx, sy + j as real * dy, sz + k as real * dz)
    }

    lemma Neighbours(i: nat, j: nat)
      ensures At(i + 1, j, 0) == Point(At(i, j, 0).x + dx, At(i, j, 0).y, sz)
      ensures At(i, j + 1, 0) == Point(At(i, j, 0).x, At(i, j, 0).y + dy, sz)
      ensures At(i + 1, j + 1, 0) == Point(At(i, j, 0).x + dx, At(i, j, 0).y + dy, sz)
      ensures At(i, j, 1) == Point(At(i, j, 0).x, At(i, j, 0).y, sz + dz)
      ensures At(i + 1, j, 1) == Point(At(i, j, 0).x + dx, At(i, j, 0).y, sz + dz)
      ensures At(i, j + 1, 1) == Point(At(i, j, 0).x, At(i, j, 0).y + dy, sz + dz)
      ensures At(i + 1, j + 1, 1) == Point(At(i, j, 0).x + dx, At(i, j, 0).y + dy, sz + dz)
      ensures At(i, j, 0).z == sz
    {
      assert (i + 1) as real * dx == i as real * dx + dx;
      assert (j + 1) as real * dy == j as real * dy + dy;
    }
  }

  ghost predicate Placed(g: Grid, w: Frame, at: nat -> Point) {
    forall i: nat, j: nat, k: nat | i <= g.nx && j <= g.ny && k <= 1 :: at(g.VertexIndex(i, j, k)) == w.At(i, j, k)
  }

  lemma BoxMeasuresVolume(g: Grid, w: Frame, at: nat -> Point, i: nat, j: nat)
    requires i < g.nx && j < g.ny && Placed(g, w, at)
    ensures Box(g, VolumeMeasure(at), i, j) == 6.0 * CellVolume(w)
  {
    var f := VolumeMeasure(at);
    SumPair(f, TopFace(g, i, j, 0));
    SumPair(f, BottomFace(g, i, j, 0));
    SumPair(f, LeftFace(g, i, j, 0));
    SumPair(f, LeftFace(g, i + 1, j, 0));
    SumPair(f, FrontFace(g, i, j, 0));
    SumPair(f, FrontFace(g, i, j + 1, 0));
    w.Neighbours(i, j);
    var p := w.At(i, j, 0);
    BoxVolume(p.x, p.y, p.z, w.dx, w.dy, w.dz);
    BoxVolume(p.x + w.dx, p.y, p.z, w.dx, w.dy, w.dz);
    BoxVolume(p.x, p.y + w.dy, p.z, w.dx, w.dy, w.dz);
    hide Sum, Det;
  }

  function RowActive(g: Grid, j: nat, i: nat): nat
    requires g.Valid()
  {
    if i == 0 then 0 else RowActive(g, j, i - 1) + Indicates(g.Active(i - 1, j))
  }

  /** The number of active cells in the first j rows. */
  function ActiveCells(g: Grid, j: nat): nat
    requires g.Valid()
  {
    if j == 0 then 0 else ActiveCells(g, j - 1) + RowActive(g, j - 1, g.nx)
  }

  function Scaled(n: int, c: real): real {
    n as real * c
  }

  lemma ScaledSum(m: int, n: int, c: real)
    ensures Scaled(m + n, c) == Scaled(m, c) + Scaled(n, c) && Scaled(0, c) == 0.0 && Scaled(1, c) == c
  {
    assert (m + n) as real == m as real + n as real;
  }

  ghost predicate BoxesAre(g: Grid, f: (nat, nat, nat) -> real, c: real) {
    forall i: nat, j: nat | i < g.nx && j < g.ny :: Box(g, f, i, j) == c
  }

  lemma {:induction false} RowOfBoxes(g: Grid, f: (nat, nat, nat) -> real, c: real, j: nat, i: nat)
    requires g.Valid() && BoxesAre(g, f, c) && i <= g.nx && j < g.ny
    ensures RowBoxes(g, f, j, i) == Scaled(RowActive(g, j, i), c)
  {
    hide Scaled, Box;
    ScaledSum(0, 0, c);
    if i > 0 {
      RowOfBoxes(g, f, c, j, i - 1);
      ScaledSum(RowActive(g, j, i - 1), 1, c);
    }
  }

  lemma {:induction false} RowsOfBoxes(g: Grid, f: (nat, nat, nat) -> real, c: real, j: nat)
    requires g.Valid() && BoxesAre(g, f, c) && j <= g.ny
    ensures Boxes(g, f, j) == Scaled(ActiveCells(g, j), c)
  {
    hide Scaled, BoxesAre, RowBoxes, RowActive;
    ScaledSum(0, 0, c);
    if j > 0 {
      RowsOfBoxes(g, f, c, j - 1);
      RowOfBoxes(g, f, c, j - 1, g.nx);
      ScaledSum(ActiveCells(g, j - 1), RowActive(g, j - 1, g.nx), c);
    }
  }

  function CellVolume(w: Frame): real {
    w.dx * w.dy * w.dz
  }

  /** Six times the signed volume enclosed by the surface is six cell volumes for each active cell. */
  lemma SurfaceVolume(g: Grid, w: Frame, at: nat -> Point)
    requires g.Valid() && Placed(g, w, at)
    ensures Sum(VolumeMeasure(at), Surface(g, g.ny)) == Scaled(ActiveCells(g, g.ny), 6.0 * CellVolume(w))
  {
    hide Sum, Oriented, Placed, Box, CellVolume, Scaled;
    VolumeMeasureOriented(at);
    SurfaceSum(g, VolumeMeasure(at));
    forall i: nat, j: nat | i < g.nx && j < g.ny ensures Box(g, VolumeMeasure(at), i, j) == 6.0 * CellVolume(w) {
      BoxMeasuresVolume(g, w, at, i, j);
    }
    hide VolumeMeasure;
    RowsOfBoxes(g, VolumeMeasure(at), 6.0 * CellVolume(w), g.ny);
  }
}
