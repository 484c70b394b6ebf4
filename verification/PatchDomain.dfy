/** solidtools.c: MakePatchySolid as a whole, and where the faces it makes lie. */
module PatchDomain {
  import opened Reals
  import opened RowMajor
  import opened Sequences
  import opened PatchTable
  import opened PatchSlots
  import opened PatchFill
  import opened PatchPoints
  import opened PatchClosed
  import opened PatchSolid
  import S = MaskSurface
  import D = MaskDomain

  // ----- the faces of the solid -----

  predicate IsActive(m: Mask, i: int, j: int)
    requires m.Valid()
  {
    0 <= i < m.nx && 0 <= j < m.ny && (InGrid(m.nx, m.ny, i, j); m.cells[j * m.nx + i] == 1)
  }

  /** The face of cell (i, j) that looks down (0), up (1), to the west (2), east (3), south (4) or
      north (5) is one of the solid's: its cell is active and the one across it is not. */
  predicate Exposed(m: Mask, f: D.Face)
    requires m.Valid()
  {
    && IsActive(m, f.i, f.j)
    && match f.side
       case 0 => true
       case 1 => true
       case 2 => !IsActive(m, f.i - 1, f.j)
       case 3 => !IsActive(m, f.i + 1, f.j)
       case 4 => !IsActive(m, f.i, f.j - 1)
       case 5 => !IsActive(m, f.i, f.j + 1)
       case _ => false
  }

  /** The value of its patch: the mark of the cell across it; without one, that of the side. */
  function ValueOf(m: Mask, f: D.Face): int
    requires m.Valid() && f.i < m.nx && f.j < m.ny
  {
    InGrid(m.nx, m.ny, f.i, f.j);
    match f.side
    case 0 => -1
    case 1 => -2
    case 2 => if f.i == 0 then -3 else m.cells[f.j * m.nx + f.i - 1]
    case 3 => if f.i + 1 == m.nx then -4 else (InGrid(m.nx, m.ny, f.i + 1, f.j); m.cells[f.j * m.nx + f.i + 1])
    case 4 => if f.j == 0 then -5 else (InGrid(m.nx, m.ny, f.i, f.j - 1); m.cells[(f.j - 1) * m.nx + f.i])
    case _ => if f.j + 1 == m.ny then -6 else (InGrid(m.nx, m.ny, f.i, f.j + 1); m.cells[(f.j + 1) * m.nx + f.i])
  }

  /** Its four corners, counterclockwise as seen from outside; z is 0 at the bottom and 1 at the top. */
  function Quad(g: Geometry, f: D.Face): (q: seq<Point>)
    ensures |q| == 4
  {
    QuadOf(g.x + f.i as real * g.dx, g.x + (f.i + 1) as real * g.dx,
           g.y + f.j as real * g.dy, g.y + (f.j + 1) as real * g.dy, f.side)
  }

  function QuadOf(x0: real, x1: real, y0: real, y1: real, side: nat): (q: seq<Point>)
    ensures |q| == 4
  {
    match side
    case 0 => [Point(x0, y0, 0.0), Point(x0, y1, 0.0), Point(x1, y1, 0.0), Point(x1, y0, 0.0)]
    case 1 => [Point(x0, y0, 1.0), Point(x1, y0, 1.0), Point(x1, y1, 1.0), Point(x0, y1, 1.0)]
    case 2 => [Point(x0, y0, 0.0), Point(x0, y0, 1.0), Point(x0, y1, 1.0), Point(x0, y1, 0.0)]
    case 3 => [Point(x1, y0, 0.0), Point(x1, y1, 0.0), Point(x1, y1, 1.0), Point(x1, y0, 1.0)]
    case 4 => [Point(x0, y0, 0.0), Point(x1, y0, 0.0), Point(x1, y0, 1.0), Point(x0, y0, 1.0)]
    case _ => [Point(x0, y1, 0.0), Point(x0, y1, 1.0), Point(x1, y1, 1.0), Point(x1, y1, 0.0)]
  }

  /** A point in the plan, at the level it was made for. */
  function PointAt(points: seq<(real, real)>, labels: seq<Corner>, p: int): Point
    requires 0 <= p < |labels| == |points|
  {
    Point(points[p].0, points[p].1, labels[p].level as real)
  }

  /** A row of the table is a face: it has its direction and its patch, and its two triangles cut it. */
  ghost predicate IsRow(m: Mask, g: Geometry, points: seq<(real, real)>, labels: seq<Corner>, r: Row, f: D.Face)
    requires m.Valid()
  {
    && Exposed(m, f) && r.dir == f.side && r.value == ValueOf(m, f)
    && |points| == |labels| && RowInRange(r, |labels|)
    && D.Cuts(PointAt(points, labels, r.p0), PointAt(points, labels, r.p1), PointAt(points, labels, r.p2),
              PointAt(points, labels, r.p3), PointAt(points, labels, r.p4), PointAt(points, labels, r.p5), Quad(g, f))
  }

  /** The rows are the faces of the solid, each once. */
  ghost predicate AreFaces(m: Mask, g: Geometry, points: seq<(real, real)>, labels: seq<Corner>, rs: seq<Row>, fs: seq<D.Face>)
    requires m.Valid()
  {
    && |rs| == |fs| && Lists(fs, f => Exposed(m, f))
    && forall k :: 0 <= k < |rs| ==> IsRow(m, g, points, labels, rs[k], fs[k])
  }

  // ----- the faces in the order of the program -----

  function PlacesOf(i: nat, j: nat, ks: seq<Key>): (fs: seq<D.Face>)
    ensures |fs| == |ks|
  {
    seq(|ks|, t requires 0 <= t < |ks| => D.Face(i, j, ks[t].dir))
  }

  function CellPlaces(m: Mask, i: nat, j: nat): seq<D.Face>
    requires m.Valid() && i < m.nx && j < m.ny
  {
    PlacesOf(i, j, CellKeys(m, i, j))
  }

  function RowPlaces(m: Mask, j: nat, i: nat): seq<D.Face>
    requires m.Valid() && i <= m.nx && j < m.ny
  {
    if i == 0 then [] else RowPlaces(m, j, i - 1) + CellPlaces(m, i - 1, j)
  }

  function AllPlaces(m: Mask, j: nat): seq<D.Face>
    requires m.Valid() && j <= m.ny
  {
    if j == 0 then [] else AllPlaces(m, j - 1) + RowPlaces(m, j - 1, m.nx)
  }

  /** A face with its key and the outline of its triangles. */
  ghost predicate Matches(m: Mask, k: Key, o: Outline, f: D.Face)
    requires m.Valid()
  {
    Exposed(m, f) && f.side < 6 && k == Key(ValueOf(m, f), f.side) && o == FaceOutline(f.i, f.j, f.side)
  }

  ghost predicate AllMatch(m: Mask, ks: seq<Key>, os: seq<Outline>, fs: seq<D.Face>)
    requires m.Valid()
  {
    |ks| == |os| == |fs| && forall t :: 0 <= t < |ks| ==> Matches(m, ks[t], os[t], fs[t])
  }

  lemma MatchConcat(m: Mask, ks: seq<Key>, os: seq<Outline>, fs: seq<D.Face>, ks': seq<Key>, os': seq<Outline>, fs': seq<D.Face>)
    requires m.Valid() && AllMatch(m, ks, os, fs) && AllMatch(m, ks', os', fs')
    ensures AllMatch(m, ks + ks', os + os', fs + fs')
  {
    hide Matches;
  }

  /** The keys of a cell are those of its exposed faces. */
  lemma CellKeyIs(m: Mask, i: nat, j: nat, k: Key)
    requires m.Valid() && i < m.nx && j < m.ny
    ensures k in CellKeys(m, i, j) <==> k.dir < 6 && Exposed(m, D.Face(i, j, k.dir)) && k.value == ValueOf(m, D.Face(i, j, k.dir))
  {
    SideKeyIs(m, i, j, WEST, k);
    SideKeyIs(m, i, j, EAST, k);
    SideKeyIs(m, i, j, SOUTH, k);
    SideKeyIs(m, i, j, NORTH, k);
    assert IsActive(m, i, j) <==> m.At(i, j) == 1;
    hide SideKeys, IsActive;
  }

  lemma SideKeyIs(m: Mask, i: nat, j: nat, dir: nat, k: Key)
    requires m.Valid() && i < m.nx && j < m.ny && 2 <= dir < 6
    ensures var i', j' := if dir == WEST then i - 1 else if dir == EAST then i + 1 else i,
                          if dir == SOUTH then j - 1 else if dir == NORTH then j + 1 else j;
            (k in SideKeys(m, i', j', dir))
            <==> (k.dir == dir && !IsActive(m, i', j') && k.value == ValueOf(m, D.Face(i, j, dir)))
  {
  }

  lemma CellMatches(m: Mask, i: nat, j: nat)
    requires m.Valid() && i < m.nx && j < m.ny
    ensures AllMatch(m, CellKeys(m, i, j), CellOutlines(m, i, j), CellPlaces(m, i, j))
  {
    var ks := CellKeys(m, i, j);
    CellDirs(m, i, j);
    hide CellKeys, FaceOutline, Exposed, ValueOf;
    forall t | 0 <= t < |ks| ensures Matches(m, ks[t], CellOutlines(m, i, j)[t], CellPlaces(m, i, j)[t]) {
      CellKeyIs(m, i, j, ks[t]);
    }
  }

  lemma NextPlaces(m: Mask, i: nat, j: nat)
    requires m.Valid() && i < m.nx && j < m.ny
    ensures RowKeys(m, j, i + 1) == RowKeys(m, j, i) + CellKeys(m, i, j)
    ensures RowOutlines(m, j, i + 1) == RowOutlines(m, j, i) + CellOutlines(m, i, j)
    ensures RowPlaces(m, j, i + 1) == RowPlaces(m, j, i) + CellPlaces(m, i, j)
  {
    hide CellKeys, CellOutlines, CellPlaces;
  }

  lemma NextRow(m: Mask, j: nat)
    requires m.Valid() && j < m.ny
    ensures Keys(m, j + 1) == Keys(m, j) + RowKeys(m, j, m.nx)
    ensures AllOutlines(m, j + 1) == AllOutlines(m, j) + RowOutlines(m, j, m.nx)
    ensures AllPlaces(m, j + 1) == AllPlaces(m, j) + RowPlaces(m, j, m.nx)
  {
    hide RowKeys, RowOutlines, RowPlaces;
  }

  lemma NoPlaces(m: Mask, j: nat)
    requires m.Valid()
    ensures Keys(m, 0) == [] && AllOutlines(m, 0) == [] && AllPlaces(m, 0) == []
    ensures j < m.ny ==> RowKeys(m, j, 0) == [] && RowOutlines(m, j, 0) == [] && RowPlaces(m, j, 0) == []
    ensures AllMatch(m, [], [], [])
  {
  }

  lemma {:induction false} RowMatches(m: Mask, j: nat, i: nat)
    requires m.Valid() && i <= m.nx && j < m.ny
    ensures AllMatch(m, RowKeys(m, j, i), RowOutlines(m, j, i), RowPlaces(m, j, i))
  {
    hide *;
    NoPlaces(m, j);
    if i > 0 {
      RowMatches(m, j, i - 1);
      CellMatches(m, i - 1, j);
      NextPlaces(m, i - 1, j);
      MatchConcat(m, RowKeys(m, j, i - 1), RowOutlines(m, j, i - 1), RowPlaces(m, j, i - 1),
                  CellKeys(m, i - 1, j), CellOutlines(m, i - 1, j), CellPlaces(m, i - 1, j));
    }
  }

  lemma {:induction false} KeysMatch(m: Mask, j: nat)
    requires m.Valid() && j <= m.ny
    ensures AllMatch(m, Keys(m, j), AllOutlines(m, j), AllPlaces(m, j))
  {
    hide *;
    NoPlaces(m, j);
    if j > 0 {
      KeysMatch(m, j - 1);
      RowMatches(m, j - 1, m.nx);
      NextRow(m, j - 1);
      MatchConcat(m, Keys(m, j - 1), AllOutlines(m, j - 1), AllPlaces(m, j - 1),
                  RowKeys(m, j - 1, m.nx), RowOutlines(m, j - 1, m.nx), RowPlaces(m, j - 1, m.nx));
    }
  }

  // ----- every face is listed once -----

  function OfCell(m: Mask, i: nat, j: nat): D.Face -> bool
    requires m.Valid()
  {
    f => Exposed(m, f) && f.i == i && f.j == j
  }

  function OfRow(m: Mask, j: nat, i: nat): D.Face -> bool
    requires m.Valid()
  {
    f => Exposed(m, f) && f.j == j && f.i < i
  }

  function OfRows(m: Mask, j: nat): D.Face -> bool
    requires m.Valid()
  {
    f => Exposed(m, f) && f.j < j
  }

  lemma ExposedInside(m: Mask, f: D.Face)
    requires m.Valid()
    ensures Exposed(m, f) ==> f.i < m.nx && f.j < m.ny && f.side < 6
  {
  }

  lemma WantedNext(m: Mask, i: nat, j: nat, f: D.Face)
    requires m.Valid()
    ensures OfRow(m, j, i + 1)(f) <==> OfRow(m, j, i)(f) || OfCell(m, i, j)(f)
    ensures !(OfRow(m, j, i)(f) && OfCell(m, i, j)(f))
    ensures OfRows(m, j + 1)(f) <==> OfRows(m, j)(f) || OfRow(m, j, m.nx)(f)
    ensures !(OfRows(m, j)(f) && OfRow(m, j, m.nx)(f))
    ensures !OfRow(m, j, 0)(f) && !OfRows(m, 0)(f) && (OfRows(m, m.ny)(f) <==> Exposed(m, f))
  {
    ExposedInside(m, f);
    hide Exposed;
  }

  lemma KeysAscend(ks: seq<Key>, ls: seq<Key>, d: nat)
    requires forall t :: 0 <= t < |ks| ==> ks[t].dir < d
    requires forall t, u :: 0 <= t < u < |ks| ==> ks[t].dir < ks[u].dir
    requires |ls| <= 1 && forall t :: 0 <= t < |ls| ==> ls[t].dir == d
    ensures forall t :: 0 <= t < |ks + ls| ==> (ks + ls)[t].dir < d + 1
    ensures forall t, u :: 0 <= t < u < |ks + ls| ==> (ks + ls)[t].dir < (ks + ls)[u].dir
  {
  }

  lemma CellAscends(m: Mask, i: nat, j: nat)
    requires m.Valid() && i < m.nx && j < m.ny
    ensures var ks := CellKeys(m, i, j); forall t, u :: 0 <= t < u < |ks| ==> ks[t].dir < ks[u].dir
  {
    if m.At(i, j) == 1 {
      var b, u := [Key(DefaultValue(BOTTOM), BOTTOM)], [Key(DefaultValue(TOP), TOP)];
      var w, e := SideKeys(m, i - 1, j, WEST), SideKeys(m, i + 1, j, EAST);
      var s, n := SideKeys(m, i, j - 1, SOUTH), SideKeys(m, i, j + 1, NORTH);
      OneKey(m, i - 1, j, WEST);
      OneKey(m, i + 1, j, EAST);
      OneKey(m, i, j - 1, SOUTH);
      OneKey(m, i, j + 1, NORTH);
      assert CellKeys(m, i, j) == b + u + w + e + s + n;
      hide SideKeys, CellKeys;
      KeysAscend(b, u, 1);
      KeysAscend(b + u, w, 2);
      KeysAscend(b + u + w, e, 3);
      KeysAscend(b + u + w + e, s, 4);
      KeysAscend(b + u + w + e + s, n, 5);
    }
  }

  lemma OneKey(m: Mask, i: int, j: int, dir: nat)
    requires m.Valid()
    ensures var ks := SideKeys(m, i, j, dir); |ks| <= 1 && forall t :: 0 <= t < |ks| ==> ks[t].dir == dir
  {
  }

  lemma CellHas(m: Mask, i: nat, j: nat, f: D.Face)
    requires m.Valid() && i < m.nx && j < m.ny
    ensures f in CellPlaces(m, i, j) <==> OfCell(m, i, j)(f)
  {
    var ks := CellKeys(m, i, j);
    hide CellKeys, Exposed, ValueOf;
    if f in CellPlaces(m, i, j) {
      var t :| 0 <= t < |ks| && CellPlaces(m, i, j)[t] == f;
      CellKeyIs(m, i, j, ks[t]);
    }
    if OfCell(m, i, j)(f) {
      ExposedInside(m, f);
      var k := Key(ValueOf(m, f), f.side);
      CellKeyIs(m, i, j, k);
      var t :| 0 <= t < |ks| && ks[t] == k;
      assert CellPlaces(m, i, j)[t] == f;
    }
  }

  lemma CellListed(m: Mask, i: nat, j: nat)
    requires m.Valid() && i < m.nx && j < m.ny
    ensures Lists(CellPlaces(m, i, j), OfCell(m, i, j))
  {
    var fs := CellPlaces(m, i, j);
    CellAscends(m, i, j);
    hide CellKeys;
    forall a, b | 0 <= a < b < |fs| ensures fs[a] != fs[b] {
      assert fs[a].side < fs[b].side;
    }
    hide CellPlaces, OfCell;
    forall f ensures f in fs <==> OfCell(m, i, j)(f) {
      CellHas(m, i, j, f);
    }
  }

  lemma {:induction false} RowListed(m: Mask, j: nat, i: nat)
    requires m.Valid() && i <= m.nx && j < m.ny
    ensures Lists(RowPlaces(m, j, i), OfRow(m, j, i))
  {
    hide *;
    NoPlaces(m, j);
    if i == 0 {
      forall f ensures !OfRow(m, j, 0)(f) {
        WantedNext(m, 0, j, f);
      }
      ListsNone(OfRow(m, j, 0));
    } else {
      RowListed(m, j, i - 1);
      CellListed(m, i - 1, j);
      NextPlaces(m, i - 1, j);
      var v, w, both := OfRow(m, j, i - 1), OfCell(m, i - 1, j), OfRow(m, j, i);
      forall f ensures !(v(f) && w(f)) && (both(f) <==> v(f) || w(f)) {
        WantedNext(m, i - 1, j, f);
      }
      ListsJoin(RowPlaces(m, j, i - 1), CellPlaces(m, i - 1, j), v, w, both);
    }
  }

  lemma {:induction false} RowsListed(m: Mask, j: nat)
    requires m.Valid() && j <= m.ny
    ensures Lists(AllPlaces(m, j), OfRows(m, j))
  {
    hide *;
    NoPlaces(m, j);
    if j == 0 {
      forall f ensures !OfRows(m, 0)(f) {
        WantedNext(m, 0, 0, f);
      }
      ListsNone(OfRows(m, 0));
    } else {
      RowsListed(m, j - 1);
      RowListed(m, j - 1, m.nx);
      NextRow(m, j - 1);
      var v, w, both := OfRows(m, j - 1), OfRow(m, j - 1, m.nx), OfRows(m, j);
      forall f ensures !(v(f) && w(f)) && (both(f) <==> v(f) || w(f)) {
        WantedNext(m, 0, j - 1, f);
      }
      ListsJoin(AllPlaces(m, j - 1), RowPlaces(m, j - 1, m.nx), v, w, both);
    }
  }

  lemma SolidListed(m: Mask)
    requires m.Valid()
    ensures Lists(AllPlaces(m, m.ny), f => Exposed(m, f))
  {
    RowsListed(m, m.ny);
    hide AllPlaces, Exposed, OfRows;
    forall f ensures f in AllPlaces(m, m.ny) <==> Exposed(m, f) {
      WantedNext(m, 0, 0, f);
    }
  }

  // ----- the rows -----

  lemma PointPlaced(g: Geometry, points: seq<(real, real)>, labels: seq<Corner>, p: int)
    requires Placed(g, points, labels) && 0 <= p < |labels|
    ensures PointAt(points, labels, p)
         == Point(D.Along(g.x, labels[p].i, g.dx), D.Along(g.y, labels[p].j, g.dy), labels[p].level as real)
  {
  }

  lemma QuadAlong(g: Geometry, f: D.Face)
    ensures Quad(g, f) == QuadOf(D.Along(g.x, f.i, g.dx), D.Along(g.x, f.i + 1, g.dx),
                                 D.Along(g.y, f.j, g.dy), D.Along(g.y, f.j + 1, g.dy), f.side)
  {
    assert Quad(g, f) == QuadOf(g.x + f.i as real * g.dx, g.x + (f.i + 1) as real * g.dx,
                                g.y + f.j as real * g.dy, g.y + (f.j + 1) as real * g.dy, f.side);
    assert D.Along(g.x, f.i, g.dx) == g.x + f.i as real * g.dx;
    assert D.Along(g.x, f.i + 1, g.dx) == g.x + (f.i + 1) as real * g.dx;
    assert D.Along(g.y, f.j, g.dy) == g.y + f.j as real * g.dy;
    assert D.Along(g.y, f.j + 1, g.dy) == g.y + (f.j + 1) as real * g.dy;
  }

  function CornerPoint(g: Geometry, c: Corner): Point {
    Point(D.Along(g.x, c.i, g.dx), D.Along(g.y, c.j, g.dy), c.level as real)
  }

  /** The two triangles of the outline of a face cut it. */
  lemma OutlineCuts(g: Geometry, f: D.Face)
    requires f.side < 6
    ensures var o := FaceOutline(f.i, f.j, f.side);
            D.Cuts(CornerPoint(g, o.c0), CornerPoint(g, o.c1), CornerPoint(g, o.c2),
                   CornerPoint(g, o.c3), CornerPoint(g, o.c4), CornerPoint(g, o.c5), Quad(g, f))
  {
    QuadAlong(g, f);
    hide D.Along, Quad;
  }

  lemma RowIsFace(m: Mask, g: Geometry, points: seq<(real, real)>, labels: seq<Corner>, r: Row, k: Key, f: D.Face)
    requires m.Valid() && Placed(g, points, labels) && RowInRange(r, |labels|)
    requires KeyOf(r) == k && Matches(m, k, OutlineOf(labels, r), f)
    ensures IsRow(m, g, points, labels, r, f)
  {
    OutlineCuts(g, f);
    PointPlaced(g, points, labels, r.p0);
    PointPlaced(g, points, labels, r.p1);
    PointPlaced(g, points, labels, r.p2);
    PointPlaced(g, points, labels, r.p3);
    PointPlaced(g, points, labels, r.p4);
    PointPlaced(g, points, labels, r.p5);
    hide Quad, D.Along, D.Cuts, Exposed, ValueOf, FaceOutline, Placed, PointAt;
  }

  lemma RowsAreFaces(m: Mask, g: Geometry, points: seq<(real, real)>, labels: seq<Corner>, rs: seq<Row>)
    requires m.Valid() && Placed(g, points, labels) && RowsInRange(rs, |labels|)
    requires KeysOf(rs) == Keys(m, m.ny) && Outlines(labels, rs) == AllOutlines(m, m.ny)
    ensures AreFaces(m, g, points, labels, rs, AllPlaces(m, m.ny))
  {
    SolidListed(m);
    KeysMatch(m, m.ny);
    var fs := AllPlaces(m, m.ny);
    hide Keys, AllOutlines, AllPlaces, Matches, IsRow, Placed, OutlineOf, KeyOf, Exposed;
    forall t | 0 <= t < |rs| ensures IsRow(m, g, points, labels, rs[t], fs[t]) {
      assert KeysOf(rs)[t] == KeyOf(rs[t]) && Outlines(labels, rs)[t] == OutlineOf(labels, rs[t]);
      assert Matches(m, Keys(m, m.ny)[t], AllOutlines(m, m.ny)[t], fs[t]);
      RowIsFace(m, g, points, labels, rs[t], KeyOf(rs[t]), fs[t]);
    }
  }

  // ----- grouping by patches -----

  lemma {:induction false} GroupedMultiset(rs: seq<Row>, values: seq<int>)
    requires Distinct(values, |values|) && forall t :: 0 <= t < |rs| ==> Listed(values, |values|, rs[t].value)
    ensures multiset(Grouped(rs, values, |values|)) == multiset(rs)
  {
    if rs == [] {
      NothingGrouped(values, |values|);
    } else {
      var n := |rs| - 1;
      forall t | 0 <= t < n ensures Listed(values, |values|, rs[..n][t].value) {
        assert Listed(values, |values|, rs[t].value);
      }
      GroupedMultiset(rs[..n], values);
      assert rs == rs[..n] + [rs[n]];
      assert Listed(values, |values|, rs[n].value);
      GroupedOne(rs, values, |values|);
    }
  }

  lemma {:induction false} GroupedOne(rs: seq<Row>, values: seq<int>, q: nat)
    requires rs != [] && q <= |values| && Distinct(values, |values|)
    ensures var n := |rs| - 1;
            multiset(Grouped(rs, values, q)) == multiset(Grouped(rs[..n], values, q))
              + if Listed(values, q, rs[n].value) then multiset{rs[n]} else multiset{}
  {
    hide *;
    if q == 0 {
      GroupedNone(rs, values);
    } else {
      var n := |rs| - 1;
      GroupedOne(rs, values, q - 1);
      ListedOnce(values, q, rs[n].value);
      GroupedStep(rs, values, q);
      GroupedStep(rs[..n], values, q);
      SelectLastRow(rs, values[q - 1]);
      Added(Grouped(rs, values, q - 1), Grouped(rs[..n], values, q - 1), Select(rs, values[q - 1]),
            Select(rs[..n], values[q - 1]), rs[n], Listed(values, q - 1, rs[n].value), values[q - 1] == rs[n].value);
    }
  }

  lemma GroupedNone(rs: seq<Row>, values: seq<int>)
    requires rs != []
    ensures Grouped(rs, values, 0) == Grouped(rs[..|rs| - 1], values, 0) == [] && !Listed(values, 0, rs[|rs| - 1].value)
  {
  }

  lemma SelectLastRow(rs: seq<Row>, v: int)
    requires rs != []
    ensures var n := |rs| - 1; Select(rs, v) == Select(rs[..n], v) + if v == rs[n].value then [rs[n]] else []
  {
  }

  lemma Added(a: seq<Row>, b: seq<Row>, s: seq<Row>, t: seq<Row>, r: Row, before: bool, now: bool)
    requires multiset(a) == multiset(b) + if before then multiset{r} else multiset{}
    requires s == t + (if now then [r] else []) && !(before && now)
    ensures multiset(a + s) == multiset(b + t) + if before || now then multiset{r} else multiset{}
  {
  }

  lemma GroupedStep(rs: seq<Row>, values: seq<int>, q: nat)
    requires 0 < q <= |values|
    ensures Grouped(rs, values, q) == Grouped(rs, values, q - 1) + Select(rs, values[q - 1])
  {
    hide Select;
  }

  lemma ListedOnce(values: seq<int>, q: nat, v: int)
    requires 0 < q <= |values| && Distinct(values, |values|)
    ensures Listed(values, q, v) <==> Listed(values, q - 1, v) || values[q - 1] == v
    ensures !(Listed(values, q - 1, v) && values[q - 1] == v)
  {
  }

  lemma TableIsFaces(m: Mask, g: Geometry, points: seq<(real, real)>, labels: seq<Corner>, values: seq<int>,
                     all: seq<PatchInfo>, patch: seq<Row>, rs: seq<Row>)
    requires m.Valid() && HasPoints(m, g, points, labels) && Tiled(m, values, all, patch, rs)
    requires Covers(values, Keys(m, m.ny)) && RowsInRange(rs, |labels|) && Outlines(labels, rs) == AllOutlines(m, m.ny)
    ensures AreFaces(m, g, points, labels, rs, AllPlaces(m, m.ny)) && multiset(patch) == multiset(rs)
    ensures Intervals(all, patch) && Directions(all, rs)
  {
    TableIntervals(values, all, patch, rs);
    TableDirections(values, all, patch, rs);
    assert Placed(g, points, labels) && KeysOf(rs) == Keys(m, m.ny) && patch == Grouped(rs, values, |values|);
    assert Distinct(values, |values|) && Covered(KeysOf(rs), values);
    hide *;
    RowsAreFaces(m, g, points, labels, rs);
    CoveredRows(rs, values);
    GroupedMultiset(rs, values);
  }

  // ----- the intervals -----

  predicate InInterval(p: PatchInfo, k: int) {
    p.active && p.startIdx <= k <= p.endIdx
  }

  ghost predicate HasInterval(all: seq<PatchInfo>, k: int) {
    exists q :: 0 <= q < |all| && InInterval(all[q], k)
  }

  /** Every row lies in the interval of a patch, and it is the patch whose value the row has; no two
      patches have the same value. */
  ghost predicate Intervals(all: seq<PatchInfo>, patch: seq<Row>) {
    && (forall p, q :: 0 <= p < q < |all| ==> all[p].value != all[q].value)
    && (forall k :: 0 <= k < |patch| ==> HasInterval(all, k))
    && forall q, k :: 0 <= q < |all| ==> HasValue(all[q], patch, k)
  }

  /** A row in the interval of a patch is in the table and has the value of the patch. */
  predicate HasValue(p: PatchInfo, patch: seq<Row>, k: int) {
    InInterval(p, k) ==> 0 <= k < |patch| && patch[k].value == p.value
  }

  lemma {:induction false} SlotFound(ks: seq<Key>, values: seq<int>, k: nat, n: nat) returns (q: nat)
    requires n <= |values| && k < Base(ks, values, n)
    ensures q < n && Base(ks, values, q) <= k < Base(ks, values, q) + Tally(ks, values[q])
  {
    if k < Base(ks, values, n - 1) {
      q := SlotFound(ks, values, k, n - 1);
    } else {
      q := n - 1;
    }
  }

  lemma SelectValue(rs: seq<Row>, v: int)
    ensures forall t :: 0 <= t < |Select(rs, v)| ==> Select(rs, v)[t].value == v
  {
  }

  lemma IntervalHolds(ks: seq<Key>, values: seq<int>, q: nat, p: PatchInfo, patch: seq<Row>, rs: seq<Row>, k: int)
    requires q < |values| && SlotFilled(ks, values, q, p, patch, rs) && |Select(rs, values[q])| == Tally(ks, values[q])
    ensures InInterval(p, k) <==> Base(ks, values, q) <= k < Base(ks, values, q) + Tally(ks, values[q])
    ensures HasValue(p, patch, k)
  {
    SelectValue(rs, values[q]);
    hide Select, Tally, Base;
    if InInterval(p, k) {
      assert HasRow(patch, Base(ks, values, q), Select(rs, values[q]), k - Base(ks, values, q));
    }
  }

  lemma TableIntervals(values: seq<int>, all: seq<PatchInfo>, patch: seq<Row>, rs: seq<Row>)
    requires Filled(KeysOf(rs), values, all, patch, rs)
    ensures Intervals(all, patch)
  {
    DistinctPatches(values, all, patch, rs);
    hide *;
    forall q, k | 0 <= q < |all| ensures HasValue(all[q], patch, k) {
      SlotInterval(values, all, patch, rs, q, k);
    }
    forall k | 0 <= k < |patch| ensures HasInterval(all, k) {
      RowInInterval(values, all, patch, rs, k);
    }
    AreIntervals(all, patch);
  }

  lemma AreIntervals(all: seq<PatchInfo>, patch: seq<Row>)
    requires forall p, q :: 0 <= p < q < |all| ==> all[p].value != all[q].value
    requires forall k :: 0 <= k < |patch| ==> HasInterval(all, k)
    requires forall q, k :: 0 <= q < |all| ==> HasValue(all[q], patch, k)
    ensures Intervals(all, patch)
  {
    hide HasValue, HasInterval;
  }

  lemma DistinctPatches(values: seq<int>, all: seq<PatchInfo>, patch: seq<Row>, rs: seq<Row>)
    requires Filled(KeysOf(rs), values, all, patch, rs)
    ensures |all| == |values| && |patch| == Base(KeysOf(rs), values, |values|)
    ensures forall p, q :: 0 <= p < q < |all| ==> all[p].value != all[q].value
  {
    hide Base, Tally, Select, HasRow;
    forall p, q | 0 <= p < q < |all| ensures all[p].value != all[q].value {
      assert SlotFilled(KeysOf(rs), values, p, all[p], patch, rs) && SlotFilled(KeysOf(rs), values, q, all[q], patch, rs);
    }
  }

  lemma RowInInterval(values: seq<int>, all: seq<PatchInfo>, patch: seq<Row>, rs: seq<Row>, k: nat)
    requires Filled(KeysOf(rs), values, all, patch, rs) && k < |patch|
    ensures HasInterval(all, k)
  {
    DistinctPatches(values, all, patch, rs);
    var q := SlotFound(KeysOf(rs), values, k, |values|);
    SlotInterval(values, all, patch, rs, q, k);
    hide InInterval, Base, Tally, Filled;
  }

  lemma SlotInterval(values: seq<int>, all: seq<PatchInfo>, patch: seq<Row>, rs: seq<Row>, q: nat, k: int)
    requires Filled(KeysOf(rs), values, all, patch, rs) && q < |values|
    ensures |all| == |values|
    ensures InInterval(all[q], k)
      <==> Base(KeysOf(rs), values, q) <= k < Base(KeysOf(rs), values, q) + Tally(KeysOf(rs), values[q])
    ensures HasValue(all[q], patch, k)
  {
    assert SlotFilled(KeysOf(rs), values, q, all[q], patch, rs);
    SelectSize(rs, values[q]);
    hide *;
    IntervalHolds(KeysOf(rs), values, q, all[q], patch, rs, k);
  }

  // ----- the counters -----

  /** The rows with value v that look in direction dir. */
  function Looking(rs: seq<Row>, v: int, dir: nat): set<int> {
    set t | 0 <= t < |rs| && rs[t].value == v && rs[t].dir == dir
  }

  lemma {:induction false} DirectionCount(rs: seq<Row>, v: int, dir: nat)
    requires dir < 6
    ensures TallyDir(KeysOf(rs), v, dir) == |Looking(rs, v, dir)|
  {
    if rs == [] {
      assert Looking(rs, v, dir) == {};
    } else {
      var n := |rs| - 1;
      DirectionCount(rs[..n], v, dir);
      KeysOfLast(rs[..n], rs[n]);
      LookingLast(rs, v, dir);
      assert rs == rs[..n] + [rs[n]] && KeysOf(rs)[..n] == KeysOf(rs[..n]);
      hide Looking;
    }
  }

  lemma LookingLast(rs: seq<Row>, v: int, dir: nat)
    requires rs != [] && dir < 6
    ensures var n := |rs| - 1;
            |Looking(rs, v, dir)| == |Looking(rs[..n], v, dir)| + if KeyOf(rs[n]) == Key(v, dir) then 1 else 0
  {
    var n := |rs| - 1;
    var last := rs[n].value == v && rs[n].dir == dir;
    assert Looking(rs, v, dir) == Looking(rs[..n], v, dir) + if last then {n} else {};
  }

  /** Each patch counts its rows by the way they look. */
  ghost predicate Directions(all: seq<PatchInfo>, rs: seq<Row>) {
    forall q :: 0 <= q < |all| ==> DirectionsOf(all[q], rs)
  }

  predicate DirectionsOf(p: PatchInfo, rs: seq<Row>) {
    |p.faces| == 6 && forall d :: 0 <= d < 6 ==> p.faces[d] == |Looking(rs, p.value, d)|
  }

  lemma TableDirections(values: seq<int>, all: seq<PatchInfo>, patch: seq<Row>, rs: seq<Row>)
    requires Filled(KeysOf(rs), values, all, patch, rs)
    ensures Directions(all, rs)
  {
    forall q | 0 <= q < |all| ensures DirectionsOf(all[q], rs) {
      assert SlotFilled(KeysOf(rs), values, q, all[q], patch, rs);
      forall d | 0 <= d < 6 ensures all[q].faces[d] == |Looking(rs, values[q], d)| {
        DirectionCount(rs, values[q], d);
      }
    }
    hide SlotFilled, DirectionsOf;
  }

  // ----- measures of the faces -----

  /** Twice the signed area of a triangle in the plan. */
  function TwiceArea(a: Point, b: Point, c: Point): real {
    (b.x - a.x) * (c.y - a.y) - (b.y - a.y) * (c.x - a.x)
  }

  /** However a quadrilateral is cut, the areas add up. */
  lemma CutAreas(a: Point, b: Point, c: Point, d: Point, e: Point, f: Point, q: seq<Point>)
    requires |q| == 4 && D.Cuts(a, b, c, d, e, f, q)
    ensures TwiceArea(a, b, c) + TwiceArea(d, e, f) == TwiceArea(q[0], q[1], q[2]) + TwiceArea(q[0], q[2], q[3])
  {
    AreaTurns(a, b, c);
    AreaTurns(d, e, f);
    Diagonals(q[0], q[1], q[2], q[3]);
    hide TwiceArea;
  }

  lemma AreaTurns(a: Point, b: Point, c: Point)
    ensures TwiceArea(b, c, a) == TwiceArea(a, b, c) && TwiceArea(c, a, b) == TwiceArea(a, b, c)
  {
  }

  lemma Diagonals(p: Point, q: Point, r: Point, s: Point)
    ensures TwiceArea(p, q, r) + TwiceArea(p, r, s) == TwiceArea(p, q, s) + TwiceArea(q, r, s)
  {
  }

  lemma QuadAreas(g: Geometry, f: D.Face)
    ensures var q := Quad(g, f);
            TwiceArea(q[0], q[1], q[2]) + TwiceArea(q[0], q[2], q[3])
            == if f.side == 1 then 2.0 * (g.dx * g.dy) else if f.side == 0 then -2.0 * (g.dx * g.dy) else 0.0
  {
    var x, y := g.x + f.i as real * g.dx, g.y + f.j as real * g.dy;
    QuadAlong(g, f);
    assert D.Along(g.x, f.i, g.dx) == x && D.Along(g.x, f.i + 1, g.dx) == x + g.dx;
    assert D.Along(g.y, f.j, g.dy) == y && D.Along(g.y, f.j + 1, g.dy) == y + g.dy;
    hide Quad, QuadOf, D.Along, TwiceArea;
    AreasOf(x, g.dx, y, g.dy, f.side);
  }

  lemma AreasOf(x: real, dx: real, y: real, dy: real, side: nat)
    ensures var q := QuadOf(x, x + dx, y, y + dy, side);
            TwiceArea(q[0], q[1], q[2]) + TwiceArea(q[0], q[2], q[3])
            == if side == 1 then 2.0 * (dx * dy) else if side == 0 then -2.0 * (dx * dy) else 0.0
  {
  }

  /** In the plan a row that looks up covers its cell, a row that looks down covers it from below,
      and the others have no area. */
  lemma RowArea(m: Mask, g: Geometry, points: seq<(real, real)>, labels: seq<Corner>, r: Row, f: D.Face)
    requires m.Valid() && IsRow(m, g, points, labels, r, f)
    ensures TwiceArea(PointAt(points, labels, r.p0), PointAt(points, labels, r.p1), PointAt(points, labels, r.p2))
          + TwiceArea(PointAt(points, labels, r.p3), PointAt(points, labels, r.p4), PointAt(points, labels, r.p5))
         == if r.dir == 1 then 2.0 * (g.dx * g.dy) else if r.dir == 0 then -2.0 * (g.dx * g.dy) else 0.0
  {
    CutAreas(PointAt(points, labels, r.p0), PointAt(points, labels, r.p1), PointAt(points, labels, r.p2),
             PointAt(points, labels, r.p3), PointAt(points, labels, r.p4), PointAt(points, labels, r.p5), Quad(g, f));
    QuadAreas(g, f);
    hide TwiceArea, Quad, D.Cuts, PointAt, Exposed, ValueOf;
  }

  // ----- the program -----

  /** MakePatchySolid: the points, the patches and the table of faces of a mask that marks at
      most thirty patches. */
  method MakePatchySolid(m: Mask, g: Geometry)
    returns (points: seq<(real, real)>, all: seq<PatchInfo>, patch: seq<Row>,
             ghost labels: seq<Corner>, ghost values: seq<int>, ghost rs: seq<Row>, ghost fs: seq<D.Face>)
    requires m.Valid() && g.Valid() && |UserValues(Keys(m, m.ny))| <= NP_TOT
    ensures HasPoints(m, g, points, labels)
    ensures |values| >= 6 && AscendingTo(values[6..], |values| - 6, |values| - 6) && Covers(values, Keys(m, m.ny))
    ensures Tiled(m, values, all, patch, rs)
    ensures RowsInRange(rs, |labels|) && Outlines(labels, rs) == AllOutlines(m, m.ny)
    ensures AreFaces(m, g, points, labels, rs, fs) && multiset(patch) == multiset(rs) && Intervals(all, patch)
    ensures Directions(all, rs)
    ensures FromZero(patch) && S.Closed(Triangles(patch))
  {
    var table;
    table, values := PrepareTable(m);
    var base := new PointBase(m, g);
    hide AreFaces, Intervals, Directions, AllPlaces, Keys, UserValues, Filled, Covers, Placed, Complete, Progress, AscendingTo, HasPoints, Tiled;
    rs := SolidCells(m, g, base, table);
    points, all, patch := base.points, table.all[..], table.patch[..];
    labels := base.labels;
    Finished(m, g, points, labels, values, all, patch, rs);
    fs := AllPlaces(m, m.ny);
    TableIsFaces(m, g, points, labels, values, all, patch, rs);
  }
}
