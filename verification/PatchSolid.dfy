/** solidtools.c: MakePatchySolid as a whole. */
module PatchSolid {
  import opened RowMajor
  import opened PatchTable
  import opened PatchSlots
  import opened PatchFill
  import opened PatchPoints
  import opened PatchClosed
  import S = MaskSurface
  import M = MaskMesh
  import Q = QuickSort

  // ----- the triangles of a table -----

  ghost predicate FromZero(rs: seq<Row>) {
    forall t :: 0 <= t < |rs| ==>
      rs[t].p0 >= 0 && rs[t].p1 >= 0 && rs[t].p2 >= 0 && rs[t].p3 >= 0 && rs[t].p4 >= 0 && rs[t].p5 >= 0
  }

  function RowTriangles(r: Row): (ts: seq<S.Triangle>)
    requires r.p0 >= 0 && r.p1 >= 0 && r.p2 >= 0 && r.p3 >= 0 && r.p4 >= 0 && r.p5 >= 0
    ensures |ts| == 2
  {
    [S.Triangle(r.p0, r.p1, r.p2, r.value), S.Triangle(r.p3, r.p4, r.p5, r.value)]
  }

  /** The triangles written out, in the order of the table. */
  function Triangles(rs: seq<Row>): seq<S.Triangle>
    requires FromZero(rs)
  {
    if rs == [] then [] else Triangles(rs[..|rs| - 1]) + RowTriangles(rs[|rs| - 1])
  }

  function Same(v: nat): nat {
    v
  }

  /** What circulates around a row and around all the rows of a list. */
  function RowFlow(u: nat, v: nat, r: Row): real {
    if r.p0 >= 0 && r.p1 >= 0 && r.p2 >= 0 && r.p3 >= 0 && r.p4 >= 0 && r.p5 >= 0
    then S.Circulation(u, v, r.p0, r.p1, r.p2) + S.Circulation(u, v, r.p3, r.p4, r.p5)
    else 0.0
  }

  function Flow(u: nat, v: nat, rs: seq<Row>): real {
    if rs == [] then 0.0 else Flow(u, v, rs[..|rs| - 1]) + RowFlow(u, v, rs[|rs| - 1])
  }

  lemma {:induction false} TrianglesFlow(u: nat, v: nat, rs: seq<Row>)
    requires FromZero(rs)
    ensures S.Sum(S.EdgeMeasure(u, v, Same), Triangles(rs)) == Flow(u, v, rs)
  {
    if rs != [] {
      var n := |rs| - 1;
      TrianglesFlow(u, v, rs[..n]);
      RowTrianglesFlow(u, v, rs[n]);
      assert Triangles(rs) == Triangles(rs[..n]) + RowTriangles(rs[n]);
      hide S.Sum, S.Circulation, S.EdgeMeasure, RowTriangles, RowFlow, Triangles;
      S.SumConcat(S.EdgeMeasure(u, v, Same), Triangles(rs[..n]), RowTriangles(rs[n]));
    }
  }

  lemma RowTrianglesFlow(u: nat, v: nat, r: Row)
    requires r.p0 >= 0 && r.p1 >= 0 && r.p2 >= 0 && r.p3 >= 0 && r.p4 >= 0 && r.p5 >= 0
    ensures S.Sum(S.EdgeMeasure(u, v, Same), RowTriangles(r)) == RowFlow(u, v, r)
  {
    var ts, f := RowTriangles(r), S.EdgeMeasure(u, v, Same);
    S.SumPair(f, ts);
    hide S.Sum, S.Circulation;
    assert ts[0].v0 == r.p0 && ts[0].v1 == r.p1 && ts[0].v2 == r.p2;
    assert ts[1].v0 == r.p3 && ts[1].v1 == r.p4 && ts[1].v2 == r.p5;
    assert f(ts[0].v0, ts[0].v1, ts[0].v2) == S.Circulation(u, v, Same(r.p0), Same(r.p1), Same(r.p2));
    assert f(ts[1].v0, ts[1].v1, ts[1].v2) == S.Circulation(u, v, Same(r.p3), Same(r.p4), Same(r.p5));
  }

  lemma {:induction false} FlowConcat(u: nat, v: nat, rs: seq<Row>, qs: seq<Row>)
    ensures Flow(u, v, rs + qs) == Flow(u, v, rs) + Flow(u, v, qs)
  {
    hide RowFlow;
    if qs == [] {
      assert rs + qs == rs;
    } else {
      var n := |qs| - 1;
      assert (rs + qs)[..|rs| + n] == rs + qs[..n];
      FlowConcat(u, v, rs, qs[..n]);
    }
  }

  // ----- the table holds the rows patch by patch -----

  function Grouped(rs: seq<Row>, values: seq<int>, q: nat): seq<Row>
    requires q <= |values|
  {
    if q == 0 then [] else Grouped(rs, values, q - 1) + Select(rs, values[q - 1])
  }

  lemma {:induction false} GroupedLast(u: nat, v: nat, rs: seq<Row>, values: seq<int>, q: nat)
    requires rs != [] && q <= |values| && Distinct(values, |values|)
    ensures var n := |rs| - 1;
      Flow(u, v, Grouped(rs, values, q))
      == Flow(u, v, Grouped(rs[..n], values, q)) + if Listed(values, q, rs[n].value) then RowFlow(u, v, rs[n]) else 0.0
  {
    hide *;
    var n := |rs| - 1;
    GroupedFrom(rs, values, q);
    GroupedFrom(rs[..n], values, q);
    NoneListed(values, rs[n].value);
    NoFlow(u, v);
    if q > 0 {
      GroupedLast(u, v, rs, values, q - 1);
      ListedNext(values, q, rs[n].value);
      FlowConcat(u, v, Grouped(rs, values, q - 1), Select(rs, values[q - 1]));
      FlowConcat(u, v, Grouped(rs[..n], values, q - 1), Select(rs[..n], values[q - 1]));
      SelectFlow(u, v, rs, values[q - 1]);
    }
  }

  lemma GroupedFrom(rs: seq<Row>, values: seq<int>, q: nat)
    requires q <= |values|
    ensures q == 0 ==> Grouped(rs, values, q) == []
    ensures q > 0 ==> Grouped(rs, values, q) == Grouped(rs, values, q - 1) + Select(rs, values[q - 1])
  {
    hide Select;
  }

  lemma NoneListed(values: seq<int>, v: int)
    ensures !Listed(values, 0, v)
  {
  }

  lemma NoFlow(u: nat, v: nat)
    ensures Flow(u, v, []) == 0.0
  {
  }

  lemma ListedNext(values: seq<int>, q: nat, v: int)
    requires 0 < q <= |values| && Distinct(values, |values|)
    ensures Listed(values, q, v) <==> Listed(values, q - 1, v) || values[q - 1] == v
    ensures !(Listed(values, q - 1, v) && values[q - 1] == v)
  {
    var q' := q - 1;
    if Listed(values, q', v) {
      var p :| 0 <= p < q' && values[p] == v;
      assert 0 <= p < q;
    }
  }

  lemma SelectFlow(u: nat, v: nat, rs: seq<Row>, w: int)
    requires rs != []
    ensures var n := |rs| - 1;
      Flow(u, v, Select(rs, w)) == Flow(u, v, Select(rs[..n], w)) + if rs[n].value == w then RowFlow(u, v, rs[n]) else 0.0
  {
    var n := |rs| - 1;
    var one := [rs[n]];
    FlowConcat(u, v, Select(rs[..n], w), one);
    assert one[..0] == [];
    assert Flow(u, v, one) == RowFlow(u, v, rs[n]);
    assert Select(rs[..n], w) + [] == Select(rs[..n], w);
    hide RowFlow;
  }

  /** Grouping the rows by patches leaves what circulates as it was. */
  lemma {:induction false} GroupedFlow(u: nat, v: nat, rs: seq<Row>, values: seq<int>)
    requires Distinct(values, |values|) && forall t :: 0 <= t < |rs| ==> Listed(values, |values|, rs[t].value)
    ensures Flow(u, v, Grouped(rs, values, |values|)) == Flow(u, v, rs)
  {
    if rs == [] {
      NothingGrouped(values, |values|);
    } else {
      var n := |rs| - 1;
      GroupedFlow(u, v, rs[..n], values);
      GroupedLast(u, v, rs, values, |values|);
      hide Grouped, RowFlow;
    }
  }

  lemma {:induction false} NothingGrouped(values: seq<int>, q: nat)
    requires q <= |values|
    ensures Grouped([], values, q) == []
  {
    if q > 0 {
      NothingGrouped(values, q - 1);
    }
  }

  /** When everything has been filled in, the table is the rows grouped by patches. */
  lemma {:induction false} TableIsGrouped(values: seq<int>, all: seq<PatchInfo>, patch: seq<Row>, rs: seq<Row>, q: nat)
    requires Filled(KeysOf(rs), values, all, patch, rs) && q <= |values|
    ensures Base(KeysOf(rs), values, q) <= |patch|
    ensures patch[..Base(KeysOf(rs), values, q)] == Grouped(rs, values, q)
  {
    hide *;
    if q == 0 {
      FirstGroup(rs, values);
    } else {
      TableIsGrouped(values, all, patch, rs, q - 1);
      SlotOf(values, all, patch, rs, q - 1);
      SlotRows(patch, Base(KeysOf(rs), values, q - 1), Select(rs, values[q - 1]));
    }
  }

  lemma FirstGroup(rs: seq<Row>, values: seq<int>)
    ensures Base(KeysOf(rs), values, 0) == 0 && Grouped(rs, values, 0) == []
  {
  }

  /** What is known of one slot of a table that has been filled. */
  lemma SlotOf(values: seq<int>, all: seq<PatchInfo>, patch: seq<Row>, rs: seq<Row>, q: nat)
    requires Filled(KeysOf(rs), values, all, patch, rs) && q < |values|
    ensures var base, rows := Base(KeysOf(rs), values, q), Select(rs, values[q]);
            && base + |rows| == Base(KeysOf(rs), values, q + 1) <= |patch|
            && Grouped(rs, values, q + 1) == Grouped(rs, values, q) + rows
            && forall t :: 0 <= t < |rows| ==> HasRow(patch, base, rows, t)
  {
    SelectSize(rs, values[q]);
    hide HasRow, Select, KeysOf, Slotted;
    assert SlotFilled(KeysOf(rs), values, q, all[q], patch, rs);
  }

  lemma SlotRows(patch: seq<Row>, base: nat, rows: seq<Row>)
    requires base + |rows| <= |patch| && forall t :: 0 <= t < |rows| ==> HasRow(patch, base, rows, t)
    ensures patch[..base + |rows|] == patch[..base] + rows
  {
    forall t | 0 <= t < |rows| ensures patch[base..base + |rows|][t] == rows[t] {
      assert HasRow(patch, base, rows, t);
    }
    assert patch[base..base + |rows|] == rows;
  }

  // ----- from the points back to the corners -----

  function Find(g: S.Grid, labels: seq<Corner>, v: nat, n: nat): nat
    requires n <= |labels|
  {
    if n == 0 then 0 else if Vertex(g, labels[n - 1]) == v then n - 1 else Find(g, labels, v, n - 1)
  }

  /** The point made for a grid vertex. */
  function PointOf(g: S.Grid, labels: seq<Corner>): nat -> nat {
    (v: nat) => Find(g, labels, v, |labels|)
  }

  ghost predicate InGridOf(g: S.Grid, labels: seq<Corner>) {
    && (forall t :: 0 <= t < |labels| ==> labels[t].i <= g.nx && labels[t].j <= g.ny)
    && (forall t, u :: 0 <= t < u < |labels| ==> labels[t] != labels[u])
  }

  lemma {:induction false} FindFinds(g: S.Grid, labels: seq<Corner>, t: nat, n: nat)
    requires InGridOf(g, labels) && t < n <= |labels|
    ensures Find(g, labels, Vertex(g, labels[t]), n) == t
  {
    if t < n - 1 {
      FindFinds(g, labels, t, n - 1);
      if Vertex(g, labels[n - 1]) == Vertex(g, labels[t]) {
        M.VertexInjective(g, labels[t].i, labels[t].j, labels[t].level, labels[n - 1].i, labels[n - 1].j, labels[n - 1].level);
      }
    }
  }

  /** A row circulates like its outline. */
  lemma RowIsOutline(g: S.Grid, labels: seq<Corner>, u: nat, v: nat, r: Row)
    requires InGridOf(g, labels) && RowInRange(r, |labels|)
    ensures RowFlow(u, v, r) == OutlineSum(g, S.EdgeMeasure(u, v, PointOf(g, labels)), OutlineOf(labels, r))
  {
    FindFinds(g, labels, r.p0, |labels|);
    FindFinds(g, labels, r.p1, |labels|);
    FindFinds(g, labels, r.p2, |labels|);
    FindFinds(g, labels, r.p3, |labels|);
    FindFinds(g, labels, r.p4, |labels|);
    FindFinds(g, labels, r.p5, |labels|);
    hide Find, Vertex, S.Circulation;
  }

  lemma {:induction false} FlowIsTotal(g: S.Grid, labels: seq<Corner>, u: nat, v: nat, rs: seq<Row>)
    requires InGridOf(g, labels) && RowsInRange(rs, |labels|)
    ensures Flow(u, v, rs) == Total(g, S.EdgeMeasure(u, v, PointOf(g, labels)), Outlines(labels, rs))
  {
    hide RowFlow, OutlineSum, InGridOf, OutlineOf;
    if rs != [] {
      var n := |rs| - 1;
      FlowIsTotal(g, labels, u, v, rs[..n]);
      RowIsOutline(g, labels, u, v, rs[n]);
      assert Outlines(labels, rs)[..n] == Outlines(labels, rs[..n]);
    }
  }

  /** Nothing circulates around the finished table. */
  lemma TableFlow(m: Mask, labels: seq<Corner>, values: seq<int>, all: seq<PatchInfo>, patch: seq<Row>, rs: seq<Row>,
                  u: nat, v: nat)
    requires m.Valid() && InGridOf(GridOf(m), labels) && RowsInRange(rs, |labels|)
    requires Outlines(labels, rs) == AllOutlines(m, m.ny)
    requires Filled(KeysOf(rs), values, all, patch, rs) && Covered(KeysOf(rs), values) && Distinct(values, |values|)
    requires |patch| == Base(KeysOf(rs), values, |values|)
    ensures Flow(u, v, patch) == 0.0
  {
    hide *;
    TableIsGrouped(values, all, patch, rs, |values|);
    assert patch[..|patch|] == patch;
    CoveredRows(rs, values);
    GroupedFlow(u, v, rs, values);
    FlowIsTotal(GridOf(m), labels, u, v, rs);
    NothingCirculates(m, u, v, PointOf(GridOf(m), labels));
  }

  lemma ClosedIfNoFlow(rs: seq<Row>)
    requires FromZero(rs) && forall u: nat, v: nat :: Flow(u, v, rs) == 0.0
    ensures S.Closed(Triangles(rs))
  {
    hide Flow, Triangles, FromZero, S.EdgeCount, S.Sum;
    forall u: nat, v: nat ensures S.EdgeCount(Triangles(rs), u, v) == S.EdgeCount(Triangles(rs), v, u) {
      TrianglesFlow(u, v, rs);
      S.CirculationCounts(Triangles(rs), u, v, Same);
      RelabelSame(Triangles(rs));
    }
  }

  lemma RelabelSame(ts: seq<S.Triangle>)
    ensures S.Relabel(ts, Same) == ts
  {
    var rs := S.Relabel(ts, Same);
    forall k | 0 <= k < |ts| ensures rs[k] == ts[k] {
      assert rs[k] == S.Triangle(Same(ts[k].v0), Same(ts[k].v1), Same(ts[k].v2), ts[k].patch);
    }
  }

  /** The triangles of the finished table form a closed, consistently oriented surface. */
  lemma TableIsClosed(m: Mask, labels: seq<Corner>, values: seq<int>, all: seq<PatchInfo>, patch: seq<Row>, rs: seq<Row>)
    requires m.Valid() && InGridOf(GridOf(m), labels) && RowsInRange(rs, |labels|)
    requires Outlines(labels, rs) == AllOutlines(m, m.ny)
    requires Filled(KeysOf(rs), values, all, patch, rs) && Covered(KeysOf(rs), values) && Distinct(values, |values|)
    requires |patch| == Base(KeysOf(rs), values, |values|) && FromZero(patch)
    ensures S.Closed(Triangles(patch))
  {
    hide *;
    forall u: nat, v: nat ensures Flow(u, v, patch) == 0.0 {
      TableFlow(m, labels, values, all, patch, rs, u, v);
    }
    ClosedIfNoFlow(patch);
  }

  lemma CoveredRows(rs: seq<Row>, values: seq<int>)
    requires Covered(KeysOf(rs), values)
    ensures forall t :: 0 <= t < |rs| ==> Listed(values, |values|, rs[t].value)
  {
    forall t | 0 <= t < |rs| ensures Listed(values, |values|, rs[t].value) {
      assert KeysOf(rs)[t].value == rs[t].value;
    }
  }

  // ----- the program -----

  /** Part way through the fill pass, before cell (i, j): rs are the faces filled in so far. */
  ghost predicate Progress(m: Mask, labels: seq<Corner>, rs: seq<Row>, i: nat, j: nat)
    requires m.Valid()
  {
    && i <= m.nx && j <= m.ny && (j == m.ny ==> i == 0)
    && RowsInRange(rs, |labels|)
    && KeysOf(rs) == KeysUpTo(m, i, j) && Outlines(labels, rs) == OutlinesUpTo(m, i, j)
  }

  function KeysUpTo(m: Mask, i: nat, j: nat): seq<Key>
    requires m.Valid() && i <= m.nx && j <= m.ny && (j == m.ny ==> i == 0)
  {
    if i == 0 then Keys(m, j) else Keys(m, j) + RowKeys(m, j, i)
  }

  function OutlinesUpTo(m: Mask, i: nat, j: nat): seq<Outline>
    requires m.Valid() && i <= m.nx && j <= m.ny && (j == m.ny ==> i == 0)
  {
    if i == 0 then AllOutlines(m, j) else AllOutlines(m, j) + RowOutlines(m, j, i)
  }

  lemma UpToNext(m: Mask, i: nat, j: nat)
    requires m.Valid() && i < m.nx && j < m.ny
    ensures KeysUpTo(m, i + 1, j) == KeysUpTo(m, i, j) + CellKeys(m, i, j)
    ensures OutlinesUpTo(m, i + 1, j) == OutlinesUpTo(m, i, j) + CellOutlines(m, i, j)
  {
    hide CellKeys, CellOutlines;
    assert RowKeys(m, j, i + 1) == RowKeys(m, j, i) + CellKeys(m, i, j);
    assert RowOutlines(m, j, i + 1) == RowOutlines(m, j, i) + CellOutlines(m, i, j);
  }

  lemma UpToRowEnd(m: Mask, j: nat)
    requires m.Valid() && j < m.ny
    ensures KeysUpTo(m, m.nx, j) == KeysUpTo(m, 0, j + 1) && OutlinesUpTo(m, m.nx, j) == OutlinesUpTo(m, 0, j + 1)
  {
    hide CellKeys, CellOutlines;
  }

  lemma {:induction false} RowPrefix(m: Mask, j: nat, i: nat, n: nat)
    requires m.Valid() && i <= n <= m.nx && j < m.ny
    ensures RowKeys(m, j, i) <= RowKeys(m, j, n)
  {
    hide CellKeys;
    if i < n {
      RowPrefix(m, j, i, n - 1);
    }
  }

  lemma {:induction false} KeysPrefix(m: Mask, j: nat, n: nat)
    requires m.Valid() && j <= n <= m.ny
    ensures Keys(m, j) <= Keys(m, n)
  {
    hide RowKeys;
    if j < n {
      KeysPrefix(m, j, n - 1);
    }
  }

  /** What has been counted up to a cell comes first in the whole count. */
  lemma UpToPrefix(m: Mask, i: nat, j: nat)
    requires m.Valid() && i <= m.nx && j < m.ny
    ensures KeysUpTo(m, i, j) <= Keys(m, m.ny)
  {
    hide *;
    RowPrefix(m, j, i, m.nx);
    UpToIs(m, i, j);
    KeysPrefix(m, j + 1, m.ny);
    PrefixAfter(Keys(m, j), RowKeys(m, j, i), RowKeys(m, j, m.nx));
    PrefixOfPrefix(KeysUpTo(m, i, j), Keys(m, j + 1), Keys(m, m.ny));
  }

  lemma UpToIs(m: Mask, i: nat, j: nat)
    requires m.Valid() && i <= m.nx && j < m.ny
    ensures KeysUpTo(m, i, j) == Keys(m, j) + RowKeys(m, j, i)
    ensures Keys(m, j + 1) == Keys(m, j) + RowKeys(m, j, m.nx)
  {
    hide CellKeys;
  }

  lemma PrefixAfter(c: seq<Key>, a: seq<Key>, b: seq<Key>)
    requires a <= b
    ensures c + a <= c + b
  {
    assert c + b == c + a + b[|a|..];
  }

  lemma PrefixOfPrefix(a: seq<Key>, b: seq<Key>, c: seq<Key>)
    requires a <= b && b <= c
    ensures a <= c
  {
  }

  lemma ProgressDue(m: Mask, labels: seq<Corner>, rs: seq<Row>, i: nat, j: nat)
    requires m.Valid() && i < m.nx && j < m.ny && Progress(m, labels, rs, i, j)
    ensures Due(rs, CellKeys(m, i, j), Keys(m, m.ny))
  {
    UpToNext(m, i, j);
    UpToPrefix(m, i + 1, j);
    CellDirs(m, i, j);
  }

  /** Progress over an active cell whose points are p. */
  lemma ProgressCell(m: Mask, labels: seq<Corner>, more: seq<Corner>, rs: seq<Row>, i: nat, j: nat, p: seq<int>)
    requires m.Valid() && i < m.nx && j < m.ny && Progress(m, labels, rs, i, j) && labels <= more
    requires |p| == 8 && forall k :: 0 <= k < 8 ==> 0 <= p[k] < |more| && more[p[k]] == CellCorner(i, j, k)
    ensures AllFace(CellKeys(m, i, j))
    ensures Progress(m, more, rs + FaceRows(p, CellKeys(m, i, j)), i + 1, j)
  {
    var ks := CellKeys(m, i, j);
    CellDirs(m, i, j);
    UpToNext(m, i, j);
    OutlinesKept(labels, more, rs);
    CellRowsOutline(more, i, j, p, ks);
    OutlinesConcat(more, rs, FaceRows(p, ks));
    KeysOfFaceRows(rs, p, ks);
    assert CellOutlines(m, i, j) == KeyOutlines(i, j, ks);
    hide CellKeys, FaceRows, KeyOutlines, Outlines, KeysOf, CellCorner, KeysUpTo, OutlinesUpTo, RowsInRange;
  }

  /** Progress over a cell that is not active. */
  lemma ProgressSkip(m: Mask, labels: seq<Corner>, rs: seq<Row>, i: nat, j: nat)
    requires m.Valid() && i < m.nx && j < m.ny && Progress(m, labels, rs, i, j) && !m.Active(i, j)
    ensures Progress(m, labels, rs, i + 1, j)
  {
    UpToNext(m, i, j);
    assert CellKeys(m, i, j) == [] && CellOutlines(m, i, j) == [];
    hide CellKeys, CellOutlines, KeysUpTo, OutlinesUpTo;
  }

  lemma ProgressRowEnd(m: Mask, labels: seq<Corner>, rs: seq<Row>, j: nat)
    requires m.Valid() && j < m.ny && Progress(m, labels, rs, m.nx, j)
    ensures Progress(m, labels, rs, 0, j + 1)
  {
    UpToRowEnd(m, j);
    hide KeysUpTo, OutlinesUpTo;
  }

  lemma CompleteSkip(m: Mask, labels: seq<Corner>, i: nat, j: nat)
    requires m.Valid() && i < m.nx && j < m.ny && Complete(m, labels, i, j) && !m.Active(i, j)
    ensures Complete(m, labels, i + 1, j)
  {
    var i' := i + 1;
    forall ci, cj ensures Touched(m, ci, cj, i', j) <==> Touched(m, ci, cj, i, j) {
      TouchedNext(m, i, j, ci, cj);
    }
    hide Touched, HasBoth;
  }

  lemma CompleteRowEnd(m: Mask, labels: seq<Corner>, j: nat)
    requires m.Valid() && j < m.ny && Complete(m, labels, m.nx, j)
    ensures Complete(m, labels, 0, j + 1)
  {
    var j' := j + 1;
    forall ci, cj ensures Touched(m, ci, cj, m.nx, j) <==> Touched(m, ci, cj, 0, j') {
      RowEndTouched(m, ci, cj, j);
    }
    hide Touched, HasBoth;
  }

  lemma RowEndTouched(m: Mask, ci: int, cj: int, j: nat)
    requires m.Valid() && j < m.ny
    ensures Touched(m, ci, cj, m.nx, j) <==> Touched(m, ci, cj, 0, j + 1)
  {
  }

  /** The points and the faces of one cell. */
  method SolidCell(m: Mask, g: Geometry, base: PointBase, table: FaceTable, i: nat, j: nat, ghost rs: seq<Row>)
    returns (ghost qs: seq<Row>)
    requires m.Valid() && g.Valid() && i < m.nx && j < m.ny
    requires base.Holds(m, g, i, j) && table.Holds(Keys(m, m.ny), rs) && Covers(table.patchValues[..], Keys(m, m.ny))
    requires Progress(m, base.labels, rs, i, j)
    modifies base, table.all, table.patch
    ensures base.Holds(m, g, i + 1, j) && table.Holds(Keys(m, m.ny), qs) && Progress(m, base.labels, qs, i + 1, j)
  {
    ghost var labels := base.labels;
    if m.At(i, j) == 1 {
      ProgressDue(m, labels, rs, i, j);
      hide Progress, Keys, Due, Filled, Covers, Placed, Complete, CellCorner;
      var p := base.CellPoints(m, g, i, j);
      FillCell(table, m, i, j, p, Keys(m, m.ny), rs);
      ProgressCell(m, labels, base.labels, rs, i, j, p);
      qs := rs + FaceRows(p, CellKeys(m, i, j));
    } else {
      ProgressSkip(m, labels, rs, i, j);
      CompleteSkip(m, labels, i, j);
      qs := rs;
    }
  }

  /** The fill pass over the whole mask. */
  method SolidCells(m: Mask, g: Geometry, base: PointBase, table: FaceTable) returns (ghost rs: seq<Row>)
    requires m.Valid() && g.Valid()
    requires base.Holds(m, g, 0, 0) && base.labels == []
    requires table.Holds(Keys(m, m.ny), []) && Covers(table.patchValues[..], Keys(m, m.ny))
    modifies base, table.all, table.patch
    ensures base.Holds(m, g, 0, m.ny) && table.Holds(Keys(m, m.ny), rs) && Progress(m, base.labels, rs, 0, m.ny)
  {
    rs := [];
    NoProgress(m);
    hide *;
    for j := 0 to m.ny
      invariant base.Holds(m, g, 0, j) && table.Holds(Keys(m, m.ny), rs) && Progress(m, base.labels, rs, 0, j)
    {
      rs := SolidRow(m, g, base, table, j, rs);
    }
  }

  /** The fill pass over one row of the mask. */
  method SolidRow(m: Mask, g: Geometry, base: PointBase, table: FaceTable, j: nat, ghost before: seq<Row>)
    returns (ghost rs: seq<Row>)
    requires m.Valid() && g.Valid() && j < m.ny
    requires base.Holds(m, g, 0, j) && table.Holds(Keys(m, m.ny), before)
    requires Covers(table.patchValues[..], Keys(m, m.ny)) && Progress(m, base.labels, before, 0, j)
    modifies base, table.all, table.patch
    ensures base.Holds(m, g, 0, j + 1) && table.Holds(Keys(m, m.ny), rs) && Progress(m, base.labels, rs, 0, j + 1)
  {
    rs := before;
    hide *;
    for i := 0 to m.nx
      invariant base.Holds(m, g, i, j) && table.Holds(Keys(m, m.ny), rs) && Progress(m, base.labels, rs, i, j)
    {
      rs := SolidCell(m, g, base, table, i, j, rs);
    }
    ProgressRowEnd(m, base.labels, rs, j);
    HoldsRowEnd(m, g, base, j);
  }

  lemma HoldsRowEnd(m: Mask, g: Geometry, base: PointBase, j: nat)
    requires m.Valid() && j < m.ny && base.Holds(m, g, m.nx, j)
    ensures base.Holds(m, g, 0, j + 1)
  {
    CompleteRowEnd(m, base.labels, j);
    hide Complete, Placed;
  }

  lemma NoProgress(m: Mask)
    requires m.Valid()
    ensures Progress(m, [], [], 0, 0)
  {
  }

  /** The points made for a mask: a bottom and a top for every corner that touches an active
      cell, none twice, none for any other corner. */
  ghost predicate HasPoints(m: Mask, g: Geometry, points: seq<(real, real)>, labels: seq<Corner>)
    requires m.Valid()
  {
    Placed(g, points, labels) && Complete(m, labels, 0, m.ny)
  }

  /** Every row of the table has been written once: the interval of every patch holds all of
      its faces, in the order of the cells; the intervals follow one another and fill the
      table; and the counters of a patch say that it is full. */
  ghost predicate Tiled(m: Mask, values: seq<int>, all: seq<PatchInfo>, patch: seq<Row>, rs: seq<Row>)
    requires m.Valid()
  {
    && KeysOf(rs) == Keys(m, m.ny) && Filled(KeysOf(rs), values, all, patch, rs)
    && |patch| == |rs| && patch == Grouped(rs, values, |values|)
    && (forall q :: 0 <= q < |all| ==> Full(all[q]) && all[q].count == |Select(rs, values[q])|)
  }

  /** As many rows have been written as were counted, and so many look each way. */
  predicate Full(p: PatchInfo) {
    && p.pWrite + 1 == p.count && |p.faces| == 6
    && p.faces[0] + p.faces[1] + p.faces[2] + p.faces[3] + p.faces[4] + p.faces[5] == p.count
  }

  lemma AllKeysFace(m: Mask)
    requires m.Valid()
    ensures AllFace(Keys(m, m.ny))
  {
    forall t | 0 <= t < |Keys(m, m.ny)| ensures Keys(m, m.ny)[t].dir < 6 {
      KeyValues(m, m.ny, Keys(m, m.ny)[t]);
    }
  }

  lemma FinishedTable(m: Mask, values: seq<int>, all: seq<PatchInfo>, patch: seq<Row>, rs: seq<Row>)
    requires m.Valid() && KeysOf(rs) == Keys(m, m.ny) && Filled(KeysOf(rs), values, all, patch, rs)
    requires Covered(KeysOf(rs), values) && Distinct(values, |values|)
    ensures Tiled(m, values, all, patch, rs)
  {
    BaseTotal(KeysOf(rs), values);
    TableIsGrouped(values, all, patch, rs, |values|);
    assert patch[..|patch|] == patch;
    AllKeysFace(m);
    forall q | 0 <= q < |all| ensures Full(all[q]) && all[q].count == |Select(rs, values[q])| {
      assert SlotFilled(KeysOf(rs), values, q, all[q], patch, rs);
      SelectSize(rs, values[q]);
      DirectionsAddUp(KeysOf(rs), values[q]);
    }
    hide SlotFilled, Select, Tally, Keys;
  }

  /** There are no more points than two for every corner of the grid, for which the program
      has room. */
  lemma PointsFit(m: Mask, g: Geometry, points: seq<(real, real)>, labels: seq<Corner>)
    requires m.Valid() && HasPoints(m, g, points, labels)
    ensures |points| == |labels| <= 2 * (m.ny + 1) * (m.nx + 1)
  {
    var grid := GridOf(m);
    GridPoints(m, g, points, labels);
    var s := seq(|labels|, t requires 0 <= t < |labels| => Vertex(grid, labels[t]));
    forall p, q | 0 <= p < q < |labels| ensures s[p] != s[q] {
      FindFinds(grid, labels, p, |labels|);
      FindFinds(grid, labels, q, |labels|);
    }
    forall q | 0 <= q < |labels| ensures s[q] in Q.UpTo(M.VertexCount(grid)) {
      M.VertexInRange(grid, labels[q].i, labels[q].j, labels[q].level);
    }
    DistinctFits(s, |s|, Q.UpTo(M.VertexCount(grid)));
  }

  lemma GridPoints(m: Mask, g: Geometry, points: seq<(real, real)>, labels: seq<Corner>)
    requires m.Valid() && HasPoints(m, g, points, labels)
    ensures InGridOf(GridOf(m), labels)
  {
    forall t | 0 <= t < |labels| ensures labels[t].i <= m.nx && labels[t].j <= m.ny {
      assert Touched(m, labels[t].i, labels[t].j, 0, m.ny);
    }
    hide Touched;
  }

  lemma GroupedFromZero(rs: seq<Row>, values: seq<int>, n: nat, patch: seq<Row>)
    requires RowsInRange(rs, n) && patch == Grouped(rs, values, |values|)
    ensures RowsInRange(patch, n) && FromZero(patch)
  {
    GroupedInRange(rs, values, |values|, n);
  }

  lemma {:induction false} GroupedInRange(rs: seq<Row>, values: seq<int>, q: nat, n: nat)
    requires RowsInRange(rs, n) && q <= |values|
    ensures RowsInRange(Grouped(rs, values, q), n)
  {
    hide RowInRange;
    if q > 0 {
      GroupedInRange(rs, values, q - 1, n);
      SelectInRange(rs, values[q - 1], n);
    }
  }

  lemma {:induction false} SelectInRange(rs: seq<Row>, v: int, n: nat)
    requires RowsInRange(rs, n)
    ensures RowsInRange(Select(rs, v), n)
  {
    hide RowInRange;
    if rs != [] {
      SelectInRange(rs[..|rs| - 1], v, n);
    }
  }

  /** Lays out an empty table for the patches counted and sorted. */
  method LayOut(m: Mask, c: Counters, ghost vs: set<int>) returns (table: FaceTable, ghost values: seq<int>)
    requires m.Valid() && c.Counted(Keys(m, m.ny), vs) && AscendingTo(c.usr[..], c.n, c.n)
    ensures fresh(table) && fresh(table.all) && fresh(table.patch) && table.patchValues[..] == values
    ensures table.Holds(Keys(m, m.ny), []) && Covers(values, Keys(m, m.ny))
    ensures |values| >= 6 && AscendingTo(values[6..], |values| - 6, |values| - 6)
  {
    values := Values(c.usr[..], c.n);
    ValuesCover(m, c.usr[..], c.cnt[..], c.n);
    BaseTotal(Keys(m, m.ny), values);
    UsersFollow(c.usr[..], c.n);
    hide Keys, Filled, Values, AscendingTo, DefaultsCounted, UsersCounted, BlankFrom, Within, AllSlotted;
    var cellFaces := CountAll(c, m, vs);
    var slots := MakeSlots(c, Keys(m, m.ny), vs);
    table := new FaceTable(slots, cellFaces, Keys(m, m.ny), values);
  }

  lemma UsersFollow(usr: seq<int>, n: nat)
    requires n <= |usr| && AscendingTo(usr, n, n)
    ensures var values := Values(usr, n);
      && |values| >= 6 && AscendingTo(values[6..], |values| - 6, |values| - 6)
      && forall d :: 0 <= d < 6 ==> values[d] == DefaultValue(d)
  {
    assert Values(usr, n)[6..] == usr[..n];
  }

  /** Counts the faces of a mask that marks at most thirty patches, sorts the patches and
      lays out an empty table. */
  method PrepareTable(m: Mask) returns (table: FaceTable, ghost values: seq<int>)
    requires m.Valid() && |UserValues(Keys(m, m.ny))| <= NP_TOT
    ensures fresh(table) && fresh(table.all) && fresh(table.patch) && table.patchValues[..] == values
    ensures table.Holds(Keys(m, m.ny), []) && Covers(values, Keys(m, m.ny))
    ensures |values| >= 6 && AscendingTo(values[6..], |values| - 6, |values| - 6)
  {
    ghost var vs := UserValues(Keys(m, m.ny));
    hide *;
    var c := CountFaces(m);
    SortPatches(c, Keys(m, m.ny), vs);
    table, values := LayOut(m, c, vs);
  }

  lemma Finished(m: Mask, g: Geometry, points: seq<(real, real)>, labels: seq<Corner>, values: seq<int>,
                 all: seq<PatchInfo>, patch: seq<Row>, rs: seq<Row>)
    requires m.Valid() && Placed(g, points, labels) && Complete(m, labels, 0, m.ny)
    requires Filled(Keys(m, m.ny), values, all, patch, rs) && Covers(values, Keys(m, m.ny))
    requires Progress(m, labels, rs, 0, m.ny)
    ensures HasPoints(m, g, points, labels) && Tiled(m, values, all, patch, rs)
    ensures RowsInRange(rs, |labels|) && Outlines(labels, rs) == AllOutlines(m, m.ny)
    ensures FromZero(patch) && S.Closed(Triangles(patch))
  {
    assert KeysOf(rs) == Keys(m, m.ny) && Outlines(labels, rs) == AllOutlines(m, m.ny);
    assert Distinct(values, |values|) && Covered(KeysOf(rs), values) && RowsInRange(rs, |labels|);
    assert |patch| == Base(KeysOf(rs), values, |values|);
    assert HasPoints(m, g, points, labels);
    FinishedTable(m, values, all, patch, rs);
    assert patch == Grouped(rs, values, |values|);
    hide *;
    GridPoints(m, g, points, labels);
    GroupedFromZero(rs, values, |labels|, patch);
    TableIsClosed(m, labels, values, all, patch, rs);
  }
}
