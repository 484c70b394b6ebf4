/** solidtools.c, MakePatchySolid: the point database.  Every corner of the grid that touches
    an active cell gets a bottom point and a top point; a cell looks up the points that cells
    before it have made by searching backwards for their coordinates. */
module PatchPoints {
  import opened PatchTable

  /** A corner of the grid at the bottom (level 0) or the top (level 1). */
  datatype Corner = Corner(i: nat, j: nat, level: nat)

  /** Origin and spacing of the grid. */
  datatype Geometry = Geometry(x: real, y: real, dx: real, dy: real) {
    predicate Valid() {
      dx != 0.0 && dy != 0.0
    }

    function At(i: nat, j: nat): (real, real) {
      (x + i as real * dx, y + j as real * dy)
    }
  }

  lemma SamePlace(g: Geometry, i: nat, j: nat, i': nat, j': nat)
    requires g.Valid()
    ensures g.At(i, j) == g.At(i', j') <==> i == i' && j == j'
  {
    if g.At(i, j) == g.At(i', j') {
      assert (i as real - i' as real) * g.dx == 0.0;
      assert (j as real - j' as real) * g.dy == 0.0;
    }
  }

  // ----- which corners have points -----

  /** Cell (a, b) is active and comes before cell (i, j). */
  predicate Done(m: Mask, a: int, b: int, i: int, j: int)
    requires m.Valid()
  {
    m.Active(a, b) && (b < j || (b == j && a < i))
  }

  /** An active cell before (i, j) touches the corner. */
  predicate Touched(m: Mask, ci: int, cj: int, i: int, j: int)
    requires m.Valid()
  {
    Done(m, ci - 1, cj - 1, i, j) || Done(m, ci, cj - 1, i, j) || Done(m, ci - 1, cj, i, j) || Done(m, ci, cj, i, j)
  }

  /** Corner k of cell (i, j): 0 to 3 at the bottom, 4 to 7 above them, x varying fastest. */
  function CellCorner(i: nat, j: nat, k: nat): Corner
    requires k < 8
  {
    Corner(i + k % 2, j + k / 2 % 2, k / 4)
  }

  lemma CellCorners(i: nat, j: nat)
    ensures CellCorner(i, j, 0) == Corner(i, j, 0) && CellCorner(i, j, 1) == Corner(i + 1, j, 0)
    ensures CellCorner(i, j, 2) == Corner(i, j + 1, 0) && CellCorner(i, j, 3) == Corner(i + 1, j + 1, 0)
    ensures CellCorner(i, j, 4) == Corner(i, j, 1) && CellCorner(i, j, 5) == Corner(i + 1, j, 1)
    ensures CellCorner(i, j, 6) == Corner(i, j + 1, 1) && CellCorner(i, j, 7) == Corner(i + 1, j + 1, 1)
    ensures forall k, l :: 0 <= k < l < 8 ==> CellCorner(i, j, k) != CellCorner(i, j, l)
  {
  }

  /** The points of the labels; no corner twice; bottoms before tops. */
  ghost predicate Placed(g: Geometry, points: seq<(real, real)>, labels: seq<Corner>) {
    && |points| == |labels|
    && (forall t :: 0 <= t < |labels| ==> points[t] == g.At(labels[t].i, labels[t].j) && labels[t].level <= 1)
    && (forall t, u :: 0 <= t < u < |labels| ==> labels[t] != labels[u])
    && (forall t, u | 0 <= t < |labels| && 0 <= u < |labels| :: Below(labels[t], labels[u]) ==> t < u)
  }

  predicate Below(c: Corner, d: Corner) {
    c.i == d.i && c.j == d.j && c.level < d.level
  }

  ghost predicate HasBoth(labels: seq<Corner>, i: int, j: int) {
    i >= 0 && j >= 0 && Corner(i, j, 0) in labels && Corner(i, j, 1) in labels
  }

  /** Before cell (i, j): exactly the corners touched so far have points, both of them. */
  ghost predicate Complete(m: Mask, labels: seq<Corner>, i: int, j: int)
    requires m.Valid()
  {
    && (forall t :: 0 <= t < |labels| ==> Touched(m, labels[t].i, labels[t].j, i, j))
    && (forall ci, cj | Touched(m, ci, cj, i, j) :: HasBoth(labels, ci, cj))
  }

  // ----- finding points -----

  /** The last place before n, other than the first, with the given coordinates; 0 if there is none. */
  method SearchBack(points: seq<(real, real)>, n: int, p: (real, real)) returns (m: int)
    requires n < |points|
    ensures m <= n && (m > 0 ==> points[m] == p)
    ensures forall t :: m < t <= n && t > 0 ==> points[t] != p
    ensures n >= 0 ==> m >= 0
  {
    m := n;
    while m > 0
      invariant m <= n && (n >= 0 ==> m >= 0)
      invariant forall t :: m < t <= n && t > 0 ==> points[t] != p
    {
      if points[m] == p {
        break;
      }
      m := m - 1;
    }
  }

  lemma PlaceOf(labels: seq<Corner>, c: Corner) returns (t: nat)
    requires c in labels
    ensures t < |labels| && labels[t] == c
  {
    t :| 0 <= t < |labels| && labels[t] == c;
  }

  /** The points with the coordinates of a corner are its bottom and its top. */
  lemma OnlyTwo(g: Geometry, points: seq<(real, real)>, labels: seq<Corner>, i: nat, j: nat, b: nat, u: nat)
    requires g.Valid() && Placed(g, points, labels) && b < |labels| && u < |labels|
    requires labels[b] == Corner(i, j, 0) && labels[u] == Corner(i, j, 1)
    ensures b < u && points[b] == points[u] == g.At(i, j)
    ensures forall t :: 0 <= t < |points| && points[t] == g.At(i, j) ==> t == b || t == u
  {
    forall t | 0 <= t < |points| && points[t] == g.At(i, j) ensures t == b || t == u {
      SamePlace(g, labels[t].i, labels[t].j, i, j);
      assert labels[t] == Corner(i, j, 0) || labels[t] == Corner(i, j, 1);
    }
  }

  /** Finds the point of a corner that has both: the backward search meets the top point
      first; for the bottom point it goes on, and stops at the first point without looking. */
  method FindPoint(g: Geometry, points: seq<(real, real)>, c: Corner, ghost labels: seq<Corner>) returns (m: nat)
    requires g.Valid() && Placed(g, points, labels) && HasBoth(labels, c.i, c.j) && c.level <= 1
    ensures m < |labels| && labels[m] == c
  {
    ghost var b := PlaceOf(labels, Corner(c.i, c.j, 0));
    ghost var u := PlaceOf(labels, Corner(c.i, c.j, 1));
    OnlyTwo(g, points, labels, c.i, c.j, b, u);
    hide Placed, Geometry.At;
    var top := SearchBack(points, |points| - 1, g.At(c.i, c.j));
    assert top == u;
    if c.level == 0 {
      var bottom := SearchBack(points, top - 1, g.At(c.i, c.j));
      assert bottom == b;
      m := bottom;
    } else {
      m := top;
    }
  }

  // ----- the points of one cell -----

  /** The cells before (i, j) that touch its corners are four of its neighbours. */
  lemma TouchedCorners(m: Mask, i: nat, j: nat)
    requires m.Valid() && i < m.nx && j < m.ny
    ensures TouchedBefore(m, Corner(i, j, 0), i, j) == (m.Active(i - 1, j) || m.Active(i - 1, j - 1) || m.Active(i, j - 1))
    ensures TouchedBefore(m, Corner(i + 1, j, 0), i, j) == (m.Active(i, j - 1) || m.Active(i + 1, j - 1))
    ensures TouchedBefore(m, Corner(i, j + 1, 0), i, j) == m.Active(i - 1, j)
    ensures !TouchedBefore(m, Corner(i + 1, j + 1, 0), i, j)
    ensures forall c: Corner :: TouchedBefore(m, c, i, j) == TouchedBefore(m, Corner(c.i, c.j, 0), i, j)
  {
  }

  /** Whether corner k of cell (i, j) has no points yet, as the program finds out from the
      four neighbours that come before the cell. */
  method CornersToAdd(m: Mask, i: nat, j: nat) returns (add: seq<bool>)
    requires m.Valid() && i < m.nx && j < m.ny
    ensures |add| == 8 && forall k :: 0 <= k < 8 ==> add[k] == !TouchedBefore(m, CellCorner(i, j, k), i, j)
  {
    ghost var w, sw, s, se := m.Active(i - 1, j), m.Active(i - 1, j - 1), m.Active(i, j - 1), m.Active(i + 1, j - 1);
    add := [true, true, true, true, true, true, true, true];
    if i > 0 {
      if m.At(i - 1, j) == 1 {
        add := add[0 := false][2 := false][4 := false][6 := false];
      }
    }
    assert add == [!w, true, !w, true, !w, true, !w, true];
    if i > 0 && j > 0 {
      if m.At(i - 1, j - 1) == 1 {
        add := add[0 := false][4 := false];
      }
    }
    assert add == [!(w || sw), true, !w, true, !(w || sw), true, !w, true];
    if j > 0 {
      if m.At(i, j - 1) == 1 {
        add := add[0 := false][1 := false][4 := false][5 := false];
      }
    }
    assert add == [!(w || sw || s), !s, !w, true, !(w || sw || s), !s, !w, true];
    if i < m.nx - 1 && j > 0 {
      if m.At(i + 1, j - 1) == 1 {
        add := add[1 := false][5 := false];
      }
    }
    AddIsUntouched(m, i, j, add);
  }

  lemma AddIsUntouched(m: Mask, i: nat, j: nat, add: seq<bool>)
    requires m.Valid() && i < m.nx && j < m.ny
    requires var w, sw, s, se := m.Active(i - 1, j), m.Active(i - 1, j - 1), m.Active(i, j - 1), m.Active(i + 1, j - 1);
             add == [!(w || sw || s), !(s || se), !w, true, !(w || sw || s), !(s || se), !w, true]
    ensures forall k :: 0 <= k < 8 ==> add[k] == !TouchedBefore(m, CellCorner(i, j, k), i, j)
  {
    TouchedCorners(m, i, j);
    CellCorners(i, j);
    hide Touched, TouchedBefore, CellCorner, Mask.Active;
    forall k | 0 <= k < 8 ensures add[k] == !TouchedBefore(m, CellCorner(i, j, k), i, j) {
      var c := CellCorner(i, j, k);
      assert c.i == i || c.i == i + 1;
      assert c.j == j || c.j == j + 1;
      assert TouchedBefore(m, c, i, j) == TouchedBefore(m, Corner(c.i, c.j, 0), i, j);
    }
  }

  predicate TouchedBefore(m: Mask, c: Corner, i: int, j: int)
    requires m.Valid()
  {
    Touched(m, c.i, c.j, i, j)
  }

  /** Part way through cell (i, j), with corners below k dealt with: p are their points. */
  ghost predicate Making(m: Mask, g: Geometry, points: seq<(real, real)>, labels: seq<Corner>, i: nat, j: nat, k: nat,
                         p: seq<int>)
    requires m.Valid()
  {
    && k <= 8 && |p| == k && Placed(g, points, labels)
    && (forall t :: 0 <= t < |labels| ==> TouchedBefore(m, labels[t], i, j) || Among(labels[t], i, j, k))
    && (forall ci, cj | Touched(m, ci, cj, i, j) :: HasBoth(labels, ci, cj))
    && (forall l :: 0 <= l < k ==> 0 <= p[l] < |labels| && labels[p[l]] == CellCorner(i, j, l))
  }

  /** The corner is one of the first k of the cell. */
  predicate Among(c: Corner, i: nat, j: nat, k: nat) {
    exists l :: 0 <= l < k && l < 8 && CellCorner(i, j, l) == c
  }

  lemma AmongMore(c: Corner, i: nat, j: nat, k: nat)
    requires Among(c, i, j, k)
    ensures Among(c, i, j, k + 1)
  {
    var l :| 0 <= l < k && l < 8 && CellCorner(i, j, l) == c;
    assert l < k + 1;
  }

  lemma NotAmong(i: nat, j: nat, k: nat)
    requires k < 8
    ensures !Among(CellCorner(i, j, k), i, j, k)
  {
    CellCorners(i, j);
  }

  /** Nothing with the corner's coordinates lies above it yet. */
  lemma NothingAbove(m: Mask, labels: seq<Corner>, i: nat, j: nat, k: nat, t: nat)
    requires m.Valid() && k < 8 && t < |labels| && !TouchedBefore(m, CellCorner(i, j, k), i, j)
    requires TouchedBefore(m, labels[t], i, j) || Among(labels[t], i, j, k)
    ensures labels[t] != CellCorner(i, j, k) && !Below(CellCorner(i, j, k), labels[t])
  {
    if Among(labels[t], i, j, k) {
      NotAmong(i, j, k);
      CellCorners(i, j);
      var l :| 0 <= l < k && l < 8 && CellCorner(i, j, l) == labels[t];
    }
  }

  lemma AddNext(m: Mask, g: Geometry, points: seq<(real, real)>, labels: seq<Corner>, i: nat, j: nat, k: nat, p: seq<int>)
    requires m.Valid() && k < 8 && Making(m, g, points, labels, i, j, k, p)
    requires !TouchedBefore(m, CellCorner(i, j, k), i, j)
    ensures var c := CellCorner(i, j, k);
            Making(m, g, points + [g.At(c.i, c.j)], labels + [c], i, j, k + 1, p + [|labels|])
  {
    var c := CellCorner(i, j, k);
    var ls, k' := labels + [c], k + 1;
    assert Among(c, i, j, k');
    forall t | 0 <= t < |labels| ensures labels[t] != c && !Below(c, labels[t]) {
      NothingAbove(m, labels, i, j, k, t);
    }
    forall t | 0 <= t < |ls| ensures TouchedBefore(m, ls[t], i, j) || Among(ls[t], i, j, k') {
      if t < |labels| && Among(labels[t], i, j, k) {
        AmongMore(labels[t], i, j, k);
      }
    }
    hide CellCorner, Among, Touched, Geometry.At;
  }

  lemma FindNext(m: Mask, g: Geometry, points: seq<(real, real)>, labels: seq<Corner>, i: nat, j: nat, k: nat, p: seq<int>,
                 x: int)
    requires m.Valid() && k < 8 && Making(m, g, points, labels, i, j, k, p)
    requires 0 <= x < |labels| && labels[x] == CellCorner(i, j, k)
    ensures Making(m, g, points, labels, i, j, k + 1, p + [x])
  {
    var k' := k + 1;
    forall t | 0 <= t < |labels| ensures TouchedBefore(m, labels[t], i, j) || Among(labels[t], i, j, k') {
      if Among(labels[t], i, j, k) {
        AmongMore(labels[t], i, j, k);
      }
    }
    hide CellCorner, Among, Touched, Geometry.At;
  }

  lemma BothInReach(m: Mask, g: Geometry, points: seq<(real, real)>, labels: seq<Corner>, i: nat, j: nat, k: nat, p: seq<int>)
    requires m.Valid() && k < 8 && Making(m, g, points, labels, i, j, k, p)
    requires TouchedBefore(m, CellCorner(i, j, k), i, j)
    ensures Placed(g, points, labels) && HasBoth(labels, CellCorner(i, j, k).i, CellCorner(i, j, k).j)
    ensures CellCorner(i, j, k).level <= 1 && |p| == k && |points| == |labels|
  {
    hide CellCorner, Among;
    CellCorners(i, j);
  }

  class PointBase {
    var points: seq<(real, real)>
    ghost var labels: seq<Corner>

    ghost predicate Holds(m: Mask, g: Geometry, i: int, j: int)
      requires m.Valid()
      reads this
    {
      Placed(g, points, labels) && Complete(m, labels, i, j)
    }

    constructor (ghost m: Mask, ghost g: Geometry)
      requires m.Valid()
      ensures Holds(m, g, 0, 0) && labels == []
    {
      points := [];
      labels := [];
    }

    /** Makes the points of an active cell that do not exist yet and finds the others. */
    method CellPoints(m: Mask, g: Geometry, i: nat, j: nat) returns (p: seq<int>)
      requires m.Valid() && g.Valid() && m.Active(i, j) && Holds(m, g, i, j)
      modifies this
      ensures Holds(m, g, i + 1, j) && old(labels) <= labels
      ensures |p| == 8 && forall k :: 0 <= k < 8 ==> 0 <= p[k] < |labels| && labels[p[k]] == CellCorner(i, j, k)
    {
      var add := CornersToAdd(m, i, j);
      p := [];
      StartMaking(m, g, points, labels, i, j);
      hide Making, Placed, Complete, CellCorner, TouchedBefore, Geometry.At;
      for k := 0 to 8
        invariant Making(m, g, points, labels, i, j, k, p) && old(labels) <= labels
      {
        var x := MakePoint(m, g, i, j, k, add[k], p);
        p := p + [x];
      }
      DoneMaking(m, g, points, labels, i, j, p);
    }

    /** Point k of a cell: a new one or the one that was made before. */
    method MakePoint(m: Mask, g: Geometry, i: nat, j: nat, k: nat, add: bool, ghost p: seq<int>) returns (x: int)
      requires m.Valid() && g.Valid() && k < 8 && Making(m, g, points, labels, i, j, k, p)
      requires add == !TouchedBefore(m, CellCorner(i, j, k), i, j)
      modifies this
      ensures Making(m, g, points, labels, i, j, k + 1, p + [x]) && old(labels) <= labels
    {
      var c := CellCorner(i, j, k);
      assert |points| == |labels|;
      if add {
        AddNext(m, g, points, labels, i, j, k, p);
        hide *;
        x := |points|;
        points := points + [g.At(c.i, c.j)];
        labels := labels + [c];
      } else {
        BothInReach(m, g, points, labels, i, j, k, p);
        hide *;
        x := FindPoint(g, points, c, labels);
        FindNext(m, g, points, labels, i, j, k, p, x);
      }
    }
  }

  lemma StartMaking(m: Mask, g: Geometry, points: seq<(real, real)>, labels: seq<Corner>, i: nat, j: nat)
    requires m.Valid() && Placed(g, points, labels) && Complete(m, labels, i, j)
    ensures Making(m, g, points, labels, i, j, 0, [])
  {
    hide Placed, Touched;
  }

  /** After an active cell its corners are touched, and no others have been added. */
  lemma TouchedNext(m: Mask, i: nat, j: nat, ci: int, cj: int)
    requires m.Valid() && i < m.nx && j < m.ny
    ensures Touched(m, ci, cj, i + 1, j)
      <==> Touched(m, ci, cj, i, j) || (m.Active(i, j) && (ci == i || ci == i + 1) && (cj == j || cj == j + 1))
  {
  }

  lemma AmongIsCorner(c: Corner, i: nat, j: nat)
    requires Among(c, i, j, 8)
    ensures (c.i == i || c.i == i + 1) && (c.j == j || c.j == j + 1)
  {
    CellCorners(i, j);
    var l :| 0 <= l < 8 && CellCorner(i, j, l) == c;
  }

  /** The corners of the cell have both their points. */
  lemma OwnCorners(labels: seq<Corner>, i: nat, j: nat, p: seq<int>, ci: int, cj: int)
    requires |p| == 8 && (ci == i || ci == i + 1) && (cj == j || cj == j + 1)
    requires forall k :: 0 <= k < 8 ==> 0 <= p[k] < |labels| && labels[p[k]] == CellCorner(i, j, k)
    ensures HasBoth(labels, ci, cj)
  {
    CellCorners(i, j);
    var k := (if ci == i then 0 else 1) + if cj == j then 0 else 2;
    assert labels[p[k]] == CellCorner(i, j, k) && labels[p[k + 4]] == CellCorner(i, j, k + 4);
    hide CellCorner;
  }

  lemma DoneMaking(m: Mask, g: Geometry, points: seq<(real, real)>, labels: seq<Corner>, i: nat, j: nat, p: seq<int>)
    requires m.Valid() && m.Active(i, j) && Making(m, g, points, labels, i, j, 8, p)
    ensures Placed(g, points, labels) && Complete(m, labels, i + 1, j)
    ensures |p| == 8 && forall k :: 0 <= k < 8 ==> 0 <= p[k] < |labels| && labels[p[k]] == CellCorner(i, j, k)
  {
    hide Placed, CellCorner, Touched, HasBoth, Among;
    var i' := i + 1;
    forall t | 0 <= t < |labels| ensures Touched(m, labels[t].i, labels[t].j, i', j) {
      TouchedNext(m, i, j, labels[t].i, labels[t].j);
      if Among(labels[t], i, j, 8) {
        AmongIsCorner(labels[t], i, j);
      }
    }
    forall ci, cj | Touched(m, ci, cj, i', j) ensures HasBoth(labels, ci, cj) {
      TouchedNext(m, i, j, ci, cj);
      if !Touched(m, ci, cj, i, j) {
        OwnCorners(labels, i, j, p, ci, cj);
      }
    }
  }
}
