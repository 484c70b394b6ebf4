/** bgmsfem2pfsol.c: the program as a whole, and what it makes of every element in coordinates. */
module PrismDomain {
  import opened Faces
  import opened PrismMesh
  import opened Reals

  // ----- the elements in coordinates -----

  /** Six times the signed volume of the tetrahedron a, b, c, o; positive if o is in front of a, b, c. */
  function Det(a: Point, b: Point, c: Point, o: Point): real {
    (b.x - a.x) * ((c.y - a.y) * (o.z - a.z) - (c.z - a.z) * (o.y - a.y))
      - (b.y - a.y) * ((c.x - a.x) * (o.z - a.z) - (c.z - a.z) * (o.x - a.x))
      + (b.z - a.z) * ((c.x - a.x) * (o.y - a.y) - (c.y - a.y) * (o.x - a.x))
  }

  /** The triangle u, v, w, turned over if the node o is in front of it. */
  function Turned(p: seq<Point>, u: nat, v: nat, w: nat, o: nat): Tri
    requires u < |p| && v < |p| && w < |p| && o < |p|
  {
    if Det(p[u], p[v], p[w], p[o]) > 0.0 then Tri(v, u, w) else Tri(u, v, w)
  }

  lemma OutwardIsTurned(p: seq<Point>, u: nat, v: nat, w: nat, o: nat)
    requires u < |p| && v < |p| && w < |p| && o < |p|
    ensures Outward(p, Tri(u, v, w), o) == Turned(p, u, v, w, o)
  {
    var a, b, c, d := p[u], p[v], p[w], p[o];
    Expanded(b.x - a.x, b.y - a.y, b.z - a.z, c.x - a.x, c.y - a.y, c.z - a.z, d.x - a.x, d.y - a.y, d.z - a.z);
  }

  lemma Expanded(u0: real, v0: real, w0: real, u1: real, v1: real, w1: real, e: real, f: real, g: real)
    ensures e * (v0 * w1 - v1 * w0) + f * (w0 * u1 - w1 * u0) + g * (u0 * v1 - u1 * v0)
         == u0 * (v1 * g - w1 * f) - v0 * (u1 * g - w1 * e) + w0 * (u1 * f - v1 * e)
  {
  }

  /** Some node does not lie at the elevation of the one below it, and the three lower nodes
      lie at different places in the plan. */
  predicate HasVolume(p: seq<Point>, n: seq<nat>)
    requires IsPrism(n, |p|)
  {
    && (p[n[0]].z != p[n[3]].z || p[n[1]].z != p[n[4]].z || p[n[2]].z != p[n[5]].z)
    && (p[n[0]].x != p[n[1]].x || p[n[0]].y != p[n[1]].y)
    && (p[n[0]].x != p[n[2]].x || p[n[0]].y != p[n[2]].y)
    && (p[n[1]].x != p[n[2]].x || p[n[1]].y != p[n[2]].y)
  }

  lemma KeptIffVolume(p: seq<Point>, n: seq<nat>)
    requires IsPrism(n, |p|)
    ensures HasVolume(p, n) <==> !Skipped(p, n)
  {
  }

  /** The wall over nodes a and b, seen from node c: cut from the one with the smaller number. */
  predicate IsWall(p: seq<Point>, n: seq<nat>, a: nat, b: nat, c: nat, t: Tri, u: Tri)
    requires IsPrism(n, |p|) && a < 3 && b < 3 && c < 3
  {
    if n[a] < n[b] then
      t == Turned(p, n[a], n[b], n[b + 3], n[c]) && u == Turned(p, n[b + 3], n[a + 3], n[a], n[c + 3])
    else
      t == Turned(p, n[b], n[b + 3], n[a + 3], n[c]) && u == Turned(p, n[a + 3], n[a], n[b], n[c + 3])
  }

  /** The eight triangles of an element: the lower base, the upper base and three walls. */
  ghost predicate IsBoundary(p: seq<Point>, n: seq<nat>, ts: seq<Tri>)
    requires IsPrism(n, |p|)
  {
    && |ts| == 8
    && ts[0] == Turned(p, n[0], n[2], n[1],
                       if p[n[0]].z != p[n[3]].z then n[3] else if p[n[2]].z != p[n[5]].z then n[5] else n[4])
    && ts[1] == Turned(p, n[3], n[4], n[5],
                       if p[n[3]].z != p[n[0]].z then n[0] else if p[n[4]].z != p[n[1]].z then n[1] else n[2])
    && IsWall(p, n, 0, 1, 2, ts[2], ts[3]) && IsWall(p, n, 1, 2, 0, ts[4], ts[5]) && IsWall(p, n, 2, 0, 1, ts[6], ts[7])
  }

  lemma WallFaces(p: seq<Point>, n: seq<nat>, a: nat, b: nat, c: nat)
    requires IsPrism(n, |p|) && a < 3 && b < 3 && c < 3
    ensures var q := QuadFaces(p, n[a], n[b], n[b + 3], n[a + 3], n[c], n[c + 3]);
            |q| == 2 && IsWall(p, n, a, b, c, q[0], q[1])
  {
    OutwardIsTurned(p, n[a], n[b], n[b + 3], n[c]);
    OutwardIsTurned(p, n[b + 3], n[a + 3], n[a], n[c + 3]);
    OutwardIsTurned(p, n[b], n[b + 3], n[a + 3], n[c]);
    OutwardIsTurned(p, n[a + 3], n[a], n[b], n[c + 3]);
    hide Outward, Turned;
  }

  lemma BaseFaces(p: seq<Point>, n: seq<nat>)
    requires IsPrism(n, |p|)
    ensures SideFaces(p, n, 0) == [Turned(p, n[0], n[2], n[1],
      if p[n[0]].z != p[n[3]].z then n[3] else if p[n[2]].z != p[n[5]].z then n[5] else n[4])]
    ensures SideFaces(p, n, 1) == [Turned(p, n[3], n[4], n[5],
      if p[n[3]].z != p[n[0]].z then n[0] else if p[n[4]].z != p[n[1]].z then n[1] else n[2])]
  {
    OutwardIsTurned(p, n[0], n[2], n[1], Across(p, n, 0, 2, 1));
    OutwardIsTurned(p, n[3], n[4], n[5], Across(p, n, 3, 4, 5));
    hide Outward, Turned;
  }

  lemma ElementIsBoundary(p: seq<Point>, n: seq<nat>)
    requires IsPrism(n, |p|)
    ensures IsBoundary(p, n, ElementFaces(p, n, 5))
  {
    hide *;
    BaseFaces(p, n);
    WallFaces(p, n, 0, 1, 2);
    WallFaces(p, n, 1, 2, 0);
    WallFaces(p, n, 2, 0, 1);
    ElementParts(p, n);
    SidesAreQuads(p, n);
    JoinedIsBoundary(p, n, SideFaces(p, n, 0), SideFaces(p, n, 1), SideFaces(p, n, 2), SideFaces(p, n, 3), SideFaces(p, n, 4));
  }

  lemma SidesAreQuads(p: seq<Point>, n: seq<nat>)
    requires IsPrism(n, |p|)
    ensures SideFaces(p, n, 2) == QuadFaces(p, n[0], n[1], n[4], n[3], n[2], n[5])
    ensures SideFaces(p, n, 3) == QuadFaces(p, n[1], n[2], n[5], n[4], n[0], n[3])
    ensures SideFaces(p, n, 4) == QuadFaces(p, n[2], n[0], n[3], n[5], n[1], n[4])
  {
    hide QuadFaces;
  }

  lemma JoinedIsBoundary(p: seq<Point>, n: seq<nat>, s0: seq<Tri>, s1: seq<Tri>, s2: seq<Tri>, s3: seq<Tri>, s4: seq<Tri>)
    requires IsPrism(n, |p|)
    requires s0 == [Turned(p, n[0], n[2], n[1],
      if p[n[0]].z != p[n[3]].z then n[3] else if p[n[2]].z != p[n[5]].z then n[5] else n[4])]
    requires s1 == [Turned(p, n[3], n[4], n[5],
      if p[n[3]].z != p[n[0]].z then n[0] else if p[n[4]].z != p[n[1]].z then n[1] else n[2])]
    requires |s2| == 2 && IsWall(p, n, 0, 1, 2, s2[0], s2[1])
    requires |s3| == 2 && IsWall(p, n, 1, 2, 0, s3[0], s3[1])
    requires |s4| == 2 && IsWall(p, n, 2, 0, 1, s4[0], s4[1])
    ensures IsBoundary(p, n, s0 + s1 + s2 + s3 + s4)
  {
    hide Turned, IsWall;
  }

  lemma ElementParts(p: seq<Point>, n: seq<nat>)
    requires IsPrism(n, |p|)
    ensures ElementFaces(p, n, 5) == SideFaces(p, n, 0) + SideFaces(p, n, 1) + SideFaces(p, n, 2) + SideFaces(p, n, 3)
                                     + SideFaces(p, n, 4)
  {
    hide *;
    ElementFrom(p, n, 0);
    ElementFrom(p, n, 1);
    ElementFrom(p, n, 2);
    ElementFrom(p, n, 3);
    ElementFrom(p, n, 4);
    NoFaces(p, n);
  }

  lemma NoFaces(p: seq<Point>, n: seq<nat>)
    requires IsPrism(n, |p|)
    ensures ElementFaces(p, n, 0) == []
  {
  }

  // ----- upright elements -----

  /** The upper nodes stand above the lower ones. */
  predicate Upright(p: seq<Point>, n: seq<nat>)
    requires IsPrism(n, |p|)
  {
    forall j :: 0 <= j < 3 ==> Above(p[n[j]], p[n[j + 3]])
  }

  predicate Above(a: Point, d: Point) {
    d.x == a.x && d.y == a.y && d.z > a.z
  }

  /** Twice the signed area of a, b, o in the plan. */
  function PlanArea(a: Point, b: Point, o: Point): real {
    (b.x - a.x) * (o.y - a.y) - (b.y - a.y) * (o.x - a.x)
  }

  lemma DetTurned(a: Point, b: Point, c: Point, o: Point)
    ensures Det(b, a, c, o) == -Det(a, b, c, o)
  {
    DetOf(b.x - a.x, b.y - a.y, b.z - a.z, c.x - a.x, c.y - a.y, c.z - a.z, o.x - a.x, o.y - a.y, o.z - a.z);
  }

  lemma DetOf(u0: real, v0: real, w0: real, u1: real, v1: real, w1: real, e: real, f: real, g: real)
    ensures -u0 * ((v1 - v0) * (g - w0) - (w1 - w0) * (f - v0)) + v0 * ((u1 - u0) * (g - w0) - (w1 - w0) * (e - u0))
              - w0 * ((u1 - u0) * (f - v0) - (v1 - v0) * (e - u0))
         == -(u0 * (v1 * g - w1 * f) - v0 * (u1 * g - w1 * e) + w0 * (u1 * f - v1 * e))
  {
  }

  /** A node that is on the same side of a triangle as o does not lie in front of it, once turned. */
  lemma TurnedBehind(p: seq<Point>, u: nat, v: nat, w: nat, o: nat, q: Point, h: real, r: real, area: real)
    requires u < |p| && v < |p| && w < |p| && o < |p| && h > 0.0 && r >= 0.0
    requires Det(p[u], p[v], p[w], p[o]) == h * area && Det(p[u], p[v], p[w], q) == r * area
    ensures var t := Turned(p, u, v, w, o); Det(p[t.a], p[t.b], p[t.c], q) <= 0.0
  {
    DetTurned(p[u], p[v], p[w], q);
    hide Det;
    if area > 0.0 {
      assert h * area > 0.0 && r * area >= 0.0;
    } else {
      assert h * -area >= 0.0 && r * -area >= 0.0;
    }
  }

  /** Heights over a base, and depths below one. */
  lemma OverBase(a: Point, b: Point, c: Point, h: real)
    ensures Det(a, b, c, Point(a.x, a.y, a.z + h)) == h * PlanArea(a, b, c)
    ensures Det(a, b, c, Point(b.x, b.y, b.z + h)) == h * PlanArea(a, b, c)
    ensures Det(a, b, c, Point(c.x, c.y, c.z + h)) == h * PlanArea(a, b, c)
  {
    OverBaseAt(b.x - a.x, b.y - a.y, b.z - a.z, c.x - a.x, c.y - a.y, c.z - a.z, h);
  }

  lemma OverBaseAt(u0: real, v0: real, w0: real, u1: real, v1: real, w1: real, h: real)
    ensures u0 * (v1 * h) - v0 * (u1 * h) == h * (u0 * v1 - v0 * u1)
    ensures u0 * (v1 * (w0 + h) - w1 * v0) - v0 * (u1 * (w0 + h) - w1 * u0) + w0 * (u1 * v0 - v1 * u0)
         == h * (u0 * v1 - v0 * u1)
    ensures u0 * (v1 * (w1 + h) - w1 * v1) - v0 * (u1 * (w1 + h) - w1 * u1) + w0 * (u1 * v1 - v1 * u1)
         == h * (u0 * v1 - v0 * u1)
  {
  }

  /** The four triangles that a wall can be cut into: each is as far from o, by a height. */
  lemma OverWall(a: Point, b: Point, ha: real, hb: real, o: Point)
    ensures var d, e := Point(a.x, a.y, a.z + ha), Point(b.x, b.y, b.z + hb);
            && Det(a, b, e, o) == hb * -PlanArea(a, b, o) && Det(e, d, a, o) == ha * -PlanArea(a, b, o)
            && Det(b, e, d, o) == hb * -PlanArea(a, b, o) && Det(d, a, b, o) == ha * -PlanArea(a, b, o)
  {
    OverWallAt(b.x - a.x, b.y - a.y, b.z - a.z, ha, hb, o.x - a.x, o.y - a.y, o.z - a.z);
  }

  lemma OverWallAt(u: real, v: real, w: real, ha: real, hb: real, e: real, f: real, g: real)
    ensures u * (v * g - (w + hb) * f) - v * (u * g - (w + hb) * e) + w * (u * f - v * e) == hb * -(u * f - v * e)
    ensures -u * (-v * (g - w - hb) - (-w - hb) * (f - v)) + v * (-u * (g - w - hb) - (-w - hb) * (e - u))
              + (ha - w - hb) * (-u * (f - v) + v * (e - u)) == ha * -(u * f - v * e)
    ensures hb * (-u * (f - v) + v * (e - u)) == hb * -(u * f - v * e)
    ensures -ha * (u * f - v * e) == ha * -(u * f - v * e)
  {
  }

  lemma NodesAbove(p: seq<Point>, n: seq<nat>, j: nat) returns (h: real)
    requires IsPrism(n, |p|) && Upright(p, n) && j < 3
    ensures h > 0.0 && p[n[j + 3]] == Point(p[n[j]].x, p[n[j]].y, p[n[j]].z + h)
    ensures p[n[j]] == Point(p[n[j + 3]].x, p[n[j + 3]].y, p[n[j + 3]].z - h)
  {
    assert Above(p[n[j]], p[n[j + 3]]);
    h := p[n[j + 3]].z - p[n[j]].z;
  }

  /** The node over or under node i of a base a, b, c is as far from it as it is high. */
  lemma FromBase(a: Point, b: Point, c: Point, q: Point, h: real)
    requires q == Point(a.x, a.y, a.z + h) || q == Point(b.x, b.y, b.z + h) || q == Point(c.x, c.y, c.z + h)
    ensures Det(a, b, c, q) == h * PlanArea(a, b, c)
  {
    OverBase(a, b, c, h);
    hide Det, PlanArea;
  }

  /** No node lies in front of the lower base. */
  lemma LowerBaseBehind(p: seq<Point>, n: seq<nat>, v: nat)
    requires IsPrism(n, |p|) && Upright(p, n) && v < 6
    ensures var t := Turned(p, n[0], n[2], n[1], n[3]); Det(p[t.a], p[t.b], p[t.c], p[n[v]]) <= 0.0
  {
    hide Det, PlanArea, Turned;
    var j := v % 3;
    var h0 := NodesAbove(p, n, 0);
    var h := NodesAbove(p, n, j);
    var a, b, c := p[n[0]], p[n[2]], p[n[1]];
    FromBase(a, b, c, p[n[3]], h0);
    FromBase(a, b, c, p[n[v]], if v < 3 then 0.0 else h);
    TurnedBehind(p, n[0], n[2], n[1], n[3], p[n[v]], h0, if v < 3 then 0.0 else h, PlanArea(a, b, c));
  }

  /** No node lies in front of the upper base. */
  lemma UpperBaseBehind(p: seq<Point>, n: seq<nat>, v: nat)
    requires IsPrism(n, |p|) && Upright(p, n) && v < 6
    ensures var t := Turned(p, n[3], n[4], n[5], n[0]); Det(p[t.a], p[t.b], p[t.c], p[n[v]]) <= 0.0
  {
    hide Det, PlanArea, Turned;
    var j := v % 3;
    var h0 := NodesAbove(p, n, 0);
    var h := NodesAbove(p, n, j);
    var a, b, c := p[n[3]], p[n[4]], p[n[5]];
    var r := if v < 3 then h else 0.0;
    FromBase(a, b, c, p[n[0]], -h0);
    FromBase(a, b, c, p[n[v]], -r);
    MinusTimes(h0, PlanArea(a, b, c));
    MinusTimes(r, PlanArea(a, b, c));
    TurnedBehind(p, n[3], n[4], n[5], n[0], p[n[v]], h0, r, -PlanArea(a, b, c));
  }

  lemma MinusTimes(h: real, area: real)
    ensures -h * area == h * -area
  {
  }

  /** A node does not lie in front of one of the triangles that the wall a, b, e, d can be cut
      into, if it lies over the line a, b in the plan, or on the same side as o. */
  lemma CutBehind(p: seq<Point>, a: nat, b: nat, e: nat, d: nat, o: nat, q: Point, ha: real, hb: real)
    requires a < |p| && b < |p| && e < |p| && d < |p| && o < |p| && ha > 0.0 && hb > 0.0
    requires p[d] == Point(p[a].x, p[a].y, p[a].z + ha) && p[e] == Point(p[b].x, p[b].y, p[b].z + hb)
    requires PlanArea(p[a], p[b], q) == 0.0 || PlanArea(p[a], p[b], q) == PlanArea(p[a], p[b], p[o])
    ensures Behind(p, Turned(p, a, b, e, o), q) && Behind(p, Turned(p, e, d, a, o), q)
    ensures Behind(p, Turned(p, b, e, d, o), q) && Behind(p, Turned(p, d, a, b, o), q)
  {
    OverWall(p[a], p[b], ha, hb, p[o]);
    OverWall(p[a], p[b], ha, hb, q);
    var area := -PlanArea(p[a], p[b], p[o]);
    var on := PlanArea(p[a], p[b], q) == 0.0;
    var ra, rb := if on then 0.0 else ha, if on then 0.0 else hb;
    hide PlanArea, Det, Turned;
    TurnedBehind(p, a, b, e, o, q, hb, rb, area);
    TurnedBehind(p, e, d, a, o, q, ha, ra, area);
    TurnedBehind(p, b, e, d, o, q, hb, rb, area);
    TurnedBehind(p, d, a, b, o, q, ha, ra, area);
  }

  predicate Behind(p: seq<Point>, t: Tri, q: Point) {
    InRange(t, |p|) && Det(p[t.a], p[t.b], p[t.c], q) <= 0.0
  }

  /** No node lies in front of a triangle of the wall over nodes a and b, seen from node c. */
  lemma WallBehind(p: seq<Point>, n: seq<nat>, a: nat, b: nat, c: nat, t: Tri, u: Tri, v: nat)
    requires IsPrism(n, |p|) && Upright(p, n) && v < 6
    requires (a, b, c) == (0, 1, 2) || (a, b, c) == (1, 2, 0) || (a, b, c) == (2, 0, 1)
    requires IsWall(p, n, a, b, c, t, u)
    ensures Behind(p, t, p[n[v]]) && Behind(p, u, p[n[v]])
  {
    hide Det, Turned, Behind;
    var ha := NodesAbove(p, n, a);
    var hb := NodesAbove(p, n, b);
    SeenFrom(p, n, a, b, c, v);
    CutBehind(p, n[a], n[b], n[b + 3], n[a + 3], n[c], p[n[v]], ha, hb);
    CutBehind(p, n[a], n[b], n[b + 3], n[a + 3], n[c + 3], p[n[v]], ha, hb);
  }

  /** Seen in the plan a node lies over the line a, b, or where nodes c and c + 3 do. */
  lemma SeenFrom(p: seq<Point>, n: seq<nat>, a: nat, b: nat, c: nat, v: nat)
    requires IsPrism(n, |p|) && Upright(p, n) && v < 6
    requires (a, b, c) == (0, 1, 2) || (a, b, c) == (1, 2, 0) || (a, b, c) == (2, 0, 1)
    ensures PlanArea(p[n[a]], p[n[b]], p[n[c]]) == PlanArea(p[n[a]], p[n[b]], p[n[c + 3]])
    ensures PlanArea(p[n[a]], p[n[b]], p[n[v]]) == 0.0
            || PlanArea(p[n[a]], p[n[b]], p[n[v]]) == PlanArea(p[n[a]], p[n[b]], p[n[c]])
  {
    assert Above(p[n[0]], p[n[3]]) && Above(p[n[1]], p[n[4]]) && Above(p[n[2]], p[n[5]]) by {
      assert Above(p[n[0]], p[n[0 + 3]]) && Above(p[n[1]], p[n[1 + 3]]) && Above(p[n[2]], p[n[2 + 3]]);
    }
    var j := v % 3;
    assert v == j || v == j + 3;
    assert p[n[v]].x == p[n[j]].x && p[n[v]].y == p[n[j]].y;
    SamePlan(p[n[a]], p[n[b]], p[n[v]], p[n[j]]);
    SamePlan(p[n[a]], p[n[b]], p[n[c + 3]], p[n[c]]);
    hide PlanArea;
    OnLine(p[n[a]], p[n[b]], p[n[v]]);
    assert j == a || j == b || j == c;
  }

  lemma SamePlan(a: Point, b: Point, q: Point, r: Point)
    ensures q.x == r.x && q.y == r.y ==> PlanArea(a, b, q) == PlanArea(a, b, r)
  {
  }

  lemma OnLine(a: Point, b: Point, q: Point)
    ensures q.x == a.x && q.y == a.y ==> PlanArea(a, b, q) == 0.0
    ensures q.x == b.x && q.y == b.y ==> PlanArea(a, b, q) == 0.0
  {
  }

  /** The triangles of an upright element face away from it: no node lies in front of any of them. */
  lemma UprightFacesAway(p: seq<Point>, n: seq<nat>, ts: seq<Tri>, k: nat, v: nat)
    requires IsPrism(n, |p|) && Upright(p, n) && IsBoundary(p, n, ts) && k < 8 && v < 6
    ensures Behind(p, ts[k], p[n[v]])
  {
    assert Above(p[n[0]], p[n[0 + 3]]);
    hide Det, Upright, IsWall;
    if k == 0 {
      LowerBaseBehind(p, n, v);
    } else if k == 1 {
      UpperBaseBehind(p, n, v);
    } else if k < 4 {
      WallBehind(p, n, 0, 1, 2, ts[2], ts[3], v);
    } else if k < 6 {
      WallBehind(p, n, 1, 2, 0, ts[4], ts[5], v);
    } else {
      WallBehind(p, n, 2, 0, 1, ts[6], ts[7], v);
    }
  }

  // ----- the whole table -----

  /** How many of the first m elements have volume. */
  function Solids(p: seq<Point>, elements: seq<seq<nat>>, m: nat): nat
    requires m <= |elements| && AllPrisms(p, elements)
  {
    if m == 0 then 0 else Solids(p, elements, m - 1) + if HasVolume(p, elements[m - 1]) then 1 else 0
  }

  /** Every element with volume has its eight triangles in the table, after those of the elements
      with volume before it; there are no others. */
  ghost predicate HoldsElements(p: seq<Point>, elements: seq<seq<nat>>, ts: seq<Tri>, m: nat)
    requires m <= |elements| && AllPrisms(p, elements)
  {
    && |ts| == 8 * Solids(p, elements, m)
    && forall e :: 0 <= e < m && HasVolume(p, elements[e]) ==> HoldsElement(p, elements, ts, e)
  }

  ghost predicate HoldsElement(p: seq<Point>, elements: seq<seq<nat>>, ts: seq<Tri>, e: nat)
    requires e < |elements| && AllPrisms(p, elements)
  {
    var k := 8 * Solids(p, elements, e);
    k + 8 <= |ts| && IsBoundary(p, elements[e], ts[k..k + 8])
  }

  lemma {:induction false} MeshHoldsElements(p: seq<Point>, elements: seq<seq<nat>>, m: nat)
    requires m <= |elements| && AllPrisms(p, elements)
    ensures HoldsElements(p, elements, MeshFaces(p, elements, m), m)
  {
    if m > 0 {
      var e := m - 1;
      MeshHoldsElements(p, elements, e);
      MeshFacesFrom(p, elements, m);
      KeptIffVolume(p, elements[e]);
      ElementIsBoundary(p, elements[e]);
      hide HasVolume, Skipped, ElementFaces, IsBoundary, MeshFaces;
      NextElement(p, elements, MeshFaces(p, elements, e), KeptFaces(p, elements[e]), e);
    }
  }

  lemma NextElement(p: seq<Point>, elements: seq<seq<nat>>, ts: seq<Tri>, us: seq<Tri>, e: nat)
    requires e < |elements| && AllPrisms(p, elements) && HoldsElements(p, elements, ts, e)
    requires if HasVolume(p, elements[e]) then |us| == 8 && IsBoundary(p, elements[e], us) else us == []
    ensures HoldsElements(p, elements, ts + us, e + 1)
  {
    hide HasVolume, IsBoundary;
    forall d | 0 <= d < e + 1 && HasVolume(p, elements[d]) ensures HoldsElement(p, elements, ts + us, d) {
      var k := 8 * Solids(p, elements, d);
      if d < e {
        assert HoldsElement(p, elements, ts, d);
        assert (ts + us)[k..k + 8] == ts[k..k + 8];
      } else {
        assert (ts + us)[k..k + 8] == us;
      }
    }
  }

  /** The faces are written out in order, with nodes counted from zero. */
  predicate WrittenOut(us: seq<Tri>, out: seq<Written>) {
    |out| == |us| && forall k :: 0 <= k < |us| ==> out[k] == Written(us[k].a - 1, us[k].b - 1, us[k].c - 1)
  }

  lemma ShiftedAt(us: seq<Tri>)
    ensures WrittenOut(us, Shifted(us))
  {
  }

  /** The program on the mesh it has read. */
  method WriteDomain(p: seq<Point>, elements: seq<seq<nat>>)
    returns (faceCount: nat, out: seq<Written>, ghost ts: seq<Tri>, ghost sisters: seq<int>)
    requires AllPrisms(p, elements)
    ensures ts == MeshFaces(p, elements, |elements|) && AllProper(ts) && Paired(ts, sisters)
    ensures HoldsElements(p, elements, ts, |elements|)
    ensures faceCount == |out| && WrittenOut(Unpaired(ts, sisters), out)
    ensures Involution(sisters) <==> AtMostTwice(ts)
    ensures AtMostTwice(ts) ==> forall a, b :: AllSides(Unpaired(ts, sisters), a, b) % 2 == 0
  {
    var t := BuildTable(p, elements);
    ts, sisters := t.ts, t.sisters;
    assert AllProper(ts) && Paired(ts, sisters) && Stored(t.faces, ts, sisters);
    hide *;
    MeshHoldsElements(p, elements, |elements|);
    faceCount := CountBoundary(t.faces, ts, sisters);
    out := ListBoundary(t.faces, ts, sisters);
    ShiftedAt(Unpaired(ts, sisters));
    InvolutionIffAtMostTwice(ts, sisters);
    if AtMostTwice(ts) {
      forall a, b ensures AllSides(Unpaired(ts, sisters), a, b) % 2 == 0 {
        BoundaryIsClosed(p, elements, sisters, a, b);
      }
    }
  }
}
