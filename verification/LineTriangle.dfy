/** IntersectLineWithTriangle of projecttin.c: an axis-parallel line against a
    triangle in space. */
module LineTriangle {
  import opened Reals
  import opened Crossing

  const XDIRECTION := 0
  const YDIRECTION := 1
  const ZDIRECTION := 2

  // ----- coordinates across and along a direction -----

  function Across0(direction: nat, v: Point): real {
    if direction == XDIRECTION then v.y else v.x
  }

  function Across1(direction: nat, v: Point): real {
    if direction == ZDIRECTION then v.y else v.z
  }

  function Along(direction: nat, v: Point): real {
    if direction == XDIRECTION then v.x else if direction == YDIRECTION then v.y else v.z
  }

  datatype Triangle = Triangle(v0: Point, v1: Point, v2: Point)

  function Normal(t: Triangle): Point {
    var u, v := Minus(t.v1, t.v0), Minus(t.v2, t.v0);
    Point(Cross2(u.y, u.z, v.y, v.z), Cross2(u.z, u.x, v.z, v.x), Cross2(u.x, u.y, v.x, v.y))
  }

  function Cross2(a: real, b: real, c: real, d: real): real {
    a * d - c * b
  }

  function Minus(a: Point, b: Point): Point {
    Point(a.x - b.x, a.y - b.y, a.z - b.z)
  }

  /** s0, s1, s2 are weights of a point of the closed triangle. */
  predicate Weights(s0: real, s1: real, s2: real) {
    s0 >= 0.0 && s1 >= 0.0 && s2 >= 0.0 && s0 + s1 + s2 == 1.0
  }

  function Mix(s0: real, s1: real, s2: real, a: real, b: real, c: real): real {
    s0 * a + s1 * b + s2 * c
  }

  /** The point at w on the line along a direction through (c0, c1). */
  function LinePoint(direction: nat, c0: real, c1: real, w: real): Point {
    if direction == 0 then Point(w, c0, c1) else if direction == 1 then Point(c0, w, c1) else Point(c0, c1, w)
  }

  /** The line through (c0, c1) meets the closed triangle at position w along the direction. */
  ghost predicate MeetsAt(direction: nat, c0: real, c1: real, t: Triangle, w: real) {
    exists s0, s1, s2 :: Weights(s0, s1, s2) && LinePoint(direction, c0, c1, w) == Weighted(s0, s1, s2, t)
  }

  function Weighted(s0: real, s1: real, s2: real, t: Triangle): Point {
    Point(s0 * t.v0.x + s1 * t.v1.x + s2 * t.v2.x, s0 * t.v0.y + s1 * t.v1.y + s2 * t.v2.y,
          s0 * t.v0.z + s1 * t.v1.z + s2 * t.v2.z)
  }

  /** The component of the normal of a triangle along a direction. */
  function NormalAlong(direction: nat, t: Triangle): real {
    if direction == 0 then (t.v1.y - t.v0.y) * (t.v2.z - t.v0.z) - (t.v2.y - t.v0.y) * (t.v1.z - t.v0.z)
    else if direction == 1 then (t.v1.z - t.v0.z) * (t.v2.x - t.v0.x) - (t.v2.z - t.v0.z) * (t.v1.x - t.v0.x)
    else (t.v1.x - t.v0.x) * (t.v2.y - t.v0.y) - (t.v2.x - t.v0.x) * (t.v1.y - t.v0.y)
  }

  lemma NormalAlongIs(direction: nat, t: Triangle)
    ensures NormalAlong(direction, t) == Along(direction, Normal(t))
  {
  }

  lemma MeetsWeights(direction: nat, c0: real, c1: real, t: Triangle, w: real) returns (s0: real, s1: real, s2: real)
    requires direction <= 2 && MeetsAt(direction, c0, c1, t, w)
    ensures Weights(s0, s1, s2)
    ensures Mix(s0, s1, s2, Across0(direction, t.v0), Across0(direction, t.v1), Across0(direction, t.v2)) == c0
    ensures Mix(s0, s1, s2, Across1(direction, t.v0), Across1(direction, t.v1), Across1(direction, t.v2)) == c1
    ensures Mix(s0, s1, s2, Along(direction, t.v0), Along(direction, t.v1), Along(direction, t.v2)) == w
  {
    hide Weighted, LinePoint, Mix, Across0, Across1, Along;
    s0, s1, s2 :| Weights(s0, s1, s2) && LinePoint(direction, c0, c1, w) == Weighted(s0, s1, s2, t);
    WeightedMixes(direction, c0, c1, t, w, s0, s1, s2);
  }

  lemma WeightedMixes(direction: nat, c0: real, c1: real, t: Triangle, w: real, s0: real, s1: real, s2: real)
    requires direction <= 2
    ensures LinePoint(direction, c0, c1, w) == Weighted(s0, s1, s2, t)
      <==> (Mix(s0, s1, s2, Across0(direction, t.v0), Across0(direction, t.v1), Across0(direction, t.v2)) == c0
            && Mix(s0, s1, s2, Across1(direction, t.v0), Across1(direction, t.v1), Across1(direction, t.v2)) == c1
            && Mix(s0, s1, s2, Along(direction, t.v0), Along(direction, t.v1), Along(direction, t.v2)) == w)
  {
    var m := Weighted(s0, s1, s2, t);
    assert m.x == Mix(s0, s1, s2, t.v0.x, t.v1.x, t.v2.x) && m.y == Mix(s0, s1, s2, t.v0.y, t.v1.y, t.v2.y);
    assert m.z == Mix(s0, s1, s2, t.v0.z, t.v1.z, t.v2.z);
    hide Weighted, Mix;
  }

  lemma WeightsMeet(direction: nat, c0: real, c1: real, t: Triangle, w: real, s0: real, s1: real, s2: real)
    requires direction <= 2 && Weights(s0, s1, s2)
    requires Mix(s0, s1, s2, Across0(direction, t.v0), Across0(direction, t.v1), Across0(direction, t.v2)) == c0
    requires Mix(s0, s1, s2, Across1(direction, t.v0), Across1(direction, t.v1), Across1(direction, t.v2)) == c1
    requires Mix(s0, s1, s2, Along(direction, t.v0), Along(direction, t.v1), Along(direction, t.v2)) == w
    ensures MeetsAt(direction, c0, c1, t, w)
  {
    WeightedMixes(direction, c0, c1, t, w, s0, s1, s2);
    hide Weighted, Mix, LinePoint;
  }

  // ----- the walk round the projected triangle -----

  function EventAt(p: seq<real>, q: seq<real>, k: nat): Event
    requires |p| == 3 && |q| == 3 && k < 3
  {
    EdgeEvent(q[(k + 2) % 3], p[k], q[k], p[(k + 1) % 3], q[(k + 1) % 3])
  }

  function CrossingsTo(p: seq<real>, q: seq<real>, k: nat): int
    requires |p| == 3 && |q| == 3 && k <= 3
  {
    if k == 0 then 0 else CrossingsTo(p, q, k - 1) + Crossings(EventAt(p, q, k - 1))
  }

  /** The tests on one edge, given the signs at its ends and at the vertex before it. */
  method TestEdge(prevSign: int, sign: int, nextSign: int, p: real, q: real, p': real, q': real, ghost prev: real)
    returns (e: Event)
    requires prevSign == Sign(prev) && sign == Sign(q) && nextSign == Sign(q')
    ensures e == EdgeEvent(prev, p, q, p', q')
  {
    e := Nothing;
    if sign * nextSign < 0 {
      if p > 0.0 && p' > 0.0 {
        e := Cross;
      } else if p >= 0.0 || p' >= 0.0 {
        var d := p - q * ((p' - p) / (q' - q));
        if d > 0.0 {
          e := Cross;
        } else if d == 0.0 {
          e := OnEdge;
        }
      }
    } else if sign == 0 {
      if nextSign == 0 {
        if p * p' <= 0.0 {
          if p == 0.0 {
            e := AtStart;
          } else if p' == 0.0 {
            e := AtEnd;
          } else {
            e := OnEdge;
          }
        }
      } else {
        if p > 0.0 {
          if prevSign * nextSign < 0 {
            e := Cross;
          }
        } else if p == 0.0 {
          e := AtStart;
        }
      }
    }
  }

  method SignHolder(q: real) returns (s: int)
    ensures s == Sign(q)
  {
    if q < 0.0 {
      s := -1;
    } else if q > 0.0 {
      s := 1;
    } else {
      s := 0;
    }
  }

  /** What a boundary event at edge k says about the vertices. */
  lemma EventMeaning(p: seq<real>, q: seq<real>, k: nat)
    requires |p| == 3 && |q| == 3 && k < 3
    ensures EventAt(p, q, k) == OnEdge ==> Turn(p[k], q[k], p[(k + 1) % 3], q[(k + 1) % 3]) == 0.0
    ensures EventAt(p, q, k) == AtStart ==> p[k] == 0.0 && q[k] == 0.0
    ensures EventAt(p, q, k) == AtEnd ==> p[(k + 1) % 3] == 0.0 && q[(k + 1) % 3] == 0.0
  {
    OnEdgeTurn(q[(k + 2) % 3], p[k], q[k], p[(k + 1) % 3], q[(k + 1) % 3]);
  }

  /** Counts the edges that cross the positive axis, stopping at an edge or vertex
      that the origin lies on. */
  method WalkEdges(p: seq<real>, q: seq<real>)
    returns (nCrossings: int, edgeInter: bool, edgeNumber: nat, vertexInter: bool, vertexNumber: nat)
    requires |p| == 3 && |q| == 3
    ensures (vertexInter || edgeInter || nCrossings % 2 == 1) == Found(p[0], q[0], p[1], q[1], p[2], q[2])
    ensures vertexInter ==> vertexNumber < 3 && p[vertexNumber] == 0.0 && q[vertexNumber] == 0.0
    ensures edgeInter ==> edgeNumber < 3 && !vertexInter
    ensures edgeInter ==>
      Turn(p[edgeNumber], q[edgeNumber], p[(edgeNumber + 1) % 3], q[(edgeNumber + 1) % 3]) == 0.0
  {
    hide Turn, EdgeEvent, Found, Sign;
    nCrossings := 0;
    edgeInter, vertexInter, edgeNumber, vertexNumber := false, false, 0, 0;
    var prevSign := SignHolder(q[2]);
    var sign := SignHolder(q[0]);
    var k := 0;
    while k < 3
      invariant k <= 3 && !edgeInter && !vertexInter
      invariant k < 3 ==> prevSign == Sign(q[(k + 2) % 3]) && sign == Sign(q[k])
      invariant nCrossings == CrossingsTo(p, q, k)
      invariant forall i :: 0 <= i < k ==> !Boundary(EventAt(p, q, i))
    {
      var kp1 := (k + 1) % 3;
      var nextSign := SignHolder(q[kp1]);
      var e := TestEdge(prevSign, sign, nextSign, p[k], q[k], p[kp1], q[kp1], q[(k + 2) % 3]);
      EventMeaning(p, q, k);
      match e {
        case Nothing =>
        case Cross =>
          nCrossings := nCrossings + 1;
        case OnEdge =>
          edgeInter, edgeNumber := true, k;
          break;
        case AtStart =>
          vertexInter, vertexNumber := true, k;
          break;
        case AtEnd =>
          vertexInter, vertexNumber := true, kp1;
          break;
      }
      prevSign := sign;
      sign := nextSign;
      k := k + 1;
    }
    WalkFound(p, q, k);
  }

  lemma OnEdgeTurn(prev: real, p: real, q: real, p': real, q': real)
    ensures EdgeEvent(prev, p, q, p', q') == OnEdge ==> Turn(p, q, p', q') == 0.0
  {
    if Sign(q) * Sign(q') < 0 {
      StrictEdge(prev, p, q, p', q');
    }
  }

  lemma WalkFound(p: seq<real>, q: seq<real>, k: nat)
    requires |p| == 3 && |q| == 3 && k <= 3
    ensures k < 3 && Boundary(EventAt(p, q, k)) ==> Found(p[0], q[0], p[1], q[1], p[2], q[2])
    ensures k == 3 && (forall i :: 0 <= i < 3 ==> !Boundary(EventAt(p, q, i))) ==>
      ((CrossingsTo(p, q, 3) % 2 == 1) == Found(p[0], q[0], p[1], q[1], p[2], q[2]))
  {
    hide EdgeEvent;
    assert EventAt(p, q, 0) == EdgeEvent(q[2], p[0], q[0], p[1], q[1]);
    assert EventAt(p, q, 1) == EdgeEvent(q[0], p[1], q[1], p[2], q[2]);
    assert EventAt(p, q, 2) == EdgeEvent(q[1], p[2], q[2], p[0], q[0]);
    assert CrossingsTo(p, q, 3) ==
      Crossings(EventAt(p, q, 0)) + Crossings(EventAt(p, q, 1)) + Crossings(EventAt(p, q, 2)) by {
      assert CrossingsTo(p, q, 1) == Crossings(EventAt(p, q, 0));
    }
  }

  // ----- geometry -----

  /** The corners in coordinates across (shifted to the line) and along the direction. */
  datatype Corner = Corner(p: real, q: real, w: real)

  function CornerOf(direction: nat, c0: real, c1: real, v: Point): Corner {
    Corner(Across0(direction, v) - c0, Across1(direction, v) - c1, Along(direction, v))
  }

  function AreaOf(a: Corner, b: Corner, c: Corner): real {
    Area(a.p, a.q, b.p, b.q, c.p, c.q)
  }

  function InsideOf(a: Corner, b: Corner, c: Corner): bool {
    Inside(a.p, a.q, b.p, b.q, c.p, c.q)
  }

  ghost predicate OnTriangle(s0: real, s1: real, s2: real, a: Corner, b: Corner, c: Corner) {
    Weights(s0, s1, s2) && Mix(s0, s1, s2, a.p, b.p, c.p) == 0.0 && Mix(s0, s1, s2, a.q, b.q, c.q) == 0.0
  }

  lemma AreaIsNormal(direction: nat, c0: real, c1: real, t: Triangle)
    requires direction <= 2
    ensures AreaOf(CornerOf(direction, c0, c1, t.v0), CornerOf(direction, c0, c1, t.v1), CornerOf(direction, c0, c1, t.v2))
         == if direction == YDIRECTION then -Along(direction, Normal(t)) else Along(direction, Normal(t))
  {
    ShiftedArea(Across0(direction, t.v0), Across1(direction, t.v0), Across0(direction, t.v1), Across1(direction, t.v1),
                Across0(direction, t.v2), Across1(direction, t.v2), c0, c1);
  }

  lemma ShiftedArea(x0: real, y0: real, x1: real, y1: real, x2: real, y2: real, c: real, d: real)
    ensures Area(x0 - c, y0 - d, x1 - c, y1 - d, x2 - c, y2 - d) == Cross2(x1 - x0, y1 - y0, x2 - x0, y2 - y0)
  {
  }

  /** Weights exist exactly when the turns do not disagree. */
  lemma InsideGivesWeights(a: Corner, b: Corner, c: Corner) returns (s0: real, s1: real, s2: real)
    requires AreaOf(a, b, c) != 0.0 && InsideOf(a, b, c)
    ensures OnTriangle(s0, s1, s2, a, b, c)
  {
    var t0, t1, t2 := Turn(b.p, b.q, c.p, c.q), Turn(c.p, c.q, a.p, a.q), Turn(a.p, a.q, b.p, b.q);
    var m := t2 + t0 + t1;
    assert m == AreaOf(a, b, c);
    s0, s1, s2 := t0 / m, t1 / m, t2 / m;
    TurnsBalance(a.p, a.q, b.p, b.q, c.p, c.q);
    hide Turn, Area;
    QuotientSign(t0, m);
    QuotientSign(t1, m);
    QuotientSign(t2, m);
    MixQuotient(t0, t1, t2, m, a.p, b.p, c.p);
    MixQuotient(t0, t1, t2, m, a.q, b.q, c.q);
    assert s0 + s1 + s2 == 1.0 by {
      SumQuotient(t0, t1, t2, m);
    }
  }

  lemma QuotientSign(t: real, m: real)
    requires (t >= 0.0 && m > 0.0) || (t <= 0.0 && m < 0.0)
    ensures t / m >= 0.0
  {
  }

  lemma SumQuotient(t0: real, t1: real, t2: real, m: real)
    requires m == t2 + t0 + t1 && m != 0.0
    ensures t0 / m + t1 / m + t2 / m == 1.0
  {
    assert t0 / m + t1 / m + t2 / m == (t0 + t1 + t2) / m;
  }

  lemma MixQuotient(t0: real, t1: real, t2: real, m: real, a: real, b: real, c: real)
    requires m != 0.0 && c * t2 + a * t0 + b * t1 == 0.0
    ensures Mix(t0 / m, t1 / m, t2 / m, a, b, c) == 0.0
  {
    assert t0 / m * a == a * t0 / m;
    assert t1 / m * b == b * t1 / m;
    assert t2 / m * c == c * t2 / m;
    assert a * t0 / m + b * t1 / m + c * t2 / m == (a * t0 + b * t1 + c * t2) / m;
  }

  lemma WeightsGiveInside(s0: real, s1: real, s2: real, a: Corner, b: Corner, c: Corner)
    requires OnTriangle(s0, s1, s2, a, b, c)
    ensures InsideOf(a, b, c)
  {
    var t0, t1, t2 := Turn(b.p, b.q, c.p, c.q), Turn(c.p, c.q, a.p, a.q), Turn(a.p, a.q, b.p, b.q);
    CrossMix(s0, s1, s2, a.p, a.q, b.p, b.q, c.p, c.q);
    CrossMix(s1, s2, s0, b.p, b.q, c.p, c.q, a.p, a.q);
    CrossMix(s2, s0, s1, c.p, c.q, a.p, a.q, b.p, b.q);
    hide Turn;
    Proportional(s0, s1, s2, t0, t1, t2);
    Proportional(s1, s2, s0, t1, t2, t0);
    Proportional(s2, s0, s1, t2, t0, t1);
    ProductSign(s0, t0 + t1 + t2);
    ProductSign(s1, t0 + t1 + t2);
    ProductSign(s2, t0 + t1 + t2);
  }

  lemma CrossMix(s0: real, s1: real, s2: real, p0: real, q0: real, p1: real, q1: real, p2: real, q2: real)
    requires Mix(s0, s1, s2, p0, p1, p2) == 0.0 && Mix(s0, s1, s2, q0, q1, q2) == 0.0
    ensures s1 * Turn(p0, q0, p1, q1) == s2 * Turn(p2, q2, p0, q0)
  {
    assert p0 * Mix(s0, s1, s2, q0, q1, q2) - q0 * Mix(s0, s1, s2, p0, p1, p2)
        == s1 * Turn(p0, q0, p1, q1) - s2 * Turn(p2, q2, p0, q0);
  }

  lemma Proportional(s0: real, s1: real, s2: real, t0: real, t1: real, t2: real)
    requires s0 + s1 + s2 == 1.0 && s1 * t0 == s0 * t1 && s2 * t0 == s0 * t2
    ensures t0 == s0 * (t0 + t1 + t2)
  {
    assert t0 == (s0 + s1 + s2) * t0 == s0 * t0 + s1 * t0 + s2 * t0;
  }

  // ----- the plane of the triangle -----

  function NormalP(a: Corner, b: Corner, c: Corner): real {
    Cross2(b.q - a.q, b.w - a.w, c.q - a.q, c.w - a.w)
  }

  function NormalQ(a: Corner, b: Corner, c: Corner): real {
    Cross2(b.w - a.w, b.p - a.p, c.w - a.w, c.p - a.p)
  }

  /** The line meets the plane of the triangle at position w. */
  predicate OnPlane(a: Corner, b: Corner, c: Corner, w: real) {
    Times(AreaOf(a, b, c), w - a.w) == Times(NormalP(a, b, c), a.p) + Times(NormalQ(a, b, c), a.q)
  }

  lemma PlanePointUnique(a: Corner, b: Corner, c: Corner, w: real, v: real)
    requires AreaOf(a, b, c) != 0.0 && OnPlane(a, b, c, w) && OnPlane(a, b, c, v)
    ensures w == v
  {
    var m := AreaOf(a, b, c);
    assert m * (w - a.w) == m * (v - a.w);
    Cancel(m, w - a.w, v - a.w);
  }

  lemma Cancel(m: real, x: real, y: real)
    requires m != 0.0 && m * x == m * y
    ensures x == y
  {
    assert m * x / m == x && m * y / m == y;
  }

  function Dot3(x: real, y: real, z: real, x': real, y': real, z': real): real {
    Times(x, x') + Times(y, y') + Times(z, z')
  }

  /** An affine combination of the corners that lies on the line lies on the plane. */
  lemma AffineOnPlane(s0: real, s1: real, s2: real, a: Corner, b: Corner, c: Corner)
    requires s0 + s1 + s2 == 1.0
    requires Mix(s0, s1, s2, a.p, b.p, c.p) == 0.0 && Mix(s0, s1, s2, a.q, b.q, c.q) == 0.0
    ensures OnPlane(a, b, c, Mix(s0, s1, s2, a.w, b.w, c.w))
  {
    hide Mix, Times, Cross2, Area;
    var np, nq, nw := NormalP(a, b, c), NormalQ(a, b, c), AreaOf(a, b, c);
    var w := Mix(s0, s1, s2, a.w, b.w, c.w);
    var x1, y1, z1, x2, y2, z2 := b.p - a.p, b.q - a.q, b.w - a.w, c.p - a.p, c.q - a.q, c.w - a.w;
    PlainArea(a, b, c);
    FromFirst(s0, s1, s2, a.p, b.p, c.p);
    FromFirst(s0, s1, s2, a.q, b.q, c.q);
    FromFirst(s0, s1, s2, a.w, b.w, c.w);
    NormalOrthogonal(x1, y1, z1, x2, y2, z2);
    TwoEdges(np, nq, nw, s1, s2, x1, y1, z1, x2, y2, z2);
    Negated(np, a.p);
    Negated(nq, a.q);
  }

  lemma PlainArea(a: Corner, b: Corner, c: Corner)
    ensures AreaOf(a, b, c) == Cross2(b.p - a.p, b.q - a.q, c.p - a.p, c.q - a.q)
  {
    ShiftedArea(a.p, a.q, b.p, b.q, c.p, c.q, 0.0, 0.0);
  }

  lemma Negated(n: real, x: real)
    ensures Times(n, 0.0 - x) == -Times(n, x)
  {
  }

  lemma FromFirst(s0: real, s1: real, s2: real, a: real, b: real, c: real)
    requires s0 + s1 + s2 == 1.0
    ensures Mix(s0, s1, s2, a, b, c) - a == Times(s1, b - a) + Times(s2, c - a)
  {
    assert s0 * a == (1.0 - s1 - s2) * a;
  }

  lemma NormalOrthogonal(x1: real, y1: real, z1: real, x2: real, y2: real, z2: real)
    ensures Dot3(Cross2(y1, z1, y2, z2), Cross2(z1, x1, z2, x2), Cross2(x1, y1, x2, y2), x1, y1, z1) == 0.0
    ensures Dot3(Cross2(y1, z1, y2, z2), Cross2(z1, x1, z2, x2), Cross2(x1, y1, x2, y2), x2, y2, z2) == 0.0
  {
  }

  lemma TwoEdges(np: real, nq: real, nw: real, s1: real, s2: real,
                 x1: real, y1: real, z1: real, x2: real, y2: real, z2: real)
    requires Dot3(np, nq, nw, x1, y1, z1) == 0.0 && Dot3(np, nq, nw, x2, y2, z2) == 0.0
    ensures Dot3(np, nq, nw, Times(s1, x1) + Times(s2, x2), Times(s1, y1) + Times(s2, y2), Times(s1, z1) + Times(s2, z2)) == 0.0
  {
    assert np * (s1 * x1 + s2 * x2) + nq * (s1 * y1 + s2 * y2) + nw * (s1 * z1 + s2 * z2)
        == s1 * (np * x1 + nq * y1 + nw * z1) + s2 * (np * x2 + nq * y2 + nw * z2);
  }

  // ----- the intersection point -----

  function Quotient(a: real, b: real): real
    requires b != 0.0
  {
    a / b
  }

  /** Interpolation along an edge, from whichever end has the smaller coordinate. */
  method EdgePoint(direction: nat, c0: real, c1: real, p0: Point, p1: Point) returns (ok: bool, point: real)
    requires direction <= 2
    ensures ok == (Across0(direction, p0) != Across0(direction, p1) || Across1(direction, p0) != Across1(direction, p1))
    ensures ok ==> point == Interpolated(direction, c0, c1, p0, p1)
  {
    hide Times, Quotient;
    var d := Minus(p1, p0);
    var a, b, coord, differential := 0.0, 0.0, 0.0, 0.0;
    ok := true;
    if direction == XDIRECTION {
      if p0.y < p1.y {
        a, b, coord, differential := p0.x, p0.y, c0, Quotient(d.x, d.y);
      } else if p0.y > p1.y {
        a, b, coord, differential := p1.x, p1.y, c0, Quotient(d.x, d.y);
      } else if p0.z < p1.z {
        a, b, coord, differential := p0.x, p0.z, c1, Quotient(d.x, d.z);
      } else if p0.z > p1.z {
        a, b, coord, differential := p1.x, p1.z, c1, Quotient(d.x, d.z);
      } else {
        ok := false;
      }
    }
    if direction == YDIRECTION {
      if p0.x < p1.x {
        a, b, coord, differential := p0.y, p0.x, c0, Quotient(d.y, d.x);
      } else if p0.x > p1.x {
        a, b, coord, differential := p1.y, p1.x, c0, Quotient(d.y, d.x);
      } else if p0.z < p1.z {
        a, b, coord, differential := p0.y, p0.z, c1, Quotient(d.y, d.z);
      } else if p0.z > p1.z {
        a, b, coord, differential := p1.y, p1.z, c1, Quotient(d.y, d.z);
      } else {
        ok := false;
      }
    }
    if direction == ZDIRECTION {
      if p0.x < p1.x {
        a, b, coord, differential := p0.z, p0.x, c0, Quotient(d.z, d.x);
      } else if p0.x > p1.x {
        a, b, coord, differential := p1.z, p1.x, c0, Quotient(d.z, d.x);
      } else if p0.y < p1.y {
        a, b, coord, differential := p0.z, p0.y, c1, Quotient(d.z, d.y);
      } else if p0.y > p1.y {
        a, b, coord, differential := p1.z, p1.y, c1, Quotient(d.z, d.y);
      } else {
        ok := false;
      }
    }
    point := a + Times(coord - b, differential);
    EitherEnd(Across0(direction, p0), Along(direction, p0), Across0(direction, p1), Along(direction, p1), c0);
    EitherEnd(Across1(direction, p0), Along(direction, p0), Across1(direction, p1), Along(direction, p1), c1);
  }

  /** How far along the edge from p0 to p1 the line lies. */
  function Fraction(direction: nat, c0: real, c1: real, p0: Point, p1: Point): real
    requires Across0(direction, p0) != Across0(direction, p1) || Across1(direction, p0) != Across1(direction, p1)
  {
    if Across0(direction, p0) != Across0(direction, p1) then
      Quotient(c0 - Across0(direction, p0), Across0(direction, p1) - Across0(direction, p0))
    else
      Quotient(c1 - Across1(direction, p0), Across1(direction, p1) - Across1(direction, p0))
  }

  function Interpolated(direction: nat, c0: real, c1: real, p0: Point, p1: Point): real
    requires Across0(direction, p0) != Across0(direction, p1) || Across1(direction, p0) != Across1(direction, p1)
  {
    Along(direction, p0) + Times(Fraction(direction, c0, c1, p0, p1), Along(direction, p1) - Along(direction, p0))
  }

  lemma EitherEnd(u: real, w: real, u': real, w': real, c: real)
    ensures u != u' ==>
      w + Times(c - u, Quotient(w' - w, u' - u)) == w + Times(Quotient(c - u, u' - u), w' - w)
    ensures u != u' ==>
      w' + Times(c - u', Quotient(w' - w, u' - u)) == w + Times(Quotient(c - u, u' - u), w' - w)
  {
    if u != u' {
      var d, e := u' - u, w' - w;
      assert (c - u) * (e / d) == (c - u) / d * e;
      assert (c - u') * (e / d) == (c - u) * (e / d) - d * (e / d);
      assert d * (e / d) == e;
    }
  }

  // ----- the whole routine -----

  /** Weights in corner coordinates are weights in space. */
  lemma OnTriangleMeets(direction: nat, c0: real, c1: real, t: Triangle, s0: real, s1: real, s2: real)
    ensures OnTriangle(s0, s1, s2, CornerOf(direction, c0, c1, t.v0), CornerOf(direction, c0, c1, t.v1),
                       CornerOf(direction, c0, c1, t.v2))
      <==> (Weights(s0, s1, s2)
        && Mix(s0, s1, s2, Across0(direction, t.v0), Across0(direction, t.v1), Across0(direction, t.v2)) == c0
        && Mix(s0, s1, s2, Across1(direction, t.v0), Across1(direction, t.v1), Across1(direction, t.v2)) == c1)
  {
    hide Across0, Across1, Along;
    if Weights(s0, s1, s2) {
      MixShift(s0, s1, s2, Across0(direction, t.v0), Across0(direction, t.v1), Across0(direction, t.v2), c0);
      MixShift(s0, s1, s2, Across1(direction, t.v0), Across1(direction, t.v1), Across1(direction, t.v2), c1);
      hide Mix;
    }
  }

  lemma MixShift(s0: real, s1: real, s2: real, a: real, b: real, c: real, d: real)
    requires s0 + s1 + s2 == 1.0
    ensures Mix(s0, s1, s2, a - d, b - d, c - d) == Mix(s0, s1, s2, a, b, c) - d
  {
    assert (s0 + s1 + s2) * d == s0 * d + s1 * d + s2 * d;
  }

  /** When the test succeeds, the line meets the triangle where the plane says. */
  lemma FoundMeets(direction: nat, c0: real, c1: real, t: Triangle, a: Corner, b: Corner, c: Corner, w: real)
    requires a == CornerOf(direction, c0, c1, t.v0) && b == CornerOf(direction, c0, c1, t.v1)
    requires c == CornerOf(direction, c0, c1, t.v2) && direction <= 2
    requires AreaOf(a, b, c) != 0.0 && Found(a.p, a.q, b.p, b.q, c.p, c.q) && OnPlane(a, b, c, w)
    ensures MeetsAt(direction, c0, c1, t, w)
  {
    hide Found, Inside, Area, Across0, Across1, Along, OnPlane, Mix;
    CrossingTestExact(a.p, a.q, b.p, b.q, c.p, c.q);
    var s0, s1, s2 := InsideGivesWeights(a, b, c);
    AffineOnPlane(s0, s1, s2, a, b, c);
    PlanePointUnique(a, b, c, w, Mix(s0, s1, s2, a.w, b.w, c.w));
    OnTriangleMeets(direction, c0, c1, t, s0, s1, s2);
    hide MeetsAt;
    WeightsMeet(direction, c0, c1, t, w, s0, s1, s2);
  }

  /** When the test fails, the line misses the triangle. */
  lemma MissedMisses(direction: nat, c0: real, c1: real, t: Triangle, a: Corner, b: Corner, c: Corner)
    requires a == CornerOf(direction, c0, c1, t.v0) && b == CornerOf(direction, c0, c1, t.v1)
    requires c == CornerOf(direction, c0, c1, t.v2) && direction <= 2
    requires AreaOf(a, b, c) != 0.0 && !Found(a.p, a.q, b.p, b.q, c.p, c.q)
    ensures !exists w :: MeetsAt(direction, c0, c1, t, w)
  {
    if w :| MeetsAt(direction, c0, c1, t, w) {
      hide Found, Inside, Area, Across0, Across1, Along, Mix;
      var s0, s1, s2 := MeetsWeights(direction, c0, c1, t, w);
      OnTriangleMeets(direction, c0, c1, t, s0, s1, s2);
      WeightsGiveInside(s0, s1, s2, a, b, c);
      CrossingTestExact(a.p, a.q, b.p, b.q, c.p, c.q);
    }
  }

  lemma VertexOnPlane(a: Corner, b: Corner, c: Corner)
    ensures a.p == 0.0 && a.q == 0.0 ==> OnPlane(a, b, c, a.w)
    ensures b.p == 0.0 && b.q == 0.0 ==> OnPlane(a, b, c, b.w)
    ensures c.p == 0.0 && c.q == 0.0 ==> OnPlane(a, b, c, c.w)
  {
    hide OnPlane;
    if a.p == 0.0 && a.q == 0.0 {
      AffineOnPlane(1.0, 0.0, 0.0, a, b, c);
    }
    if b.p == 0.0 && b.q == 0.0 {
      AffineOnPlane(0.0, 1.0, 0.0, a, b, c);
    }
    if c.p == 0.0 && c.q == 0.0 {
      AffineOnPlane(0.0, 0.0, 1.0, a, b, c);
    }
  }

  /** On an edge through the line, the fraction along the edge puts both coordinates on the line. */
  lemma FractionHits(p: real, q: real, p': real, q': real)
    requires Turn(p, q, p', q') == 0.0
    ensures p != p' ==> p + Quotient(-p, p' - p) * (p' - p) == 0.0 && q + Quotient(-p, p' - p) * (q' - q) == 0.0
    ensures p == p' && q != q' ==> p == 0.0 && q + Quotient(-q, q' - q) * (q' - q) == 0.0
  {
    if p != p' {
      var d := p' - p;
      var f := -p / d;
      assert f * d == -p;
      assert (q + f * (q' - q)) * d == q * d + (f * d) * (q' - q);
      assert q * d - p * (q' - q) == 0.0;
      assert (q + f * (q' - q)) * d == 0.0;
    } else if q != q' {
      var d := q' - q;
      assert -q / d * d == -q;
      assert p * d == 0.0;
    }
  }

  lemma EdgeOnPlane(direction: nat, c0: real, c1: real, v: Point, v': Point, f: real)
    requires Across0(direction, v) != Across0(direction, v') || Across1(direction, v) != Across1(direction, v')
    requires f == Fraction(direction, c0, c1, v, v')
    requires Turn(Across0(direction, v) - c0, Across1(direction, v) - c1,
                  Across0(direction, v') - c0, Across1(direction, v') - c1) == 0.0
    ensures Across0(direction, v) - c0 + Times(f, Across0(direction, v') - Across0(direction, v)) == 0.0
    ensures Across1(direction, v) - c1 + Times(f, Across1(direction, v') - Across1(direction, v)) == 0.0
  {
    hide Across0, Across1, Turn;
    FractionHits(Across0(direction, v) - c0, Across1(direction, v) - c1,
                 Across0(direction, v') - c0, Across1(direction, v') - c1);
  }

  lemma EdgeMix(a: Corner, b: Corner, c: Corner, f: real)
    requires a.p + Times(f, b.p - a.p) == 0.0 && a.q + Times(f, b.q - a.q) == 0.0
    ensures OnPlane(a, b, c, a.w + Times(f, b.w - a.w))
    ensures OnPlane(c, a, b, a.w + Times(f, b.w - a.w))
    ensures OnPlane(b, c, a, a.w + Times(f, b.w - a.w))
  {
    TwoMix(a.p, b.p, c.p, f);
    TwoMix(a.q, b.q, c.q, f);
    TwoMix(a.w, b.w, c.w, f);
    hide OnPlane, Mix, Times;
    AffineOnPlane(1.0 - f, f, 0.0, a, b, c);
    AffineOnPlane(0.0, 1.0 - f, f, c, a, b);
    AffineOnPlane(f, 0.0, 1.0 - f, b, c, a);
  }

  lemma TwoMix(a: real, b: real, c: real, f: real)
    ensures Mix(1.0 - f, f, 0.0, a, b, c) == a + Times(f, b - a)
    ensures Mix(0.0, 1.0 - f, f, c, a, b) == a + Times(f, b - a)
    ensures Mix(f, 0.0, 1.0 - f, b, c, a) == a + Times(f, b - a)
  {
  }

  /** The interpolated point of an edge through the line is on the plane. */
  lemma EdgePointOnPlane(direction: nat, c0: real, c1: real, v: Point, v': Point, other: Point)
    requires direction <= 2
    requires var a, b := CornerOf(direction, c0, c1, v), CornerOf(direction, c0, c1, v');
      Turn(a.p, a.q, b.p, b.q) == 0.0
    requires AreaOf(CornerOf(direction, c0, c1, v), CornerOf(direction, c0, c1, v'), CornerOf(direction, c0, c1, other)) != 0.0
    ensures Across0(direction, v) != Across0(direction, v') || Across1(direction, v) != Across1(direction, v')
    ensures var a, b, c, w := CornerOf(direction, c0, c1, v), CornerOf(direction, c0, c1, v'),
                              CornerOf(direction, c0, c1, other), Interpolated(direction, c0, c1, v, v');
      OnPlane(a, b, c, w) && OnPlane(c, a, b, w) && OnPlane(b, c, a, w)
  {
    hide Across0, Across1, Along, OnPlane, Turn, Area, AreaOf, Fraction, Times;
    var a, b, c := CornerOf(direction, c0, c1, v), CornerOf(direction, c0, c1, v'), CornerOf(direction, c0, c1, other);
    SameCornerNoArea(a, b, c);
    var f := Fraction(direction, c0, c1, v, v');
    EdgeOnPlane(direction, c0, c1, v, v', f);
    EdgeMix(a, b, c, f);
  }

  lemma SameCornerNoArea(a: Corner, b: Corner, c: Corner)
    ensures a.p == b.p && a.q == b.q ==> AreaOf(a, b, c) == 0.0
  {
  }

  /** The plane equation solved for the coordinate along the line. */
  method PlanePoint(direction: nat, c0: real, c1: real, t: Triangle) returns (point: real)
    requires direction <= 2 && Along(direction, Normal(t)) != 0.0
    ensures OnPlane(CornerOf(direction, c0, c1, t.v0), CornerOf(direction, c0, c1, t.v1),
                    CornerOf(direction, c0, c1, t.v2), point)
  {
    var n := Normal(t);
    hide Times, Quotient, Normal;
    var d := Times(n.x, t.v0.x) + Times(n.y, t.v0.y) + Times(n.z, t.v0.z);
    point := 0.0;
    if direction == XDIRECTION {
      point := Quotient(d - Times(n.y, c0) - Times(n.z, c1), n.x);
    }
    if direction == YDIRECTION {
      point := Quotient(d - Times(n.x, c0) - Times(n.z, c1), n.y);
    }
    if direction == ZDIRECTION {
      point := Quotient(d - Times(n.x, c0) - Times(n.y, c1), n.z);
    }
    SolvedPlane(direction, c0, c1, t, n, point);
  }

  lemma SolvedPlane(direction: nat, c0: real, c1: real, t: Triangle, n: Point, w: real)
    requires direction <= 2 && n == Normal(t) && Along(direction, n) != 0.0
    requires w == Quotient(Times(n.x, t.v0.x) + Times(n.y, t.v0.y) + Times(n.z, t.v0.z)
      - Times(Across0(direction, n), c0) - Times(Across1(direction, n), c1), Along(direction, n))
    ensures OnPlane(CornerOf(direction, c0, c1, t.v0), CornerOf(direction, c0, c1, t.v1),
                    CornerOf(direction, c0, c1, t.v2), w)
  {
    hide Normal, NormalP, NormalQ, AreaOf, Times, Quotient;
    var d := Times(n.x, t.v0.x) + Times(n.y, t.v0.y) + Times(n.z, t.v0.z);
    CornerNormal(direction, c0, c1, t);
    DotByDirection(direction, n, t.v0);
    Balanced(Along(direction, n), Across0(direction, n), Across1(direction, n),
             Along(direction, t.v0), Across0(direction, t.v0), Across1(direction, t.v0), c0, c1, w, d);
    hide Across0, Across1, Along;
  }

  lemma DotByDirection(direction: nat, n: Point, v: Point)
    requires direction <= 2
    ensures Times(n.x, v.x) + Times(n.y, v.y) + Times(n.z, v.z) == Times(Along(direction, n), Along(direction, v))
      + Times(Across0(direction, n), Across0(direction, v)) + Times(Across1(direction, n), Across1(direction, v))
  {
    hide Times;
  }

  /** The normal in corner coordinates is the normal in space, up to the order of the axes. */
  lemma CornerNormal(direction: nat, c0: real, c1: real, t: Triangle)
    requires direction <= 2
    ensures var a, b, c, n := CornerOf(direction, c0, c1, t.v0), CornerOf(direction, c0, c1, t.v1),
                              CornerOf(direction, c0, c1, t.v2), Normal(t);
      if direction == YDIRECTION then
        AreaOf(a, b, c) == -Along(direction, n) && NormalP(a, b, c) == -Across0(direction, n)
        && NormalQ(a, b, c) == -Across1(direction, n)
      else
        AreaOf(a, b, c) == Along(direction, n) && NormalP(a, b, c) == Across0(direction, n)
        && NormalQ(a, b, c) == Across1(direction, n)
  {
    AreaIsNormal(direction, c0, c1, t);
    hide Cross2;
    hide AreaOf;
    var u, v := Minus(t.v1, t.v0), Minus(t.v2, t.v0);
    CrossTurns(u.x, u.y, v.x, v.y);
    CrossTurns(u.y, u.z, v.y, v.z);
    CrossTurns(u.z, u.x, v.z, v.x);
  }

  lemma CrossTurns(a: real, b: real, c: real, d: real)
    ensures Cross2(b, a, d, c) == -Cross2(a, b, c, d)
  {
  }

  lemma Balanced(m: real, n0: real, n1: real, w0: real, u0: real, v0: real, c0: real, c1: real, w: real, d: real)
    requires m != 0.0 && d == Times(m, w0) + Times(n0, u0) + Times(n1, v0) && w == Quotient(d - Times(n0, c0) - Times(n1, c1), m)
    ensures Times(m, w - w0) == Times(n0, u0 - c0) + Times(n1, v0 - c1)
    ensures Times(-m, w - w0) == Times(-n0, u0 - c0) + Times(-n1, v0 - c1)
  {
    assert m * w == d - n0 * c0 - n1 * c1;
  }

  lemma RotatedPlane(a: Corner, b: Corner, c: Corner, w: real)
    ensures AreaOf(b, c, a) == AreaOf(a, b, c) == AreaOf(c, a, b)
  {
  }

  /** Intersects the line through (c0, c1) along a coordinate direction with a
      triangle.  For any other direction value the source's coordinates are not
      numbers and every test fails. */
  method IntersectLineWithTriangle(direction: nat, c0: real, c1: real, t: Triangle)
    returns (intersects: bool, point: real, normalComponent: int)
    ensures direction > 2 ==> !intersects
    ensures direction <= 2 ==>
      (intersects <==> NormalAlong(direction, t) != 0.0 && exists w :: MeetsAt(direction, c0, c1, t, w))
    ensures intersects ==> MeetsAt(direction, c0, c1, t, point)
    ensures normalComponent == if !intersects then 0 else if NormalAlong(direction, t) > 0.0 then 1 else -1
    ensures !intersects ==> point == 0.0
  {
    intersects, point, normalComponent := false, 0.0, 0;
    var p, q;
    if direction == XDIRECTION {
      p := [t.v0.y - c0, t.v1.y - c0, t.v2.y - c0];
      q := [t.v0.z - c1, t.v1.z - c1, t.v2.z - c1];
    } else if direction == YDIRECTION {
      p := [t.v0.x - c0, t.v1.x - c0, t.v2.x - c0];
      q := [t.v0.z - c1, t.v1.z - c1, t.v2.z - c1];
    } else if direction == ZDIRECTION {
      p := [t.v0.x - c0, t.v1.x - c0, t.v2.x - c0];
      q := [t.v0.y - c1, t.v1.y - c1, t.v2.y - c1];
    } else {
      return;
    }
    ghost var a, b, c := CornerOf(direction, c0, c1, t.v0), CornerOf(direction, c0, c1, t.v1), CornerOf(direction, c0, c1, t.v2);
    assert p == [a.p, b.p, c.p] && q == [a.q, b.q, c.q];
    AreaIsNormal(direction, c0, c1, t);
    NormalAlongIs(direction, t);
    hide Found, Turn, MeetsAt, Area, OnPlane, NormalAlong, Normal;
    var nCrossings, edgeInter, edgeNumber, vertexInter, vertexNumber := WalkEdges(p, q);
    if vertexInter || edgeInter || nCrossings % 2 == 1 {
      normalComponent := NormalSign(direction, t);
      intersects := normalComponent != 0;
      if intersects && vertexInter {
        point := VertexPoint(direction, t, vertexNumber);
        VertexOnPlane(a, b, c);
      } else if intersects && edgeInter {
        point := PointOnEdge(direction, c0, c1, t, edgeNumber);
      } else if intersects {
        point := PlanePoint(direction, c0, c1, t);
      }
      if intersects {
        FoundMeets(direction, c0, c1, t, a, b, c, point);
      }
    } else if Along(direction, Normal(t)) != 0.0 {
      MissedMisses(direction, c0, c1, t, a, b, c);
    }
  }

  /** The sign of the component of the normal along the line. */
  method NormalSign(direction: nat, t: Triangle) returns (s: int)
    requires direction <= 2
    ensures s == Sign(Along(direction, Normal(t)))
  {
    var n := Normal(t);
    s := 0;
    if direction == XDIRECTION && n.x != 0.0 {
      s := if n.x > 0.0 then 1 else -1;
    }
    if direction == YDIRECTION && n.y != 0.0 {
      s := if n.y > 0.0 then 1 else -1;
    }
    if direction == ZDIRECTION && n.z != 0.0 {
      s := if n.z > 0.0 then 1 else -1;
    }
  }

  method VertexPoint(direction: nat, t: Triangle, vertexNumber: nat) returns (point: real)
    requires direction <= 2 && vertexNumber < 3
    ensures point == Along(direction, if vertexNumber == 0 then t.v0 else if vertexNumber == 1 then t.v1 else t.v2)
  {
    var v := if vertexNumber == 0 then t.v0 else if vertexNumber == 1 then t.v1 else t.v2;
    point := if direction == XDIRECTION then v.x else if direction == YDIRECTION then v.y else v.z;
  }

  method PointOnEdge(direction: nat, c0: real, c1: real, t: Triangle, edgeNumber: nat) returns (point: real)
    requires direction <= 2 && edgeNumber < 3
    requires var a, b, c := CornerOf(direction, c0, c1, t.v0), CornerOf(direction, c0, c1, t.v1), CornerOf(direction, c0, c1, t.v2);
      && AreaOf(a, b, c) != 0.0
      && (edgeNumber == 0 ==> Turn(a.p, a.q, b.p, b.q) == 0.0)
      && (edgeNumber == 1 ==> Turn(b.p, b.q, c.p, c.q) == 0.0)
      && (edgeNumber == 2 ==> Turn(c.p, c.q, a.p, a.q) == 0.0)
    ensures OnPlane(CornerOf(direction, c0, c1, t.v0), CornerOf(direction, c0, c1, t.v1),
                    CornerOf(direction, c0, c1, t.v2), point)
  {
    ghost var a, b, c := CornerOf(direction, c0, c1, t.v0), CornerOf(direction, c0, c1, t.v1), CornerOf(direction, c0, c1, t.v2);
    RotatedPlane(a, b, c, 0.0);
    hide Across0, Across1, Along, Turn, Area, OnPlane, Interpolated;
    var v, v';
    if edgeNumber == 0 {
      v, v' := t.v0, t.v1;
      EdgePointOnPlane(direction, c0, c1, v, v', t.v2);
    } else if edgeNumber == 1 {
      v, v' := t.v1, t.v2;
      EdgePointOnPlane(direction, c0, c1, v, v', t.v0);
    } else {
      v, v' := t.v2, t.v0;
      EdgePointOnPlane(direction, c0, c1, v, v', t.v1);
    }
    var ok;
    ok, point := EdgePoint(direction, c0, c1, v, v');
  }
}
