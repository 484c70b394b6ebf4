/** The crossing test of projecttin.c in the plane: how the signs met while walking
    round a projected triangle decide whether the origin is inside it. */
module Crossing {

  /** What one edge of the walk contributes. */
  datatype Event = Nothing | Cross | OnEdge | AtStart | AtEnd

  predicate Boundary(e: Event) {
    e.OnEdge? || e.AtStart? || e.AtEnd?
  }

  function Sign(x: real): int {
    if x < 0.0 then -1 else if x > 0.0 then 1 else 0
  }

  /** The edge from (p, q) to (p', q'), where prev is the second coordinate of the
      vertex before (p, q). */
  function EdgeEvent(prev: real, p: real, q: real, p': real, q': real): Event {
    if Sign(q) * Sign(q') < 0 then
      if p > 0.0 && p' > 0.0 then Cross
      else if p >= 0.0 || p' >= 0.0 then
        var d := p - q * ((p' - p) / (q' - q));
        if d > 0.0 then Cross else if d == 0.0 then OnEdge else Nothing
      else Nothing
    else if Sign(q) == 0 then
      if Sign(q') == 0 then
        if p * p' <= 0.0 then
          if p == 0.0 then AtStart else if p' == 0.0 then AtEnd else OnEdge
        else Nothing
      else if p > 0.0 then
        if Sign(prev) * Sign(q') < 0 then Cross else Nothing
      else if p == 0.0 then AtStart
      else Nothing
    else Nothing
  }

  /** Twice the signed area of the origin and two points. */
  function Turn(p: real, q: real, p': real, q': real): real {
    p * q' - q * p'
  }

  /** The origin is inside or on the triangle: it is nowhere strictly on one side of
      one edge and strictly on the other side of another. */
  predicate Inside(p0: real, q0: real, p1: real, q1: real, p2: real, q2: real) {
    var a, b, c := Turn(p0, q0, p1, q1), Turn(p1, q1, p2, q2), Turn(p2, q2, p0, q0);
    (a >= 0.0 && b >= 0.0 && c >= 0.0) || (a <= 0.0 && b <= 0.0 && c <= 0.0)
  }

  function Area(p0: real, q0: real, p1: real, q1: real, p2: real, q2: real): real {
    Turn(p0, q0, p1, q1) + Turn(p1, q1, p2, q2) + Turn(p2, q2, p0, q0)
  }

  function Crossings(e: Event): int {
    if e.Cross? then 1 else 0
  }

  /** The walk meets the boundary or crosses the positive axis an odd number of times. */
  predicate Found(p0: real, q0: real, p1: real, q1: real, p2: real, q2: real) {
    var e0, e1, e2 := EdgeEvent(q2, p0, q0, p1, q1), EdgeEvent(q0, p1, q1, p2, q2), EdgeEvent(q1, p2, q2, p0, q0);
    Boundary(e0) || Boundary(e1) || Boundary(e2) || (Crossings(e0) + Crossings(e1) + Crossings(e2)) % 2 == 1
  }

  // ----- signs of products -----

  lemma ProductSign(a: real, b: real)
    ensures a > 0.0 && b > 0.0 ==> a * b > 0.0
    ensures a < 0.0 && b < 0.0 ==> a * b > 0.0
    ensures a > 0.0 && b < 0.0 ==> a * b < 0.0
    ensures a < 0.0 && b > 0.0 ==> a * b < 0.0
    ensures a == 0.0 || b == 0.0 ==> a * b == 0.0
  {
  }

  /** Where an edge meets the axis, relative to the origin. */
  lemma AxisPoint(p: real, q: real, p': real, q': real)
    requires Sign(q) * Sign(q') < 0
    ensures Sign(p - q * ((p' - p) / (q' - q))) == Sign(Turn(p, q, p', q')) * Sign(q')
  {
    var d, s := p - q * ((p' - p) / (q' - q)), q' - q;
    var t := (p' - p) / s;
    assert t * s == p' - p;
    assert d * s == p * s - q * (t * s);
    assert d * s == Turn(p, q, p', q');
    ProductSign(d, s);
  }

  lemma TurnSign(p: real, q: real, p': real, q': real)
    requires Sign(q) * Sign(q') < 0
    ensures p > 0.0 && p' > 0.0 ==> Sign(Turn(p, q, p', q')) == Sign(q')
    ensures p < 0.0 && p' < 0.0 ==> Sign(Turn(p, q, p', q')) == -Sign(q')
  {
    ProductSign(p, q');
    ProductSign(q, p');
  }

  /** An edge from one side of the axis to the other. */
  lemma StrictEdge(prev: real, p: real, q: real, p': real, q': real)
    requires Sign(q) * Sign(q') < 0
    ensures EdgeEvent(prev, p, q, p', q') ==
      if Sign(Turn(p, q, p', q')) == 0 then OnEdge
      else if Sign(Turn(p, q, p', q')) == Sign(q') then Cross else Nothing
  {
    AxisPoint(p, q, p', q');
    TurnSign(p, q, p', q');
    hide Turn;
  }

  /** The three turns are tied together by the vertices. */
  lemma TurnsBalance(p0: real, q0: real, p1: real, q1: real, p2: real, q2: real)
    ensures q2 * Turn(p0, q0, p1, q1) + q0 * Turn(p1, q1, p2, q2) + q1 * Turn(p2, q2, p0, q0) == 0.0
    ensures p2 * Turn(p0, q0, p1, q1) + p0 * Turn(p1, q1, p2, q2) + p1 * Turn(p2, q2, p0, q0) == 0.0
  {
  }

  // ----- the cases, up to rotation -----

  predicate Exact(p0: real, q0: real, p1: real, q1: real, p2: real, q2: real) {
    Found(p0, q0, p1, q1, p2, q2) <==> Inside(p0, q0, p1, q1, p2, q2)
  }

  lemma Rotate(p0: real, q0: real, p1: real, q1: real, p2: real, q2: real)
    ensures Exact(p0, q0, p1, q1, p2, q2) <==> Exact(p1, q1, p2, q2, p0, q0)
    ensures Area(p0, q0, p1, q1, p2, q2) == Area(p1, q1, p2, q2, p0, q0)
  {
    hide EdgeEvent, Turn;
  }

  /** All vertices strictly on one side of the axis. */
  lemma OneSide(p0: real, q0: real, p1: real, q1: real, p2: real, q2: real)
    requires Sign(q0) == Sign(q1) == Sign(q2) != 0 && Area(p0, q0, p1, q1, p2, q2) != 0.0
    ensures Exact(p0, q0, p1, q1, p2, q2)
  {
    var a, b, c := Turn(p0, q0, p1, q1), Turn(p1, q1, p2, q2), Turn(p2, q2, p0, q0);
    TurnsBalance(p0, q0, p1, q1, p2, q2);
    ProductSign(q2, a);
    ProductSign(q0, b);
    ProductSign(q1, c);
    hide Turn;
  }

  /** Vertex 0 strictly on the other side from vertices 1 and 2. */
  lemma OneAcross(p0: real, q0: real, p1: real, q1: real, p2: real, q2: real)
    requires Sign(q0) != 0 && Sign(q1) == Sign(q2) == -Sign(q0) && Area(p0, q0, p1, q1, p2, q2) != 0.0
    ensures Exact(p0, q0, p1, q1, p2, q2)
  {
    var a, b, c := Turn(p0, q0, p1, q1), Turn(p1, q1, p2, q2), Turn(p2, q2, p0, q0);
    TurnsBalance(p0, q0, p1, q1, p2, q2);
    StrictEdge(q2, p0, q0, p1, q1);
    StrictEdge(q1, p2, q2, p0, q0);
    ProductSign(q2, a);
    ProductSign(q0, b);
    ProductSign(q1, c);
    assert EdgeEvent(q0, p1, q1, p2, q2) == Nothing;
    hide Turn, EdgeEvent;
  }

  /** Vertex 0 on the axis, the others strictly on one side. */
  lemma TouchOneSide(p0: real, q0: real, p1: real, q1: real, p2: real, q2: real)
    requires q0 == 0.0 && Sign(q1) == Sign(q2) != 0 && Area(p0, q0, p1, q1, p2, q2) != 0.0
    ensures Exact(p0, q0, p1, q1, p2, q2)
  {
    var a, b, c := Turn(p0, q0, p1, q1), Turn(p1, q1, p2, q2), Turn(p2, q2, p0, q0);
    assert a == p0 * q1 && c == -(q2 * p0);
    ProductSign(p0, q1);
    ProductSign(q2, p0);
    assert EdgeEvent(q1, p2, q2, p0, q0) == Nothing && EdgeEvent(q0, p1, q1, p2, q2) == Nothing;
  }

  /** Vertex 0 on the axis, the others strictly on opposite sides. */
  lemma TouchAcross(p0: real, q0: real, p1: real, q1: real, p2: real, q2: real)
    requires q0 == 0.0 && Sign(q1) * Sign(q2) < 0 && Area(p0, q0, p1, q1, p2, q2) != 0.0
    ensures Exact(p0, q0, p1, q1, p2, q2)
  {
    var a, b, c := Turn(p0, q0, p1, q1), Turn(p1, q1, p2, q2), Turn(p2, q2, p0, q0);
    assert a == p0 * q1 && c == -(q2 * p0);
    ProductSign(p0, q1);
    ProductSign(q2, p0);
    StrictEdge(q0, p1, q1, p2, q2);
    assert EdgeEvent(q1, p2, q2, p0, q0) == Nothing;
  }

  /** Vertices 0 and 1 on the axis. */
  lemma EdgeOnAxis(p0: real, q0: real, p1: real, q1: real, p2: real, q2: real)
    requires q0 == 0.0 && q1 == 0.0 && q2 != 0.0 && Area(p0, q0, p1, q1, p2, q2) != 0.0
    ensures Exact(p0, q0, p1, q1, p2, q2)
  {
    var a, b, c := Turn(p0, q0, p1, q1), Turn(p1, q1, p2, q2), Turn(p2, q2, p0, q0);
    assert a == 0.0 && b == p1 * q2 && c == -(q2 * p0);
    ProductSign(p1, q2);
    ProductSign(q2, p0);
    ProductSign(p0, p1);
    assert EdgeEvent(q1, p2, q2, p0, q0) == Nothing;
  }

  /** The crossing test is exact for every triangle of nonzero area. */
  lemma CrossingTestExact(p0: real, q0: real, p1: real, q1: real, p2: real, q2: real)
    requires Area(p0, q0, p1, q1, p2, q2) != 0.0
    ensures Found(p0, q0, p1, q1, p2, q2) <==> Inside(p0, q0, p1, q1, p2, q2)
  {
    hide Found, Inside, Area;
    Rotate(p0, q0, p1, q1, p2, q2);
    Rotate(p1, q1, p2, q2, p0, q0);
    if !CanonicalCase(p0, q0, p1, q1, p2, q2) && !CanonicalCase(p1, q1, p2, q2, p0, q0) {
      assert CanonicalCase(p2, q2, p0, q0, p1, q1) || (q0 == 0.0 && q1 == 0.0 && q2 == 0.0);
      if q0 == 0.0 && q1 == 0.0 && q2 == 0.0 {
        FlatHasNoArea(p0, p1, p2);
      } else {
        Canonical(p2, q2, p0, q0, p1, q1);
      }
    } else if CanonicalCase(p0, q0, p1, q1, p2, q2) {
      Canonical(p0, q0, p1, q1, p2, q2);
    } else {
      Canonical(p1, q1, p2, q2, p0, q0);
    }
  }

  lemma FlatHasNoArea(p0: real, p1: real, p2: real)
    ensures Area(p0, 0.0, p1, 0.0, p2, 0.0) == 0.0
  {
  }

  predicate CanonicalCase(p0: real, q0: real, p1: real, q1: real, p2: real, q2: real) {
    || Sign(q0) == Sign(q1) == Sign(q2) != 0
    || (Sign(q0) != 0 && Sign(q1) == Sign(q2) == -Sign(q0))
    || (q0 == 0.0 && q1 != 0.0 && q2 != 0.0)
    || (q0 == 0.0 && q1 == 0.0 && q2 != 0.0)
  }

  lemma Canonical(p0: real, q0: real, p1: real, q1: real, p2: real, q2: real)
    requires CanonicalCase(p0, q0, p1, q1, p2, q2) && Area(p0, q0, p1, q1, p2, q2) != 0.0
    ensures Exact(p0, q0, p1, q1, p2, q2)
  {
    hide Exact, Area;
    if Sign(q0) == Sign(q1) == Sign(q2) != 0 {
      OneSide(p0, q0, p1, q1, p2, q2);
    } else if Sign(q0) != 0 {
      OneAcross(p0, q0, p1, q1, p2, q2);
    } else if q1 == 0.0 {
      EdgeOnAxis(p0, q0, p1, q1, p2, q2);
    } else if Sign(q1) == Sign(q2) {
      TouchOneSide(p0, q0, p1, q1, p2, q2);
    } else {
      TouchAcross(p0, q0, p1, q1, p2, q2);
    }
  }
}
