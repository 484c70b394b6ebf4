/** The least-squares plane of extrap_TIN.c: the normal equations of
    z = a[0] x + a[1] y + a[2] are assembled, factored and solved, and the plane
    gives elevations to a fixed list of new points. */
module PlaneFit {
  import opened Reals
  import opened Vectors
  import opened Linpack
  import opened LinpackSolve

  const N_NEW_PTS := 8
  const X_NEW: seq<real> := [100.0, 100.0, 12800.0, 12800.0, 12800.0, 12800.0, 12800.0, 12800.0]
  const Y_NEW: seq<real> := [100.0, 12800.0, 100.0, 12800.0, 8000.0, 9000.0, 10000.0, 11000.0]

  /** The value at (x, y) of the plane with coefficients a. */
  function PlaneAt(a: Vec, x: real, y: real): real
    requires |a| == 3
  {
    Times(a[0], x) + Times(a[1], y) + a[2]
  }

  function Residual(a: Vec, p: Point): real
    requires |a| == 3
  {
    PlaneAt(a, p.x, p.y) - p.z
  }

  /** The sum of squared residuals. */
  function Misfit(a: Vec, pts: seq<Point>): real
    requires |a| == 3
  {
    if pts == [] then 0.0
    else Misfit(a, pts[..|pts| - 1]) + Squared(Residual(a, pts[|pts| - 1]))
  }

  /** The points are all on one line u x + v y + w = 0. */
  ghost predicate OnOneLine(pts: seq<Point>) {
    exists d: Vec :: |d| == 3 && d != Zero(3) && OnLine(d, pts)
  }

  predicate OnLine(d: Vec, pts: seq<Point>)
    requires |d| == 3
  {
    forall i :: 0 <= i < |pts| ==> PlaneAt(d, pts[i].x, pts[i].y) == 0.0
  }

  // ----- the normal equations -----

  datatype Moments = Moments(xx: real, xy: real, x: real, yy: real, y: real, n: real, xz: real, yz: real, z: real)

  function PointMoments(p: Point): Moments {
    Moments(Times(p.x, p.x), Times(p.x, p.y), p.x, Times(p.y, p.y), p.y, 1.0,
            Times(p.x, p.z), Times(p.y, p.z), p.z)
  }

  function Plus(m: Moments, q: Moments): Moments {
    Moments(m.xx + q.xx, m.xy + q.xy, m.x + q.x, m.yy + q.yy, m.y + q.y, m.n + q.n,
            m.xz + q.xz, m.yz + q.yz, m.z + q.z)
  }

  function Sums(pts: seq<Point>): Moments {
    if pts == [] then Moments(0.0, 0.0, 0.0, 0.0, 0.0, 0.0, 0.0, 0.0, 0.0)
    else Plus(Sums(pts[..|pts| - 1]), PointMoments(pts[|pts| - 1]))
  }

  function NormalMatrix(m: Moments): (N: Matrix)
    ensures Square(N, 3)
  {
    [[m.xx, m.xy, m.x], [m.xy, m.yy, m.y], [m.x, m.y, m.n]]
  }

  function NormalRhs(m: Moments): Vec {
    [m.xz, m.yz, m.z]
  }

  /** The product of N and a, written out. */
  lemma NormalProduct(m: Moments, a: Vec)
    requires |a| == 3
    ensures MatVec(NormalMatrix(m), a)
         == [Times(m.xx, a[0]) + Times(m.xy, a[1]) + Times(m.x, a[2]),
             Times(m.xy, a[0]) + Times(m.yy, a[1]) + Times(m.y, a[2]),
             Times(m.x, a[0]) + Times(m.y, a[1]) + Times(m.n, a[2])]
  {
    hide Times;
    var N := NormalMatrix(m);
    forall i | 0 <= i < 3
      ensures RowFrom(N, a, i, 0) == Times(N[0][i], a[0]) + Times(N[1][i], a[1]) + Times(N[2][i], a[2])
    {
      assert RowFrom(N, a, i, 2) == Times(N[2][i], a[2]);
      assert RowFrom(N, a, i, 1) == Times(N[1][i], a[1]) + Times(N[2][i], a[2]);
    }
  }

  /** The inner product, over the points, of the residuals of a and the values of d. */
  function Cross(a: Vec, d: Vec, pts: seq<Point>): real
    requires |a| == 3 && |d| == 3
  {
    if pts == [] then 0.0
    else
      var p := pts[|pts| - 1];
      Cross(a, d, pts[..|pts| - 1]) + Times(Residual(a, p), PlaneAt(d, p.x, p.y))
  }

  /** d dotted with N a - rhs. */
  function Gradient(a: Vec, d: Vec, m: Moments): real
    requires |a| == 3 && |d| == 3
  {
    Times(d[0], Times(m.xx, a[0]) + Times(m.xy, a[1]) + Times(m.x, a[2]) - m.xz)
    + Times(d[1], Times(m.xy, a[0]) + Times(m.yy, a[1]) + Times(m.y, a[2]) - m.yz)
    + Times(d[2], Times(m.x, a[0]) + Times(m.y, a[1]) + Times(m.n, a[2]) - m.z)
  }

  lemma {:induction false} CrossIsGradient(a: Vec, d: Vec, pts: seq<Point>)
    requires |a| == 3 && |d| == 3
    ensures Cross(a, d, pts) == Gradient(a, d, Sums(pts))
  {
    if pts != [] {
      hide Gradient, Residual, PlaneAt;
      var rest, p := pts[..|pts| - 1], pts[|pts| - 1];
      CrossIsGradient(a, d, rest);
      GradientOfPoint(a, d, p);
      GradientPlus(a, d, Sums(rest), PointMoments(p));
    } else {
      GradientOfNothing(a, d);
    }
  }

  lemma GradientOfNothing(a: Vec, d: Vec)
    requires |a| == 3 && |d| == 3
    ensures Gradient(a, d, Sums([])) == 0.0
  {
  }

  lemma GradientOfPoint(a: Vec, d: Vec, p: Point)
    requires |a| == 3 && |d| == 3
    ensures Gradient(a, d, PointMoments(p)) == Times(Residual(a, p), PlaneAt(d, p.x, p.y))
  {
    hide Times;
    OnePoint(a[0], a[1], a[2], d[0], d[1], d[2], p.x, p.y, p.z);
  }

  lemma OnePoint(a: real, b: real, c: real, d: real, e: real, f: real, x: real, y: real, z: real)
    ensures Times(Times(a, x) + Times(b, y) + c - z, Times(d, x) + Times(e, y) + f)
         == Times(d, Times(Times(x, x), a) + Times(Times(x, y), b) + Times(x, c) - Times(x, z))
            + Times(e, Times(Times(x, y), a) + Times(Times(y, y), b) + Times(y, c) - Times(y, z))
            + Times(f, Times(x, a) + Times(y, b) + Times(1.0, c) - z)
  {
    var r := a * x + b * y + c - z;
    RowFactor(a, b, c, z, x, x, y);
    RowFactor(a, b, c, z, y, x, y);
    assert Times(y, x) == Times(x, y);
    assert Times(x, a) + Times(y, b) + Times(1.0, c) - z == r;
    Combine(r, d, e, f, x, y);
  }

  lemma RowFactor(a: real, b: real, c: real, z: real, w: real, x: real, y: real)
    ensures Times(Times(w, x), a) + Times(Times(w, y), b) + Times(w, c) - Times(w, z) == Times(w, a * x + b * y + c - z)
  {
  }

  lemma Combine(r: real, d: real, e: real, f: real, x: real, y: real)
    ensures Times(r, Times(d, x) + Times(e, y) + f) == Times(d, Times(x, r)) + Times(e, Times(y, r)) + Times(f, r)
  {
  }

  lemma GradientPlus(a: Vec, d: Vec, m: Moments, q: Moments)
    requires |a| == 3 && |d| == 3
    ensures Gradient(a, d, Plus(m, q)) == Gradient(a, d, m) + Gradient(a, d, q)
  {
    RowPlus(d[0], a[0], a[1], a[2], m.xx, m.xy, m.x, m.xz, q.xx, q.xy, q.x, q.xz);
    RowPlus(d[1], a[0], a[1], a[2], m.xy, m.yy, m.y, m.yz, q.xy, q.yy, q.y, q.yz);
    RowPlus(d[2], a[0], a[1], a[2], m.x, m.y, m.n, m.z, q.x, q.y, q.n, q.z);
  }

  lemma RowPlus(d: real, a: real, b: real, c: real, r: real, s: real, t: real, u: real,
                r': real, s': real, t': real, u': real)
    ensures Times(d, Times(r + r', a) + Times(s + s', b) + Times(t + t', c) - (u + u'))
         == Times(d, Times(r, a) + Times(s, b) + Times(t, c) - u)
            + Times(d, Times(r', a) + Times(s', b) + Times(t', c) - u')
  {
  }

  function Minus(c: Vec, a: Vec): (d: Vec)
    requires |a| == 3 && |c| == 3
    ensures |d| == 3
  {
    [c[0] - a[0], c[1] - a[1], c[2] - a[2]]
  }

  lemma SameSign(a: real, b: real)
    requires (a > 0.0 && b > 0.0) || (a < 0.0 && b < 0.0)
    ensures Times(a, b) > 0.0
  {
  }

  lemma SquaredSign(r: real)
    ensures Times(r, r) >= 0.0 && (Times(r, r) == 0.0 <==> r == 0.0)
  {
    hide Times;
    if r == 0.0 {
      TimesZero(r);
    } else {
      SameSign(r, r);
    }
  }

  function Squared(r: real): (q: real)
    ensures q >= 0.0 && (q == 0.0 <==> r == 0.0)
  {
    SquaredSign(r);
    Times(r, r)
  }

  /** The values of d, squared and summed. */
  function Size(d: Vec, pts: seq<Point>): (r: real)
    requires |d| == 3
    ensures r >= 0.0
  {
    if pts == [] then 0.0
    else Size(d, pts[..|pts| - 1]) + Squared(PlaneAt(d, pts[|pts| - 1].x, pts[|pts| - 1].y))
  }

  lemma ResidualShift(a: Vec, c: Vec, p: Point)
    requires |a| == 3 && |c| == 3
    ensures Residual(c, p) == Residual(a, p) + PlaneAt(Minus(c, a), p.x, p.y)
  {
  }

  lemma SquaredSum(r: real, s: real)
    ensures Squared(r + s) == Squared(r) + 2.0 * Times(r, s) + Squared(s)
  {
  }

  lemma {:induction false} MisfitSplit(a: Vec, c: Vec, pts: seq<Point>)
    requires |a| == 3 && |c| == 3
    ensures Misfit(c, pts) == Misfit(a, pts) + 2.0 * Cross(a, Minus(c, a), pts) + Size(Minus(c, a), pts)
  {
    if pts != [] {
      hide Residual, PlaneAt, Squared, Times, Minus;
      var p := pts[|pts| - 1];
      MisfitSplit(a, c, pts[..|pts| - 1]);
      ResidualShift(a, c, p);
      SquaredSum(Residual(a, p), PlaneAt(Minus(c, a), p.x, p.y));
    }
  }

  lemma {:induction false} SizeZero(d: Vec, pts: seq<Point>)
    requires |d| == 3 && Size(d, pts) == 0.0
    ensures OnLine(d, pts)
  {
    if pts != [] {
      hide PlaneAt, Squared;
      var rest := pts[..|pts| - 1];
      SizeZero(d, rest);
      forall i | 0 <= i < |pts| ensures PlaneAt(d, pts[i].x, pts[i].y) == 0.0 {
        if i < |rest| {
          assert pts[i] == rest[i];
        }
      }
    }
  }

  lemma {:induction false} OnLineCross(a: Vec, d: Vec, pts: seq<Point>)
    requires |a| == 3 && |d| == 3 && OnLine(d, pts)
    ensures Cross(a, d, pts) == 0.0
  {
    if pts != [] {
      hide PlaneAt, Residual;
      OnLineCross(a, d, pts[..|pts| - 1]);
      TimesZero(Residual(a, pts[|pts| - 1]));
    }
  }

  // ----- optimality -----

  /** The coefficients that solve the normal equations beat every other plane, and
      tie only with planes that agree with them at every point. */
  lemma SolutionIsOptimal(a: Vec, c: Vec, pts: seq<Point>)
    requires |a| == 3 && |c| == 3
    requires MatVec(NormalMatrix(Sums(pts)), a) == NormalRhs(Sums(pts))
    ensures Misfit(a, pts) <= Misfit(c, pts)
    ensures Misfit(a, pts) == Misfit(c, pts) ==> OnLine(Minus(c, a), pts)
  {
    var d := Minus(c, a);
    SolutionHasNoGradient(a, d, Sums(pts));
    CrossIsGradient(a, d, pts);
    MisfitSplit(a, c, pts);
    if Size(d, pts) == 0.0 {
      SizeZero(d, pts);
    }
  }

  lemma SolutionHasNoGradient(a: Vec, d: Vec, m: Moments)
    requires |a| == 3 && |d| == 3 && MatVec(NormalMatrix(m), a) == NormalRhs(m)
    ensures Gradient(a, d, m) == 0.0
  {
    NormalProduct(m, a);
    var v := MatVec(NormalMatrix(m), a);
    assert v[0] == m.xz && v[1] == m.yz && v[2] == m.z;
    TimesZero(d[0]);
    TimesZero(d[1]);
    TimesZero(d[2]);
  }

  // ----- when the fit exists -----

  /** d dotted with N e. */
  function Form(e: Vec, d: Vec, m: Moments): real
    requires |e| == 3 && |d| == 3
  {
    Times(d[0], Times(m.xx, e[0]) + Times(m.xy, e[1]) + Times(m.x, e[2]))
    + Times(d[1], Times(m.xy, e[0]) + Times(m.yy, e[1]) + Times(m.y, e[2]))
    + Times(d[2], Times(m.x, e[0]) + Times(m.y, e[1]) + Times(m.n, e[2]))
  }

  lemma FormIsGradient(e: Vec, d: Vec, m: Moments)
    requires |e| == 3 && |d| == 3
    ensures Gradient(e, d, m) == Form(e, d, m) + Gradient(Zero(3), d, m)
  {
    var o := Zero(3);
    RowShift(d[0], Times(m.xx, e[0]) + Times(m.xy, e[1]) + Times(m.x, e[2]), m.xz);
    RowShift(d[1], Times(m.xy, e[0]) + Times(m.yy, e[1]) + Times(m.y, e[2]), m.yz);
    RowShift(d[2], Times(m.x, e[0]) + Times(m.y, e[1]) + Times(m.n, e[2]), m.z);
    RowZero(d[0], m.xx, m.xy, m.x, m.xz);
    RowZero(d[1], m.xy, m.yy, m.y, m.yz);
    RowZero(d[2], m.x, m.y, m.n, m.z);
    hide Times;
  }

  lemma RowShift(d: real, s: real, u: real)
    ensures Times(d, s - u) == Times(d, s) + Times(d, -u)
  {
  }

  lemma RowZero(d: real, r: real, s: real, t: real, u: real)
    ensures Times(d, Times(r, 0.0) + Times(s, 0.0) + Times(t, 0.0) - u) == Times(d, -u)
  {
  }

  lemma {:induction false} SizeIsCross(d: Vec, pts: seq<Point>)
    requires |d| == 3
    ensures Size(d, pts) == Cross(d, d, pts) - Cross(Zero(3), d, pts)
  {
    if pts != [] {
      var p := pts[|pts| - 1];
      SizeIsCross(d, pts[..|pts| - 1]);
      FlatResidual(p);
      DifferenceOfProducts(PlaneAt(d, p.x, p.y), p.z);
      hide PlaneAt, Times;
    }
  }

  lemma FlatResidual(p: Point)
    ensures Residual(Zero(3), p) == -p.z
  {
  }

  lemma DifferenceOfProducts(v: real, z: real)
    ensures Squared(v) == Times(v - z, v) - Times(-z, v)
  {
  }

  lemma KernelIsOnLine(d: Vec, pts: seq<Point>)
    requires |d| == 3 && MatVec(NormalMatrix(Sums(pts)), d) == Zero(3)
    ensures OnLine(d, pts)
  {
    var m := Sums(pts);
    NormalProduct(m, d);
    var v := MatVec(NormalMatrix(m), d);
    assert v[0] == 0.0 && v[1] == 0.0 && v[2] == 0.0;
    hide Times, Sums, Size;
    TimesZero(d[0]);
    TimesZero(d[1]);
    TimesZero(d[2]);
    FormIsGradient(d, d, m);
    CrossIsGradient(d, d, pts);
    CrossIsGradient(Zero(3), d, pts);
    SizeIsCross(d, pts);
    SizeZero(d, pts);
  }

  lemma OnLineForm(e: Vec, d: Vec, pts: seq<Point>)
    requires |e| == 3 && |d| == 3 && OnLine(d, pts)
    ensures Form(e, d, Sums(pts)) == 0.0
  {
    FormIsGradient(e, d, Sums(pts));
    CrossIsGradient(e, d, pts);
    CrossIsGradient(Zero(3), d, pts);
    OnLineCross(e, d, pts);
    OnLineCross(Zero(3), d, pts);
  }

  lemma UnitForms(d: Vec, m: Moments)
    requires |d| == 3
    ensures Form([1.0, 0.0, 0.0], d, m) == Times(m.xx, d[0]) + Times(m.xy, d[1]) + Times(m.x, d[2])
    ensures Form([0.0, 1.0, 0.0], d, m) == Times(m.xy, d[0]) + Times(m.yy, d[1]) + Times(m.y, d[2])
    ensures Form([0.0, 0.0, 1.0], d, m) == Times(m.x, d[0]) + Times(m.y, d[1]) + Times(m.n, d[2])
  {
  }

  lemma OnLineIsKernel(d: Vec, pts: seq<Point>)
    requires |d| == 3 && OnLine(d, pts)
    ensures MatVec(NormalMatrix(Sums(pts)), d) == Zero(3)
  {
    hide Times, Form, Sums;
    NormalProduct(Sums(pts), d);
    UnitForms(d, Sums(pts));
    OnLineForm([1.0, 0.0, 0.0], d, pts);
    OnLineForm([0.0, 1.0, 0.0], d, pts);
    OnLineForm([0.0, 0.0, 1.0], d, pts);
  }

  /** The normal equations have one solution exactly when the points are not all on one line. */
  lemma SolvableIffNotOnOneLine(pts: seq<Point>)
    ensures Nonsingular(NormalMatrix(Sums(pts)), 3) <==> !OnOneLine(pts)
  {
    hide MatVec, NormalMatrix, OnLine;
    if OnOneLine(pts) {
      var d: Vec :| |d| == 3 && d != Zero(3) && OnLine(d, pts);
      OnLineIsKernel(d, pts);
    } else {
      forall d: Vec | |d| == 3 && MatVec(NormalMatrix(Sums(pts)), d) == Zero(3) ensures d == Zero(3) {
        KernelIsOnLine(d, pts);
      }
    }
  }

  // ----- the program -----

  /** The vertices read in, which sit behind the slots kept for the new points. */
  function Vertices(x: seq<real>, y: seq<real>, z: seq<real>): (pts: seq<Point>)
    requires |x| == |y| == |z| >= N_NEW_PTS
    ensures |pts| == |x| - N_NEW_PTS
  {
    seq(|x| - N_NEW_PTS, i requires 0 <= i < |x| - N_NEW_PTS =>
      Point(x[i + N_NEW_PTS], y[i + N_NEW_PTS], z[i + N_NEW_PTS]))
  }

  /** The sums held in the assembly arrays. */
  function Held(A: seq<real>, b: seq<real>, n: nat): Moments
    requires |A| == 9 && |b| == 3
  {
    Moments(A[0], A[1], A[2], A[4], A[5], n as real, b[0], b[1], b[2])
  }

  lemma NextSums(pts: seq<Point>, k: nat)
    requires k < |pts|
    ensures Sums(pts[..k + 1]) == Plus(Sums(pts[..k]), PointMoments(pts[k]))
  {
    assert pts[..k + 1][..k] == pts[..k];
  }

  /** Adds the terms of one point. */
  method AddPoint(x: real, y: real, z: real, A: array<real>, b: array<real>, ghost n: nat)
    requires A.Length == 9 && b.Length == 3 && A != b
    modifies A, b
    ensures Held(A[..], b[..], n + 1) == Plus(old(Held(A[..], b[..], n)), PointMoments(Point(x, y, z)))
  {
    A[0] := A[0] + Times(x, x);
    A[1] := A[1] + Times(x, y);
    A[2] := A[2] + x;
    A[4] := A[4] + Times(y, y);
    A[5] := A[5] + y;
    b[0] := b[0] + Times(x, z);
    b[1] := b[1] + Times(y, z);
    b[2] := b[2] + z;
  }

  lemma AssembledColumns(A: seq<real>, m: Moments)
    requires |A| == 9 && A == [m.xx, m.xy, m.x, m.xy, m.yy, m.y, m.x, m.y, m.n]
    ensures Columns(A, 3, 3) == NormalMatrix(m)
  {
    assert Columns(A, 3, 3)[0] == A[0..3] == [m.xx, m.xy, m.x];
    assert Columns(A, 3, 3)[1] == A[3..6] == [m.xy, m.yy, m.y];
    assert Columns(A, 3, 3)[2] == A[6..9] == [m.x, m.y, m.n];
  }

  method Clear(v: array<real>)
    modifies v
    ensures forall k :: 0 <= k < v.Length ==> v[k] == 0.0
  {
    for i := 0 to v.Length
      invariant forall k :: 0 <= k < i ==> v[k] == 0.0
    {
      v[i] := 0.0;
    }
  }

  /** Fills in the entries above the diagonal by symmetry, and the last one. */
  method Mirror(A: array<real>, b: array<real>, n: nat)
    requires A.Length == 9 && b.Length == 3 && A != b
    modifies A
    ensures Columns(A[..], 3, 3) == NormalMatrix(old(Held(A[..], b[..], n)))
  {
    ghost var m := Held(A[..], b[..], n);
    A[3] := A[1];
    A[6] := A[2];
    A[7] := A[5];
    A[8] := n as real;
    AssembledColumns(A[..], m);
  }

  /** Assembles the normal equations, the matrix in column-major order. */
  method Assemble(x: array<real>, y: array<real>, z: array<real>, A: array<real>, b: array<real>)
    requires x.Length == y.Length == z.Length >= N_NEW_PTS && A.Length == 9 && b.Length == 3
    requires A != x && A != y && A != z && b != x && b != y && b != z && A != b
    modifies A, b
    ensures Columns(A[..], 3, 3) == NormalMatrix(Sums(Vertices(x[..], y[..], z[..])))
    ensures b[..] == NormalRhs(Sums(Vertices(x[..], y[..], z[..])))
  {
    ghost var pts := Vertices(x[..], y[..], z[..]);
    Clear(b);
    Clear(A);
    var nv := x.Length - N_NEW_PTS;
    assert Sums(pts[..0]) == Held(A[..], b[..], 0);
    for i := N_NEW_PTS to nv + N_NEW_PTS
      invariant Sums(pts[..i - N_NEW_PTS]) == Held(A[..], b[..], i - N_NEW_PTS)
    {
      hide Sums, Held, PointMoments, Plus;
      NextSums(pts, i - N_NEW_PTS);
      AddPoint(x[i], y[i], z[i], A, b, i - N_NEW_PTS);
    }
    assert pts[..nv] == pts;
    assert b[..] == NormalRhs(Held(A[..], b[..], nv));
    Mirror(A, b, nv);
  }

  lemma InfoTellsCollinearity(F: Matrix, p: seq<int>, info: nat, pts: seq<Point>)
    requires Factored(NormalMatrix(Sums(pts)), F, p, 3) && LastZero(F, 3, info, 3)
    ensures info == 0 <==> !OnOneLine(pts)
    ensures info == 0 <==> NonzeroDiagonal(F, 3)
  {
    hide Factored, OnOneLine, Nonsingular, Sums;
    FactoredParts(NormalMatrix(Sums(pts)), F, p, 3);
    NonsingularIffNonzeroDiagonal(NormalMatrix(Sums(pts)), F, p, 3);
    SolvableIffNotOnOneLine(pts);
  }

  lemma StrictlyOptimal(a: Vec, pts: seq<Point>)
    requires |a| == 3 && MatVec(NormalMatrix(Sums(pts)), a) == NormalRhs(Sums(pts)) && !OnOneLine(pts)
    ensures forall c: Vec :: |c| == 3 && c != a ==> Misfit(a, pts) < Misfit(c, pts)
  {
    hide Misfit, OnLine, MatVec, Sums;
    forall c: Vec | |c| == 3 && c != a ensures Misfit(a, pts) < Misfit(c, pts) {
      SolutionIsOptimal(a, c, pts);
      MinusNonzero(a, c);
    }
  }

  lemma MinusNonzero(a: Vec, c: Vec)
    requires |a| == 3 && |c| == 3 && c != a
    ensures Minus(c, a) != Zero(3)
  {
    var i :| 0 <= i < 3 && c[i] != a[i];
    assert Minus(c, a)[i] != Zero(3)[i];
  }

  /** Puts the new points, with their elevations on the plane, into the leading slots. */
  method FillNewPoints(x: array<real>, y: array<real>, z: array<real>, a: Vec)
    requires x.Length == y.Length == z.Length >= N_NEW_PTS && |a| == 3
    requires x != y && x != z && y != z
    modifies x, y, z
    ensures NewPoints(x[..], y[..], z[..], a)
    ensures Vertices(x[..], y[..], z[..]) == old(Vertices(x[..], y[..], z[..]))
  {
    for i := 0 to N_NEW_PTS
      invariant forall k :: 0 <= k < i ==> x[k] == X_NEW[k] && y[k] == Y_NEW[k]
      invariant forall k :: 0 <= k < i ==> z[k] == PlaneAt(a, X_NEW[k], Y_NEW[k])
      invariant forall k :: i <= k < x.Length ==> x[k] == old(x[k]) && y[k] == old(y[k]) && z[k] == old(z[k])
    {
      x[i] := X_NEW[i];
      y[i] := Y_NEW[i];
      z[i] := PlaneAt(a, x[i], y[i]);
      hide PlaneAt;
    }
    AreNewPoints(x[..], y[..], z[..], a);
  }

  /** Eight points about the corners of the domain, at their heights on the plane a. */
  predicate NewPoints(x: seq<real>, y: seq<real>, z: seq<real>, a: Vec)
    requires |a| == 3
  {
    && |x| == |y| == |z| >= 8
    && x[..8] == [100.0, 100.0, 12800.0, 12800.0, 12800.0, 12800.0, 12800.0, 12800.0]
    && y[..8] == [100.0, 12800.0, 100.0, 12800.0, 8000.0, 9000.0, 10000.0, 11000.0]
    && forall i :: 0 <= i < 8 ==> z[i] == a[0] * x[i] + a[1] * y[i] + a[2]
  }

  lemma AreNewPoints(x: seq<real>, y: seq<real>, z: seq<real>, a: Vec)
    requires |a| == 3 && |x| == |y| == |z| >= N_NEW_PTS
    requires forall i :: 0 <= i < N_NEW_PTS ==> x[i] == X_NEW[i] && y[i] == Y_NEW[i] && z[i] == PlaneAt(a, x[i], y[i])
    ensures NewPoints(x, y, z, a)
  {
    assert x[..8] == X_NEW && y[..8] == Y_NEW;
  }

  /** The body of the program for one TIN: fits the plane to the vertices and, when
      the factorization found no zero pivot, fills the leading slots with the new
      points on the plane.  With a zero pivot the source goes on to divide by zero;
      here it stops. */
  method Extrapolate(x: array<real>, y: array<real>, z: array<real>) returns (info: nat, a: Vec)
    requires x.Length == y.Length == z.Length >= N_NEW_PTS
    requires x != y && x != z && y != z
    modifies x, y, z
    ensures |a| == 3
    ensures info == 0 <==> !OnOneLine(old(Vertices(x[..], y[..], z[..])))
    ensures info == 0 ==> forall c: Vec :: |c| == 3 && c != a ==>
      Misfit(a, old(Vertices(x[..], y[..], z[..]))) < Misfit(c, old(Vertices(x[..], y[..], z[..])))
    ensures info == 0 ==> NewPoints(x[..], y[..], z[..], a)
    ensures Vertices(x[..], y[..], z[..]) == old(Vertices(x[..], y[..], z[..]))
  {
    hide Columns, Vertices, Sums, Misfit, OnOneLine, PlaneAt, NewPoints, Factored, LastZero, Grown, MatVec, TransVec,
      NonzeroDiagonal, Largest, NormalMatrix, NormalRhs;
    ghost var pts := Vertices(x[..], y[..], z[..]);
    ghost var N := NormalMatrix(Sums(pts));
    var A, b, ipvt := new real[9], new real[3], new int[9];
    Assemble(x, y, z, A, b);
    info := Sgefa(A, 3, 3, ipvt);
    InfoTellsCollinearity(Columns(A[..], 3, 3), ipvt[..], info, pts);
    a := Zero(3);
    if info == 0 {
      Sgesl(A, 3, 3, ipvt, b, 0, N);
      a := b[..];
      StrictlyOptimal(a, pts);
      FillNewPoints(x, y, z, a);
    }
  }
}
