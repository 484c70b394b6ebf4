/** Solving with the factors: sgesl of extrap_TIN.c, and why its answer solves the
    system that was factored. */
module LinpackSolve {
  import opened Reals
  import opened Vectors
  import opened Blas
  import opened Linpack

  // ----- the elimination steps are linear and injective -----

  lemma StepLinear(F: Matrix, p: seq<int>, k: nat, c: real, x: Vec, y: Vec)
    requires |x| == |y| && Square(F, |x|) && k < |x| && PivotsTo(p, k + 1, |x|)
    ensures StepVec(F, p, k, Axpy(c, x, y)) == Axpy(c, StepVec(F, p, k, x), StepVec(F, p, k, y))
  {
    var l := p[k] - 1;
    var xs, ys := Swap(x, k, l), Swap(y, k, l);
    assert Swap(Axpy(c, x, y), k, l) == Axpy(c, xs, ys);
    forall i | k < i < |x|
      ensures Eliminate(Axpy(c, xs, ys), k, F[k])[i] == Axpy(c, Eliminate(xs, k, F[k]), Eliminate(ys, k, F[k]))[i]
    {
      Distribute(c, xs[i], ys[i], xs[k], ys[k], F[k][i]);
    }
  }

  lemma Distribute(c: real, x: real, y: real, xk: real, yk: real, m: real)
    ensures y + Times(c, x) + Times(yk + Times(c, xk), m) == y + Times(yk, m) + Times(c, x + Times(xk, m))
  {
    assert (c * xk) * m == c * (xk * m);
  }

  lemma {:induction false} ForwardLinear(F: Matrix, p: seq<int>, k: nat, c: real, x: Vec, y: Vec)
    requires |x| == |y| && Square(F, |x|) && k <= |x| && PivotsTo(p, k, |x|)
    ensures Forward(F, p, k, Axpy(c, x, y)) == Axpy(c, Forward(F, p, k, x), Forward(F, p, k, y))
  {
    hide StepVec, Axpy;
    if k > 0 {
      ForwardLinear(F, p, k - 1, c, x, y);
      StepLinear(F, p, k - 1, c, Forward(F, p, k - 1, x), Forward(F, p, k - 1, y));
    }
  }

  lemma {:induction false} ForwardZero(F: Matrix, p: seq<int>, k: nat, n: nat)
    requires Square(F, n) && k <= n && PivotsTo(p, k, n)
    ensures Forward(F, p, k, Zero(n)) == Zero(n)
  {
    if k > 0 {
      ForwardZero(F, p, k - 1, n);
      var z := StepVec(F, p, k - 1, Zero(n));
      forall i | 0 <= i < n ensures z[i] == 0.0 {
        TimesZero(F[k - 1][i]);
      }
    }
  }

  lemma StepInjective(F: Matrix, p: seq<int>, k: nat, v: Vec, w: Vec)
    requires |v| == |w| && Square(F, |v|) && k < |v| && PivotsTo(p, k + 1, |v|)
    requires StepVec(F, p, k, v) == StepVec(F, p, k, w)
    ensures v == w
  {
    hide Times;
    var l := p[k] - 1;
    var vs, ws := Swap(v, k, l), Swap(w, k, l);
    assert vs[k] == StepVec(F, p, k, v)[k] == StepVec(F, p, k, w)[k] == ws[k];
    forall i | 0 <= i < |v| ensures vs[i] == ws[i] {
      assert StepVec(F, p, k, v)[i] == StepVec(F, p, k, w)[i];
    }
    assert v == Swap(vs, k, l) && w == Swap(ws, k, l);
  }

  lemma {:induction false} ForwardInjective(F: Matrix, p: seq<int>, k: nat, v: Vec, w: Vec)
    requires |v| == |w| && Square(F, |v|) && k <= |v| && PivotsTo(p, k, |v|)
    requires Forward(F, p, k, v) == Forward(F, p, k, w)
    ensures v == w
  {
    hide StepVec;
    if k > 0 {
      StepInjective(F, p, k - 1, Forward(F, p, k - 1, v), Forward(F, p, k - 1, w));
      ForwardInjective(F, p, k - 1, v, w);
    }
  }

  lemma FactoredParts(A: Matrix, F: Matrix, p: seq<int>, n: nat)
    requires Factored(A, F, p, n)
    ensures n >= 1 && Square(A, n) && Square(F, n) && Square(Upper(F), n) && PivotsTo(p, n - 1, n)
    ensures forall j :: 0 <= j < n ==> Upper(F)[j] == Forward(F, p, n - 1, A[j])
  {
  }

  lemma {:induction false} ForwardOfComb(A: Matrix, F: Matrix, p: seq<int>, x: Vec, k: nat)
    requires Factored(A, F, p, |x|) && k <= |x|
    ensures Forward(F, p, |x| - 1, LinComb(A, x, k)) == LinComb(Upper(F), x, k)
    decreases |x| - k
  {
    hide Factored, Forward, Upper, Axpy;
    FactoredParts(A, F, p, |x|);
    var n := |x|;
    if k == n {
      ForwardZero(F, p, n - 1, n);
    } else {
      ForwardOfComb(A, F, p, x, k + 1);
      ForwardLinear(F, p, n - 1, x[k], A[k], LinComb(A, x, k + 1));
    }
  }

  /** Solving the triangular system against the forward-eliminated right-hand side
      is the same as solving the original system. */
  lemma TriangularSystem(A: Matrix, F: Matrix, p: seq<int>, x: Vec, b: Vec)
    requires Factored(A, F, p, |x|) && |b| == |x|
    ensures MatVec(A, x) == b <==> MatVec(Upper(F), x) == Forward(F, p, |x| - 1, b)
  {
    hide Factored, Forward, Upper, LinComb, MatVec;
    FactoredParts(A, F, p, |x|);
    MatVecIsLinComb(A, x);
    MatVecIsLinComb(Upper(F), x);
    ForwardOfComb(A, F, p, x, 0);
    if MatVec(Upper(F), x) == Forward(F, p, |x| - 1, b) {
      ForwardInjective(F, p, |x| - 1, MatVec(A, x), b);
    }
  }

  // ----- the transposed steps -----

  function EliminateT(w: Vec, k: nat, m: Vec): (r: Vec)
    requires k < |w| && |m| == |w|
    ensures |r| == |w|
  {
    w[k := w[k] + Dot(m[k + 1..], w[k + 1..])]
  }

  function StepT(F: Matrix, p: seq<int>, k: nat, w: Vec): (r: Vec)
    requires Square(F, |w|) && k < |w| && PivotsTo(p, k + 1, |w|)
    ensures |r| == |w|
  {
    Swap(EliminateT(w, k, F[k]), k, p[k] - 1)
  }

  /** Transposed steps k - 1, ..., 1, 0 in turn. */
  function BackwardT(F: Matrix, p: seq<int>, k: nat, w: Vec): (r: Vec)
    requires Square(F, |w|) && k <= |w| && PivotsTo(p, k, |w|)
    ensures |r| == |w|
  {
    if k == 0 then w else BackwardT(F, p, k - 1, StepT(F, p, k - 1, w))
  }

  lemma {:induction false} DotSuffix(u: Vec, v: Vec, k: nat, m: nat)
    requires k + m <= |u| && |u| == |v|
    ensures DotTo(u, v, k + m) == DotTo(u, v, k) + DotTo(u[k..], v[k..], m)
  {
    if m > 0 {
      DotSuffix(u, v, k, m - 1);
    }
  }

  lemma {:induction false} EliminatedDot(v: Vec, k: nat, m: Vec, w: Vec, t: nat)
    requires k < |v| && |m| == |v| == |w| && t <= |v|
    ensures DotTo(Eliminate(v, k, m), w, t)
         == DotTo(v, w, t) + if t > k then Times(v[k], DotTo(m, w, t) - DotTo(m, w, k + 1)) else 0.0
  {
    if t > 0 {
      EliminatedDot(v, k, m, w, t - 1);
      if t > k + 1 {
        var a, b, c, d, s := v[t - 1], v[k], m[t - 1], w[t - 1], DotTo(m, w, t - 1) - DotTo(m, w, k + 1);
        SumOfProducts(a, b, c, d, s);
      } else if t == k + 1 {
        TimesZero(v[k]);
      }
    }
  }

  lemma SumOfProducts(a: real, b: real, c: real, d: real, s: real)
    ensures Times(a + Times(b, c), d) + Times(b, s) == Times(a, d) + Times(b, s + Times(c, d))
  {
    assert (b * c) * d == b * (c * d);
  }

  lemma EliminateDual(v: Vec, k: nat, m: Vec, w: Vec)
    requires k < |v| && |m| == |v| == |w|
    ensures Dot(Eliminate(v, k, m), w) == Dot(v, EliminateT(w, k, m))
  {
    var n, s := |v|, Dot(m[k + 1..], w[k + 1..]);
    EliminatedDot(v, k, m, w, n);
    DotSuffix(m, w, k + 1, n - k - 1);
    DotToSymmetric(v, EliminateT(w, k, m), n);
    DotToUpdate(w, v, k, w[k] + s, n);
    DotToSymmetric(w, v, n);
    assert Times(s, v[k]) == Times(v[k], s);
  }

  lemma SwapDual(v: Vec, k: nat, l: nat, w: Vec)
    requires k < |v| && l < |v| && |w| == |v|
    ensures Dot(Swap(v, k, l), w) == Dot(v, Swap(w, k, l))
  {
    var n := |v|;
    SwappedDot(v, k, l, w);
    SwappedDot(w, k, l, v);
    DotToSymmetric(v, Swap(w, k, l), n);
    DotToSymmetric(v, w, n);
    ProductsOfDifferences(v[k], v[l], w[k], w[l]);
  }

  lemma SwappedDot(v: Vec, k: nat, l: nat, w: Vec)
    requires k < |v| && l < |v| && |w| == |v|
    ensures Dot(Swap(v, k, l), w) == Dot(v, w) + Times(v[l] - v[k], w[k]) + Times(v[k] - v[l], w[l])
  {
    DotToUpdate(v, w, k, v[l], |v|);
    DotToUpdate(v[k := v[l]], w, l, v[k], |v|);
    if k == l {
      TimesZero(w[k]);
    }
  }

  lemma ProductsOfDifferences(a: real, b: real, c: real, d: real)
    ensures Times(b - a, c) + Times(a - b, d) == Times(d - c, a) + Times(c - d, b)
  {
  }

  lemma StepDual(F: Matrix, p: seq<int>, k: nat, v: Vec, w: Vec)
    requires |v| == |w| && Square(F, |v|) && k < |v| && PivotsTo(p, k + 1, |v|)
    ensures Dot(StepVec(F, p, k, v), w) == Dot(v, StepT(F, p, k, w))
  {
    hide Dot, EliminateT, Eliminate, Swap;
    EliminateDual(Swap(v, k, p[k] - 1), k, F[k], w);
    SwapDual(v, k, p[k] - 1, EliminateT(w, k, F[k]));
  }

  /** The transposed sweep is the adjoint of the forward sweep. */
  lemma {:induction false} ForwardDual(F: Matrix, p: seq<int>, k: nat, v: Vec, w: Vec)
    requires |v| == |w| && Square(F, |v|) && k <= |v| && PivotsTo(p, k, |v|)
    ensures Dot(Forward(F, p, k, v), w) == Dot(v, BackwardT(F, p, k, w))
  {
    hide Dot, StepVec, StepT;
    if k > 0 {
      StepDual(F, p, k - 1, Forward(F, p, k - 1, v), w);
      ForwardDual(F, p, k - 1, v, StepT(F, p, k - 1, w));
    }
  }

  lemma {:induction false} TransposedSystem(A: Matrix, F: Matrix, p: seq<int>, y: Vec, b: Vec)
    requires Factored(A, F, p, |y|) && |b| == |y| && TransVec(Upper(F), y) == b
    ensures TransVec(A, BackwardT(F, p, |y| - 1, y)) == b
  {
    var n := |y|;
    FactoredParts(A, F, p, n);
    SquareColumns(A, n);
    hide *;
    var x := BackwardT(F, p, n - 1, y);
    forall j | 0 <= j < n ensures Dot(A[j], x) == b[j] {
      TransposedEntry(A, F, p, y, j);
      TransVecAt(Upper(F), y, j);
    }
    TransVecIs(A, x, b);
  }

  lemma {:induction false} TransposedEntry(A: Matrix, F: Matrix, p: seq<int>, y: Vec, j: nat)
    requires Factored(A, F, p, |y|) && j < |y|
    ensures Dot(A[j], BackwardT(F, p, |y| - 1, y)) == Dot(Upper(F)[j], y)
  {
    FactoredParts(A, F, p, |y|);
    SquareColumns(A, |y|);
    hide *;
    ForwardDual(F, p, |y| - 1, A[j], y);
  }

  lemma SquareColumns(A: Matrix, n: nat)
    requires Square(A, n)
    ensures |A| == n && forall j :: 0 <= j < n ==> |A[j]| == n
  {
  }

  lemma TransVecAt(A: Matrix, x: Vec, j: nat)
    requires Square(A, |x|) && j < |x|
    ensures TransVec(A, x)[j] == Dot(A[j], x)
  {
  }

  lemma TransVecIs(A: Matrix, x: Vec, b: Vec)
    requires Square(A, |x|) && |b| == |x| && forall j :: 0 <= j < |x| ==> Dot(A[j], x) == b[j]
    ensures TransVec(A, x) == b
  {
  }

  // ----- sgesl -----

  predicate NonzeroDiagonal(F: Matrix, n: nat)
    requires Square(F, n)
  {
    forall k :: 0 <= k < n ==> F[k][k] != 0.0
  }

  lemma SwappedAndEliminated(a: seq<real>, lda: nat, n: nat, p: seq<int>, k: nat, v: Vec, w: Vec, r: Vec)
    requires Layout(|a|, lda, n) && k + 1 < n == |v| && PivotsTo(p, k + 1, n) && Off(lda, k) + n <= |a|
    requires w == Swap(v, k, p[k] - 1)
    requires r == AxpyAt(w[k], a[Off(lda, k) + k + 1..Off(lda, k) + k + 1 + (n - k - 1)], w, k + 1)
    ensures r == StepVec(Columns(a, lda, n), p, k, v)
  {
    hide Times;
    var m := Columns(a, lda, n)[k];
    assert a[Off(lda, k) + k + 1..Off(lda, k) + k + 1 + (n - k - 1)] == m[k + 1..];
  }

  /** The guarded interchange of b[k] and b[l]. */
  method SwapEntries(b: array<real>, k: nat, l: nat)
    requires k < b.Length && l < b.Length
    modifies b
    ensures b[..] == Swap(old(b[..]), k, l)
  {
    if l != k {
      b[k], b[l] := b[l], b[k];
    }
  }

  /** First half of job 0: runs the elimination steps over b. */
  method SweepForward(a: array<real>, lda: nat, n: nat, ipvt: array<int>, b: array<real>)
    requires Layout(a.Length, lda, n) && ipvt.Length >= n && b.Length == n && a != b
    requires PivotsTo(ipvt[..], n - 1, n)
    modifies b
    ensures b[..] == Forward(Columns(a[..], lda, n), ipvt[..], n - 1, old(b[..]))
  {
    hide Columns, AxpyAt, StepVec;
    ghost var F, p := Columns(a[..], lda, n), ipvt[..];
    for k := 0 to n - 1
      invariant b[..] == Forward(F, p, k, old(b[..]))
    {
      ghost var v := b[..];
      OffOrder(lda, k, n);
      var l := ipvt[k] - 1;
      var t := b[l];
      SwapEntries(b, k, l);
      ghost var w := b[..];
      assert t == w[k] by {
        assert w == v[k := v[l]][l := v[k]];
      }
      Saxpy(n - k - 1, t, a, Off(lda, k) + k + 1, b, k + 1);
      SwappedAndEliminated(a[..], lda, n, p, k, v, w, b[..]);
    }
  }

  /** Row i once the unknowns k and later are known: what is left on the right-hand
      side plus what those unknowns account for is the original right-hand side. */
  predicate RowKnown(U: Matrix, b: Vec, y: Vec, k: nat, i: nat)
    requires |b| == |y| && Square(U, |b|) && i < |b| && k <= |b|
  {
    (if i < k then b[i] else 0.0) + RowFrom(U, b, i, k) == y[i]
  }

  predicate RowsKnown(U: Matrix, b: Vec, y: Vec, k: nat)
    requires |b| == |y| && Square(U, |b|) && k <= |b|
  {
    forall i :: 0 <= i < |b| ==> RowKnown(U, b, y, k, i)
  }

  lemma BackStep(F: Matrix, b: Vec, c: Vec, y: Vec, k: nat)
    requires |b| == |c| == |y| && Square(F, |b|) && k < |b| && F[k][k] != 0.0
    requires c[k] == b[k] / F[k][k]
    requires forall i :: 0 <= i < k ==> c[i] == b[i] + Times(-c[k], F[k][i])
    requires forall i :: k < i < |b| ==> c[i] == b[i]
    requires RowsKnown(Upper(F), b, y, k + 1)
    ensures RowsKnown(Upper(F), c, y, k)
  {
    var U := Upper(F);
    forall i | 0 <= i < |b| ensures RowKnown(U, c, y, k, i) {
      assert RowKnown(U, b, y, k + 1, i);
      RowFromFrame(U, b, c, i, k + 1);
      if i < k {
        assert Times(-c[k], F[k][i]) == -Times(U[k][i], c[k]);
      } else if i > k {
        TimesZero(c[k]);
      } else {
        assert Times(F[k][k], b[k] / F[k][k]) == b[k];
      }
    }
  }

  lemma BackColumn(a: seq<real>, lda: nat, n: nat, v: Vec, w: Vec, r: Vec, k: nat, y: Vec)
    requires Layout(|a|, lda, n) && k < n == |v| == |y| && Off(lda, k) + n <= |a|
    requires Columns(a, lda, n)[k][k] != 0.0
    requires w == v[k := v[k] / Columns(a, lda, n)[k][k]]
    requires r == if k > 0 then AxpyAt(-w[k], a[Off(lda, k)..Off(lda, k) + k], w, 0) else w
    requires RowsKnown(Upper(Columns(a, lda, n)), v, y, k + 1)
    ensures RowsKnown(Upper(Columns(a, lda, n)), r, y, k)
  {
    hide Times, RowsKnown, Upper;
    var F := Columns(a, lda, n);
    if k > 0 {
      assert a[Off(lda, k)..Off(lda, k) + k] == F[k][..k];
    }
    BackStep(F, v, r, y, k);
  }

  /** Second half of job 0: solves U x = y in place. */
  method BackSubstitute(a: array<real>, lda: nat, n: nat, b: array<real>)
    requires Layout(a.Length, lda, n) && b.Length == n && a != b
    requires NonzeroDiagonal(Columns(a[..], lda, n), n)
    modifies b
    ensures MatVec(Upper(Columns(a[..], lda, n)), b[..]) == old(b[..])
  {
    ghost var F, y := Columns(a[..], lda, n), b[..];
    ghost var U := Upper(F);
    var kb := 1;
    while kb <= n
      invariant 1 <= kb <= n + 1 && RowsKnown(U, b[..], y, n + 1 - kb)
    {
      hide RowsKnown, Upper, Columns;
      SolveRow(a, lda, n, b, n - kb, y);
      kb := kb + 1;
    }
    RowsDone(U, b[..], y);
  }

  /** Finds unknown k and takes its share out of the equations before it. */
  method SolveRow(a: array<real>, lda: nat, n: nat, b: array<real>, k: nat, ghost y: Vec)
    requires Layout(a.Length, lda, n) && b.Length == n == |y| && a != b && k < n
    requires NonzeroDiagonal(Columns(a[..], lda, n), n)
    requires RowsKnown(Upper(Columns(a[..], lda, n)), b[..], y, k + 1)
    modifies b
    ensures RowsKnown(Upper(Columns(a[..], lda, n)), b[..], y, k)
  {
    hide AxpyAt, RowsKnown, Upper;
    ghost var v := b[..];
    OffOrder(lda, k, n);
    assert a[Off(lda, k) + k] == Columns(a[..], lda, n)[k][k];
    b[k] := b[k] / a[Off(lda, k) + k];
    var t := -b[k];
    ghost var w := b[..];
    Saxpy(k, t, a, Off(lda, k), b, 0);
    BackColumn(a[..], lda, n, v, w, b[..], k, y);
  }

  lemma RowsDone(U: Matrix, b: Vec, y: Vec)
    requires |b| == |y| && Square(U, |b|) && RowsKnown(U, b, y, 0)
    ensures MatVec(U, b) == y
  {
    forall i | 0 <= i < |b| ensures MatVec(U, b)[i] == y[i] {
      assert RowKnown(U, b, y, 0, i);
    }
  }

  // ----- job nonzero -----

  /** Rows before k of the transposed triangular system hold; the rest of b is untouched. */
  predicate SolvedT(F: Matrix, b: Vec, c: Vec, k: nat)
    requires |b| == |c| && Square(F, |b|) && k <= |b|
  {
    && (forall j :: 0 <= j < k ==> DotTo(F[j], b, j + 1) == c[j])
    && (forall j :: k <= j < |b| ==> b[j] == c[j])
  }

  /** First half of the transposed solve: solves the transpose of U times y = b in place. */
  method SubstituteT(a: array<real>, lda: nat, n: nat, b: array<real>)
    requires Layout(a.Length, lda, n) && b.Length == n && a != b
    requires NonzeroDiagonal(Columns(a[..], lda, n), n)
    modifies b
    ensures TransVec(Upper(Columns(a[..], lda, n)), b[..]) == old(b[..])
  {
    ghost var F, c := Columns(a[..], lda, n), b[..];
    assert SolvedT(F, c, c, 0);
    for k := 0 to n
      invariant SolvedT(F, b[..], c, k)
    {
      hide SolvedT, Columns;
      SolveRowT(a, lda, n, b, k, c);
    }
    UpperDots(F, b[..], c);
  }

  /** Finds unknown k from equation k and the unknowns before it. */
  method SolveRowT(a: array<real>, lda: nat, n: nat, b: array<real>, k: nat, ghost c: Vec)
    requires Layout(a.Length, lda, n) && b.Length == n == |c| && a != b && k < n
    requires NonzeroDiagonal(Columns(a[..], lda, n), n) && SolvedT(Columns(a[..], lda, n), b[..], c, k)
    modifies b
    ensures SolvedT(Columns(a[..], lda, n), b[..], c, k + 1)
  {
    hide Dot, SolvedT, Columns;
    ghost var F, v := Columns(a[..], lda, n), b[..];
    OffOrder(lda, k, n);
    var t := Sdot(k, a, Off(lda, k), b, 0);
    PrefixDot(a[..], lda, n, k, v);
    assert a[Off(lda, k)..Off(lda, k) + k] == a[..][Off(lda, k)..Off(lda, k) + k] && b[0..k] == v[..k];
    b[k] := (b[k] - t) / a[Off(lda, k) + k];
    TimesQuotient(F[k][k], v[k] - t);
    DiagonalSolved(F, v, b[..], c, k, t, b[k]);
  }

  lemma PrefixDot(a: seq<real>, lda: nat, n: nat, k: nat, v: Vec)
    requires Layout(|a|, lda, n) && k < n == |v| && Off(lda, k) + n <= |a|
    ensures DotTo(Columns(a, lda, n)[k], v, k)
         == if k > 0 then Dot(a[Off(lda, k)..Off(lda, k) + k], v[..k]) else 0.0
    ensures Columns(a, lda, n)[k][k] == a[Off(lda, k) + k]
  {
    DotToFrame(Columns(a, lda, n)[k], v, a[Off(lda, k)..Off(lda, k) + k], v[..k], k);
  }

  lemma TimesQuotient(d: real, x: real)
    requires d != 0.0
    ensures Times(d, x / d) == x
  {
  }

  lemma DiagonalSolved(F: Matrix, v: Vec, w: Vec, c: Vec, k: nat, t: real, q: real)
    requires Square(F, |v|) && k < |v| == |w| == |c| && SolvedT(F, v, c, k)
    requires t == DotTo(F[k], v, k) && Times(F[k][k], q) == v[k] - t && w == v[k := q]
    ensures SolvedT(F, w, c, k + 1)
  {
    hide Times;
    forall j | 0 <= j < k + 1 ensures DotTo(F[j], w, j + 1) == c[j] {
      DotToFrame(F[j], v, F[j], w, if j < k then j + 1 else k);
    }
  }

  lemma UpperDots(F: Matrix, y: Vec, c: Vec)
    requires |y| == |c| && Square(F, |y|) && SolvedT(F, y, c, |y|)
    ensures TransVec(Upper(F), y) == c
  {
    forall j | 0 <= j < |y| ensures TransVec(Upper(F), y)[j] == c[j] {
      DotToSkip(Upper(F)[j], y, j + 1, |y|);
      DotToFrame(Upper(F)[j], y, F[j], y, j + 1);
    }
  }

  /** Second half of the transposed solve: runs the transposed steps backwards over b. */
  method SweepBackward(a: array<real>, lda: nat, n: nat, ipvt: array<int>, b: array<real>)
    requires Layout(a.Length, lda, n) && ipvt.Length >= n && b.Length == n && a != b
    requires PivotsTo(ipvt[..], n - 1, n)
    modifies b
    ensures b[..] == BackwardT(Columns(a[..], lda, n), ipvt[..], n - 1, old(b[..]))
  {
    hide Dot, Columns, EliminateT;
    ghost var F, p := Columns(a[..], lda, n), ipvt[..];
    var kb := 1;
    while kb <= n - 1
      invariant 1 <= kb <= n
      invariant BackwardT(F, p, n - kb, b[..]) == BackwardT(F, p, n - 1, old(b[..]))
    {
      hide StepT;
      var k := n - kb - 1;
      ghost var w := b[..];
      OffOrder(lda, k, n);
      var t := Sdot(n - k - 1, a, Off(lda, k) + k + 1, b, k + 1);
      assert b[k + 1..k + 1 + (n - k - 1)] == w[k + 1..];
      b[k] := b[k] + t;
      ghost var v := b[..];
      SwapEntries(b, k, ipvt[k] - 1);
      TransposedStep(a[..], lda, n, p, k, w, t, v, b[..]);
      kb := kb + 1;
    }
  }

  lemma TransposedStep(a: seq<real>, lda: nat, n: nat, p: seq<int>, k: nat, w: Vec, t: real, v: Vec, r: Vec)
    requires Layout(|a|, lda, n) && k + 1 < n == |w| && PivotsTo(p, k + 1, n) && Off(lda, k) + n <= |a|
    requires t == Dot(a[Off(lda, k) + k + 1..Off(lda, k) + k + 1 + (n - k - 1)], w[k + 1..])
    requires v == w[k := w[k] + t] && r == Swap(v, k, p[k] - 1)
    ensures r == StepT(Columns(a, lda, n), p, k, w)
  {
    hide Dot;
    assert a[Off(lda, k) + k + 1..Off(lda, k) + k + 1 + (n - k - 1)] == Columns(a, lda, n)[k][k + 1..];
  }

  /** Solves A x = b (job 0) or the transposed system (any other job) in place,
      from the factors of A that sgefa left in a and ipvt. */
  method Sgesl(a: array<real>, lda: nat, n: nat, ipvt: array<int>, b: array<real>, job: int, ghost A: Matrix)
    requires Layout(a.Length, lda, n) && ipvt.Length >= n && b.Length == n && a != b
    requires Factored(A, Columns(a[..], lda, n), ipvt[..], n)
    requires NonzeroDiagonal(Columns(a[..], lda, n), n)
    modifies b
    ensures job == 0 ==> MatVec(A, b[..]) == old(b[..])
    ensures job != 0 ==> TransVec(A, b[..]) == old(b[..])
  {
    hide Factored, Forward, BackwardT, Columns, NonzeroDiagonal, MatVec, TransVec, Upper;
    ghost var F, p := Columns(a[..], lda, n), ipvt[..];
    FactoredParts(A, F, p, n);
    if job == 0 {
      SweepForward(a, lda, n, ipvt, b);
      BackSubstitute(a, lda, n, b);
      TriangularSystem(A, F, p, b[..], old(b[..]));
    } else {
      SubstituteT(a, lda, n, b);
      TransposedSystem(A, F, p, b[..], old(b[..]));
      SweepBackward(a, lda, n, ipvt, b);
    }
  }

  // ----- when is the solve possible? -----

  ghost predicate Nonsingular(A: Matrix, n: nat)
    requires Square(A, n)
  {
    forall x: Vec :: |x| == n && MatVec(A, x) == Zero(n) ==> x == Zero(n)
  }

  /** A vector with entry k equal to 1 and nothing after it, whose entries i, ...,
      k - 1 make rows i, ..., k - 1 of U x vanish. */
  ghost function NullVector(U: Matrix, k: nat, i: nat): (x: Vec)
    requires Square(U, |U|) && i <= k < |U|
    requires forall j :: 0 <= j < k ==> U[j][j] != 0.0
    ensures |x| == |U| && x[k] == 1.0
    ensures forall j :: k < j < |U| ==> x[j] == 0.0
    decreases k - i
  {
    if i == k then Zero(|U|)[k := 1.0]
    else
      var x := NullVector(U, k, i + 1);
      x[i := -RowFrom(U, x, i, i + 1) / U[i][i]]
  }

  lemma {:induction false} NullVectorRows(U: Matrix, k: nat, i: nat, r: nat)
    requires Square(U, |U|) && i <= k < |U| && r < |U| && i <= r
    requires forall j :: 0 <= j < k ==> U[j][j] != 0.0
    requires U[k][k] == 0.0 && forall j, s :: 0 <= j < s < |U| ==> U[j][s] == 0.0
    ensures RowFrom(U, NullVector(U, k, i), r, r) == 0.0
    decreases k - i
  {
    var x := NullVector(U, k, i);
    if r >= k {
      RowFromZero(U, x, r, r + 1);
      TimesZero(x[r]);
      TimesZero(U[r][r]);
    } else if i == r {
      var w := NullVector(U, k, i + 1);
      RowFromFrame(U, w, x, i, i + 1);
      assert Times(U[i][i], -RowFrom(U, w, i, i + 1) / U[i][i]) == -RowFrom(U, w, i, i + 1);
    } else {
      NullVectorRows(U, k, i + 1, r);
      RowFromFrame(U, NullVector(U, k, i + 1), x, r, r);
    }
  }

  lemma {:induction false} NonzeroIsInjective(U: Matrix, x: Vec, k: nat)
    requires Square(U, |x|) && k <= |x| && NonzeroDiagonal(U, |x|)
    requires forall j, s :: 0 <= j < s < |x| ==> U[j][s] == 0.0
    requires MatVec(U, x) == Zero(|x|)
    ensures forall j :: k <= j < |x| ==> x[j] == 0.0
    decreases |x| - k
  {
    if k < |x| {
      NonzeroIsInjective(U, x, k + 1);
      assert MatVec(U, x)[k] == 0.0;
      RowFromSkip(U, x, k, 0, k);
      RowFromZero(U, x, k, k + 1);
      assert Times(U[k][k], x[k]) == 0.0;
    }
  }

  lemma NonzeroDiagonalSuffices(A: Matrix, F: Matrix, p: seq<int>, n: nat)
    requires Factored(A, F, p, n) && NonzeroDiagonal(F, n)
    ensures Nonsingular(A, n)
  {
    hide Factored, Forward, MatVec;
    FactoredParts(A, F, p, n);
    ForwardZero(F, p, n - 1, n);
    forall x: Vec | |x| == n && MatVec(A, x) == Zero(n) ensures x == Zero(n) {
      TriangularSystem(A, F, p, x, Zero(n));
      NonzeroIsInjective(Upper(F), x, 0);
    }
  }

  lemma NullVectorSolves(U: Matrix, k: nat)
    requires Square(U, |U|) && k < |U| && U[k][k] == 0.0
    requires forall j :: 0 <= j < k ==> U[j][j] != 0.0
    requires forall j, s :: 0 <= j < s < |U| ==> U[j][s] == 0.0
    ensures MatVec(U, NullVector(U, k, 0)) == Zero(|U|)
  {
    hide RowFrom, NullVector;
    var x := NullVector(U, k, 0);
    forall r | 0 <= r < |U| ensures RowFrom(U, x, r, 0) == 0.0 {
      NullVectorRows(U, k, 0, r);
      RowFromSkip(U, x, r, 0, r);
    }
  }

  lemma ZeroDiagonalIsSingular(A: Matrix, F: Matrix, p: seq<int>, n: nat)
    requires Factored(A, F, p, n) && !NonzeroDiagonal(F, n)
    ensures !Nonsingular(A, n)
  {
    FactoredParts(A, F, p, n);
    hide Factored, Forward, NullVector, MatVec;
    var k := FirstZero(F, n);
    var x := NullVector(Upper(F), k, 0);
    NullVectorSolves(Upper(F), k);
    hide Upper, Square;
    ForwardZero(F, p, n - 1, n);
    TriangularSystem(A, F, p, x, Zero(n));
    assert MatVec(A, x) == Zero(n);
    assert x[k] != Zero(n)[k];
  }

  /** The factorization meets a zero pivot exactly when A is singular. */
  lemma NonsingularIffNonzeroDiagonal(A: Matrix, F: Matrix, p: seq<int>, n: nat)
    requires Factored(A, F, p, n)
    ensures Nonsingular(A, n) <==> NonzeroDiagonal(F, n)
  {
    hide Nonsingular, NonzeroDiagonal;
    if NonzeroDiagonal(F, n) {
      NonzeroDiagonalSuffices(A, F, p, n);
    } else {
      ZeroDiagonalIsSingular(A, F, p, n);
    }
  }

  lemma FirstZero(F: Matrix, n: nat) returns (k: nat)
    requires Square(F, n) && !NonzeroDiagonal(F, n)
    ensures k < n && F[k][k] == 0.0 && forall j :: 0 <= j < k ==> F[j][j] != 0.0
  {
    k := 0;
    while F[k][k] != 0.0
      invariant k < n && forall j :: 0 <= j < k ==> F[j][j] != 0.0
      decreases n - k
    {
      k := k + 1;
    }
  }
}
