/** Real vectors and square matrices.  A matrix is the sequence of its columns,
    which is how the Fortran-style arrays of extrap_TIN.c are laid out. */
module Vectors {
  import opened Reals

  type Vec = seq<real>
  type Matrix = seq<Vec>

  predicate Square(A: Matrix, n: nat) {
    |A| == n && forall j :: 0 <= j < n ==> |A[j]| == n
  }

  function Zero(n: nat): Vec {
    seq(n, _ => 0.0)
  }

  /** y + c * x */
  function Axpy(c: real, x: Vec, y: Vec): Vec
    requires |x| == |y|
  {
    seq(|x|, i requires 0 <= i < |x| => y[i] + Times(c, x[i]))
  }

  /** The sum of u[i] * v[i] over i < m. */
  function DotTo(u: Vec, v: Vec, m: nat): real
    requires m <= |u| && m <= |v|
  {
    if m == 0 then 0.0 else DotTo(u, v, m - 1) + Times(u[m - 1], v[m - 1])
  }

  function Dot(u: Vec, v: Vec): real
    requires |u| == |v|
  {
    DotTo(u, v, |u|)
  }

  /** Row i of A times x, columns k and later only. */
  function RowFrom(A: Matrix, x: Vec, i: nat, k: nat): real
    requires Square(A, |x|) && i < |x| && k <= |x|
    decreases |x| - k
  {
    if k == |x| then 0.0 else Times(A[k][i], x[k]) + RowFrom(A, x, i, k + 1)
  }

  /** A times x. */
  function MatVec(A: Matrix, x: Vec): Vec
    requires Square(A, |x|)
  {
    seq(|x|, i requires 0 <= i < |x| => RowFrom(A, x, i, 0))
  }

  /** The transpose of A times x. */
  function TransVec(A: Matrix, x: Vec): Vec
    requires Square(A, |x|)
  {
    seq(|x|, j requires 0 <= j < |x| => Dot(A[j], x))
  }

  /** A times x once more, as a combination of the columns k and later. */
  function LinComb(A: Matrix, x: Vec, k: nat): Vec
    requires Square(A, |x|) && k <= |x|
    ensures |LinComb(A, x, k)| == |x|
    decreases |x| - k
  {
    if k == |x| then Zero(|x|) else Axpy(x[k], A[k], LinComb(A, x, k + 1))
  }

  lemma {:induction false} LinCombRow(A: Matrix, x: Vec, i: nat, k: nat)
    requires Square(A, |x|) && i < |x| && k <= |x|
    ensures LinComb(A, x, k)[i] == RowFrom(A, x, i, k)
    decreases |x| - k
  {
    if k < |x| {
      LinCombRow(A, x, i, k + 1);
    }
  }

  lemma MatVecIsLinComb(A: Matrix, x: Vec)
    requires Square(A, |x|)
    ensures MatVec(A, x) == LinComb(A, x, 0)
  {
    forall i | 0 <= i < |x| ensures MatVec(A, x)[i] == LinComb(A, x, 0)[i] {
      LinCombRow(A, x, i, 0);
    }
  }

  /** A row sum reads only the columns, and the entries of x, at k and later. */
  lemma {:induction false} RowFromFrame(A: Matrix, x: Vec, y: Vec, i: nat, k: nat)
    requires |x| == |y| && Square(A, |x|) && i < |x| && k <= |x|
    requires forall j :: k <= j < |x| ==> x[j] == y[j]
    ensures RowFrom(A, x, i, k) == RowFrom(A, y, i, k)
    decreases |x| - k
  {
    if k < |x| {
      RowFromFrame(A, x, y, i, k + 1);
    }
  }

  /** Leading zero coefficients in a row do not contribute. */
  lemma {:induction false} RowFromSkip(A: Matrix, x: Vec, i: nat, k: nat, m: nat)
    requires Square(A, |x|) && i < |x| && k <= m <= |x|
    requires forall j :: k <= j < m ==> A[j][i] == 0.0
    ensures RowFrom(A, x, i, k) == RowFrom(A, x, i, m)
    decreases m - k
  {
    if k < m {
      RowFromSkip(A, x, i, k + 1, m);
    }
  }

  /** Zero unknowns do not contribute. */
  lemma {:induction false} RowFromZero(A: Matrix, x: Vec, i: nat, k: nat)
    requires Square(A, |x|) && i < |x| && k <= |x|
    requires forall j :: k <= j < |x| ==> x[j] == 0.0
    ensures RowFrom(A, x, i, k) == 0.0
    decreases |x| - k
  {
    if k < |x| {
      RowFromZero(A, x, i, k + 1);
    }
  }

  lemma {:induction false} DotToFrame(u: Vec, v: Vec, u': Vec, v': Vec, m: nat)
    requires m <= |u| && m <= |v| && m <= |u'| && m <= |v'|
    requires forall i :: 0 <= i < m ==> u[i] == u'[i] && v[i] == v'[i]
    ensures DotTo(u, v, m) == DotTo(u', v', m)
  {
    if m > 0 {
      DotToFrame(u, v, u', v', m - 1);
    }
  }

  /** Trailing zeros of u do not contribute. */
  lemma {:induction false} DotToSkip(u: Vec, v: Vec, m: nat, n: nat)
    requires m <= n <= |u| && n <= |v|
    requires forall i :: m <= i < n ==> u[i] == 0.0
    ensures DotTo(u, v, n) == DotTo(u, v, m)
    decreases n - m
  {
    if m < n {
      DotToSkip(u, v, m, n - 1);
    }
  }

  lemma {:induction false} DotToSymmetric(u: Vec, v: Vec, m: nat)
    requires m <= |u| && m <= |v|
    ensures DotTo(u, v, m) == DotTo(v, u, m)
  {
    if m > 0 {
      DotToSymmetric(u, v, m - 1);
    }
  }

  /** Replacing one entry of u changes the product by that entry's share. */
  lemma {:induction false} DotToUpdate(u: Vec, v: Vec, k: nat, c: real, m: nat)
    requires k < |u| && m <= |u| && m <= |v|
    ensures DotTo(u[k := c], v, m) == DotTo(u, v, m) + if k < m then Times(c - u[k], v[k]) else 0.0
  {
    if m > 0 {
      DotToUpdate(u, v, k, c, m - 1);
    }
  }

  lemma {:induction false} DotToAxpy(c: real, x: Vec, y: Vec, w: Vec, m: nat)
    requires |x| == |y| == |w| && m <= |x|
    ensures DotTo(Axpy(c, x, y), w, m) == DotTo(y, w, m) + Times(c, DotTo(x, w, m))
  {
    if m > 0 {
      DotToAxpy(c, x, y, w, m - 1);
      var p, q, r := y[m - 1], x[m - 1], w[m - 1];
      hide Times;
      TimesSum(p, Times(c, q), r);
      TimesTimes(c, q, r);
      SumTimes(c, DotTo(x, w, m - 1), Times(q, r));
    } else {
      TimesZero(c);
    }
  }

  lemma TimesSum(a: real, b: real, c: real)
    ensures Times(a + b, c) == Times(a, c) + Times(b, c)
  {
  }

  lemma SumTimes(c: real, a: real, b: real)
    ensures Times(c, a + b) == Times(c, a) + Times(c, b)
  {
  }

  lemma TimesTimes(a: real, b: real, c: real)
    ensures Times(Times(a, b), c) == Times(a, Times(b, c))
  {
  }
}
