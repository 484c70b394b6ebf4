/** The LINPACK factor-and-solve pair of extrap_TIN.c: sgefa and sgesl.
    Row, column and vector positions are zero-based here; the contents of ipvt
    and the value of info are one-based, as they are in the source. */
module Linpack {
  import opened Reals
  import opened Vectors
  import opened Blas
  import opened RowMajor

  // ----- the column-major layout -----

  function Off(lda: nat, j: nat): nat {
    j * lda
  }

  lemma OffOrder(lda: nat, j: nat, k: nat)
    requires j < k
    ensures Off(lda, j) + lda <= Off(lda, k)
  {
    RowOrder(lda, j, k);
  }

  predicate Layout(size: nat, lda: nat, n: nat) {
    1 <= n <= lda && Off(lda, n) <= size
  }

  function Column(a: seq<real>, lda: nat, n: nat, j: nat): (c: Vec)
    requires Layout(|a|, lda, n) && j < n
    ensures |c| == n
  {
    OffOrder(lda, j, n);
    a[Off(lda, j)..Off(lda, j) + n]
  }

  /** The matrix held in the leading n rows and columns of the array. */
  function Columns(a: seq<real>, lda: nat, n: nat): (A: Matrix)
    requires Layout(|a|, lda, n)
    ensures Square(A, n)
  {
    seq(n, j requires 0 <= j < n => Column(a, lda, n, j))
  }

  /** Writing inside one column leaves the others as they were. */
  lemma OtherColumns(a: seq<real>, b: seq<real>, lda: nat, n: nat, j: nat)
    requires Layout(|a|, lda, n) && j < n && SameOutside(a, b, Off(lda, j), n)
    ensures forall c :: 0 <= c < n && c != j ==> Column(a, lda, n, c) == Column(b, lda, n, c)
  {
    forall c | 0 <= c < n && c != j ensures Column(a, lda, n, c) == Column(b, lda, n, c) {
      OffOrder(lda, if c < j then c else j, if c < j then j else c);
      OffOrder(lda, c, n);
    }
  }

  // ----- elimination steps as operators on vectors -----

  function Swap(v: Vec, k: nat, l: nat): (r: Vec)
    requires k < |v| && l < |v|
    ensures |r| == |v|
  {
    v[k := v[l]][l := v[k]]
  }

  /** Adds m[i] times entry k to every entry i below k. */
  function Eliminate(v: Vec, k: nat, m: Vec): (r: Vec)
    requires k < |v| && |m| == |v|
    ensures |r| == |v|
  {
    seq(|v|, i requires 0 <= i < |v| => if i > k then v[i] + Times(v[k], m[i]) else v[i])
  }

  /** Divides the entries below k by minus entry k. */
  function Multipliers(c: Vec, k: nat): (r: Vec)
    requires k < |c| && c[k] != 0.0
    ensures |r| == |c|
  {
    seq(|c|, i requires 0 <= i < |c| => if i > k then Times(-1.0 / c[k], c[i]) else c[i])
  }

  predicate PivotsTo(p: seq<int>, k: nat, n: nat) {
    k <= |p| && forall s :: 0 <= s < k ==> s + 1 <= p[s] <= n
  }

  /** Elimination step k, read off the packed factors. */
  function StepVec(F: Matrix, p: seq<int>, k: nat, v: Vec): (r: Vec)
    requires Square(F, |v|) && k < |v| && PivotsTo(p, k + 1, |v|)
    ensures |r| == |v|
  {
    Eliminate(Swap(v, k, p[k] - 1), k, F[k])
  }

  /** Steps 0, 1, ..., k - 1 in turn. */
  function Forward(F: Matrix, p: seq<int>, k: nat, v: Vec): (r: Vec)
    requires Square(F, |v|) && k <= |v| && PivotsTo(p, k, |v|)
    ensures |r| == |v|
  {
    if k == 0 then v else StepVec(F, p, k - 1, Forward(F, p, k - 1, v))
  }

  function UpperPart(c: Vec, j: nat): (r: Vec)
    ensures |r| == |c|
  {
    seq(|c|, i requires 0 <= i < |c| => if i <= j then c[i] else 0.0)
  }

  /** The upper triangular factor. */
  function Upper(F: Matrix): (U: Matrix)
    ensures Square(F, |F|) ==> Square(U, |F|)
  {
    seq(|F|, j requires 0 <= j < |F| => UpperPart(F[j], j))
  }

  /** What k steps have made of v is held in column j of F: whole if the column
      is still to be eliminated, else its part on and above the diagonal. */
  predicate Holds(v: Vec, F: Matrix, p: seq<int>, k: nat, j: nat)
    requires Square(F, |v|) && k <= |v| && j < |v| && PivotsTo(p, k, |v|)
  {
    Forward(F, p, k, v) == if j < k then UpperPart(F[j], j) else F[j]
  }

  /** The columns of F hold what k steps have made of the columns of A. */
  ghost predicate Reduced(A: Matrix, F: Matrix, p: seq<int>, k: nat, n: nat) {
    && Square(A, n) && Square(F, n) && k <= n && PivotsTo(p, k, n)
    && forall j :: 0 <= j < n ==> Holds(A[j], F, p, k, j)
  }

  /** F and p hold a factorization of A: running all the steps over a column of A
      gives the same column of the upper triangle of F. */
  ghost predicate Factored(A: Matrix, F: Matrix, p: seq<int>, n: nat) {
    && n >= 1 && Square(A, n) && Square(F, n) && PivotsTo(p, n, n)
    && forall j :: 0 <= j < n ==> Forward(F, p, n - 1, A[j]) == UpperPart(F[j], j)
  }

  lemma StepFrame(F: Matrix, p: seq<int>, F': Matrix, p': seq<int>, k: nat, v: Vec)
    requires Square(F, |v|) && Square(F', |v|) && k < |v| && PivotsTo(p, k + 1, |v|) && PivotsTo(p', k + 1, |v|)
    requires F[k] == F'[k] && p[k] == p'[k]
    ensures StepVec(F, p, k, v) == StepVec(F', p', k, v)
  {
  }

  lemma {:induction false} ForwardFrame(F: Matrix, p: seq<int>, F': Matrix, p': seq<int>, k: nat, v: Vec)
    requires Square(F, |v|) && Square(F', |v|) && k <= |v| && PivotsTo(p, k, |v|) && PivotsTo(p', k, |v|)
    requires forall s :: 0 <= s < k ==> F[s] == F'[s] && p[s] == p'[s]
    ensures Forward(F, p, k, v) == Forward(F', p', k, v)
  {
    hide StepVec;
    if k > 0 {
      ForwardFrame(F, p, F', p', k - 1, v);
      StepFrame(F, p, F', p', k - 1, Forward(F, p, k - 1, v));
    }
  }

  /** One elimination step on the whole matrix: column k becomes pivots and
      multipliers, the later columns are swapped and eliminated. */
  function Pivoted(F: Matrix, k: nat, l: nat): (G: Matrix)
    requires Square(F, |F|) && k <= l < |F| && F[k][l] != 0.0
    ensures Square(G, |F|)
  {
    var m := Multipliers(Swap(F[k], k, l), k);
    seq(|F|, j requires 0 <= j < |F| =>
      if j < k then F[j] else if j == k then m else Eliminate(Swap(F[j], k, l), k, m))
  }

  lemma PivotColumnVanishes(c: Vec, k: nat)
    requires k < |c| && c[k] != 0.0
    ensures Eliminate(c, k, Multipliers(c, k)) == UpperPart(Multipliers(c, k), k)
  {
    forall i | k < i < |c| ensures c[i] + Times(c[k], Times(-1.0 / c[k], c[i])) == 0.0 {
      var d := c[k];
      assert d * (-1.0 / d) == -1.0;
      assert d * ((-1.0 / d) * c[i]) == (d * (-1.0 / d)) * c[i];
    }
  }

  lemma ZerosStay(c: Vec, j: nat, k: nat, l: nat, m: Vec)
    requires j < k <= l < |c| == |m|
    ensures Eliminate(Swap(UpperPart(c, j), k, l), k, m) == UpperPart(c, j)
  {
    forall i | k < i < |c| ensures Times(UpperPart(c, j)[l], m[i]) == 0.0 {
    }
  }

  /** One more step, with the pivot and the multipliers just found. */
  lemma {:induction false} ForwardStep(v: Vec, F: Matrix, p: seq<int>, k: nat, l: nat)
    requires Square(F, |v|) && k <= l < |v| && PivotsTo(p, k, |v|) && k < |p| && F[k][l] != 0.0
    ensures PivotsTo(p[k := l + 1], k + 1, |v|)
    ensures Forward(Pivoted(F, k, l), p[k := l + 1], k + 1, v)
         == Eliminate(Swap(Forward(F, p, k, v), k, l), k, Pivoted(F, k, l)[k])
  {
    hide Eliminate, Swap, Multipliers, StepVec;
    var G, p' := Pivoted(F, k, l), p[k := l + 1];
    assert forall s :: 0 <= s < k ==> F[s] == G[s] && p[s] == p'[s];
    hide Pivoted;
    ForwardFrame(F, p, G, p', k, v);
    LastStep(G, p', k, v);
  }

  lemma LastStep(F: Matrix, p: seq<int>, k: nat, v: Vec)
    requires Square(F, |v|) && k < |v| && PivotsTo(p, k + 1, |v|)
    ensures Forward(F, p, k + 1, v) == Eliminate(Swap(Forward(F, p, k, v), k, p[k] - 1), k, F[k])
  {
    hide Eliminate, Swap;
  }

  lemma {:induction false} HoldsStep(v: Vec, F: Matrix, p: seq<int>, k: nat, l: nat, j: nat)
    requires Square(F, |v|) && k <= l < |v| && j < |v| && PivotsTo(p, k, |v|) && k < |p|
    requires F[k][l] != 0.0 && Holds(v, F, p, k, j)
    ensures Holds(v, Pivoted(F, k, l), p[k := l + 1], k + 1, j)
  {
    var G := Pivoted(F, k, l);
    ForwardStep(v, F, p, k, l);
    hide Forward, Eliminate, Swap, Multipliers, UpperPart;
    if j < k {
      ZerosStay(F[j], j, k, l, G[k]);
    } else if j == k {
      PivotColumnVanishes(Swap(F[k], k, l), k);
    }
  }

  lemma ReducedStep(A: Matrix, F: Matrix, p: seq<int>, k: nat, l: nat, n: nat)
    requires Reduced(A, F, p, k, n) && k <= l < n && k < |p| && F[k][l] != 0.0
    ensures Reduced(A, Pivoted(F, k, l), p[k := l + 1], k + 1, n)
  {
    forall j | 0 <= j < n ensures Holds(A[j], Pivoted(F, k, l), p[k := l + 1], k + 1, j) {
      HoldsStep(A[j], F, p, k, l, j);
    }
  }

  lemma EliminateByZeros(v: Vec, k: nat, m: Vec)
    requires k < |v| == |m| && forall i :: k < i < |v| ==> m[i] == 0.0
    ensures Eliminate(Swap(v, k, k), k, m) == v
  {
    forall i | k < i < |v| ensures Times(v[k], m[i]) == 0.0 {
    }
  }

  lemma HoldsSkip(v: Vec, F: Matrix, p: seq<int>, k: nat, j: nat)
    requires Square(F, |v|) && k < |v| && j < |v| && PivotsTo(p, k, |v|) && k < |p|
    requires Holds(v, F, p, k, j) && forall i :: k <= i < |v| ==> F[k][i] == 0.0
    ensures Holds(v, F, p[k := k + 1], k + 1, j)
  {
    var w := Forward(F, p, k, v);
    assert Forward(F, p[k := k + 1], k + 1, v) == Eliminate(Swap(w, k, k), k, F[k]) by {
      ForwardFrame(F, p, F, p[k := k + 1], k, v);
    }
    EliminateByZeros(w, k, F[k]);
    if j == k {
      assert UpperPart(F[k], k) == F[k];
    }
  }

  /** A column that is already zero from the diagonal down needs no step: the
      search settles on the diagonal and the stored multipliers are zeros. */
  lemma ReducedSkip(A: Matrix, F: Matrix, p: seq<int>, k: nat, n: nat)
    requires Reduced(A, F, p, k, n) && k < n && k < |p|
    requires forall i :: k <= i < n ==> F[k][i] == 0.0
    ensures Reduced(A, F, p[k := k + 1], k + 1, n)
  {
    forall j | 0 <= j < n ensures Holds(A[j], F, p[k := k + 1], k + 1, j) {
      HoldsSkip(A[j], F, p, k, j);
    }
  }

  // ----- pivot growth -----

  function Pow2(k: nat): (r: real)
    ensures r >= 1.0
  {
    if k == 0 then 1.0 else 2.0 * Pow2(k - 1)
  }

  predicate Bounded(A: Matrix, n: nat, bound: real)
    requires Square(A, n)
  {
    forall j, i :: 0 <= j < n && 0 <= i < n ==> Abs(A[j][i]) <= bound
  }

  function MaxAbs(v: Vec): (r: real)
    requires v != []
    ensures forall i :: 0 <= i < |v| ==> Abs(v[i]) <= r
    ensures exists i :: 0 <= i < |v| && Abs(v[i]) == r
  {
    var last := Abs(v[|v| - 1]);
    if |v| == 1 then last
    else
      var r := MaxAbs(v[..|v| - 1]);
      if r < last then last else r
  }

  /** The largest absolute value of an entry of A. */
  function Largest(A: Matrix, n: nat): (r: real)
    requires n >= 1 && Square(A, n)
    ensures Bounded(A, n, r)
    ensures exists j, i :: 0 <= j < n && 0 <= i < n && Abs(A[j][i]) == r
  {
    var maxima := seq(n, j requires 0 <= j < n => MaxAbs(A[j]));
    assert forall j :: 0 <= j < n ==> maxima[j] == MaxAbs(A[j]) && maxima[j] >= 0.0 by {
      forall j | 0 <= j < n ensures maxima[j] >= 0.0 {
        assert Abs(A[j][0]) >= 0.0;
      }
    }
    MaxAbs(maxima)
  }

  /** After k steps a multiplier is at most 1 in absolute value, and an entry of
      row i has grown by at most a factor two for each step that touched it. */
  predicate EntryGrown(F: Matrix, k: nat, bound: real, n: nat, j: nat, i: nat)
    requires Square(F, n) && j < n && i < n
  {
    if j < k && i > j then Abs(F[j][i]) <= 1.0
    else Abs(F[j][i]) <= Times(Pow2(if i < k then i else k), bound)
  }

  predicate Grown(F: Matrix, k: nat, bound: real, n: nat)
    requires Square(F, n)
  {
    forall j, i :: 0 <= j < n && 0 <= i < n ==> EntryGrown(F, k, bound, n, j, i)
  }

  lemma QuotientBound(x: real, y: real)
    requires Abs(x) <= Abs(y) && y != 0.0
    ensures Abs(Times(-1.0 / y, x)) <= 1.0
  {
    var q, m := Abs(x) / Abs(y), Abs(y);
    assert q * m == Abs(x);
    assert q <= 1.0;
    assert Times(-1.0 / y, x) == -x / y;
    assert Abs(-x / y) == q;
  }

  lemma ProductBound(v: real, m: real, b: real)
    requires Abs(v) <= b && Abs(m) <= 1.0
    ensures Abs(Times(v, m)) <= b
  {
    var av, am := Abs(v), Abs(m);
    assert av * am <= av * 1.0;
    assert Abs(v * m) == av * am;
  }

  lemma Doubled(k: nat, bound: real)
    requires bound >= 0.0
    ensures Times(Pow2(k + 1), bound) == 2.0 * Times(Pow2(k), bound) >= Times(Pow2(k), bound) >= 0.0
  {
  }

  lemma GrownStep(F: Matrix, k: nat, l: nat, bound: real, n: nat)
    requires Square(F, n) && k <= l < n && F[k][l] != 0.0 && bound >= 0.0 && Grown(F, k, bound, n)
    requires forall i :: k <= i < n ==> Abs(F[k][i]) <= Abs(F[k][l])
    ensures Grown(Pivoted(F, k, l), k + 1, bound, n)
  {
    var G, k' := Pivoted(F, k, l), k + 1;
    forall i | k < i < n ensures Abs(G[k][i]) <= 1.0 {
      QuotientBound(Swap(F[k], k, l)[i], F[k][l]);
    }
    forall j, i | 0 <= j < n && 0 <= i < n ensures EntryGrown(G, k', bound, n, j, i) {
      EntryGrownStep(F, k, l, bound, n, j, i);
    }
  }

  lemma EntryGrownStep(F: Matrix, k: nat, l: nat, bound: real, n: nat, j: nat, i: nat)
    requires Square(F, n) && k <= l < n && F[k][l] != 0.0 && bound >= 0.0 && j < n && i < n
    requires EntryGrown(F, k, bound, n, j, i) && EntryGrown(F, k, bound, n, j, k) && EntryGrown(F, k, bound, n, j, l)
    requires k < i ==> Abs(Pivoted(F, k, l)[k][i]) <= 1.0
    ensures EntryGrown(Pivoted(F, k, l), k + 1, bound, n, j, i)
  {
    var G := Pivoted(F, k, l);
    Doubled(k, bound);
    if j > k && i > k {
      var w := Swap(F[j], k, l);
      assert G[j][i] == w[i] + Times(w[k], G[k][i]);
      ProductBound(w[k], G[k][i], Times(Pow2(k), bound));
    }
  }

  lemma GrownSkip(F: Matrix, k: nat, bound: real, n: nat)
    requires Square(F, n) && k < n && bound >= 0.0 && Grown(F, k, bound, n)
    requires forall i :: k <= i < n ==> F[k][i] == 0.0
    ensures Grown(F, k + 1, bound, n)
  {
    Doubled(k, bound);
    var k' := k + 1;
    forall j, i | 0 <= j < n && 0 <= i < n ensures EntryGrown(F, k', bound, n, j, i) {
      assert EntryGrown(F, k, bound, n, j, i);
    }
  }

  lemma UpperPartWhole(c: Vec)
    requires c != []
    ensures UpperPart(c, |c| - 1) == c
  {
  }

  lemma ReducedIsFactored(A: Matrix, F: Matrix, p: seq<int>, n: nat)
    requires n >= 1 && |p| >= n && Reduced(A, F, p, n - 1, n)
    ensures Factored(A, F, p[n - 1 := n], n)
  {
    hide Forward, UpperPart;
    var p' := p[n - 1 := n];
    UpperPartWhole(F[n - 1]);
    forall j | 0 <= j < n ensures Forward(F, p', n - 1, A[j]) == UpperPart(F[j], j) {
      assert Holds(A[j], F, p, n - 1, j);
      ForwardFrame(F, p, F, p', n - 1, A[j]);
    }
  }

  lemma StartReduced(A: Matrix, p: seq<int>, bound: real, n: nat)
    requires n >= 1 && Square(A, n) && Bounded(A, n, bound)
    ensures Reduced(A, A, p, 0, n) && Grown(A, 0, bound, n) && LastZero(A, 0, 0, n) && bound >= 0.0
  {
    assert Abs(A[0][0]) >= 0.0;
    forall j | 0 <= j < n ensures Holds(A[j], A, p, 0, j) {
    }
  }

  // ----- sgefa -----

  /** The info value for the first k pivots: the one-based position of the last
      zero on the diagonal, 0 when there is none. */
  predicate LastZero(F: Matrix, k: nat, info: nat, n: nat)
    requires Square(F, n) && k <= n
  {
    && info <= k
    && (info > 0 ==> F[info - 1][info - 1] == 0.0)
    && forall j :: info <= j < k ==> F[j][j] != 0.0
  }

  lemma SwapSlice(a: seq<real>, b: seq<real>, o: nat, n: nat, k: nat, l: nat)
    requires o + n <= |a| && k < n && l < n && b == a[o + l := a[o + k]][o + k := a[o + l]]
    ensures b[o..o + n] == Swap(a[o..o + n], k, l)
  {
  }

  lemma ScaleSlice(a: seq<real>, o: nat, n: nat, k: nat)
    requires o + n <= |a| && k < n && a[o + k] != 0.0
    ensures ScaleAt(-1.0 / a[o + k], a, o + k + 1, n - k - 1)[o..o + n] == Multipliers(a[o..o + n], k)
  {
  }

  lemma AxpySlice(a: seq<real>, o: nat, n: nat, k: nat, m: Vec)
    requires o + n <= |a| && k < n == |m|
    ensures AxpyAt(a[o + k], m[k + 1..], a, o + k + 1)[o..o + n] == Eliminate(a[o..o + n], k, m)
  {
  }

  /** The two sequences agree outside the n entries from offset o. */
  predicate SameOutside(a: seq<real>, b: seq<real>, o: nat, n: nat) {
    |a| == |b| && forall p :: 0 <= p < |a| && !(o <= p < o + n) ==> a[p] == b[p]
  }

  /** Swaps entries k and l of the n entries from offset o. */
  method SwapRows(a: array<real>, o: nat, n: nat, k: nat, l: nat)
    requires o + n <= a.Length && k < n && l < n
    modifies a
    ensures a[..][o..o + n] == Swap(old(a[..])[o..o + n], k, l)
    ensures SameOutside(a[..], old(a[..]), o, n)
  {
    ghost var b := a[..];
    if l != k {
      var t := a[o + l];
      a[o + l] := a[o + k];
      a[o + k] := t;
    }
    SwapSlice(b, a[..], o, n, k, l);
  }

  /** Brings entry l of the pivot column (the n entries from offset o) to position k
      and turns what lies below it into multipliers. */
  method MakeMultipliers(a: array<real>, o: nat, n: nat, k: nat, l: nat)
    requires o + n <= a.Length && k <= l < n && a[o + l] != 0.0
    modifies a
    ensures a[..][o..o + n] == Multipliers(Swap(old(a[..])[o..o + n], k, l), k)
    ensures SameOutside(a[..], old(a[..]), o, n)
  {
    SwapRows(a, o, n, k, l);
    ghost var b := a[..];
    var t := -1.0 / a[o + k];
    Sscal(n - k - 1, t, a, o + k + 1);
    ScaleSlice(b, o, n, k);
    assert a[..] == ScaleAt(t, b, o + k + 1, n - k - 1);
  }

  lemma EliminatedSlice(a: seq<real>, b: seq<real>, d: seq<real>, ok: nat, o: nat, n: nat, k: nat, l: nat)
    requires ok + n <= o && o + n <= |a| && k <= l < n
    requires SameOutside(b, a, o, n) && b[o..o + n] == Swap(a[o..o + n], k, l)
    requires d == if n - k - 1 > 0 then AxpyAt(b[o + k], b[ok + k + 1..ok + k + 1 + (n - k - 1)], b, o + k + 1) else b
    ensures d[o..o + n] == Eliminate(Swap(a[o..o + n], k, l), k, a[ok..ok + n])
    ensures SameOutside(d, a, o, n)
  {
    var m := a[ok..ok + n];
    assert b[ok + k + 1..ok + k + 1 + (n - k - 1)] == m[k + 1..];
    AxpySlice(b, o, n, k, m);
  }

  lemma SwappedEntry(a: seq<real>, b: seq<real>, o: nat, n: nat, k: nat, l: nat)
    requires o + n <= |a| == |b| && k < n && l < n && b[o..o + n] == Swap(a[o..o + n], k, l)
    ensures b[o + k] == a[o + l]
  {
    assert b[o..o + n][k] == b[o + k];
  }

  /** Swaps entries k and l of a later column (from offset o) and adds to it the
      multiples given by the pivot column (from offset ok). */
  method EliminateColumn(a: array<real>, ok: nat, o: nat, n: nat, k: nat, l: nat)
    requires ok + n <= o && o + n <= a.Length && k <= l < n
    modifies a
    ensures a[..][o..o + n] == Eliminate(Swap(old(a[..])[o..o + n], k, l), k, old(a[..])[ok..ok + n])
    ensures SameOutside(a[..], old(a[..]), o, n)
  {
    hide *;
    ghost var before := a[..];
    var t := a[o + l];
    SwapRows(a, o, n, k, l);
    ghost var b := a[..];
    SwappedEntry(before, b, o, n, k, l);
    AddMultiples(a, ok, o, n, k, t);
    EliminatedSlice(before, b, a[..], ok, o, n, k, l);
  }

  /** Adds t times the multipliers of the pivot column to the later column. */
  method AddMultiples(a: array<real>, ok: nat, o: nat, n: nat, k: nat, t: real)
    requires ok + n <= o && o + n <= a.Length && k < n
    modifies a
    ensures a[..] == if n - k - 1 > 0
                     then AxpyAt(t, old(a[..])[ok + k + 1..ok + k + 1 + (n - k - 1)], old(a[..]), o + k + 1)
                     else old(a[..])
  {
    hide *;
    Saxpy(n - k - 1, t, a, ok + k + 1, a, o + k + 1);
  }

  /** The matrix part way through an elimination step: columns before j are done. */
  ghost predicate PartPivoted(C: Matrix, F: Matrix, k: nat, l: nat, j: nat)
    requires Square(F, |F|) && |C| == |F| && k <= l < |F| && F[k][l] != 0.0
  {
    forall c :: 0 <= c < |F| ==> C[c] == if c < j then Pivoted(F, k, l)[c] else F[c]
  }

  lemma FirstPivoted(a: seq<real>, b: seq<real>, lda: nat, n: nat, k: nat, l: nat)
    requires Layout(|a|, lda, n) && k <= l < n && Column(a, lda, n, k)[l] != 0.0
    requires SameOutside(b, a, Off(lda, k), n)
    requires Column(b, lda, n, k) == Multipliers(Swap(Column(a, lda, n, k), k, l), k)
    ensures PartPivoted(Columns(b, lda, n), Columns(a, lda, n), k, l, k + 1)
  {
    OtherColumns(b, a, lda, n, k);
  }

  lemma NextPivoted(a: seq<real>, b: seq<real>, lda: nat, n: nat, F: Matrix, k: nat, l: nat, j: nat)
    requires Layout(|a|, lda, n) && k <= l < n && k < j < n && Square(F, n) && F[k][l] != 0.0
    requires PartPivoted(Columns(a, lda, n), F, k, l, j) && SameOutside(b, a, Off(lda, j), n)
    requires Column(b, lda, n, j) == Eliminate(Swap(Column(a, lda, n, j), k, l), k, Column(a, lda, n, k))
    ensures PartPivoted(Columns(b, lda, n), F, k, l, j + 1)
  {
    var C := Columns(a, lda, n);
    assert C[j] == F[j] && C[k] == Pivoted(F, k, l)[k];
    OtherColumns(b, a, lda, n, j);
    forall c | 0 <= c < n ensures Columns(b, lda, n)[c] == if c < j + 1 then Pivoted(F, k, l)[c] else F[c] {
      assert c != j ==> Columns(b, lda, n)[c] == C[c];
    }
  }

  /** Elimination step k over the whole matrix. */
  method EliminateStep(a: array<real>, lda: nat, n: nat, k: nat, l: nat, ghost F: Matrix)
    requires Layout(a.Length, lda, n) && k <= l < n
    requires F == Columns(a[..], lda, n) && F[k][l] != 0.0
    modifies a
    ensures Columns(a[..], lda, n) == Pivoted(F, k, l)
  {
    ghost var before := a[..];
    OffOrder(lda, k, n);
    MakeMultipliers(a, Off(lda, k), n, k, l);
    FirstPivoted(before, a[..], lda, n, k, l);
    for j := k + 1 to n
      invariant PartPivoted(Columns(a[..], lda, n), F, k, l, j)
    {
      hide PartPivoted, Pivoted, Columns;
      EliminateNext(a, lda, n, k, l, j, F);
    }
  }

  /** Elimination step k on column j. */
  method EliminateNext(a: array<real>, lda: nat, n: nat, k: nat, l: nat, j: nat, ghost F: Matrix)
    requires Layout(a.Length, lda, n) && k <= l < n && k < j < n && Square(F, n) && F[k][l] != 0.0
    requires PartPivoted(Columns(a[..], lda, n), F, k, l, j)
    modifies a
    ensures PartPivoted(Columns(a[..], lda, n), F, k, l, j + 1)
  {
    hide PartPivoted, Eliminate, Pivoted, Swap, Columns, SameOutside;
    ghost var before := a[..];
    OffOrder(lda, k, j);
    OffOrder(lda, j, n);
    EliminateColumn(a, Off(lda, k), Off(lda, j), n, k, l);
    NextPivoted(before, a[..], lda, n, F, k, l, j);
  }

  lemma LastZeroStep(F: Matrix, k: nat, l: nat, info: nat, n: nat)
    requires Square(F, n) && k <= l < n && F[k][l] != 0.0 && LastZero(F, k, info, n)
    ensures LastZero(Pivoted(F, k, l), k + 1, info, n)
  {
  }

  lemma LastZeroSkip(F: Matrix, k: nat, info: nat, n: nat)
    requires Square(F, n) && k < n && LastZero(F, k, info, n)
    ensures LastZero(F, k + 1, if F[k][k] == 0.0 then k + 1 else info, n)
  {
  }

  /** What the pivot search has found, in terms of the matrix. */
  lemma PivotFound(a: seq<real>, lda: nat, n: nat, k: nat, l: nat)
    requires Layout(|a|, lda, n) && k <= l < n && Off(lda, k) + n <= |a|
    requires forall p :: Off(lda, k) + k <= p < Off(lda, k) + n ==> Abs(a[p]) <= Abs(a[Off(lda, k) + l])
    requires forall p :: Off(lda, k) + k <= p < Off(lda, k) + l ==> Abs(a[p]) < Abs(a[Off(lda, k) + l])
    ensures Columns(a, lda, n)[k][l] == a[Off(lda, k) + l]
    ensures forall i :: k <= i < n ==> Abs(Columns(a, lda, n)[k][i]) <= Abs(a[Off(lda, k) + l])
    ensures a[Off(lda, k) + l] == 0.0 ==> l == k && forall i :: k <= i < n ==> Columns(a, lda, n)[k][i] == 0.0
  {
    forall i | k <= i < n ensures Columns(a, lda, n)[k][i] == a[Off(lda, k) + i] {
    }
    if l > k {
      assert Abs(a[Off(lda, k) + k]) < Abs(a[Off(lda, k) + l]);
    }
  }

  lemma CornerEntry(a: seq<real>, lda: nat, n: nat)
    requires Layout(|a|, lda, n)
    ensures Off(lda, n - 1) + n <= |a| && Columns(a, lda, n)[n - 1][n - 1] == a[Off(lda, n - 1) + n - 1]
  {
    OffOrder(lda, n - 1, n);
  }

  /** Factors a real matrix by Gaussian elimination with partial pivoting, in place. */
  method Sgefa(a: array<real>, lda: nat, n: nat, ipvt: array<int>) returns (info: nat)
    requires Layout(a.Length, lda, n) && ipvt.Length >= n
    modifies a, ipvt
    ensures Factored(old(Columns(a[..], lda, n)), Columns(a[..], lda, n), ipvt[..], n)
    ensures LastZero(Columns(a[..], lda, n), n, info, n)
    ensures Grown(Columns(a[..], lda, n), n - 1, old(Largest(Columns(a[..], lda, n), n)), n)
  {
    hide Columns, Largest;
    hide Reduced, Factored, LastZero, Grown, Bounded, Pivoted;
    ghost var A, p := Columns(a[..], lda, n), ipvt[..];
    ghost var F, bound := A, Largest(A, n);
    StartReduced(A, p, bound, n);
    info := 0;
    for k := 0 to n - 1
      invariant F == Columns(a[..], lda, n) && p == ipvt[..]
      invariant Reduced(A, F, p, k, n) && LastZero(F, k, info, n) && Grown(F, k, bound, n)
    {
      OffOrder(lda, k, n);
      var o := Off(lda, k);
      var l := Isamax(n - k, a, o + k);
      l := l + k - 1;
      PivotFound(a[..], lda, n, k, l);
      ipvt[k] := l + 1;
      if a[o + l] != 0.0 {
        ReducedStep(A, F, p, k, l, n);
        EliminateStep(a, lda, n, k, l, F);
        GrownStep(F, k, l, bound, n);
        LastZeroStep(F, k, l, info, n);
        F := Pivoted(F, k, l);
      } else {
        ReducedSkip(A, F, p, k, n);
        GrownSkip(F, k, bound, n);
        LastZeroSkip(F, k, info, n);
        info := k + 1;
      }
      p := p[k := l + 1];
    }
    ReducedIsFactored(A, F, p, n);
    LastZeroSkip(F, n - 1, info, n);
    ipvt[n - 1] := n;
    assert ipvt[..] == p[n - 1 := n];
    CornerEntry(a[..], lda, n);
    if a[Off(lda, n - 1) + n - 1] == 0.0 {
      info := n;
    }
  }
}
