/** The BLAS level-1 kernels bundled with extrap_TIN.c, for unit increments.
    A C pointer into a vector is an array together with an offset. */
module Blas {
  import opened Reals
  import opened Vectors

  /** The one-based position of the first entry of largest absolute value among
      the n entries from offset xo, or 0 when n < 1. */
  method Isamax(n: int, sx: array<real>, xo: nat) returns (r: int)
    requires n > 0 ==> xo + n <= sx.Length
    ensures n < 1 ==> r == 0
    ensures n >= 1 ==> 1 <= r <= n
    ensures forall p :: xo <= p < xo + n ==> Abs(sx[p]) <= Abs(sx[xo + r - 1])
    ensures forall p :: xo <= p < xo + r - 1 ==> Abs(sx[p]) < Abs(sx[xo + r - 1])
  {
    r := 0;
    if n < 1 {
      return;
    }
    r := 1;
    if n == 1 {
      return;
    }
    var smax := Abs(sx[xo]);
    for i := 2 to n + 1
      invariant 1 <= r < i && smax == Abs(sx[xo + r - 1])
      invariant forall p :: xo <= p < xo + i - 1 ==> Abs(sx[p]) <= smax
      invariant forall p :: xo <= p < xo + r - 1 ==> Abs(sx[p]) < smax
    {
      if Abs(sx[xo + i - 1]) > smax {
        r := i;
        smax := Abs(sx[xo + i - 1]);
      }
    }
  }

  /** y with sa * x added to the |x| entries from offset yo. */
  function AxpyAt(sa: real, x: Vec, y: Vec, yo: nat): (r: Vec)
    requires yo + |x| <= |y|
  {
    seq(|y|, p requires 0 <= p < |y| => if yo <= p < yo + |x| then y[p] + Times(sa, x[p - yo]) else y[p])
  }

  /** x with the n entries from offset xo multiplied by sa. */
  function ScaleAt(sa: real, x: Vec, xo: nat, n: nat): (r: Vec)
    requires xo + n <= |x|
  {
    seq(|x|, p requires 0 <= p < |x| => if xo <= p < xo + n then Times(sa, x[p]) else x[p])
  }

  /** One pass of the unrolled loop of Saxpy. */
  method SaxpyFour(sa: real, sx: array<real>, xi: nat, sy: array<real>, yi: nat)
    requires xi + 4 <= sx.Length && yi + 4 <= sy.Length
    requires sx == sy ==> xi + 4 <= yi || yi + 4 <= xi
    modifies sy
    ensures forall p :: yi <= p < yi + 4 ==> sy[p] == old(sy[p]) + Times(sa, old(sx[xi + p - yi]))
    ensures forall p :: 0 <= p < sy.Length && !(yi <= p < yi + 4) ==> sy[p] == old(sy[p])
  {
    hide Times;
    sy[yi] := sy[yi] + Times(sa, sx[xi]);
    sy[yi + 1] := sy[yi + 1] + Times(sa, sx[xi + 1]);
    sy[yi + 2] := sy[yi + 2] + Times(sa, sx[xi + 2]);
    sy[yi + 3] := sy[yi + 3] + Times(sa, sx[xi + 3]);
  }

  /** The first i entries of the range from yo are those of want, the rest those of y. */
  predicate Mixed(s: Vec, y: Vec, want: Vec, yo: nat, i: nat) {
    && |s| == |y| == |want|
    && forall p :: 0 <= p < |s| ==> s[p] == if yo <= p < yo + i then want[p] else y[p]
  }

  /** Adding at entries i, ..., i + c - 1 of the range extends the part that is done. */
  lemma Extended(s: Vec, r: Vec, sa: real, x: Vec, y: Vec, yo: nat, i: nat, c: nat)
    requires yo + |x| <= |y| && i + c <= |x| && Mixed(s, y, AxpyAt(sa, x, y, yo), yo, i) && |r| == |s|
    requires forall p :: 0 <= p < |r| ==>
      r[p] == if yo + i <= p < yo + i + c then s[p] + Times(sa, x[p - yo]) else s[p]
    ensures Mixed(r, y, AxpyAt(sa, x, y, yo), yo, i + c)
  {
    hide Times;
  }

  lemma NothingToAdd(x: Vec, y: Vec, yo: nat)
    requires yo + |x| <= |y|
    ensures AxpyAt(0.0, x, y, yo) == y
  {
    forall p | yo <= p < yo + |x| ensures AxpyAt(0.0, x, y, yo)[p] == y[p] {
      TimesZero(x[p - yo]);
    }
  }

  /** Adds sa times n entries of sx to n entries of sy: a clean-up loop of n mod 4
      single steps, then a loop unrolled four times. */
  method Saxpy(n: int, sa: real, sx: array<real>, xo: nat, sy: array<real>, yo: nat)
    requires n > 0 ==> xo + n <= sx.Length && yo + n <= sy.Length
    requires sx == sy ==> xo + n <= yo || yo + n <= xo
    modifies sy
    ensures sy[..] == if n > 0 then AxpyAt(sa, old(sx[xo..xo + n]), old(sy[..]), yo) else old(sy[..])
  {
    hide Times;
    if n <= 0 {
      return;
    }
    ghost var x, y := sx[xo..xo + n], sy[..];
    ghost var want := AxpyAt(sa, x, y, yo);
    if sa == 0.0 {
      NothingToAdd(x, y, yo);
      return;
    }
    var m := n % 4;
    for i := 0 to m
      invariant forall p :: xo <= p < xo + n ==> sx[p] == x[p - xo]
      invariant Mixed(sy[..], y, want, yo, i)
    {
      hide Mixed, AxpyAt;
      ghost var s := sy[..];
      sy[yo + i] := sy[yo + i] + Times(sa, sx[xo + i]);
      Extended(s, sy[..], sa, x, y, yo, i, 1);
    }
    if n < 4 {
      return;
    }
    var i := m;
    ghost var c := n / 4;
    while i < n
      invariant m <= i <= n && n - i == 4 * c
      invariant forall p :: xo <= p < xo + n ==> sx[p] == x[p - xo]
      invariant Mixed(sy[..], y, want, yo, i)
    {
      hide Mixed, AxpyAt;
      ghost var s := sy[..];
      SaxpyFour(sa, sx, xo + i, sy, yo + i);
      Extended(s, sy[..], sa, x, y, yo, i, 4);
      i := i + 4;
      c := c - 1;
    }
  }

  /** One pass of the unrolled loop of Sscal. */
  method SscalFive(sa: real, sx: array<real>, xi: nat)
    requires xi + 5 <= sx.Length
    modifies sx
    ensures forall p :: 0 <= p < sx.Length ==>
      sx[p] == if xi <= p < xi + 5 then Times(sa, old(sx[p])) else old(sx[p])
  {
    hide Times;
    sx[xi] := Times(sa, sx[xi]);
    sx[xi + 1] := Times(sa, sx[xi + 1]);
    sx[xi + 2] := Times(sa, sx[xi + 2]);
    sx[xi + 3] := Times(sa, sx[xi + 3]);
    sx[xi + 4] := Times(sa, sx[xi + 4]);
  }

  /** Scales n entries of sx by sa, unrolled five times. */
  method Sscal(n: int, sa: real, sx: array<real>, xo: nat)
    requires n > 0 ==> xo + n <= sx.Length
    modifies sx
    ensures sx[..] == if n > 0 then ScaleAt(sa, old(sx[..]), xo, n) else old(sx[..])
  {
    hide Times;
    if n <= 0 {
      return;
    }
    ghost var x := sx[..];
    ghost var want := ScaleAt(sa, x, xo, n);
    var m := n % 5;
    for i := 0 to m
      invariant forall p :: 0 <= p < |want| ==> sx[p] == if xo <= p < xo + i then want[p] else x[p]
    {
      sx[xo + i] := Times(sa, sx[xo + i]);
    }
    if n < 5 {
      return;
    }
    var i := m;
    ghost var c := n / 5;
    while i < n
      invariant m <= i <= n && n - i == 5 * c
      invariant forall p :: 0 <= p < |want| ==> sx[p] == if xo <= p < xo + i then want[p] else x[p]
    {
      SscalFive(sa, sx, xo + i);
      i := i + 5;
      c := c - 1;
    }
  }

  /** The dot product of n entries of sx and n entries of sy, unrolled five times. */
  method Sdot(n: int, sx: array<real>, xo: nat, sy: array<real>, yo: nat) returns (stemp: real)
    requires n > 0 ==> xo + n <= sx.Length && yo + n <= sy.Length
    ensures n <= 0 ==> stemp == 0.0
    ensures n > 0 ==> stemp == Dot(sx[xo..xo + n], sy[yo..yo + n])
  {
    hide Times;
    stemp := 0.0;
    if n <= 0 {
      return;
    }
    ghost var u, v := sx[xo..xo + n], sy[yo..yo + n];
    var m := n % 5;
    for i := 0 to m
      invariant stemp == DotTo(u, v, i)
    {
      stemp := stemp + Times(sx[xo + i], sy[yo + i]);
    }
    if n < 5 {
      return;
    }
    var i := m;
    ghost var c := n / 5;
    while i < n
      invariant m <= i <= n && n - i == 5 * c
      invariant stemp == DotTo(u, v, i)
    {
      c := c - 1;
      DotToFive(u, v, i);
      assert forall q :: i <= q < i + 5 ==> u[q] == sx[xo + q] && v[q] == sy[yo + q];
      stemp := stemp + Times(sx[xo + i], sy[yo + i]) + Times(sx[xo + i + 1], sy[yo + i + 1]) + Times(sx[xo + i + 2], sy[yo + i + 2])
        + Times(sx[xo + i + 3], sy[yo + i + 3]) + Times(sx[xo + i + 4], sy[yo + i + 4]);
      i := i + 5;
    }
  }

  lemma DotToFive(u: Vec, v: Vec, i: nat)
    requires i + 5 <= |u| && i + 5 <= |v|
    ensures DotTo(u, v, i + 5) == DotTo(u, v, i) + Times(u[i], v[i]) + Times(u[i + 1], v[i + 1]) + Times(u[i + 2], v[i + 2])
                                  + Times(u[i + 3], v[i + 3]) + Times(u[i + 4], v[i + 4])
  {
    hide Times;
    assert DotTo(u, v, i + 2) == DotTo(u, v, i) + Times(u[i], v[i]) + Times(u[i + 1], v[i + 1]);
    assert DotTo(u, v, i + 4) == DotTo(u, v, i + 2) + Times(u[i + 2], v[i + 2]) + Times(u[i + 3], v[i + 3]);
  }
}
