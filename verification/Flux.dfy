/** flux.c: the net flux out of every interior cell, by walking pointers through the
    conductivity, the head and the result together. */
module Flux {
  import opened Databoxes

  /** The harmonic mean, zero for opposite values. */
  function Mean(a: real, b: real): real {
    if a + b != 0.0 then 2.0 * a * b / (a + b) else 0.0
  }

  /** The flux from a cell with conductivity k0 and head h0 to the next one, per unit area. */
  function FaceFlux(k0: real, k1: real, h0: real, h1: real, spacing: real): real
    requires spacing != 0.0
  {
    -Mean(k1, k0) * (h1 - h0) / spacing
  }

  /** The mean does not depend on the order of the cells, so the flux between two cells is
      the opposite of that the other way. */
  lemma FluxReversed(k0: real, k1: real, h0: real, h1: real, spacing: real)
    requires spacing != 0.0
    ensures FaceFlux(k1, k0, h1, h0, spacing) == -FaceFlux(k0, k1, h0, h1, spacing)
  {
    assert Mean(k0, k1) == Mean(k1, k0) by {
      assert 2.0 * k0 * k1 == 2.0 * k1 * k0;
    }
    var m := Mean(k0, k1);
    assert -m * (h0 - h1) == -(-m * (h1 - h0));
  }

  /** q flows from a cell with conductivity k and head h to a face half a spacing away with head hf. */
  predicate FlowsTo(q: real, k: real, h: real, hf: real, spacing: real) {
    q * (spacing / 2.0) == k * (h - hf)
  }

  /** The flux through the face between two cells: there is one head at the face with which the
      same flows from the first cell to the face and from the face to the second; if the
      conductivities cancel nothing flows. */
  ghost predicate IsFaceFlux(q: real, k0: real, k1: real, h0: real, h1: real, spacing: real) {
    if k0 + k1 == 0.0 then q == 0.0
    else exists hf :: FlowsTo(q, k0, h0, hf, spacing) && FlowsTo(-q, k1, h1, hf, spacing)
  }

  lemma FaceFluxIs(k0: real, k1: real, h0: real, h1: real, spacing: real)
    requires spacing != 0.0
    ensures IsFaceFlux(FaceFlux(k0, k1, h0, h1, spacing), k0, k1, h0, h1, spacing)
  {
    var q := FaceFlux(k0, k1, h0, h1, spacing);
    if k0 + k1 != 0.0 {
      var hf := (k0 * h0 + k1 * h1) / (k0 + k1);
      assert hf == (k1 * h1 + k0 * h0) / (k1 + k0);
      FlowsFromMean(k0, k1, h0, h1, hf, spacing);
      FlowsFromMean(k1, k0, h1, h0, hf, spacing);
      FluxReversed(k0, k1, h0, h1, spacing);
      hide FaceFlux, FlowsTo;
      assert FlowsTo(q, k0, h0, hf, spacing) && FlowsTo(-q, k1, h1, hf, spacing);
    } else {
      assert Mean(k1, k0) == 0.0;
    }
  }

  lemma FlowsFromMean(k0: real, k1: real, h0: real, h1: real, hf: real, spacing: real)
    requires spacing != 0.0 && k0 + k1 != 0.0 && hf == (k0 * h0 + k1 * h1) / (k0 + k1)
    ensures FlowsTo(FaceFlux(k0, k1, h0, h1, spacing), k0, h0, hf, spacing)
  {
    FluxTimes(Mean(k1, k0), h1 - h0, spacing);
    MeanFlow(k0, k1, h0, h1);
    hide Mean;
  }

  /** Only one flux is, and it is zero if a conductivity is. */
  lemma FaceFluxUnique(q: real, r: real, k0: real, k1: real, h0: real, h1: real, spacing: real)
    requires spacing != 0.0 && IsFaceFlux(q, k0, k1, h0, h1, spacing) && IsFaceFlux(r, k0, k1, h0, h1, spacing)
    ensures q == r && (k0 == 0.0 || k1 == 0.0 ==> q == 0.0)
  {
    if k0 + k1 != 0.0 {
      var hf :| FlowsTo(q, k0, h0, hf, spacing) && FlowsTo(-q, k1, h1, hf, spacing);
      var hg :| FlowsTo(r, k0, h0, hg, spacing) && FlowsTo(-r, k1, h1, hg, spacing);
      hide FlowsTo;
      FlowSolved(q, k0, k1, h0, h1, hf, spacing);
      FlowSolved(r, k0, k1, h0, h1, hg, spacing);
    }
  }

  /** The head at the face eliminated. */
  lemma FlowSolved(q: real, k0: real, k1: real, h0: real, h1: real, hf: real, spacing: real)
    requires FlowsTo(q, k0, h0, hf, spacing) && FlowsTo(-q, k1, h1, hf, spacing) && spacing != 0.0 && k0 + k1 != 0.0
    ensures q == Solved(k0, k1, h0, h1, spacing)
    ensures k0 == 0.0 || k1 == 0.0 ==> q == 0.0
  {
    FlowFactors(q, k0, k1, h0, h1, hf, spacing / 2.0);
    FactorNonzero(k0 + k1, spacing / 2.0);
    var c, d := (k0 + k1) * (spacing / 2.0), k0 * k1 * (h0 - h1);
    assert q * c == d;
    assert d / c * c == d;
    SameFactor(q, d / c, c);
    if k0 == 0.0 || k1 == 0.0 {
      assert d == 0.0;
      SameFactor(q, 0.0, c);
    }
  }

  function Solved(k0: real, k1: real, h0: real, h1: real, spacing: real): real
    requires spacing != 0.0 && k0 + k1 != 0.0
  {
    FactorNonzero(k0 + k1, spacing / 2.0);
    k0 * k1 * (h0 - h1) / ((k0 + k1) * (spacing / 2.0))
  }

  lemma FactorNonzero(a: real, b: real)
    requires a != 0.0 && b != 0.0
    ensures a * b != 0.0
  {
  }

  lemma FlowFactors(q: real, k0: real, k1: real, h0: real, h1: real, hf: real, a: real)
    requires q * a == k0 * (h0 - hf) && -q * a == k1 * (h1 - hf)
    ensures q * ((k0 + k1) * a) == k0 * k1 * (h0 - h1)
  {
    assert q * ((k0 + k1) * a) == k1 * (q * a) - k0 * (-q * a);
    assert k1 * (k0 * (h0 - hf)) - k0 * (k1 * (h1 - hf)) == k0 * k1 * (h0 - h1);
  }

  lemma SameFactor(q: real, r: real, c: real)
    requires c != 0.0
    ensures q * c == r * c ==> q == r
  {
  }

  lemma FluxTimes(m: real, d: real, spacing: real)
    requires spacing != 0.0
    ensures -m * d / spacing * (spacing / 2.0) == -m * d / 2.0
  {
    var q := -m * d / spacing;
    assert q * spacing == -m * d;
  }

  lemma MeanFlow(k0: real, k1: real, h0: real, h1: real)
    requires k0 + k1 != 0.0
    ensures -Mean(k1, k0) * (h1 - h0) / 2.0 == k0 * (h0 - (k0 * h0 + k1 * h1) / (k0 + k1))
  {
    var s, hf, m := k0 + k1, (k0 * h0 + k1 * h1) / (k0 + k1), Mean(k1, k0);
    assert hf * s == k0 * h0 + k1 * h1;
    assert (h0 - hf) * s == k1 * (h0 - h1);
    assert m * s == 2.0 * k1 * k0;
    var a, b := -m * (h1 - h0) / 2.0, k0 * (h0 - hf);
    assert a * s == k1 * k0 * (h0 - h1) by {
      assert a * s == m * s * (h0 - h1) / 2.0;
    }
    assert b * s == k0 * (k1 * (h0 - h1));
    SameFactor(a, b, s);
  }

  /** What leaves a cell, from the fluxes through its six faces. */
  function Outflow(qxp: real, qxm: real, qyp: real, qym: real, qzp: real, qzm: real, dx: real, dy: real, dz: real): real {
    (qxp - qxm) * dy * dz + (qyp - qym) * dx * dz + (qzp - qzm) * dx * dy
  }

  /** Conductivity and head on a grid with the given spacings. */
  datatype Field = Field(d: Dims, dx: real, dy: real, dz: real, k: seq<real>, h: seq<real>) {
    predicate Valid() {
      |k| == |h| == d.Volume() && dx != 0.0 && dy != 0.0 && dz != 0.0
    }

    function At(s: seq<real>, i: int, j: int, l: int): real {
      if |s| == d.Volume() && d.Has(i, j, l) then (IndexInVolume(d, i, j, l); s[d.Index(i, j, l)]) else 0.0
    }

    /** The flux from a cell to a neighbour. */
    function Across(i: int, j: int, l: int, i': int, j': int, l': int, spacing: real): real
      requires spacing != 0.0
    {
      FaceFlux(At(k, i, j, l), At(k, i', j', l'), At(h, i, j, l), At(h, i', j', l'), spacing)
    }

    /** The fluxes through the faces of cell (i, j, l) on the side of larger indices. */
    function FluxX(i: int, j: int, l: int): real
      requires Valid()
    {
      Across(i, j, l, i + 1, j, l, dx)
    }

    function FluxY(i: int, j: int, l: int): real
      requires Valid()
    {
      Across(i, j, l, i, j + 1, l, dy)
    }

    function FluxZ(i: int, j: int, l: int): real
      requires Valid()
    {
      Across(i, j, l, i, j, l + 1, dz)
    }

    /** What leaves cell (i, j, l) through its six faces. */
    function Net(i: int, j: int, l: int): real
      requires Valid()
    {
      Outflow(FluxX(i, j, l), FluxX(i - 1, j, l), FluxY(i, j, l), FluxY(i, j - 1, l),
              FluxZ(i, j, l), FluxZ(i, j, l - 1), dx, dy, dz)
    }

    /** The areas of the faces across the axes. */
    function AreaX(): real {
      dy * dz
    }

    function AreaY(): real {
      dx * dz
    }

    function AreaZ(): real {
      dx * dy
    }

    predicate Interior(i: int, j: int, l: int) {
      1 <= i < d.nx - 1 && 1 <= j < d.ny - 1 && 1 <= l < d.nz - 1
    }
  }

  // ----- the pointer walk -----

  predicate Before(i: int, j: int, l: int, ii: int, jj: int, kk: int) {
    l < kk || (l == kk && (j < jj || (j == jj && i < ii)))
  }

  /** The interior cells before (ii, jj, kk) hold their flux, all other cells zero. */
  ghost predicate Done(f: Field, flux: seq<real>, ii: int, jj: int, kk: int)
    requires f.Valid()
  {
    && |flux| == f.d.Volume()
    && forall i, j, l | f.d.Has(i, j, l) ::
         f.At(flux, i, j, l) == if f.Interior(i, j, l) && Before(i, j, l, ii, jj, kk) then f.Net(i, j, l) else 0.0
  }

  lemma StoreNext(f: Field, flux: seq<real>, ii: nat, jj: nat, kk: nat)
    requires f.Valid() && Done(f, flux, ii, jj, kk) && f.Interior(ii, jj, kk)
    ensures f.d.Index(ii, jj, kk) < |flux|
    ensures Done(f, flux[f.d.Index(ii, jj, kk) := f.Net(ii, jj, kk)], ii + 1, jj, kk)
  {
    hide Field.Net, Dims.Index, Dims.Volume;
    IndexInVolume(f.d, ii, jj, kk);
    var g := flux[f.d.Index(ii, jj, kk) := f.Net(ii, jj, kk)];
    forall i, j, l | f.d.Has(i, j, l)
      ensures f.At(g, i, j, l)
              == if f.Interior(i, j, l) && Before(i, j, l, ii + 1, jj, kk) then f.Net(i, j, l) else 0.0
    {
      IndexInVolume(f.d, i, j, l);
      if f.d.Index(i, j, l) == f.d.Index(ii, jj, kk) {
        IndexInjective(f.d, i, j, l, ii, jj, kk);
      } else {
        assert f.At(g, i, j, l) == f.At(flux, i, j, l);
      }
    }
  }

  /** Nothing is to be stored between the ends of rows and of slabs. */
  lemma SkipEdges(f: Field, flux: seq<real>, jj: int, kk: int)
    requires f.Valid()
    ensures Done(f, flux, f.d.nx - 1, jj, kk) ==> Done(f, flux, 1, jj + 1, kk)
    ensures Done(f, flux, 1, f.d.ny - 1, kk) ==> Done(f, flux, 1, 1, kk + 1)
    ensures f.d.nx <= 2 ==> Done(f, flux, 1, jj, kk) ==> Done(f, flux, 1, jj + 1, kk)
    ensures f.d.ny <= 2 ==> Done(f, flux, 1, 1, kk) ==> Done(f, flux, 1, 1, kk + 1)
  {
    hide Field.Net, Field.At, Dims.Index, Dims.Volume;
  }

  /** The places of the neighbours of an interior cell. */
  lemma Neighbours(f: Field, i: nat, j: nat, l: nat)
    requires f.Valid() && f.Interior(i, j, l)
    ensures var t := f.d.Index(i, j, l); var nx, nxy := f.d.nx, f.d.nx * f.d.ny;
            && nxy <= t && t + nxy < f.d.Volume() && nx <= nxy && 1 <= nx
            && f.At(f.k, i, j, l) == f.k[t] && f.At(f.h, i, j, l) == f.h[t]
            && f.At(f.k, i + 1, j, l) == f.k[t + 1] && f.At(f.h, i + 1, j, l) == f.h[t + 1]
            && f.At(f.k, i - 1, j, l) == f.k[t - 1] && f.At(f.h, i - 1, j, l) == f.h[t - 1]
            && f.At(f.k, i, j + 1, l) == f.k[t + nx] && f.At(f.h, i, j + 1, l) == f.h[t + nx]
            && f.At(f.k, i, j - 1, l) == f.k[t - nx] && f.At(f.h, i, j - 1, l) == f.h[t - nx]
            && f.At(f.k, i, j, l + 1) == f.k[t + nxy] && f.At(f.h, i, j, l + 1) == f.h[t + nxy]
            && f.At(f.k, i, j, l - 1) == f.k[t - nxy] && f.At(f.h, i, j, l - 1) == f.h[t - nxy]
  {
    NeighbourPlaces(f.d, i, j, l);
    IndexInVolume(f.d, i, j, l + 1);
    IndexInVolume(f.d, i, j, l - 1);
    hide Dims.Index, Dims.Volume;
  }

  lemma NeighbourPlaces(d: Dims, i: nat, j: nat, l: nat)
    requires 1 <= i < d.nx - 1 && 1 <= j && 1 <= l
    ensures var t := d.Index(i, j, l);
            && d.Index(i + 1, j, l) == t + 1 && d.Index(i - 1, j, l) == t - 1
            && d.Index(i, j + 1, l) == t + d.nx && d.Index(i, j - 1, l) == t - d.nx
            && d.Index(i, j, l + 1) == t + d.nx * d.ny && d.Index(i, j, l - 1) == t - d.nx * d.ny
    ensures d.ny >= 1 ==> d.nx <= d.nx * d.ny
  {
    assert (l + 1) * d.ny + j == l * d.ny + j + d.ny;
    assert (l - 1) * d.ny + j == l * d.ny + j - d.ny;
    assert (l * d.ny + j + d.ny) * d.nx == (l * d.ny + j) * d.nx + d.ny * d.nx;
    assert (l * d.ny + j - d.ny) * d.nx == (l * d.ny + j) * d.nx - d.ny * d.nx;
  }

  /** The body of the loops, with the pointers at one interior cell. */
  method CellFlux(kp: array<real>, hp: array<real>, p: int, q: int, nx: int, ny: int, dx: real, dy: real, dz: real,
                  ghost f: Field, ghost i: nat, ghost j: nat, ghost l: nat) returns (r: real)
    requires f.Valid() && kp[..] == f.k && hp[..] == f.h && (nx, ny, dx, dy, dz) == (f.d.nx, f.d.ny, f.dx, f.dy, f.dz)
    requires f.Interior(i, j, l) && p == q == f.d.Index(i, j, l)
    ensures r == f.Net(i, j, l)
  {
    Neighbours(f, i, j, l);
    hide FaceFlux, Outflow, Dims.Index, Dims.Volume, Field.At;
    var cell := 0;
    var xm1, xp1, ym1, yp1, zm1, zp1 := cell - 1, cell + 1, cell - nx, cell + nx, cell - nx * ny, cell + nx * ny;
    var qxp := FaceFlux(kp[p + cell], kp[p + xp1], hp[q + cell], hp[q + xp1], dx);
    var qxm := FaceFlux(kp[p + xm1], kp[p + cell], hp[q + xm1], hp[q + cell], dx);
    var qyp := FaceFlux(kp[p + cell], kp[p + yp1], hp[q + cell], hp[q + yp1], dy);
    var qym := FaceFlux(kp[p + ym1], kp[p + cell], hp[q + ym1], hp[q + cell], dy);
    var qzp := FaceFlux(kp[p + cell], kp[p + zp1], hp[q + cell], hp[q + zp1], dz);
    var qzm := FaceFlux(kp[p + zm1], kp[p + cell], hp[q + zm1], hp[q + cell], dz);
    r := Outflow(qxp, qxm, qyp, qym, qzp, qzm, dx, dy, dz);
  }

  /** The pointer is at cell (i, j, l), wherever it is used. */
  predicate Points(d: Dims, p: int, i: int, j: int, l: int) {
    i >= 0 && j >= 0 && l >= 0 && p == d.Index(i, j, l)
  }

  /** On a grid that has rows and columns the pointer is at cell (i, j, l). */
  predicate Tracks(d: Dims, p: int, i: int, j: int, l: int) {
    d.nx >= 2 && d.ny >= 2 ==> Points(d, p, i, j, l)
  }

  lemma PointerMoves(d: Dims, p: int, i: int, j: int, l: int)
    requires Tracks(d, p, i, j, l)
    ensures Tracks(d, p + 1, i + 1, j, l) && Tracks(d, p + d.nx, i, j + 1, l)
    ensures i == d.nx ==> Tracks(d, p, 0, j + 1, l)
    ensures j == d.ny ==> Tracks(d, p, i, 0, l + 1)
    ensures Tracks(d, d.nx * d.ny, 0, 0, 1)
  {
    assert l * d.ny + j + 1 == l * d.ny + (j + 1);
    assert (l * d.ny + (j + 1)) * d.nx == (l * d.ny + j) * d.nx + d.nx;
    if j == d.ny {
      assert (l + 1) * d.ny == l * d.ny + d.ny;
    }
  }

  lemma PointerAt(d: Dims, p: int, i: int, j: int, l: int)
    requires Tracks(d, p, i, j, l) && 1 <= i < d.nx - 1 && 1 <= j < d.ny - 1 && 1 <= l
    ensures p == d.Index(i, j, l)
  {
  }

  method StoreFlux(flux: array<real>, p: int, value: real, ghost f: Field, ghost i: nat, ghost j: nat, ghost l: nat)
    requires f.Valid() && f.Interior(i, j, l) && p == f.d.Index(i, j, l) && value == f.Net(i, j, l)
    requires Done(f, flux[..], i, j, l)
    modifies flux
    ensures Done(f, flux[..], i + 1, j, l)
  {
    StoreNext(f, flux[..], i, j, l);
    ghost var before := flux[..];
    hide *;
    flux[p] := value;
    assert flux[..] == before[p := value];
  }

  /** One row: the pointers go from its first cell to that of the next row. */
  method WalkRow(k: array<real>, h: array<real>, flux: array<real>, kp0: int, hp0: int, fp0: int, jj: nat, kk: nat,
                 d: Dims, dx: real, dy: real, dz: real, ghost f: Field) returns (kp: int, hp: int, fp: int)
    requires f.Valid() && k[..] == f.k && h[..] == f.h && k != flux && h != flux && f == Field(d, dx, dy, dz, f.k, f.h)
    requires 1 <= jj < d.ny - 1 && 1 <= kk < d.nz - 1
    requires kp0 == hp0 == fp0 && Tracks(d, kp0, 0, jj, kk) && Done(f, flux[..], 1, jj, kk)
    modifies flux
    ensures kp == hp == fp && Tracks(d, kp, 0, jj + 1, kk) && Done(f, flux[..], 1, jj + 1, kk)
  {
    hide Done, Tracks, Field.Net, Dims.Index, Dims.Volume, Outflow, Field.At;
    kp, hp, fp := kp0 + 1, hp0 + 1, fp0 + 1;
    PointerMoves(d, kp0, 0, jj, kk);
    SkipEdges(f, flux[..], jj, kk);
    var ii: nat := 1;
    while ii < d.nx - 1
      invariant 1 <= ii && (ii <= d.nx - 1 || (ii == 1 && d.nx < 2))
      invariant kp == hp == fp && Tracks(d, kp, ii, jj, kk) && Done(f, flux[..], ii, jj, kk)
      invariant k[..] == f.k && h[..] == f.h
    {
      PointerAt(d, kp, ii, jj, kk);
      var r := CellFlux(k, h, kp, hp, d.nx, d.ny, dx, dy, dz, f, ii, jj, kk);
      StoreFlux(flux, fp, r, f, ii, jj, kk);
      PointerMoves(d, kp, ii, jj, kk);
      kp, hp, fp := kp + 1, hp + 1, fp + 1;
      ii := ii + 1;
    }
    SkipEdges(f, flux[..], jj, kk);
    PointerMoves(d, kp, ii, jj, kk);
    PointerMoves(d, kp + 1, ii + 1, jj, kk);
    kp, hp, fp := kp + 1, hp + 1, fp + 1;
    if d.nx < 2 {
      NotTracked(d, kp, 0, jj + 1, kk);
    }
  }

  lemma NotTracked(d: Dims, p: int, i: int, j: int, l: int)
    requires d.nx < 2 || d.ny < 2
    ensures Tracks(d, p, i, j, l)
  {
  }

  /** One slab: the pointers go from its first cell to that of the next slab. */
  method WalkSlab(k: array<real>, h: array<real>, flux: array<real>, kp0: int, hp0: int, fp0: int, kk: nat,
                  d: Dims, dx: real, dy: real, dz: real, ghost f: Field) returns (kp: int, hp: int, fp: int)
    requires f.Valid() && k[..] == f.k && h[..] == f.h && k != flux && h != flux && f == Field(d, dx, dy, dz, f.k, f.h)
    requires 1 <= kk < d.nz - 1
    requires kp0 == hp0 == fp0 && Tracks(d, kp0, 0, 0, kk) && Done(f, flux[..], 1, 1, kk)
    modifies flux
    ensures kp == hp == fp && Tracks(d, kp, 0, 0, kk + 1) && Done(f, flux[..], 1, 1, kk + 1)
  {
    hide Done, Tracks, Field.Net, Dims.Index, Dims.Volume, Outflow, Field.At;
    kp, hp, fp := kp0 + d.nx, hp0 + d.nx, fp0 + d.nx;
    PointerMoves(d, kp0, 0, 0, kk);
    SkipEdges(f, flux[..], 1, kk);
    var jj: nat := 1;
    while jj < d.ny - 1
      invariant 1 <= jj && (jj <= d.ny - 1 || (jj == 1 && d.ny < 2))
      invariant kp == hp == fp && Tracks(d, kp, 0, jj, kk) && Done(f, flux[..], 1, jj, kk)
      invariant k[..] == f.k && h[..] == f.h
    {
      kp, hp, fp := WalkRow(k, h, flux, kp, hp, fp, jj, kk, d, dx, dy, dz, f);
      jj := jj + 1;
    }
    SkipEdges(f, flux[..], jj, kk);
    PointerMoves(d, kp, 0, jj, kk);
    PointerMoves(d, kp + d.nx, 0, jj + 1, kk);
    kp, hp, fp := kp + d.nx, hp + d.nx, fp + d.nx;
    if d.ny < 2 {
      NotTracked(d, kp, 0, 0, kk + 1);
    }
  }

  lemma StartDone(f: Field, flux: seq<real>)
    requires f.Valid() && |flux| == f.d.Volume() && forall t :: 0 <= t < |flux| ==> flux[t] == 0.0
    ensures Done(f, flux, 1, 1, 1)
  {
    hide Field.Net, Dims.Volume, Dims.Index;
    forall i, j, l | f.d.Has(i, j, l) ensures f.At(flux, i, j, l) == 0.0 {
      IndexInVolume(f.d, i, j, l);
    }
  }

  lemma AllDone(f: Field, flux: seq<real>, kk: nat)
    requires f.Valid() && Done(f, flux, 1, 1, kk) && kk >= f.d.nz - 1
    ensures HoldsFlux(f, flux)
  {
    hide Field.Net, Field.At;
  }

  /** Computes the net flux of every interior cell into a box that starts out zero. */
  method CompFlux(d: Dims, dx: real, dy: real, dz: real, k: array<real>, h: array<real>) returns (flux: array<real>)
    requires k.Length == d.Volume() && h.Length == d.Volume() && dx != 0.0 && dy != 0.0 && dz != 0.0
    ensures fresh(flux) && flux.Length == d.Volume()
    ensures var f := Field(d, dx, dy, dz, k[..], h[..]);
            HoldsFlux(f, flux[..]) && Total(f, Stored(flux[..])) == OuterFlux(f)
    ensures var f := Field(d, dx, dy, dz, k[..], h[..]);
            forall i, j, l :: 1 <= i < d.nx - 1 && 1 <= j < d.ny - 1 && 1 <= l < d.nz - 1 ==>
              IsNetFlux(f, f.At(flux[..], i, j, l), i, j, l)
  {
    flux := new real[d.Volume()](i => 0.0);
    ghost var f := Field(d, dx, dy, dz, k[..], h[..]);
    StartDone(f, flux[..]);
    hide Done, Tracks, Field.Net, Dims.Index, Field.At;
    var kp, hp, fp := d.nx * d.ny, d.nx * d.ny, d.nx * d.ny;
    TracksFirst(d);
    var kk: nat := 1;
    while kk < d.nz - 1
      invariant 1 <= kk && fresh(flux) && flux.Length == d.Volume()
      invariant kp == hp == fp && Tracks(d, kp, 0, 0, kk) && Done(f, flux[..], 1, 1, kk)
      invariant k[..] == f.k && h[..] == f.h
    {
      kp, hp, fp := WalkSlab(k, h, flux, kp, hp, fp, kk, d, dx, dy, dz, f);
      kk := kk + 1;
    }
    AllDone(f, flux[..], kk);
    StoredFluxConserved(f, flux[..]);
    HeldIsNetFlux(f, flux[..]);
  }

  lemma TracksFirst(d: Dims)
    ensures Tracks(d, d.nx * d.ny, 0, 0, 1)
  {
  }

  // ----- what is stored -----

  /** v leaves cell (i, j, l): the fluxes through its faces to the east, west, north, south, top and
      bottom, each times the area of the face. */
  ghost predicate Leaves(f: Field, v: real, i: int, j: int, l: int, qe: real, qw: real, qn: real, qs: real, qt: real, qb: real)
  {
    && v == (qe - qw) * f.dy * f.dz + (qn - qs) * f.dx * f.dz + (qt - qb) * f.dx * f.dy
    && Between(f, qe, i, j, l, i + 1, j, l, f.dx) && Between(f, qw, i - 1, j, l, i, j, l, f.dx)
    && Between(f, qn, i, j, l, i, j + 1, l, f.dy) && Between(f, qs, i, j - 1, l, i, j, l, f.dy)
    && Between(f, qt, i, j, l, i, j, l + 1, f.dz) && Between(f, qb, i, j, l - 1, i, j, l, f.dz)
  }

  /** q is the flux from one cell to another. */
  ghost predicate Between(f: Field, q: real, i: int, j: int, l: int, i': int, j': int, l': int, spacing: real) {
    IsFaceFlux(q, f.At(f.k, i, j, l), f.At(f.k, i', j', l'), f.At(f.h, i, j, l), f.At(f.h, i', j', l'), spacing)
  }

  ghost predicate IsNetFlux(f: Field, v: real, i: int, j: int, l: int) {
    exists qe, qw, qn, qs, qt, qb :: Leaves(f, v, i, j, l, qe, qw, qn, qs, qt, qb)
  }

  lemma NetIsNetFlux(f: Field, i: int, j: int, l: int)
    requires f.Valid()
    ensures IsNetFlux(f, f.Net(i, j, l), i, j, l)
  {
    FluxesBetween(f, i, j, l);
    FluxesBetween(f, i - 1, j, l);
    FluxesBetween(f, i, j - 1, l);
    FluxesBetween(f, i, j, l - 1);
    NetIsOutflow(f, i, j, l);
    hide *;
    LeavesSix(f, f.Net(i, j, l), i, j, l, f.FluxX(i, j, l), f.FluxX(i - 1, j, l), f.FluxY(i, j, l),
              f.FluxY(i, j - 1, l), f.FluxZ(i, j, l), f.FluxZ(i, j, l - 1));
  }

  lemma NetIsOutflow(f: Field, i: int, j: int, l: int)
    requires f.Valid()
    ensures f.Net(i, j, l) == Outflow(f.FluxX(i, j, l), f.FluxX(i - 1, j, l), f.FluxY(i, j, l), f.FluxY(i, j - 1, l),
                                      f.FluxZ(i, j, l), f.FluxZ(i, j, l - 1), f.dx, f.dy, f.dz)
  {
    hide Outflow, Field.FluxX, Field.FluxY, Field.FluxZ;
  }

  lemma LeavesSix(f: Field, v: real, i: int, j: int, l: int, qe: real, qw: real, qn: real, qs: real, qt: real, qb: real)
    requires v == Outflow(qe, qw, qn, qs, qt, qb, f.dx, f.dy, f.dz)
    requires Between(f, qe, i, j, l, i + 1, j, l, f.dx) && Between(f, qw, i - 1, j, l, i, j, l, f.dx)
    requires Between(f, qn, i, j, l, i, j + 1, l, f.dy) && Between(f, qs, i, j - 1, l, i, j, l, f.dy)
    requires Between(f, qt, i, j, l, i, j, l + 1, f.dz) && Between(f, qb, i, j, l - 1, i, j, l, f.dz)
    ensures IsNetFlux(f, v, i, j, l)
  {
    hide Between;
    assert Leaves(f, v, i, j, l, qe, qw, qn, qs, qt, qb);
  }

  lemma FluxesBetween(f: Field, i: int, j: int, l: int)
    requires f.Valid()
    ensures Between(f, f.FluxX(i, j, l), i, j, l, i + 1, j, l, f.dx)
    ensures Between(f, f.FluxY(i, j, l), i, j, l, i, j + 1, l, f.dy)
    ensures Between(f, f.FluxZ(i, j, l), i, j, l, i, j, l + 1, f.dz)
  {
    AcrossIsBetween(f, i, j, l, i + 1, j, l, f.dx);
    AcrossIsBetween(f, i, j, l, i, j + 1, l, f.dy);
    AcrossIsBetween(f, i, j, l, i, j, l + 1, f.dz);
    hide Between, Field.Across;
  }

  lemma AcrossIsBetween(f: Field, i: int, j: int, l: int, i': int, j': int, l': int, spacing: real)
    requires spacing != 0.0
    ensures Between(f, f.Across(i, j, l, i', j', l', spacing), i, j, l, i', j', l', spacing)
  {
    hide IsFaceFlux, FaceFlux, Field.At;
    FaceFluxIs(f.At(f.k, i, j, l), f.At(f.k, i', j', l'), f.At(f.h, i, j, l), f.At(f.h, i', j', l'), spacing);
  }

  lemma HeldIsNetFlux(f: Field, flux: seq<real>)
    requires f.Valid() && HoldsFlux(f, flux)
    ensures forall i, j, l :: 1 <= i < f.d.nx - 1 && 1 <= j < f.d.ny - 1 && 1 <= l < f.d.nz - 1 ==>
              IsNetFlux(f, f.At(flux, i, j, l), i, j, l)
  {
    hide Field.Net, Field.At, IsNetFlux;
    forall i, j, l | 1 <= i < f.d.nx - 1 && 1 <= j < f.d.ny - 1 && 1 <= l < f.d.nz - 1
      ensures IsNetFlux(f, f.At(flux, i, j, l), i, j, l)
    {
      NetIsNetFlux(f, i, j, l);
    }
  }

  // ----- conservation -----

  /** What is summed: the fluxes along one of the axes, the net fluxes, or stored values. */
  datatype Quantity = X | Y | Z | Net | Stored(values: seq<real>)

  function Value(f: Field, w: Quantity, i: int, j: int, l: int): real
    requires f.Valid()
  {
    match w
    case X => f.FluxX(i, j, l)
    case Y => f.FluxY(i, j, l)
    case Z => f.FluxZ(i, j, l)
    case Net => f.Net(i, j, l)
    case Stored(values) => f.At(values, i, j, l)
  }

  /** The sum over cells 1..n of row (j, l); over rows 1..n of slab l; over slabs 1..n. */
  function RowSum(f: Field, w: Quantity, j: int, l: int, n: nat): real
    requires f.Valid()
  {
    if n == 0 then 0.0 else RowSum(f, w, j, l, n - 1) + Value(f, w, n, j, l)
  }

  function SlabSum(f: Field, w: Quantity, l: int, n: nat): real
    requires f.Valid()
  {
    if n == 0 then 0.0 else SlabSum(f, w, l, n - 1) + RowSum(f, w, n, l, Inner(f.d.nx))
  }

  function BoxSum(f: Field, w: Quantity, n: nat): real
    requires f.Valid()
  {
    if n == 0 then 0.0 else BoxSum(f, w, n - 1) + SlabSum(f, w, n, Inner(f.d.ny))
  }

  function Inner(n: nat): nat {
    if n >= 2 then n - 2 else 0
  }

  /** The sum over all interior cells. */
  function Total(f: Field, w: Quantity): real
    requires f.Valid()
  {
    BoxSum(f, w, Inner(f.d.nz))
  }

  /** The flux through the faces beyond cells i of rows 1..n of slab l, and of slabs 1..n. */
  function SlabThroughX(f: Field, i: int, l: int, n: nat): real
    requires f.Valid()
  {
    if n == 0 then 0.0 else SlabThroughX(f, i, l, n - 1) + Value(f, X, i, n, l)
  }

  function ThroughX(f: Field, i: int, n: nat): real
    requires f.Valid()
  {
    if n == 0 then 0.0 else ThroughX(f, i, n - 1) + SlabThroughX(f, i, n, Inner(f.d.ny))
  }

  /** The flux through the faces beyond rows j of slabs 1..n. */
  function ThroughY(f: Field, j: int, n: nat): real
    requires f.Valid()
  {
    if n == 0 then 0.0 else ThroughY(f, j, n - 1) + RowSum(f, Y, j, n, Inner(f.d.nx))
  }

  /** The flux through the faces beyond slab l. */
  function ThroughZ(f: Field, l: int): real
    requires f.Valid()
  {
    SlabSum(f, Z, l, Inner(f.d.ny))
  }

  function Weighted(x: real, y: real, z: real, a: real, b: real, c: real): real {
    x * a + y * b + z * c
  }

  lemma WeightedSum(x: real, y: real, z: real, x': real, y': real, z': real, a: real, b: real, c: real)
    ensures Weighted(x, y, z, a, b, c) + Weighted(x', y', z', a, b, c) == Weighted(x + x', y + y', z + z', a, b, c)
    ensures Weighted(0.0, 0.0, 0.0, a, b, c) == 0.0
  {
    assert (x + x') * a == x * a + x' * a;
    assert (y + y') * b == y * b + y' * b;
    assert (z + z') * c == z * c + z' * c;
  }

  /** The net flux through the outer faces of the block of interior cells. */
  function OuterFlux(f: Field): real
    requires f.Valid()
  {
    var nx, ny, nz := Inner(f.d.nx), Inner(f.d.ny), Inner(f.d.nz);
    Weighted(ThroughX(f, nx, nz) - ThroughX(f, 0, nz), ThroughY(f, ny, nz) - ThroughY(f, 0, nz),
             ThroughZ(f, nz) - ThroughZ(f, 0), f.AreaX(), f.AreaY(), f.AreaZ())
  }

  lemma NetIsWeighted(f: Field, i: int, j: int, l: int)
    requires f.Valid()
    ensures Value(f, Net, i, j, l)
      == Weighted(Value(f, X, i, j, l) - Value(f, X, i - 1, j, l), Value(f, Y, i, j, l) - Value(f, Y, i, j - 1, l),
                  Value(f, Z, i, j, l) - Value(f, Z, i, j, l - 1), f.AreaX(), f.AreaY(), f.AreaZ())
  {
    hide FaceFlux, Field.At;
    Regrouped(f.FluxX(i, j, l) - f.FluxX(i - 1, j, l), f.dy, f.dz);
    Regrouped(f.FluxY(i, j, l) - f.FluxY(i, j - 1, l), f.dx, f.dz);
    Regrouped(f.FluxZ(i, j, l) - f.FluxZ(i, j, l - 1), f.dx, f.dy);
  }

  lemma Regrouped(x: real, a: real, b: real)
    ensures x * a * b == x * (a * b)
  {
  }

  /** What leaves a cell is what flows from it to its six neighbours, and each of them
      sees the same flow with the opposite sign. */
  lemma NetIsOutward(f: Field, i: int, j: int, l: int)
    requires f.Valid()
    ensures f.Net(i, j, l)
      == Weighted(f.Across(i, j, l, i + 1, j, l, f.dx) + f.Across(i, j, l, i - 1, j, l, f.dx),
                  f.Across(i, j, l, i, j + 1, l, f.dy) + f.Across(i, j, l, i, j - 1, l, f.dy),
                  f.Across(i, j, l, i, j, l + 1, f.dz) + f.Across(i, j, l, i, j, l - 1, f.dz),
                  f.AreaX(), f.AreaY(), f.AreaZ())
  {
    AcrossReversed(f, i, j, l, i - 1, j, l, f.dx);
    AcrossReversed(f, i, j, l, i, j - 1, l, f.dy);
    AcrossReversed(f, i, j, l, i, j, l - 1, f.dz);
    NetIsWeighted(f, i, j, l);
    hide FaceFlux, Weighted, Field.At, Field.Across, Field.Net;
  }

  lemma AcrossReversed(f: Field, i: int, j: int, l: int, i': int, j': int, l': int, spacing: real)
    requires spacing != 0.0
    ensures f.Across(i', j', l', i, j, l, spacing) == -f.Across(i, j, l, i', j', l', spacing)
  {
    hide FaceFlux, Field.At;
    FluxReversed(f.At(f.k, i, j, l), f.At(f.k, i', j', l'), f.At(f.h, i, j, l), f.At(f.h, i', j', l'), spacing);
  }

  lemma {:induction false} RowConserved(f: Field, j: int, l: int, n: nat)
    requires f.Valid()
    ensures RowSum(f, Net, j, l, n)
      == Weighted(Value(f, X, n, j, l) - Value(f, X, 0, j, l), RowSum(f, Y, j, l, n) - RowSum(f, Y, j - 1, l, n),
                  RowSum(f, Z, j, l, n) - RowSum(f, Z, j, l - 1, n), f.AreaX(), f.AreaY(), f.AreaZ())
  {
    hide Weighted, Value, Field.AreaX, Field.AreaY, Field.AreaZ, Field.Valid;
    var a, b, c := f.AreaX(), f.AreaY(), f.AreaZ();
    if n == 0 {
      WeightedSum(0.0, 0.0, 0.0, 0.0, 0.0, 0.0, a, b, c);
    } else {
      var m := n - 1;
      RowConserved(f, j, l, m);
      NetIsWeighted(f, n, j, l);
      WeightedSum(Value(f, X, m, j, l) - Value(f, X, 0, j, l), RowSum(f, Y, j, l, m) - RowSum(f, Y, j - 1, l, m),
                  RowSum(f, Z, j, l, m) - RowSum(f, Z, j, l - 1, m), Value(f, X, n, j, l) - Value(f, X, m, j, l),
                  Value(f, Y, n, j, l) - Value(f, Y, n, j - 1, l), Value(f, Z, n, j, l) - Value(f, Z, n, j, l - 1),
                  a, b, c);
    }
  }

  lemma {:induction false} SlabConserved(f: Field, l: int, n: nat)
    requires f.Valid()
    ensures SlabSum(f, Net, l, n)
      == Weighted(SlabThroughX(f, Inner(f.d.nx), l, n) - SlabThroughX(f, 0, l, n),
                  RowSum(f, Y, n, l, Inner(f.d.nx)) - RowSum(f, Y, 0, l, Inner(f.d.nx)),
                  SlabSum(f, Z, l, n) - SlabSum(f, Z, l - 1, n), f.AreaX(), f.AreaY(), f.AreaZ())
  {
    hide Weighted, Value, Field.AreaX, Field.AreaY, Field.AreaZ, Field.Valid, RowSum, Inner;
    var a, b, c, e := f.AreaX(), f.AreaY(), f.AreaZ(), Inner(f.d.nx);
    if n == 0 {
      WeightedSum(0.0, 0.0, 0.0, 0.0, 0.0, 0.0, a, b, c);
    } else {
      var m := n - 1;
      SlabConserved(f, l, m);
      RowConserved(f, n, l, e);
      WeightedSum(SlabThroughX(f, e, l, m) - SlabThroughX(f, 0, l, m), RowSum(f, Y, m, l, e) - RowSum(f, Y, 0, l, e),
                  SlabSum(f, Z, l, m) - SlabSum(f, Z, l - 1, m), Value(f, X, e, n, l) - Value(f, X, 0, n, l),
                  RowSum(f, Y, n, l, e) - RowSum(f, Y, m, l, e), RowSum(f, Z, n, l, e) - RowSum(f, Z, n, l - 1, e),
                  a, b, c);
    }
  }

  lemma {:induction false} BoxConserved(f: Field, n: nat)
    requires f.Valid()
    ensures BoxSum(f, Net, n)
      == Weighted(ThroughX(f, Inner(f.d.nx), n) - ThroughX(f, 0, n), ThroughY(f, Inner(f.d.ny), n) - ThroughY(f, 0, n),
                  ThroughZ(f, n) - ThroughZ(f, 0), f.AreaX(), f.AreaY(), f.AreaZ())
  {
    hide Weighted, Value, Field.AreaX, Field.AreaY, Field.AreaZ, Field.Valid, RowSum, SlabSum, SlabThroughX, Inner;
    var a, b, c, e, g := f.AreaX(), f.AreaY(), f.AreaZ(), Inner(f.d.nx), Inner(f.d.ny);
    if n == 0 {
      WeightedSum(0.0, 0.0, 0.0, 0.0, 0.0, 0.0, a, b, c);
    } else {
      var m := n - 1;
      BoxConserved(f, m);
      SlabConserved(f, n, g);
      WeightedSum(ThroughX(f, e, m) - ThroughX(f, 0, m), ThroughY(f, g, m) - ThroughY(f, 0, m),
                  ThroughZ(f, m) - ThroughZ(f, 0), SlabThroughX(f, e, n, g) - SlabThroughX(f, 0, n, g),
                  RowSum(f, Y, g, n, e) - RowSum(f, Y, 0, n, e), SlabSum(f, Z, n, g) - SlabSum(f, Z, m, g), a, b, c);
    }
  }

  /** What leaves the interior cells together is what passes the outer faces of their block:
      the fluxes through the faces between them cancel. */
  lemma FluxConserved(f: Field)
    requires f.Valid()
    ensures Total(f, Net) == OuterFlux(f)
  {
    hide BoxSum, ThroughX, ThroughY, ThroughZ, Weighted, Inner;
    BoxConserved(f, Inner(f.d.nz));
  }

  /** The result of CompFlux holds the net flux in its interior cells and zero elsewhere. */
  ghost predicate HoldsFlux(f: Field, flux: seq<real>)
    requires f.Valid()
  {
    && |flux| == f.d.Volume()
    && forall i, j, l | f.d.Has(i, j, l) ::
         f.At(flux, i, j, l) == if f.Interior(i, j, l) then f.Net(i, j, l) else 0.0
  }

  lemma {:induction false} SameRow(f: Field, flux: seq<real>, j: nat, l: nat, n: nat)
    requires f.Valid() && HoldsFlux(f, flux) && n <= Inner(f.d.nx) && 1 <= j <= Inner(f.d.ny) && 1 <= l <= Inner(f.d.nz)
    ensures RowSum(f, Stored(flux), j, l, n) == RowSum(f, Net, j, l, n)
  {
    hide Value, HoldsFlux;
    if n > 0 {
      SameRow(f, flux, j, l, n - 1);
      SameCell(f, flux, n, j, l);
    }
  }

  lemma SameCell(f: Field, flux: seq<real>, i: nat, j: nat, l: nat)
    requires f.Valid() && HoldsFlux(f, flux)
    requires 1 <= i <= Inner(f.d.nx) && 1 <= j <= Inner(f.d.ny) && 1 <= l <= Inner(f.d.nz)
    ensures Value(f, Stored(flux), i, j, l) == Value(f, Net, i, j, l)
  {
    hide Field.Net, Field.At;
    assert f.d.Has(i, j, l) && f.Interior(i, j, l);
  }

  lemma {:induction false} SameSlab(f: Field, flux: seq<real>, l: nat, n: nat)
    requires f.Valid() && HoldsFlux(f, flux) && n <= Inner(f.d.ny) && 1 <= l <= Inner(f.d.nz)
    ensures SlabSum(f, Stored(flux), l, n) == SlabSum(f, Net, l, n)
  {
    hide RowSum, HoldsFlux;
    if n > 0 {
      SameSlab(f, flux, l, n - 1);
      SameRow(f, flux, n, l, Inner(f.d.nx));
    }
  }

  lemma {:induction false} SameBox(f: Field, flux: seq<real>, n: nat)
    requires f.Valid() && HoldsFlux(f, flux) && n <= Inner(f.d.nz)
    ensures BoxSum(f, Stored(flux), n) == BoxSum(f, Net, n)
  {
    hide SlabSum, HoldsFlux;
    if n > 0 {
      SameBox(f, flux, n - 1);
      SameSlab(f, flux, n, Inner(f.d.ny));
    }
  }

  /** The result of CompFlux adds up to the flux through the outer faces of the interior block. */
  lemma StoredFluxConserved(f: Field, flux: seq<real>)
    requires f.Valid() && HoldsFlux(f, flux)
    ensures Total(f, Stored(flux)) == OuterFlux(f)
  {
    hide HoldsFlux, OuterFlux, BoxSum;
    SameBox(f, flux, Inner(f.d.nz));
    FluxConserved(f);
  }
}
