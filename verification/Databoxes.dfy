/** databox.h and databox.c: a box of values stored in one buffer, x varying fastest. */
module Databoxes {
  import opened RowMajor
  import opened Subgrids
  import opened BinaryIo

  datatype Dims = Dims(nx: nat, ny: nat, nz: nat) {
    function Rows(): nat {
      nz * ny
    }

    function Volume(): nat {
      Rows() * nx
    }

    /** The place of cell (i, j, k) in the buffer. */
    function Index(i: nat, j: nat, k: nat): nat {
      (k * ny + j) * nx + i
    }

    predicate Has(i: int, j: int, k: int) {
      0 <= i < nx && 0 <= j < ny && 0 <= k < nz
    }

    /** The subgrid lies within the box. */
    predicate Bounds(s: Subgrid) {
      && 0 <= s.ix && 0 <= s.nx && s.ix + s.nx <= nx && 0 <= s.iy && 0 <= s.ny && s.iy + s.ny <= ny
      && 0 <= s.iz && 0 <= s.nz && s.iz + s.nz <= nz
    }

    /** Where row (j, k) of a subgrid starts in the buffer. */
    function RowStart(s: Subgrid, j: nat, k: nat): nat
      requires Bounds(s)
    {
      Index(s.ix, s.iy + j, s.iz + k)
    }

    /** The place in the buffer belongs to a row of the subgrid. */
    ghost predicate Covers(s: Subgrid, t: int)
      requires Bounds(s)
    {
      exists j, k :: 0 <= j < s.ny && 0 <= k < s.nz && RowStart(s, j, k) <= t < RowStart(s, j, k) + s.nx
    }
  }

  lemma IndexForm(d: Dims, i: nat, j: nat, k: nat)
    ensures d.Index(i, j, k) == k * d.ny * d.nx + j * d.nx + i
  {
  }

  lemma IndexInVolume(d: Dims, i: nat, j: nat, k: nat)
    requires d.Has(i, j, k)
    ensures d.Index(i, j, k) < d.Volume()
  {
    InGrid(d.ny, d.nz, j, k);
    InGrid(d.nx, d.Rows(), i, k * d.ny + j);
  }

  lemma RowInVolume(d: Dims, s: Subgrid, j: nat, k: nat)
    requires d.Bounds(s) && j < s.ny && k < s.nz
    ensures d.RowStart(s, j, k) + s.nx <= d.Volume()
  {
    InGrid(d.ny, d.nz, s.iy + j, s.iz + k);
    RowOrder(d.nx, (s.iz + k) * d.ny + (s.iy + j), d.Rows());
  }

  lemma IndexInjective(d: Dims, i: nat, j: nat, k: nat, i': nat, j': nat, k': nat)
    requires d.Has(i, j, k) && d.Has(i', j', k') && d.Index(i, j, k) == d.Index(i', j', k')
    ensures i == i' && j == j' && k == k'
  {
    GridInjective(d.nx, i, k * d.ny + j, i', k' * d.ny + j');
    GridInjective(d.ny, j, k, j', k');
  }

  /** Every place of the buffer is that of a cell. */
  lemma CellOf(d: Dims, t: nat) returns (i: nat, j: nat, k: nat)
    requires t < d.Volume()
    ensures d.Has(i, j, k) && d.Index(i, j, k) == t
  {
    var row;
    i, row := InSomeRow(d.nx, d.Rows(), t);
    j, k := InSomeRow(d.ny, d.nz, row);
  }

  lemma RowCell(d: Dims, s: Subgrid, e: nat, j: nat, k: nat)
    requires d.Bounds(s)
    ensures d.RowStart(s, j, k) + e == d.Index(s.ix + e, s.iy + j, s.iz + k)
  {
  }

  /** A place in the buffer belongs to a row of a subgrid just when its cell lies in it. */
  lemma CoversItsCells(d: Dims, s: Subgrid, i: nat, j: nat, k: nat)
    requires d.Bounds(s) && d.Has(i, j, k)
    ensures d.Covers(s, d.Index(i, j, k)) <==> s.Contains(i, j, k)
  {
    hide Dims.Index, Dims.RowStart;
    if s.Contains(i, j, k) {
      var j', k' := j - s.iy, k - s.iz;
      RowCell(d, s, i - s.ix, j', k');
      assert 0 <= j' < s.ny && 0 <= k' < s.nz;
    }
    if d.Covers(s, d.Index(i, j, k)) {
      var j', k' :| 0 <= j' < s.ny && 0 <= k' < s.nz
                    && d.RowStart(s, j', k') <= d.Index(i, j, k) < d.RowStart(s, j', k') + s.nx;
      var e := d.Index(i, j, k) - d.RowStart(s, j', k');
      RowCell(d, s, e, j', k');
      IndexInjective(d, i, j, k, s.ix + e, s.iy + j', s.iz + k');
    }
  }

  class Databox {
    const coeffs: array<Word>
    const nx: nat
    const ny: nat
    const nz: nat
    const x: Word
    const y: Word
    const z: Word
    const dx: Word
    const dy: Word
    const dz: Word

    function Extent(): Dims {
      Dims(nx, ny, nz)
    }

    predicate Valid() {
      coeffs.Length == Extent().Volume()
    }

    /** The value of cell (i, j, k). */
    ghost function At(i: nat, j: nat, k: nat): Word
      requires Valid() && Extent().Has(i, j, k)
      reads coeffs
    {
      IndexInVolume(Extent(), i, j, k);
      coeffs[Extent().Index(i, j, k)]
    }

    /** NewDataboxDefault: a box full of the default value. */
    constructor (nx: nat, ny: nat, nz: nat, x: Word, y: Word, z: Word, dx: Word, dy: Word, dz: Word, defaultValue: Word)
      ensures Valid() && fresh(coeffs) && Extent() == Dims(nx, ny, nz)
      ensures this.x == x && this.y == y && this.z == z && this.dx == dx && this.dy == dy && this.dz == dz
      ensures forall t :: 0 <= t < coeffs.Length ==> coeffs[t] == defaultValue
    {
      var c := new Word[Dims(nx, ny, nz).Volume()];
      FillBox(c, nx, ny, nz, defaultValue);
      coeffs := c;
      this.nx, this.ny, this.nz := nx, ny, nz;
      this.x, this.y, this.z, this.dx, this.dy, this.dz := x, y, z, dx, dy, dz;
    }
  }

  /** Sets the cells one after another; cell (i, j, k) comes at place Index(i, j, k). */
  method FillBox(c: array<Word>, nx: nat, ny: nat, nz: nat, value: Word)
    requires c.Length == Dims(nx, ny, nz).Volume()
    modifies c
    ensures forall t :: 0 <= t < c.Length ==> c[t] == value
  {
    hide *;
    var d := Dims(nx, ny, nz);
    FillCounts(d, 0, 0, 0);
    for k := 0 to nz
      invariant forall t :: 0 <= t < d.Index(0, 0, k) && t < c.Length ==> c[t] == value
    {
      for j := 0 to ny
        invariant forall t :: 0 <= t < d.Index(0, j, k) && t < c.Length ==> c[t] == value
      {
        for i := 0 to nx
          invariant forall t :: 0 <= t < d.Index(i, j, k) && t < c.Length ==> c[t] == value
        {
          CellInside(d, i, j, k);
          FillCounts(d, i, j, k);
          c[k * ny * nx + j * nx + i] := value;
        }
        FillCounts(d, nx, j, k);
      }
      FillCounts(d, 0, ny, k);
    }
    FillCounts(d, 0, 0, nz);
  }

  lemma CellInside(d: Dims, i: nat, j: nat, k: nat)
    requires i < d.nx && j < d.ny && k < d.nz
    ensures d.Index(i, j, k) < d.Volume() && d.Index(i, j, k) == k * d.ny * d.nx + j * d.nx + i
  {
    IndexInVolume(d, i, j, k);
    IndexForm(d, i, j, k);
  }

  /** The places of the cells follow one another. */
  lemma FillCounts(d: Dims, i: nat, j: nat, k: nat)
    ensures d.Index(0, 0, 0) == 0 && d.Index(0, 0, d.nz) == d.Volume()
    ensures d.Index(i + 1, j, k) == d.Index(i, j, k) + 1
    ensures d.Index(d.nx, j, k) == d.Index(0, j + 1, k)
    ensures d.Index(0, d.ny, k) == d.Index(0, 0, k + 1)
  {
  }
}
