/** region.c and grid.h: subgrids and the array of subgrids that grows by blocks. */
module Subgrids {

  const BLOCKSIZE := 10

  /** A box of cells: corner, size, striding factors, refinement and the owning process. */
  datatype Subgrid = Subgrid(ix: int, iy: int, iz: int, nx: int, ny: int, nz: int, sx: int, sy: int, sz: int,
                             rx: int, ry: int, rz: int, level: int, process: int) {
    predicate Contains(i: int, j: int, k: int) {
      ix <= i < ix + nx && iy <= j < iy + ny && iz <= k < iz + nz
    }
  }

  function NewSubgrid(ix: int, iy: int, iz: int, nx: int, ny: int, nz: int, rx: int, ry: int, rz: int,
                      process: int): Subgrid {
    Subgrid(ix, iy, iz, nx, ny, nz, 1, 1, 1, rx, ry, rz, rx + ry + rz, process)
  }

  class SubgridArray {
    var subregions: array?<Subgrid>
    var size: nat

    /** The storage is the least number of whole blocks that holds the entries. */
    ghost predicate Valid()
      reads this
    {
      if size == 0 then subregions == null
      else subregions != null && subregions.Length % BLOCKSIZE == 0 && size <= subregions.Length < size + BLOCKSIZE
    }

    ghost function Contents(): seq<Subgrid>
      requires Valid()
      reads this, subregions
    {
      if subregions == null then [] else subregions[..size]
    }

    ghost function Storage(): set<object>
      reads this
    {
      if subregions == null then {} else {subregions}
    }

    constructor ()
      ensures Valid() && Contents() == []
    {
      subregions := null;
      size := 0;
    }

    /** Appends a subgrid, first moving to a larger array when the blocks are full. */
    method Append(s: Subgrid)
      requires Valid()
      modifies this, Storage()
      ensures Valid() && Contents() == old(Contents()) + [s]
      ensures fresh(Storage() - old(Storage()))
    {
      if size % BLOCKSIZE == 0 {
        Grow();
      }
      subregions[size] := s;
      size := size + 1;
    }

    /** Moves the entries to an array with one more block. */
    method Grow()
      requires Valid() && size % BLOCKSIZE == 0
      modifies this`subregions
      ensures subregions != null && fresh(subregions) && subregions.Length == size + BLOCKSIZE
      ensures subregions[..size] == old(Contents())
    {
      var old' := subregions;
      var new' := new Subgrid[size + BLOCKSIZE];
      for i := 0 to size
        invariant fresh(new') && (old' == null ==> size == 0) && (old' != null ==> size <= old'.Length)
        invariant old' != null ==> new'[..i] == old'[..i]
      {
        new'[i] := old'[i];
      }
      subregions := new';
    }
  }

  /** usergrid.c: a copy of an array of subgrids. */
  method CopyGrid(all: SubgridArray) returns (copy: SubgridArray)
    requires all.Valid()
    ensures fresh(copy) && copy.Valid() && copy.Contents() == all.Contents() && all.Contents() == old(all.Contents())
    ensures fresh(copy.Storage())
  {
    copy := new SubgridArray();
    for i := 0 to all.size
      invariant fresh(copy) && fresh(copy.Storage()) && copy.Valid()
      invariant all.Valid() && all.Contents() == old(all.Contents()) && i <= |all.Contents()|
      invariant copy.Contents() == all.Contents()[..i]
    {
      copy.Append(all.subregions[i]);
    }
  }
}
