/** load.c (the unsplit file) and readdatabox.c: a databox is written block by block, the
    blocks of process 0 first, and read back into a box full of a default value. */
module Pfb {
  import opened Subgrids
  import opened BinaryIo
  import opened Databoxes

  datatype Background = Background(x: Word, y: Word, z: Word, dx: Word, dy: Word, dz: Word)

  /** What the header says: the background, the extent of the databox and the number of blocks. */
  datatype Header = Header(bg: Background, d: Dims, n: nat)

  predicate IsInt(x: int) {
    -0x8000_0000 <= x < 0x8000_0000
  }

  predicate Writable(h: Header) {
    IsInt(h.d.nx) && IsInt(h.d.ny) && IsInt(h.d.nz) && IsInt(h.n)
  }

  /** A subgrid of the databox whose numbers are machine integers. */
  predicate Fits(d: Dims, s: Subgrid) {
    && d.Bounds(s) && IsInt(s.ix) && IsInt(s.iy) && IsInt(s.iz) && IsInt(s.nx) && IsInt(s.ny) && IsInt(s.nz)
    && IsInt(s.rx) && IsInt(s.ry) && IsInt(s.rz)
  }

  ghost predicate AllFit(d: Dims, list: seq<Subgrid>) {
    forall i :: 0 <= i < |list| ==> Fits(d, list[i])
  }

  // ----- the layout of the file -----

  function HeaderBytes(h: Header): (b: seq<Byte>)
    requires Writable(h)
    ensures |b| == 6 * 8 + 4 * 4
  {
    WordsBytes([h.bg.x, h.bg.y, h.bg.z])
      + (IntsBytes([h.d.nx, h.d.ny, h.d.nz]) + (WordsBytes([h.bg.dx, h.bg.dy, h.bg.dz]) + IntsBytes([h.n])))
  }

  function Count(n: nat): (r: seq<nat>)
    ensures |r| == n && forall i :: 0 <= i < n ==> r[i] == i
  {
    seq(n, i requires 0 <= i < n => i)
  }

  /** Row (j, k) of a subgrid of the buffer c. */
  function RowWords(c: seq<Word>, d: Dims, s: Subgrid, j: nat, k: nat): (r: seq<Word>)
    requires |c| == d.Volume() && Fits(d, s) && j < s.ny && k < s.nz
    ensures |r| == s.nx
  {
    RowInVolume(d, s, j, k);
    c[d.RowStart(s, j, k)..d.RowStart(s, j, k) + s.nx]
  }

  function RowBytes(c: seq<Word>, d: Dims, s: Subgrid, k: nat): nat -> seq<Byte> {
    (j: nat) => if |c| == d.Volume() && Fits(d, s) && j < s.ny && k < s.nz then WordsBytes(RowWords(c, d, s, j, k)) else []
  }

  function SlabBytes(c: seq<Word>, d: Dims, s: Subgrid): nat -> seq<Byte> {
    (k: nat) => if s.ny >= 0 then Bytes(Count(s.ny), RowBytes(c, d, s, k)) else []
  }

  function SubgridInts(d: Dims, s: Subgrid): (r: seq<Int32>)
    requires Fits(d, s)
    ensures |r| == 9
  {
    [s.ix, s.iy, s.iz, s.nx, s.ny, s.nz, s.rx, s.ry, s.rz]
  }

  /** The block of a subgrid: its nine integers and its rows. */
  function BlockBytes(c: seq<Word>, d: Dims): Subgrid -> seq<Byte> {
    (s: Subgrid) => if Fits(d, s) then IntsBytes(SubgridInts(d, s)) + Bytes(Count(s.nz), SlabBytes(c, d, s)) else []
  }

  /** A file: one header and the blocks of the subgrids listed. */
  function FileBytes(h: Header, c: seq<Word>, list: seq<Subgrid>): seq<Byte>
    requires Writable(h)
  {
    HeaderBytes(h) + Bytes(list, BlockBytes(c, h.d))
  }

  lemma SlabLength(c: seq<Word>, d: Dims, s: Subgrid, k: nat)
    requires |c| == d.Volume() && Fits(d, s) && k < s.nz
    ensures |SlabBytes(c, d, s)(k)| == 8 * s.nx * s.ny
  {
    BytesLength(Count(s.ny), RowBytes(c, d, s, k), 8 * s.nx);
  }

  lemma BodyLength(c: seq<Word>, d: Dims, s: Subgrid)
    requires |c| == d.Volume() && Fits(d, s)
    ensures |Bytes(Count(s.nz), SlabBytes(c, d, s))| == 8 * s.nx * s.ny * s.nz
  {
    forall k | 0 <= k < s.nz ensures |SlabBytes(c, d, s)(k)| == 8 * s.nx * s.ny {
      SlabLength(c, d, s, k);
    }
    hide SlabBytes;
    BytesLength(Count(s.nz), SlabBytes(c, d, s), 8 * s.nx * s.ny);
  }

  lemma TimesEight(a: nat, b: nat, c: nat)
    ensures 8 * a * b * c == (a * b * c) * 8
  {
    assert 8 * a * b == 8 * (a * b);
    assert 8 * (a * b) * c == 8 * (a * b * c);
  }

  lemma BlockLength(c: seq<Word>, d: Dims, s: Subgrid)
    requires |c| == d.Volume() && Fits(d, s)
    ensures |BlockBytes(c, d)(s)| == 9 * 4 + BlockCells(s) * 8
  {
    BodyLength(c, d, s);
    TimesEight(s.nx, s.ny, s.nz);
    hide SlabBytes, Bytes;
  }

  // ----- writing -----

  method WriteVector(file: File, u: Word, v: Word, w: Word)
    modifies file`data
    ensures file.data == old(file.data) + WordsBytes([u, v, w])
  {
    Words3(u, v, w);
    hide WordsBytes;
    file.WriteDouble([u]);
    file.WriteDouble([v]);
    file.WriteDouble([w]);
  }

  lemma Words3(u: Word, v: Word, w: Word)
    ensures WordsBytes([u, v, w]) == WordsBytes([u]) + WordsBytes([v]) + WordsBytes([w])
  {
    assert [u, v, w] == [u] + [v] + [w];
    BytesConcat([u] + [v], [w], WordBytes);
    BytesConcat([u], [v], WordBytes);
  }

  method WriteTriple(file: File, u: Int32, v: Int32, w: Int32)
    modifies file`data
    ensures file.data == old(file.data) + IntsBytes([u, v, w])
  {
    Ints3(u, v, w);
    hide IntsBytes;
    file.WriteInt([u]);
    file.WriteInt([v]);
    file.WriteInt([w]);
  }

  lemma Ints3(u: Int32, v: Int32, w: Int32)
    ensures IntsBytes([u, v, w]) == IntsBytes([u]) + IntsBytes([v]) + IntsBytes([w])
  {
    assert [u, v, w] == [u] + [v] + [w];
    BytesConcat([u] + [v], [w], IntBytes);
    BytesConcat([u], [v], IntBytes);
  }

  method WriteHeader(file: File, h: Header)
    requires Writable(h)
    modifies file`data
    ensures file.data == old(file.data) + HeaderBytes(h)
  {
    hide WordsBytes, IntsBytes;
    WriteVector(file, h.bg.x, h.bg.y, h.bg.z);
    WriteTriple(file, h.d.nx, h.d.ny, h.d.nz);
    WriteVector(file, h.bg.dx, h.bg.dy, h.bg.dz);
    file.WriteInt([h.n]);
  }

  lemma RowOffset(d: Dims, s: Subgrid, j: nat, k: nat)
    requires d.Bounds(s)
    ensures s.iz * d.ny * d.nx + s.iy * d.nx + s.ix + j * d.nx + k * d.nx * d.ny == d.RowStart(s, j, k)
  {
    var a, b := s.iz * d.ny + s.iy, k * d.ny + j;
    assert (a + b) * d.nx == a * d.nx + b * d.nx;
    assert (s.iz + k) * d.ny == s.iz * d.ny + k * d.ny;
    assert a * d.nx == s.iz * d.ny * d.nx + s.iy * d.nx;
    assert b * d.nx == k * d.ny * d.nx + j * d.nx;
    assert k * d.ny * d.nx == k * d.nx * d.ny;
  }

  lemma SlabIs(c: seq<Word>, d: Dims, s: Subgrid, k: nat)
    requires Fits(d, s)
    ensures s.ny >= 0 && s.nz >= 0 && s.nx >= 0 && d.Bounds(s)
    ensures SlabBytes(c, d, s)(k) == Bytes(Count(s.ny), RowBytes(c, d, s, k))
  {
  }

  /** The place of row (j, k) as the program reckons it, and what it holds. */
  lemma RowAt(c: seq<Word>, d: Dims, s: Subgrid, j: nat, k: nat)
    requires Fits(d, s) && |c| == d.Volume() && j < s.ny && k < s.nz
    ensures var at := s.iz * d.ny * d.nx + s.iy * d.nx + s.ix + j * d.nx + k * d.nx * d.ny;
            && at == d.RowStart(s, j, k) && at + s.nx <= |c|
            && RowBytes(c, d, s, k)(Count(s.ny)[j]) == WordsBytes(c[at..at + s.nx])
  {
    RowOffset(d, s, j, k);
    RowInVolume(d, s, j, k);
    hide WordsBytes, Dims.RowStart;
  }

  /** Writes row (j, k) of a subgrid. */
  method WriteRow(file: File, box: Databox, s: Subgrid, j: nat, k: nat)
    requires box.Valid() && Fits(box.Extent(), s) && j < s.ny && k < s.nz
    modifies file`data
    ensures file.data == old(file.data) + RowBytes(box.coeffs[..], box.Extent(), s, k)(Count(s.ny)[j])
  {
    RowAt(box.coeffs[..], box.Extent(), s, j, k);
    hide RowBytes, WordsBytes;
    var ptr := s.iz * box.ny * box.nx + s.iy * box.nx + s.ix;
    var at := ptr + j * box.nx + k * box.nx * box.ny;
    file.WriteDouble(box.coeffs[at..at + s.nx]);
  }

  /** Writes the rows of one slab. */
  method WriteSlab(file: File, box: Databox, s: Subgrid, k: nat)
    requires box.Valid() && Fits(box.Extent(), s) && k < s.nz
    modifies file`data
    ensures file.data == old(file.data) + SlabBytes(box.coeffs[..], box.Extent(), s)(k)
  {
    ghost var rows := RowBytes(box.coeffs[..], box.Extent(), s, k);
    SlabIs(box.coeffs[..], box.Extent(), s, k);
    hide *;
    RowsEnds(s.ny, rows, file.data);
    for j := 0 to s.ny
      invariant file.data == old(file.data) + Bytes(Count(s.ny)[..j], rows)
    {
      RowsFrom(s.ny, j, rows, old(file.data));
      WriteRow(file, box, s, j, k);
    }
  }

  lemma RowsFrom(n: nat, j: nat, enc: nat -> seq<Byte>, before: seq<Byte>)
    requires j < n
    ensures before + Bytes(Count(n)[..j], enc) + enc(Count(n)[j]) == before + Bytes(Count(n)[..j + 1], enc)
  {
    OneMore(Count(n), j, enc);
  }

  lemma RowsEnds(n: nat, enc: nat -> seq<Byte>, before: seq<Byte>)
    ensures before + Bytes(Count(n)[..0], enc) == before && Count(n)[..n] == Count(n)
  {
  }

  /** Writes the nine integers of a subgrid. */
  method WriteExtent(file: File, d: Dims, s: Subgrid)
    requires Fits(d, s)
    modifies file`data
    ensures file.data == old(file.data) + IntsBytes(SubgridInts(d, s))
  {
    var a: seq<Int32>, b: seq<Int32>, c: seq<Int32> := [s.ix, s.iy, s.iz], [s.nx, s.ny, s.nz], [s.rx, s.ry, s.rz];
    assert SubgridInts(d, s) == a + b + c;
    BytesConcat(a + b, c, IntBytes);
    BytesConcat(a, b, IntBytes);
    assert IntsBytes(SubgridInts(d, s)) == IntsBytes(a) + IntsBytes(b) + IntsBytes(c);
    hide IntsBytes, SubgridInts;
    WriteTriple(file, s.ix, s.iy, s.iz);
    WriteTriple(file, s.nx, s.ny, s.nz);
    WriteTriple(file, s.rx, s.ry, s.rz);
  }

  /** Writes all the rows of a subgrid. */
  method WriteSlabs(file: File, box: Databox, s: Subgrid)
    requires box.Valid() && Fits(box.Extent(), s)
    modifies file`data
    ensures file.data == old(file.data) + Bytes(Count(s.nz), SlabBytes(box.coeffs[..], box.Extent(), s))
  {
    ghost var slabs := SlabBytes(box.coeffs[..], box.Extent(), s);
    SlabIs(box.coeffs[..], box.Extent(), s, 0);
    hide *;
    RowsEnds(s.nz, slabs, file.data);
    for k := 0 to s.nz
      invariant file.data == old(file.data) + Bytes(Count(s.nz)[..k], slabs)
    {
      RowsFrom(s.nz, k, slabs, old(file.data));
      assert Count(s.nz)[k] == k;
      WriteSlab(file, box, s, k);
    }
  }

  /** Writes the block of a subgrid. */
  method WriteBlock(file: File, box: Databox, s: Subgrid)
    requires box.Valid() && Fits(box.Extent(), s)
    modifies file`data
    ensures file.data == old(file.data) + BlockBytes(box.coeffs[..], box.Extent())(s)
  {
    BlockIs(box.coeffs[..], box.Extent(), s, file.data);
    hide IntsBytes, SubgridInts, Bytes, SlabBytes, BlockBytes, Fits, Count;
    WriteExtent(file, box.Extent(), s);
    WriteSlabs(file, box, s);
  }

  lemma BlockIs(c: seq<Word>, d: Dims, s: Subgrid, before: seq<Byte>)
    requires Fits(d, s)
    ensures before + IntsBytes(SubgridInts(d, s)) + Bytes(Count(s.nz), SlabBytes(c, d, s)) == before + BlockBytes(c, d)(s)
  {
    hide IntsBytes, SubgridInts, Bytes, SlabBytes, Count;
  }

  // ----- the order of the blocks -----

  /** Those of the first n subgrids that process p owns. */
  function Owned(list: seq<Subgrid>, p: int, n: nat): seq<Subgrid>
    requires n <= |list|
  {
    if n == 0 then [] else Owned(list, p, n - 1) + if list[n - 1].process == p then [list[n - 1]] else []
  }

  /** The subgrids in the order of their processes, up to process p. */
  function ByProcess(list: seq<Subgrid>, p: nat): seq<Subgrid> {
    if p == 0 then [] else ByProcess(list, p - 1) + Owned(list, p - 1, |list|)
  }

  /** What is written for a subgrid: the header goes before the blocks of process 0. */
  function EntryBytes(h: Header, c: seq<Word>): Subgrid -> seq<Byte>
    requires Writable(h)
  {
    (s: Subgrid) => (if s.process == 0 then HeaderBytes(h) else []) + BlockBytes(c, h.d)(s)
  }

  /** The lines of the distribution file: the bytes before every block, and those of the file. */
  function Offsets(list: seq<Subgrid>, enc: Subgrid -> seq<Byte>): (r: seq<nat>)
    ensures |r| == |list| + 1
  {
    if list == [] then [0]
    else Offsets(list[..|list| - 1], enc) + [|Bytes(list, enc)|]
  }

  lemma {:induction false} OffsetsAt(list: seq<Subgrid>, enc: Subgrid -> seq<Byte>, m: nat)
    requires m <= |list|
    ensures Offsets(list, enc)[m] == |Bytes(list[..m], enc)|
  {
    if m == |list| {
      assert list[..m] == list;
    } else {
      OffsetsAt(list[..|list| - 1], enc, m);
      assert list[..|list| - 1][..m] == list[..m];
    }
  }

  /** One more than the largest process number; 0 if there are no subgrids. */
  function NumProcs(list: seq<Subgrid>): (n: nat)
    ensures forall i :: 0 <= i < |list| ==> list[i].process < n
  {
    if list == [] then 0
    else
      var m, last := NumProcs(list[..|list| - 1]), list[|list| - 1].process;
      if last >= m then last + 1 else m
  }

  lemma OwnedFits(d: Dims, list: seq<Subgrid>, p: int, n: nat)
    requires AllFit(d, list) && n <= |list|
    ensures AllFit(d, Owned(list, p, n))
  {
    if n > 0 {
      OwnedFits(d, list, p, n - 1);
    }
  }

  // ----- the program that writes -----

  method FindNumProcs(list: seq<Subgrid>) returns (numProcs: nat)
    ensures numProcs == NumProcs(list)
  {
    var largest := -1;
    for i := 0 to |list|
      invariant largest >= -1 && largest + 1 == NumProcs(list[..i])
    {
      assert list[..i + 1][..i] == list[..i];
      if list[i].process > largest {
        largest := list[i].process;
      }
    }
    assert list[..|list|] == list;
    numProcs := largest + 1;
  }

  /** What an entry consists of, written after the bytes before. */
  lemma EntryParts(h: Header, c: seq<Word>, s: Subgrid, before: seq<Byte>)
    requires Writable(h)
    ensures before + EntryBytes(h, c)(s)
      == (if s.process == 0 then before + HeaderBytes(h) else before) + BlockBytes(c, h.d)(s)
    ensures |EntryBytes(h, c)(s)| == (if s.process == 0 then 6 * 8 + 4 * 4 else 0) + |BlockBytes(c, h.d)(s)|
  {
    hide HeaderBytes, BlockBytes;
  }

  /** Writes the entry of a subgrid and adds its size to the position. */
  method WriteEntry(file: File, h: Header, box: Databox, s: Subgrid, filePos: nat) returns (r: nat)
    requires Writable(h) && box.Valid() && h.d == box.Extent() && Fits(h.d, s)
    modifies file`data
    ensures file.data == old(file.data) + EntryBytes(h, box.coeffs[..])(s)
    ensures r == filePos + |EntryBytes(h, box.coeffs[..])(s)|
  {
    EntryParts(h, box.coeffs[..], s, file.data);
    BlockLength(box.coeffs[..], h.d, s);
    hide *;
    r := filePos;
    if s.process == 0 {
      WriteHeader(file, h);
      r := r + (6 * 8 + 4 * 4);
    }
    WriteBlock(file, box, s);
    r := r + (9 * 4 + BlockCells(s) * 8);
  }

  function BlockCells(s: Subgrid): int {
    s.nx * s.ny * s.nz
  }

  /** The file and the distribution file after the subgrids done. */
  ghost predicate Written(done: seq<Subgrid>, enc: Subgrid -> seq<Byte>, data: seq<Byte>, dist: seq<nat>, filePos: nat) {
    data == Bytes(done, enc) && filePos == |data| && dist == Offsets(done, enc)
  }

  lemma WrittenNext(done: seq<Subgrid>, enc: Subgrid -> seq<Byte>, data: seq<Byte>, dist: seq<nat>, s: Subgrid)
    requires Written(done, enc, data, dist, |data|)
    ensures Written(done + [s], enc, data + enc(s), dist + [|data| + |enc(s)|], |data| + |enc(s)|)
  {
    BytesConcat(done, [s], enc);
    BytesOne(s, enc);
    assert (done + [s])[..|done|] == done;
  }

  /** Writes the entries of the subgrids of one process. */
  method WriteProcess(file: File, h: Header, box: Databox, list: seq<Subgrid>, p: nat, dist: seq<nat>, filePos: nat,
                      ghost done: seq<Subgrid>) returns (dist': seq<nat>, filePos': nat)
    requires Writable(h) && box.Valid() && h.d == box.Extent() && AllFit(h.d, list)
    requires Written(done, EntryBytes(h, box.coeffs[..]), file.data, dist, filePos)
    modifies file`data
    ensures Written(done + Owned(list, p, |list|), EntryBytes(h, box.coeffs[..]), file.data, dist', filePos')
  {
    ghost var enc := EntryBytes(h, box.coeffs[..]);
    hide EntryBytes, Written, Fits;
    dist', filePos' := dist, filePos;
    assert done + [] == done;
    for i := 0 to |list|
      invariant Written(done + Owned(list, p, i), enc, file.data, dist', filePos')
    {
      OwnedNext(done, list, p, i);
      if list[i].process == p {
        WrittenPos(done + Owned(list, p, i), enc, file.data, dist', filePos');
        WrittenNext(done + Owned(list, p, i), enc, file.data, dist', list[i]);
        filePos' := WriteEntry(file, h, box, list[i], filePos');
        dist' := dist' + [filePos'];
      }
    }
  }

  lemma WrittenPos(done: seq<Subgrid>, enc: Subgrid -> seq<Byte>, data: seq<Byte>, dist: seq<nat>, filePos: nat)
    requires Written(done, enc, data, dist, filePos)
    ensures filePos == |data|
  {
  }

  lemma OwnedNext(done: seq<Subgrid>, list: seq<Subgrid>, p: int, i: nat)
    requires i < |list|
    ensures list[i].process == p ==> done + Owned(list, p, i + 1) == done + Owned(list, p, i) + [list[i]]
    ensures list[i].process != p ==> done + Owned(list, p, i + 1) == done + Owned(list, p, i)
  {
  }

  /** The header for a databox written over the given subgrids. */
  function HeaderOf(bg: Background, d: Dims, list: seq<Subgrid>): Header {
    Header(bg, d, NumProcs(list))
  }

  /** LoadParflowB, writing one file. */
  method LoadParflowB(list: seq<Subgrid>, bg: Background, box: Databox) returns (file: File, dist: seq<nat>)
    requires box.Valid() && AllFit(box.Extent(), list) && Writable(HeaderOf(bg, box.Extent(), list))
    ensures fresh(file) && file.pos == 0
    ensures var enc := EntryBytes(HeaderOf(bg, box.Extent(), list), box.coeffs[..]);
            && file.data == Bytes(ByProcess(list, NumProcs(list)), enc)
            && dist == Offsets(ByProcess(list, NumProcs(list)), enc)
  {
    var numProcs := FindNumProcs(list);
    var h := Header(bg, Dims(box.nx, box.ny, box.nz), numProcs);
    file := new File();
    hide EntryBytes, Fits;
    dist := WriteProcesses(file, h, box, list, numProcs);
  }

  /** Writes the entries process by process. */
  method WriteProcesses(file: File, h: Header, box: Databox, list: seq<Subgrid>, numProcs: nat) returns (dist: seq<nat>)
    requires Writable(h) && box.Valid() && h.d == box.Extent() && AllFit(h.d, list) && file.data == []
    modifies file`data
    ensures var enc := EntryBytes(h, box.coeffs[..]);
            file.data == Bytes(ByProcess(list, numProcs), enc) && dist == Offsets(ByProcess(list, numProcs), enc)
  {
    dist := [0];
    var filePos: nat := 0;
    hide EntryBytes, Fits;
    for p := 0 to numProcs
      invariant Written(ByProcess(list, p), EntryBytes(h, box.coeffs[..]), file.data, dist, filePos)
    {
      hide Written;
      dist, filePos := WriteProcess(file, h, box, list, p, dist, filePos, ByProcess(list, p));
    }
  }
}
