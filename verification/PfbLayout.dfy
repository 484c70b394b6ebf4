/** The layout of a parflow file, byte by byte. */
module PfbLayout {
  import opened Subgrids
  import opened BinaryIo
  import opened Databoxes
  import opened Pfb
  import opened PfbRead

  // ----- numbers in a file -----

  /** The eight bytes at a place are those of a double in memory, backwards. */
  predicate HasWord(file: seq<Byte>, at: nat, w: Word) {
    && at + 8 <= |file|
    && file[at] == w[7] && file[at + 1] == w[6] && file[at + 2] == w[5] && file[at + 3] == w[4]
    && file[at + 4] == w[3] && file[at + 5] == w[2] && file[at + 6] == w[1] && file[at + 7] == w[0]
  }

  /** The four bytes at a place are an integer, the most significant byte first. */
  predicate HasInt(file: seq<Byte>, at: nat, x: Int32) {
    && at + 4 <= |file|
    && x == file[at] as int * 0x100_0000 + file[at + 1] as int * 0x1_0000 + file[at + 2] as int * 0x100
            + file[at + 3] as int - (if file[at] >= 128 then 0x1_0000_0000 else 0)
  }

  lemma WordIsThere(w: Word)
    ensures HasWord(WordBytes(w), 0, w)
  {
  }

  lemma IntIsThere(x: Int32)
    ensures HasInt(IntBytes(x), 0, x)
  {
    var u := Unsigned(x);
    LowAndRest(u);
    LowAndRest(u / 256);
    LowAndRest(u / 256 / 256);
    LowAndRest(u / 256 / 256 / 256);
    assert u / 256 / 256 / 256 < 256;
    assert Low(u / 256 / 256 / 256) as nat == u / 256 / 256 / 256;
    hide Low;
  }

  /** What is at a place of a part is at that place after the part's start. */
  predicate Part(file: seq<Byte>, at: nat, part: seq<Byte>) {
    at + |part| <= |file| && file[at..at + |part|] == part
  }

  lemma PartWord(file: seq<Byte>, at: nat, part: seq<Byte>, p: nat, w: Word)
    requires Part(file, at, part) && HasWord(part, p, w)
    ensures HasWord(file, at + p, w)
  {
    PartEntries(file, at, part);
    hide Part;
  }

  lemma PartEntries(file: seq<Byte>, at: nat, part: seq<Byte>)
    requires Part(file, at, part)
    ensures at + |part| <= |file| && forall t :: 0 <= t < |part| ==> part[t] == file[at + t]
  {
    forall t | 0 <= t < |part| ensures part[t] == file[at + t] {
      assert file[at..at + |part|][t] == file[at + t];
    }
  }

  lemma PartInt(file: seq<Byte>, at: nat, part: seq<Byte>, p: nat, x: Int32)
    requires Part(file, at, part) && HasInt(part, p, x)
    ensures HasInt(file, at + p, x)
  {
    PartEntries(file, at, part);
    hide Part;
  }

  lemma PartOfPart(file: seq<Byte>, at: nat, part: seq<Byte>, p: nat, piece: seq<Byte>)
    requires Part(file, at, part) && Part(part, p, piece)
    ensures Part(file, at + p, piece)
  {
    PartEntries(file, at, part);
    PartEntries(part, p, piece);
    forall t | 0 <= t < |piece| ensures piece[t] == file[at + p + t] {
      assert piece[t] == part[p + t];
    }
    assert file[at + p..at + p + |piece|] == piece;
  }

  lemma PartsOf(a: seq<Byte>, b: seq<Byte>)
    ensures Part(a + b, 0, a) && Part(a + b, |a|, b)
  {
  }

  /** Equally long encodings follow one another. */
  lemma PieceAt<T>(xs: seq<T>, enc: T -> seq<Byte>, width: nat, i: nat)
    requires i < |xs| && forall t :: 0 <= t < |xs| ==> |enc(xs[t])| == width
    ensures Part(Bytes(xs, enc), width * i, enc(xs[i]))
  {
    BytesAround(xs, enc, i);
    BytesLength(xs[..i], enc, width);
    var a, b, c := Bytes(xs[..i], enc), enc(xs[i]), Bytes(xs[i + 1..], enc);
    PartsOf(a, b + c);
    PartsOf(b, c);
    hide Part, Bytes;
    PartOfPart(a + (b + c), |a|, b + c, 0, b);
  }

  lemma WordAt(ws: seq<Word>, i: nat)
    requires i < |ws|
    ensures HasWord(WordsBytes(ws), 8 * i, ws[i])
  {
    PieceAt(ws, WordBytes, 8, i);
    WordIsThere(ws[i]);
    PartWord(WordsBytes(ws), 8 * i, WordBytes(ws[i]), 0, ws[i]);
  }

  lemma IntAt(xs: seq<Int32>, i: nat)
    requires i < |xs|
    ensures HasInt(IntsBytes(xs), 4 * i, xs[i])
  {
    PieceAt(xs, IntBytes, 4, i);
    IntIsThere(xs[i]);
    PartInt(IntsBytes(xs), 4 * i, IntBytes(xs[i]), 0, xs[i]);
  }

  // ----- the header -----

  predicate HasHeader(file: seq<Byte>, h: Header)
    requires Writable(h)
  {
    && HasWord(file, 0, h.bg.x) && HasWord(file, 8, h.bg.y) && HasWord(file, 16, h.bg.z)
    && HasInt(file, 24, h.d.nx) && HasInt(file, 28, h.d.ny) && HasInt(file, 32, h.d.nz)
    && HasWord(file, 36, h.bg.dx) && HasWord(file, 44, h.bg.dy) && HasWord(file, 52, h.bg.dz)
    && HasInt(file, 60, h.n)
  }

  lemma TripleWords(file: seq<Byte>, at: nat, a: Word, b: Word, c: Word)
    requires Part(file, at, WordsBytes([a, b, c]))
    ensures HasWord(file, at, a) && HasWord(file, at + 8, b) && HasWord(file, at + 16, c)
  {
    var ws := [a, b, c];
    WordAt(ws, 0);
    WordAt(ws, 1);
    WordAt(ws, 2);
    hide Part, HasWord, WordsBytes;
    PartWord(file, at, WordsBytes(ws), 0, a);
    PartWord(file, at, WordsBytes(ws), 8, b);
    PartWord(file, at, WordsBytes(ws), 16, c);
  }

  lemma TripleInts(file: seq<Byte>, at: nat, a: Int32, b: Int32, c: Int32)
    requires Part(file, at, IntsBytes([a, b, c]))
    ensures HasInt(file, at, a) && HasInt(file, at + 4, b) && HasInt(file, at + 8, c)
  {
    var xs := [a, b, c];
    IntAt(xs, 0);
    IntAt(xs, 1);
    IntAt(xs, 2);
    hide Part, HasInt, IntsBytes;
    PartInt(file, at, IntsBytes(xs), 0, a);
    PartInt(file, at, IntsBytes(xs), 4, b);
    PartInt(file, at, IntsBytes(xs), 8, c);
  }

  lemma HeaderLaidOut(h: Header)
    requires Writable(h)
    ensures HasHeader(HeaderBytes(h), h)
  {
    HeaderParts(h);
    hide *;
    TripleWords(HeaderBytes(h), 0, h.bg.x, h.bg.y, h.bg.z);
    TripleInts(HeaderBytes(h), 24, h.d.nx, h.d.ny, h.d.nz);
    TripleWords(HeaderBytes(h), 36, h.bg.dx, h.bg.dy, h.bg.dz);
    IntAt([h.n], 0);
    PartInt(HeaderBytes(h), 60, IntsBytes([h.n]), 0, h.n);
    IsHeader(HeaderBytes(h), h);
  }

  lemma IsHeader(file: seq<Byte>, h: Header)
    requires Writable(h)
    requires HasWord(file, 0, h.bg.x) && HasWord(file, 8, h.bg.y) && HasWord(file, 16, h.bg.z)
    requires HasInt(file, 24, h.d.nx) && HasInt(file, 28, h.d.ny) && HasInt(file, 32, h.d.nz)
    requires HasWord(file, 36, h.bg.dx) && HasWord(file, 44, h.bg.dy) && HasWord(file, 52, h.bg.dz)
    requires HasInt(file, 60, h.n)
    ensures HasHeader(file, h)
  {
    hide HasWord, HasInt;
  }

  lemma HeaderParts(h: Header)
    requires Writable(h)
    ensures IsInt(h.d.nx) && IsInt(h.d.ny) && IsInt(h.d.nz) && IsInt(h.n)
    ensures Part(HeaderBytes(h), 0, WordsBytes([h.bg.x, h.bg.y, h.bg.z]))
    ensures Part(HeaderBytes(h), 24, IntsBytes([h.d.nx, h.d.ny, h.d.nz]))
    ensures Part(HeaderBytes(h), 36, WordsBytes([h.bg.dx, h.bg.dy, h.bg.dz]))
    ensures Part(HeaderBytes(h), 60, IntsBytes([h.n]))
  {
    hide Part;
    FourParts(HeaderBytes(h), WordsBytes([h.bg.x, h.bg.y, h.bg.z]), IntsBytes([h.d.nx, h.d.ny, h.d.nz]),
              WordsBytes([h.bg.dx, h.bg.dy, h.bg.dz]), IntsBytes([h.n]));
  }

  lemma FourParts(file: seq<Byte>, a: seq<Byte>, b: seq<Byte>, c: seq<Byte>, d: seq<Byte>)
    requires file == a + (b + (c + d))
    ensures Part(file, 0, a) && Part(file, |a|, b) && Part(file, |a| + |b|, c) && Part(file, |a| + |b| + |c|, d)
  {
    PartsOf(a, b + (c + d));
    PartsOf(b, c + d);
    PartsOf(c, d);
    hide Part;
    PartOfPart(file, |a|, b + (c + d), 0, b);
    PartOfPart(file, |a|, b + (c + d), |b|, c + d);
    PartOfPart(file, |a| + |b|, c + d, 0, c);
    PartOfPart(file, |a| + |b|, c + d, |c|, d);
  }

  // ----- a block -----

  /** A block starts with the nine numbers of its subgrid; then come its cells, x varying fastest. */
  ghost predicate HasBlock(file: seq<Byte>, at: nat, c: seq<Word>, d: Dims, s: Subgrid)
    requires |c| == d.Volume() && Fits(d, s)
  {
    && HasNumbers(file, at, d, s)
    && forall i, j, k | 0 <= i < s.nx && 0 <= j < s.ny && 0 <= k < s.nz :: HasCell(file, at, c, d, s, i, j, k)
  }

  /** Where cell (i, j, k) of a block of nx by ny cells a slab is. */
  function CellPlace(nx: nat, ny: nat, i: nat, j: nat, k: nat): nat {
    36 + 8 * ((k * ny + j) * nx + i)
  }

  function CellWord(c: seq<Word>, d: Dims, s: Subgrid, i: nat, j: nat, k: nat): Word
    requires |c| == d.Volume() && Fits(d, s) && i < s.nx && j < s.ny && k < s.nz
  {
    IndexInVolume(d, s.ix + i, s.iy + j, s.iz + k);
    c[d.Index(s.ix + i, s.iy + j, s.iz + k)]
  }

  /** Cell (i, j, k) of the subgrid. */
  ghost predicate HasCell(file: seq<Byte>, at: nat, c: seq<Word>, d: Dims, s: Subgrid, i: nat, j: nat, k: nat)
    requires |c| == d.Volume() && Fits(d, s) && i < s.nx && j < s.ny && k < s.nz
  {
    HasWord(file, at + CellPlace(s.nx, s.ny, i, j, k), CellWord(c, d, s, i, j, k))
  }

  lemma NineInts(d: Dims, s: Subgrid)
    requires Fits(d, s)
    ensures var b := IntsBytes(SubgridInts(d, s));
            && |b| == 36
            && HasInt(b, 0, s.ix) && HasInt(b, 4, s.iy) && HasInt(b, 8, s.iz)
            && HasInt(b, 12, s.nx) && HasInt(b, 16, s.ny) && HasInt(b, 20, s.nz)
            && HasInt(b, 24, s.rx) && HasInt(b, 28, s.ry) && HasInt(b, 32, s.rz)
  {
    var xs := SubgridInts(d, s);
    BytesLength(xs, IntBytes, 4);
    IntAt(xs, 0);
    IntAt(xs, 1);
    IntAt(xs, 2);
    IntAt(xs, 3);
    IntAt(xs, 4);
    IntAt(xs, 5);
    IntAt(xs, 6);
    IntAt(xs, 7);
    IntAt(xs, 8);
    hide HasInt;
  }

  lemma RowPlaced(c: seq<Word>, d: Dims, s: Subgrid, j: nat, k: nat, i: nat)
    requires |c| == d.Volume() && Fits(d, s) && i < s.nx && j < s.ny && k < s.nz
    ensures HasWord(RowBytes(c, d, s, k)(j), 8 * i, CellWord(c, d, s, i, j, k))
  {
    RowEntry(c, d, s, j, k, i);
    WordAt(RowWords(c, d, s, j, k), i);
    hide HasWord, RowWords, CellWord;
  }

  lemma RowEntry(c: seq<Word>, d: Dims, s: Subgrid, j: nat, k: nat, i: nat)
    requires |c| == d.Volume() && Fits(d, s) && i < s.nx && j < s.ny && k < s.nz
    ensures RowWords(c, d, s, j, k)[i] == CellWord(c, d, s, i, j, k)
  {
    RowCell(d, s, i, j, k);
    RowInVolume(d, s, j, k);
    hide Dims.Index, Dims.RowStart, Dims.Volume;
  }

  lemma RowPart(c: seq<Word>, d: Dims, s: Subgrid, j: nat, k: nat)
    requires |c| == d.Volume() && Fits(d, s) && j < s.ny && k < s.nz
    ensures Part(SlabBytes(c, d, s)(k), 8 * s.nx * j, RowBytes(c, d, s, k)(j))
  {
    forall t | 0 <= t < s.ny ensures |RowBytes(c, d, s, k)(t)| == 8 * s.nx {
    }
    hide RowBytes, Part;
    PieceAt(Count(s.ny), RowBytes(c, d, s, k), 8 * s.nx, j);
  }

  function SlabPlace(nx: nat, ny: nat, k: nat): nat {
    8 * nx * ny * k
  }

  lemma SlabPart(c: seq<Word>, d: Dims, s: Subgrid, k: nat)
    requires |c| == d.Volume() && Fits(d, s) && k < s.nz
    ensures Part(Bytes(Count(s.nz), SlabBytes(c, d, s)), SlabPlace(s.nx, s.ny, k), SlabBytes(c, d, s)(k))
  {
    forall t | 0 <= t < s.nz ensures |SlabBytes(c, d, s)(t)| == 8 * s.nx * s.ny {
      SlabLength(c, d, s, t);
    }
    hide SlabBytes, Part;
    PieceAt(Count(s.nz), SlabBytes(c, d, s), 8 * s.nx * s.ny, k);
  }

  lemma PlaceInBlock(nx: nat, ny: nat, i: nat, j: nat, k: nat)
    ensures 36 + SlabPlace(nx, ny, k) + 8 * nx * j + 8 * i == CellPlace(nx, ny, i, j, k)
  {
    assert (k * ny + j) * nx == k * ny * nx + j * nx;
    assert 8 * nx * ny * k == 8 * (k * ny * nx);
    assert 8 * nx * j == 8 * (j * nx);
  }

  lemma BlockParts(c: seq<Word>, d: Dims, s: Subgrid)
    requires |c| == d.Volume() && Fits(d, s)
    ensures Part(BlockBytes(c, d)(s), 0, IntsBytes(SubgridInts(d, s)))
    ensures Part(BlockBytes(c, d)(s), 36, Bytes(Count(s.nz), SlabBytes(c, d, s)))
  {
    NineInts(d, s);
    PartsOf(IntsBytes(SubgridInts(d, s)), Bytes(Count(s.nz), SlabBytes(c, d, s)));
    hide Part, HasInt, SlabBytes, IntsBytes, SubgridInts, Bytes;
  }

  lemma CellLaidOut(c: seq<Word>, d: Dims, s: Subgrid, i: nat, j: nat, k: nat)
    requires |c| == d.Volume() && Fits(d, s) && i < s.nx && j < s.ny && k < s.nz
    ensures HasWord(BlockBytes(c, d)(s), CellPlace(s.nx, s.ny, i, j, k), CellWord(c, d, s, i, j, k))
  {
    hide *;
    BlockParts(c, d, s);
    SlabPart(c, d, s, k);
    RowPart(c, d, s, j, k);
    RowPlaced(c, d, s, j, k, i);
    PlaceInBlock(s.nx, s.ny, i, j, k);
    InParts(BlockBytes(c, d)(s), Bytes(Count(s.nz), SlabBytes(c, d, s)), SlabBytes(c, d, s)(k), RowBytes(c, d, s, k)(j),
            SlabPlace(s.nx, s.ny, k), 8 * s.nx * j, 8 * i, CellWord(c, d, s, i, j, k));
  }

  lemma InParts(block: seq<Byte>, body: seq<Byte>, slab: seq<Byte>, row: seq<Byte>, a: nat, b: nat, e: nat, w: Word)
    requires Part(block, 36, body) && Part(body, a, slab) && Part(slab, b, row) && HasWord(row, e, w)
    ensures HasWord(block, 36 + a + b + e, w)
  {
    hide Part, HasWord;
    PartOfPart(block, 36, body, a, slab);
    PartOfPart(block, 36 + a, slab, b, row);
    PartWord(block, 36 + a + b, row, e, w);
  }

  /** The nine numbers of a subgrid. */
  predicate HasNumbers(file: seq<Byte>, at: nat, d: Dims, s: Subgrid)
    requires Fits(d, s)
  {
    && HasInt(file, at, s.ix) && HasInt(file, at + 4, s.iy) && HasInt(file, at + 8, s.iz)
    && HasInt(file, at + 12, s.nx) && HasInt(file, at + 16, s.ny) && HasInt(file, at + 20, s.nz)
    && HasInt(file, at + 24, s.rx) && HasInt(file, at + 28, s.ry) && HasInt(file, at + 32, s.rz)
  }

  lemma NumbersLaidOut(file: seq<Byte>, at: nat, d: Dims, s: Subgrid)
    requires Fits(d, s) && Part(file, at, IntsBytes(SubgridInts(d, s)))
    ensures HasNumbers(file, at, d, s)
  {
    NineInts(d, s);
    var head := IntsBytes(SubgridInts(d, s));
    hide Part, HasInt, SubgridInts, IntsBytes;
    PartInt(file, at, head, 0, s.ix);
    PartInt(file, at, head, 4, s.iy);
    PartInt(file, at, head, 8, s.iz);
    PartInt(file, at, head, 12, s.nx);
    PartInt(file, at, head, 16, s.ny);
    PartInt(file, at, head, 20, s.nz);
    PartInt(file, at, head, 24, s.rx);
    PartInt(file, at, head, 28, s.ry);
    PartInt(file, at, head, 32, s.rz);
  }

  lemma BlockLaidOut(file: seq<Byte>, at: nat, c: seq<Word>, d: Dims, s: Subgrid)
    requires |c| == d.Volume() && Fits(d, s) && Part(file, at, BlockBytes(c, d)(s))
    ensures HasBlock(file, at, c, d, s)
  {
    hide Part, HasInt, HasWord, HasNumbers, SlabBytes, BlockBytes, SubgridInts, IntsBytes, Bytes, CellWord, CellPlace;
    BlockParts(c, d, s);
    PartOfPart(file, at, BlockBytes(c, d)(s), 0, IntsBytes(SubgridInts(d, s)));
    NumbersLaidOut(file, at, d, s);
    forall i, j, k | 0 <= i < s.nx && 0 <= j < s.ny && 0 <= k < s.nz ensures HasCell(file, at, c, d, s, i, j, k) {
      CellLaidOut(c, d, s, i, j, k);
      PartWord(file, at, BlockBytes(c, d)(s), CellPlace(s.nx, s.ny, i, j, k), CellWord(c, d, s, i, j, k));
    }
  }

  // ----- a whole file -----

  /** One header, and the blocks of the subgrids listed, each where those before it end. */
  lemma FileLaidOut(h: Header, c: seq<Word>, list: seq<Subgrid>, e: nat)
    requires Writable(h) && AllFit(h.d, list) && |c| == h.d.Volume() && e < |list|
    ensures HasHeader(FileBytes(h, c, list), h)
    ensures HasBlock(FileBytes(h, c, list), |FileBytes(h, c, list[..e])|, c, h.d, list[e])
  {
    hide *;
    BytesAround(list, BlockBytes(c, h.d), e);
    HeaderLaidOut(h);
    FileParts(h, c, list, e);
    InFile(FileBytes(h, c, list), HeaderBytes(h), Bytes(list[..e], BlockBytes(c, h.d)), BlockBytes(c, h.d)(list[e]),
           Bytes(list[e + 1..], BlockBytes(c, h.d)));
    HeaderIn(FileBytes(h, c, list), HeaderBytes(h), h);
    BlockLaidOut(FileBytes(h, c, list), |HeaderBytes(h)| + |Bytes(list[..e], BlockBytes(c, h.d))|, c, h.d, list[e]);
  }

  lemma FileParts(h: Header, c: seq<Word>, list: seq<Subgrid>, e: nat)
    requires Writable(h) && e < |list| && AllFit(h.d, list)
    ensures Fits(h.d, list[e])
    ensures FileBytes(h, c, list) == HeaderBytes(h) + Bytes(list, BlockBytes(c, h.d))
    ensures |FileBytes(h, c, list[..e])| == |HeaderBytes(h)| + |Bytes(list[..e], BlockBytes(c, h.d))|
  {
    hide HeaderBytes, Bytes, BlockBytes, Fits;
  }

  lemma InFile(file: seq<Byte>, head: seq<Byte>, before: seq<Byte>, block: seq<Byte>, after: seq<Byte>)
    requires file == head + (before + (block + after))
    ensures Part(file, 0, head) && Part(file, |head| + |before|, block)
  {
    PartsOf(head, before + (block + after));
    PartsOf(before, block + after);
    PartsOf(block, after);
    hide Part;
    PartOfPart(file, |head|, before + (block + after), |before|, block + after);
    PartOfPart(file, |head| + |before|, block + after, 0, block);
  }

  lemma HeaderIn(file: seq<Byte>, head: seq<Byte>, h: Header)
    requires Writable(h) && Part(file, 0, head) && HasHeader(head, h)
    ensures HasHeader(file, h)
  {
    hide Part, HasInt, HasWord;
    PartWord(file, 0, head, 0, h.bg.x);
    PartWord(file, 0, head, 8, h.bg.y);
    PartWord(file, 0, head, 16, h.bg.z);
    PartInt(file, 0, head, 24, h.d.nx);
    PartInt(file, 0, head, 28, h.d.ny);
    PartInt(file, 0, head, 32, h.d.nz);
    PartWord(file, 0, head, 36, h.bg.dx);
    PartWord(file, 0, head, 44, h.bg.dy);
    PartWord(file, 0, head, 52, h.bg.dz);
    PartInt(file, 0, head, 60, h.n);
  }

  /** Where block e starts: after the header of 64 bytes, or where line e of the distribution
      file says that the block before it ended. */
  function BlockStart(dist: seq<nat>, e: nat): nat
    requires e < |dist|
  {
    if e == 0 then 64 else dist[e]
  }

  /** The file and its distribution file, for subgrids in their order in the file: the header,
      the blocks one after another, and a line for the end of each. */
  ghost predicate Indexed(file: seq<Byte>, dist: seq<nat>, h: Header, c: seq<Word>, list: seq<Subgrid>)
    requires Writable(h) && AllFit(h.d, list) && |c| == h.d.Volume()
  {
    && HasHeader(file, h)
    && |dist| == |list| + 1 && dist[0] == 0 && dist[|list|] == |file|
    && forall e :: 0 <= e < |list| ==> IndexedBlock(file, dist, c, h.d, list[e], e)
  }

  ghost predicate IndexedBlock(file: seq<Byte>, dist: seq<nat>, c: seq<Word>, d: Dims, s: Subgrid, e: nat)
    requires |c| == d.Volume() && Fits(d, s) && e + 1 < |dist|
  {
    && HasBlock(file, BlockStart(dist, e), c, d, s)
    && dist[e + 1] == BlockStart(dist, e) + 36 + 8 * (s.nx * s.ny * s.nz)
  }

  lemma FileIndexed(h: Header, c: seq<Word>, list: seq<Subgrid>, dist: seq<nat>)
    requires Writable(h) && AllFit(h.d, list) && |c| == h.d.Volume() && list != []
    requires ListsOffsets(dist, h, c, list)
    ensures Indexed(FileBytes(h, c, list), dist, h, c, list)
  {
    var file := FileBytes(h, c, list);
    assert list[..|list|] == list;
    FileLaidOut(h, c, list, 0);
    forall e | 0 <= e < |list| ensures IndexedBlock(file, dist, c, h.d, list[e], e) {
      FileLaidOut(h, c, list, e);
      FileGrows(h, c, list, e);
      hide FileBytes, HasBlock, HasHeader;
    }
    hide FileBytes, HasBlock, HasHeader, IndexedBlock;
  }

  lemma FileGrows(h: Header, c: seq<Word>, list: seq<Subgrid>, e: nat)
    requires Writable(h) && AllFit(h.d, list) && |c| == h.d.Volume() && e < |list|
    ensures |FileBytes(h, c, list[..e + 1])| == |FileBytes(h, c, list[..e])| + 36 + 8 * (list[e].nx * list[e].ny * list[e].nz)
    ensures |FileBytes(h, c, list[..0])| == 64
  {
    OneMore(list, e, BlockBytes(c, h.d));
    BlockLength(c, h.d, list[e]);
    assert list[..0] == [];
    hide BlockBytes;
  }
}
