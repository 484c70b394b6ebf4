/** readdatabox.c: reading a parflow file back, and what writing followed by reading does. */
module PfbRead {
  import opened Subgrids
  import opened BinaryIo
  import opened Databoxes
  import opened Pfb

  // ----- when the file written has the layout that is read -----

  lemma {:induction false} BytesSame<T>(xs: seq<T>, e: T -> seq<Byte>, f: T -> seq<Byte>)
    requires forall i :: 0 <= i < |xs| ==> e(xs[i]) == f(xs[i])
    ensures Bytes(xs, e) == Bytes(xs, f)
  {
    if xs != [] {
      assert e(xs[0]) == f(xs[0]);
      forall i | 0 <= i < |xs[1..]| ensures e(xs[1..][i]) == f(xs[1..][i]) {
        assert xs[1..][i] == xs[i + 1];
      }
      BytesSame(xs[1..], e, f);
    }
  }

  lemma {:induction false} OwnedBy(list: seq<Subgrid>, p: int, n: nat, s: Subgrid)
    requires n <= |list|
    ensures s in Owned(list, p, n) <==> s.process == p && s in list[..n]
  {
    if n > 0 {
      OwnedBy(list, p, n - 1, s);
      assert list[..n] == list[..n - 1] + [list[n - 1]];
    }
  }

  /** The order by processes lists the subgrids of the processes counted. */
  lemma {:induction false} ByProcessHas(list: seq<Subgrid>, p: nat, s: Subgrid)
    ensures s in ByProcess(list, p) <==> 0 <= s.process < p && s in list
  {
    if p > 0 {
      ByProcessHas(list, p - 1, s);
      OwnedBy(list, p - 1, |list|, s);
      assert list[..|list|] == list;
    }
  }

  /** The subgrids of process 0 come first. */
  lemma {:induction false} RootsFirst(list: seq<Subgrid>, p: nat) returns (rest: seq<Subgrid>)
    requires p > 0
    ensures ByProcess(list, p) == Owned(list, 0, |list|) + rest
    ensures forall i :: 0 <= i < |rest| ==> rest[i].process != 0
  {
    if p == 1 {
      rest := [];
    } else {
      var r := RootsFirst(list, p - 1);
      rest := r + Owned(list, p - 1, |list|);
      forall i | 0 <= i < |rest| ensures rest[i].process != 0 {
        if i >= |r| {
          OwnedBy(list, p - 1, |list|, rest[i]);
        }
      }
    }
  }

  lemma {:induction false} HeaderLengths(h: Header, c: seq<Word>, roots: seq<Subgrid>)
    requires Writable(h) && forall i :: 0 <= i < |roots| ==> roots[i].process == 0
    ensures |Bytes(roots, EntryBytes(h, c))| == 64 * |roots| + |Bytes(roots, BlockBytes(c, h.d))|
  {
    if roots != [] {
      HeaderLengths(h, c, roots[1..]);
      EntryParts(h, c, roots[0], []);
    }
  }

  lemma OthersPlain(h: Header, c: seq<Word>, rest: seq<Subgrid>)
    requires Writable(h) && forall i :: 0 <= i < |rest| ==> rest[i].process != 0
    ensures Bytes(rest, EntryBytes(h, c)) == Bytes(rest, BlockBytes(c, h.d))
  {
    forall i | 0 <= i < |rest| ensures EntryBytes(h, c)(rest[i]) == BlockBytes(c, h.d)(rest[i]) {
      EntryParts(h, c, rest[i], []);
    }
    hide EntryBytes, BlockBytes;
    BytesSame(rest, EntryBytes(h, c), BlockBytes(c, h.d));
  }

  lemma OneRoot(h: Header, c: seq<Word>, roots: seq<Subgrid>)
    requires Writable(h) && |roots| == 1 && roots[0].process == 0
    ensures Bytes(roots, EntryBytes(h, c)) == HeaderBytes(h) + Bytes(roots, BlockBytes(c, h.d))
  {
    assert roots == [roots[0]];
    BytesOne(roots[0], EntryBytes(h, c));
    BytesOne(roots[0], BlockBytes(c, h.d));
    EntryParts(h, c, roots[0], []);
    hide EntryBytes, BlockBytes, HeaderBytes;
  }

  /** What is written is one header followed by the blocks just when process 0 owns exactly
      one subgrid. */
  lemma OneHeaderIffOneRoot(h: Header, c: seq<Word>, list: seq<Subgrid>, p: nat)
    requires Writable(h) && p > 0
    ensures Bytes(ByProcess(list, p), EntryBytes(h, c)) == FileBytes(h, c, ByProcess(list, p))
      <==> |Owned(list, 0, |list|)| == 1
  {
    hide EntryBytes, BlockBytes, HeaderBytes, ByProcess, Owned, Bytes;
    var roots, e, f, head := Owned(list, 0, |list|), EntryBytes(h, c), BlockBytes(c, h.d), HeaderBytes(h);
    var rest := RootsFirst(list, p);
    RootsOwned(list);
    OthersPlain(h, c, rest);
    HeaderLengths(h, c, roots);
    BytesConcat(roots, rest, e);
    BytesConcat(roots, rest, f);
    var written, layout := Bytes(roots, e) + Bytes(rest, f), head + (Bytes(roots, f) + Bytes(rest, f));
    assert |written| == |layout| ==> |roots| == 1;
    if |roots| == 1 {
      OneRoot(h, c, roots);
      assert written == layout;
    }
  }

  lemma RootsOwned(list: seq<Subgrid>)
    ensures var roots := Owned(list, 0, |list|); forall i :: 0 <= i < |roots| ==> roots[i].process == 0
  {
    var roots := Owned(list, 0, |list|);
    forall i | 0 <= i < |roots| ensures roots[i].process == 0 {
      OwnedBy(list, 0, |list|, roots[i]);
    }
  }

  /** Two subgrids of process 0 are enough for a second header, in the middle of the file. */
  lemma TwoRootsTwoHeaders(h: Header, c: seq<Word>, s: Subgrid, t: Subgrid)
    requires Writable(h) && s.process == t.process == 0
    ensures Bytes(ByProcess([s, t], 1), EntryBytes(h, c)) != FileBytes(h, c, ByProcess([s, t], 1))
  {
    OneHeaderIffOneRoot(h, c, [s, t], 1);
    hide EntryBytes, BlockBytes, HeaderBytes, FileBytes, Bytes, ByProcess;
    assert Owned([s, t], 0, 1) == [s];
    assert |Owned([s, t], 0, 2)| == 2;
  }

  /** The distribution file starts with 0; line e says how long the file is up to the end of
      its first e blocks. */
  ghost predicate ListsOffsets(dist: seq<nat>, h: Header, c: seq<Word>, ordered: seq<Subgrid>)
    requires Writable(h)
  {
    && |dist| == |ordered| + 1 && dist[0] == 0
    && forall e :: 1 <= e <= |ordered| ==> dist[e] == |FileBytes(h, c, ordered[..e])|
  }

  lemma OffsetsListed(h: Header, c: seq<Word>, list: seq<Subgrid>, p: nat)
    requires Writable(h) && p > 0 && |Owned(list, 0, |list|)| == 1
    ensures ListsOffsets(Offsets(ByProcess(list, p), EntryBytes(h, c)), h, c, ByProcess(list, p))
  {
    var rest := RootsFirst(list, p);
    RootsOwned(list);
    hide *;
    var roots, ordered, enc := Owned(list, 0, |list|), ByProcess(list, p), EntryBytes(h, c);
    OffsetsAt(ordered, enc, 0);
    NoBlocks(ordered, enc);
    forall e | 1 <= e <= |ordered| ensures Offsets(ordered, enc)[e] == |FileBytes(h, c, ordered[..e])| {
      OffsetsAt(ordered, enc, e);
      PrefixLength(h, c, roots, rest, e);
    }
    ListsEach(Offsets(ordered, enc), h, c, ordered);
  }

  lemma NoBlocks(list: seq<Subgrid>, enc: Subgrid -> seq<Byte>)
    ensures |Bytes(list[..0], enc)| == 0
  {
  }

  lemma ListsEach(dist: seq<nat>, h: Header, c: seq<Word>, ordered: seq<Subgrid>)
    requires Writable(h) && |dist| == |ordered| + 1 && dist[0] == 0
    requires forall e :: 1 <= e <= |ordered| ==> dist[e] == |FileBytes(h, c, ordered[..e])|
    ensures ListsOffsets(dist, h, c, ordered)
  {
  }

  lemma PrefixLength(h: Header, c: seq<Word>, roots: seq<Subgrid>, rest: seq<Subgrid>, e: nat)
    requires Writable(h) && |roots| == 1 && roots[0].process == 0 && 1 <= e <= |roots + rest|
    requires forall i :: 0 <= i < |rest| ==> rest[i].process != 0
    ensures |Bytes((roots + rest)[..e], EntryBytes(h, c))| == |FileBytes(h, c, (roots + rest)[..e])|
  {
    hide EntryBytes, BlockBytes, HeaderBytes, Bytes;
    var others := rest[..e - 1];
    assert (roots + rest)[..e] == roots + others;
    OneRoot(h, c, roots);
    OthersPlain(h, c, others);
    BytesConcat(roots, others, EntryBytes(h, c));
    BytesConcat(roots, others, BlockBytes(c, h.d));
  }

  /** How many of the first n subgrids belong to processes below p. */
  function Below(list: seq<Subgrid>, p: int, n: nat): nat
    requires n <= |list|
  {
    if n == 0 then 0 else Below(list, p, n - 1) + if 0 <= list[n - 1].process < p then 1 else 0
  }

  lemma {:induction false} BelowNext(list: seq<Subgrid>, p: nat, n: nat)
    requires n <= |list|
    ensures Below(list, p + 1, n) == Below(list, p, n) + |Owned(list, p, n)|
    ensures Below(list, 0, n) == 0
    ensures (forall i :: 0 <= i < n ==> 0 <= list[i].process < p) ==> Below(list, p, n) == n
  {
    if n > 0 {
      BelowNext(list, p, n - 1);
    }
  }

  lemma {:induction false} ByProcessCount(list: seq<Subgrid>, p: nat)
    ensures |ByProcess(list, p)| == Below(list, p, |list|)
  {
    if p == 0 {
      BelowNext(list, 0, |list|);
    } else {
      ByProcessCount(list, p - 1);
      BelowNext(list, p - 1, |list|);
    }
  }

  /** Every subgrid is written once. */
  lemma AllWritten(list: seq<Subgrid>)
    requires forall i :: 0 <= i < |list| ==> list[i].process >= 0
    ensures |ByProcess(list, NumProcs(list))| == |list|
    ensures forall s :: s in ByProcess(list, NumProcs(list)) <==> s in list
  {
    ByProcessCount(list, NumProcs(list));
    BelowNext(list, NumProcs(list), |list|);
    forall s ensures s in ByProcess(list, NumProcs(list)) <==> s in list {
      ByProcessHas(list, NumProcs(list), s);
    }
  }

  // ----- reading -----

  /** Rows up to (j, k) of the subgrid cover place t. */
  ghost predicate CoversUpTo(d: Dims, s: Subgrid, j: int, k: int, t: int)
    requires d.Bounds(s)
  {
    exists j', k' :: 0 <= j' < s.ny && 0 <= k' < s.nz && (k' < k || (k' == k && j' < j))
                     && d.RowStart(s, j', k') <= t < d.RowStart(s, j', k') + s.nx
  }

  lemma CoversNext(d: Dims, s: Subgrid, j: nat, k: nat, t: int)
    requires d.Bounds(s) && k < s.nz
    ensures j < s.ny ==> (CoversUpTo(d, s, j + 1, k, t) <==>
                          CoversUpTo(d, s, j, k, t) || d.RowStart(s, j, k) <= t < d.RowStart(s, j, k) + s.nx)
    ensures CoversUpTo(d, s, s.ny, k, t) <==> CoversUpTo(d, s, 0, k + 1, t)
    ensures !CoversUpTo(d, s, 0, 0, t)
    ensures CoversUpTo(d, s, 0, s.nz, t) <==> d.Covers(s, t)
  {
    hide Dims.RowStart;
  }

  /** The buffer holds c where the subgrid's rows up to (j, k) are and what it had elsewhere. */
  ghost predicate Landed(d: Dims, s: Subgrid, j: int, k: int, before: seq<Word>, c: seq<Word>, now: seq<Word>)
    requires d.Bounds(s)
  {
    && |before| == |c| == |now|
    && forall t :: 0 <= t < |now| ==> now[t] == if CoversUpTo(d, s, j, k, t) then c[t] else before[t]
  }

  lemma LandedNext(d: Dims, s: Subgrid, j: nat, k: nat, before: seq<Word>, c: seq<Word>, now: seq<Word>)
    requires Fits(d, s) && |c| == d.Volume() && j < s.ny && k < s.nz && Landed(d, s, j, k, before, c, now)
    ensures d.RowStart(s, j, k) + s.nx <= |now|
    ensures Landed(d, s, j + 1, k, before, c, Filled(now, d.RowStart(s, j, k), RowWords(c, d, s, j, k)))
  {
    RowInVolume(d, s, j, k);
    var row := RowWords(c, d, s, j, k);
    var then', at := Filled(now, d.RowStart(s, j, k), row), d.RowStart(s, j, k);
    forall t | 0 <= t < |then'| ensures then'[t] == if CoversUpTo(d, s, j + 1, k, t) then c[t] else before[t] {
      CoversNext(d, s, j, k, t);
      FilledAt(now, at, row, t);
    }
  }

  lemma FilledAt(before: seq<Word>, at: nat, ws: seq<Word>, t: nat)
    requires at + |ws| <= |before| && t < |before|
    ensures |Filled(before, at, ws)| == |before|
    ensures Filled(before, at, ws)[t] == if at <= t < at + |ws| then ws[t - at] else before[t]
  {
  }

  /** Reads row (j, k) of a block into its place. */
  method ReadRow(file: File, v: Databox, x: int, y: int, z: int, nx: int, j: nat, k: nat,
                 ghost c: seq<Word>, ghost s: Subgrid, ghost before: seq<Word>)
    requires v.Valid() && Fits(v.Extent(), s) && |c| == v.Extent().Volume() && j < s.ny && k < s.nz
    requires (x, y, z, nx) == (s.ix, s.iy, s.iz, s.nx)
    requires Ahead(file.data, file.pos, WordsBytes(RowWords(c, v.Extent(), s, j, k)))
    requires Landed(v.Extent(), s, j, k, before, c, v.coeffs[..])
    modifies file`pos, v.coeffs
    ensures file.pos == old(file.pos) + 8 * nx
    ensures Landed(v.Extent(), s, j + 1, k, before, c, v.coeffs[..])
  {
    ghost var d, now := v.Extent(), v.coeffs[..];
    LandedNext(d, s, j, k, before, c, now);
    IndexForm(d, x, y + j, z + k);
    assert d.RowStart(s, j, k) == (z + k) * v.ny * v.nx + (y + j) * v.nx + x;
    hide *;
    var ptr := (z + k) * v.ny * v.nx + (y + j) * v.nx + x;
    file.ReadDoubles(v.coeffs, ptr, nx, RowWords(c, d, s, j, k));
  }

  lemma RowIs(c: seq<Word>, d: Dims, s: Subgrid, j: nat, k: nat)
    requires Fits(d, s) && |c| == d.Volume() && j < s.ny && k < s.nz
    ensures Count(s.ny)[j] == j && RowBytes(c, d, s, k)(j) == WordsBytes(RowWords(c, d, s, j, k))
    ensures |RowBytes(c, d, s, k)(j)| == 8 * s.nx
  {
  }

  /** One row further in a run of encodings. */
  lemma RunFrom(data: seq<Byte>, start: nat, n: nat, enc: nat -> seq<Byte>, j: nat)
    requires Ahead(data, start, Bytes(Count(n), enc)) && j < n
    ensures Ahead(data, start + |Bytes(Count(n)[..j], enc)|, enc(Count(n)[j]))
    ensures |Bytes(Count(n)[..j + 1], enc)| == |Bytes(Count(n)[..j], enc)| + |enc(Count(n)[j])|
  {
    NextOf(data, start, Count(n), enc, j);
    OneMore(Count(n), j, enc);
  }

  /** Reads the rows of slab k of a block into their places. */
  method ReadSlab(file: File, v: Databox, x: int, y: int, z: int, nx: int, ny: int, k: nat,
                  ghost c: seq<Word>, ghost s: Subgrid, ghost before: seq<Word>)
    requires v.Valid() && Fits(v.Extent(), s) && |c| == v.Extent().Volume() && k < s.nz
    requires (x, y, z, nx, ny) == (s.ix, s.iy, s.iz, s.nx, s.ny)
    requires Ahead(file.data, file.pos, SlabBytes(c, v.Extent(), s)(k))
    requires Landed(v.Extent(), s, 0, k, before, c, v.coeffs[..])
    modifies file`pos, v.coeffs
    ensures file.pos == old(file.pos) + |SlabBytes(c, v.Extent(), s)(k)|
    ensures Landed(v.Extent(), s, 0, k + 1, before, c, v.coeffs[..])
  {
    ghost var d, start := v.Extent(), file.pos;
    ghost var rows := RowBytes(c, d, s, k);
    SlabIs(c, d, s, k);
    hide *;
    RowsEnds(s.ny, rows, []);
    for j := 0 to ny
      invariant file.pos == start + |Bytes(Count(s.ny)[..j], rows)|
      invariant Landed(d, s, j, k, before, c, v.coeffs[..])
    {
      ReadNextRow(file, v, x, y, z, nx, j, k, c, s, before, start);
    }
    LandedSlab(d, s, k, before, c, v.coeffs[..]);
  }

  method ReadNextRow(file: File, v: Databox, x: int, y: int, z: int, nx: int, j: nat, k: nat,
                     ghost c: seq<Word>, ghost s: Subgrid, ghost before: seq<Word>, ghost start: nat)
    requires v.Valid() && Fits(v.Extent(), s) && |c| == v.Extent().Volume() && j < s.ny && k < s.nz
    requires (x, y, z, nx) == (s.ix, s.iy, s.iz, s.nx)
    requires Ahead(file.data, start, Bytes(Count(s.ny), RowBytes(c, v.Extent(), s, k)))
    requires file.pos == start + |Bytes(Count(s.ny)[..j], RowBytes(c, v.Extent(), s, k))|
    requires Landed(v.Extent(), s, j, k, before, c, v.coeffs[..])
    modifies file`pos, v.coeffs
    ensures file.pos == start + |Bytes(Count(s.ny)[..j + 1], RowBytes(c, v.Extent(), s, k))|
    ensures Landed(v.Extent(), s, j + 1, k, before, c, v.coeffs[..])
  {
    hide *;
    RunFrom(file.data, start, s.ny, RowBytes(c, v.Extent(), s, k), j);
    RowIs(c, v.Extent(), s, j, k);
    ReadRow(file, v, x, y, z, nx, j, k, c, s, before);
  }

  lemma LandedSlab(d: Dims, s: Subgrid, k: nat, before: seq<Word>, c: seq<Word>, now: seq<Word>)
    requires Fits(d, s) && k < s.nz && Landed(d, s, s.ny, k, before, c, now)
    ensures Landed(d, s, 0, k + 1, before, c, now)
  {
    forall t ensures CoversUpTo(d, s, s.ny, k, t) <==> CoversUpTo(d, s, 0, k + 1, t) {
      CoversNext(d, s, 0, k, t);
    }
    hide CoversUpTo;
  }

  lemma LandedStart(d: Dims, s: Subgrid, before: seq<Word>, c: seq<Word>)
    requires d.Bounds(s) && |before| == |c|
    ensures Landed(d, s, 0, 0, before, c, before)
  {
  }

  /** Reads all the rows of a block. */
  method ReadSlabs(file: File, v: Databox, x: int, y: int, z: int, nx: int, ny: int, nz: int,
                   ghost c: seq<Word>, ghost s: Subgrid)
    requires v.Valid() && Fits(v.Extent(), s) && |c| == v.Extent().Volume()
    requires (x, y, z, nx, ny, nz) == (s.ix, s.iy, s.iz, s.nx, s.ny, s.nz)
    requires Ahead(file.data, file.pos, Bytes(Count(s.nz), SlabBytes(c, v.Extent(), s)))
    modifies file`pos, v.coeffs
    ensures file.pos == old(file.pos) + |Bytes(Count(s.nz), SlabBytes(c, v.Extent(), s))|
    ensures Landed(v.Extent(), s, 0, s.nz, old(v.coeffs[..]), c, v.coeffs[..])
  {
    ghost var d, start, before := v.Extent(), file.pos, v.coeffs[..];
    ghost var slabs := SlabBytes(c, d, s);
    assert |before| == |c|;
    SlabIs(c, d, s, 0);
    LandedStart(d, s, before, c);
    hide *;
    RowsEnds(s.nz, slabs, []);
    for k := 0 to nz
      invariant file.pos == start + |Bytes(Count(s.nz)[..k], slabs)|
      invariant Landed(d, s, 0, k, before, c, v.coeffs[..])
    {
      ReadNextSlab(file, v, x, y, z, nx, ny, k, c, s, before, start);
    }
  }

  method ReadNextSlab(file: File, v: Databox, x: int, y: int, z: int, nx: int, ny: int, k: nat,
                      ghost c: seq<Word>, ghost s: Subgrid, ghost before: seq<Word>, ghost start: nat)
    requires v.Valid() && Fits(v.Extent(), s) && |c| == v.Extent().Volume() && k < s.nz
    requires (x, y, z, nx, ny) == (s.ix, s.iy, s.iz, s.nx, s.ny)
    requires Ahead(file.data, start, Bytes(Count(s.nz), SlabBytes(c, v.Extent(), s)))
    requires file.pos == start + |Bytes(Count(s.nz)[..k], SlabBytes(c, v.Extent(), s))|
    requires Landed(v.Extent(), s, 0, k, before, c, v.coeffs[..])
    modifies file`pos, v.coeffs
    ensures file.pos == start + |Bytes(Count(s.nz)[..k + 1], SlabBytes(c, v.Extent(), s))|
    ensures Landed(v.Extent(), s, 0, k + 1, before, c, v.coeffs[..])
  {
    hide *;
    RunFrom(file.data, start, s.nz, SlabBytes(c, v.Extent(), s), k);
    assert Count(s.nz)[k] == k;
    ReadSlab(file, v, x, y, z, nx, ny, k, c, s, before);
  }

  /** Reads three integers; u, v and w come next. */
  method ReadTriple(file: File, ghost xs: seq<Int32>, ghost start: nat, ghost i: nat) returns (a: Int32, b: Int32, c: Int32)
    requires Ahead(file.data, start, IntsBytes(xs)) && i + 3 <= |xs| && file.pos == start + 4 * i
    modifies file`pos
    ensures (a, b, c) == (xs[i], xs[i + 1], xs[i + 2]) && file.pos == start + 4 * (i + 3)
  {
    NextInt(file.data, start, xs, i);
    NextInt(file.data, start, xs, i + 1);
    NextInt(file.data, start, xs, i + 2);
    hide *;
    a := file.ReadInt(xs[i]);
    b := file.ReadInt(xs[i + 1]);
    c := file.ReadInt(xs[i + 2]);
  }

  lemma BlockParts(data: seq<Byte>, pos: nat, c: seq<Word>, d: Dims, s: Subgrid)
    requires Fits(d, s) && Ahead(data, pos, BlockBytes(c, d)(s))
    ensures s.nz >= 0 && |BlockBytes(c, d)(s)| == 36 + |Bytes(Count(s.nz), SlabBytes(c, d, s))|
    ensures Ahead(data, pos, IntsBytes(SubgridInts(d, s)))
    ensures Ahead(data, pos + 36, Bytes(Count(s.nz), SlabBytes(c, d, s)))
  {
    AheadSplit(data, pos, IntsBytes(SubgridInts(d, s)), Bytes(Count(s.nz), SlabBytes(c, d, s)));
  }

  /** Reads the block of subgrid s into its place. */
  method ReadBlock(file: File, v: Databox, ghost c: seq<Word>, ghost s: Subgrid)
    requires v.Valid() && Fits(v.Extent(), s) && |c| == v.Extent().Volume()
    requires Ahead(file.data, file.pos, BlockBytes(c, v.Extent())(s))
    modifies file`pos, v.coeffs
    ensures file.pos == old(file.pos) + |BlockBytes(c, v.Extent())(s)|
    ensures Landed(v.Extent(), s, 0, s.nz, old(v.coeffs[..]), c, v.coeffs[..])
  {
    ghost var d, start := v.Extent(), file.pos;
    BlockParts(file.data, start, c, d, s);
    ghost var ints := SubgridInts(d, s);
    assert ints == [s.ix, s.iy, s.iz, s.nx, s.ny, s.nz, s.rx, s.ry, s.rz];
    hide *;
    var x, y, z := ReadTriple(file, ints, start, 0);
    var nx, ny, nz := ReadTriple(file, ints, start, 3);
    var rx, ry, rz := ReadTriple(file, ints, start, 6);
    ReadSlabs(file, v, x, y, z, nx, ny, nz, c, s);
  }

  /** Some subgrid among the first m covers place t. */
  ghost predicate CoveredBy(d: Dims, list: seq<Subgrid>, m: int, t: int)
    requires AllFit(d, list)
  {
    exists b :: 0 <= b < m && b < |list| && d.Covers(list[b], t)
  }

  /** The buffer holds c where the first m subgrids are, and the default elsewhere. */
  ghost predicate Restored(d: Dims, list: seq<Subgrid>, m: int, c: seq<Word>, default': Word, now: seq<Word>)
    requires AllFit(d, list)
  {
    && |now| == |c|
    && forall t :: 0 <= t < |now| ==> now[t] == if CoveredBy(d, list, m, t) then c[t] else default'
  }

  lemma RestoredNext(d: Dims, list: seq<Subgrid>, m: nat, c: seq<Word>, default': Word, before: seq<Word>, now: seq<Word>)
    requires AllFit(d, list) && m < |list| && Restored(d, list, m, c, default', before)
    requires Fits(d, list[m]) && Landed(d, list[m], 0, list[m].nz, before, c, now)
    ensures Restored(d, list, m + 1, c, default', now)
  {
    var s := list[m];
    forall t | 0 <= t < |now| ensures now[t] == if CoveredBy(d, list, m + 1, t) then c[t] else default' {
      UpToAll(d, s, t);
    }
    hide Dims.Covers, CoversUpTo;
  }

  lemma UpToAll(d: Dims, s: Subgrid, t: int)
    requires d.Bounds(s)
    ensures CoversUpTo(d, s, 0, s.nz, t) <==> d.Covers(s, t)
  {
    hide Dims.RowStart;
  }

  /** The file has been read from start up to the encoding of xs[m]. */
  ghost predicate AtNext<T>(xs: seq<T>, enc: T -> seq<Byte>, m: int, start: nat, pos: int) {
    0 <= m <= |xs| && pos == start + |Bytes(xs[..m], enc)|
  }

  lemma AtStart<T>(xs: seq<T>, enc: T -> seq<Byte>, start: nat)
    ensures AtNext(xs, enc, 0, start, start)
  {
  }

  lemma AtEnd<T>(xs: seq<T>, enc: T -> seq<Byte>, start: nat, pos: int)
    requires AtNext(xs, enc, |xs|, start, pos)
    ensures pos == start + |Bytes(xs, enc)|
  {
    assert xs[..|xs|] == xs;
  }

  lemma AtStep<T>(data: seq<Byte>, xs: seq<T>, enc: T -> seq<Byte>, m: nat, start: nat, pos: nat)
    requires Ahead(data, start, Bytes(xs, enc)) && m < |xs| && AtNext(xs, enc, m, start, pos)
    ensures Ahead(data, pos, enc(xs[m])) && AtNext(xs, enc, m + 1, start, pos + |enc(xs[m])|)
  {
    NextOf(data, start, xs, enc, m);
    OneMore(xs, m, enc);
  }

  /** Reads n blocks; list are the subgrids whose blocks come next, enc their encoding. */
  method ReadBlocks(file: File, v: Databox, n: int, ghost c: seq<Word>, ghost d: Dims, ghost enc: Subgrid -> seq<Byte>,
                    ghost list: seq<Subgrid>, ghost default': Word)
    requires v.Valid() && d == v.Extent() && enc == BlockBytes(c, d)
    requires AllFit(d, list) && |c| == d.Volume() && n == |list|
    requires Ahead(file.data, file.pos, Bytes(list, enc)) && Restored(d, list, 0, c, default', v.coeffs[..])
    modifies file`pos, v.coeffs
    ensures file.pos == old(file.pos) + |Bytes(list, enc)|
    ensures Restored(d, list, |list|, c, default', v.coeffs[..])
  {
    hide *;
    var nsg := n;
    AtStart(list, enc, file.pos);
    while nsg > 0
      invariant 0 <= nsg <= n
      invariant AtNext(list, enc, n - nsg, old(file.pos), file.pos)
      invariant Restored(d, list, n - nsg, c, default', v.coeffs[..])
    {
      nsg := nsg - 1;
      ReadNext(file, v, c, d, enc, list, default', n - nsg - 1, old(file.pos));
    }
    AtEnd(list, enc, old(file.pos), file.pos);
  }

  /** Reads block m. */
  method ReadNext(file: File, v: Databox, ghost c: seq<Word>, ghost d: Dims, ghost enc: Subgrid -> seq<Byte>,
                  ghost list: seq<Subgrid>, ghost default': Word, ghost m: nat, ghost start: nat)
    requires v.Valid() && d == v.Extent() && enc == BlockBytes(c, d)
    requires AllFit(d, list) && |c| == d.Volume() && m < |list|
    requires Ahead(file.data, start, Bytes(list, enc)) && AtNext(list, enc, m, start, file.pos)
    requires Restored(d, list, m, c, default', v.coeffs[..])
    modifies file`pos, v.coeffs
    ensures AtNext(list, enc, m + 1, start, file.pos)
    ensures Restored(d, list, m + 1, c, default', v.coeffs[..])
  {
    ghost var before, s := v.coeffs[..], list[m];
    assert Fits(d, s);
    hide *;
    AtStep(file.data, list, enc, m, start, file.pos);
    ReadBlock(file, v, c, s);
    RestoredNext(d, list, m, c, default', before, v.coeffs[..]);
  }

  /** Reads three doubles; u, v and w come next. */
  method ReadVector(file: File, ghost ws: seq<Word>) returns (a: Word, b: Word, c: Word)
    requires |ws| == 3 && Ahead(file.data, file.pos, WordsBytes(ws))
    modifies file`pos
    ensures (a, b, c) == (ws[0], ws[1], ws[2]) && file.pos == old(file.pos) + 24
  {
    NextWord(file.data, file.pos, ws, 0);
    NextWord(file.data, file.pos, ws, 1);
    NextWord(file.data, file.pos, ws, 2);
    hide *;
    a := file.ReadDouble(ws[0]);
    b := file.ReadDouble(ws[1]);
    c := file.ReadDouble(ws[2]);
  }

  lemma HeaderParts(data: seq<Byte>, pos: nat, h: Header, rest: seq<Byte>)
    requires Writable(h) && Ahead(data, pos, HeaderBytes(h) + rest)
    ensures Ahead(data, pos, WordsBytes([h.bg.x, h.bg.y, h.bg.z]))
    ensures Ahead(data, pos + 24, IntsBytes([h.d.nx, h.d.ny, h.d.nz]))
    ensures Ahead(data, pos + 36, WordsBytes([h.bg.dx, h.bg.dy, h.bg.dz]))
    ensures Ahead(data, pos + 60, IntsBytes([h.n]))
    ensures Ahead(data, pos + 64, rest)
  {
    var a, b := WordsBytes([h.bg.x, h.bg.y, h.bg.z]), IntsBytes([h.d.nx, h.d.ny, h.d.nz]);
    var c, d := WordsBytes([h.bg.dx, h.bg.dy, h.bg.dz]), IntsBytes([h.n]);
    assert HeaderBytes(h) == a + (b + (c + d));
    hide *;
    AheadSplit(data, pos, HeaderBytes(h), rest);
    AheadSplit(data, pos, a, b + (c + d));
    AheadSplit(data, pos + 24, b, c + d);
    AheadSplit(data, pos + 36, c, d);
  }

  /** Reads the header. */
  method ReadHeader(file: File, ghost h: Header, ghost rest: seq<Byte>) returns (bg: Background, nx: int, ny: int, nz: int, n: int)
    requires Writable(h) && Ahead(file.data, file.pos, HeaderBytes(h) + rest)
    modifies file`pos
    ensures (bg, nx, ny, nz, n) == (h.bg, h.d.nx, h.d.ny, h.d.nz, h.n)
    ensures file.pos == old(file.pos) + 64 && Ahead(file.data, file.pos, rest)
  {
    HeaderParts(file.data, file.pos, h, rest);
    NextInt(file.data, file.pos + 60, [h.n], 0);
    hide HeaderBytes, Ahead, WordsBytes, IntsBytes, IntBytes;
    var x, y, z := ReadVector(file, [h.bg.x, h.bg.y, h.bg.z]);
    nx, ny, nz := ReadTriple(file, [h.d.nx, h.d.ny, h.d.nz], file.pos, 0);
    var dx, dy, dz := ReadVector(file, [h.bg.dx, h.bg.dy, h.bg.dz]);
    n := file.ReadInt(h.n);
    bg := Background(x, y, z, dx, dy, dz);
  }

  /** ReadParflowB on a file laid out as a parflow file: the blocks of the subgrids listed,
      taken from the buffer c, after a header that counts them. */
  method ReadParflowB(file: File, defaultValue: Word, ghost h: Header, ghost c: seq<Word>, ghost list: seq<Subgrid>)
    returns (v: Databox)
    requires Writable(h) && AllFit(h.d, list) && |c| == h.d.Volume() && h.n == |list|
    requires file.pos == 0 && file.data == FileBytes(h, c, list)
    modifies file`pos
    ensures fresh(v) && v.Valid() && v.Extent() == h.d && Background(v.x, v.y, v.z, v.dx, v.dy, v.dz) == h.bg
    ensures file.pos == |file.data|
    ensures Restored(h.d, list, |list|, c, defaultValue, v.coeffs[..])
  {
    ghost var rest := Bytes(list, BlockBytes(c, h.d));
    assert file.data[0..|file.data|] == file.data;
    var bg, nx, ny, nz, n := ReadHeader(file, h, rest);
    v := new Databox(nx, ny, nz, bg.x, bg.y, bg.z, bg.dx, bg.dy, bg.dz, defaultValue);
    assert v.Extent() == h.d;
    NothingRestored(h.d, list, c, defaultValue, v.coeffs[..]);
    ReadBlocks(file, v, n, c, h.d, BlockBytes(c, h.d), list, defaultValue);
  }

  lemma NothingRestored(d: Dims, list: seq<Subgrid>, c: seq<Word>, default': Word, now: seq<Word>)
    requires AllFit(d, list) && |now| == |c| && forall t :: 0 <= t < |now| ==> now[t] == default'
    ensures Restored(d, list, 0, c, default', now)
  {
  }
}
