/** The life of a parflow file: written over any subgrids and read back, and written over
    the boxes that the user's grid is distributed into. */
module Redistribute {
  import opened Subgrids
  import opened BinaryIo
  import opened Databoxes
  import opened Pfb
  import opened PfbRead
  import opened PfbLayout
  import opened UserGrid

  ghost predicate InSome(list: seq<Subgrid>, i: int, j: int, k: int) {
    exists b :: 0 <= b < |list| && list[b].Contains(i, j, k)
  }

  /** The subgrids can be written so that the file can be read: process 0 owns one of them,
      and there are as many of them as there are processes counted. */
  ghost predicate Loadable(list: seq<Subgrid>) {
    && (forall b :: 0 <= b < |list| ==> list[b].process >= 0)
    && |Owned(list, 0, |list|)| == 1 && NumProcs(list) == |list|
  }

  /** What is written can be read: it is one header followed by as many blocks as the header says. */
  ghost predicate Readable(bg: Background, d: Dims, c: seq<Word>, list: seq<Subgrid>)
    requires Writable(HeaderOf(bg, d, list))
  {
    var h, ordered := HeaderOf(bg, d, list), ByProcess(list, NumProcs(list));
    Bytes(ordered, EntryBytes(h, c)) == FileBytes(h, c, ordered) && h.n == |ordered|
  }

  /** It can, if and only if the subgrids are loadable. */
  lemma ReadableIffLoadable(bg: Background, d: Dims, c: seq<Word>, list: seq<Subgrid>)
    requires Writable(HeaderOf(bg, d, list)) && list != [] && forall b :: 0 <= b < |list| ==> list[b].process >= 0
    ensures Readable(bg, d, c, list) <==> Loadable(list)
    ensures HeaderOf(bg, d, list).n == |ByProcess(list, NumProcs(list))| <==> NumProcs(list) == |list|
  {
    assert list[0].process < NumProcs(list);
    AllWritten(list);
    OneHeaderIffOneRoot(HeaderOf(bg, d, list), c, list, NumProcs(list));
    hide NumProcs, ByProcess, Owned, EntryBytes, Bytes, FileBytes, Writable;
  }

  /** A gap in the process numbers makes the header count a block too many, a process with two
      subgrids one too few. */
  lemma ProcessesMiscounted(bg: Background, d: Dims, c: seq<Word>, s: Subgrid, t: Subgrid, u: Subgrid)
    requires IsInt(d.nx) && IsInt(d.ny) && IsInt(d.nz) && s.process == 0 && t.process == u.process
    ensures t.process == 2 ==> HeaderOf(bg, d, [s, t]).n == 3 && |ByProcess([s, t], 3)| == 2 && !Readable(bg, d, c, [s, t])
    ensures t.process == 1 ==>
      HeaderOf(bg, d, [s, t, u]).n == 2 && |ByProcess([s, t, u], 2)| == 3 && !Readable(bg, d, c, [s, t, u])
  {
    var two, three := [s, t], [s, t, u];
    assert NumProcs([s]) == 1 by {
      assert [s][..0] == [];
    }
    assert two[..1] == [s] && three[..2] == two;
    hide Readable, ByProcess;
    if t.process == 2 {
      AllWritten(two);
      ReadableIffLoadable(bg, d, c, two);
    } else if t.process == 1 {
      AllWritten(three);
      ReadableIffLoadable(bg, d, c, three);
    }
  }

  /** A read buffer agrees with the written one on the cells of the subgrids. */
  lemma RestoredCell(d: Dims, list: seq<Subgrid>, c: seq<Word>, default': Word, now: seq<Word>, i: nat, j: nat, k: nat)
    requires AllFit(d, list) && Restored(d, list, |list|, c, default', now) && |c| == d.Volume() && d.Has(i, j, k)
    ensures d.Index(i, j, k) < |now| == |c|
    ensures now[d.Index(i, j, k)] == if InSome(list, i, j, k) then c[d.Index(i, j, k)] else default'
  {
    IndexInVolume(d, i, j, k);
    forall b | 0 <= b < |list| ensures d.Covers(list[b], d.Index(i, j, k)) <==> list[b].Contains(i, j, k) {
      CoversItsCells(d, list[b], i, j, k);
    }
    hide Dims.Covers, Dims.Index;
  }

  lemma SameMembers(list: seq<Subgrid>, other: seq<Subgrid>, i: int, j: int, k: int)
    requires forall s :: s in list <==> s in other
    ensures InSome(list, i, j, k) <==> InSome(other, i, j, k)
  {
    if InSome(list, i, j, k) {
      var b :| 0 <= b < |list| && list[b].Contains(i, j, k);
      assert list[b] in other;
    }
    if InSome(other, i, j, k) {
      var b :| 0 <= b < |other| && other[b].Contains(i, j, k);
      assert other[b] in list;
    }
  }

  lemma OrderedFits(d: Dims, list: seq<Subgrid>)
    requires AllFit(d, list) && forall s :: s in ByProcess(list, NumProcs(list)) <==> s in list
    ensures AllFit(d, ByProcess(list, NumProcs(list)))
  {
    var ordered := ByProcess(list, NumProcs(list));
    hide Fits, ByProcess;
    forall i | 0 <= i < |ordered| ensures Fits(d, ordered[i]) {
      assert ordered[i] in list;
    }
  }

  /** Process by process, from 0 on. */
  predicate Ascending(list: seq<Subgrid>) {
    forall a, b :: 0 <= a < b < |list| ==> list[a].process <= list[b].process
  }

  lemma {:induction false} ProcessesAscend(list: seq<Subgrid>, p: nat)
    ensures Ascending(ByProcess(list, p))
  {
    if p > 0 {
      ProcessesAscend(list, p - 1);
      forall s ensures s in ByProcess(list, p - 1) ==> s.process < p - 1 {
        ByProcessHas(list, p - 1, s);
      }
      forall s ensures s in Owned(list, p - 1, |list|) ==> s.process == p - 1 {
        OwnedBy(list, p - 1, |list|, s);
      }
    }
  }

  lemma LoadableSome(list: seq<Subgrid>)
    requires Loadable(list)
    ensures list != []
  {
  }

  /** The file of the values c over a list of subgrids, and its distribution file: the header counts
      the subgrids, and their blocks are there, process by process. */
  ghost predicate Filed(bytes: seq<Byte>, dist: seq<nat>, bg: Background, d: Dims, c: seq<Word>, list: seq<Subgrid>) {
    var h, ordered := HeaderOf(bg, d, list), ByProcess(list, NumProcs(list));
    && Writable(h) && h == Header(bg, d, |list|)
    && |ordered| == |list| && (forall s :: s in ordered <==> s in list) && Ascending(ordered)
    && bytes == FileBytes(h, c, ordered) && ListsOffsets(dist, h, c, ordered)
    && AllFit(d, ordered) && |c| == d.Volume() && Indexed(bytes, dist, h, c, ordered)
  }

  lemma FileOf(bg: Background, d: Dims, c: seq<Word>, list: seq<Subgrid>)
    requires Writable(HeaderOf(bg, d, list)) && AllFit(d, list) && |c| == d.Volume() && Loadable(list)
    ensures var h, ordered := HeaderOf(bg, d, list), ByProcess(list, NumProcs(list));
            var bytes, dist := FileBytes(h, c, ordered), Offsets(ordered, EntryBytes(h, c));
            && Bytes(ordered, EntryBytes(h, c)) == bytes && h.d == d && h.n == |ordered| && AllFit(d, ordered)
            && Filed(bytes, dist, bg, d, c, list) && (forall s :: s in ordered <==> s in list)
  {
    var h, ordered := HeaderOf(bg, d, list), ByProcess(list, NumProcs(list));
    AllWritten(list);
    OneHeaderIffOneRoot(h, c, list, NumProcs(list));
    OffsetsListed(h, c, list, NumProcs(list));
    OrderedFits(d, list);
    ProcessesAscend(list, NumProcs(list));
    LoadableSome(list);
    assert h == Header(bg, d, |list|) && |ordered| == |list|;
    assert Bytes(ordered, EntryBytes(h, c)) == FileBytes(h, c, ordered);
    hide *;
    IsFiled(bg, d, c, list, Offsets(ordered, EntryBytes(h, c)));
  }

  lemma IsFiled(bg: Background, d: Dims, c: seq<Word>, list: seq<Subgrid>, dist: seq<nat>)
    requires |c| == d.Volume() && list != [] && HeaderOf(bg, d, list) == Header(bg, d, |list|) && Writable(HeaderOf(bg, d, list))
    requires var ordered := ByProcess(list, NumProcs(list));
             && |ordered| == |list| && (forall s :: s in ordered <==> s in list) && Ascending(ordered)
             && AllFit(d, ordered) && ListsOffsets(dist, HeaderOf(bg, d, list), c, ordered)
    ensures Filed(FileBytes(HeaderOf(bg, d, list), c, ByProcess(list, NumProcs(list))), dist, bg, d, c, list)
  {
    var ordered := ByProcess(list, NumProcs(list));
    hide FileBytes, ListsOffsets, ByProcess, NumProcs, Ascending, AllFit, Indexed, Writable, HeaderOf;
    FileIndexed(Header(bg, d, |list|), c, ordered, dist);
  }

  /** Writing a databox over loadable subgrids and reading the file restores every cell
      they contain, gives the rest the default value, and carries the background over; the
      blocks come in the order of their processes, and the distribution file lists where
      each ends. */
  method WriteThenRead(list: seq<Subgrid>, bg: Background, box: Databox, default': Word)
    returns (v: Databox, dist: seq<nat>, ghost bytes: seq<Byte>)
    requires box.Valid() && AllFit(box.Extent(), list) && Writable(HeaderOf(bg, box.Extent(), list)) && Loadable(list)
    ensures fresh(v) && v.Valid() && v.Extent() == box.Extent()
    ensures Background(v.x, v.y, v.z, v.dx, v.dy, v.dz) == bg
    ensures forall i, j, k | v.Extent().Has(i, j, k) ::
              v.At(i, j, k) == if InSome(list, i, j, k) then box.At(i, j, k) else default'
    ensures Filed(bytes, dist, bg, box.Extent(), box.coeffs[..], list)
  {
    ghost var d, c, ordered := box.Extent(), box.coeffs[..], ByProcess(list, NumProcs(list));
    ghost var h := HeaderOf(bg, d, list);
    var file;
    file, dist := LoadParflowB(list, bg, box);
    bytes := file.data;
    FileOf(bg, d, c, list);
    assert h.d == d;
    hide *;
    v := ReadParflowB(file, default', h, c, ordered);
    forall i, j, k | v.Extent().Has(i, j, k)
      ensures v.At(i, j, k) == if InSome(list, i, j, k) then box.At(i, j, k) else default'
    {
      RestoredCell(d, ordered, c, default', v.coeffs[..], i, j, k);
      SameMembers(ordered, list, i, j, k);
      CellAt(v, i, j, k);
      CellAt(box, i, j, k);
    }
  }

  lemma CellAt(v: Databox, i: nat, j: nat, k: nat)
    requires v.Valid() && v.Extent().Has(i, j, k)
    ensures v.Extent().Index(i, j, k) < |v.coeffs[..]|
    ensures v.At(i, j, k) == v.coeffs[..][v.Extent().Index(i, j, k)]
  {
    IndexInVolume(v.Extent(), i, j, k);
  }

  // ----- the boxes of a distribution -----

  /** The user's grid lies within the databox. */
  predicate Within(user: Subgrid, d: Dims) {
    d.Bounds(user) && IsInt(d.nx) && IsInt(d.ny) && IsInt(d.nz)
  }

  lemma BoxesFit(user: Subgrid, c: Choice, d: Dims)
    requires Within(user, d) && LayoutOf(user, c).Valid()
    ensures AllFit(d, LayoutOf(user, c).All())
  {
    var l := LayoutOf(user, c);
    hide Start, Size, Layout.All;
    forall s | 0 <= s < |l.All()| ensures Fits(d, l.All()[s]) {
      var p, q, r := BoxAtPlace(l, s);
      BlockInside(p, l.P, l.nx, l.x);
      BlockInside(q, l.Q, l.ny, l.y);
      BlockInside(r, l.R, l.nz, l.z);
    }
  }

  lemma {:induction false} OwnedOnce(list: seq<Subgrid>, p: int, n: nat, s: nat)
    requires n <= |list| && s < |list| && list[s].process == p
    requires forall t :: 0 <= t < |list| && list[t].process == p ==> t == s
    ensures |Owned(list, p, n)| == if s < n then 1 else 0
  {
    if n > 0 {
      OwnedOnce(list, p, n - 1, s);
    }
  }

  lemma {:induction false} NumProcsReached(list: seq<Subgrid>, s: nat, n: nat)
    requires s < |list| && list[s].process == n - 1 && n > 0
    requires forall t :: 0 <= t < |list| ==> list[t].process < n
    ensures NumProcs(list) == n
  {
    var m := |list| - 1;
    if s < m {
      NumProcsReached(list[..m], s, n);
    } else {
      NumProcsAtMost(list[..m], n);
    }
  }

  lemma {:induction false} NumProcsAtMost(list: seq<Subgrid>, n: nat)
    requires forall t :: 0 <= t < |list| ==> list[t].process < n
    ensures NumProcs(list) <= n
  {
    if list != [] {
      NumProcsAtMost(list[..|list| - 1], n);
    }
  }

  /** The boxes of a distribution can be written and read. */
  lemma DistributedIsLoadable(l: Layout)
    requires l.Valid()
    ensures Loadable(l.All())
  {
    hide Layout.All, Layout.Box, Owned, NumProcs;
    var list := l.All();
    BoxCount(l);
    forall s | 0 <= s < |list| ensures 0 <= list[s].process < |list| {
      ProcessInRange(l, s);
    }
    PositiveProduct(l);
    var s := BoxOfProcess(l, 0);
    forall t | 0 <= t < |list| && list[t].process == 0 ensures t == s {
      ProcessOnce(l, t, s);
    }
    OwnedOnce(list, 0, |list|, s);
    var last := BoxOfProcess(l, |list| - 1);
    NumProcsReached(list, last, |list|);
  }

  lemma PositiveProduct(l: Layout)
    requires l.Valid()
    ensures (l.R * l.Q) * l.P > 0
  {
    assert l.R * l.Q > 0;
  }

  /** The number of boxes is the number of processes. */
  lemma BoxesForProcesses(user: Subgrid, c: Choice)
    requires user.nx >= 0 && user.ny >= 0 && user.nz >= 0 && LayoutOf(user, c).Valid()
    ensures |LayoutOf(user, c).All()| == NumProcs(LayoutOf(user, c).All()) == Product(c.P, c.Q, c.R)
  {
    hide Layout.All, NumProcs, Owned, Product;
    BoxCount(LayoutOf(user, c));
    DistributedIsLoadable(LayoutOf(user, c));
    ProductTurned(c.P, c.Q, c.R);
  }

  lemma ProductTurned(a: nat, b: nat, c: nat)
    ensures (c * b) * a == Product(a, b, c)
  {
    assert (c * b) * a == a * (b * c);
  }

  /** What is read back is the databox on the user's grid and the default value elsewhere. */
  ghost predicate RestoredOn(user: Subgrid, box: Databox, default': Word, v: Databox)
    requires box.Valid()
    reads box, box.coeffs, v, v.coeffs
  {
    && v.Valid() && v.Extent() == box.Extent()
    && forall i, j, k | v.Extent().Has(i, j, k) ::
         v.At(i, j, k) == if user.Contains(i, j, k) then box.At(i, j, k) else default'
  }

  lemma FiledOffsets(bytes: seq<Byte>, dist: seq<nat>, bg: Background, d: Dims, c: seq<Word>, list: seq<Subgrid>)
    requires Filed(bytes, dist, bg, d, c, list)
    ensures Writable(HeaderOf(bg, d, list)) && ListsOffsets(dist, HeaderOf(bg, d, list), c, ByProcess(list, NumProcs(list)))
  {
    hide ByProcess, NumProcs, ListsOffsets, Writable;
  }

  /** The distribution file lists where the blocks of the boxes end. */
  ghost predicate ListsBoxes(dist: seq<nat>, bg: Background, d: Dims, c: seq<Word>, boxes: seq<Subgrid>, numProcs: nat) {
    && |boxes| == numProcs && Writable(HeaderOf(bg, d, boxes))
    && ListsOffsets(dist, HeaderOf(bg, d, boxes), c, ByProcess(boxes, numProcs))
  }

  /** Writes the databox over the boxes of the process grid c, and reads it back. */
  method LoadBoxes(user: Subgrid, list: seq<Subgrid>, bg: Background, box: Databox, default': Word, ghost c: Choice)
    returns (v: Databox, dist: seq<nat>, ghost bytes: seq<Byte>)
    requires box.Valid() && Within(user, box.Extent()) && LayoutOf(user, c).Valid()
    requires list == LayoutOf(user, c).All() && IsInt(Product(c.P, c.Q, c.R))
    ensures fresh(v) && RestoredOn(user, box, default', v) && Background(v.x, v.y, v.z, v.dx, v.dy, v.dz) == bg
    ensures ListsBoxes(dist, bg, box.Extent(), box.coeffs[..], list, Product(c.P, c.Q, c.R))
    ensures Filed(bytes, dist, bg, box.Extent(), box.coeffs[..], list)
  {
    BoxesFit(user, c, box.Extent());
    DistributedIsLoadable(LayoutOf(user, c));
    BoxesForProcesses(user, c);
    assert Writable(HeaderOf(bg, box.Extent(), list));
    assert forall i, j, k :: InSome(list, i, j, k) <==> user.Contains(i, j, k) by {
      OnUsersGrid(user, c);
    }
    hide Layout.All, Product, Loadable, ListsOffsets, NumProcs, ByProcess, Fits, FileBytes, Filed, Writable, InSome,
         Subgrid.Contains, RestoredOn;
    v, dist, bytes := WriteThenRead(list, bg, box, default');
    FiledOffsets(bytes, dist, bg, box.Extent(), box.coeffs[..], list);
    IsRestored(user, box, default', v, list);
  }

  lemma OnUsersGrid(user: Subgrid, c: Choice)
    requires user.nx >= 0 && user.ny >= 0 && user.nz >= 0 && LayoutOf(user, c).Valid()
    ensures forall i, j, k :: InSome(LayoutOf(user, c).All(), i, j, k) <==> user.Contains(i, j, k)
  {
    forall i, j, k ensures InSome(LayoutOf(user, c).All(), i, j, k) <==> user.Contains(i, j, k) {
      CellInOneBox(LayoutOf(user, c), i, j, k);
    }
  }

  lemma IsRestored(user: Subgrid, box: Databox, default': Word, v: Databox, list: seq<Subgrid>)
    requires box.Valid() && v.Valid() && v.Extent() == box.Extent()
    requires forall i, j, k | v.Extent().Has(i, j, k) ::
               v.At(i, j, k) == if InSome(list, i, j, k) then box.At(i, j, k) else default'
    requires forall i, j, k :: InSome(list, i, j, k) <==> user.Contains(i, j, k)
    ensures RestoredOn(user, box, default', v)
  {
    hide InSome, Subgrid.Contains;
  }

  /** pfdist: the user's grid is distributed and the databox written over its boxes; what is
      read back is the databox on the user's grid.  It gives up just when the process grid does
      not have numProcs processes, which one asked for and multiplied out does have. */
  method Redistribute(user: Subgrid, numProcs: nat, asked: Choice, m0: nat, bg: Background, box: Databox, default': Word)
    returns (v: Databox?, dist: seq<nat>, ghost c: Choice, ghost bytes: seq<Byte>)
    requires box.Valid() && Within(user, box.Extent()) && numProcs > 0 && IsInt(numProcs)
    requires asked.P == 0 || asked.Q == 0 || asked.R == 0 ==> user.nx > 0 && user.ny > 0 && user.nz > 0 && m0 > 0
    ensures Chosen(user.nx, user.ny, user.nz, numProcs, asked, m0, c)
    ensures v == null <==> Product(c.P, c.Q, c.R) != numProcs
    ensures numProcs == Product(asked.P, asked.Q, asked.R) ==> v != null
    ensures v != null ==> fresh(v) && RestoredOn(user, box, default', v)
                          && Background(v.x, v.y, v.z, v.dx, v.dy, v.dz) == bg
    ensures v != null ==> LayoutOf(user, c).Valid()
                          && ListsBoxes(dist, bg, box.Extent(), box.coeffs[..], LayoutOf(user, c).All(), numProcs)
                          && Filed(bytes, dist, bg, box.Extent(), box.coeffs[..], LayoutOf(user, c).All())
                          && AreBoxes(user, c, LayoutOf(user, c).All())
  {
    hide Layout.All, ListsBoxes, RestoredOn, Filed, AreBoxes;
    v, dist, bytes := null, [], [];
    var all;
    all, c := DistributeUserGrid(user, numProcs, asked, m0);
    if all != null {
      var list := if all.subregions == null then [] else all.subregions[..all.size];
      v, dist, bytes := LoadBoxes(user, list, bg, box, default', c);
    }
  }
}
