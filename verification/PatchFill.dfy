/** solidtools.c, MakePatchySolid: filling in the face table.  Every face goes to the next
    free row of the interval of its patch. */
module PatchFill {
  import opened PatchTable
  import opened PatchSlots

  /** A row of the face table: the corners of two triangles, the value of the patch and the
      way the face looks. */
  datatype Row = Row(p0: int, p1: int, p2: int, p3: int, p4: int, p5: int, value: int, dir: int)

  const BLANK := Row(-1111, -1111, -1111, -1111, -1111, -1111, -1111, -1111)

  /** The face of a cell with the given eight corners: 0 to 3 at the bottom, 4 to 7 above
      them, x varying fastest. */
  function FaceRow(p: seq<int>, value: int, dir: nat): Row
    requires |p| == 8 && dir < 6
  {
    if dir == BOTTOM then Row(p[1], p[0], p[2], p[2], p[3], p[1], value, dir)
    else if dir == TOP then Row(p[6], p[4], p[5], p[5], p[7], p[6], value, dir)
    else if dir == WEST then Row(p[6], p[2], p[0], p[0], p[4], p[6], value, dir)
    else if dir == EAST then Row(p[1], p[3], p[7], p[7], p[5], p[1], value, dir)
    else if dir == SOUTH then Row(p[4], p[0], p[1], p[1], p[5], p[4], value, dir)
    else Row(p[3], p[2], p[6], p[6], p[7], p[3], value, dir)
  }

  /** Every face looks one of the six ways. */
  ghost predicate AllFace(ks: seq<Key>) {
    forall t :: 0 <= t < |ks| ==> ks[t].dir < 6
  }

  /** The faces with the given keys of a cell with the given corners. */
  function FaceRows(p: seq<int>, ks: seq<Key>): (r: seq<Row>)
    requires |p| == 8 && AllFace(ks)
    ensures |r| == |ks|
  {
    seq(|ks|, t requires 0 <= t < |ks| => FaceRow(p, ks[t].value, ks[t].dir))
  }

  /** The key of a row; there is no direction 6. */
  function KeyOf(r: Row): Key {
    Key(r.value, if r.dir >= 0 then r.dir else 6)
  }

  function KeysOf(rs: seq<Row>): (ks: seq<Key>)
    ensures |ks| == |rs|
  {
    seq(|rs|, t requires 0 <= t < |rs| => KeyOf(rs[t]))
  }

  lemma KeysOfLast(rs: seq<Row>, r: Row)
    ensures KeysOf(rs + [r]) == KeysOf(rs) + [KeyOf(r)]
  {
  }

  /** The rows of patch v, in order. */
  function Select(rs: seq<Row>, v: int): seq<Row> {
    if rs == [] then [] else Select(rs[..|rs| - 1], v) + if rs[|rs| - 1].value == v then [rs[|rs| - 1]] else []
  }

  lemma SelectLast(rs: seq<Row>, r: Row, v: int)
    ensures Select(rs + [r], v) == Select(rs, v) + if r.value == v then [r] else []
  {
    assert (rs + [r])[..|rs|] == rs;
  }

  lemma {:induction false} SelectSize(rs: seq<Row>, v: int)
    ensures |Select(rs, v)| == Tally(KeysOf(rs), v)
  {
    if rs != [] {
      var n := |rs| - 1;
      SelectSize(rs[..n], v);
      KeysOfLast(rs[..n], rs[n]);
      assert rs == rs[..n] + [rs[n]];
      TallyLast(KeysOf(rs[..n]), KeyOf(rs[n]), v);
    }
  }

  lemma {:induction false} TallyPrefix(ks: seq<Key>, tot: seq<Key>, v: int)
    requires ks <= tot
    ensures Tally(ks, v) <= Tally(tot, v)
  {
    if |ks| < |tot| {
      TallyPrefix(ks, tot[..|tot| - 1], v);
    } else {
      assert ks == tot;
    }
  }

  /** The interval of patch q holds the rows of that patch among rs and is blank after them;
      the counters of the patch say how many they are, and how many look each way. */
  ghost predicate SlotFilled(tot: seq<Key>, values: seq<int>, q: nat, p: PatchInfo, patch: seq<Row>, rs: seq<Row>)
    requires q < |values|
  {
    && Slotted(tot, values, q, p)
    && p.pWrite == |Select(rs, values[q])| - 1
    && |p.faces| == 6 && (forall d :: 0 <= d < 6 ==> p.faces[d] == TallyDir(KeysOf(rs), values[q], d))
    && |Select(rs, values[q])| <= Tally(tot, values[q])
    && Base(tot, values, q) + Tally(tot, values[q]) <= |patch|
    && (forall t :: 0 <= t < Tally(tot, values[q]) ==>
          HasRow(patch, Base(tot, values, q), Select(rs, values[q]), t))
  }

  /** Place t of the interval holds row t of the list, or nothing if the list is shorter. */
  predicate HasRow(patch: seq<Row>, base: nat, rows: seq<Row>, t: int) {
    0 <= t < |patch| - base && patch[base + t] == if t < |rows| then rows[t] else BLANK
  }

  ghost predicate Filled(tot: seq<Key>, values: seq<int>, all: seq<PatchInfo>, patch: seq<Row>, rs: seq<Row>) {
    && |all| == |values| && Distinct(values, |values|) && |patch| == Base(tot, values, |values|)
    && forall q :: 0 <= q < |values| ==> SlotFilled(tot, values, q, all[q], patch, rs)
  }

  /** What adding a row does to its patch. */
  function Counted(p: PatchInfo, dir: nat): PatchInfo
    requires dir < |p.faces|
  {
    p.(pWrite := p.pWrite + 1, faces := p.faces[dir := p.faces[dir] + 1])
  }

  /** The slot of the row's own patch. */
  lemma OwnSlot(tot: seq<Key>, values: seq<int>, q: nat, p: PatchInfo, patch: seq<Row>, rs: seq<Row>, r: Row)
    requires q < |values| && SlotFilled(tot, values, q, p, patch, rs) && values[q] == r.value && 0 <= r.dir < 6
    requires KeysOf(rs) + [KeyOf(r)] <= tot
    ensures var n := p.startIdx + p.pWrite + 1;
            && 0 <= n < |patch| && n == Base(tot, values, q) + |Select(rs, values[q])|
            && |Select(rs, values[q])| < Tally(tot, values[q])
            && SlotFilled(tot, values, q, Counted(p, r.dir), patch[n := r], rs + [r])
  {
    hide Base;
    KeysOfLast(rs, r);
    TallyLast(KeysOf(rs), KeyOf(r), r.value);
    SelectSize(rs, r.value);
    SelectLast(rs, r, r.value);
    TallyPrefix(KeysOf(rs) + [KeyOf(r)], tot, r.value);
    hide Tally, TallyDir, Select;
    var base, rows, n := Base(tot, values, q), Select(rs, r.value), p.startIdx + p.pWrite + 1;
    var patch', rows' := patch[n := r], rows + [r];
    forall t | 0 <= t < Tally(tot, r.value) ensures HasRow(patch', base, rows', t) {
      assert HasRow(patch, base, rows, t);
    }
  }

  /** The slot of another patch. */
  lemma OtherSlot(tot: seq<Key>, values: seq<int>, q: nat, p: PatchInfo, patch: seq<Row>, rs: seq<Row>, r: Row, n: nat)
    requires q < |values| && SlotFilled(tot, values, q, p, patch, rs) && values[q] != r.value && n < |patch|
    requires n < Base(tot, values, q) || n >= Base(tot, values, q) + Tally(tot, values[q])
    ensures SlotFilled(tot, values, q, p, patch[n := r], rs + [r])
  {
    hide Base;
    KeysOfLast(rs, r);
    TallyLast(KeysOf(rs), KeyOf(r), values[q]);
    SelectLast(rs, r, values[q]);
    hide Tally, TallyDir, Select;
    var base, rows := Base(tot, values, q), Select(rs, values[q]);
    assert Select(rs + [r], values[q]) == rows;
    var patch' := patch[n := r];
    forall t | 0 <= t < Tally(tot, values[q]) ensures HasRow(patch', base, rows, t) {
      assert HasRow(patch, base, rows, t);
    }
  }

  /** Storing a row in the next free place of its patch's interval. */
  lemma FilledNext(tot: seq<Key>, values: seq<int>, all: seq<PatchInfo>, patch: seq<Row>, rs: seq<Row>, q: nat, r: Row)
    requires Filled(tot, values, all, patch, rs) && q < |values| && values[q] == r.value && 0 <= r.dir < 6
    requires KeysOf(rs) + [KeyOf(r)] <= tot
    ensures |all[q].faces| == 6
    ensures var n := all[q].startIdx + all[q].pWrite + 1;
            0 <= n < |patch| && Filled(tot, values, all[q := Counted(all[q], r.dir)], patch[n := r], rs + [r])
  {
    var n := all[q].startIdx + all[q].pWrite + 1;
    OwnSlot(tot, values, q, all[q], patch, rs, r);
    var all', patch' := all[q := Counted(all[q], r.dir)], patch[n := r];
    forall q' | 0 <= q' < |values| ensures SlotFilled(tot, values, q', all'[q'], patch', rs + [r]) {
      if q' < q {
        BaseIncreases(tot, values, q', q);
        OtherSlot(tot, values, q', all[q'], patch, rs, r, n);
      } else if q' > q {
        BaseIncreases(tot, values, q, q');
        OtherSlot(tot, values, q', all[q'], patch, rs, r, n);
      }
    }
    hide SlotFilled, Tally, Base, Select;
  }

  lemma StartFilled(tot: seq<Key>, values: seq<int>, all: seq<PatchInfo>, patch: seq<Row>)
    requires AllSlotted(tot, values, all) && forall q :: 0 <= q < |all| ==> Untouched(all[q])
    requires Distinct(values, |values|) && |patch| == Base(tot, values, |values|)
    requires forall t :: 0 <= t < |patch| ==> patch[t] == BLANK
    ensures Filled(tot, values, all, patch, [])
  {
    forall q | 0 <= q < |values| ensures SlotFilled(tot, values, q, all[q], patch, []) {
      if q + 1 < |values| {
        BaseIncreases(tot, values, q, q + 1);
        var q' := q + 1;
        BaseUpTo(tot, values, q', |values|);
      }
    }
  }

  lemma {:induction false} BaseUpTo(ks: seq<Key>, values: seq<int>, p: nat, q: nat)
    requires p <= q <= |values|
    ensures Base(ks, values, p) <= Base(ks, values, q)
  {
    if p < q {
      BaseUpTo(ks, values, p, q - 1);
    }
  }

  // ----- the table -----

  class FaceTable {
    const all: array<PatchInfo>
    const patchValues: array<int>
    const patch: array<Row>

    ghost predicate Holds(tot: seq<Key>, rs: seq<Row>)
      reads all, patchValues, patch
    {
      Filled(tot, patchValues[..], all[..], patch[..], rs)
    }

    constructor (all: array<PatchInfo>, cellFaces: nat, ghost tot: seq<Key>, ghost values: seq<int>)
      requires AllSlotted(tot, values, all[..]) && forall q :: 0 <= q < all.Length ==> Untouched(all[q])
      requires Distinct(values, |values|) && cellFaces == Base(tot, values, |values|)
      ensures this.all == all && fresh(patchValues) && fresh(patch) && patchValues[..] == values && Holds(tot, [])
    {
      this.all := all;
      patchValues := new int[all.Length](i requires 0 <= i < all.Length reads all => all[i].value);
      patch := new Row[cellFaces](t => BLANK);
      new;
      assert patchValues[..] == values;
      StartFilled(tot, values, all[..], patch[..]);
    }

    /** Stores a face of patch q in the next row of its interval. */
    method Put(q: nat, r: Row, ghost tot: seq<Key>, ghost rs: seq<Row>)
      requires Holds(tot, rs) && q < patchValues.Length && patchValues[q] == r.value && 0 <= r.dir < 6
      requires KeysOf(rs) + [KeyOf(r)] <= tot
      modifies all, patch
      ensures Holds(tot, rs + [r])
    {
      FilledNext(tot, patchValues[..], all[..], patch[..], rs, q, r);
      assert all.Length == patchValues.Length;
      hide *;
      StoreRow(q, r);
    }

    method StoreRow(q: nat, r: Row)
      requires q < all.Length && 0 <= r.dir < |all[q].faces| && 0 <= all[q].startIdx + all[q].pWrite + 1 < patch.Length
      modifies all, patch
      ensures all[..] == old(all[..])[q := Counted(old(all[q]), r.dir)]
      ensures patch[..] == old(patch[..])[old(all[q].startIdx + all[q].pWrite) + 1 := r]
    {
      all[q] := Counted(all[q], r.dir);
      var n := all[q].startIdx + all[q].pWrite;
      patch[n] := r;
    }
  }

  // ----- the fill pass -----

  /** The patch values start with those of the default patches and cover all faces. */
  ghost predicate Covers(values: seq<int>, tot: seq<Key>) {
    && |values| >= 6 && (forall d :: 0 <= d < 6 ==> values[d] == DefaultValue(d))
    && Covered(tot, values)
  }

  lemma FaceRowsConcat(p: seq<int>, ks: seq<Key>, ls: seq<Key>)
    requires |p| == 8
    requires AllFace(ks) && AllFace(ls)
    ensures FaceRows(p, ks + ls) == FaceRows(p, ks) + FaceRows(p, ls)
  {
    hide FaceRow;
  }

  lemma FaceRowKey(p: seq<int>, value: int, dir: nat)
    requires |p| == 8 && dir < 6
    ensures KeyOf(FaceRow(p, value, dir)) == Key(value, dir)
    ensures FaceRow(p, value, dir).value == value && FaceRow(p, value, dir).dir == dir
    ensures FaceRows(p, [Key(value, dir)]) == [FaceRow(p, value, dir)]
  {
  }

  lemma KeysOfFaceRows(rs: seq<Row>, p: seq<int>, ks: seq<Key>)
    requires |p| == 8 && AllFace(ks)
    ensures KeysOf(rs + FaceRows(p, ks)) == KeysOf(rs) + ks
  {
    forall t | 0 <= t < |ks| ensures KeyOf(FaceRows(p, ks)[t]) == ks[t] {
      FaceRowKey(p, ks[t].value, ks[t].dir);
    }
    hide FaceRow, KeyOf;
  }

  /** A face of a default patch. */
  method FillDefault(t: FaceTable, p: seq<int>, dir: nat, ghost tot: seq<Key>, ghost rs: seq<Row>)
    requires t.Holds(tot, rs) && Covers(t.patchValues[..], tot) && |p| == 8 && dir < 6
    requires KeysOf(rs) + [Key(DefaultValue(dir), dir)] <= tot
    modifies t.all, t.patch
    ensures t.Holds(tot, rs + FaceRows(p, [Key(DefaultValue(dir), dir)]))
  {
    FaceRowKey(p, DefaultValue(dir), dir);
    assert t.patchValues[..][dir] == t.patchValues[dir];
    hide FaceRow, Filled, Covered, KeysOf;
    t.Put(dir, FaceRow(p, DefaultValue(dir), dir), tot, rs);
  }

  lemma InTotal(ks: seq<Key>, k: Key, tot: seq<Key>, values: seq<int>)
    requires ks + [k] <= tot && Covered(tot, values)
    ensures Listed(values, |values|, k.value)
  {
    assert tot[|ks|] == (ks + [k])[|ks|] == k;
  }

  /** A face of a patch marked by a neighbour. */
  method FillUser(t: FaceTable, p: seq<int>, testVal: int, dir: nat, ghost tot: seq<Key>, ghost rs: seq<Row>)
    requires t.Holds(tot, rs) && Covers(t.patchValues[..], tot) && |p| == 8 && dir < 6
    requires KeysOf(rs) + [Key(testVal, dir)] <= tot
    modifies t.all, t.patch
    ensures t.Holds(tot, rs + FaceRows(p, [Key(testVal, dir)]))
  {
    FaceRowKey(p, testVal, dir);
    InTotal(KeysOf(rs), Key(testVal, dir), tot, t.patchValues[..]);
    hide FaceRow, Filled, Covered, KeysOf;
    var idx := ScanArray(testVal, t.patchValues, t.patchValues.Length);
    t.Put(idx, FaceRow(p, testVal, dir), tot, rs);
  }

  lemma SideDirs(m: Mask, i: int, j: int, dir: nat)
    requires m.Valid() && dir < 6
    ensures AllFace(SideKeys(m, i, j, dir))
  {
  }

  /** The face of an active cell on one side, if there is one: at the edge of the grid it
      belongs to a default patch, beside an inactive cell to the patch that cell marks. */
  method FillSide(t: FaceTable, m: Mask, p: seq<int>, i: int, j: int, dir: nat, ghost tot: seq<Key>, ghost rs: seq<Row>)
    requires m.Valid() && t.Holds(tot, rs) && Covers(t.patchValues[..], tot) && |p| == 8 && dir < 6
    requires KeysOf(rs) + SideKeys(m, i, j, dir) <= tot
    modifies t.all, t.patch
    ensures AllFace(SideKeys(m, i, j, dir))
    ensures t.Holds(tot, rs + FaceRows(p, SideKeys(m, i, j, dir)))
  {
    SideDirs(m, i, j, dir);
    hide FaceRow, Filled, Covers, KeysOf;
    if !(0 <= i < m.nx && 0 <= j < m.ny) {
      FillDefault(t, p, dir, tot, rs);
    } else {
      SideMarksOrNot(m, i, j);
      var testVal := m.At(i, j);
      if testVal == 0 || testVal > 1 {
        FillUser(t, p, testVal, dir, tot, rs);
      } else {
        assert rs + FaceRows(p, []) == rs;
      }
    }
  }

  lemma SideMarksOrNot(m: Mask, i: nat, j: nat)
    requires m.Valid() && i < m.nx && j < m.ny
    ensures m.At(i, j) >= 0
  {
    if m.At(i, j) != 1 {
      SideMarks(m, i, j, 0);
    }
  }

  lemma CellDirs(m: Mask, i: nat, j: nat)
    requires m.Valid() && i < m.nx && j < m.ny
    ensures AllFace(CellKeys(m, i, j))
  {
    forall t | 0 <= t < |CellKeys(m, i, j)| ensures CellKeys(m, i, j)[t].dir < 6 {
      CellValues(m, i, j, CellKeys(m, i, j)[t]);
    }
  }

  /** The next keys to be filled in are ks. */
  ghost predicate Due(rs: seq<Row>, ks: seq<Key>, tot: seq<Key>) {
    KeysOf(rs) + ks <= tot && AllFace(ks)
  }

  /** One part of what is due has been filled in. */
  lemma DueNext(rs: seq<Row>, p: seq<int>, ks: seq<Key>, ls: seq<Key>, tot: seq<Key>)
    requires |p| == 8 && Due(rs, ks + ls, tot) && AllFace(ks)
    ensures KeysOf(rs) + ks <= tot && Due(rs + FaceRows(p, ks), ls, tot)
    ensures rs + FaceRows(p, ks + ls) == rs + FaceRows(p, ks) + FaceRows(p, ls)
  {
    forall t | 0 <= t < |ls| ensures ls[t].dir < 6 {
      assert (ks + ls)[|ks| + t] == ls[t];
    }
    KeysOfFaceRows(rs, p, ks);
    FaceRowsConcat(p, ks, ls);
    assert KeysOf(rs) + (ks + ls) == KeysOf(rs) + ks + ls;
    hide FaceRows, KeysOf;
  }

  /** The faces of an active cell, side by side: r1 to r5 are the rows after each of them. */
  lemma CellParts(m: Mask, i: nat, j: nat, p: seq<int>, rs: seq<Row>, tot: seq<Key>)
    returns (r1: seq<Row>, r2: seq<Row>, r3: seq<Row>, r4: seq<Row>, r5: seq<Row>)
    requires m.Valid() && i < m.nx && j < m.ny && m.At(i, j) == 1 && |p| == 8 && Due(rs, CellKeys(m, i, j), tot)
    ensures AllFace(CellKeys(m, i, j))
    ensures SidesAreFaces(m, i, j)
    ensures KeysOf(rs) + [Key(DefaultValue(BOTTOM), BOTTOM)] <= tot
    ensures r1 == rs + FaceRows(p, [Key(DefaultValue(BOTTOM), BOTTOM)])
    ensures KeysOf(r1) + [Key(DefaultValue(TOP), TOP)] <= tot
    ensures r2 == r1 + FaceRows(p, [Key(DefaultValue(TOP), TOP)])
    ensures KeysOf(r2) + SideKeys(m, i - 1, j, WEST) <= tot && r3 == r2 + FaceRows(p, SideKeys(m, i - 1, j, WEST))
    ensures KeysOf(r3) + SideKeys(m, i + 1, j, EAST) <= tot && r4 == r3 + FaceRows(p, SideKeys(m, i + 1, j, EAST))
    ensures KeysOf(r4) + SideKeys(m, i, j - 1, SOUTH) <= tot && r5 == r4 + FaceRows(p, SideKeys(m, i, j - 1, SOUTH))
    ensures KeysOf(r5) + SideKeys(m, i, j + 1, NORTH) <= tot
    ensures r5 + FaceRows(p, SideKeys(m, i, j + 1, NORTH)) == rs + FaceRows(p, CellKeys(m, i, j))
  {
    CellDirs(m, i, j);
    SidesFace(m, i, j);
    var b, u := [Key(DefaultValue(BOTTOM), BOTTOM)], [Key(DefaultValue(TOP), TOP)];
    var w, e := SideKeys(m, i - 1, j, WEST), SideKeys(m, i + 1, j, EAST);
    var s, n := SideKeys(m, i, j - 1, SOUTH), SideKeys(m, i, j + 1, NORTH);
    CellKeysNested(m, i, j);
    hide FaceRows, KeysOf, SideKeys, CellKeys, Due;
    DueNext(rs, p, b, u + (w + (e + (s + n))), tot);
    r1 := rs + FaceRows(p, b);
    DueNext(r1, p, u, w + (e + (s + n)), tot);
    r2 := r1 + FaceRows(p, u);
    DueNext(r2, p, w, e + (s + n), tot);
    r3 := r2 + FaceRows(p, w);
    DueNext(r3, p, e, s + n, tot);
    r4 := r3 + FaceRows(p, e);
    DueNext(r4, p, s, n, tot);
    r5 := r4 + FaceRows(p, s);
    DueAll(r5, n, tot);
  }

  lemma DueAll(rs: seq<Row>, ks: seq<Key>, tot: seq<Key>)
    requires Due(rs, ks, tot)
    ensures KeysOf(rs) + ks <= tot
  {
  }

  lemma CellKeysNested(m: Mask, i: nat, j: nat)
    requires m.Valid() && i < m.nx && j < m.ny && m.At(i, j) == 1
    ensures CellKeys(m, i, j)
      == [Key(DefaultValue(BOTTOM), BOTTOM)] + ([Key(DefaultValue(TOP), TOP)]
         + (SideKeys(m, i - 1, j, WEST) + (SideKeys(m, i + 1, j, EAST)
            + (SideKeys(m, i, j - 1, SOUTH) + SideKeys(m, i, j + 1, NORTH)))))
  {
    hide SideKeys;
  }

  ghost predicate SidesAreFaces(m: Mask, i: nat, j: nat)
    requires m.Valid()
  {
    && AllFace(SideKeys(m, i - 1, j, WEST))
    && AllFace(SideKeys(m, i + 1, j, EAST))
    && AllFace(SideKeys(m, i, j - 1, SOUTH))
    && AllFace(SideKeys(m, i, j + 1, NORTH))
  }

  lemma SidesFace(m: Mask, i: nat, j: nat)
    requires m.Valid()
    ensures SidesAreFaces(m, i, j)
  {
    SideDirs(m, i - 1, j, WEST);
    SideDirs(m, i + 1, j, EAST);
    SideDirs(m, i, j - 1, SOUTH);
    SideDirs(m, i, j + 1, NORTH);
    hide SideKeys;
  }

  /** All the faces of an active cell, in the order of the program. */
  method FillCell(t: FaceTable, m: Mask, i: nat, j: nat, p: seq<int>, ghost tot: seq<Key>, ghost rs: seq<Row>)
    requires m.Valid() && i < m.nx && j < m.ny && m.At(i, j) == 1 && |p| == 8
    requires t.Holds(tot, rs) && Covers(t.patchValues[..], tot) && Due(rs, CellKeys(m, i, j), tot)
    modifies t.all, t.patch
    ensures AllFace(CellKeys(m, i, j))
    ensures t.Holds(tot, rs + FaceRows(p, CellKeys(m, i, j)))
  {
    ghost var r1, r2, r3, r4, r5 := CellParts(m, i, j, p, rs, tot);
    hide *;
    FillDefault(t, p, BOTTOM, tot, rs);
    FillDefault(t, p, TOP, tot, r1);
    FillWalls(t, m, i, j, p, tot, r2, r3, r4, r5);
  }

  /** The faces of a cell on its four sides. */
  method FillWalls(t: FaceTable, m: Mask, i: nat, j: nat, p: seq<int>, ghost tot: seq<Key>, ghost r2: seq<Row>,
                   ghost r3: seq<Row>, ghost r4: seq<Row>, ghost r5: seq<Row>)
    requires m.Valid() && t.Holds(tot, r2) && Covers(t.patchValues[..], tot) && |p| == 8 && SidesAreFaces(m, i, j)
    requires KeysOf(r2) + SideKeys(m, i - 1, j, WEST) <= tot && r3 == r2 + FaceRows(p, SideKeys(m, i - 1, j, WEST))
    requires KeysOf(r3) + SideKeys(m, i + 1, j, EAST) <= tot && r4 == r3 + FaceRows(p, SideKeys(m, i + 1, j, EAST))
    requires KeysOf(r4) + SideKeys(m, i, j - 1, SOUTH) <= tot && r5 == r4 + FaceRows(p, SideKeys(m, i, j - 1, SOUTH))
    requires KeysOf(r5) + SideKeys(m, i, j + 1, NORTH) <= tot
    modifies t.all, t.patch
    ensures t.Holds(tot, r5 + FaceRows(p, SideKeys(m, i, j + 1, NORTH)))
  {
    hide FaceRows, SideKeys, KeysOf, Covers, Filled, SidesAreFaces;
    FillSide(t, m, p, i - 1, j, WEST, tot, r2);
    FillSide(t, m, p, i + 1, j, EAST, tot, r3);
    FillSide(t, m, p, i, j - 1, SOUTH, tot, r4);
    FillSide(t, m, p, i, j + 1, NORTH, tot, r5);
  }
}
