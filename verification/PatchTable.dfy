/** solidtools.c, MakePatchySolid: counting the faces of every patch, sorting the user's
    patches and giving every patch its interval of the face table. */
module PatchTable {
  import opened RowMajor

  // ----- the mask and the faces it asks for -----

  /** A mask of nx by ny cells: 1 is active, 0 inactive, anything larger an inactive cell
      that marks the faces beside it as a patch of the user's. */
  datatype Mask = Mask(nx: nat, ny: nat, cells: seq<int>) {
    predicate Valid() {
      |cells| == ny * nx && forall c :: 0 <= c < |cells| ==> cells[c] >= 0
    }

    function At(i: nat, j: nat): int
      requires Valid() && i < nx && j < ny
    {
      InGrid(nx, ny, i, j);
      cells[j * nx + i]
    }

    predicate Active(i: int, j: int)
      requires Valid()
    {
      0 <= i < nx && 0 <= j < ny && At(i, j) == 1
    }
  }

  const BOTTOM := 0
  const TOP := 1
  const WEST := 2
  const EAST := 3
  const SOUTH := 4
  const NORTH := 5

  /** The patch a face belongs to, by its value, and the way it faces; the default patches
      of the six directions have the values -1 to -6. */
  datatype Key = Key(value: int, dir: nat)

  function DefaultValue(dir: nat): int {
    -1 - dir
  }

  /** The face of an active cell on a side: an edge of the grid, a neighbour that marks a
      patch, or nothing if the neighbour is active. */
  function SideKeys(m: Mask, i: int, j: int, dir: nat): seq<Key>
    requires m.Valid()
  {
    if !(0 <= i < m.nx && 0 <= j < m.ny) then [Key(DefaultValue(dir), dir)]
    else if m.At(i, j) != 1 then [Key(m.At(i, j), dir)]
    else []
  }

  /** The faces of a cell in the order in which they are filled in. */
  function CellKeys(m: Mask, i: nat, j: nat): seq<Key>
    requires m.Valid() && i < m.nx && j < m.ny
  {
    if m.At(i, j) != 1 then []
    else
      [Key(DefaultValue(BOTTOM), BOTTOM)] + [Key(DefaultValue(TOP), TOP)]
      + SideKeys(m, i - 1, j, WEST) + SideKeys(m, i + 1, j, EAST)
      + SideKeys(m, i, j - 1, SOUTH) + SideKeys(m, i, j + 1, NORTH)
  }

  function RowKeys(m: Mask, j: nat, i: nat): seq<Key>
    requires m.Valid() && i <= m.nx && j < m.ny
  {
    if i == 0 then [] else RowKeys(m, j, i - 1) + CellKeys(m, i - 1, j)
  }

  /** The faces of the first j rows of cells. */
  function Keys(m: Mask, j: nat): seq<Key>
    requires m.Valid() && j <= m.ny
  {
    if j == 0 then [] else Keys(m, j - 1) + RowKeys(m, j - 1, m.nx)
  }

  /** How many of the faces belong to patch v; and how many of those face a direction. */
  function Tally(ks: seq<Key>, v: int): (n: nat)
    ensures n <= |ks|
  {
    if ks == [] then 0 else Tally(ks[..|ks| - 1], v) + if ks[|ks| - 1].value == v then 1 else 0
  }

  function TallyDir(ks: seq<Key>, v: int, dir: nat): nat {
    if ks == [] then 0 else TallyDir(ks[..|ks| - 1], v, dir) + if ks[|ks| - 1] == Key(v, dir) then 1 else 0
  }

  lemma {:induction false} TallyConcat(ks: seq<Key>, ls: seq<Key>, v: int)
    ensures Tally(ks + ls, v) == Tally(ks, v) + Tally(ls, v)
  {
    if ls == [] {
      assert ks + ls == ks;
    } else {
      var n := |ls| - 1;
      assert (ks + ls)[..|ks| + n] == ks + ls[..n];
      TallyConcat(ks, ls[..n], v);
    }
  }

  lemma TallyLast(ks: seq<Key>, k: Key, v: int)
    ensures Tally(ks + [k], v) == Tally(ks, v) + if k.value == v then 1 else 0
    ensures forall dir :: TallyDir(ks + [k], v, dir) == TallyDir(ks, v, dir) + if k == Key(v, dir) then 1 else 0
  {
    assert (ks + [k])[..|ks|] == ks;
  }

  lemma {:induction false} TallyPositive(ks: seq<Key>, v: int)
    ensures Tally(ks, v) > 0 <==> exists i :: 0 <= i < |ks| && ks[i].value == v
  {
    if ks != [] {
      var n := |ks| - 1;
      TallyPositive(ks[..n], v);
      if i :| 0 <= i < n && ks[i].value == v {
        assert ks[..n][i].value == v;
      }
    }
  }

  /** Patch by direction, the faces add up. */
  lemma {:induction false} DirectionsAddUp(ks: seq<Key>, v: int)
    requires forall i :: 0 <= i < |ks| ==> ks[i].dir < 6
    ensures TallyDir(ks, v, 0) + TallyDir(ks, v, 1) + TallyDir(ks, v, 2) + TallyDir(ks, v, 3) + TallyDir(ks, v, 4)
            + TallyDir(ks, v, 5) == Tally(ks, v)
  {
    if ks != [] {
      DirectionsAddUp(ks[..|ks| - 1], v);
    }
  }

  // ----- the counters -----

  const NP_TOT := 30
  const NO_PATCH := -99999

  ghost predicate Distinct(s: seq<int>, n: nat)
    requires n <= |s|
  {
    forall p, q :: 0 <= p < q < n ==> s[p] != s[q]
  }

  predicate Listed(s: seq<int>, n: nat, v: int)
    requires n <= |s|
  {
    exists q :: 0 <= q < n && s[q] == v
  }

  ghost predicate DefaultsCounted(ks: seq<Key>, def: seq<int>) {
    |def| == 6 && forall d :: 0 <= d < 6 ==> def[d] == Tally(ks, DefaultValue(d))
  }

  /** The first n patches listed are the user's patches among the faces, with their counts. */
  ghost predicate UsersCounted(ks: seq<Key>, usr: seq<int>, cnt: seq<int>, n: nat) {
    && n <= |usr| == |cnt| && Distinct(usr, n)
    && (forall q :: 0 <= q < n ==> usr[q] >= 0 && cnt[q] == Tally(ks, usr[q]) && cnt[q] > 0)
    && (forall i :: 0 <= i < |ks| && ks[i].value >= 0 ==> Listed(usr, n, ks[i].value))
  }

  ghost predicate BlankFrom(usr: seq<int>, cnt: seq<int>, n: nat) {
    |usr| == |cnt| && forall q :: n <= q < |usr| ==> usr[q] == NO_PATCH && cnt[q] == 0
  }

  lemma DefaultNext(ks: seq<Key>, def: seq<int>, usr: seq<int>, cnt: seq<int>, n: nat, d: nat)
    requires DefaultsCounted(ks, def) && UsersCounted(ks, usr, cnt, n) && d < 6
    ensures DefaultsCounted(ks + [Key(DefaultValue(d), d)], def[d := def[d] + 1])
    ensures UsersCounted(ks + [Key(DefaultValue(d), d)], usr, cnt, n)
  {
    var k := Key(DefaultValue(d), d);
    forall v ensures Tally(ks + [k], v) == Tally(ks, v) + if k.value == v then 1 else 0 {
      TallyLast(ks, k, v);
    }
  }

  /** A face of a patch already listed. */
  lemma UserAgain(ks: seq<Key>, def: seq<int>, usr: seq<int>, cnt: seq<int>, n: nat, q: nat, dir: nat)
    requires DefaultsCounted(ks, def) && UsersCounted(ks, usr, cnt, n) && q < n
    ensures DefaultsCounted(ks + [Key(usr[q], dir)], def)
    ensures UsersCounted(ks + [Key(usr[q], dir)], usr, cnt[q := cnt[q] + 1], n)
  {
    var k := Key(usr[q], dir);
    forall v ensures Tally(ks + [k], v) == Tally(ks, v) + if k.value == v then 1 else 0 {
      TallyLast(ks, k, v);
    }
  }

  /** A face of a new patch. */
  lemma UserFirst(ks: seq<Key>, def: seq<int>, usr: seq<int>, cnt: seq<int>, n: nat, v: int, dir: nat)
    requires DefaultsCounted(ks, def) && UsersCounted(ks, usr, cnt, n) && BlankFrom(usr, cnt, n)
    requires v >= 0 && !Listed(usr, n, v) && n < |usr|
    ensures DefaultsCounted(ks + [Key(v, dir)], def)
    ensures UsersCounted(ks + [Key(v, dir)], usr[n := v], cnt[n := cnt[n] + 1], n + 1)
    ensures BlankFrom(usr[n := v], cnt[n := cnt[n] + 1], n + 1)
  {
    var k := Key(v, dir);
    forall w ensures Tally(ks + [k], w) == Tally(ks, w) + if k.value == w then 1 else 0 {
      TallyLast(ks, k, w);
    }
    NotCounted(ks, usr, n, v);
    StillListed(ks, usr, n, k);
    hide Tally, Listed, Distinct;
    NewDistinct(usr, n, v);
  }

  lemma NotCounted(ks: seq<Key>, usr: seq<int>, n: nat, v: int)
    requires n <= |usr| && v >= 0 && !Listed(usr, n, v)
    requires forall i :: 0 <= i < |ks| && ks[i].value >= 0 ==> Listed(usr, n, ks[i].value)
    ensures Tally(ks, v) == 0
  {
    TallyPositive(ks, v);
  }

  lemma NewDistinct(usr: seq<int>, n: nat, v: int)
    requires n < |usr| && Distinct(usr, n) && !Listed(usr, n, v)
    ensures Distinct(usr[n := v], n + 1) && forall q :: 0 <= q < n ==> usr[q] != v
  {
  }

  lemma StillListed(ks: seq<Key>, usr: seq<int>, n: nat, k: Key)
    requires n < |usr| && forall i :: 0 <= i < |ks| && ks[i].value >= 0 ==> Listed(usr, n, ks[i].value)
    ensures forall i :: 0 <= i < |ks + [k]| && (ks + [k])[i].value >= 0 ==>
              Listed(usr[n := k.value], n + 1, (ks + [k])[i].value)
  {
    var us, n' := usr[n := k.value], n + 1;
    assert us[n] == k.value;
    forall i | 0 <= i < |ks + [k]| && (ks + [k])[i].value >= 0 ensures Listed(us, n', (ks + [k])[i].value) {
      if i < |ks| {
        var q :| 0 <= q < n && usr[q] == ks[i].value;
        assert us[q] == ks[i].value;
      }
    }
  }

  function UserValues(ks: seq<Key>): set<int> {
    set i | 0 <= i < |ks| && ks[i].value >= 0 :: ks[i].value
  }

  lemma {:induction false} DistinctFits(s: seq<int>, n: nat, vs: set<int>)
    requires n <= |s| && Distinct(s, n) && forall q :: 0 <= q < n ==> s[q] in vs
    ensures n <= |vs|
  {
    if n > 0 {
      DistinctFits(s, n - 1, vs - {s[n - 1]});
    }
  }

  /** The patches listed are among the values vs. */
  ghost predicate Within(usr: seq<int>, n: nat, vs: set<int>)
    requires n <= |usr|
  {
    forall q :: 0 <= q < n ==> usr[q] in vs
  }

  /** There is room for another patch as long as the mask asks for no more than thirty. */
  lemma RoomForOne(usr: seq<int>, n: nat, v: int, vs: set<int>)
    requires n <= |usr| && Distinct(usr, n) && Within(usr, n, vs) && v in vs && !Listed(usr, n, v) && |vs| <= NP_TOT
    ensures n < NP_TOT
  {
    DistinctFits(usr[..n] + [v], n + 1, vs);
  }

  /** The first place of a value in a list, or -1. */
  method ScanArray(val: int, list: array<int>, len: nat) returns (n: int)
    requires len <= list.Length
    ensures n == -1 ==> !Listed(list[..], len, val)
    ensures n != -1 ==> 0 <= n < len && list[n] == val && !Listed(list[..], n, val)
  {
    n := -1;
    for i := 0 to len
      invariant n == -1 && forall q :: 0 <= q < i ==> list[q] != val
    {
      if list[i] == val {
        n := i;
        break;
      }
    }
  }

  // ----- the counting pass -----

  /** The counts depend only on how many faces of each patch there are. */
  lemma CountedAlike(ks: seq<Key>, ls: seq<Key>, def: seq<int>, usr: seq<int>, cnt: seq<int>, n: nat)
    requires DefaultsCounted(ks, def) && UsersCounted(ks, usr, cnt, n) && forall v :: Tally(ks, v) == Tally(ls, v)
    ensures DefaultsCounted(ls, def) && UsersCounted(ls, usr, cnt, n)
  {
    forall i | 0 <= i < |ls| && ls[i].value >= 0 ensures Listed(usr, n, ls[i].value) {
      TallyPositive(ls, ls[i].value);
      TallyPositive(ks, ls[i].value);
    }
  }

  function EdgeKeys(m: Mask, i: int, j: int, dir: nat): seq<Key> {
    if !(0 <= i < m.nx && 0 <= j < m.ny) then [Key(DefaultValue(dir), dir)] else []
  }

  function UserKeys(m: Mask, i: int, j: int, dir: nat): seq<Key>
    requires m.Valid()
  {
    if 0 <= i < m.nx && 0 <= j < m.ny && m.At(i, j) != 1 then [Key(m.At(i, j), dir)] else []
  }

  /** The faces of an active cell in the order in which they are counted. */
  function CountedKeys(m: Mask, i: nat, j: nat): seq<Key>
    requires m.Valid()
  {
    CountedEdges(m, i, j)
    + UserKeys(m, i - 1, j, WEST) + UserKeys(m, i + 1, j, EAST)
    + UserKeys(m, i, j - 1, SOUTH) + UserKeys(m, i, j + 1, NORTH)
  }

  lemma TallySide(m: Mask, i: int, j: int, dir: nat, v: int)
    requires m.Valid()
    ensures Tally(SideKeys(m, i, j, dir), v) == Tally(EdgeKeys(m, i, j, dir), v) + Tally(UserKeys(m, i, j, dir), v)
  {
  }

  lemma TallySix(a: seq<Key>, b: seq<Key>, c: seq<Key>, d: seq<Key>, e: seq<Key>, f: seq<Key>, v: int)
    ensures Tally(a + b + c + d + e + f, v)
      == Tally(a, v) + Tally(b, v) + Tally(c, v) + Tally(d, v) + Tally(e, v) + Tally(f, v)
  {
    hide Tally;
    TallyConcat(a, b, v);
    TallyConcat(a + b, c, v);
    TallyConcat(a + b + c, d, v);
    TallyConcat(a + b + c + d, e, v);
    TallyConcat(a + b + c + d + e, f, v);
  }

  lemma TallyFour(a: seq<Key>, b: seq<Key>, c: seq<Key>, d: seq<Key>, e: seq<Key>, v: int)
    ensures Tally(a + b + c + d + e, v) == Tally(a, v) + Tally(b, v) + Tally(c, v) + Tally(d, v) + Tally(e, v)
  {
    hide Tally;
    TallyConcat(a, b, v);
    TallyConcat(a + b, c, v);
    TallyConcat(a + b + c, d, v);
    TallyConcat(a + b + c + d, e, v);
  }

  /** The bottom, the top and the edges of the grid, which are counted first. */
  function CountedEdges(m: Mask, i: nat, j: nat): seq<Key> {
    [Key(DefaultValue(BOTTOM), BOTTOM)] + [Key(DefaultValue(TOP), TOP)]
    + EdgeKeys(m, i - 1, j, WEST) + EdgeKeys(m, i + 1, j, EAST)
    + EdgeKeys(m, i, j - 1, SOUTH) + EdgeKeys(m, i, j + 1, NORTH)
  }

  /** A cell has the same faces in either order. */
  lemma CountedIsCell(m: Mask, i: nat, j: nat, v: int)
    requires m.Valid() && i < m.nx && j < m.ny && m.At(i, j) == 1
    ensures Tally(CountedKeys(m, i, j), v) == Tally(CellKeys(m, i, j), v)
  {
    TallySide(m, i - 1, j, WEST, v);
    TallySide(m, i + 1, j, EAST, v);
    TallySide(m, i, j - 1, SOUTH, v);
    TallySide(m, i, j + 1, NORTH, v);
    hide Tally, SideKeys, EdgeKeys, UserKeys;
    var b, t := [Key(DefaultValue(BOTTOM), BOTTOM)], [Key(DefaultValue(TOP), TOP)];
    TallySix(b, t, SideKeys(m, i - 1, j, WEST), SideKeys(m, i + 1, j, EAST), SideKeys(m, i, j - 1, SOUTH),
             SideKeys(m, i, j + 1, NORTH), v);
    TallySix(b, t, EdgeKeys(m, i - 1, j, WEST), EdgeKeys(m, i + 1, j, EAST), EdgeKeys(m, i, j - 1, SOUTH),
             EdgeKeys(m, i, j + 1, NORTH), v);
    TallyFour(CountedEdges(m, i, j), UserKeys(m, i - 1, j, WEST), UserKeys(m, i + 1, j, EAST),
              UserKeys(m, i, j - 1, SOUTH), UserKeys(m, i, j + 1, NORTH), v);
  }

  /** The values a cell marks are among those of the whole mask. */
  lemma {:induction false} KeyInRow(m: Mask, i: nat, j: nat, n: nat, k: Key)
    requires m.Valid() && i < n <= m.nx && j < m.ny && k in CellKeys(m, i, j)
    ensures k in RowKeys(m, j, n)
  {
    hide CellKeys;
    if i < n - 1 {
      KeyInRow(m, i, j, n - 1, k);
    }
  }

  lemma {:induction false} KeyInKeys(m: Mask, i: nat, j: nat, n: nat, k: Key)
    requires m.Valid() && i < m.nx && j < n <= m.ny && k in CellKeys(m, i, j)
    ensures k in Keys(m, n)
  {
    hide CellKeys, RowKeys;
    if j < n - 1 {
      KeyInKeys(m, i, j, n - 1, k);
    } else {
      KeyInRow(m, i, j, m.nx, k);
    }
  }

  lemma SideInCell(m: Mask, i: nat, j: nat, k: Key)
    requires m.Valid() && i < m.nx && j < m.ny && m.At(i, j) == 1
    requires k in SideKeys(m, i - 1, j, WEST) || k in SideKeys(m, i + 1, j, EAST)
          || k in SideKeys(m, i, j - 1, SOUTH) || k in SideKeys(m, i, j + 1, NORTH)
    ensures k in CellKeys(m, i, j)
  {
    hide SideKeys;
  }

  lemma SideMarks(m: Mask, i: int, j: int, dir: nat)
    requires m.Valid() && 0 <= i < m.nx && 0 <= j < m.ny && m.At(i, j) != 1
    ensures Key(m.At(i, j), dir) in SideKeys(m, i, j, dir) && m.At(i, j) >= 0
  {
    InGrid(m.nx, m.ny, i, j);
  }

  lemma ValueOfKey(ks: seq<Key>, k: Key)
    requires k in ks && k.value >= 0
    ensures k.value in UserValues(ks)
  {
    var t :| 0 <= t < |ks| && ks[t] == k;
  }

  lemma NeighbourIsUser(m: Mask, i: nat, j: nat, i': int, j': int, dir: nat)
    requires m.Valid() && i < m.nx && j < m.ny && m.At(i, j) == 1
    requires 0 <= i' < m.nx && 0 <= j' < m.ny && m.At(i', j') != 1
    requires (i', j', dir) == (i - 1, j, WEST) || (i', j', dir) == (i + 1, j, EAST)
          || (i', j', dir) == (i, j - 1, SOUTH) || (i', j', dir) == (i, j + 1, NORTH)
    ensures m.At(i', j') >= 0 && m.At(i', j') in UserValues(Keys(m, m.ny))
  {
    SideMarks(m, i', j', dir);
    hide SideKeys, CellKeys, Keys, Mask.At;
    var k := Key(m.At(i', j'), dir);
    SideInCell(m, i, j, k);
    KeyInKeys(m, i, j, m.ny, k);
    ValueOfKey(Keys(m, m.ny), k);
  }

  class Counters {
    const def: array<int>
    const usr: array<int>
    const cnt: array<int>
    var n: nat

    ghost predicate Counted(ks: seq<Key>, vs: set<int>)
      reads this, def, usr, cnt
    {
      && def != usr && def != cnt && usr != cnt && def.Length == 6 && usr.Length == cnt.Length == NP_TOT && n <= NP_TOT
      && DefaultsCounted(ks, def[..]) && UsersCounted(ks, usr[..], cnt[..], n) && BlankFrom(usr[..], cnt[..], n)
      && Within(usr[..], n, vs)
    }

    constructor (ghost vs: set<int>)
      ensures Counted([], vs) && fresh(def) && fresh(usr) && fresh(cnt)
    {
      def := new int[6](i => 0);
      usr := new int[NP_TOT](i => NO_PATCH);
      cnt := new int[NP_TOT](i => 0);
      n := 0;
    }

    method AddDefault(d: nat, ghost ks: seq<Key>, ghost vs: set<int>)
      requires Counted(ks, vs) && d < 6
      modifies def
      ensures Counted(ks + [Key(DefaultValue(d), d)], vs)
    {
      DefaultNext(ks, def[..], usr[..], cnt[..], n, d);
      hide DefaultsCounted, UsersCounted, BlankFrom, Within;
      ghost var before := def[..];
      def[d] := def[d] + 1;
      assert def[..] == before[d := before[d] + 1];
    }

    /** Finds the patch in the list, or adds it to the list, and counts the face. */
    method AddUser(v: int, ghost dir: nat, ghost ks: seq<Key>, ghost vs: set<int>)
      requires Counted(ks, vs) && v >= 0 && v in vs && |vs| <= NP_TOT
      modifies this`n, usr, cnt
      ensures Counted(ks + [Key(v, dir)], vs)
    {
      var idx := ScanArray(v, usr, NP_TOT);
      if idx < 0 {
        AddNew(v, dir, ks, vs);
      } else {
        AddAgain(idx, dir, ks, vs);
      }
    }

    method AddNew(v: int, ghost dir: nat, ghost ks: seq<Key>, ghost vs: set<int>)
      requires Counted(ks, vs) && v >= 0 && v in vs && |vs| <= NP_TOT && !Listed(usr[..], usr.Length, v)
      modifies this`n, usr, cnt
      ensures Counted(ks + [Key(v, dir)], vs)
    {
      ghost var us, cs := usr[..], cnt[..];
      assert !Listed(us, n, v);
      RoomForOne(us, n, v, vs);
      UserFirst(ks, def[..], us, cs, n, v, dir);
      assert Within(us[n := v], n + 1, vs);
      hide DefaultsCounted, UsersCounted, BlankFrom, Within;
      n := n + 1;
      usr[n - 1] := v;
      cnt[n - 1] := cnt[n - 1] + 1;
      assert usr[..] == us[n - 1 := v] && cnt[..] == cs[n - 1 := cs[n - 1] + 1];
    }

    method AddAgain(idx: nat, ghost dir: nat, ghost ks: seq<Key>, ghost vs: set<int>)
      requires Counted(ks, vs) && idx < NP_TOT && usr[idx] >= 0
      modifies cnt
      ensures Counted(ks + [Key(usr[idx], dir)], vs)
    {
      ghost var cs := cnt[..];
      assert idx < n;
      UserAgain(ks, def[..], usr[..], cs, n, idx, dir);
      assert BlankFrom(usr[..], cs[idx := cs[idx] + 1], n);
      hide DefaultsCounted, UsersCounted, BlankFrom, Within;
      cnt[idx] := cnt[idx] + 1;
      assert cnt[..] == cs[idx := cs[idx] + 1];
    }
  }

  /** The test of one neighbour of an active cell. */
  method CountUser(c: Counters, m: Mask, i: nat, j: nat, i': int, j': int, dir: nat, ghost ks: seq<Key>, ghost vs: set<int>)
    requires m.Valid() && i < m.nx && j < m.ny && m.At(i, j) == 1
    requires (i', j', dir) == (i - 1, j, WEST) || (i', j', dir) == (i + 1, j, EAST)
          || (i', j', dir) == (i, j - 1, SOUTH) || (i', j', dir) == (i, j + 1, NORTH)
    requires c.Counted(ks, vs) && vs == UserValues(Keys(m, m.ny)) && |vs| <= NP_TOT
    modifies c`n, c.usr, c.cnt
    ensures c.Counted(ks + UserKeys(m, i', j', dir), vs)
  {
    assert ks + [] == ks;
    if 0 <= i' < m.nx && 0 <= j' < m.ny {
      var testVal := m.At(i', j');
      if testVal != 1 {
        NeighbourIsUser(m, i, j, i', j', dir);
        hide Keys, UserValues;
        c.AddUser(testVal, dir, ks, vs);
      }
    }
  }

  /** A face at the edge of the grid. */
  method CountEdge(c: Counters, m: Mask, i': int, j': int, dir: nat, ghost ks: seq<Key>, ghost vs: set<int>)
    requires c.Counted(ks, vs) && dir < 6
    modifies c.def
    ensures c.Counted(ks + EdgeKeys(m, i', j', dir), vs)
  {
    assert ks + [] == ks;
    if !(0 <= i' < m.nx && 0 <= j' < m.ny) {
      c.AddDefault(dir, ks, vs);
    }
  }

  lemma KeysAdded(ks: seq<Key>, m: Mask, i: nat, j: nat)
    requires m.Valid()
    ensures ks + [Key(DefaultValue(BOTTOM), BOTTOM)] + [Key(DefaultValue(TOP), TOP)]
            + EdgeKeys(m, i - 1, j, WEST) + EdgeKeys(m, i + 1, j, EAST)
            + EdgeKeys(m, i, j - 1, SOUTH) + EdgeKeys(m, i, j + 1, NORTH)
            + UserKeys(m, i - 1, j, WEST) + UserKeys(m, i + 1, j, EAST)
            + UserKeys(m, i, j - 1, SOUTH) + UserKeys(m, i, j + 1, NORTH)
         == ks + CountedKeys(m, i, j)
  {
    hide EdgeKeys, UserKeys;
  }

  /** Counts the faces of one cell. */
  method CountCell(c: Counters, m: Mask, i: nat, j: nat, ghost ks: seq<Key>, ghost vs: set<int>)
    requires m.Valid() && i < m.nx && j < m.ny
    requires c.Counted(ks, vs) && vs == UserValues(Keys(m, m.ny)) && |vs| <= NP_TOT
    modifies c`n, c.def, c.usr, c.cnt
    ensures c.Counted(ks + CellKeys(m, i, j), vs)
  {
    if m.At(i, j) == 1 {
      CountActive(c, m, i, j, ks, vs);
      CellCounted(c, m, i, j, ks, vs);
    } else {
      assert ks + CellKeys(m, i, j) == ks;
    }
  }

  method CountActive(c: Counters, m: Mask, i: nat, j: nat, ghost ks: seq<Key>, ghost vs: set<int>)
    requires m.Valid() && i < m.nx && j < m.ny && m.At(i, j) == 1
    requires c.Counted(ks, vs) && vs == UserValues(Keys(m, m.ny)) && |vs| <= NP_TOT
    modifies c`n, c.def, c.usr, c.cnt
    ensures c.Counted(ks + CountedKeys(m, i, j), vs)
  {
    KeysAdded(ks, m, i, j);
    hide *;
    ghost var ls := ks;
    c.AddDefault(BOTTOM, ls, vs);
    ls := ls + [Key(DefaultValue(BOTTOM), BOTTOM)];
    c.AddDefault(TOP, ls, vs);
    ls := ls + [Key(DefaultValue(TOP), TOP)];
    CountEdge(c, m, i - 1, j, WEST, ls, vs);
    ls := ls + EdgeKeys(m, i - 1, j, WEST);
    CountEdge(c, m, i + 1, j, EAST, ls, vs);
    ls := ls + EdgeKeys(m, i + 1, j, EAST);
    CountEdge(c, m, i, j - 1, SOUTH, ls, vs);
    ls := ls + EdgeKeys(m, i, j - 1, SOUTH);
    CountEdge(c, m, i, j + 1, NORTH, ls, vs);
    ls := ls + EdgeKeys(m, i, j + 1, NORTH);
    CountUser(c, m, i, j, i - 1, j, WEST, ls, vs);
    ls := ls + UserKeys(m, i - 1, j, WEST);
    CountUser(c, m, i, j, i + 1, j, EAST, ls, vs);
    ls := ls + UserKeys(m, i + 1, j, EAST);
    CountUser(c, m, i, j, i, j - 1, SOUTH, ls, vs);
    ls := ls + UserKeys(m, i, j - 1, SOUTH);
    CountUser(c, m, i, j, i, j + 1, NORTH, ls, vs);
  }

  lemma CellCounted(c: Counters, m: Mask, i: nat, j: nat, ks: seq<Key>, vs: set<int>)
    requires m.Valid() && i < m.nx && j < m.ny && m.At(i, j) == 1
    requires c.Counted(ks + CountedKeys(m, i, j), vs)
    ensures c.Counted(ks + CellKeys(m, i, j), vs)
  {
    forall v ensures Tally(ks + CountedKeys(m, i, j), v) == Tally(ks + CellKeys(m, i, j), v) {
      TallyConcat(ks, CountedKeys(m, i, j), v);
      TallyConcat(ks, CellKeys(m, i, j), v);
      CountedIsCell(m, i, j, v);
    }
    hide CountedKeys, CellKeys, DefaultsCounted, UsersCounted, BlankFrom, Within, Tally;
    CountedAlike(ks + CountedKeys(m, i, j), ks + CellKeys(m, i, j), c.def[..], c.usr[..], c.cnt[..], c.n);
  }

  lemma RowNext(m: Mask, j: nat, i: nat, ks: seq<Key>)
    requires m.Valid() && i < m.nx && j < m.ny
    ensures ks + RowKeys(m, j, i) + CellKeys(m, i, j) == ks + RowKeys(m, j, i + 1)
    ensures ks + RowKeys(m, j, 0) == ks
  {
    hide CellKeys;
  }

  method CountRow(c: Counters, m: Mask, j: nat, ghost ks: seq<Key>, ghost vs: set<int>)
    requires m.Valid() && j < m.ny
    requires c.Counted(ks, vs) && vs == UserValues(Keys(m, m.ny)) && |vs| <= NP_TOT
    modifies c`n, c.def, c.usr, c.cnt
    ensures c.Counted(ks + RowKeys(m, j, m.nx), vs)
  {
    hide *;
    assert ks + RowKeys(m, j, 0) == ks by {
      NoRow(m, j);
    }
    for i := 0 to m.nx
      invariant c.Counted(ks + RowKeys(m, j, i), vs)
    {
      RowNext(m, j, i, ks);
      CountCell(c, m, i, j, ks + RowKeys(m, j, i), vs);
    }
  }

  lemma NoRow(m: Mask, j: nat)
    requires m.Valid() && j < m.ny
    ensures RowKeys(m, j, 0) == [] && Keys(m, 0) == []
  {
  }

  lemma KeysNext(m: Mask, j: nat)
    requires m.Valid() && j < m.ny
    ensures Keys(m, j) + RowKeys(m, j, m.nx) == Keys(m, j + 1) && Keys(m, 0) == []
  {
    hide RowKeys;
  }

  /** The counting pass over the whole mask, which may mark up to thirty patches. */
  method CountFaces(m: Mask) returns (c: Counters)
    requires m.Valid() && |UserValues(Keys(m, m.ny))| <= NP_TOT
    ensures fresh(c) && fresh(c.def) && fresh(c.usr) && fresh(c.cnt)
    ensures c.Counted(Keys(m, m.ny), UserValues(Keys(m, m.ny)))
  {
    ghost var vs := UserValues(Keys(m, m.ny));
    c := new Counters(vs);
    assert Keys(m, 0) == [];
    hide *;
    CountRows(c, m, vs);
  }

  method CountRows(c: Counters, m: Mask, ghost vs: set<int>)
    requires m.Valid() && c.Counted(Keys(m, 0), vs) && vs == UserValues(Keys(m, m.ny)) && |vs| <= NP_TOT
    modifies c`n, c.def, c.usr, c.cnt
    ensures c.Counted(Keys(m, m.ny), vs)
  {
    hide *;
    for j := 0 to m.ny
      invariant c.Counted(Keys(m, j), vs)
    {
      KeysNext(m, j);
      CountRow(c, m, j, Keys(m, j), vs);
    }
  }
}
