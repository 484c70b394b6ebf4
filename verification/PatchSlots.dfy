/** solidtools.c, MakePatchySolid: the user's patches are sorted and every patch is given an
    interval of the face table, one after another. */
module PatchSlots {
  import opened PatchTable
  import opened Sequences

  // ----- sorting the user's patches -----

  ghost predicate AscendingTo(s: seq<int>, j: nat, n: nat)
    requires n <= |s|
  {
    forall p, q :: 0 <= p < q < n && p < j ==> s[p] < s[q]
  }

  lemma SwapUsers(ks: seq<Key>, usr: seq<int>, cnt: seq<int>, n: nat, p: nat, q: nat, vs: set<int>)
    requires UsersCounted(ks, usr, cnt, n) && Within(usr, n, vs) && p < n && q < n
    ensures UsersCounted(ks, Swapped(usr, p, q), Swapped(cnt, p, q), n) && Within(Swapped(usr, p, q), n, vs)
  {
    hide Tally;
    var us := Swapped(usr, p, q);
    forall v | Listed(usr, n, v) ensures Listed(us, n, v) {
      var t :| 0 <= t < n && usr[t] == v;
      var t' := if t == p then q else if t == q then p else t;
      assert us[t'] == v;
    }
  }

  /** The first n patches decide. */
  lemma UsersPrefix(ks: seq<Key>, usr: seq<int>, cnt: seq<int>, us: seq<int>, cs: seq<int>, n: nat, vs: set<int>)
    requires UsersCounted(ks, usr, cnt, n) && Within(usr, n, vs) && n <= |us| == |cs|
    requires forall q :: 0 <= q < n ==> us[q] == usr[q] && cs[q] == cnt[q]
    ensures UsersCounted(ks, us, cs, n) && Within(us, n, vs)
  {
    hide Tally;
    forall v | Listed(usr, n, v) ensures Listed(us, n, v) {
      var t :| 0 <= t < n && usr[t] == v;
      assert us[t] == v;
    }
  }

  /** The place of the least entry from j on. */
  method FindMin(list: array<int>, j: nat) returns (minIdx: nat)
    requires j < list.Length
    ensures j <= minIdx < list.Length && forall k :: j <= k < list.Length ==> list[minIdx] <= list[k]
  {
    var minVal := list[j];
    minIdx := j;
    for k := j + 1 to list.Length
      invariant j <= minIdx < list.Length && minVal == list[minIdx]
      invariant forall k' :: j <= k' < k ==> minVal <= list[k']
    {
      if list[k] < minVal {
        minVal := list[k];
        minIdx := k;
      }
    }
  }

  /** Puts the entry at q in place j of the output and swaps it there in the list. */
  method TakeEntry(out: array<int>, list: array<int>, j: nat, q: nat)
    requires j < list.Length && q < list.Length && j < out.Length && out != list
    modifies out, list
    ensures out[..] == old(out[..])[j := old(list[q])] && list[..] == Swapped(old(list[..]), j, q)
  {
    out[j] := list[q];
    list[q] := list[j];
    list[j] := out[j];
  }

  lemma AscendingNext(s: seq<int>, j: nat, q: nat, n: nat)
    requires n == |s| && j <= q < n && AscendingTo(s, j, n) && Distinct(s, n)
    requires forall k :: j <= k < n ==> s[q] <= s[k]
    ensures AscendingTo(Swapped(s, j, q), j + 1, n)
  {
  }

  /** Sorts the patches listed, with their counts, by selecting the least again and again. */
  method SortPatches(c: Counters, ghost ks: seq<Key>, ghost vs: set<int>)
    requires c.Counted(ks, vs)
    modifies c.usr, c.cnt
    ensures c.Counted(ks, vs) && AscendingTo(c.usr[..], c.n, c.n)
  {
    var tempLst, tempCnt := new int[c.n], new int[c.n];
    for i := 0 to c.n
      invariant c.Counted(ks, vs)
      invariant forall q :: 0 <= q < i ==> tempLst[q] == c.usr[q] && tempCnt[q] == c.cnt[q]
    {
      tempCnt[i] := c.cnt[i];
      tempLst[i] := c.usr[i];
    }
    UsersPrefix(ks, c.usr[..], c.cnt[..], tempLst[..], tempCnt[..], c.n, vs);
    ResetPatches(c, ks, vs);
    SelectPatches(c, tempLst, tempCnt, ks, vs);
  }

  /** Clears the lists before they are filled again. */
  method ResetPatches(c: Counters, ghost ks: seq<Key>, ghost vs: set<int>)
    requires c.Counted(ks, vs)
    modifies c.usr, c.cnt
    ensures BlankFrom(c.usr[..], c.cnt[..], c.n)
  {
    for i := 0 to c.n
      invariant BlankFrom(c.usr[..], c.cnt[..], c.n)
    {
      c.cnt[i] := -1;
      c.usr[i] := NO_PATCH;
    }
  }

  method SelectPatches(c: Counters, tempLst: array<int>, tempCnt: array<int>, ghost ks: seq<Key>, ghost vs: set<int>)
    requires c.def != c.usr && c.def != c.cnt && c.usr != c.cnt && c.def.Length == 6 && c.usr.Length == c.cnt.Length == NP_TOT
    requires c.n <= NP_TOT && DefaultsCounted(ks, c.def[..]) && BlankFrom(c.usr[..], c.cnt[..], c.n)
    requires tempLst.Length == tempCnt.Length == c.n && tempLst != tempCnt
    requires tempLst != c.usr && tempLst != c.cnt && tempLst != c.def && tempCnt != c.usr && tempCnt != c.cnt && tempCnt != c.def
    requires UsersCounted(ks, tempLst[..], tempCnt[..], c.n) && Within(tempLst[..], c.n, vs)
    modifies c.usr, c.cnt, tempLst, tempCnt
    ensures c.Counted(ks, vs) && AscendingTo(c.usr[..], c.n, c.n)
  {
    for j := 0 to c.n
      invariant Selected(ks, c.usr[..], c.cnt[..], tempLst[..], tempCnt[..], j, c.n, vs)
    {
      var minIdx := FindMin(tempLst, j);
      SelectedNext(ks, c.usr[..], c.cnt[..], tempLst[..], tempCnt[..], j, minIdx, c.n, vs);
      hide *;
      TakeEntry(c.usr, tempLst, j, minIdx);
      TakeEntry(c.cnt, tempCnt, j, minIdx);
    }
    SelectedAll(ks, c.usr[..], c.cnt[..], tempLst[..], tempCnt[..], c.n, vs);
  }

  /** Part way through the sort: the first j patches are the least ones, in order, and have
      been copied to the output; the rest are still in the list. */
  ghost predicate Selected(ks: seq<Key>, usr: seq<int>, cnt: seq<int>, lst: seq<int>, tc: seq<int>, j: nat, n: nat,
                           vs: set<int>) {
    && j <= n == |lst| == |tc| && n <= |usr| == |cnt|
    && UsersCounted(ks, lst, tc, n) && Within(lst, n, vs) && AscendingTo(lst, j, n) && BlankFrom(usr, cnt, n)
    && (forall q :: 0 <= q < j ==> usr[q] == lst[q] && cnt[q] == tc[q])
  }

  lemma SelectedNext(ks: seq<Key>, usr: seq<int>, cnt: seq<int>, lst: seq<int>, tc: seq<int>, j: nat, q: nat, n: nat,
                     vs: set<int>)
    requires Selected(ks, usr, cnt, lst, tc, j, n, vs) && j <= q < n && forall k :: j <= k < n ==> lst[q] <= lst[k]
    ensures Selected(ks, usr[j := lst[q]], cnt[j := tc[q]], Swapped(lst, j, q), Swapped(tc, j, q), j + 1, n, vs)
  {
    SwapUsers(ks, lst, tc, n, j, q, vs);
    AscendingNext(lst, j, q, n);
    hide UsersCounted, Within, AscendingTo;
  }

  lemma SelectedAll(ks: seq<Key>, usr: seq<int>, cnt: seq<int>, lst: seq<int>, tc: seq<int>, n: nat, vs: set<int>)
    requires Selected(ks, usr, cnt, lst, tc, n, n, vs)
    ensures UsersCounted(ks, usr, cnt, n) && Within(usr, n, vs) && AscendingTo(usr, n, n) && BlankFrom(usr, cnt, n)
  {
    UsersPrefix(ks, lst, tc, usr, cnt, n, vs);
    hide UsersCounted, Within;
  }

  // ----- intervals of the face table -----

  datatype PatchInfo = PatchInfo(active: bool, pWrite: int, value: int, count: int, startIdx: int, endIdx: int,
                                 faces: seq<int>)

  /** The values of all patches: the six default ones and the first n of the user's. */
  function Values(usr: seq<int>, n: nat): (r: seq<int>)
    requires n <= |usr|
    ensures |r| == 6 + n
  {
    [DefaultValue(0), DefaultValue(1), DefaultValue(2), DefaultValue(3), DefaultValue(4), DefaultValue(5)] + usr[..n]
  }

  /** How many faces belong to the first q patches. */
  function Base(ks: seq<Key>, values: seq<int>, q: nat): nat
    requires q <= |values|
  {
    if q == 0 then 0 else Base(ks, values, q - 1) + Tally(ks, values[q - 1])
  }

  /** Every face belongs to one of the patches. */
  ghost predicate Covered(ks: seq<Key>, values: seq<int>) {
    forall i :: 0 <= i < |ks| ==> Listed(values, |values|, ks[i].value)
  }

  lemma {:induction false} BaseLast(ks: seq<Key>, values: seq<int>, q: nat)
    requires ks != [] && q <= |values| && Distinct(values, |values|)
    ensures Base(ks, values, q)
      == Base(ks[..|ks| - 1], values, q) + if Listed(values, q, ks[|ks| - 1].value) then 1 else 0
  {
    if q > 0 {
      BaseLast(ks, values, q - 1);
      var v := ks[|ks| - 1].value;
      if Listed(values, q - 1, v) {
        var p :| 0 <= p < q - 1 && values[p] == v;
        assert values[q - 1] != v;
        assert p < q;
      } else if values[q - 1] == v {
        assert Listed(values, q, v);
      } else {
        assert !Listed(values, q, v);
      }
    }
  }

  /** The intervals of all patches together are as long as the face table. */
  lemma {:induction false} BaseTotal(ks: seq<Key>, values: seq<int>)
    requires Covered(ks, values) && Distinct(values, |values|)
    ensures Base(ks, values, |values|) == |ks|
  {
    if ks == [] {
      BaseNone(values, |values|);
    } else {
      var m := |ks| - 1;
      assert Covered(ks[..m], values);
      BaseTotal(ks[..m], values);
      BaseLast(ks, values, |values|);
    }
  }

  lemma {:induction false} BaseNone(values: seq<int>, q: nat)
    requires q <= |values|
    ensures Base([], values, q) == 0
  {
    if q > 0 {
      BaseNone(values, q - 1);
    }
  }

  lemma {:induction false} BaseIncreases(ks: seq<Key>, values: seq<int>, p: nat, q: nat)
    requires p < q <= |values|
    ensures Base(ks, values, p) + Tally(ks, values[p]) <= Base(ks, values, q)
  {
    if p + 1 < q {
      BaseIncreases(ks, values, p, q - 1);
    }
  }

  /** The values of the faces of a mask. */
  lemma {:induction false} KeyValues(m: Mask, j: nat, k: Key)
    requires m.Valid() && j <= m.ny && k in Keys(m, j)
    ensures k.dir < 6 && (k.value == DefaultValue(k.dir) || (k.value >= 0 && k.value != 1))
  {
    hide RowKeys;
    if j > 0 {
      if k in Keys(m, j - 1) {
        KeyValues(m, j - 1, k);
      } else {
        RowValues(m, j - 1, m.nx, k);
      }
    }
  }

  lemma {:induction false} RowValues(m: Mask, j: nat, i: nat, k: Key)
    requires m.Valid() && j < m.ny && i <= m.nx && k in RowKeys(m, j, i)
    ensures k.dir < 6 && (k.value == DefaultValue(k.dir) || (k.value >= 0 && k.value != 1))
  {
    hide CellKeys;
    if i > 0 {
      if k in RowKeys(m, j, i - 1) {
        RowValues(m, j, i - 1, k);
      } else {
        CellValues(m, i - 1, j, k);
      }
    }
  }

  lemma CellValues(m: Mask, i: nat, j: nat, k: Key)
    requires m.Valid() && i < m.nx && j < m.ny && k in CellKeys(m, i, j)
    ensures k.dir < 6 && (k.value == DefaultValue(k.dir) || (k.value >= 0 && k.value != 1))
  {
    SideValues(m, i - 1, j, WEST);
    SideValues(m, i + 1, j, EAST);
    SideValues(m, i, j - 1, SOUTH);
    SideValues(m, i, j + 1, NORTH);
    hide SideKeys;
  }

  lemma SideValues(m: Mask, i: int, j: int, dir: nat)
    requires m.Valid() && dir < 6
    ensures forall k :: k in SideKeys(m, i, j, dir) ==>
              k.dir == dir && (k.value == DefaultValue(dir) || (k.value >= 0 && k.value != 1))
  {
    if 0 <= i < m.nx && 0 <= j < m.ny && m.At(i, j) != 1 {
      SideMarks(m, i, j, dir);
    }
  }

  /** The patches of a mask that has been counted have different values, one for every face. */
  lemma ValuesCover(m: Mask, usr: seq<int>, cnt: seq<int>, n: nat)
    requires m.Valid() && UsersCounted(Keys(m, m.ny), usr, cnt, n)
    ensures Distinct(Values(usr, n), 6 + n) && Covered(Keys(m, m.ny), Values(usr, n))
  {
    var ks, values := Keys(m, m.ny), Values(usr, n);
    hide Keys, Tally;
    forall i | 0 <= i < |ks| ensures Listed(values, |values|, ks[i].value) {
      KeyValues(m, m.ny, ks[i]);
      if ks[i].value >= 0 {
        var q :| 0 <= q < n && usr[q] == ks[i].value;
        assert values[6 + q] == ks[i].value;
      } else {
        assert values[ks[i].dir] == ks[i].value;
      }
    }
  }

  /** A patch before anything is filled in: its faces are to go to the interval that starts
      where those of the earlier patches end. */
  ghost predicate Slotted(ks: seq<Key>, values: seq<int>, q: nat, p: PatchInfo)
    requires q < |values|
  {
    && p.value == values[q] && p.count == Tally(ks, values[q]) && p.active == (p.count > 0)
    && (p.count > 0 ==> p.startIdx == Base(ks, values, q) && p.endIdx == p.startIdx + p.count - 1)
    && (p.count == 0 ==> p.startIdx == -1 && p.endIdx == -1)
  }

  ghost predicate AllSlotted(ks: seq<Key>, values: seq<int>, all: seq<PatchInfo>) {
    |all| == |values| && forall q :: 0 <= q < |all| ==> Slotted(ks, values, q, all[q])
  }

  ghost predicate Untouched(p: PatchInfo) {
    p.pWrite == -1 && p.faces == [0, 0, 0, 0, 0, 0]
  }

  function NewSlot(value: int, count: int, np: int): PatchInfo {
    if count > 0 then PatchInfo(true, -1, value, count, np, np + count - 1, [0, 0, 0, 0, 0, 0])
    else PatchInfo(false, -1, value, 0, -1, -1, [0, 0, 0, 0, 0, 0])
  }

  /** Lays out the default patches that have faces, then the user's, one after another. */
  method MakeSlots(c: Counters, ghost ks: seq<Key>, ghost vs: set<int>) returns (all: array<PatchInfo>)
    requires c.Counted(ks, vs)
    ensures fresh(all) && AllSlotted(ks, Values(c.usr[..], c.n), all[..])
    ensures forall q :: 0 <= q < all.Length ==> Untouched(all[q])
  {
    ghost var values := Values(c.usr[..], c.n);
    all := new PatchInfo[6 + c.n](i => PatchInfo(false, -1, 0, 0, -1, -1, []));
    var np: int := 0;
    for i := 0 to 6
      invariant np == Base(ks, values, i)
      invariant forall q :: 0 <= q < i ==> Slotted(ks, values, q, all[q]) && Untouched(all[q])
    {
      assert values[i] == DefaultValue(i) && c.def[i] == Tally(ks, values[i]);
      hide UsersCounted, Tally, DefaultsCounted;
      all[i] := NewSlot(-1 - i, c.def[i], np);
      np := np + c.def[i];
    }
    for i := 6 to 6 + c.n
      invariant np == Base(ks, values, i)
      invariant forall q :: 0 <= q < i ==> Slotted(ks, values, q, all[q]) && Untouched(all[q])
    {
      assert values[i] == c.usr[i - 6] && c.cnt[i - 6] == Tally(ks, values[i]);
      hide UsersCounted, Tally, DefaultsCounted;
      all[i] := NewSlot(c.usr[i - 6], c.cnt[i - 6], np);
      np := np + c.cnt[i - 6];
    }
  }

  /** The sum of all the counters. */
  method CountAll(c: Counters, ghost m: Mask, ghost vs: set<int>) returns (cellFaces: int)
    requires m.Valid() && c.Counted(Keys(m, m.ny), vs)
    ensures cellFaces == |Keys(m, m.ny)|
  {
    ghost var ks, values := Keys(m, m.ny), Values(c.usr[..], c.n);
    ValuesCover(m, c.usr[..], c.cnt[..], c.n);
    BaseTotal(ks, values);
    hide Keys;
    cellFaces := 0;
    for i := 0 to 6
      invariant cellFaces == Base(ks, values, i)
    {
      assert values[i] == DefaultValue(i) && c.def[i] == Tally(ks, values[i]);
      cellFaces := cellFaces + c.def[i];
    }
    for i := 0 to NP_TOT
      invariant cellFaces == Base(ks, values, if i <= c.n then 6 + i else 6 + c.n)
    {
      if i < c.n {
        assert values[6 + i] == c.usr[i] && c.cnt[i] == Tally(ks, values[6 + i]);
      }
      cellFaces := cellFaces + c.cnt[i];
    }
  }
}
