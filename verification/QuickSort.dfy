/** The vertex sort of pftools: quicksort.c instantiated with the two lexicographic
    orders of geom_sort_vertices.c and geom_sort_xy_vertices.c.  An optional second
    array is rearranged along with the vertices. */
module QuickSort {
  import opened Reals
  import opened Sequences

  const QSORT_CROSSOVER := 10

  type Vertex = Point

  /** ZYX compares z, then y, then x; YX compares y, then x. */
  datatype Order = ZYX | YX {
    predicate Less(u: Vertex, v: Vertex) {
      match this
      case ZYX => u.z < v.z || (u.z == v.z && (u.y < v.y || (u.y == v.y && u.x < v.x)))
      case YX => u.y < v.y || (u.y == v.y && u.x < v.x)
    }

    /** The coordinates ascend from u to v: z, then y, then x; or y, then x. */
    predicate AtMost(u: Vertex, v: Vertex) {
      match this
      case ZYX => u.z < v.z || (u.z == v.z && (u.y < v.y || (u.y == v.y && u.x <= v.x)))
      case YX => u.y < v.y || (u.y == v.y && u.x <= v.x)
    }

    lemma Total(u: Vertex, v: Vertex, w: Vertex)
      ensures AtMost(u, v) <==> !Less(v, u)
      ensures AtMost(u, u)
      ensures AtMost(u, v) || AtMost(v, u)
      ensures AtMost(u, v) && AtMost(v, w) ==> AtMost(u, w)
      ensures Less(u, v) ==> AtMost(u, v)
    {
    }
  }

  // ----- rearrangements -----

  /** p sends every place to a place, never two to the same, and fixes those outside lo..hi. */
  ghost predicate Permutes(p: seq<int>, lo: int, hi: int) {
    && (forall i :: 0 <= i < |p| ==> 0 <= p[i] < |p|)
    && (forall i, j :: 0 <= i < j < |p| ==> p[i] != p[j])
    && (forall i :: 0 <= i < |p| && !(lo <= i <= hi) ==> p[i] == i)
  }

  /** b is a read through p. */
  ghost predicate Through<T>(a: seq<T>, b: seq<T>, p: seq<int>) {
    && |a| == |b| == |p|
    && forall i :: 0 <= i < |p| ==> 0 <= p[i] < |a| && b[i] == a[p[i]]
  }

  function Identity(n: nat): (p: seq<int>)
    ensures |p| == n
  {
    seq(n, i => i)
  }

  function Composed(p: seq<int>, q: seq<int>): (r: seq<int>)
    requires |p| == |q| && forall i :: 0 <= i < |q| ==> 0 <= q[i] < |p|
    ensures |r| == |p|
  {
    seq(|p|, i requires 0 <= i < |p| => p[q[i]])
  }

  lemma IdentityPermutes<T>(a: seq<T>, lo: int, hi: int)
    ensures Permutes(Identity(|a|), lo, hi) && Through(a, a, Identity(|a|))
  {
  }

  lemma SwappedPermutes(p: seq<int>, lo: int, hi: int, i: nat, j: nat)
    requires Permutes(p, lo, hi) && lo <= i <= hi && lo <= j <= hi && i < |p| && j < |p|
    ensures Permutes(Swapped(p, i, j), lo, hi)
  {
  }

  lemma SwappedThrough<T>(a: seq<T>, b: seq<T>, p: seq<int>, i: nat, j: nat)
    requires Through(a, b, p) && i < |p| && j < |p|
    ensures Through(a, Swapped(b, i, j), Swapped(p, i, j))
  {
  }

  lemma ComposedPermutes(p: seq<int>, q: seq<int>, lo: int, hi: int, lo': int, hi': int)
    requires |p| == |q| && Permutes(p, lo, hi) && Permutes(q, lo', hi') && lo <= lo' && hi' <= hi
    ensures Permutes(Composed(p, q), lo, hi)
  {
    var r := Composed(p, q);
    forall i, j | 0 <= i < j < |r| ensures r[i] != r[j] {
      assert q[i] != q[j];
      assert q[i] < q[j] || q[j] < q[i];
    }
  }

  lemma ComposedThrough<T>(a: seq<T>, b: seq<T>, c: seq<T>, p: seq<int>, q: seq<int>)
    requires Through(a, b, p) && Through(b, c, q)
    ensures Through(a, c, Composed(p, q))
  {
  }

  // ----- sortedness -----

  ghost predicate Sorted(o: Order, a: seq<Vertex>, lo: int, hi: int) {
    forall i, j :: 0 <= i < j < |a| && lo <= i && j <= hi ==> o.AtMost(a[i], a[j])
  }

  ghost predicate AllAtMost(o: Order, a: seq<Vertex>, lo: int, hi: int, v: Vertex) {
    forall i :: 0 <= i < |a| && lo <= i <= hi ==> o.AtMost(a[i], v)
  }

  ghost predicate AllAtLeast(o: Order, a: seq<Vertex>, lo: int, hi: int, v: Vertex) {
    forall i :: 0 <= i < |a| && lo <= i <= hi ==> o.AtMost(v, a[i])
  }

  lemma OutsideIsFixed(p: seq<int>, lo: int, hi: int, i: nat)
    requires Permutes(p, lo, hi) && i < |p|
    ensures !(lo <= p[i] <= hi) ==> p[i] == i
  {
    if !(lo <= p[i] <= hi) {
      var k := p[i];
      assert p[k] == k;
    }
  }

  /** A permutation of lo..hi keeps that range within itself. */
  lemma StaysInside(p: seq<int>, lo: int, hi: int, i: nat)
    requires Permutes(p, lo, hi) && i < |p| && lo <= i <= hi
    ensures lo <= p[i] <= hi
  {
    OutsideIsFixed(p, lo, hi, i);
  }

  lemma BoundsKept(o: Order, a: seq<Vertex>, b: seq<Vertex>, p: seq<int>, lo: int, hi: int, v: Vertex)
    requires Through(a, b, p) && Permutes(p, lo, hi)
    ensures AllAtMost(o, a, lo, hi, v) ==> AllAtMost(o, b, lo, hi, v)
    ensures AllAtLeast(o, a, lo, hi, v) ==> AllAtLeast(o, b, lo, hi, v)
  {
    forall i | 0 <= i < |p| && lo <= i <= hi ensures lo <= p[i] <= hi {
      StaysInside(p, lo, hi, i);
    }
    hide Order.Less;
  }

  /** Two sorted parts around a pivot make a sorted whole. */
  lemma JoinedSorted(o: Order, a: seq<Vertex>, lo: int, j: nat, hi: int)
    requires lo <= j <= hi < |a| && 0 <= lo
    requires Sorted(o, a, lo, j - 1) && Sorted(o, a, j + 1, hi)
    requires AllAtMost(o, a, lo, j - 1, a[j]) && AllAtLeast(o, a, j + 1, hi, a[j])
    ensures Sorted(o, a, lo, hi)
  {
    hide Order.Less;
    forall i, k | 0 <= i < k < |a| && lo <= i && k <= hi ensures o.AtMost(a[i], a[k]) {
      if i < j && j < k {
        o.Total(a[i], a[j], a[k]);
      }
    }
  }

  // ----- the sort -----

  /** Swaps two vertices and, when there is a permutation array, its entries too. */
  method SwapBoth(arr: array<Vertex>, permute: array?<int>, i: nat, j: nat, ghost a: seq<Vertex>, ghost m: seq<int>,
                  ghost p: seq<int>, ghost lo: int, ghost hi: int) returns (ghost q: seq<int>)
    requires i < arr.Length && j < arr.Length && lo <= i <= hi && lo <= j <= hi
    requires permute != null ==> permute.Length == arr.Length
    requires Tracks(a, m, arr, permute, p, lo, hi)
    modifies arr, permute
    ensures q == Swapped(p, i, j) && arr[..] == Swapped(old(arr[..]), i, j)
    ensures Tracks(a, m, arr, permute, q, lo, hi)
  {
    SwappedPermutes(p, lo, hi, i, j);
    SwappedThrough(a, arr[..], p, i, j);
    if permute != null {
      SwappedThrough(m, permute[..], p, i, j);
    }
    q := Swapped(p, i, j);
    arr[i], arr[j] := arr[j], arr[i];
    assert arr[..] == Swapped(old(arr[..]), i, j);
    if permute != null {
      permute[i], permute[j] := permute[j], permute[i];
      assert permute[..] == Swapped(old(permute[..]), i, j);
    }
  }

  /** The arrays hold their starting contents a and m, read through p. */
  ghost predicate Tracks(a: seq<Vertex>, m: seq<int>, arr: array<Vertex>, permute: array?<int>, p: seq<int>,
                         lo: int, hi: int)
    reads arr, permute
  {
    && Permutes(p, lo, hi) && Through(a, arr[..], p)
    && (permute != null ==> Through(m, permute[..], p))
  }

  /** Puts a median of three at the front: first + 1 holds nothing larger, last nothing smaller. */
  method MedianToFront(o: Order, first: nat, last: nat, arr: array<Vertex>, permute: array?<int>,
                       ghost a: seq<Vertex>, ghost m: seq<int>, ghost p: seq<int>) returns (ghost q: seq<int>)
    requires first + 1 < last < arr.Length && (permute != null ==> permute.Length == arr.Length)
    requires Tracks(a, m, arr, permute, p, first, last)
    modifies arr, permute
    ensures Tracks(a, m, arr, permute, q, first, last)
    ensures o.AtMost(arr[first + 1], arr[first]) && o.AtMost(arr[first], arr[last])
  {
    hide Tracks, Order.Less, Order.AtMost;
    var i := (first + last) / 2;
    var j := first + 1;
    q := SwapBoth(arr, permute, i, j, a, m, p, first, last);
    ghost var u, v, w := arr[first], arr[j], arr[last];
    MedianOrders(o, u, v, w);
    if o.Less(arr[last], arr[j]) {
      q := SwapBoth(arr, permute, j, last, a, m, q, first, last);
    }
    MedianOrders(o, arr[first], arr[j], arr[last]);
    if o.Less(arr[last], arr[first]) {
      q := SwapBoth(arr, permute, first, last, a, m, q, first, last);
    }
    MedianOrders(o, arr[first], arr[j], arr[last]);
    if o.Less(arr[first], arr[j]) {
      q := SwapBoth(arr, permute, j, first, a, m, q, first, last);
    }
  }

  lemma MedianOrders(o: Order, u: Vertex, v: Vertex, w: Vertex)
    ensures o.Less(u, v) ==> o.AtMost(u, v)
    ensures o.Less(v, u) ==> o.AtMost(v, u)
    ensures o.Less(w, v) ==> o.AtMost(w, v)
    ensures o.Less(w, u) ==> o.AtMost(w, u)
    ensures (!o.Less(w, v) ==> o.AtMost(v, w)) && (!o.Less(w, u) ==> o.AtMost(u, w)) && (!o.Less(u, v) ==> o.AtMost(v, u))
    ensures o.AtMost(v, w) && o.AtMost(w, u) ==> o.AtMost(v, u)
    ensures o.AtMost(v, w) && o.Less(w, u) ==> o.AtMost(v, u)
  {
  }

  /** The first place from i0 on, up to last + 1, whose entry is not below the pivot. */
  method ScanUp(o: Order, arr: array<Vertex>, first: nat, last: nat, i0: nat) returns (i: nat)
    requires first < i0 <= last + 1 <= arr.Length
    requires AllAtMost(o, arr[..], first + 1, i0 - 1, arr[first])
    ensures i0 <= i <= last + 1 && AllAtMost(o, arr[..], first + 1, i - 1, arr[first])
    ensures forall k :: i0 <= k < i ==> o.Less(arr[k], arr[first])
    ensures i <= last ==> o.AtMost(arr[first], arr[i])
  {
    hide Order.Less;
    i := i0;
    while !(i > last)
      invariant i0 <= i <= last + 1 && AllAtMost(o, arr[..], first + 1, i - 1, arr[first])
      invariant forall k :: i0 <= k < i ==> o.Less(arr[k], arr[first])
      decreases last + 1 - i
    {
      o.Total(arr[first], arr[i], arr[i]);
      if !o.Less(arr[i], arr[first]) {
        break;
      }
      o.Total(arr[i], arr[first], arr[first]);
      i := i + 1;
    }
  }

  /** The last place from j0 down whose entry is not above the pivot. */
  method ScanDown(o: Order, arr: array<Vertex>, first: nat, last: nat, j0: nat) returns (j: nat)
    requires first <= j0 <= last < arr.Length
    requires AllAtLeast(o, arr[..], j0 + 1, last, arr[first])
    ensures first <= j <= j0 && AllAtLeast(o, arr[..], j + 1, last, arr[first])
    ensures o.AtMost(arr[j], arr[first])
    ensures forall k :: j < k <= j0 ==> o.Less(arr[first], arr[k])
  {
    hide Order.Less;
    j := j0;
    PivotNotLess(o, arr[first]);
    while o.Less(arr[first], arr[j])
      invariant first <= j <= j0 && AllAtLeast(o, arr[..], j + 1, last, arr[first])
      invariant forall k :: j < k <= j0 ==> o.Less(arr[first], arr[k])
      decreases j
    {
      o.Total(arr[first], arr[j], arr[j]);
      j := j - 1;
    }
    o.Total(arr[j], arr[first], arr[first]);
  }

  /** Moves the entries not above the pivot arr[first] to the left of the rest and the
      pivot between them.  The scan for j has no bound test: it stops at the pivot. */
  method Partition(o: Order, first: nat, last: nat, arr: array<Vertex>, permute: array?<int>,
                   ghost a: seq<Vertex>, ghost m: seq<int>, ghost p: seq<int>) returns (j: int, ghost q: seq<int>)
    requires first + 1 < last < arr.Length && (permute != null ==> permute.Length == arr.Length)
    requires Tracks(a, m, arr, permute, p, first, last)
    modifies arr, permute
    ensures first <= j <= last
    ensures Tracks(a, m, arr, permute, q, first, last)
    ensures AllAtMost(o, arr[..], first, j - 1, arr[j]) && AllAtLeast(o, arr[..], j + 1, last, arr[j])
  {
    hide Tracks, Order.Less;
    q := p;
    var i := first + 1;
    j := last;
    ghost var pivot := arr[first];
    var done := false;
    while !done
      invariant first + 1 <= i <= last + 1 && first <= j <= last && arr[first] == pivot
      invariant Tracks(a, m, arr, permute, q, first, last)
      invariant AllAtMost(o, arr[..], first + 1, i - 1, pivot) && AllAtLeast(o, arr[..], j + 1, last, pivot)
      invariant if done then i >= j && o.AtMost(arr[j], pivot) else i <= j + 1
      decreases !done, j
    {
      i := ScanUp(o, arr, first, last, i);
      j := ScanDown(o, arr, first, last, j);
      if i < j {
        q := SwapBoth(arr, permute, i, j, a, m, q, first, last);
        i := i + 1;
        j := j - 1;
      } else {
        done := true;
      }
    }
    q := SwapBoth(arr, permute, first, j, a, m, q, first, last);
  }

  lemma PivotNotLess(o: Order, v: Vertex)
    ensures !o.Less(v, v)
  {
  }

  // ----- insertion sort for short ranges -----

  /** b with its entry at i set to v: the list as it will be once v is put down. */
  function Filled<T>(b: seq<T>, i: nat, v: T): seq<T>
    requires i < |b|
  {
    b[i := v]
  }

  lemma ShiftIsSwap<T>(b: seq<T>, i: nat, v: T)
    requires i + 1 < |b|
    ensures Filled(b[i + 1 := b[i]], i, v) == Swapped(Filled(b, i + 1, v), i, i + 1)
  {
  }

  /** The arrays with v and t put down at place i hold a and m read through p. */
  ghost predicate TracksWith(a: seq<Vertex>, m: seq<int>, arr: array<Vertex>, permute: array?<int>, p: seq<int>,
                             lo: int, hi: int, i: nat, v: Vertex, t: int)
    reads arr, permute
    requires i < arr.Length && (permute != null ==> permute.Length == arr.Length)
  {
    && Permutes(p, lo, hi) && Through(a, Filled(arr[..], i, v), p)
    && (permute != null ==> Through(m, Filled(permute[..], i, t), p))
  }

  /** Moves the entry at i up one place, and the gap down. */
  method Shift(arr: array<Vertex>, permute: array?<int>, i: nat, v: Vertex, t: int,
               ghost a: seq<Vertex>, ghost m: seq<int>, ghost p: seq<int>, ghost lo: int, ghost hi: int)
    returns (ghost q: seq<int>)
    requires i + 1 < arr.Length && lo <= i && i + 1 <= hi && (permute != null ==> permute.Length == arr.Length)
    requires TracksWith(a, m, arr, permute, p, lo, hi, i + 1, v, t)
    modifies arr, permute
    ensures arr[..] == old(arr[..])[i + 1 := old(arr[i])]
    ensures TracksWith(a, m, arr, permute, q, lo, hi, i, v, t)
  {
    SwappedPermutes(p, lo, hi, i, i + 1);
    SwappedThrough(a, Filled(arr[..], i + 1, v), p, i, i + 1);
    ShiftIsSwap(arr[..], i, v);
    if permute != null {
      SwappedThrough(m, Filled(permute[..], i + 1, t), p, i, i + 1);
      ShiftIsSwap(permute[..], i, t);
    }
    q := Swapped(p, i, i + 1);
    hide Permutes, Through;
    arr[i + 1] := arr[i];
    assert arr[..] == old(arr[..])[i + 1 := old(arr[i])];
    if permute != null {
      permute[i + 1] := permute[i];
      assert permute[..] == old(permute[..])[i + 1 := old(permute[i])];
    }
  }

  /** r is s with the entries g..j - 1, none of them below v, moved up one place. */
  ghost predicate Gapped(o: Order, s: seq<Vertex>, r: seq<Vertex>, g: nat, j: nat, v: Vertex) {
    && j < |s| == |r|
    && (forall k :: 0 <= k < |r| && !(g < k <= j) ==> r[k] == s[k])
    && (forall k :: g < k <= j ==> r[k] == s[k - 1])
    && (forall k :: g <= k < j ==> o.AtMost(v, s[k]))
  }

  lemma GapMoves(o: Order, s: seq<Vertex>, r: seq<Vertex>, i: nat, j: nat, v: Vertex)
    requires i < j && Gapped(o, s, r, i + 1, j, v) && o.AtMost(v, r[i])
    ensures Gapped(o, s, r[i + 1 := r[i]], i, j, v)
  {
  }

  /** Shifts the entries above v up by one, from j - 1 down, leaving a gap at g. */
  method OpenGap(o: Order, first: nat, last: nat, j: nat, arr: array<Vertex>, permute: array?<int>, v: Vertex, t: int,
                 ghost a: seq<Vertex>, ghost m: seq<int>, ghost p: seq<int>) returns (g: nat, ghost q: seq<int>)
    requires first < j <= last < arr.Length && (permute != null ==> permute.Length == arr.Length)
    requires TracksWith(a, m, arr, permute, p, first, last, j, v, t)
    modifies arr, permute
    ensures first <= g <= j && TracksWith(a, m, arr, permute, q, first, last, g, v, t)
    ensures Gapped(o, old(arr[..]), arr[..], g, j, v)
    ensures g > first ==> o.AtMost(arr[g - 1], v)
  {
    q := p;
    var i := j - 1;
    ghost var s := arr[..];
    while i >= first && o.Less(v, arr[i])
      invariant first - 1 <= i < j
      invariant TracksWith(a, m, arr, permute, q, first, last, i + 1, v, t)
      invariant Gapped(o, s, arr[..], i + 1, j, v)
    {
      hide TracksWith, Order.Less, Gapped;
      o.Total(v, arr[i], v);
      GapMoves(o, s, arr[..], i, j, v);
      q := Shift(arr, permute, i, v, t, a, m, q, first, last);
      i := i - 1;
    }
    g := i + 1;
  }

  /** Inserts entry j into the sorted entries first..j - 1. */
  method Insert(o: Order, first: nat, last: nat, j: nat, arr: array<Vertex>, permute: array?<int>,
                ghost a: seq<Vertex>, ghost m: seq<int>, ghost p: seq<int>) returns (ghost q: seq<int>)
    requires first < j <= last < arr.Length && (permute != null ==> permute.Length == arr.Length)
    requires Tracks(a, m, arr, permute, p, first, last) && Sorted(o, arr[..], first, j - 1)
    modifies arr, permute
    ensures Tracks(a, m, arr, permute, q, first, last) && Sorted(o, arr[..], first, j)
  {
    hide Permutes, Through, Sorted;
    var v := arr[j];
    var t := if permute != null then permute[j] else 0;
    ghost var s := arr[..];
    assert Filled(arr[..], j, v) == arr[..];
    assert permute != null ==> Filled(permute[..], j, t) == permute[..];
    var g;
    g, q := OpenGap(o, first, last, j, arr, permute, v, t, a, m, p);
    ghost var b := arr[..];
    InsertedSorted(o, s, b, first, j, g, v);
    arr[g] := v;
    assert arr[..] == Filled(b, g, v);
    if permute != null {
      ghost var c := permute[..];
      permute[g] := t;
      assert permute[..] == Filled(c, g, t);
    }
  }

  lemma InsertedSorted(o: Order, s: seq<Vertex>, r: seq<Vertex>, first: nat, j: nat, g: nat, v: Vertex)
    requires first <= g <= j && Gapped(o, s, r, g, j, v) && Sorted(o, s, first, j - 1)
    requires g > first ==> o.AtMost(r[g - 1], v)
    ensures Sorted(o, r[g := v], first, j)
  {
    hide Order.Less;
    var t := r[g := v];
    forall i, k | 0 <= i < k < |t| && first <= i && k <= j ensures o.AtMost(t[i], t[k]) {
      if i < g && k == g {
        o.Total(s[i], s[g - 1], v);
        o.Total(s[g - 1], s[g - 1], v);
      }
    }
  }

  /** Sorts entries first..last in place, rearranging the permutation array along with them. */
  method QuickSort(o: Order, first: nat, last: int, arr: array<Vertex>, permute: array?<int>)
    returns (ghost p: seq<int>)
    requires first <= last + 1 <= arr.Length && (permute != null ==> permute.Length == arr.Length)
    modifies arr, permute
    ensures Permutes(p, first, last) && Through(old(arr[..]), arr[..], p)
    ensures permute != null ==> Through(old(permute[..]), permute[..], p)
    ensures Sorted(o, arr[..], first, last)
    decreases last - first + 1, 2
  {
    ghost var a := arr[..];
    ghost var m := if permute != null then permute[..] else [];
    IdentityPermutes(a, first, last);
    IdentityPermutes(m, first, last);
    p := Identity(|a|);
    if last - first > QSORT_CROSSOVER {
      p := MedianToFront(o, first, last, arr, permute, a, m, p);
      var j;
      j, p := Partition(o, first, last, arr, permute, a, m, p);
      p := SortParts(o, first, last, j, arr, permute, a, m, p);
    } else {
      var j := first + 1;
      while j <= last
        invariant first < j && (j <= last + 1 || last < first)
        invariant Tracks(a, m, arr, permute, p, first, last) && Sorted(o, arr[..], first, j - 1)
      {
        p := Insert(o, first, last, j, arr, permute, a, m, p);
        j := j + 1;
      }
    }
  }

  /** Sorts one part, keeping track of the whole. */
  method SortPart(o: Order, first: nat, last: nat, lo: nat, hi: int, arr: array<Vertex>, permute: array?<int>,
                  ghost a: seq<Vertex>, ghost m: seq<int>, ghost p: seq<int>) returns (ghost q: seq<int>, ghost r: seq<int>)
    requires first <= lo <= hi + 1 && hi <= last < arr.Length && hi - lo < last - first
    requires permute != null ==> permute.Length == arr.Length
    requires Tracks(a, m, arr, permute, p, first, last)
    modifies arr, permute
    ensures Tracks(a, m, arr, permute, q, first, last) && Sorted(o, arr[..], lo, hi)
    ensures Permutes(r, lo, hi) && Through(old(arr[..]), arr[..], r)
    decreases last - first + 1, 0
  {
    ghost var b := arr[..];
    ghost var n := if permute != null then permute[..] else [];
    r := QuickSort(o, lo, hi, arr, permute);
    hide Permutes, Through, Sorted;
    q := TrackPart(a, m, b, n, arr, permute, p, r, first, last, lo, hi);
  }

  /** Sorts the parts on either side of the pivot. */
  method SortParts(o: Order, first: nat, last: nat, j: nat, arr: array<Vertex>, permute: array?<int>,
                   ghost a: seq<Vertex>, ghost m: seq<int>, ghost p: seq<int>) returns (ghost q: seq<int>)
    requires first <= j <= last < arr.Length && (permute != null ==> permute.Length == arr.Length)
    requires Tracks(a, m, arr, permute, p, first, last) && first < last
    requires AllAtMost(o, arr[..], first, j - 1, arr[j]) && AllAtLeast(o, arr[..], j + 1, last, arr[j])
    modifies arr, permute
    ensures Tracks(a, m, arr, permute, q, first, last) && Sorted(o, arr[..], first, last)
    decreases last - first + 1, 1
  {
    hide Tracks, Permutes, Through, Sorted, AllAtMost, AllAtLeast;
    ghost var b, left, right := arr[..], [], [];
    q, left := SortPart(o, first, last, first, j - 1, arr, permute, a, m, p);
    ghost var c := arr[..];
    q, right := SortPart(o, first, last, j + 1, last, arr, permute, a, m, q);
    PartsSorted(o, b, c, arr[..], left, right, first, j, last);
  }

  lemma PartsSorted(o: Order, b: seq<Vertex>, c: seq<Vertex>, d: seq<Vertex>, left: seq<int>, right: seq<int>,
                    first: nat, j: nat, last: nat)
    requires first <= j <= last < |b|
    requires AllAtMost(o, b, first, j - 1, b[j]) && AllAtLeast(o, b, j + 1, last, b[j])
    requires Permutes(left, first, j - 1) && Through(b, c, left) && Sorted(o, c, first, j - 1)
    requires Permutes(right, j + 1, last) && Through(c, d, right) && Sorted(o, d, j + 1, last)
    ensures Sorted(o, d, first, last)
  {
    assert |b| == |c| == |d|;
    hide Permutes, Through, Sorted, AllAtMost, AllAtLeast;
    BoundsKept(o, b, c, left, first, j - 1, b[j]);
    Untouched(o, b, c, left, first, j - 1, j, last, b[j]);
    BoundsKept(o, c, d, right, j + 1, last, b[j]);
    Untouched(o, c, d, right, j + 1, last, first, j - 1, b[j]);
    Untouched(o, c, d, right, j + 1, last, j, j, b[j]);
    JoinedSorted(o, d, first, j, last);
  }

  /** What is true of the entries lo..hi stays true while another range is permuted. */
  lemma Untouched(o: Order, b: seq<Vertex>, c: seq<Vertex>, p: seq<int>, lo': int, hi': int, lo: int, hi: int, v: Vertex)
    requires Permutes(p, lo', hi') && Through(b, c, p) && (hi < lo' || hi' < lo)
    ensures Sorted(o, b, lo, hi) ==> Sorted(o, c, lo, hi)
    ensures AllAtMost(o, b, lo, hi, v) ==> AllAtMost(o, c, lo, hi, v)
    ensures AllAtLeast(o, b, lo + 1, hi, v) ==> AllAtLeast(o, c, lo + 1, hi, v)
    ensures 0 <= lo <= hi && lo < |b| ==> c[lo] == b[lo]
  {
    hide Order.Less;
    assert forall k :: 0 <= k < |p| && lo <= k <= hi ==> p[k] == k;
  }

  /** Sorting a part composes with what was done before. */
  ghost method TrackPart(a: seq<Vertex>, m: seq<int>, b: seq<Vertex>, n: seq<int>, arr: array<Vertex>,
                         permute: array?<int>, p: seq<int>, r: seq<int>, lo: int, hi: int, lo': int, hi': int)
    returns (q: seq<int>)
    requires permute != null ==> permute.Length == arr.Length
    requires lo <= lo' && hi' <= hi && Permutes(p, lo, hi) && Permutes(r, lo', hi')
    requires Through(a, b, p) && Through(b, arr[..], r)
    requires permute != null ==> Through(m, n, p) && Through(n, permute[..], r)
    ensures Tracks(a, m, arr, permute, q, lo, hi)
  {
    q := Composed(p, r);
    ComposedPermutes(p, r, lo, hi, lo', hi');
    ComposedThrough(a, b, arr[..], p, r);
    if permute != null {
      ComposedThrough(m, n, permute[..], p, r);
    }
  }

  /** SortVertices and SortXYVertices: sorts the whole array and, when asked to,
      returns where each vertex came from. */
  method SortVertices(o: Order, vertices: array<Vertex>, returnPermute: bool)
    returns (permute: array?<int>, ghost p: seq<int>)
    modifies vertices
    ensures |p| == vertices.Length
    ensures Permutes(p, 0, |p| - 1) && Through(old(vertices[..]), vertices[..], p)
    ensures Sorted(o, vertices[..], 0, vertices.Length - 1)
    ensures if returnPermute then permute != null && fresh(permute) && permute[..] == p else permute == null
  {
    hide Permutes, Through, Sorted;
    permute := null;
    if returnPermute {
      permute := new int[vertices.Length];
      for i := 0 to vertices.Length
        invariant vertices[..] == old(vertices[..])
        invariant forall k :: 0 <= k < i ==> permute[k] == k
      {
        permute[i] := i;
      }
    }
    ghost var m := if permute != null then permute[..] else [];
    p := QuickSort(o, 0, vertices.Length - 1, vertices, permute);
    ThroughSizes(old(vertices[..]), vertices[..], p);
    if permute != null {
      ThroughIdentity(m, permute[..], p);
    }
  }

  lemma ThroughSizes<T>(a: seq<T>, r: seq<T>, p: seq<int>)
    requires Through(a, r, p)
    ensures |a| == |r| == |p|
  {
  }

  lemma ThroughIdentity(m: seq<int>, r: seq<int>, p: seq<int>)
    requires Through(m, r, p) && forall k :: 0 <= k < |m| ==> m[k] == k
    ensures r == p
  {
  }

  // ----- consequences for the sorted vertices -----

  function Values(p: seq<int>): set<int> {
    set i | 0 <= i < |p| :: p[i]
  }

  lemma {:induction false} ValuesCount(p: seq<int>)
    requires forall i, j :: 0 <= i < j < |p| ==> p[i] != p[j]
    ensures |Values(p)| == |p|
  {
    if p != [] {
      var m := |p| - 1;
      ValuesCount(p[..m]);
      assert Values(p) == Values(p[..m]) + {p[m]};
    }
  }

  function UpTo(n: nat): (r: set<int>)
    ensures |r| == n && forall k :: k in r <==> 0 <= k < n
  {
    if n == 0 then {} else UpTo(n - 1) + {n - 1}
  }

  /** A permutation reaches every place. */
  lemma PermutesOnto(p: seq<int>, lo: int, hi: int, k: nat)
    requires Permutes(p, lo, hi) && k < |p|
    ensures exists i :: 0 <= i < |p| && p[i] == k
  {
    ValuesCount(p);
    assert Values(p) <= UpTo(|p|);
    SubsetOfSameSize(Values(p), UpTo(|p|));
    assert k in UpTo(|p|);
  }

  lemma SubsetOfSameSize(a: set<int>, b: set<int>)
    requires a <= b && |a| == |b|
    ensures a == b
  {
    assert |b - a| == |b| - |a|;
    assert b == a + (b - a);
  }

  /** A permutation leaves the multiset of the entries as it was. */
  lemma {:induction false} SameMultiset<T>(a: seq<T>, b: seq<T>, p: seq<int>)
    requires Permutes(p, 0, |p| - 1) && Through(a, b, p)
    ensures multiset(b) == multiset(a)
  {
    if p == [] {
      assert a == b;
    } else {
      var m := |p| - 1;
      LastDropped(a, b, p);
      hide *;
      SameMultiset(Dropped(a, p[m]), b[..m], WithoutLast(p));
      MultisetDropped(a, p[m]);
      assert b == b[..m] + [a[p[m]]];
    }
  }

  function Dropped<T>(s: seq<T>, j: nat): (r: seq<T>)
    requires j < |s|
    ensures |r| == |s| - 1
  {
    s[..j] + s[j + 1..]
  }

  lemma MultisetDropped<T>(s: seq<T>, j: nat)
    requires j < |s|
    ensures multiset(s) == multiset(Dropped(s, j)) + multiset{s[j]}
  {
    assert s == s[..j] + ([s[j]] + s[j + 1..]);
  }

  /** The permutation without its last entry, places counted without that entry's place. */
  function WithoutLast(p: seq<int>): (q: seq<int>)
    requires p != []
    ensures |q| == |p| - 1
  {
    var m := |p| - 1;
    seq(m, i requires 0 <= i < m => if p[i] > p[m] then p[i] - 1 else p[i])
  }

  lemma LastDropped<T>(a: seq<T>, b: seq<T>, p: seq<int>)
    requires p != [] && Permutes(p, 0, |p| - 1) && Through(a, b, p)
    ensures var m, q := |p| - 1, WithoutLast(p);
            && |a| == |b| == |p| && 0 <= p[m] <= m && b[m] == a[p[m]]
            && Permutes(q, 0, |q| - 1) && Through(Dropped(a, p[m]), b[..m], q)
  {
    var m, q := |p| - 1, WithoutLast(p);
    forall i, j | 0 <= i < j < |q| ensures q[i] != q[j] {
      assert p[i] != p[m] && p[j] != p[m] && p[i] != p[j];
    }
    forall i | 0 <= i < |q| ensures 0 <= q[i] < m && Dropped(a, p[m])[q[i]] == a[p[i]] {
      assert p[i] != p[m];
    }
  }
}
