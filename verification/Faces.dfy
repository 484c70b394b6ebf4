/** bgmsfem2pfsol.c: the prisms of a finite element mesh are split into triangular faces,
    faces with the same vertices are paired as sisters, and the unpaired ones are the
    boundary of the domain. */
module Faces {

  datatype Tri = Tri(a: nat, b: nat, c: nat) {
    predicate On(v: nat) {
      v == a || v == b || v == c
    }

    predicate Proper() {
      a != b && b != c && c != a
    }
  }

  /** Every vertex of s is one of t. */
  predicate Like(s: Tri, t: Tri) {
    t.On(s.a) && t.On(s.b) && t.On(s.c)
  }

  lemma LikeIsEquivalence(s: Tri, t: Tri, r: Tri)
    requires s.Proper() && t.Proper() && r.Proper()
    ensures Like(s, s) && (Like(s, t) ==> Like(t, s)) && (Like(s, t) && Like(t, r) ==> Like(s, r))
    ensures Like(s, t) ==> forall v :: s.On(v) <==> t.On(v)
  {
  }

  ghost predicate AllProper(ts: seq<Tri>) {
    forall k :: 0 <= k < |ts| ==> ts[k].Proper()
  }

  // ----- sisters -----

  /** s is the first face other than k with the vertices of k, or -1 if there is none. */
  ghost predicate IsSister(ts: seq<Tri>, k: nat, s: int)
    requires k < |ts|
  {
    && -1 <= s < |ts| && s != k && (s != -1 ==> Like(ts[s], ts[k]))
    && (forall i :: 0 <= i < |ts| && i != k && (s == -1 || i < s) ==> !Like(ts[i], ts[k]))
  }

  ghost predicate Paired(ts: seq<Tri>, sisters: seq<int>) {
    |sisters| == |ts| && forall k :: 0 <= k < |ts| ==> IsSister(ts, k, sisters[k])
  }

  /** No three faces have the same vertices. */
  ghost predicate AtMostTwice(ts: seq<Tri>) {
    forall i, j, k :: 0 <= i < j < k < |ts| ==> !(Like(ts[i], ts[j]) && Like(ts[j], ts[k]))
  }

  ghost predicate Involution(sisters: seq<int>) {
    forall k :: 0 <= k < |sisters| && sisters[k] != -1 ==>
      0 <= sisters[k] < |sisters| && sisters[k] != k && sisters[sisters[k]] == k
  }

  /** Being sisters is mutual just when no three faces have the same vertices. */
  lemma InvolutionIffAtMostTwice(ts: seq<Tri>, sisters: seq<int>)
    requires AllProper(ts) && Paired(ts, sisters)
    ensures Involution(sisters) <==> AtMostTwice(ts)
  {
    if AtMostTwice(ts) {
      forall k | 0 <= k < |ts| && sisters[k] != -1 ensures sisters[sisters[k]] == k {
        MutualIfTwice(ts, sisters, k);
      }
    }
    forall i, j, k | 0 <= i < j < k < |ts| && Like(ts[i], ts[j]) && Like(ts[j], ts[k])
      ensures !Involution(sisters)
    {
      ThreeShareOne(ts, sisters, i, j, k);
      assert sisters[sisters[j]] != j || sisters[sisters[k]] != k;
    }
  }

  lemma MutualIfTwice(ts: seq<Tri>, sisters: seq<int>, k: nat)
    requires AllProper(ts) && Paired(ts, sisters) && AtMostTwice(ts) && k < |ts| && sisters[k] != -1
    ensures sisters[sisters[k]] == k
  {
    var i := sisters[k];
    assert IsSister(ts, k, i);
    LikeIsEquivalence(ts[i], ts[k], ts[k]);
    assert IsSister(ts, i, sisters[i]);
    var j := sisters[i];
    if j != k {
      LikeIsEquivalence(ts[j], ts[i], ts[k]);
    }
  }

  lemma ThreeShareOne(ts: seq<Tri>, sisters: seq<int>, i: nat, j: nat, k: nat)
    requires AllProper(ts) && Paired(ts, sisters) && i < j < k < |ts| && Like(ts[i], ts[j]) && Like(ts[j], ts[k])
    ensures 0 <= sisters[j] == sisters[k] < j
  {
    LikeIsEquivalence(ts[i], ts[j], ts[k]);
    assert IsSister(ts, j, sisters[j]) && IsSister(ts, k, sisters[k]);
    LikeIsEquivalence(ts[j], ts[k], ts[j]);
    if sisters[j] != -1 {
      LikeIsEquivalence(ts[sisters[j]], ts[j], ts[k]);
    }
    if sisters[k] != -1 {
      LikeIsEquivalence(ts[sisters[k]], ts[k], ts[j]);
    }
  }

  /** What adding a face does to the sisters: found is the first face like it, or -1. */
  function Recorded(sisters: seq<int>, found: int): (r: seq<int>)
    requires -1 <= found < |sisters|
    ensures |r| == |sisters| + 1
  {
    (if found != -1 && sisters[found] == -1 then sisters[found := |sisters|] else sisters) + [found]
  }

  ghost predicate FirstLike(ts: seq<Tri>, t: Tri, found: int) {
    && -1 <= found < |ts| && (found != -1 ==> Like(ts[found], t))
    && (forall i :: 0 <= i < |ts| && (found == -1 || i < found) ==> !Like(ts[i], t))
  }

  lemma RecordedPaired(ts: seq<Tri>, sisters: seq<int>, t: Tri, found: int)
    requires AllProper(ts) && t.Proper() && Paired(ts, sisters) && FirstLike(ts, t, found)
    ensures Paired(ts + [t], Recorded(sisters, found))
  {
    var us, r := ts + [t], Recorded(sisters, found);
    forall k | 0 <= k < |us| ensures IsSister(us, k, r[k]) {
      if k == |ts| {
      } else {
        OldFacePaired(ts, sisters, t, found, k);
      }
    }
  }

  lemma OldFacePaired(ts: seq<Tri>, sisters: seq<int>, t: Tri, found: int, k: nat)
    requires AllProper(ts) && t.Proper() && Paired(ts, sisters) && FirstLike(ts, t, found) && k < |ts|
    ensures IsSister(ts + [t], k, Recorded(sisters, found)[k])
  {
    assert IsSister(ts, k, sisters[k]);
    LikeIsEquivalence(t, ts[k], t);
    LikeIsEquivalence(ts[k], t, t);
    if found != -1 {
      assert IsSister(ts, found, sisters[found]);
      LikeIsEquivalence(ts[found], t, ts[k]);
      LikeIsEquivalence(ts[k], t, ts[found]);
    }
  }

  // ----- the mod 2 boundary -----

  function Side(u: nat, v: nat, a: nat, b: nat): nat {
    if (u == a && v == b) || (u == b && v == a) then 1 else 0
  }

  /** How many of the sides of t join a and b. */
  function Sides(t: Tri, a: nat, b: nat): nat {
    Side(t.a, t.b, a, b) + Side(t.b, t.c, a, b) + Side(t.c, t.a, a, b)
  }

  lemma LikeSides(s: Tri, t: Tri, a: nat, b: nat)
    requires s.Proper() && t.Proper() && Like(s, t)
    ensures Sides(s, a, b) == Sides(t, a, b)
  {
  }

  function AllSides(ts: seq<Tri>, a: nat, b: nat): nat {
    if ts == [] then 0 else AllSides(ts[..|ts| - 1], a, b) + Sides(ts[|ts| - 1], a, b)
  }

  lemma {:induction false} AllSidesConcat(ts: seq<Tri>, us: seq<Tri>, a: nat, b: nat)
    ensures AllSides(ts + us, a, b) == AllSides(ts, a, b) + AllSides(us, a, b)
  {
    if us == [] {
      assert ts + us == ts;
    } else {
      var m := |us| - 1;
      assert (ts + us)[..|ts| + m] == ts + us[..m];
      AllSidesConcat(ts, us[..m], a, b);
    }
  }

  /** The faces without a sister, in order. */
  function Unpaired(ts: seq<Tri>, sisters: seq<int>): seq<Tri>
    requires |ts| == |sisters|
  {
    if ts == [] then []
    else
      var m := |ts| - 1;
      Unpaired(ts[..m], sisters[..m]) + if sisters[m] == -1 then [ts[m]] else []
  }

  lemma {:induction false} UnpairedHas(ts: seq<Tri>, sisters: seq<int>, u: Tri)
    requires |ts| == |sisters|
    ensures u in Unpaired(ts, sisters) <==> exists k :: 0 <= k < |ts| && ts[k] == u && sisters[k] == -1
  {
    if ts != [] {
      var m := |ts| - 1;
      UnpairedHas(ts[..m], sisters[..m], u);
      if k :| 0 <= k < |ts| && ts[k] == u && sisters[k] == -1 {
        if k < m {
          assert ts[..m][k] == u && sisters[..m][k] == -1;
        }
      }
    }
  }

  /** No face but face k has its vertices. */
  ghost predicate Lone(ts: seq<Tri>, k: nat)
    requires k < |ts|
  {
    forall i :: 0 <= i < |ts| && i != k ==> !Like(ts[i], ts[k])
  }

  /** The unpaired faces are those whose vertices no other face has. */
  lemma UnpairedAreLone(ts: seq<Tri>, sisters: seq<int>, u: Tri)
    requires Paired(ts, sisters)
    ensures u in Unpaired(ts, sisters) <==> exists k :: 0 <= k < |ts| && ts[k] == u && Lone(ts, k)
  {
    hide Unpaired, Like;
    UnpairedHas(ts, sisters, u);
    forall k | 0 <= k < |ts| ensures sisters[k] == -1 <==> Lone(ts, k) {
      assert IsSister(ts, k, sisters[k]);
    }
  }

  /** Two faces with the same vertices both have a sister, each other if no third face has
      them too, and no face with these vertices is unpaired. */
  lemma AlikeArePaired(ts: seq<Tri>, sisters: seq<int>, k: nat, m: nat)
    requires AllProper(ts) && Paired(ts, sisters) && k < |ts| && m < |ts| && k != m && Like(ts[k], ts[m])
    ensures sisters[k] != -1 && sisters[m] != -1 && (AtMostTwice(ts) ==> sisters[k] == m && sisters[m] == k)
    ensures forall u :: u in Unpaired(ts, sisters) ==> !Like(u, ts[k])
  {
    hide Unpaired;
    LikeIsEquivalence(ts[k], ts[m], ts[k]);
    assert IsSister(ts, k, sisters[k]) && IsSister(ts, m, sisters[m]);
    if AtMostTwice(ts) {
      AlikeTwice(ts, sisters, k, m);
      AlikeTwice(ts, sisters, m, k);
    }
    forall u | u in Unpaired(ts, sisters) ensures !Like(u, ts[k]) {
      UnpairedAreLone(ts, sisters, u);
      var j :| 0 <= j < |ts| && ts[j] == u && Lone(ts, j);
      LikeIsEquivalence(u, ts[k], ts[m]);
      LikeIsEquivalence(ts[k], u, u);
      LikeIsEquivalence(ts[m], u, u);
    }
  }

  lemma AlikeTwice(ts: seq<Tri>, sisters: seq<int>, k: nat, m: nat)
    requires AllProper(ts) && Paired(ts, sisters) && k < |ts| && m < |ts| && k != m && Like(ts[m], ts[k]) && AtMostTwice(ts)
    ensures sisters[k] == m
  {
    var s := sisters[k];
    assert IsSister(ts, k, s);
    LikeIsEquivalence(ts[s], ts[k], ts[m]);
    LikeIsEquivalence(ts[m], ts[k], ts[s]);
    LikeIsEquivalence(ts[s], ts[k], ts[s]);
    LikeIsEquivalence(ts[k], ts[m], ts[s]);
  }

  /** The sisters as they were before the last face came. */
  function Before(sisters: seq<int>): (r: seq<int>)
    requires sisters != [] && -1 <= sisters[|sisters| - 1] < |sisters| - 1
    ensures |r| == |sisters| - 1
  {
    var m := |sisters| - 1;
    if sisters[m] == -1 then sisters[..m] else sisters[..m][sisters[m] := -1]
  }

  /** Taking the last face away leaves its sister, if any, unpaired. */
  lemma WithoutLast(ts: seq<Tri>, sisters: seq<int>)
    requires AllProper(ts) && Paired(ts, sisters) && AtMostTwice(ts) && ts != []
    ensures -1 <= sisters[|ts| - 1] < |ts| - 1
    ensures AllProper(ts[..|ts| - 1]) && AtMostTwice(ts[..|ts| - 1]) && Paired(ts[..|ts| - 1], Before(sisters))
  {
    var m := |ts| - 1;
    assert IsSister(ts, m, sisters[m]);
    forall k: nat | k < m ensures IsSister(ts[..m], k, Before(sisters)[k]) {
      BeforeIsSister(ts, sisters, m, k);
    }
    hide IsSister, Like;
  }

  lemma BeforeIsSister(ts: seq<Tri>, sisters: seq<int>, m: nat, k: nat)
    requires AllProper(ts) && Paired(ts, sisters) && AtMostTwice(ts) && k < m == |ts| - 1
    ensures -1 <= sisters[m] < m && IsSister(ts[..m], k, Before(sisters)[k])
  {
    assert IsSister(ts, m, sisters[m]) && IsSister(ts, k, sisters[k]);
    if sisters[k] == m {
      MutualIfTwice(ts, sisters, k);
    }
    if sisters[m] == k {
      MutualIfTwice(ts, sisters, m);
    }
    hide Like;
  }

  lemma AllSidesLast(ts: seq<Tri>, t: Tri, a: nat, b: nat)
    ensures AllSides(ts + [t], a, b) == AllSides(ts, a, b) + Sides(t, a, b)
  {
    assert (ts + [t])[..|ts|] == ts;
  }

  lemma UnpairedLast(ts: seq<Tri>, sisters: seq<int>, a: nat, b: nat)
    requires |ts| == |sisters| && ts != []
    ensures var m := |ts| - 1;
            AllSides(Unpaired(ts, sisters), a, b)
              == AllSides(Unpaired(ts[..m], sisters[..m]), a, b) + if sisters[m] == -1 then Sides(ts[m], a, b) else 0
  {
    var m := |ts| - 1;
    var rest := Unpaired(ts[..m], sisters[..m]);
    AllSidesLast(rest, ts[m], a, b);
    assert rest + [] == rest;
  }

  lemma {:induction false} UnpairedUpdate(ts: seq<Tri>, sisters: seq<int>, k: nat, s: int, a: nat, b: nat)
    requires |ts| == |sisters| && k < |ts| && sisters[k] == -1 && s != -1
    ensures AllSides(Unpaired(ts, sisters[k := s]), a, b) + Sides(ts[k], a, b) == AllSides(Unpaired(ts, sisters), a, b)
  {
    hide Unpaired, Sides, AllSides;
    var m := |ts| - 1;
    UnpairedLast(ts, sisters, a, b);
    UnpairedLast(ts, sisters[k := s], a, b);
    if k == m {
      assert sisters[k := s][..m] == sisters[..m];
    } else {
      assert sisters[k := s][..m] == sisters[..m][k := s];
      UnpairedUpdate(ts[..m], sisters[..m], k, s, a, b);
    }
  }

  predicate SameParity(x: nat, y: nat) {
    x % 2 == y % 2
  }

  lemma ParityStep(open: nat, now: nat, all: nat, w: nat)
    requires SameParity(open, all) && (now == open + w || now + w == open)
    ensures SameParity(now, all + w)
  {
  }

  /** Every edge lies in as many unpaired faces as it lies in faces, modulo 2. */
  lemma {:induction false} UnpairedParity(ts: seq<Tri>, sisters: seq<int>, a: nat, b: nat)
    requires AllProper(ts) && Paired(ts, sisters) && AtMostTwice(ts)
    ensures SameParity(AllSides(Unpaired(ts, sisters), a, b), AllSides(ts, a, b))
  {
    hide AllProper, IsSister, AtMostTwice, AllSides, SameParity;
    assert |ts| == |sisters|;
    if ts == [] {
      assert Unpaired(ts, sisters) == ts;
      assert SameParity(AllSides(ts, a, b), AllSides(ts, a, b)) by {
        ParityStep(AllSides(ts, a, b), AllSides(ts, a, b), AllSides(ts, a, b), 0);
      }
    } else {
      hide Unpaired, Paired;
      WithoutLast(ts, sisters);
      UnpairedParity(ts[..|ts| - 1], Before(sisters), a, b);
      ParityExtends(ts, sisters, a, b);
    }
  }

  lemma ParityExtends(ts: seq<Tri>, sisters: seq<int>, a: nat, b: nat)
    requires AllProper(ts) && Paired(ts, sisters) && AtMostTwice(ts) && ts != [] && |ts| == |sisters|
    requires -1 <= sisters[|ts| - 1] < |ts| - 1
    requires SameParity(AllSides(Unpaired(ts[..|ts| - 1], Before(sisters)), a, b), AllSides(ts[..|ts| - 1], a, b))
    ensures SameParity(AllSides(Unpaired(ts, sisters), a, b), AllSides(ts, a, b))
  {
    hide *;
    var m := |ts| - 1;
    assert ts[..m] + [ts[m]] == ts;
    AllSidesLast(ts[..m], ts[m], a, b);
    if sisters[m] != -1 {
      UnpairedTwin(ts, sisters, a, b);
    } else {
      UnpairedLone(ts, sisters, a, b);
    }
    ParityStep(AllSides(Unpaired(ts[..m], Before(sisters)), a, b), AllSides(Unpaired(ts, sisters), a, b),
               AllSides(ts[..m], a, b), Sides(ts[m], a, b));
  }

  lemma UnpairedLone(ts: seq<Tri>, sisters: seq<int>, a: nat, b: nat)
    requires |ts| == |sisters| && ts != [] && sisters[|ts| - 1] == -1
    ensures var m := |ts| - 1;
            AllSides(Unpaired(ts, sisters), a, b)
              == AllSides(Unpaired(ts[..m], Before(sisters)), a, b) + Sides(ts[m], a, b)
  {
    assert Before(sisters) == sisters[..|ts| - 1];
    hide *;
    UnpairedLast(ts, sisters, a, b);
  }

  lemma SistersAlike(ts: seq<Tri>, sisters: seq<int>, k: nat, a: nat, b: nat)
    requires AllProper(ts) && Paired(ts, sisters) && k < |ts| && sisters[k] != -1
    ensures 0 <= sisters[k] < |ts| && Sides(ts[sisters[k]], a, b) == Sides(ts[k], a, b)
  {
    var f := sisters[k];
    assert IsSister(ts, k, f);
    assert ts[f].Proper() && ts[k].Proper() && Like(ts[f], ts[k]);
    hide *;
    LikeSides(ts[f], ts[k], a, b);
  }

  /** A second face takes the first one out of the unpaired ones. */
  lemma UnpairedTwin(ts: seq<Tri>, sisters: seq<int>, a: nat, b: nat)
    requires AllProper(ts) && Paired(ts, sisters) && AtMostTwice(ts) && ts != [] && |ts| == |sisters|
    requires 0 <= sisters[|ts| - 1] < |ts| - 1
    ensures var m := |ts| - 1;
            AllSides(Unpaired(ts, sisters), a, b) + Sides(ts[m], a, b)
              == AllSides(Unpaired(ts[..m], Before(sisters)), a, b)
  {
    hide *;
    var m := |ts| - 1;
    var f := sisters[m];
    var us, before, w := ts[..m], Before(sisters), Sides(ts[m], a, b);
    SistersAlike(ts, sisters, m, a, b);
    MutualIfTwice(ts, sisters, m);
    Restored(sisters, f, m);
    var now := AllSides(Unpaired(us, before[f := m]), a, b);
    assert us[f] == ts[f];
    assert now + w == AllSides(Unpaired(us, before), a, b) by {
      UnpairedUpdate(us, before, f, m, a, b);
    }
    assert AllSides(Unpaired(ts, sisters), a, b) == now by {
      UnpairedLast(ts, sisters, a, b);
    }
  }

  lemma Restored(sisters: seq<int>, f: nat, m: nat)
    requires |sisters| == m + 1 && f < m && sisters[m] == f && sisters[f] == m
    ensures Before(sisters)[f] == -1 && Before(sisters)[f := m] == sisters[..m]
  {
  }
}
