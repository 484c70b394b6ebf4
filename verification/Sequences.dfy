/** Sequences, shared by the models. */
module Sequences {

  ghost predicate Increasing(s: seq<nat>) {
    forall i, j :: 0 <= i < j < |s| ==> s[i] < s[j]
  }

  function Swapped<T>(s: seq<T>, i: nat, j: nat): (r: seq<T>)
    requires i < |s| && j < |s|
    ensures |r| == |s|
  {
    s[i := s[j]][j := s[i]]
  }

  /** The entries are the things wanted, each once. */
  ghost predicate Lists<T(!new)>(s: seq<T>, wanted: T -> bool) {
    (forall a, b :: 0 <= a < b < |s| ==> s[a] != s[b]) && forall x :: x in s <==> wanted(x)
  }

  lemma ListsJoin<T(!new)>(s: seq<T>, t: seq<T>, v: T -> bool, w: T -> bool, both: T -> bool)
    requires Lists(s, v) && Lists(t, w)
    requires forall x :: !(v(x) && w(x)) && (both(x) <==> v(x) || w(x))
    ensures Lists(s + t, both)
  {
    forall x ensures x in s + t <==> both(x) {
      assert x in s + t <==> x in s || x in t;
    }
    forall a, b | 0 <= a < b < |s + t| ensures (s + t)[a] != (s + t)[b] {
      if a < |s| <= b {
        assert s[a] in s && t[b - |s|] in t;
      }
    }
  }

  lemma ListsNone<T(!new)>(wanted: T -> bool)
    requires forall x :: !wanted(x)
    ensures Lists([], wanted)
  {
  }
}
