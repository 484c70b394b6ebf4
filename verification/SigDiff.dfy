/** diff.c: comparing two databoxes to a number of significant digits. */
module SigDiff {
  import opened Databoxes
  import opened Reals

  function Larger(x: real, y: real): real {
    if x > y then x else y
  }

  function Pow10(n: nat): (p: real)
    ensures p >= 1.0
  {
    if n == 0 then 1.0 else 10.0 * Pow10(n - 1)
  }

  /** These are the powers of ten. */
  lemma {:induction false} PowersAdd(m: nat, n: nat)
    ensures Pow10(1) == 10.0 && Pow10(m + n) == Pow10(m) * Pow10(n)
  {
    assert Pow10(0) == 1.0;
    if n > 0 {
      PowersAdd(m, n - 1);
      assert Pow10(m + n) == 10.0 * (Pow10(m) * Pow10(n - 1));
    }
  }

  function Magnitude(x: real, y: real): (r: real)
    ensures r >= 0.0
  {
    Larger(Abs(x), Abs(y))
  }

  /** Two values of this magnitude are compared.  When absolute zero is negative, two zeros
      have a quotient 0/0, which exceeds nothing, as if they were not compared. */
  predicate Compared(magnitude: real, zero: real) {
    magnitude > zero && magnitude > 0.0
  }

  /** The relative difference of two values, zero if they are not compared. */
  function Relative(x: real, y: real, zero: real): (r: real)
    ensures r >= 0.0
  {
    var larger := Magnitude(x, y);
    if Compared(larger, zero) then (NonNegativeRatio(Abs(x - y), larger); Abs(x - y) / larger) else 0.0
  }

  lemma NonNegativeRatio(a: real, b: real)
    requires a >= 0.0 && b > 0.0
    ensures a / b >= 0.0
  {
  }

  /** The relative difference up to which values are taken to agree. */
  function Threshold(m: int): (r: real)
    ensures r >= 0.0
  {
    if m >= 0 then (NonNegativeRatio(0.5, Pow10(m)); 0.5 / Pow10(m)) else 0.0
  }

  /** a is no larger than b in absolute value. */
  predicate NoLarger(a: real, b: real) {
    -b <= a <= b || b <= a <= -b
  }

  /** The difference of two values times 2 * 10^m. */
  function Gap(x: real, y: real, m: nat): real {
    2.0 * Pow10(m) * (x - y)
  }

  /** What it is for two values to agree to m digits: neither exceeds absolute zero; or they are
      equal; or, for m >= 0, their difference times 2 * 10^m is no larger than one of them. */
  predicate Agrees(x: real, y: real, zero: real, m: int) {
    var w := if zero > 0.0 then zero else 0.0;
    || (NoLarger(x, w) && NoLarger(y, w))
    || (if m < 0 then x == y else NoLarger(Gap(x, y, m), x) || NoLarger(Gap(x, y, m), y))
  }

  /** That is what comparing the relative difference with the threshold decides. */
  lemma AgreesIff(x: real, y: real, zero: real, m: int)
    ensures Relative(x, y, zero) <= Threshold(m) <==> Agrees(x, y, zero, m)
  {
    ComparedIff(x, y, zero);
    ThresholdPositive(m);
    if Compared(Magnitude(x, y), zero) {
      if m >= 0 {
        RelativeGap(x, y, zero, m);
        AbsAtMost(Gap(x, y, m), x, y);
      } else {
        RelativeZero(x, y, zero, m);
      }
    } else {
      RelativeUncompared(x, y, zero);
    }
  }

  lemma ThresholdPositive(m: int)
    ensures Threshold(m) >= 0.0
  {
  }

  lemma RelativeUncompared(x: real, y: real, zero: real)
    requires !Compared(Magnitude(x, y), zero)
    ensures Relative(x, y, zero) == 0.0
  {
  }

  lemma RelativeZero(x: real, y: real, zero: real, m: int)
    requires Compared(Magnitude(x, y), zero) && m < 0
    ensures Relative(x, y, zero) <= Threshold(m) <==> x == y
  {
    QuotientOrder(Abs(x - y), Magnitude(x, y), 0.0);
    TimesZero(Magnitude(x, y));
    hide Magnitude, Times;
  }

  lemma RelativeGap(x: real, y: real, zero: real, m: nat)
    requires Compared(Magnitude(x, y), zero)
    ensures Relative(x, y, zero) <= Threshold(m) <==> Abs(Gap(x, y, m)) <= Magnitude(x, y)
  {
    hide *;
    RelativeIs(x, y, zero, m);
    CrossMultiplied(x - y, Magnitude(x, y), Pow10(m));
  }

  lemma RelativeIs(x: real, y: real, zero: real, m: nat)
    requires Compared(Magnitude(x, y), zero)
    ensures Magnitude(x, y) > 0.0 && Relative(x, y, zero) == Ratio(Abs(x - y), Magnitude(x, y))
    ensures Threshold(m) == Ratio(0.5, Pow10(m)) && Gap(x, y, m) == Twice(Pow10(m), x - y)
  {
  }

  function Ratio(a: real, b: real): real
    requires b > 0.0
  {
    a / b
  }

  function Twice(p: real, d: real): real {
    2.0 * p * d
  }

  /** Values are compared unless neither exceeds absolute zero. */
  lemma ComparedIff(x: real, y: real, zero: real)
    ensures var w := if zero > 0.0 then zero else 0.0;
            Compared(Magnitude(x, y), zero) <==> !(NoLarger(x, w) && NoLarger(y, w))
  {
  }

  lemma AbsAtMost(e: real, x: real, y: real)
    ensures Abs(e) <= Magnitude(x, y) <==> NoLarger(e, x) || NoLarger(e, y)
  {
  }

  lemma CrossMultiplied(d: real, b: real, p: real)
    requires b > 0.0 && p >= 1.0
    ensures Ratio(Abs(d), b) <= Ratio(0.5, p) <==> Abs(Twice(p, d)) <= b
  {
    ScaledAbs(2.0 * p, d);
    hide Abs;
    QuotientsOrder(Abs(d), b, p);
  }

  lemma QuotientsOrder(a: real, b: real, p: real)
    requires b > 0.0 && p >= 1.0
    ensures a / b <= 0.5 / p <==> 2.0 * p * a <= b
  {
    QuotientOrder(a, b, 0.5 / p);
    QuotientOrder(0.5 * b, p, a);
    assert Times(0.5 / p, b) == 0.5 * b / p;
    assert Times(a, p) <= 0.5 * b <==> 2.0 * p * a <= b;
  }

  lemma ScaledAbs(c: real, d: real)
    requires c > 0.0
    ensures c * Abs(d) == Abs(c * d)
  {
    if d > 0.0 {
      assert c * d > 0.0;
    } else if d < 0.0 {
      assert c * -d > 0.0;
      assert c * -d == -(c * d);
    }
  }

  /** Two lists of values agree to m significant digits. */
  ghost predicate AllAgree(v1: seq<real>, v2: seq<real>, zero: real, m: int)
    requires |v1| == |v2|
  {
    forall t :: 0 <= t < |v1| ==> Agrees(v1[t], v2[t], zero, m)
  }

  lemma AllAgreeIff(v1: seq<real>, v2: seq<real>, zero: real, m: int)
    requires |v1| == |v2|
    ensures AllAgree(v1, v2, zero, m) <==> forall t :: 0 <= t < |v1| ==> Relative(v1[t], v2[t], zero) <= Threshold(m)
  {
    hide Agrees, Relative, Threshold;
    forall t | 0 <= t < |v1| ensures Agrees(v1[t], v2[t], zero, m) <==> Relative(v1[t], v2[t], zero) <= Threshold(m) {
      AgreesIff(v1[t], v2[t], zero, m);
    }
  }

  // ----- the search -----

  datatype Line = Line(i: int, j: int, k: int, adiff: real, x: real, y: real)

  datatype Scan = Scan(everywhere: bool, sdiff: real, adiff: real, i: int, j: int, k: int, largest: real, lines: seq<Line>)

  /** The places before n whose values do not agree, in order. */
  function Differing(v1: seq<real>, v2: seq<real>, zero: real, m: int, n: nat): seq<nat>
    requires |v1| == |v2| && n <= |v1|
  {
    if n == 0 then []
    else
      Differing(v1, v2, zero, m, n - 1)
        + if Agrees(v1[n - 1], v2[n - 1], zero, m) then [] else [n - 1]
  }

  /** The lines describe the places. */
  ghost predicate Describes(d: Dims, v1: seq<real>, v2: seq<real>, lines: seq<Line>, places: seq<nat>) {
    && |v1| == |v2| && |lines| == |places|
    && forall x :: 0 <= x < |lines| ==>
         && d.Has(lines[x].i, lines[x].j, lines[x].k) && places[x] < |v1|
         && d.Index(lines[x].i, lines[x].j, lines[x].k) == places[x]
         && lines[x].x == v1[places[x]] && lines[x].y == v2[places[x]] && lines[x].adiff == Abs(lines[x].x - lines[x].y)
  }

  /** What is known after the first n cells: whether all agree; if not, the first place where
      the relative difference is largest, and the absolute difference there; and the largest
      absolute difference of all. */
  ghost predicate Scanned(d: Dims, v1: seq<real>, v2: seq<real>, zero: real, m: int, s: Scan, n: nat) {
    && n <= |v1| == |v2|
    && (s.everywhere <==> forall t :: 0 <= t < n ==> Relative(v1[t], v2[t], zero) <= Threshold(m))
    && (s.everywhere ==> s.sdiff == 0.0)
    && (!s.everywhere ==> d.Has(s.i, s.j, s.k) && Peak(v1, v2, zero, d.Index(s.i, s.j, s.k), s.sdiff, s.adiff, n))
    && IsLargest(v1, v2, n, s.largest)
  }

  /** The largest absolute difference among the first n values, zero if there are none. */
  ghost predicate IsLargest(v1: seq<real>, v2: seq<real>, n: nat, largest: real)
    requires n <= |v1| == |v2|
  {
    && (forall t :: 0 <= t < n ==> Abs(v1[t] - v2[t]) <= largest)
    && (if n == 0 then largest == 0.0 else exists t :: 0 <= t < n && Abs(v1[t] - v2[t]) == largest)
  }

  /** Place b is the first of the first n where the relative difference is largest. */
  ghost predicate Peak(v1: seq<real>, v2: seq<real>, zero: real, b: int, sdiff: real, adiff: real, n: nat)
    requires n <= |v1| == |v2|
  {
    && 0 <= b < n && sdiff == Relative(v1[b], v2[b], zero) && sdiff > 0.0 && adiff == Abs(v1[b] - v2[b])
    && (forall t :: 0 <= t < n ==> Relative(v1[t], v2[t], zero) <= sdiff)
    && (forall t :: 0 <= t < b ==> Relative(v1[t], v2[t], zero) < sdiff)
  }

  /** One cell of the search. */
  method ScanCell(s: Scan, x: real, y: real, i: int, j: int, k: int, rhs: real, zero: real, m: int) returns (r: Scan)
    ensures r == Next(s, x, y, i, j, k, rhs, zero, m)
  {
    r := s;
    var adiff := Abs(x - y);
    var amax := Larger(Abs(x), Abs(y));
    if r.largest < adiff {
      r := r.(largest := adiff);
    }
    if amax > zero && amax > 0.0 {
      var sdiff := adiff / amax;
      if sdiff > rhs {
        if m >= 0 {
          r := r.(lines := r.lines + [Line(i, j, k, adiff, x, y)]);
        }
        if sdiff > r.sdiff {
          r := r.(sdiff := sdiff, adiff := adiff, i := i, j := j, k := k);
        }
        r := r.(everywhere := false);
      }
    }
  }

  function Next(s: Scan, x: real, y: real, i: int, j: int, k: int, rhs: real, zero: real, m: int): Scan
  {
    var adiff, sdiff := Abs(x - y), Relative(x, y, zero);
    var t := s.(largest := Larger(adiff, s.largest));
    if Compared(Magnitude(x, y), zero) && sdiff > rhs then
      var u := if sdiff > s.sdiff then t.(sdiff := sdiff, adiff := adiff, i := i, j := j, k := k) else t;
      u.(everywhere := false, lines := if m >= 0 then s.lines + [Line(i, j, k, adiff, x, y)] else s.lines)
    else t
  }

  lemma NextLargest(v1: seq<real>, v2: seq<real>, n: nat, largest: real)
    requires n < |v1| == |v2| && IsLargest(v1, v2, n, largest)
    ensures IsLargest(v1, v2, n + 1, Larger(Abs(v1[n] - v2[n]), largest))
  {
    hide Abs;
    if n > 0 {
      var t :| 0 <= t < n && Abs(v1[t] - v2[t]) == largest;
      assert t < n + 1;
    } else {
      AbsNonNegative(v1[n] - v2[n]);
    }
  }

  lemma AbsNonNegative(x: real)
    ensures Abs(x) >= 0.0
  {
  }

  lemma NextScanned(d: Dims, v1: seq<real>, v2: seq<real>, zero: real, m: int, s: Scan, i: nat, j: nat, k: nat)
    requires d.Has(i, j, k) && |v1| == d.Volume() && |v1| == |v2|
    requires Scanned(d, v1, v2, zero, m, s, d.Index(i, j, k))
    ensures var n := d.Index(i, j, k);
            && n < |v1|
            && Scanned(d, v1, v2, zero, m, Next(s, v1[n], v2[n], i, j, k, Threshold(m), zero, m), n + 1)
  {
    IndexInVolume(d, i, j, k);
    var n := d.Index(i, j, k);
    NextLargest(v1, v2, n, s.largest);
    NextPeak(v1, v2, zero, m, n);
    hide Dims.Index, Dims.Volume, Threshold, Relative, Abs, IsLargest, Larger, Magnitude, Compared, Peak;
    if !s.everywhere {
      PeakExtends(v1, v2, zero, d.Index(s.i, s.j, s.k), s.sdiff, s.adiff, n);
    } else if Relative(v1[n], v2[n], zero) > Threshold(m) {
      FirstPeak(v1, v2, zero, m, n);
    }
  }

  /** Only values that are compared can disagree. */
  lemma NextPeak(v1: seq<real>, v2: seq<real>, zero: real, m: int, n: nat)
    requires n < |v1| == |v2|
    ensures Relative(v1[n], v2[n], zero) > Threshold(m) ==> Compared(Magnitude(v1[n], v2[n]), zero)
    ensures Threshold(m) >= 0.0
  {
  }

  lemma PeakExtends(v1: seq<real>, v2: seq<real>, zero: real, b: int, sdiff: real, adiff: real, n: nat)
    requires n < |v1| == |v2| && Peak(v1, v2, zero, b, sdiff, adiff, n)
    ensures sdiff > 0.0
    ensures Relative(v1[n], v2[n], zero) <= sdiff ==> Peak(v1, v2, zero, b, sdiff, adiff, n + 1)
    ensures Relative(v1[n], v2[n], zero) > sdiff
            ==> Peak(v1, v2, zero, n, Relative(v1[n], v2[n], zero), Abs(v1[n] - v2[n]), n + 1)
  {
    hide Relative, Abs;
  }

  /** The first cell that disagrees tops those before it. */
  lemma FirstPeak(v1: seq<real>, v2: seq<real>, zero: real, m: int, n: nat)
    requires n < |v1| == |v2| && Relative(v1[n], v2[n], zero) > Threshold(m)
    requires forall t :: 0 <= t < n ==> Relative(v1[t], v2[t], zero) <= Threshold(m)
    ensures Peak(v1, v2, zero, n, Relative(v1[n], v2[n], zero), Abs(v1[n] - v2[n]), n + 1)
  {
    hide Relative, Abs, Threshold;
  }

  lemma NextDescribes(d: Dims, v1: seq<real>, v2: seq<real>, zero: real, m: int, s: Scan, i: nat, j: nat, k: nat)
    requires d.Has(i, j, k) && |v1| == |v2| == d.Volume() && m >= 0 && d.Index(i, j, k) < |v1|
    requires Describes(d, v1, v2, s.lines, Differing(v1, v2, zero, m, d.Index(i, j, k)))
    ensures var n := d.Index(i, j, k);
            Describes(d, v1, v2, Next(s, v1[n], v2[n], i, j, k, Threshold(m), zero, m).lines,
                      Differing(v1, v2, zero, m, n + 1))
  {
    AgreesIff(v1[d.Index(i, j, k)], v2[d.Index(i, j, k)], zero, m);
    hide Dims.Index, Dims.Volume, Threshold, Agrees;
  }

  /** The whole search: the values are visited in the order they are stored. */
  method ScanBox(d: Dims, v1: array<real>, v2: array<real>, m: int, zero: real) returns (s: Scan)
    requires v1.Length == v2.Length == d.Volume()
    ensures Scanned(d, v1[..], v2[..], zero, m, s, d.Volume())
    ensures if m >= 0 then Describes(d, v1[..], v2[..], s.lines, Differing(v1[..], v2[..], zero, m, d.Volume()))
            else s.lines == []
  {
    var rhs := if m >= 0 then 0.5 / Pow10(m) else 0.0;
    assert rhs == Threshold(m);
    ghost var u1, u2 := v1[..], v2[..];
    s := Scan(true, 0.0, 0.0, 0, 0, 0, 0.0, []);
    FillCounts(d, 0, 0, 0);
    var p := 0;
    assert Searched(d, u1, u2, zero, m, s, 0);
    hide *;
    for k := 0 to d.nz
      invariant p == d.Index(0, 0, k) && Searched(d, u1, u2, zero, m, s, p)
    {
      for j := 0 to d.ny
        invariant p == d.Index(0, j, k) && Searched(d, u1, u2, zero, m, s, p)
      {
        for i := 0 to d.nx
          invariant p == d.Index(i, j, k) && Searched(d, u1, u2, zero, m, s, p)
        {
          CellInside(d, i, j, k);
          NextSearched(d, u1, u2, zero, m, s, i, j, k);
          FillCounts(d, i, j, k);
          s := ScanCell(s, v1[p], v2[p], i, j, k, rhs, zero, m);
          p := p + 1;
        }
        FillCounts(d, d.nx, j, k);
      }
      FillCounts(d, 0, d.ny, k);
    }
    FillCounts(d, 0, 0, d.nz);
    SearchedAll(d, u1, u2, zero, m, s, p);
  }

  ghost predicate Searched(d: Dims, v1: seq<real>, v2: seq<real>, zero: real, m: int, s: Scan, n: nat) {
    && Scanned(d, v1, v2, zero, m, s, n)
    && if m >= 0 then Describes(d, v1, v2, s.lines, Differing(v1, v2, zero, m, n)) else s.lines == []
  }

  lemma SearchedAll(d: Dims, v1: seq<real>, v2: seq<real>, zero: real, m: int, s: Scan, n: nat)
    requires Searched(d, v1, v2, zero, m, s, n)
    ensures Scanned(d, v1, v2, zero, m, s, n) && |v1| == |v2| && n <= |v1|
    ensures if m >= 0 then Describes(d, v1, v2, s.lines, Differing(v1, v2, zero, m, n)) else s.lines == []
  {
  }

  lemma NextSearched(d: Dims, v1: seq<real>, v2: seq<real>, zero: real, m: int, s: Scan, i: nat, j: nat, k: nat)
    requires d.Has(i, j, k) && |v1| == |v2| == d.Volume()
    requires Searched(d, v1, v2, zero, m, s, d.Index(i, j, k))
    ensures var n := d.Index(i, j, k);
            && n < |v1|
            && Searched(d, v1, v2, zero, m, Next(s, v1[n], v2[n], i, j, k, Threshold(m), zero, m), n + 1)
  {
    NextScanned(d, v1, v2, zero, m, s, i, j, k);
    if m >= 0 {
      NextDescribes(d, v1, v2, zero, m, s, i, j, k);
    }
    hide Scanned, Describes, Differing, Threshold, Relative, Dims.Index, Dims.Volume;
  }

  // ----- counting digits -----

  /** x multiplied by ten n times; x added up n times. */
  function Scaled(x: real, n: nat): real {
    if n == 0 then x else 10.0 * Scaled(x, n - 1)
  }

  function Multiple(x: real, n: nat): real {
    if n == 0 then 0.0 else Multiple(x, n - 1) + x
  }

  lemma {:induction false} ScaledBeatsMultiple(x: real, n: nat)
    requires x > 0.0
    ensures Scaled(x, n) >= x && Scaled(x, n) >= Multiple(x, n)
  {
    if n > 0 {
      ScaledBeatsMultiple(x, n - 1);
    }
  }

  lemma {:induction false} MultipleIsProduct(x: real, n: nat)
    ensures Multiple(x, n) == n as real * x
  {
    if n > 0 {
      MultipleIsProduct(x, n - 1);
    }
  }

  lemma {:induction false} ScaledIncreases(x: real, n: nat, m: nat)
    requires x > 0.0 && n <= m
    ensures 0.0 < Scaled(x, n) <= Scaled(x, m)
  {
    if n < m {
      ScaledIncreases(x, n, m - 1);
    } else {
      ScaledBeatsMultiple(x, n);
    }
  }

  lemma AboveQuotient(a: real, x: real, n: real)
    requires x > 0.0 && n > a / x
    ensures n * x > a
  {
    assert (n - a / x) * x > 0.0;
    assert a / x * x == a;
  }

  /** Every positive number gets above 0.05 when it is multiplied by ten often enough. */
  lemma Archimedes(x: real) returns (n: nat)
    requires x > 0.0
    ensures Scaled(x, n) > 0.05
  {
    hide *;
    var q := 0.05 / x;
    NonNegativeRatio(0.05, x);
    n := q.Floor + 1;
    AboveQuotient(0.05, x, n as real);
    MultipleIsProduct(x, n);
    ScaledBeatsMultiple(x, n);
  }

  /** The number of digits n: the difference scaled n times is the first above 0.05. */
  method CountDigits(largest: real) returns (digits: nat)
    requires largest > 0.0
    ensures Scaled(largest, digits) > 0.05
    ensures digits > 0 ==> Scaled(largest, digits - 1) <= 0.05
  {
    ghost var enough := Archimedes(largest);
    digits := 0;
    var sdiff := largest;
    while sdiff <= 0.05
      invariant sdiff == Scaled(largest, digits)
      invariant digits > 0 ==> Scaled(largest, digits - 1) <= 0.05
      decreases enough - digits
    {
      if digits >= enough {
        ScaledIncreases(largest, enough, digits);
      }
      sdiff := sdiff * 10.0;
      digits := digits + 1;
    }
  }

  lemma TenthOver(c: real, p: real)
    requires p >= 1.0
    ensures c / 10.0 / p == c / (10.0 * p)
  {
  }

  lemma {:induction false} ScaledAtMost(x: real, n: nat, c: real)
    ensures Scaled(x, n) <= c <==> x <= c / Pow10(n)
  {
    if n > 0 {
      ScaledAtMost(x, n - 1, c / 10.0);
      TenthOver(c, Pow10(n - 1));
    }
  }

  /** For q >= 1, being within 0.5 * 10^-q is being at most 0.05 when scaled q - 1 times. */
  lemma ThresholdScaled(x: real, q: nat)
    requires q >= 1
    ensures x <= Threshold(q) <==> Scaled(x, q - 1) <= 0.05
  {
    ScaledAtMost(x, q - 1, 0.05);
    TenthOver(0.5, Pow10(q - 1));
  }

  /** The number of digits is the largest q >= 1 up to which the difference is within
      0.5 * 10^-q, or zero if there is none. */
  lemma DigitsAreMost(x: real, digits: nat, q: nat)
    requires x > 0.0 && Scaled(x, digits) > 0.05 && (digits > 0 ==> Scaled(x, digits - 1) <= 0.05) && q >= 1
    ensures x <= Threshold(q) <==> q <= digits
  {
    hide *;
    ThresholdScaled(x, q);
    if q <= digits {
      ScaledIncreases(x, q - 1, digits - 1);
    } else {
      ScaledIncreases(x, digits, q - 1);
    }
  }

  // ----- the programs -----

  /** What is reported: nothing when the boxes agree, else a cell, the number of digits that
      agree there, and an absolute difference. */
  datatype Report = Agree | Differ(i: int, j: int, k: int, digits: nat, maxAdiff: real)

  /** The digits reported: the boxes agree to q >= 1 digits just when q is at most that. */
  ghost predicate CountsDigits(v1: seq<real>, v2: seq<real>, zero: real, digits: nat)
    requires |v1| == |v2|
  {
    forall q: nat :: q >= 1 ==> (AllAgree(v1, v2, zero, q) <==> q <= digits)
  }

  lemma PeakCounts(v1: seq<real>, v2: seq<real>, zero: real, b: int, sdiff: real, adiff: real, digits: nat)
    requires |v1| == |v2| && Peak(v1, v2, zero, b, sdiff, adiff, |v1|)
    requires Scaled(sdiff, digits) > 0.05 && (digits > 0 ==> Scaled(sdiff, digits - 1) <= 0.05)
    ensures CountsDigits(v1, v2, zero, digits)
  {
    hide Relative, Threshold, Pow10, AllAgree;
    forall q: nat | q >= 1 ensures AllAgree(v1, v2, zero, q) <==> q <= digits {
      DigitsAreMost(sdiff, digits, q);
      AllAgreeIff(v1, v2, zero, q);
    }
  }

  /** The cell reported is the first at which the relative difference is largest. */
  ghost predicate AtPeak(d: Dims, v1: seq<real>, v2: seq<real>, zero: real, r: Report)
    requires r.Differ? && |v1| == |v2| == d.Volume()
  {
    && d.Has(r.i, r.j, r.k) && d.Index(r.i, r.j, r.k) < |v1|
    && var b := d.Index(r.i, r.j, r.k);
    && (forall t :: 0 <= t < |v1| ==> Relative(v1[t], v2[t], zero) <= Relative(v1[b], v2[b], zero))
    && (forall t :: 0 <= t < b ==> Relative(v1[t], v2[t], zero) < Relative(v1[b], v2[b], zero))
  }

  /** What SigDiff prints: nothing when the boxes agree to m digits; else the cell, the digits,
      and as the maximum absolute difference the one at that cell. */
  ghost predicate Prints(d: Dims, v1: seq<real>, v2: seq<real>, zero: real, m: int, r: Report)
    requires |v1| == |v2| == d.Volume()
  {
    && (r.Agree? <==> AllAgree(v1, v2, zero, m))
    && (r.Differ? ==> && AtPeak(d, v1, v2, zero, r) && CountsDigits(v1, v2, zero, r.digits)
                      && r.maxAdiff == Abs(v1[d.Index(r.i, r.j, r.k)] - v2[d.Index(r.i, r.j, r.k)]))
  }

  /** What the finished search says of the report. */
  lemma Reported(d: Dims, v1: seq<real>, v2: seq<real>, zero: real, m: int, s: Scan, digits: nat, maxAdiff: real)
    requires |v1| == |v2| == d.Volume() && Scanned(d, v1, v2, zero, m, s, d.Volume())
    ensures s.everywhere <==> AllAgree(v1, v2, zero, m)
    ensures IsLargest(v1, v2, d.Volume(), s.largest)
    ensures !s.everywhere ==> s.sdiff > 0.0 && s.i >= 0 && s.j >= 0 && s.k >= 0
    ensures !s.everywhere && Scaled(s.sdiff, digits) > 0.05 && (digits > 0 ==> Scaled(s.sdiff, digits - 1) <= 0.05)
      ==> var r := Differ(s.i, s.j, s.k, digits, maxAdiff);
          && AtPeak(d, v1, v2, zero, r) && CountsDigits(v1, v2, zero, digits)
          && s.adiff == Abs(v1[d.Index(s.i, s.j, s.k)] - v2[d.Index(s.i, s.j, s.k)])
  {
    AllAgreeIff(v1, v2, zero, m);
    hide Relative, Threshold, Dims.Index, Dims.Volume, Abs, Pow10, IsLargest, CountsDigits, Scaled, AllAgree;
    if !s.everywhere && Scaled(s.sdiff, digits) > 0.05 && (digits > 0 ==> Scaled(s.sdiff, digits - 1) <= 0.05) {
      PeakCounts(v1, v2, zero, d.Index(s.i, s.j, s.k), s.sdiff, s.adiff, digits);
    }
  }

  /** The digits of the peak, when there is one. */
  method DigitsOf(s: Scan) returns (digits: nat)
    requires !s.everywhere ==> s.sdiff > 0.0
    ensures !s.everywhere ==> Scaled(s.sdiff, digits) > 0.05 && (digits > 0 ==> Scaled(s.sdiff, digits - 1) <= 0.05)
  {
    digits := 0;
    if !s.everywhere {
      digits := CountDigits(s.sdiff);
    }
  }

  /** SigDiff: prints the cells that differ and the digits that agree everywhere. */
  method SigDiff(d: Dims, v1: array<real>, v2: array<real>, m: int, zero: real) returns (r: Report, lines: seq<Line>)
    requires v1.Length == v2.Length == d.Volume()
    ensures Prints(d, v1[..], v2[..], zero, m, r)
    ensures if m >= 0 then Describes(d, v1[..], v2[..], lines, Differing(v1[..], v2[..], zero, m, d.Volume()))
            else lines == []
  {
    hide Relative, Threshold, Dims.Index, Dims.Volume, Abs, Pow10, Describes, Differing, IsLargest, Scanned, AllAgree,
         Scaled, CountsDigits;
    var s := ScanBox(d, v1, v2, m, zero);
    lines := s.lines;
    Reported(d, v1[..], v2[..], zero, m, s, 0, s.adiff);
    var digits := DigitsOf(s);
    Reported(d, v1[..], v2[..], zero, m, s, digits, s.adiff);
    r := if s.everywhere then Agree else Differ(s.i, s.j, s.k, digits, s.adiff);
  }

  /** MSigDiff: returns the same cell and digits, with the largest absolute difference of all. */
  method MSigDiff(d: Dims, v1: array<real>, v2: array<real>, m: int, zero: real) returns (r: Report)
    requires v1.Length == v2.Length == d.Volume()
    ensures r.Agree? <==> AllAgree(v1[..], v2[..], zero, m)
    ensures r.Differ? ==> AtPeak(d, v1[..], v2[..], zero, r) && CountsDigits(v1[..], v2[..], zero, r.digits)
    ensures r.Differ? ==> IsLargest(v1[..], v2[..], d.Volume(), r.maxAdiff)
  {
    hide Relative, Threshold, Dims.Index, Dims.Volume, Abs, Pow10, Describes, Differing, IsLargest, Scanned, AllAgree,
         Scaled, CountsDigits;
    var s := ScanBox(d, v1, v2, m, zero);
    Reported(d, v1[..], v2[..], zero, m, s, 0, s.largest);
    var digits := DigitsOf(s);
    Reported(d, v1[..], v2[..], zero, m, s, digits, s.largest);
    r := if s.everywhere then Agree else Differ(s.i, s.j, s.k, digits, s.largest);
  }

  // ----- when the maximum absolute difference is one -----

  ghost predicate HaveMagnitudes(v1: seq<real>, v2: seq<real>, mags: seq<real>) {
    |v1| == |v2| == |mags| && forall t :: 0 <= t < |mags| ==> Magnitude(v1[t], v2[t]) == mags[t]
  }

  /** All the magnitudes compared are equal, and twice any other is at most the least
      difference that counts against them. */
  ghost predicate Level(mags: seq<real>, zero: real, m: int) {
    forall a, t :: 0 <= a < |mags| && 0 <= t < |mags| && Compared(mags[a], zero) ==>
      if Compared(mags[t], zero) then mags[t] == mags[a] else 2.0 * mags[t] <= Times(Threshold(m), mags[a])
  }

  /** Whatever values of these magnitudes are in the boxes, the difference printed is the largest. */
  ghost predicate AlwaysPrintsLargest(d: Dims, mags: seq<real>, zero: real, m: int)
    requires |mags| == d.Volume()
  {
    forall v1, v2, r :: HaveMagnitudes(v1, v2, mags) && Prints(d, v1, v2, zero, m, r) && r.Differ? ==>
      IsLargest(v1, v2, |mags|, r.maxAdiff)
  }

  /** The absolute difference of compared values is their relative difference times their
      magnitude; that of any values is at most twice their magnitude. */
  lemma DifferenceOf(x: real, y: real, zero: real)
    ensures Compared(Magnitude(x, y), zero) ==> Abs(x - y) == Times(Relative(x, y, zero), Magnitude(x, y))
    ensures Abs(x - y) <= 2.0 * Magnitude(x, y)
  {
    if Compared(Magnitude(x, y), zero) {
      QuotientOrder(Abs(x - y), Magnitude(x, y), Relative(x, y, zero));
    }
  }

  /** Comparing a quotient. */
  lemma QuotientOrder(a: real, b: real, c: real)
    requires b > 0.0
    ensures (a / b < c <==> a < Times(c, b)) && (a / b == c <==> a == Times(c, b)) && Times(a / b, b) == a
  {
    var q := a / b;
    assert q * b == a;
    if q < c {
      assert (c - q) * b > 0.0;
    } else if q > c {
      assert (q - c) * b > 0.0;
    }
  }

  lemma TimesSign(x: real, y: real)
    requires x >= 0.0 && y >= 0.0
    ensures Times(x, y) >= 0.0 && (x > 0.0 && y > 0.0 ==> Times(x, y) > 0.0)
  {
  }

  lemma TimesMonotone(a: real, b: real, c: real)
    requires a <= b && c >= 0.0
    ensures Times(a, c) <= Times(b, c) && Times(c, a) <= Times(c, b)
    ensures a < b && c > 0.0 ==> Times(a, c) < Times(b, c)
  {
    assert Times(c, a) == Times(a, c) && Times(c, b) == Times(b, c);
    assert Times(b, c) - Times(a, c) == Times(b - a, c);
    TimesSign(b - a, c);
    hide Times;
  }

  /** The cell printed is one of those compared, and differs by more than is tolerated. */
  lemma PeakIsCompared(d: Dims, v1: seq<real>, v2: seq<real>, zero: real, m: int, r: Report)
    requires |v1| == |v2| == d.Volume() && Prints(d, v1, v2, zero, m, r) && r.Differ?
    ensures var b := d.Index(r.i, r.j, r.k);
            Relative(v1[b], v2[b], zero) > Threshold(m) && Compared(Magnitude(v1[b], v2[b]), zero)
  {
    AllAgreeIff(v1, v2, zero, m);
    hide Threshold, CountsDigits, Dims.Index, Dims.Volume, Magnitude, Compared, Abs, AllAgree;
    var t :| 0 <= t < |v1| && Relative(v1[t], v2[t], zero) > Threshold(m);
  }

  lemma LevelPrintsLargest(d: Dims, v1: seq<real>, v2: seq<real>, zero: real, m: int, r: Report, mags: seq<real>)
    requires |v1| == |v2| == d.Volume() && Prints(d, v1, v2, zero, m, r) && r.Differ?
    requires HaveMagnitudes(v1, v2, mags) && Level(mags, zero, m)
    ensures IsLargest(v1, v2, |mags|, r.maxAdiff)
  {
    var b := d.Index(r.i, r.j, r.k);
    PeakIsCompared(d, v1, v2, zero, m, r);
    hide Threshold, CountsDigits, Dims.Index, Dims.Volume, Magnitude, Compared, Abs, Relative, Times;
    forall t | 0 <= t < |mags| ensures Abs(v1[t] - v2[t]) <= r.maxAdiff {
      DifferenceOf(v1[b], v2[b], zero);
      DifferenceOf(v1[t], v2[t], zero);
      if Compared(mags[t], zero) {
        TimesMonotone(Relative(v1[t], v2[t], zero), Relative(v1[b], v2[b], zero), mags[b]);
      } else {
        TimesMonotone(Threshold(m), Relative(v1[b], v2[b], zero), mags[b]);
      }
    }
    assert Abs(v1[b] - v2[b]) == r.maxAdiff;
  }

  lemma DigitsExist(x: real, n: nat) returns (digits: nat)
    requires x > 0.0 && Scaled(x, n) > 0.05
    ensures Scaled(x, digits) > 0.05 && (digits > 0 ==> Scaled(x, digits - 1) <= 0.05)
  {
    if n == 0 || Scaled(x, n - 1) <= 0.05 {
      digits := n;
    } else {
      digits := DigitsExist(x, n - 1);
    }
  }

  /** A cell whose relative difference tops all others, and is not tolerated, is what is printed. */
  lemma TopIsPrinted(d: Dims, v1: seq<real>, v2: seq<real>, zero: real, m: int, b: nat) returns (r: Report)
    requires |v1| == |v2| == d.Volume() && b < |v1| && Relative(v1[b], v2[b], zero) > Threshold(m)
    requires forall t :: 0 <= t < |v1| && t != b ==> Relative(v1[t], v2[t], zero) < Relative(v1[b], v2[b], zero)
    ensures Prints(d, v1, v2, zero, m, r) && r.Differ? && r.maxAdiff == Abs(v1[b] - v2[b])
  {
    AllAgreeIff(v1, v2, zero, m);
    hide AllAgree, Threshold, Relative, Abs, CountsDigits, Dims.Index, Dims.Volume, Scaled;
    var sdiff, adiff := Relative(v1[b], v2[b], zero), Abs(v1[b] - v2[b]);
    var enough := Archimedes(sdiff);
    var digits := DigitsExist(sdiff, enough);
    PeakCounts(v1, v2, zero, b, sdiff, adiff, digits);
    var i, j, k := CellOf(d, b);
    r := Differ(i, j, k, digits, adiff);
  }

  /** Magnitudes p < q, both compared: values p, -p differ relatively by 2 and absolutely by 2p,
      while q, -p differ relatively by less and absolutely by more. */
  lemma UnequalMagnitudes(p: real, q: real, zero: real, m: int)
    requires Compared(p, zero) && p < q
    ensures Magnitude(p, -p) == p && Relative(p, -p, zero) == 2.0 > Threshold(m) && Abs(p - -p) == 2.0 * p
    ensures Magnitude(q, -p) == q && Relative(q, -p, zero) < 2.0 && Abs(q - -p) > 2.0 * p
  {
    ThresholdBelowTwo(m);
    hide Threshold;
    QuotientOrder(p + p, p, 2.0);
    QuotientOrder(q + p, q, 2.0);
    hide Times;
    Doubled(p);
    Doubled(q);
  }

  lemma Doubled(x: real)
    ensures Times(2.0, x) == x + x
  {
  }

  lemma ThresholdBelowTwo(m: int)
    ensures Threshold(m) < 2.0
  {
    if m >= 0 {
      TimesMonotone(1.0, Pow10(m), 2.0);
      assert 0.5 / Pow10(m) < 2.0;
    }
  }

  lemma SameValues(x: real, zero: real)
    requires x >= 0.0
    ensures Magnitude(x, x) == x && Relative(x, x, zero) == 0.0 && Abs(x - x) == 0.0
  {
  }

  ghost predicate NonNegative(mags: seq<real>) {
    forall t :: 0 <= t < |mags| ==> mags[t] >= 0.0
  }

  /** Values of the given magnitudes that are equal except in cells a and b. */
  lemma EqualButTwo(mags: seq<real>, zero: real, a: nat, b: nat, x: real, y: real, x': real, y': real)
    returns (v1: seq<real>, v2: seq<real>)
    requires NonNegative(mags) && a < |mags| && b < |mags| && a != b
    requires Magnitude(x, y) == mags[a] && Magnitude(x', y') == mags[b]
    requires Relative(x', y', zero) < Relative(x, y, zero)
    ensures HaveMagnitudes(v1, v2, mags) && v1[a] == x && v2[a] == y && v1[b] == x' && v2[b] == y'
    ensures forall t :: 0 <= t < |v1| && t != a ==> Relative(v1[t], v2[t], zero) < Relative(v1[a], v2[a], zero)
  {
    hide Magnitude, Relative, Abs;
    v1, v2 := mags[a := x][b := x'], mags[a := y][b := y'];
    forall t | 0 <= t < |mags|
      ensures Magnitude(v1[t], v2[t]) == mags[t]
      ensures t != a ==> Relative(v1[t], v2[t], zero) < Relative(v1[a], v2[a], zero)
    {
      SameValues(mags[t], zero);
    }
  }

  /** If cells a and b are compared and of different magnitudes, something else can be printed. */
  lemma UnequalMisleads(d: Dims, mags: seq<real>, zero: real, m: int, a: nat, b: nat)
    requires |mags| == d.Volume() && NonNegative(mags) && a < |mags| && b < |mags|
    requires Compared(mags[a], zero) && mags[a] < mags[b]
    ensures !AlwaysPrintsLargest(d, mags, zero, m)
  {
    hide Threshold, Dims.Volume, Dims.Index, Magnitude, Relative, Abs, Compared;
    var p, q := mags[a], mags[b];
    UnequalMagnitudes(p, q, zero, m);
    var v1, v2 := EqualButTwo(mags, zero, a, b, p, -p, q, -p);
    var r := TopIsPrinted(d, v1, v2, zero, m, a);
    hide Prints;
    assert Abs(v1[b] - v2[b]) > r.maxAdiff;
  }

  /** Magnitude p is compared, q is not: values q, -q may differ more than any difference of
      values of magnitude p that counts. */
  lemma UncomparedMagnitude(p: real, q: real, zero: real, m: int) returns (delta: real)
    requires Compared(p, zero) && !Compared(q, zero) && q >= 0.0 && 2.0 * q > Times(Threshold(m), p)
    ensures Magnitude(p, p - delta) == p && Relative(p, p - delta, zero) > Threshold(m)
    ensures Abs(p - (p - delta)) == delta < 2.0 * q
    ensures Magnitude(q, -q) == q && Relative(q, -q, zero) == 0.0 && Abs(q - -q) == 2.0 * q
  {
    hide Threshold;
    var least := Times(Threshold(m), p);
    TimesMonotone(0.0, Threshold(m), p);
    TimesZero(p);
    delta := (least + 2.0 * q) / 2.0;
    assert least < delta < 2.0 * q;
    QuotientOrder(delta, p, Threshold(m));
    hide Times;
  }

  lemma UncomparedMisleads(d: Dims, mags: seq<real>, zero: real, m: int, a: nat, b: nat)
    requires |mags| == d.Volume() && NonNegative(mags) && a < |mags| && b < |mags|
    requires Compared(mags[a], zero) && !Compared(mags[b], zero) && 2.0 * mags[b] > Times(Threshold(m), mags[a])
    ensures !AlwaysPrintsLargest(d, mags, zero, m)
  {
    hide Threshold, Dims.Volume, Dims.Index, Magnitude, Relative, Abs, Compared, Times;
    var p, q := mags[a], mags[b];
    var delta := UncomparedMagnitude(p, q, zero, m);
    var v1, v2 := EqualButTwo(mags, zero, a, b, p, p - delta, q, -q);
    var r := TopIsPrinted(d, v1, v2, zero, m, a);
    hide Prints;
    assert Abs(v1[b] - v2[b]) > r.maxAdiff;
  }

  /** The difference that SigDiff prints as the maximum is the largest, whatever the values of
      the given magnitudes, if and only if the magnitudes are level. */
  lemma PrintsLargestIffLevel(d: Dims, mags: seq<real>, zero: real, m: int)
    requires |mags| == d.Volume() && NonNegative(mags)
    ensures AlwaysPrintsLargest(d, mags, zero, m) <==> Level(mags, zero, m)
  {
    hide Threshold, Dims.Volume, Dims.Index, Magnitude, Compared, Times, IsLargest, Prints;
    if Level(mags, zero, m) {
      forall v1, v2, r | HaveMagnitudes(v1, v2, mags) && Prints(d, v1, v2, zero, m, r) && r.Differ?
        ensures IsLargest(v1, v2, |mags|, r.maxAdiff)
      {
        LevelPrintsLargest(d, v1, v2, zero, m, r, mags);
      }
    } else {
      var a, t :| 0 <= a < |mags| && 0 <= t < |mags| && Compared(mags[a], zero)
        && !(if Compared(mags[t], zero) then mags[t] == mags[a] else 2.0 * mags[t] <= Times(Threshold(m), mags[a]));
      if !Compared(mags[t], zero) {
        UncomparedMisleads(d, mags, zero, m, a, t);
      } else if mags[a] < mags[t] {
        UnequalMisleads(d, mags, zero, m, a, t);
      } else {
        UnequalMisleads(d, mags, zero, m, t, a);
      }
    }
  }

  /** With absolute zero 0 the condition is that all magnitudes other than 0 are equal. */
  lemma LevelAtZero(mags: seq<real>, m: int)
    requires NonNegative(mags)
    ensures Level(mags, 0.0, m)
      <==> forall a, t :: 0 <= a < |mags| && 0 <= t < |mags| && mags[a] != 0.0 && mags[t] != 0.0 ==> mags[a] == mags[t]
  {
    hide Threshold, Times;
    forall a | 0 <= a < |mags| ensures mags[a] > 0.0 ==> Times(Threshold(m), mags[a]) >= 0.0 {
      TimesZero(mags[a]);
      if mags[a] > 0.0 {
        TimesMonotone(0.0, Threshold(m), mags[a]);
      }
    }
  }

  /** x times top over peak. */
  function Scale(x: real, top: real, peak: real): real
    requires peak != 0.0
  {
    x * (top / peak)
  }

  /** For any values: what compared values differ by is at most what is printed, times the
      greatest magnitude over that at the cell printed; others differ by at most twice
      absolute zero, if that is positive, and not at all if it is not. */
  lemma PrintedBoundsAll(d: Dims, v1: seq<real>, v2: seq<real>, zero: real, m: int, r: Report, top: real, t: nat)
    requires |v1| == |v2| == d.Volume() && Prints(d, v1, v2, zero, m, r) && r.Differ? && t < |v1|
    requires forall u :: 0 <= u < |v1| ==> Magnitude(v1[u], v2[u]) <= top
    ensures var peak := Magnitude(v1[d.Index(r.i, r.j, r.k)], v2[d.Index(r.i, r.j, r.k)]);
            && peak > 0.0
            && if Compared(Magnitude(v1[t], v2[t]), zero) then Abs(v1[t] - v2[t]) <= Scale(r.maxAdiff, top, peak)
               else Abs(v1[t] - v2[t]) <= 2.0 * Larger(zero, 0.0)
  {
    var b := d.Index(r.i, r.j, r.k);
    PeakIsCompared(d, v1, v2, zero, m, r);
    hide Threshold, CountsDigits, Dims.Index, Dims.Volume, Magnitude, Abs, Relative, AllAgree, Scale;
    if Compared(Magnitude(v1[t], v2[t]), zero) {
      ComparedBound(v1[b], v2[b], v1[t], v2[t], zero, top);
    } else {
      DifferenceOf(v1[t], v2[t], zero);
    }
  }

  lemma ComparedBound(x: real, y: real, x': real, y': real, zero: real, top: real)
    requires Compared(Magnitude(x, y), zero) && Compared(Magnitude(x', y'), zero)
    requires Relative(x', y', zero) <= Relative(x, y, zero) && Magnitude(x', y') <= top
    ensures Abs(x' - y') <= Scale(Abs(x - y), top, Magnitude(x, y))
  {
    DifferenceOf(x, y, zero);
    DifferenceOf(x', y', zero);
    hide Magnitude, Abs, Relative;
    TimesMonotone(Relative(x', y', zero), Relative(x, y, zero), Magnitude(x', y'));
    TimesMonotone(Magnitude(x', y'), top, Relative(x, y, zero));
    Rescaled(Relative(x, y, zero), Magnitude(x, y), top);
    hide Times, Scale;
  }

  lemma Rescaled(rho: real, p: real, top: real)
    requires p > 0.0
    ensures Scale(Times(rho, p), top, p) == Times(rho, top)
  {
    assert p * (top / p) == top;
    assert rho * p * (top / p) == rho * (p * (top / p));
  }

  /** The difference SigDiff calls the maximum need not be one: on these boxes a difference is
      printed for every m, always 2, while the values of the other cell differ by 10. */
  lemma ReportedIsNotLargest(m: int, r: Report)
    ensures var d, v1, v2 := Dims(2, 1, 1), [1.0, 110.0], [-1.0, 100.0];
            && |v1| == |v2| == d.Volume() && !AllAgree(v1, v2, 0.0, m)
            && (r.Differ? && AtPeak(d, v1, v2, 0.0, r)
                && r.maxAdiff == Abs(v1[d.Index(r.i, r.j, r.k)] - v2[d.Index(r.i, r.j, r.k)])
                ==> r.maxAdiff == 2.0 && !IsLargest(v1, v2, 2, r.maxAdiff))
  {
    var d, v1, v2 := Dims(2, 1, 1), [1.0, 110.0], [-1.0, 100.0];
    AllAgreeIff(v1, v2, 0.0, m);
    ThresholdBelowTwo(m);
    hide Threshold, AllAgree;
    assert Relative(v1[0], v2[0], 0.0) == 2.0;
    assert Relative(v1[1], v2[1], 0.0) < 2.0;
    assert Abs(v1[1] - v2[1]) == 10.0;
  }
}
