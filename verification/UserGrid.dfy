/** usergrid.c: the user's grid is cut into P x Q x R boxes, one for every process. */
module UserGrid {
  import opened RowMajor
  import opened Subgrids

  // ----- one axis: n cells from x on, in P blocks -----

  function Min(a: int, b: int): int {
    if a < b then a else b
  }

  /** Where block p starts, and how many cells it has. */
  function Start(p: nat, P: nat, n: nat, x: int): int
    requires P > 0
  {
    p * (n / P) + Min(p, n % P) + x
  }

  function Size(p: nat, P: nat, n: nat): nat
    requires P > 0
  {
    if p < n % P then n / P + 1 else n / P
  }

  lemma BlocksAdjoin(p: nat, P: nat, n: nat, x: int)
    requires P > 0
    ensures Start(p + 1, P, n, x) == Start(p, P, n, x) + Size(p, P, n)
  {
    assert (p + 1) * (n / P) == p * (n / P) + n / P;
  }

  lemma BlocksEnd(P: nat, n: nat, x: int)
    requires P > 0
    ensures Start(0, P, n, x) == x && Start(P, P, n, x) == x + n
  {
    assert P * (n / P) + n % P == n;
  }

  lemma {:induction false} BlocksOrdered(p: nat, p': nat, P: nat, n: nat, x: int)
    requires p < p' && P > 0
    ensures Start(p, P, n, x) + Size(p, P, n) <= Start(p', P, n, x)
    decreases p'
  {
    hide Start, Size;
    BlocksAdjoin(p' - 1, P, n, x);
    if p + 1 < p' {
      BlocksOrdered(p, p' - 1, P, n, x);
    }
  }

  predicate InBlock(p: nat, P: nat, n: nat, x: int, i: int)
    requires P > 0
  {
    Start(p, P, n, x) <= i < Start(p, P, n, x) + Size(p, P, n)
  }

  /** Some block before p holds the cell, if block p starts beyond it. */
  lemma {:induction false} FindBlock(p: nat, P: nat, n: nat, x: int, i: int) returns (b: nat)
    requires P > 0 && x <= i < Start(p, P, n, x)
    ensures b < p && InBlock(b, P, n, x, i)
  {
    BlocksEnd(P, n, x);
    hide Start, Size;
    BlocksAdjoin(p - 1, P, n, x);
    if i < Start(p - 1, P, n, x) {
      b := FindBlock(p - 1, P, n, x, i);
    } else {
      b := p - 1;
    }
  }

  /** Every cell of the axis lies in exactly one block; no block holds any other cell; and
      the sizes of two blocks differ by at most one. */
  lemma AxisPartition(P: nat, n: nat, x: int, i: int)
    requires P > 0
    ensures x <= i < x + n ==> exists p :: 0 <= p < P && InBlock(p, P, n, x, i)
    ensures forall p, p' :: 0 <= p < P && 0 <= p' < P && InBlock(p, P, n, x, i) && InBlock(p', P, n, x, i) ==> p == p'
    ensures forall p :: 0 <= p < P && InBlock(p, P, n, x, i) ==> x <= i < x + n
    ensures forall p, p' :: 0 <= p < P && 0 <= p' < P ==> -1 <= Size(p, P, n) - Size(p', P, n) <= 1
    ensures forall p, p' :: 0 <= p <= p' < P ==> Size(p, P, n) >= Size(p', P, n)
    ensures Start(0, P, n, x) == x && forall p :: 0 <= p < P ==> Start(p + 1, P, n, x) == Start(p, P, n, x) + Size(p, P, n)
  {
    BlocksEnd(P, n, x);
    assert Start(0, P, n, x) == x;
    forall p | 0 <= p < P ensures Start(p + 1, P, n, x) == Start(p, P, n, x) + Size(p, P, n) {
      BlocksAdjoin(p, P, n, x);
    }
    hide Start;
    if x <= i < x + n {
      var b := FindBlock(P, P, n, x, i);
    }
    forall p, p' | 0 <= p < P && 0 <= p' < P && InBlock(p, P, n, x, i) && InBlock(p', P, n, x, i) ensures p == p' {
      OneBlock(p, p', P, n, x, i);
    }
    forall p | 0 <= p < P && InBlock(p, P, n, x, i) ensures x <= i < x + n {
      BlockInside(p, P, n, x);
    }
  }

  lemma OneBlock(p: nat, p': nat, P: nat, n: nat, x: int, i: int)
    requires P > 0 && InBlock(p, P, n, x, i) && InBlock(p', P, n, x, i)
    ensures p == p'
  {
    hide Start, Size;
    if p < p' {
      BlocksOrdered(p, p', P, n, x);
    } else if p' < p {
      BlocksOrdered(p', p, P, n, x);
    }
  }

  lemma BlockInside(p: nat, P: nat, n: nat, x: int)
    requires p < P
    ensures x <= Start(p, P, n, x) && Start(p, P, n, x) + Size(p, P, n) <= x + n
  {
    BlocksEnd(P, n, x);
    hide Start, Size;
    if p > 0 {
      BlocksOrdered(0, p, P, n, x);
    }
    BlocksOrdered(p, P, P, n, x);
  }

  // ----- the boxes -----

  /** A user grid of nx x ny x nz cells with corner (x, y, z), to be cut in P x Q x R boxes. */
  datatype Layout = Layout(x: int, y: int, z: int, nx: nat, ny: nat, nz: nat, P: nat, Q: nat, R: nat) {
    predicate Valid() {
      P > 0 && Q > 0 && R > 0
    }

    predicate Contains(i: int, j: int, k: int) {
      x <= i < x + nx && y <= j < y + ny && z <= k < z + nz
    }

    function Process(p: nat, q: nat, r: nat): nat {
      (r * Q + q) * P + p
    }

    function Box(p: nat, q: nat, r: nat): Subgrid
      requires Valid()
    {
      NewSubgrid(Start(p, P, nx, x), Start(q, Q, ny, y), Start(r, R, nz, z),
                 Size(p, P, nx), Size(q, Q, ny), Size(r, R, nz), 0, 0, 0, Process(p, q, r))
    }

    /** The first n boxes of column (p, q); the first n columns of plane p; the first n planes. */
    function Column(p: nat, q: nat, n: nat): (r: seq<Subgrid>)
      requires Valid()
      ensures |r| == n
    {
      seq(n, i requires 0 <= i < n => Box(p, q, i))
    }

    function Plane(p: nat, n: nat): (r: seq<Subgrid>)
      requires Valid()
      ensures |r| == n * R
    {
      if n == 0 then [] else Plane(p, n - 1) + Column(p, n - 1, R)
    }

    function Boxes(n: nat): (r: seq<Subgrid>)
      requires Valid()
      ensures |r| == n * (Q * R)
    {
      if n == 0 then [] else Boxes(n - 1) + Plane(n - 1, Q)
    }

    function All(): seq<Subgrid>
      requires Valid()
    {
      Boxes(P)
    }
  }

  lemma {:induction false} PlaneAt(l: Layout, p: nat, n: nat, q: nat, r: nat)
    requires l.Valid() && q < n && r < l.R
    ensures q * l.R + r < n * l.R && l.Plane(p, n)[q * l.R + r] == l.Box(p, q, r)
  {
    hide Layout.Box;
    InGrid(l.R, n, r, q);
    if q < n - 1 {
      PlaneAt(l, p, n - 1, q, r);
    }
  }

  lemma {:induction false} BoxesAt(l: Layout, n: nat, p: nat, q: nat, r: nat)
    requires l.Valid() && p < n && q < l.Q && r < l.R
    ensures var s := p * (l.Q * l.R) + (q * l.R + r); s < n * (l.Q * l.R) && l.Boxes(n)[s] == l.Box(p, q, r)
  {
    hide Layout.Box;
    InGrid(l.R, l.Q, r, q);
    InGrid(l.Q * l.R, n, q * l.R + r, p);
    if p < n - 1 {
      BoxesAt(l, n - 1, p, q, r);
    } else {
      PlaneAt(l, p, l.Q, q, r);
    }
  }

  lemma BoxAtPlace(l: Layout, s: nat) returns (p: nat, q: nat, r: nat)
    requires l.Valid() && s < |l.All()|
    ensures p < l.P && q < l.Q && r < l.R && s == p * (l.Q * l.R) + (q * l.R + r) && l.All()[s] == l.Box(p, q, r)
  {
    hide Layout.Box;
    var t;
    t, p := InSomeRow(l.Q * l.R, l.P, s);
    r, q := InSomeRow(l.R, l.Q, t);
    BoxesAt(l, l.P, p, q, r);
  }

  /** Every cell of the user's grid lies in exactly one box. */
  lemma CellInOneBox(l: Layout, i: int, j: int, k: int)
    requires l.Valid()
    ensures l.Contains(i, j, k) <==> exists s :: 0 <= s < |l.All()| && l.All()[s].Contains(i, j, k)
    ensures forall s, t | 0 <= s < |l.All()| && 0 <= t < |l.All()| ::
              (l.All()[s].Contains(i, j, k) && l.All()[t].Contains(i, j, k) ==> s == t)
  {
    AxisPartition(l.P, l.nx, l.x, i);
    AxisPartition(l.Q, l.ny, l.y, j);
    AxisPartition(l.R, l.nz, l.z, k);
    hide Start, Size, Layout.All, Layout.Process;
    if l.Contains(i, j, k) {
      var p :| 0 <= p < l.P && InBlock(p, l.P, l.nx, l.x, i);
      var q :| 0 <= q < l.Q && InBlock(q, l.Q, l.ny, l.y, j);
      var r :| 0 <= r < l.R && InBlock(r, l.R, l.nz, l.z, k);
      var s := PlaceOf(l, p, q, r);
      assert l.All()[s].Contains(i, j, k);
    }
    forall s | 0 <= s < |l.All()| && l.All()[s].Contains(i, j, k) ensures l.Contains(i, j, k) {
      var p, q, r := BoxAtPlace(l, s);
      BoxHolds(l, p, q, r, i, j, k);
    }
    forall s, t | 0 <= s < |l.All()| && 0 <= t < |l.All()|
                  && l.All()[s].Contains(i, j, k) && l.All()[t].Contains(i, j, k)
      ensures s == t
    {
      var p, q, r := BoxAtPlace(l, s);
      var p', q', r' := BoxAtPlace(l, t);
      BoxHolds(l, p, q, r, i, j, k);
      BoxHolds(l, p', q', r', i, j, k);
    }
  }

  lemma BoxHolds(l: Layout, p: nat, q: nat, r: nat, i: int, j: int, k: int)
    requires l.Valid()
    ensures l.Box(p, q, r).Contains(i, j, k)
      <==> InBlock(p, l.P, l.nx, l.x, i) && InBlock(q, l.Q, l.ny, l.y, j) && InBlock(r, l.R, l.nz, l.z, k)
  {
    hide Start, Size;
  }

  lemma PlaceOf(l: Layout, p: nat, q: nat, r: nat) returns (s: nat)
    requires l.Valid() && p < l.P && q < l.Q && r < l.R
    ensures s == p * (l.Q * l.R) + (q * l.R + r) && s < |l.All()| && l.All()[s] == l.Box(p, q, r)
  {
    hide Layout.Box;
    s := p * (l.Q * l.R) + (q * l.R + r);
    BoxesAt(l, l.P, p, q, r);
  }

  lemma BoxCount(l: Layout)
    requires l.Valid()
    ensures |l.All()| == (l.R * l.Q) * l.P
  {
    assert l.P * (l.Q * l.R) == (l.R * l.Q) * l.P;
    hide Layout.Box;
  }

  /** Box (p, q, r) comes after all boxes with a smaller p, or the same p and a smaller q, and so on;
      its process is numbered with p varying fastest. */
  lemma BoxLaidOut(l: Layout, p: nat, q: nat, r: nat)
    requires l.Valid() && p < l.P && q < l.Q && r < l.R
    ensures var s := p * (l.Q * l.R) + (q * l.R + r);
            && s < |l.All()|
            && var b := l.All()[s];
            && b.ix == l.x + p * (l.nx / l.P) + (if p < l.nx % l.P then p else l.nx % l.P)
            && b.iy == l.y + q * (l.ny / l.Q) + (if q < l.ny % l.Q then q else l.ny % l.Q)
            && b.iz == l.z + r * (l.nz / l.R) + (if r < l.nz % l.R then r else l.nz % l.R)
            && b.nx == l.nx / l.P + (if p < l.nx % l.P then 1 else 0)
            && b.ny == l.ny / l.Q + (if q < l.ny % l.Q then 1 else 0)
            && b.nz == l.nz / l.R + (if r < l.nz % l.R then 1 else 0)
            && b.rx == b.ry == b.rz == 0 && b.process == (r * l.Q + q) * l.P + p
  {
    var s := PlaceOf(l, p, q, r);
    BoxIs(l, p, q, r);
    hide Layout.All, Layout.Box;
  }

  lemma BoxIs(l: Layout, p: nat, q: nat, r: nat)
    requires l.Valid()
    ensures var b := l.Box(p, q, r);
            && b.ix == l.x + p * (l.nx / l.P) + (if p < l.nx % l.P then p else l.nx % l.P)
            && b.iy == l.y + q * (l.ny / l.Q) + (if q < l.ny % l.Q then q else l.ny % l.Q)
            && b.iz == l.z + r * (l.nz / l.R) + (if r < l.nz % l.R then r else l.nz % l.R)
            && b.nx == l.nx / l.P + (if p < l.nx % l.P then 1 else 0)
            && b.ny == l.ny / l.Q + (if q < l.ny % l.Q then 1 else 0)
            && b.nz == l.nz / l.R + (if r < l.nz % l.R then 1 else 0)
            && b.rx == b.ry == b.rz == 0 && b.process == (r * l.Q + q) * l.P + p
  {
  }

  /** Box s is numbered by its place counted with p varying fastest. */
  lemma ProcessAt(l: Layout, s: nat) returns (p: nat, q: nat, r: nat)
    requires l.Valid() && s < |l.All()|
    ensures p < l.P && q < l.Q && r < l.R && s == p * (l.Q * l.R) + (q * l.R + r)
    ensures l.All()[s].process == (r * l.Q + q) * l.P + p
  {
    p, q, r := BoxAtPlace(l, s);
  }

  lemma ProcessInRange(l: Layout, s: nat)
    requires l.Valid() && s < |l.All()|
    ensures 0 <= l.All()[s].process < (l.R * l.Q) * l.P
  {
    hide *;
    var p, q, r := ProcessAt(l, s);
    InGrid(l.Q, l.R, q, r);
    InGrid(l.P, l.R * l.Q, p, r * l.Q + q);
  }

  lemma BoxOfProcess(l: Layout, w: nat) returns (s: nat)
    requires l.Valid() && w < (l.R * l.Q) * l.P
    ensures s < |l.All()| && l.All()[s].process == w
  {
    hide Start, Size, Layout.All;
    var p, t := InSomeRow(l.P, l.R * l.Q, w);
    var q, r := InSomeRow(l.Q, l.R, t);
    s := PlaceOf(l, p, q, r);
  }

  lemma ProcessOnce(l: Layout, s: nat, t: nat)
    requires l.Valid() && s < |l.All()| && t < |l.All()| && l.All()[s].process == l.All()[t].process
    ensures s == t
  {
    hide *;
    var p, q, r := ProcessAt(l, s);
    var p', q', r' := ProcessAt(l, t);
    GridInjective(l.P, p, r * l.Q + q, p', r' * l.Q + q');
    GridInjective(l.Q, q, r, q', r');
  }

  /** The process numbers are a bijection onto 0..P*Q*R - 1. */
  lemma ProcessesAreBijective(l: Layout, w: int)
    requires l.Valid()
    ensures |l.All()| == (l.R * l.Q) * l.P
    ensures 0 <= w < |l.All()| <==> exists s :: 0 <= s < |l.All()| && l.All()[s].process == w
    ensures forall s, t | 0 <= s < |l.All()| && 0 <= t < |l.All()| ::
              (l.All()[s].process == l.All()[t].process ==> s == t)
  {
    hide Layout.All, Layout.Box;
    BoxCount(l);
    if 0 <= w < |l.All()| {
      var s := BoxOfProcess(l, w);
    }
    forall s | 0 <= s < |l.All()| ensures 0 <= l.All()[s].process < |l.All()| {
      ProcessInRange(l, s);
    }
    forall s, t | 0 <= s < |l.All()| && 0 <= t < |l.All()| && l.All()[s].process == l.All()[t].process ensures s == t {
      ProcessOnce(l, s, t);
    }
  }

  // ----- choosing P, Q and R -----

  /** The number of blocks tried for n cells when blocks of m cells are aimed at. */
  function Blocks(n: nat, m: nat): nat
    requires m > 0
  {
    n / m + if n % m > n / m then 1 else 0
  }

  /** It is the least number that is no less than n / m and leaves no block longer than m + 1. */
  lemma BlocksLeast(n: nat, m: nat, b: nat)
    requires m > 0
    ensures n < (Blocks(n, m) + 1) * m && n <= Blocks(n, m) * (m + 1)
    ensures n < (b + 1) * m && n <= b * (m + 1) ==> b >= Blocks(n, m)
  {
    Quotient(n, m);
    LeastOf(n, m, n / m, n % m, b);
  }

  lemma Quotient(n: nat, m: nat)
    requires m > 0
    ensures n == (n / m) * m + n % m && n % m < m
  {
  }

  lemma LeastOf(n: nat, m: nat, q: nat, r: nat, b: nat)
    requires n == q * m + r && r < m
    ensures var c := q + if r > q then 1 else 0;
            && n < (c + 1) * m && n <= c * (m + 1)
            && (n < (b + 1) * m && n <= b * (m + 1) ==> b >= c)
  {
    assert (q + 1) * m == q * m + m && (q + 2) * m == q * m + 2 * m;
    assert q * (m + 1) == q * m + q && (q + 1) * (m + 1) == q * m + m + q + 1;
    if b < q {
      RowOrder(m, b, q);
      assert (b + 1) * m == b * m + m;
    }
  }

  lemma BlocksFacts(n: nat, m: nat)
    requires m > 0 && n > 0
    ensures Blocks(n, m) >= 1
    ensures n <= Blocks(n, m) * (m + 1)
    ensures m > n ==> Blocks(n, m) == 1
  {
    var q, r := n / m, n % m;
    assert n == q * m + r && r < m;
    if r > q {
      assert (q + 1) * (m + 1) == q * m + m + q + 1;
    } else {
      assert q * (m + 1) == q * m + q;
    }
  }

  /** No block is longer than m + 1 if P blocks of m + 1 cells are enough for n. */
  lemma BlocksShort(n: nat, P: nat, m: nat, p: nat)
    requires P > 0 && n <= P * (m + 1)
    ensures Size(p, P, n) <= m + 1
  {
    assert n == P * (n / P) + n % P;
    if n / P > m + 1 {
      RowOrder(P, m + 1, n / P);
    } else if n / P == m + 1 {
      assert P * (n / P) == P * (m + 1);
    }
  }

  function Product(a: nat, b: nat, c: nat): nat {
    a * b * c
  }

  function Tried(nx: nat, ny: nat, nz: nat, m: nat): nat
    requires m > 0
  {
    Product(Blocks(nx, m), Blocks(ny, m), Blocks(nz, m))
  }

  method TryBlocks(n: nat, m: nat) returns (b: nat)
    requires m > 0
    ensures b == Blocks(n, m)
  {
    b := n / m;
    b := b + if n % m > b then 1 else 0;
  }

  lemma LongBlocks(nx: nat, ny: nat, nz: nat, m: nat)
    requires nx > 0 && ny > 0 && nz > 0 && m > nx && m > ny && m > nz
    ensures Tried(nx, ny, nz, m) == 1
  {
    BlocksFacts(nx, m);
    BlocksFacts(ny, m);
    BlocksFacts(nz, m);
    hide Blocks;
  }

  /** Makes the blocks longer until there are no more of them than processes; m0 is the
      cube root of the cells per process. */
  method ChooseBlocks(nx: nat, ny: nat, nz: nat, numProcs: nat, m0: nat) returns (P: nat, Q: nat, R: nat, m: nat)
    requires nx > 0 && ny > 0 && nz > 0 && numProcs > 0 && m0 > 0
    ensures m >= m0 && P == Blocks(nx, m) && Q == Blocks(ny, m) && R == Blocks(nz, m)
    ensures Product(P, Q, R) <= numProcs
    ensures forall k :: m0 <= k < m ==> Tried(nx, ny, nz, k) > numProcs
  {
    hide Product, Blocks;
    m := m0;
    while true
      invariant m >= m0 && forall k :: m0 <= k < m ==> Tried(nx, ny, nz, k) > numProcs
      decreases nx + ny + nz - m
    {
      P := TryBlocks(nx, m);
      Q := TryBlocks(ny, m);
      R := TryBlocks(nz, m);
      if Product(P, Q, R) <= numProcs {
        return;
      }
      if m > nx + ny + nz {
        LongBlocks(nx, ny, nz, m);
      }
      m := m + 1;
    }
  }

  /** With the blocks chosen there is at least one block along each axis, and no block is
      longer than m + 1. */
  lemma ChosenBlocksShort(n: nat, m: nat, p: nat)
    requires n > 0 && m > 0
    ensures Blocks(n, m) > 0 && Size(p, Blocks(n, m), n) <= m + 1
  {
    BlocksFacts(n, m);
    BlocksShort(n, Blocks(n, m), m, p);
  }

  // ----- the distribution -----

  datatype Choice = Choice(P: nat, Q: nat, R: nat)

  /** The process grid that is used: the one asked for if it is complete. */
  ghost predicate Chosen(nx: nat, ny: nat, nz: nat, numProcs: nat, asked: Choice, m0: nat, c: Choice) {
    if asked.P != 0 && asked.Q != 0 && asked.R != 0 then c == asked
    else exists m: nat :: m >= m0 && m > 0 && c == Choice(Blocks(nx, m), Blocks(ny, m), Blocks(nz, m))
                          && Product(c.P, c.Q, c.R) <= numProcs
                          && forall k :: m0 <= k < m && k > 0 ==> Tried(nx, ny, nz, k) > numProcs
  }

  function LayoutOf(user: Subgrid, c: Choice): Layout
    requires user.nx >= 0 && user.ny >= 0 && user.nz >= 0
  {
    Layout(user.ix, user.iy, user.iz, user.nx, user.ny, user.nz, c.P, c.Q, c.R)
  }

  predicate OnGrid(user: Subgrid, c: Choice) {
    user.nx >= 0 && user.ny >= 0 && user.nz >= 0 && c.P > 0 && c.Q > 0 && c.R > 0
  }

  /** What box (p, q, r) is when the user's grid is cut into c.P by c.Q by c.R boxes, the first ones
      along each axis being larger by a cell where the division leaves a rest. */
  predicate IsBox(user: Subgrid, c: Choice, b: Subgrid, p: nat, q: nat, r: nat)
    requires OnGrid(user, c)
  {
    && b.ix == user.ix + p * (user.nx / c.P) + (if p < user.nx % c.P then p else user.nx % c.P)
    && b.iy == user.iy + q * (user.ny / c.Q) + (if q < user.ny % c.Q then q else user.ny % c.Q)
    && b.iz == user.iz + r * (user.nz / c.R) + (if r < user.nz % c.R then r else user.nz % c.R)
    && b.nx == user.nx / c.P + (if p < user.nx % c.P then 1 else 0)
    && b.ny == user.ny / c.Q + (if q < user.ny % c.Q then 1 else 0)
    && b.nz == user.nz / c.R + (if r < user.nz % c.R then 1 else 0)
    && b.rx == b.ry == b.rz == 0 && b.process == (r * c.Q + q) * c.P + p
  }

  predicate HasBox(user: Subgrid, c: Choice, list: seq<Subgrid>, p: nat, q: nat, r: nat)
    requires OnGrid(user, c)
  {
    var s := p * (c.Q * c.R) + (q * c.R + r);
    s < |list| && IsBox(user, c, list[s], p, q, r)
  }

  ghost predicate AreBoxes(user: Subgrid, c: Choice, list: seq<Subgrid>) {
    && OnGrid(user, c) && |list| == Product(c.P, c.Q, c.R)
    && forall p, q, r | 0 <= p < c.P && 0 <= q < c.Q && 0 <= r < c.R :: HasBox(user, c, list, p, q, r)
  }

  lemma LayoutIsBoxes(user: Subgrid, c: Choice)
    requires OnGrid(user, c)
    ensures AreBoxes(user, c, LayoutOf(user, c).All())
  {
    BoxCount(LayoutOf(user, c));
    assert (c.R * c.Q) * c.P == Product(c.P, c.Q, c.R);
    forall p, q, r | 0 <= p < c.P && 0 <= q < c.Q && 0 <= r < c.R
      ensures HasBox(user, c, LayoutOf(user, c).All(), p, q, r)
    {
      BoxLaidOut(LayoutOf(user, c), p, q, r);
    }
    hide Layout.All, HasBox, Product;
  }

  /** Appends the boxes of the layout to an empty array. */
  method AppendBoxes(l: Layout) returns (all: SubgridArray)
    requires l.Valid()
    ensures fresh(all) && fresh(all.Storage()) && all.Valid() && all.Contents() == l.All()
  {
    hide Layout.Box;
    all := new SubgridArray();
    for p := 0 to l.P
      invariant fresh(all) && fresh(all.Storage()) && all.Valid() && all.Contents() == l.Boxes(p)
    {
      AppendPlane(l, p, all);
    }
  }

  method AppendPlane(l: Layout, p: nat, all: SubgridArray)
    requires l.Valid() && all.Valid()
    modifies all, all.Storage()
    ensures all.Valid() && all.Contents() == old(all.Contents()) + l.Plane(p, l.Q)
    ensures fresh(all.Storage() - old(all.Storage()))
  {
    hide Layout.Column, Layout.Plane;
    ghost var before := all.Contents();
    PlaneNext(l, p, 0, before);
    for q := 0 to l.Q
      invariant all.Valid() && all.Contents() == before + l.Plane(p, q)
      invariant fresh(all.Storage() - old(all.Storage()))
    {
      PlaneNext(l, p, q, before);
      AppendColumn(l, p, q, all);
    }
  }

  lemma PlaneNext(l: Layout, p: nat, q: nat, before: seq<Subgrid>)
    requires l.Valid()
    ensures q == 0 ==> before + l.Plane(p, q) == before
    ensures before + l.Plane(p, q) + l.Column(p, q, l.R) == before + l.Plane(p, q + 1)
  {
    hide Layout.Column;
  }

  method AppendColumn(l: Layout, p: nat, q: nat, all: SubgridArray)
    requires l.Valid() && all.Valid()
    modifies all, all.Storage()
    ensures all.Valid() && all.Contents() == old(all.Contents()) + l.Column(p, q, l.R)
    ensures fresh(all.Storage() - old(all.Storage()))
  {
    hide Start, Size, Layout.Box, Layout.Column, Layout.Process;
    assert l.Column(p, q, 0) == [];
    for r := 0 to l.R
      invariant all.Valid() && all.Contents() == old(all.Contents()) + l.Column(p, q, r)
      invariant fresh(all.Storage() - old(all.Storage()))
    {
      ColumnNext(l, p, q, r);
      var s := NewBox(l, p, q, r);
      all.Append(s);
    }
  }

  lemma ColumnNext(l: Layout, p: nat, q: nat, r: nat)
    requires l.Valid()
    ensures l.Column(p, q, r + 1) == l.Column(p, q, r) + [l.Box(p, q, r)]
  {
    hide Layout.Box;
  }

  method NewBox(l: Layout, p: nat, q: nat, r: nat) returns (s: Subgrid)
    requires l.Valid()
    ensures s == l.Box(p, q, r)
  {
    var mx, my, mz := l.nx / l.P, l.ny / l.Q, l.nz / l.R;
    var lx, ly, lz := l.nx % l.P, l.ny % l.Q, l.nz % l.R;
    var process := (r * l.Q + q) * l.P + p;
    s := NewSubgrid(p * mx + Min(p, lx) + l.x, q * my + Min(q, ly) + l.y, r * mz + Min(r, lz) + l.z,
                    if p < lx then mx + 1 else mx, if q < ly then my + 1 else my, if r < lz then mz + 1 else mz,
                    0, 0, 0, process);
  }

  /** Distributes the user's grid: null unless the process grid has numProcs processes. */
  method DistributeUserGrid(user: Subgrid, numProcs: nat, asked: Choice, m0: nat)
    returns (all: SubgridArray?, ghost c: Choice)
    requires user.nx >= 0 && user.ny >= 0 && user.nz >= 0
    requires asked.P == 0 || asked.Q == 0 || asked.R == 0 ==>
               user.nx > 0 && user.ny > 0 && user.nz > 0 && numProcs > 0 && m0 > 0
    requires numProcs > 0
    ensures Chosen(user.nx, user.ny, user.nz, numProcs, asked, m0, c)
    ensures all == null <==> Product(c.P, c.Q, c.R) != numProcs
    ensures all != null ==> fresh(all) && LayoutOf(user, c).Valid() && all.Valid() && all.Contents() == LayoutOf(user, c).All()
    ensures all != null ==> AreBoxes(user, c, all.Contents())
  {
    hide AreBoxes;
    var P, Q, R := asked.P, asked.Q, asked.R;
    if P == 0 || Q == 0 || R == 0 {
      var m;
      P, Q, R, m := ChooseBlocks(user.nx, user.ny, user.nz, numProcs, m0);
    }
    c := Choice(P, Q, R);
    if P * Q * R == numProcs {
      PositiveFactors(P, Q, R);
      LayoutIsBoxes(user, c);
      all := AppendBoxes(LayoutOf(user, Choice(P, Q, R)));
    } else {
      all := null;
    }
  }

  lemma PositiveFactors(a: nat, b: nat, c: nat)
    requires Product(a, b, c) > 0
    ensures a > 0 && b > 0 && c > 0
  {
  }
}
