/** Arithmetic of row-major (and column-major) layouts, shared by the models. */
module RowMajor {

  /** A row ends before any later row begins. */
  lemma {:induction false} RowOrder(w: nat, a: nat, b: nat)
    requires a < b
    ensures a * w + w <= b * w
    decreases b
  {
    if a + 1 < b {
      RowOrder(w, a, b - 1);
    }
  }

  /** Positions in a grid of h rows of w entries are within h * w. */
  lemma InGrid(w: nat, h: nat, i: nat, j: nat)
    requires i < w && j < h
    ensures j * w + i < h * w
  {
    RowOrder(w, j, h);
  }

  /** A position determines its row and its place in the row. */
  lemma GridInjective(w: nat, i: nat, j: nat, i': nat, j': nat)
    requires i < w && i' < w && j * w + i == j' * w + i'
    ensures i == i' && j == j'
  {
    if j < j' {
      RowOrder(w, j, j');
    } else if j' < j {
      RowOrder(w, j', j);
    }
  }

  /** Every position of a grid of h rows of w entries is in some row. */
  lemma {:induction false} InSomeRow(w: nat, h: nat, t: nat) returns (i: nat, j: nat)
    requires t < h * w
    ensures i < w && j < h && t == j * w + i
  {
    if t >= (h - 1) * w {
      j := h - 1;
      i := t - j * w;
      assert h * w == j * w + w;
    } else {
      i, j := InSomeRow(w, h - 1, t);
    }
  }
}
