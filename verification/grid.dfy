// Row-major pictures in flat arrays.
module Grid {
  /** Index of row r, column c of a picture of width w. */
  function Cell(w: nat, r: nat, c: nat): nat {
    r * w + c
  }

  lemma RowsBelow(w: nat, r: nat, h: nat)
    requires r <= h
    ensures r * w <= h * w
  {
  }

  lemma CellInside(w: nat, h: nat, r: nat, c: nat)
    requires r < h && c < w
    ensures Cell(w, r, c) < w * h
  {
    RowsBelow(w, r + 1, h);
  }

  lemma CellDistinct(w: nat, r: nat, c: nat, r': nat, c': nat)
    requires c < w && c' < w && Cell(w, r, c) == Cell(w, r', c')
    ensures r == r' && c == c'
  {
    if r < r' {
      RowsBelow(w, r + 1, r');
    } else if r' < r {
      RowsBelow(w, r' + 1, r);
    }
  }

  lemma CellOf(w: nat, h: nat, k: nat) returns (r: nat, c: nat)
    requires k < w * h
    ensures r < h && c < w && Cell(w, r, c) == k
  {
    assert w > 0;
    r, c := k / w, k % w;
    if r >= h { RowsBelow(w, h, r); }
  }
}
