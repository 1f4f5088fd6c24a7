// Screens of the wipe effects: arrays of 16-bit pixel pairs, row by row or, transposed,
// column by column.
module MeltScreen {
  import opened Grid

  type Byte = x: int | 0 <= x < 256

  /** Two neighbouring pixels, the unit that melts. */
  datatype Short = Short(lo: Byte, hi: Byte)

  function Pixel(s: seq<Short>, w: nat, r: nat, c: nat): Short {
    if Cell(w, r, c) < |s| then s[Cell(w, r, c)] else Short(0, 0)
  }

  ghost predicate SamePixels(s: seq<Short>, t: seq<Short>, w: nat, h: nat) {
    forall r: nat, c: nat :: r < h && c < w ==> Pixel(s, w, r, c) == Pixel(t, w, r, c)
  }

  /** A picture is its pixels. */
  lemma Extensional(s: seq<Short>, t: seq<Short>, w: nat, h: nat)
    requires |s| == |t| == w * h && SamePixels(s, t, w, h)
    ensures s == t
  {
    forall k | 0 <= k < |s| ensures s[k] == t[k] {
      var r, c := CellOf(w, h, k);
      assert Pixel(s, w, r, c) == Pixel(t, w, r, c);
    }
  }

  lemma Update(s: seq<Short>, t: seq<Short>, w: nat, h: nat, r: nat, c: nat, v: Short)
    requires |s| == w * h && r < h && c < w && Cell(w, r, c) < |s| && t == s[Cell(w, r, c) := v]
    ensures forall r': nat, c': nat :: r' < h && c' < w ==>
      Pixel(t, w, r', c') == if r' == r && c' == c then v else Pixel(s, w, r', c')
  {
    forall r': nat, c': nat | r' < h && c' < w
      ensures Pixel(t, w, r', c') == if r' == r && c' == c then v else Pixel(s, w, r', c')
    {
      CellInside(w, h, r', c');
      if Cell(w, r', c') == Cell(w, r, c) { CellDistinct(w, r, c, r', c'); }
    }
  }

  /** t holds the columns of s one after the other. */
  ghost predicate IsTransposed(t: seq<Short>, s: seq<Short>, w: nat, h: nat) {
    && |t| == |s| == w * h
    && forall r: nat, c: nat :: r < h && c < w ==> Pixel(t, h, c, r) == Pixel(s, w, r, c)
  }

  /** Transposing there and back gives the picture again. */
  lemma TransposedTwice(s: seq<Short>, t: seq<Short>, u: seq<Short>, w: nat, h: nat)
    requires IsTransposed(t, s, w, h) && IsTransposed(u, t, h, w)
    ensures u == s
  {
    forall r: nat, c: nat | r < h && c < w ensures Pixel(u, w, r, c) == Pixel(s, w, r, c) {
      assert Pixel(u, w, r, c) == Pixel(t, h, c, r);
    }
    Extensional(u, s, w, h);
  }

  /** wipe_shittyColMajorXform: through a copy, back into the array. */
  method Transpose(a: array<Short>, w: nat, h: nat)
    requires a.Length == w * h
    modifies a
    ensures IsTransposed(a[..], old(a[..]), w, h)
  {
    ghost var was := a[..];
    var dest := new Short[w * h](_ => Short(0, 0));
    var y := 0;
    while y < h
      invariant 0 <= y <= h && a[..] == was
      invariant forall r: nat, c: nat :: r < y && c < w ==> Pixel(dest[..], h, c, r) == Pixel(was, w, r, c)
    {
      TransposeRow(a, dest, w, h, y);
      y := y + 1;
    }
    forall k | 0 <= k < a.Length { a[k] := dest[k]; }
    assert a[..] == dest[..];
  }

  method TransposeRow(a: array<Short>, dest: array<Short>, w: nat, h: nat, y: nat)
    requires a.Length == dest.Length == w * h && a != dest && y < h
    modifies dest
    ensures forall r: nat, c: nat :: r < h && c < w ==>
      Pixel(dest[..], h, c, r) == if r == y then Pixel(a[..], w, r, c) else Pixel(old(dest[..]), h, c, r)
  {
    var x := 0;
    while x < w
      invariant 0 <= x <= w
      invariant forall r: nat, c: nat :: r < h && c < w ==>
        Pixel(dest[..], h, c, r) == if r == y && c < x then Pixel(a[..], w, r, c) else Pixel(old(dest[..]), h, c, r)
    {
      ghost var now := dest[..];
      CellInside(w, h, y, x);
      CellInside(h, w, x, y);
      dest[x * h + y] := a[y * w + x];
      Update(now, dest[..], h, w, x, y, a[y * w + x]);
      x := x + 1;
    }
  }
}
