// The first rejection of AM_clipMline, made on the map before anything is scaled: when it
// agrees with the frame, and what it can drop.
module AutomapWindow {
  import opened CArithmetic
  import opened AutomapClip
  import opened AutomapCover

  const UNIT := 0x10_000_0000

  /** A frame at the origin, and a map window that is not turned over. */
  predicate Upright(v: View) {
    v.f_x == 0 && v.f_y == 0 && v.f_w > 0 && v.f_h > 0 && v.scale_mtof > 0 && v.m_x <= v.m_x2 && v.m_y <= v.m_y2
  }

  /** The first column right of the map window, in frame coordinates. */
  function RightOf(v: View): int { Mtof(v, v.m_x2 - v.m_x + 1) }

  /** The first row above it, counted from the bottom of the frame. */
  function AboveOf(v: View): int { Mtof(v, v.m_y2 - v.m_y + 1) }

  // ---------------------------------------------------------------------------
  // Scaling

  lemma MtofAtLeast(v: View, x: int, n: int)
    ensures Mtof(v, x) >= n <==> x * v.scale_mtof >= n * UNIT
  {
    TwoShifts(x * v.scale_mtof, n);
  }

  lemma TwoShifts(p: int, n: int)
    ensures p / 0x1_0000 / 0x1_0000 >= n <==> p >= n * UNIT
  {
  }

  lemma Scaled(x: int, y: int, s: int)
    requires s > 0
    ensures x <= y ==> x * s <= y * s
    ensures x < 0 ==> x * s < 0
  {
    if x <= y {
      Product(y - x, s);
      assert (y - x) * s == y * s - x * s;
    }
    if x < 0 {
      Product(-1 - x, s);
      assert (-1 - x) * s == -s - x * s;
    }
  }

  lemma MtofGrows(v: View, x: int, y: int)
    requires v.scale_mtof > 0 && x <= y
    ensures Mtof(v, x) <= Mtof(v, y)
  {
    MtofAtLeast(v, x, Mtof(v, x));
    Scaled(x, y, v.scale_mtof);
    MtofAtLeast(v, y, Mtof(v, x));
  }

  lemma MtofBelow(v: View, x: int)
    requires v.scale_mtof > 0 && x < 0
    ensures Mtof(v, x) < 0
  {
    Scaled(x, 0, v.scale_mtof);
    MtofAtLeast(v, x, 0);
  }

  lemma MtofAbove(v: View, n: nat)
    requires v.scale_mtof > 0
    ensures Mtof(v, n * UNIT) >= n
  {
    Scaled(1, v.scale_mtof, n * UNIT + 1);
    Product(n * UNIT, v.scale_mtof - 1);
    assert n * UNIT * (v.scale_mtof - 1) == n * UNIT * v.scale_mtof - n * UNIT;
    MtofAtLeast(v, n * UNIT, n);
  }

  // ---------------------------------------------------------------------------
  // Where a rejected line is in the frame

  predicate Beyond(v: View, p: Point, side: Outcode) {
    && (side.left ==> p.x < 0) && (side.right ==> p.x >= RightOf(v))
    && (side.bottom ==> p.y > v.f_h) && (side.top ==> p.y <= v.f_h - AboveOf(v))
  }

  lemma EndBeyond(v: View, p: Point)
    requires Upright(v)
    ensures Beyond(v, ToFrame(v, p), MapCode(v, p))
  {
    if p.x < v.m_x { MtofBelow(v, p.x - v.m_x); }
    if p.x > v.m_x2 { MtofGrows(v, v.m_x2 - v.m_x + 1, p.x - v.m_x); }
    if p.y < v.m_y { MtofBelow(v, p.y - v.m_y); }
    if p.y > v.m_y2 { MtofGrows(v, v.m_y2 - v.m_y + 1, p.y - v.m_y); }
  }

  /** If the window reaches beyond the right and the upper edge of the frame, a rejected line
      has nothing in the frame. */
  lemma RejectedApart(v: View, ml: Line)
    requires Upright(v) && RightOf(v) >= v.f_w && AboveOf(v) > v.f_h && Rejected(v, ml)
    ensures Apart(v, LineToFrame(v, ml))
  {
    EndBeyond(v, ml.a);
    EndBeyond(v, ml.b);
  }

  /** A line of which both ends are right of the map window, and not both above or below the
      frame. */
  lemma RightWitness(v: View) returns (ml: Line)
    requires Upright(v) && RightOf(v) < v.f_w
    ensures Rejected(v, ml) && !Apart(v, LineToFrame(v, ml))
  {
    var up := (v.f_h + 1) * UNIT;
    ml := Line(Point(v.m_x2 + 1, v.m_y - 1), Point(v.m_x2 + 1, v.m_y + up));
    MtofBelow(v, -1);
    MtofAbove(v, v.f_h + 1);
    MtofGrows(v, 0, v.m_x2 - v.m_x + 1);
    MtofAtLeast(v, 0, 0);
  }

  lemma AboveWitness(v: View) returns (ml: Line)
    requires Upright(v) && AboveOf(v) <= v.f_h
    ensures Rejected(v, ml) && !Apart(v, LineToFrame(v, ml))
  {
    var out, up := v.f_w * UNIT, v.m_y2 - v.m_y + 1 + (v.f_h + 1) * UNIT;
    ml := Line(Point(v.m_x - 1, v.m_y2 + 1), Point(v.m_x + out, v.m_y + up));
    MtofBelow(v, -1);
    FarMtof(v, v.f_w, out);
    FarMtof(v, v.f_h + 1, up);
    assert ToFrame(v, ml.a) == Point(Mtof(v, -1), v.f_h - AboveOf(v));
    assert ToFrame(v, ml.b) == Point(Mtof(v, out), v.f_h - Mtof(v, up));
  }

  lemma FarMtof(v: View, n: nat, x: int)
    requires v.scale_mtof > 0 && x >= n * UNIT
    ensures Mtof(v, x) >= n
  {
    MtofAbove(v, n);
    MtofGrows(v, n * UNIT, x);
  }

  /** The rejection on the map drops only lines that lie beside the frame exactly if the
      window reaches beyond the right and the upper edge of the frame. */
  lemma RejectionExact(v: View)
    requires Upright(v)
    ensures (forall ml: Line :: Rejected(v, ml) ==> Apart(v, LineToFrame(v, ml)))
       <==> RightOf(v) >= v.f_w && AboveOf(v) > v.f_h
  {
    if RightOf(v) < v.f_w {
      var ml := RightWitness(v);
    } else if AboveOf(v) <= v.f_h {
      var ml := AboveWitness(v);
    } else {
      forall ml: Line | Rejected(v, ml) ensures Apart(v, LineToFrame(v, ml)) { RejectedApart(v, ml); }
    }
  }

  // ---------------------------------------------------------------------------
  // Nothing worth showing is lost

  /** What the rejection on the map drops is no further inside the frame than the window
      falls short of its right and upper edge. */
  lemma RejectedAtBorder(v: View, ml: Line, q: Spot, n: nat)
    requires Upright(v) && RightOf(v) >= v.f_w - 1 - n && AboveOf(v) >= v.f_h - n
    requires Rejected(v, ml) && AutomapCover.Visible(v, q) && OnSegment(LineToFrame(v, ml), q, 0)
    ensures AtBorder(v, q, n)
  {
    var l, both := LineToFrame(v, ml), Both(MapCode(v, ml.a), MapCode(v, ml.b));
    EndBeyond(v, ml.a);
    EndBeyond(v, ml.b);
    var t: real :| OnAt(l, q, 0, t);
    if both.left {
      Hull(l.a.x, l.b.x, t, 0);
    } else if both.right {
      Hull(l.a.x, l.b.x, t, RightOf(v));
    } else if both.bottom {
      Hull(l.a.y, l.b.y, t, v.f_h);
    } else {
      Hull(l.a.y, l.b.y, t, v.f_h - AboveOf(v));
    }
  }

  /** The map window as AM_activateNewScale sets it: the frame's size times scale_ftom, the
      quotient 2^32 / scale_mtof rounded down. */
  predicate Activated(v: View, ftom: nat) {
    && Upright(v) && v.m_x2 - v.m_x == v.f_w * ftom && v.m_y2 - v.m_y == v.f_h * ftom
    && UNIT - v.scale_mtof < ftom * v.scale_mtof
    && v.f_w * v.scale_mtof <= UNIT && v.f_h * v.scale_mtof <= UNIT
  }

  lemma WindowReaches(v: View, side: nat, ftom: nat)
    requires v.scale_mtof > 0 && UNIT - v.scale_mtof < ftom * v.scale_mtof && side * v.scale_mtof <= UNIT
    ensures Mtof(v, side * ftom + 1) >= side - 1
  {
    var s := v.scale_mtof;
    var short := ftom * s - (UNIT - s + 1);
    Product(side, short);
    assert side * short == side * (ftom * s) - side * UNIT + side * s - side;
    assert (side * ftom + 1) * s == side * (ftom * s) + s;
    MtofAtLeast(v, side * ftom + 1, side - 1);
  }

  /** AM_drawMline loses nothing worth showing: a visible point of a line of the map that is
      not within four pixels of what is drawn is that close to the border of the frame. */
  lemma MapComplete(v: View, ftom: nat, ml: Line, q: Spot)
    requires Activated(v, ftom) && AutomapCover.Visible(v, q) && OnSegment(LineToFrame(v, ml), q, 0)
    ensures Covered(v, MapClipped(v, ml), q, 4)
  {
    WindowReaches(v, v.f_w, ftom);
    WindowReaches(v, v.f_h, ftom);
    if Rejected(v, ml) {
      RejectedAtBorder(v, ml, q, 1);
    } else {
      ClippedComplete(v, LineToFrame(v, ml), q);
    }
  }

  /** At scale 14000 the window is 98170560 wide, and a line in the last column is dropped. */
  lemma LastColumnDropped(v: View, ml: Line)
    requires v == View(0, 0, 320, 168, 0, 0, 320 * 306783, 168 * 306783, 14000)
    requires ml == Line(Point(v.m_x2 + 1, 10_000_000), Point(v.m_x2 + 1, 20_000_000))
    ensures Activated(v, 306783) && Rejected(v, ml)
    ensures Clipped(v, LineToFrame(v, ml)) == Shown(Line(Point(319, 136), Point(319, 103)))
  {
    assert ToFrame(v, ml.a) == Point(319, 136);
    assert ToFrame(v, ml.b) == Point(319, 103);
  }
}
