// The other half of clipping: what is not shown was not worth showing.  Points of the ideal
// line are real.
module AutomapCover {
  import opened CArithmetic
  import opened AutomapClip

  datatype Spot = Spot(x: real, y: real)

  function R(a: int): real { a as real }

  predicate Within(a: real, b: real, n: nat) {
    -R(n) <= a - b <= R(n)
  }

  /** a + t * (b - a) */
  function Along(a: int, b: int, t: real): real {
    R(a) + t * R(b - a)
  }

  /** q lies in the frame. */
  predicate Visible(v: View, q: Spot) {
    0.0 <= q.x <= R(v.f_w - 1) && 0.0 <= q.y <= R(v.f_h - 1)
  }

  /** q lies no more than n pixels from an edge of the frame. */
  predicate AtBorder(v: View, q: Spot, n: nat) {
    q.x <= R(n) || q.x >= R(v.f_w - 1 - n) || q.y <= R(n) || q.y >= R(v.f_h - 1 - n)
  }

  predicate OnAt(l: Line, q: Spot, n: nat, t: real) {
    0.0 <= t <= 1.0 && Within(Along(l.a.x, l.b.x, t), q.x, n) && Within(Along(l.a.y, l.b.y, t), q.y, n)
  }

  /** q lies no more than n pixels across and n pixels down from a point of the segment. */
  ghost predicate OnSegment(l: Line, q: Spot, n: nat) {
    exists t: real :: OnAt(l, q, n, t)
  }

  // ---------------------------------------------------------------------------
  // One clip

  /** Where a cut lies on the segment, and how close the rounded point is to it. */
  lemma CutAt(p: int, q: int, s: int, t: int, e: int) returns (u: real)
    requires s != t && Between(e, s, t)
    ensures 0.0 <= u <= 1.0 && Along(s, t, u) == R(e) && Within(R(Cut(p, q, s, t, e)), Along(p, q, u), 1)
  {
    var r := CutOnLine(p, q, s, t, e);
    u := CutPoint(p, q, s, t, e, Cut(p, q, s, t, e), r);
  }

  lemma CutPoint(p: int, q: int, s: int, t: int, e: int, x: int, r: int) returns (u: real)
    requires s != t && Between(e, s, t) && (x - p) * (t - s) == (q - p) * (e - s) - r && Abs(r) < Abs(t - s)
    ensures 0.0 <= u <= 1.0 && Along(s, t, u) == R(e) && Within(R(x), Along(p, q, u), 1)
  {
    u := CutFraction(x - p, q - p, e - s, t - s, r);
    OnTheEdge(s, t, e, u);
  }

  lemma CutFraction(x: int, w: int, e: int, d: int, r: int) returns (u: real)
    requires d != 0 && x * d == w * e - r && Abs(r) < Abs(d) && (if d > 0 then 0 <= e <= d else d <= e <= 0)
    ensures 0.0 <= u <= 1.0 && u * R(d) == R(e) && -1.0 <= R(x) - u * R(w) <= 1.0
  {
    u := R(e) / R(d);
    Fraction(e, d, u);
    Rounded(x, w, e, d, r, u);
  }

  lemma Rounded(x: int, w: int, e: int, d: int, r: int, u: real)
    requires d != 0 && x * d == w * e - r && Abs(r) < Abs(d) && u * R(d) == R(e)
    ensures -1.0 <= R(x) - u * R(w) <= 1.0
  {
    RealProduct(x, d);
    RealProduct(w, e);
    OffLine(R(x), R(w), R(e), R(d), u, R(r));
    SmallQuotient(R(x) - u * R(w), R(d), R(r));
  }

  lemma RealProduct(a: int, b: int)
    ensures R(a * b) == R(a) * R(b)
  {
  }

  lemma OffLine(x: real, w: real, e: real, d: real, u: real, r: real)
    requires x * d == w * e - r && u * d == e
    ensures (x - u * w) * d == -r
  {
    assert w * e == (u * w) * d;
  }

  lemma OnTheEdge(s: int, t: int, e: int, u: real)
    requires u * R(t - s) == R(e - s)
    ensures Along(s, t, u) == R(e)
  {
  }

  lemma Fraction(a: int, d: int, u: real)
    requires d != 0 && (if d > 0 then 0 <= a <= d else d <= a <= 0) && u * R(d) == R(a)
    ensures 0.0 <= u <= 1.0
  {
    ProperFraction(R(a), R(d), u);
  }

  lemma ProperFraction(a: real, d: real, u: real)
    requires (if d > 0.0 then 0.0 <= a <= d else d <= a <= 0.0) && d != 0.0 && u * d == a
    ensures 0.0 <= u <= 1.0
  {
    SignOf(u - 1.0, d);
    SignOf(0.0 - u, d);
    assert (u - 1.0) * d == a - d && (0.0 - u) * d == 0.0 - a;
  }

  lemma SignOf(x: real, d: real)
    ensures x > 0.0 && d > 0.0 ==> x * d > 0.0
    ensures x > 0.0 && d < 0.0 ==> x * d < 0.0
  {
  }

  lemma SmallQuotient(x: real, d: real, r: real)
    requires x * d == -r && (if d > 0.0 then -d < r < d else d < r < -d)
    ensures -1.0 <= x <= 1.0
  {
    SignOf(x - 1.0, d);
    SignOf(-1.0 - x, d);
    assert (x - 1.0) * d == x * d - d && (-1.0 - x) * d == -d - x * d;
  }

  /** A point beyond the cut, seen from the end that is kept, moves by no more than the end
      that is replaced. */
  lemma KeepFromB(a: int, b: int, p: int, u: real, t: real, t': real, q: real, n: nat)
    requires 0.0 <= t' <= 1.0 && t' * (1.0 - u) == t - u
    requires Within(R(p), Along(a, b, u), 1) && Within(Along(a, b, t), q, n)
    ensures Within(Along(p, b, t'), q, n + 1)
  {
    var c := Along(a, b, u);
    assert t * R(b - a) == u * R(b - a) + t' * (1.0 - u) * R(b - a);
    assert R(b) - c == (1.0 - u) * R(b - a);
    assert Along(p, b, t') - Along(a, b, t) == (1.0 - t') * (R(p) - c);
    Shrunk(1.0 - t', R(p) - c);
  }

  lemma KeepFromA(a: int, b: int, p: int, u: real, t: real, t': real, q: real, n: nat)
    requires 0.0 <= t' <= 1.0 && t' * u == t
    requires Within(R(p), Along(a, b, u), 1) && Within(Along(a, b, t), q, n)
    ensures Within(Along(a, p, t'), q, n + 1)
  {
    var c := Along(a, b, u);
    assert Along(a, p, t') - Along(a, b, t) == t' * (R(p) - c) by {
      assert t * R(b - a) == t' * (u * R(b - a));
    }
    Shrunk(t', R(p) - c);
  }

  lemma Shrunk(k: real, x: real)
    requires 0.0 <= k <= 1.0 && -1.0 <= x <= 1.0
    ensures -1.0 <= k * x <= 1.0
  {
    assert k * (1.0 - x) >= 0.0 && k * (1.0 + x) >= 0.0;
    assert k * (1.0 - x) == k - k * x && k * (1.0 + x) == k + k * x;
  }

  /** The rounded point stands for the point at u of the segment. */
  predicate Stands(l: Line, p: Point, u: real) {
    0.0 <= u <= 1.0 && Within(R(p.x), Along(l.a.x, l.b.x, u), 1) && Within(R(p.y), Along(l.a.y, l.b.y, u), 1)
  }

  lemma KeptBehindA(l: Line, p: Point, u: real, q: Spot, n: nat, t: real)
    requires Stands(l, p, u) && OnAt(l, q, n, t) && u <= t
    ensures OnSegment(l.(a := p), q, n + 1)
  {
    var t' := if u < 1.0 then (t - u) / (1.0 - u) else 1.0;
    Ratio(t - u, 1.0 - u, t');
    KeepFromB(l.a.x, l.b.x, p.x, u, t, t', q.x, n);
    KeepFromB(l.a.y, l.b.y, p.y, u, t, t', q.y, n);
    assert OnAt(l.(a := p), q, n + 1, t');
  }

  lemma KeptBeforeB(l: Line, p: Point, u: real, q: Spot, n: nat, t: real)
    requires Stands(l, p, u) && OnAt(l, q, n, t) && t <= u
    ensures OnSegment(l.(b := p), q, n + 1)
  {
    var t' := if u > 0.0 then t / u else 0.0;
    Ratio(t, u, t');
    KeepFromA(l.a.x, l.b.x, p.x, u, t, t', q.x, n);
    KeepFromA(l.a.y, l.b.y, p.y, u, t, t', q.y, n);
    assert OnAt(l.(b := p), q, n + 1, t');
  }

  lemma Ratio(x: real, d: real, t: real)
    requires 0.0 <= x <= d && (d > 0.0 ==> t == x / d) && 0.0 <= t && (d == 0.0 ==> t <= 1.0)
    ensures 0.0 <= t <= 1.0 && t * d == x
  {
    if d > 0.0 { assert t * d == x; }
  }

  // ---------------------------------------------------------------------------
  // What a clip keeps

  /** The cut of a clip, as a point of the segment. */
  lemma ClipStands(v: View, l: Line, outside: Outcode) returns (u: real)
    requires Clippable(v, l, outside)
    ensures l.a.y != l.b.y || !(outside.top || outside.bottom)
    ensures l.a.x != l.b.x || !(outside.right || outside.left)
    ensures Stands(l, Clip(v, l, outside), u)
    ensures outside.top || outside.bottom ==> Along(l.a.y, l.b.y, u) == R(if outside.top then 0 else v.f_h)
    ensures !outside.top && !outside.bottom ==> Along(l.a.x, l.b.x, u) == R(if outside.right then v.f_w - 1 else 0)
  {
    ClipIsCut(v, l, outside);
    if outside.top || outside.bottom {
      u := CutAt(l.a.x, l.b.x, l.a.y, l.b.y, if outside.top then 0 else v.f_h);
    } else {
      u := CutAt(l.a.y, l.b.y, l.a.x, l.b.x, if outside.right then v.f_w - 1 else 0);
    }
  }

  lemma Slide(a: int, b: int, t: real, u: real)
    requires t <= u
    ensures a <= b ==> Along(a, b, t) <= Along(a, b, u)
    ensures a >= b ==> Along(a, b, t) >= Along(a, b, u)
  {
    assert Along(a, b, u) - Along(a, b, t) == (u - t) * R(b - a);
  }

  /** A visible point close to the segment is close to what a clip leaves of it, or to the
      border. */
  lemma ClipKeeps(v: View, l: Line, q: Spot, n: nat)
    requires Clippable(v, l, Outside(v, l)) && Visible(v, q) && OnSegment(l, q, n)
    ensures OnSegment(ClipEnd(v, l), q, n + 1) || AtBorder(v, q, n)
  {
    var out := Outside(v, l);
    var u := ClipStands(v, l, out);
    var t: real :| OnAt(l, q, n, t);
    var p := Clip(v, l, out);
    if out == Code(v, l.a) {
      if u <= t { KeptBehindA(l, p, u, q, n, t); } else { CutOffA(v, l, out, u, t, q, n); }
    } else {
      if t <= u { KeptBeforeB(l, p, u, q, n, t); } else { CutOffB(v, l, out, u, t, q, n); }
    }
  }

  lemma CutOffA(v: View, l: Line, out: Outcode, u: real, t: real, q: Spot, n: nat)
    requires Clippable(v, l, out) && out == Code(v, l.a) && Visible(v, q) && OnAt(l, q, n, t) && t <= u <= 1.0
    requires out.top || out.bottom ==> Along(l.a.y, l.b.y, u) == R(if out.top then 0 else v.f_h)
    requires !out.top && !out.bottom ==> Along(l.a.x, l.b.x, u) == R(if out.right then v.f_w - 1 else 0)
    ensures AtBorder(v, q, n)
  {
    if out.top || out.bottom { Slide(l.a.y, l.b.y, t, u); } else { Slide(l.a.x, l.b.x, t, u); }
  }

  lemma CutOffB(v: View, l: Line, out: Outcode, u: real, t: real, q: Spot, n: nat)
    requires Clippable(v, l, out) && out == Code(v, l.b) && Visible(v, q) && OnAt(l, q, n, t) && 0.0 <= u <= t
    requires out.top || out.bottom ==> Along(l.a.y, l.b.y, u) == R(if out.top then 0 else v.f_h)
    requires !out.top && !out.bottom ==> Along(l.a.x, l.b.x, u) == R(if out.right then v.f_w - 1 else 0)
    ensures AtBorder(v, q, n)
  {
    if out.top || out.bottom { Slide(l.a.y, l.b.y, u, t); } else { Slide(l.a.x, l.b.x, u, t); }
  }

  /** A rejected segment comes no closer to the frame than its border. */
  lemma ApartKeeps(v: View, l: Line, q: Spot, n: nat)
    requires Apart(v, l) && Visible(v, q) && OnSegment(l, q, n)
    ensures AtBorder(v, q, n)
  {
    var t: real :| OnAt(l, q, n, t);
    var both := Both(Code(v, l.a), Code(v, l.b));
    if both.left {
      Hull(l.a.x, l.b.x, t, 0);
    } else if both.right {
      Hull(l.a.x, l.b.x, t, v.f_w);
    } else if both.top {
      Hull(l.a.y, l.b.y, t, 0);
    } else {
      Hull(l.a.y, l.b.y, t, v.f_h);
    }
  }

  lemma Hull(a: int, b: int, t: real, k: int)
    requires 0.0 <= t <= 1.0
    ensures (a <= k && b <= k ==> Along(a, b, t) <= R(k)) && (a >= k && b >= k ==> Along(a, b, t) >= R(k))
  {
    Slide(a, b, 0.0, t);
    Slide(a, b, t, 1.0);
  }

  /** q is within n pixels of what is shown, or of the border of the frame. */
  ghost predicate Covered(v: View, c: Visible, q: Spot, n: nat) {
    (c.Shown? && OnSegment(c.line, q, n)) || AtBorder(v, q, n)
  }

  lemma CoveredWider(v: View, c: Visible, q: Spot, n: nat, k: nat)
    requires Covered(v, c, q, n) && n <= k
    ensures Covered(v, c, q, k)
  {
    if c.Shown? && OnSegment(c.line, q, n) {
      var t: real :| OnAt(c.line, q, n, t);
      assert OnAt(c.line, q, k, t);
    }
  }

  /** Nothing worth showing is lost: a visible point of the line that is not within a pixel
      per clip of what is shown is that close to the border of the frame. */
  lemma {:induction false} ClippedCovers(v: View, l: Line, q: Spot, n: nat)
    requires v.f_w > 0 && v.f_h > 0 && Visible(v, q) && OnSegment(l, q, n)
    ensures Covered(v, Clipped(v, l), q, n + TotalBits(v, l))
    decreases TotalBits(v, l), 1
  {
    if Apart(v, l) {
      ApartKeeps(v, l, q, n);
      CoveredWider(v, Clipped(v, l), q, n, n + TotalBits(v, l));
    } else if TotalBits(v, l) > 0 {
      ClipKeeps(v, l, q, n);
      NextCovers(v, l, ClipEnd(v, l), q, n);
    }
  }

  lemma {:induction false} NextCovers(v: View, l: Line, r: Line, q: Spot, n: nat)
    requires v.f_w > 0 && v.f_h > 0 && Visible(v, q) && !Apart(v, l) && TotalBits(v, l) > 0 && r == ClipEnd(v, l)
    requires OnSegment(r, q, n + 1) || AtBorder(v, q, n)
    ensures Covered(v, Clipped(v, l), q, n + TotalBits(v, l))
    decreases TotalBits(v, l), 0
  {
    var c := Clipped(v, l);
    if !OnSegment(r, q, n + 1) {
      CoveredWider(v, c, q, n, n + TotalBits(v, l));
    } else if Apart(v, r) {
      ApartKeeps(v, r, q, n + 1);
      CoveredWider(v, c, q, n + 1, n + TotalBits(v, l));
    } else {
      ClippedCovers(v, r, q, n + 1);
      CoveredWider(v, c, q, n + 1 + TotalBits(v, r), n + TotalBits(v, l));
    }
  }

  /** For a whole line: within four pixels. */
  lemma ClippedComplete(v: View, l: Line, q: Spot)
    requires v.f_w > 0 && v.f_h > 0 && Visible(v, q) && OnSegment(l, q, 0)
    ensures Covered(v, Clipped(v, l), q, 4)
  {
    ClippedCovers(v, l, q, 0);
    FourBits(v, l);
    CoveredWider(v, Clipped(v, l), q, TotalBits(v, l), 4);
  }
}
