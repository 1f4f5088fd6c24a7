// AM_clipMline: a line of the map cut down to the frame, in truncating integer arithmetic.
module AutomapClip {
  import opened CArithmetic

  datatype Point = Point(x: int, y: int)
  datatype Line = Line(a: Point, b: Point)

  /** The frame buffer window, and the map window it shows. */
  datatype View = View(f_x: int, f_y: int, f_w: int, f_h: int,
                       m_x: int, m_y: int, m_x2: int, m_y2: int, scale_mtof: int)

  // ---------------------------------------------------------------------------
  // Outcodes

  /** LEFT, RIGHT, BOTTOM and TOP as flags. */
  datatype Outcode = Outcode(left: bool, right: bool, bottom: bool, top: bool)

  const INSIDE := Outcode(false, false, false, false)

  function Both(c: Outcode, d: Outcode): Outcode {
    Outcode(c.left && d.left, c.right && d.right, c.bottom && d.bottom, c.top && d.top)
  }

  /** DOOUTCODE */
  function Code(v: View, p: Point): Outcode {
    Outcode(p.x < 0, p.x >= v.f_w && !(p.x < 0), p.y >= v.f_h && !(p.y < 0), p.y < 0)
  }

  /** The codes on the map, where y grows upwards. */
  function MapCode(v: View, p: Point): Outcode {
    Outcode(p.x < v.m_x, p.x > v.m_x2 && !(p.x < v.m_x), p.y < v.m_y && !(p.y > v.m_y2), p.y > v.m_y2)
  }

  predicate InFrame(v: View, p: Point) {
    0 <= p.x < v.f_w && 0 <= p.y < v.f_h
  }

  function Count(b: bool): nat { if b then 1 else 0 }

  function Bits(c: Outcode): nat {
    Count(c.left) + Count(c.right) + Count(c.bottom) + Count(c.top)
  }

  /** Both endpoints lie beyond one side of the frame. */
  predicate Apart(v: View, l: Line) {
    Both(Code(v, l.a), Code(v, l.b)) != INSIDE
  }

  // ---------------------------------------------------------------------------
  // To frame buffer coordinates

  /** FixedMul: the shift rounds down. */
  function FixedMul(a: int, b: int): int {
    a * b / 0x1_0000
  }

  function Mtof(v: View, x: int): int {
    FixedMul(x, v.scale_mtof) / 0x1_0000
  }

  function ToFrame(v: View, p: Point): Point {
    Point(v.f_x + Mtof(v, p.x - v.m_x), v.f_y + (v.f_h - Mtof(v, p.y - v.m_y)))
  }

  function LineToFrame(v: View, l: Line): Line {
    Line(ToFrame(v, l.a), ToFrame(v, l.b))
  }

  /** Both ends lie beyond one side of the map window. */
  predicate Rejected(v: View, ml: Line) {
    Both(MapCode(v, ml.a), MapCode(v, ml.b)) != INSIDE
  }

  // ---------------------------------------------------------------------------
  // Geometry

  predicate Between(x: int, p: int, q: int) {
    p <= x <= q || q <= x <= p
  }

  /** p lies in the bounding box of l. */
  predicate InBox(p: Point, l: Line) {
    Between(p.x, l.a.x, l.b.x) && Between(p.y, l.a.y, l.b.y)
  }

  /** Twice the area spanned by l and p: 0 on the line, and otherwise the distance from it
      times the length of l. */
  function Cross(l: Line, p: Point): int {
    (p.x - l.a.x) * (l.b.y - l.a.y) - (p.y - l.a.y) * (l.b.x - l.a.x)
  }

  function Span(l: Line): nat {
    Abs(l.b.x - l.a.x) + Abs(l.b.y - l.a.y)
  }

  /** p is off l by no more than n pixels across and n pixels down. */
  predicate Near(l: Line, p: Point, n: nat) {
    Abs(Cross(l, p)) <= n * Span(l)
  }

  // ---------------------------------------------------------------------------
  // Cutting a line: p and q are the coordinates of a and b that are looked for, s and t
  // the ones that cross the edge e

  function Cut(p: int, q: int, s: int, t: int, e: int): int
    requires s != t
  {
    p + CDiv((q - p) * (e - s), t - s)
  }

  lemma CutBetween(p: int, q: int, s: int, t: int, e: int)
    requires s != t && Between(e, s, t)
    ensures Between(Cut(p, q, s, t, e), p, q)
  {
    CDivScaled(q - p, e - s, t - s);
  }

  lemma CutOnLine(p: int, q: int, s: int, t: int, e: int) returns (r: int)
    requires s != t
    ensures (Cut(p, q, s, t, e) - p) * (t - s) == (q - p) * (e - s) - r && Abs(r) < Abs(t - s)
  {
    var n, d := (q - p) * (e - s), t - s;
    CDivRemainder(n, d);
    r := n - d * CDiv(n, d);
    assert CDiv(n, d) * d == d * CDiv(n, d);
  }

  /** A value that sits between two others, up to a rounding remainder, is no larger. */
  lemma Mean(c: int, ca: int, cb: int, u: int, v: int, g: int, r: int, m: int)
    requires u + v != 0 && ((u >= 0 && v >= 0) || (u <= 0 && v <= 0)) && Abs(r) < Abs(u + v)
    requires c * (u + v) == u * ca + v * cb - g * r
    requires Abs(ca) <= m && Abs(cb) <= m
    ensures Abs(c) <= m + Abs(g)
  {
    if u + v > 0 {
      MeanUp(c, ca, cb, u, v, g, r, m);
    } else {
      assert c * (-u + -v) == -u * ca + -v * cb - g * -r;
      MeanUp(c, ca, cb, -u, -v, g, -r, m);
    }
  }

  lemma MeanUp(c: int, ca: int, cb: int, u: int, v: int, g: int, r: int, m: int)
    requires u + v > 0 && u >= 0 && v >= 0 && Abs(r) < u + v
    requires c * (u + v) == u * ca + v * cb - g * r
    requires Abs(ca) <= m && Abs(cb) <= m
    ensures Abs(c) <= m + Abs(g)
  {
    var d, k := u + v, m + Abs(g);
    Weighted(ca, cb, u, v, m);
    Weighted(-ca, -cb, u, v, m);
    ProductBound(g, r, d);
    Distribute(m, Abs(g), d);
    Negate(c, d);
    Negate(ca, u);
    Negate(cb, v);
    Cancel(c, k, d);
    Cancel(-c, k, d);
  }

  lemma Distribute(m: int, n: int, d: int)
    ensures (m + n) * d == m * d + n * d
  {
  }

  lemma Negate(c: int, d: int)
    ensures -c * d == -(c * d) && d * -c == -(d * c) && d * c == c * d
  {
  }

  lemma Weighted(ca: int, cb: int, u: int, v: int, m: int)
    requires u >= 0 && v >= 0 && ca <= m && cb <= m
    ensures u * ca + v * cb <= m * (u + v)
  {
    Product(u, m - ca);
    Product(v, m - cb);
    assert u * (m - ca) == u * m - u * ca && v * (m - cb) == v * m - v * cb;
  }

  lemma ProductBound(g: int, r: int, d: int)
    requires Abs(r) < d
    ensures -(Abs(g) * d) <= g * r <= Abs(g) * d
  {
    Product(Abs(g), d - Abs(r));
    assert Abs(g * r) == Abs(g) * Abs(r);
  }

  lemma Cancel(c: int, k: int, d: int)
    requires d > 0 && c * d <= k * d
    ensures c <= k
  {
    if c > k { Product(c - k - 1, d); }
  }

  // ---------------------------------------------------------------------------
  // One clip

  /** The point put in place of an endpoint with this outcode. */
  function Clip(v: View, l: Line, outside: Outcode): Point
    requires outside.top || outside.bottom ==> l.a.y != l.b.y
    requires outside.right || outside.left ==> l.a.x != l.b.x
  {
    if outside.top then
      Point(l.a.x + CDiv((l.b.x - l.a.x) * l.a.y, l.a.y - l.b.y), 0)
    else if outside.bottom then
      Point(l.a.x + CDiv((l.b.x - l.a.x) * (l.a.y - v.f_h), l.a.y - l.b.y), v.f_h - 1)
    else if outside.right then
      Point(v.f_w - 1, l.a.y + CDiv((l.b.y - l.a.y) * (v.f_w - 1 - l.a.x), l.b.x - l.a.x))
    else if outside.left then
      Point(0, l.a.y + CDiv((l.b.y - l.a.y) * -l.a.x, l.b.x - l.a.x))
    else l.a
  }

  /** The line and the code of one of its ends, when the other end lies on the near side. */
  predicate Clippable(v: View, l: Line, outside: Outcode) {
    && v.f_w > 0 && v.f_h > 0 && outside != INSIDE && !Apart(v, l)
    && (outside == Code(v, l.a) || outside == Code(v, l.b))
  }

  lemma ClipDefined(v: View, l: Line, outside: Outcode)
    requires Clippable(v, l, outside)
    ensures outside.top || outside.bottom ==> l.a.y != l.b.y
    ensures outside.right || outside.left ==> l.a.x != l.b.x
  {
  }

  lemma ClipIsCut(v: View, l: Line, outside: Outcode)
    requires Clippable(v, l, outside)
    ensures l.a.y != l.b.y || !(outside.top || outside.bottom)
    ensures outside.top || outside.bottom ==>
      var e := if outside.top then 0 else v.f_h;
      l.a.y != l.b.y && Between(e, l.a.y, l.b.y)
      && Clip(v, l, outside) == Point(Cut(l.a.x, l.b.x, l.a.y, l.b.y, e), if outside.top then 0 else v.f_h - 1)
    ensures !outside.top && !outside.bottom ==>
      var e := if outside.right then v.f_w - 1 else 0;
      l.a.x != l.b.x && Between(e, l.a.x, l.b.x)
      && Clip(v, l, outside) == Point(e, Cut(l.a.y, l.b.y, l.a.x, l.b.x, e))
  {
    if outside.top || outside.bottom {
      var e := if outside.top then 0 else v.f_h;
      CDivNegated((l.b.x - l.a.x) * (e - l.a.y), l.b.y - l.a.y);
      assert -((l.b.x - l.a.x) * (e - l.a.y)) == (l.b.x - l.a.x) * (l.a.y - e);
    }
  }

  /** A clip stays in the bounding box of the line. */
  lemma ClipInBox(v: View, l: Line, outside: Outcode)
    requires Clippable(v, l, outside)
    ensures l.a.y != l.b.y || !(outside.top || outside.bottom)
    ensures l.a.x != l.b.x || !(outside.right || outside.left)
    ensures InBox(Clip(v, l, outside), l)
  {
    ClipIsCut(v, l, outside);
    if outside.top || outside.bottom {
      CutBetween(l.a.x, l.b.x, l.a.y, l.b.y, if outside.top then 0 else v.f_h);
    } else {
      CutBetween(l.a.y, l.b.y, l.a.x, l.b.x, if outside.right then v.f_w - 1 else 0);
    }
  }

  /** A clip moves the end point off the original line by at most a pixel. */
  lemma ClipNear(v: View, l: Line, outside: Outcode, whole: Line, n: nat)
    requires Clippable(v, l, outside) && Near(whole, l.a, n) && Near(whole, l.b, n)
    ensures l.a.y != l.b.y || !(outside.top || outside.bottom)
    ensures l.a.x != l.b.x || !(outside.right || outside.left)
    ensures Near(whole, Clip(v, l, outside), n + 1)
  {
    ClipIsCut(v, l, outside);
    var m := n * Span(whole);
    assert (n + 1) * Span(whole) == m + Span(whole);
    if outside.top || outside.bottom {
      var e := if outside.top then 0 else v.f_h;
      var x := Cut(l.a.x, l.b.x, l.a.y, l.b.y, e);
      CutDown(l, whole, e, m);
      if outside.bottom && !outside.top { CrossUp(whole, Point(x, e)); }
    } else {
      CutAcross(l, whole, if outside.right then v.f_w - 1 else 0, m);
    }
  }

  lemma CrossUp(l: Line, p: Point)
    ensures Cross(l, Point(p.x, p.y - 1)) == Cross(l, p) + (l.b.x - l.a.x)
  {
  }

  lemma CrossMove(l: Line, p: Point, q: Point)
    ensures Cross(l, q) - Cross(l, p) == (q.x - p.x) * (l.b.y - l.a.y) - (q.y - p.y) * (l.b.x - l.a.x)
  {
  }

  lemma CrossMoveAcross(l: Line, p: Point, q: Point)
    ensures Cross(l, q) - Cross(l, p) == (q.y - p.y) * -(l.b.x - l.a.x) - (q.x - p.x) * -(l.b.y - l.a.y)
  {
    CrossMove(l, p, q);
    Negate(l.b.x - l.a.x, q.y - p.y);
    Negate(l.b.y - l.a.y, q.x - p.x);
  }

  lemma CutDown(l: Line, whole: Line, e: int, m: int)
    requires l.a.y != l.b.y && Between(e, l.a.y, l.b.y)
    requires Abs(Cross(whole, l.a)) <= m && Abs(Cross(whole, l.b)) <= m
    ensures Abs(Cross(whole, Point(Cut(l.a.x, l.b.x, l.a.y, l.b.y, e), e))) <= m + Abs(whole.b.y - whole.a.y)
  {
    var x := Cut(l.a.x, l.b.x, l.a.y, l.b.y, e);
    var p := Point(x, e);
    var r := CutOnLine(l.a.x, l.b.x, l.a.y, l.b.y, e);
    CrossMove(whole, l.a, p);
    CrossMove(whole, l.a, l.b);
    Interpolate(Cross(whole, p), Cross(whole, l.a), Cross(whole, l.b), x - l.a.x, l.b.x - l.a.x, e - l.a.y, l.b.y - l.a.y,
                whole.b.y - whole.a.y, whole.b.x - whole.a.x, r);
    Mean(Cross(whole, p), Cross(whole, l.a), Cross(whole, l.b), l.b.y - e, e - l.a.y, whole.b.y - whole.a.y, r, m);
  }

  lemma CutAcross(l: Line, whole: Line, e: int, m: int)
    requires l.a.x != l.b.x && Between(e, l.a.x, l.b.x)
    requires Abs(Cross(whole, l.a)) <= m && Abs(Cross(whole, l.b)) <= m
    ensures Abs(Cross(whole, Point(e, Cut(l.a.y, l.b.y, l.a.x, l.b.x, e)))) <= m + Abs(whole.b.x - whole.a.x)
  {
    var y := Cut(l.a.y, l.b.y, l.a.x, l.b.x, e);
    var p := Point(e, y);
    var r := CutOnLine(l.a.y, l.b.y, l.a.x, l.b.x, e);
    CrossMoveAcross(whole, l.a, p);
    CrossMoveAcross(whole, l.a, l.b);
    var g := -(whole.b.x - whole.a.x);
    Interpolate(Cross(whole, p), Cross(whole, l.a), Cross(whole, l.b), y - l.a.y, l.b.y - l.a.y, e - l.a.x, l.b.x - l.a.x,
                g, -(whole.b.y - whole.a.y), r);
    Mean(Cross(whole, p), Cross(whole, l.a), Cross(whole, l.b), l.b.x - e, e - l.a.x, g, r, m);
  }

  /** An affine function at a rounded point between two others. */
  lemma Interpolate(c: int, ca: int, cb: int, i: int, j: int, k: int, d: int, g: int, f: int, r: int)
    requires i * d == j * k - r
    requires c - ca == i * g - k * f && cb - ca == j * g - d * f
    ensures c * d == (d - k) * ca + k * cb - g * r
  {
    assert c * d == ca * d + (i * g - k * f) * d;
    assert (i * g - k * f) * d == g * (i * d) - k * (d * f);
    assert g * (i * d) == g * (j * k) - g * r;
    assert k * cb - k * ca == k * (j * g - d * f);
  }

  // ---------------------------------------------------------------------------
  // The clipping loop

  function TotalBits(v: View, l: Line): nat {
    Bits(Code(v, l.a)) + Bits(Code(v, l.b))
  }

  /** The end that is clipped first. */
  function Outside(v: View, l: Line): Outcode {
    if Code(v, l.a) != INSIDE then Code(v, l.a) else Code(v, l.b)
  }

  function ClipEnd(v: View, l: Line): (r: Line)
    requires Clippable(v, l, Outside(v, l))
    ensures TotalBits(v, r) < TotalBits(v, l) || Apart(v, r)
  {
    ClipInBox(v, l, Outside(v, l));
    if Outside(v, l) == Code(v, l.a) then l.(a := Clip(v, l, Outside(v, l)))
    else l.(b := Clip(v, l, Outside(v, l)))
  }

  datatype Visible = Hidden | Shown(line: Line)

  /** What remains of a line of the frame. */
  function Clipped(v: View, l: Line): Visible
    requires v.f_w > 0 && v.f_h > 0
    decreases TotalBits(v, l)
  {
    if Apart(v, l) then Hidden
    else if TotalBits(v, l) == 0 then Shown(l)
    else
      var r := ClipEnd(v, l);
      if Apart(v, r) then Hidden else Clipped(v, r)
  }

  /** What AM_clipMline makes of a line of the map. */
  function MapClipped(v: View, ml: Line): Visible
    requires v.f_w > 0 && v.f_h > 0
  {
    if Rejected(v, ml) then Hidden else Clipped(v, LineToFrame(v, ml))
  }

  predicate OnEdge(v: View, p: Point) {
    p.x == 0 || p.x == v.f_w - 1 || p.y == 0 || p.y == v.f_h - 1
  }

  lemma InBoxTrans(p: Point, l: Line, m: Line)
    requires InBox(p, l) && InBox(l.a, m) && InBox(l.b, m)
    ensures InBox(p, m)
  {
  }

  lemma NearMore(l: Line, p: Point, n: nat, k: nat)
    requires Near(l, p, n) && n <= k
    ensures Near(l, p, k)
  {
    Product(k - n, Span(l));
    assert k * Span(l) == n * Span(l) + (k - n) * Span(l);
  }

  lemma ClipEndFaithful(v: View, l: Line, whole: Line, n: nat)
    requires Clippable(v, l, Outside(v, l))
    requires InBox(l.a, whole) && InBox(l.b, whole) && Near(whole, l.a, n) && Near(whole, l.b, n)
    ensures var r := ClipEnd(v, l);
            && InBox(r.a, whole) && InBox(r.b, whole) && Near(whole, r.a, n + 1) && Near(whole, r.b, n + 1)
            && (r.a == l.a || OnEdge(v, r.a)) && (r.b == l.b || OnEdge(v, r.b))
            && (Code(v, l.a) == INSIDE ==> r.a == l.a) && (Code(v, l.b) == INSIDE ==> r.b == l.b)
  {
    var out := Outside(v, l);
    ClipInBox(v, l, out);
    InBoxTrans(Clip(v, l, out), l, whole);
    ClipNear(v, l, out, whole, n);
    NearMore(whole, l.a, n, n + 1);
    NearMore(whole, l.b, n, n + 1);
  }

  /** The part of a line that is shown lies in the frame and in the line's bounding box,
      ends where the line ends or at the edge of the frame, and is off the line by at most
      a pixel per clip. */
  lemma {:induction false} ClippedFaithful(v: View, l: Line, whole: Line, n: nat)
    requires v.f_w > 0 && v.f_h > 0 && Clipped(v, l).Shown?
    requires InBox(l.a, whole) && InBox(l.b, whole) && Near(whole, l.a, n) && Near(whole, l.b, n)
    ensures var r := Clipped(v, l).line;
            && InFrame(v, r.a) && InFrame(v, r.b) && InBox(r.a, whole) && InBox(r.b, whole)
            && (r.a == l.a || OnEdge(v, r.a)) && (r.b == l.b || OnEdge(v, r.b))
            && Near(whole, r.a, n + TotalBits(v, l)) && Near(whole, r.b, n + TotalBits(v, l))
    decreases TotalBits(v, l)
  {
    if TotalBits(v, l) > 0 {
      var r := ClipEnd(v, l);
      ClipEndFaithful(v, l, whole, n);
      ClippedFaithful(v, r, whole, n + 1);
      var k := n + 1 + TotalBits(v, r);
      NearMore(whole, Clipped(v, r).line.a, k, n + TotalBits(v, l));
      NearMore(whole, Clipped(v, r).line.b, k, n + TotalBits(v, l));
    }
  }

  /** Opposite ends have at most two bits each. */
  lemma FourBits(v: View, l: Line)
    requires v.f_w > 0 && v.f_h > 0
    ensures TotalBits(v, l) <= 4
  {
  }
}
