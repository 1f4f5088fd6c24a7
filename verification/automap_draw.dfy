// AM_drawFline and AM_drawMline: Bresenham's algorithm into the frame buffer, behind the
// clipping.
module AutomapDraw {
  import opened CArithmetic
  import opened Grid
  import opened AutomapClip

  function Sign(d: int): int {
    if d < 0 then -1 else 1
  }

  function Larger(a: nat, b: nat): nat {
    if a > b then a else b
  }

  /** m * k / major rounded to the nearest integer. */
  function Rounded(k: nat, major: nat, m: nat): nat {
    if major == 0 then 0 else (2 * (m * k) + major) / (2 * major)
  }

  /** Number of dots after the first. */
  function Steps(l: Line): nat {
    Larger(Abs(l.b.x - l.a.x), Abs(l.b.y - l.a.y))
  }

  /** The k-th dot: k steps along the longer axis, and the nearest point of the ideal line
      along the other. */
  function Dot(l: Line, k: nat): Point {
    var dx, dy := l.b.x - l.a.x, l.b.y - l.a.y;
    if Abs(dx) > Abs(dy)
    then Point(l.a.x + Sign(dx) * k, l.a.y + Sign(dy) * Rounded(k, Abs(dx), Abs(dy)))
    else Point(l.a.x + Sign(dx) * Rounded(k, Abs(dy), Abs(dx)), l.a.y + Sign(dy) * k)
  }

  /** The rounding is where the error stays within half a step. */
  lemma RoundedIs(k: nat, major: nat, m: nat, n: int)
    requires major > 0 && 0 - major <= 2 * (m * k) - 2 * (major * n) < major
    ensures Rounded(k, major, m) == n
  {
    var x, d := 2 * (m * k) + major, 2 * major;
    assert 2 * (major * n) == d * n;
    assert d * n <= x < d * n + d;
    QuotientIs(x, d, n);
  }

  lemma QuotientIs(x: int, d: int, n: int)
    requires d > 0 && d * n <= x < d * n + d
    ensures x / d == n
  {
    var q := x / d;
    assert x == d * q + x % d;
    if q > n { Product(q - n - 1, d); }
    if q < n { Product(n - q - 1, d); }
  }

  lemma HalfPixel(k: nat, major: nat, m: nat)
    requires major > 0
    ensures 0 - major <= 2 * (m * k) - 2 * (major * Rounded(k, major, m)) < major
  {
    var x, d := 2 * (m * k) + major, 2 * major;
    assert x == d * (x / d) + x % d;
    assert d * (x / d) == 2 * (major * (x / d));
  }

  lemma RoundedEnds(major: nat, m: nat)
    requires m <= major
    ensures Rounded(0, major, m) == 0 && Rounded(major, major, m) == m
  {
    if major > 0 {
      RoundedIs(0, major, m, 0);
      RoundedIs(major, major, m, m);
    }
  }

  lemma RoundedWithin(k: nat, major: nat, m: nat)
    requires m <= major && k <= major
    ensures Rounded(k, major, m) <= m
  {
    if major > 0 {
      var n := Rounded(k, major, m);
      HalfPixel(k, major, m);
      Product(m, major - k);
      assert m * (major - k) == m * major - m * k;
      NoMore(major, n, m);
    }
  }

  lemma NoMore(major: nat, n: int, m: int)
    requires major > 0 && 2 * (major * n) <= 2 * (m * major) + major
    ensures n <= m
  {
    Product(major, n - m - 1);
    assert major * (n - m - 1) == major * n - m * major - major;
  }

  /** Each step keeps the rounded coordinate or moves it by one. */
  lemma RoundedStep(k: nat, major: nat, m: nat)
    requires m <= major
    ensures 0 <= Rounded(k + 1, major, m) - Rounded(k, major, m) <= 1
  {
    if major > 0 {
      HalfPixel(k, major, m);
      var n := Rounded(k, major, m);
      if 2 * (m * (k + 1)) - 2 * (major * n) < major {
        RoundedIs(k + 1, major, m, n);
      } else {
        RoundedIs(k + 1, major, m, n + 1);
      }
    }
  }

  /** The dots begin and end at the ends of the line, and stay in its bounding box. */
  lemma DotEnds(l: Line)
    ensures Dot(l, 0) == l.a && Dot(l, Steps(l)) == l.b
  {
    var dx, dy := Abs(l.b.x - l.a.x), Abs(l.b.y - l.a.y);
    if dx > dy { RoundedEnds(dx, dy); } else { RoundedEnds(dy, dx); }
  }

  lemma DotInBox(l: Line, k: nat)
    requires k <= Steps(l)
    ensures InBox(Dot(l, k), l)
  {
    var dx, dy := Abs(l.b.x - l.a.x), Abs(l.b.y - l.a.y);
    if dx > dy { RoundedWithin(k, dx, dy); } else { RoundedWithin(k, dy, dx); }
  }

  /** Every dot is within half a pixel of the ideal line, measured along the shorter axis. */
  lemma DotNear(l: Line, k: nat)
    ensures 2 * Abs(Cross(l, Dot(l, k))) <= Steps(l)
  {
    var dx, dy := l.b.x - l.a.x, l.b.y - l.a.y;
    if Abs(dx) > Abs(dy) {
      HalfPixel(k, Abs(dx), Abs(dy));
      SignedCross(dx, dy, k, Rounded(k, Abs(dx), Abs(dy)));
    } else if Abs(dy) > 0 {
      HalfPixel(k, Abs(dy), Abs(dx));
      SignedCross(dx, dy, Rounded(k, Abs(dy), Abs(dx)), k);
    }
  }

  lemma SignedCross(dx: int, dy: int, i: nat, j: nat)
    ensures Abs((Sign(dx) * i) * dy - (Sign(dy) * j) * dx) == Abs(Abs(dy) * i - Abs(dx) * j)
  {
  }

  /** Consecutive dots touch, and no two dots coincide. */
  lemma DotsConnected(l: Line, k: nat)
    requires k < Steps(l)
    ensures var p, q := Dot(l, k), Dot(l, k + 1);
            Larger(Abs(q.x - p.x), Abs(q.y - p.y)) == 1
  {
    var dx, dy := Abs(l.b.x - l.a.x), Abs(l.b.y - l.a.y);
    if dx > dy { RoundedStep(k, dx, dy); } else { RoundedStep(k, dy, dx); }
  }

  lemma DotsDistinct(l: Line, j: nat, k: nat)
    requires Dot(l, j) == Dot(l, k)
    ensures j == k
  {
  }

  /** Cells of a frame buffer of width w that hold the first n dots of l. */
  ghost predicate Dotted(l: Line, n: nat, r: nat, c: nat) {
    exists k: nat :: k < n && Dot(l, k) == Point(c, r)
  }

  ghost predicate Drawn(before: seq<int>, after: seq<int>, w: nat, h: nat, l: Line, n: nat, color: int) {
    && |before| == |after|
    && forall r: nat, c: nat :: r < h && c < w && Cell(w, r, c) < |after| ==>
         after[Cell(w, r, c)] == if Dotted(l, n, r, c) then color else before[Cell(w, r, c)]
  }

  lemma DrawnOneMore(before: seq<int>, now: seq<int>, after: seq<int>, w: nat, h: nat, l: Line, n: nat, color: int, p: Point)
    requires Drawn(before, now, w, h, l, n, color) && p == Dot(l, n)
    requires 0 <= p.x < w && 0 <= p.y < h && |now| >= w * h
    requires Cell(w, p.y, p.x) < |now| && after == now[Cell(w, p.y, p.x) := color]
    ensures Drawn(before, after, w, h, l, n + 1, color)
  {
    forall r: nat, c: nat | r < h && c < w && Cell(w, r, c) < |after|
      ensures after[Cell(w, r, c)] == if Dotted(l, n + 1, r, c) then color else before[Cell(w, r, c)]
    {
      if Cell(w, r, c) == Cell(w, p.y, p.x) { CellDistinct(w, r, c, p.y, p.x); }
      if Dotted(l, n, r, c) {
        var k: nat :| k < n && Dot(l, k) == Point(c, r);
        assert k < n + 1;
      }
      if r == p.y && c == p.x { assert Dot(l, n) == Point(c, r); }
    }
  }

  class Automap {
    var view: View
    const fb: array<int>

    constructor (view: View, fb: array<int>)
      ensures this.view == view && this.fb == fb
    {
      this.view, this.fb := view, fb;
    }

    /** The frame fits into the frame buffer. */
    predicate Valid()
      reads this
    {
      view.f_w > 0 && view.f_h > 0 && fb.Length >= view.f_w * view.f_h
    }

    /** AM_clipMline: at most four turns of its loop. */
    method ClipMline(ml: Line) returns (r: Visible, ghost clips: nat)
      requires Valid()
      ensures r == MapClipped(view, ml)
      ensures clips <= 4
    {
      clips := 0;
      if Both(MapCode(view, ml.a), MapCode(view, ml.b)) != INSIDE { return Hidden, clips; }
      var fl := LineToFrame(view, ml);
      var outcode1, outcode2 := Code(view, fl.a), Code(view, fl.b);
      if Both(outcode1, outcode2) != INSIDE { return Hidden, clips; }
      FourBits(view, fl);
      while outcode1 != INSIDE || outcode2 != INSIDE
        invariant outcode1 == Code(view, fl.a) && outcode2 == Code(view, fl.b) && !Apart(view, fl)
        invariant Clipped(view, fl) == Clipped(view, LineToFrame(view, ml))
        invariant clips + TotalBits(view, fl) <= 4
        decreases TotalBits(view, fl)
      {
        var outside := if outcode1 != INSIDE then outcode1 else outcode2;
        ghost var next := ClipEnd(view, fl);
        var tmp := ClipTo(fl, outside);
        if outside == outcode1 {
          fl := fl.(a := tmp);
          outcode1 := Code(view, fl.a);
        } else {
          fl := fl.(b := tmp);
          outcode2 := Code(view, fl.b);
        }
        clips := clips + 1;
        if Both(outcode1, outcode2) != INSIDE { return Hidden, clips; }
      }
      r := Shown(fl);
    }

    /** The clip to one side; no division by zero. */
    method ClipTo(fl: Line, outside: Outcode) returns (tmp: Point)
      requires Clippable(view, fl, outside)
      ensures outside.top || outside.bottom ==> fl.a.y != fl.b.y
      ensures outside.right || outside.left ==> fl.a.x != fl.b.x
      ensures tmp == Clip(view, fl, outside)
    {
      ClipDefined(view, fl, outside);
      if outside.top {
        var dy, dx := fl.a.y - fl.b.y, fl.b.x - fl.a.x;
        tmp := Point(fl.a.x + CDiv(dx * fl.a.y, dy), 0);
      } else if outside.bottom {
        var dy, dx := fl.a.y - fl.b.y, fl.b.x - fl.a.x;
        tmp := Point(fl.a.x + CDiv(dx * (fl.a.y - view.f_h), dy), view.f_h - 1);
      } else if outside.right {
        var dy, dx := fl.b.y - fl.a.y, fl.b.x - fl.a.x;
        tmp := Point(view.f_w - 1, fl.a.y + CDiv(dy * (view.f_w - 1 - fl.a.x), dx));
      } else {
        var dy, dx := fl.b.y - fl.a.y, fl.b.x - fl.a.x;
        tmp := Point(0, fl.a.y + CDiv(dy * -fl.a.x, dx));
      }
    }

    /** PUTDOT */
    method PutDot(x: int, y: int, color: int)
      requires Valid() && InFrame(view, Point(x, y))
      modifies fb
      ensures Cell(view.f_w, y, x) < fb.Length
      ensures fb[..] == old(fb[..])[Cell(view.f_w, y, x) := color]
    {
      CellInside(view.f_w, view.f_h, y, x);
      fb[y * view.f_w + x] := color;
    }

    /** One dot of the line, the k-th. */
    method Plot(fl: Line, ghost k: nat, x: int, y: int, color: int, ghost before: seq<int>)
      requires Valid() && InFrame(view, fl.a) && InFrame(view, fl.b)
      requires k <= Steps(fl) && Point(x, y) == Dot(fl, k)
      requires Drawn(before, fb[..], view.f_w, view.f_h, fl, k, color)
      modifies fb
      ensures Drawn(before, fb[..], view.f_w, view.f_h, fl, k + 1, color)
    {
      DotInBox(fl, k);
      ghost var now := fb[..];
      PutDot(x, y, color);
      DrawnOneMore(before, now, fb[..], view.f_w, view.f_h, fl, k, color, Point(x, y));
    }

    /** The loop along the x axis. */
    method DrawAcross(fl: Line, color: int)
      requires Valid() && InFrame(view, fl.a) && InFrame(view, fl.b)
      requires Abs(fl.b.x - fl.a.x) > Abs(fl.b.y - fl.a.y)
      modifies fb
      ensures Drawn(old(fb[..]), fb[..], view.f_w, view.f_h, fl, Steps(fl) + 1, color)
    {
      var dx, dy := fl.b.x - fl.a.x, fl.b.y - fl.a.y;
      var ax, ay, sx, sy := 2 * Abs(dx), 2 * Abs(dy), Sign(dx), Sign(dy);
      var x, y := fl.a.x, fl.a.y;
      var d := ay - ax / 2;
      ghost var k: nat, n: nat := 0, 0;
      DotEnds(fl);
      while true
        invariant k <= Abs(dx) && Point(x, y) == Dot(fl, k) && Bresenham(k, n, Abs(dx), Abs(dy), d)
        invariant Drawn(old(fb[..]), fb[..], view.f_w, view.f_h, fl, k, color)
        decreases Abs(dx) - k
      {
        Plot(fl, k, x, y, color, old(fb[..]));
        StepAcross(fl, k, n, d);
        if x == fl.b.x { return; }
        if d >= 0 {
          y := y + sy;
          d := d - ax;
          n := n + 1;
        }
        x := x + sx;
        d := d + ay;
        k := k + 1;
      }
    }

    /** The loop along the y axis. */
    method DrawDown(fl: Line, color: int)
      requires Valid() && InFrame(view, fl.a) && InFrame(view, fl.b)
      requires Abs(fl.b.x - fl.a.x) <= Abs(fl.b.y - fl.a.y)
      modifies fb
      ensures Drawn(old(fb[..]), fb[..], view.f_w, view.f_h, fl, Steps(fl) + 1, color)
    {
      var dx, dy := fl.b.x - fl.a.x, fl.b.y - fl.a.y;
      var ax, ay, sx, sy := 2 * Abs(dx), 2 * Abs(dy), Sign(dx), Sign(dy);
      var x, y := fl.a.x, fl.a.y;
      var d := ax - ay / 2;
      ghost var k: nat, n: nat := 0, 0;
      DotEnds(fl);
      while true
        invariant k <= Abs(dy) && Point(x, y) == Dot(fl, k) && Bresenham(k, n, Abs(dy), Abs(dx), d)
        invariant Drawn(old(fb[..]), fb[..], view.f_w, view.f_h, fl, k, color)
        decreases Abs(dy) - k
      {
        Plot(fl, k, x, y, color, old(fb[..]));
        StepDown(fl, k, n, d);
        if y == fl.b.y { return; }
        if d >= 0 {
          x := x + sx;
          d := d - ay;
          n := n + 1;
        }
        y := y + sy;
        d := d + ax;
        k := k + 1;
      }
    }

    /** AM_drawFline: exactly the dots of the line, and none if an end is out of the frame. */
    method DrawFline(fl: Line, color: int)
      requires Valid()
      modifies fb
      ensures if InFrame(view, fl.a) && InFrame(view, fl.b)
              then Drawn(old(fb[..]), fb[..], view.f_w, view.f_h, fl, Steps(fl) + 1, color)
              else fb[..] == old(fb[..])
    {
      if !InFrame(view, fl.a) || !InFrame(view, fl.b) { return; }
      if Abs(fl.b.x - fl.a.x) > Abs(fl.b.y - fl.a.y) {
        DrawAcross(fl, color);
      } else {
        DrawDown(fl, color);
      }
    }

    /** AM_drawMline: the visible part of a line, in the frame and close to the line. */
    method DrawMline(ml: Line, color: int) returns (ghost r: Visible)
      requires Valid()
      modifies fb
      ensures r == MapClipped(view, ml)
      ensures r.Hidden? ==> fb[..] == old(fb[..])
      ensures r.Shown? ==> Drawn(old(fb[..]), fb[..], view.f_w, view.f_h, r.line, Steps(r.line) + 1, color)
      ensures r.Shown? ==> InFrame(view, r.line.a) && InFrame(view, r.line.b)
                           && Near(LineToFrame(view, ml), r.line.a, 4) && Near(LineToFrame(view, ml), r.line.b, 4)
    {
      var c, clips := ClipMline(ml);
      r := c;
      if c.Shown? {
        ClippedNear(view, LineToFrame(view, ml));
        DrawFline(c.line, color);
      }
    }
  }

  lemma OnItself(l: Line)
    ensures Near(l, l.a, 0) && Near(l, l.b, 0) && InBox(l.a, l) && InBox(l.b, l)
  {
    assert Cross(l, l.a) == 0 && Cross(l, l.b) == 0;
  }

  lemma ClippedNear(v: View, l: Line)
    requires v.f_w > 0 && v.f_h > 0 && Clipped(v, l).Shown?
    ensures var r := Clipped(v, l).line;
            && InFrame(v, r.a) && InFrame(v, r.b) && InBox(r.a, l) && InBox(r.b, l)
            && (r.a == l.a || OnEdge(v, r.a)) && (r.b == l.b || OnEdge(v, r.b))
            && Near(l, r.a, 4) && Near(l, r.b, 4)
  {
    OnItself(l);
    ClippedFaithful(v, l, l, 0);
    FourBits(v, l);
    var r := Clipped(v, l).line;
    NearMore(l, r.a, TotalBits(v, l), 4);
    NearMore(l, r.b, TotalBits(v, l), 4);
  }

  /** After k steps along the longer axis and n along the shorter: the decision variable,
      and the error of the dot. */
  ghost predicate Bresenham(k: int, n: int, major: nat, m: nat, d: int) {
    && d == 2 * (m * k) - 2 * (major * n) + 2 * m - major
    && (if major == 0 then k == 0 && n == 0 else 0 - major <= 2 * (m * k) - 2 * (major * n) < major)
  }

  lemma BresenhamRounds(k: nat, n: int, major: nat, m: nat, d: int)
    requires Bresenham(k, n, major, m, d)
    ensures Rounded(k, major, m) == n
  {
    if major > 0 { RoundedIs(k, major, m, n); }
  }

  lemma BresenhamNext(k: int, n: int, major: nat, m: nat, d: int)
    requires Bresenham(k, n, major, m, d) && m <= major && major > 0
    ensures if d >= 0 then Bresenham(k + 1, n + 1, major, m, d - 2 * major + 2 * m) else Bresenham(k + 1, n, major, m, d + 2 * m)
  {
    assert m * (k + 1) == m * k + m;
    assert major * (n + 1) == major * n + major;
  }

  /** From one dot to the next along the x axis. */
  lemma StepAcross(l: Line, k: nat, n: nat, d: int)
    requires Abs(l.b.x - l.a.x) > Abs(l.b.y - l.a.y) && k <= Abs(l.b.x - l.a.x)
    requires Bresenham(k, n, Abs(l.b.x - l.a.x), Abs(l.b.y - l.a.y), d)
    ensures var ax, ay, sx, sy := 2 * Abs(l.b.x - l.a.x), 2 * Abs(l.b.y - l.a.y), Sign(l.b.x - l.a.x), Sign(l.b.y - l.a.y);
            var p := Dot(l, k);
            && (p.x == l.b.x <==> k == Abs(l.b.x - l.a.x))
            && if d >= 0 then Dot(l, k + 1) == Point(p.x + sx, p.y + sy) && Bresenham(k + 1, n + 1, Abs(l.b.x - l.a.x), Abs(l.b.y - l.a.y), d - ax + ay)
               else Dot(l, k + 1) == Point(p.x + sx, p.y) && Bresenham(k + 1, n, Abs(l.b.x - l.a.x), Abs(l.b.y - l.a.y), d + ay)
  {
    var major, m := Abs(l.b.x - l.a.x), Abs(l.b.y - l.a.y);
    BresenhamRounds(k, n, major, m, d);
    BresenhamNext(k, n, major, m, d);
    if d >= 0 {
      BresenhamRounds(k + 1, n + 1, major, m, d - 2 * major + 2 * m);
    } else {
      BresenhamRounds(k + 1, n, major, m, d + 2 * m);
    }
  }

  /** And along the y axis. */
  lemma StepDown(l: Line, k: nat, n: nat, d: int)
    requires Abs(l.b.x - l.a.x) <= Abs(l.b.y - l.a.y) && k <= Abs(l.b.y - l.a.y)
    requires Bresenham(k, n, Abs(l.b.y - l.a.y), Abs(l.b.x - l.a.x), d)
    ensures var ax, ay, sx, sy := 2 * Abs(l.b.x - l.a.x), 2 * Abs(l.b.y - l.a.y), Sign(l.b.x - l.a.x), Sign(l.b.y - l.a.y);
            var p := Dot(l, k);
            && (p.y == l.b.y <==> k == Abs(l.b.y - l.a.y))
            && (p.y != l.b.y ==>
                  if d >= 0 then Dot(l, k + 1) == Point(p.x + sx, p.y + sy) && Bresenham(k + 1, n + 1, Abs(l.b.y - l.a.y), Abs(l.b.x - l.a.x), d - ay + ax)
                  else Dot(l, k + 1) == Point(p.x, p.y + sy) && Bresenham(k + 1, n, Abs(l.b.y - l.a.y), Abs(l.b.x - l.a.x), d + ax))
  {
    var major, m := Abs(l.b.y - l.a.y), Abs(l.b.x - l.a.x);
    BresenhamRounds(k, n, major, m, d);
    if major > 0 {
      BresenhamNext(k, n, major, m, d);
      if d >= 0 {
        BresenhamRounds(k + 1, n + 1, major, m, d - 2 * major + 2 * m);
      } else {
        BresenhamRounds(k + 1, n, major, m, d + 2 * m);
      }
    }
  }
}
