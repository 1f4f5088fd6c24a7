// The screen wipes: the melt, column by column, the colour fade, and the state machine
// that runs one of them over many calls.
module MeltWipe {
  import opened Grid
  import opened MeltScreen

  // ---------------------------------------------------------------------------
  // How far a column has come

  /** Rows of the end screen a column shows after one more tic; negative while it waits. */
  function NextY(y: int, h: nat): int {
    if y < 0 then y + 1
    else if y < h then
      var dy := if y < 16 then y + 1 else 8;
      if y + dy >= h then h else y + dy
    else y
  }

  function After(y: int, n: nat, h: nat): int
    decreases n
  {
    if n == 0 then y else After(NextY(y, h), n - 1, h)
  }

  lemma {:induction false} AfterLast(y: int, n: nat, h: nat)
    ensures After(y, n + 1, h) == NextY(After(y, n, h), h)
    decreases n
  {
    if n > 0 { AfterLast(NextY(y, h), n - 1, h); }
  }

  lemma {:induction false} AfterSum(y: int, n: nat, k: nat, h: nat)
    ensures After(After(y, n, h), k, h) == After(y, n + k, h)
    decreases n
  {
    if n > 0 { AfterSum(NextY(y, h), n - 1, k, h); }
  }

  lemma {:induction false} AfterBounds(y: int, n: nat, h: nat)
    requires -15 <= y <= h
    ensures -15 <= After(y, n, h) <= h
    ensures h - y <= n ==> After(y, n, h) == h
    decreases n
  {
    if n > 0 { AfterBounds(NextY(y, h), n - 1, h); }
  }

  /** How far a column falls in m tics if the screen is high enough: 2^m - 1 rows in the first
      five, and 8 rows in each tic from then on. */
  function Fallen(m: nat): (r: nat) {
    if m <= 5 then [0, 1, 3, 7, 15, 31][m] else 31 + 8 * (m - 5)
  }

  /** Where a column is n tics after it was at y, which is not below the top of the screen. */
  function Position(y: int, n: nat, h: nat): int
    requires y <= 0
  {
    if n + y <= 0 then n + y else if Fallen(n + y) < h then Fallen(n + y) else h
  }

  lemma NextFallen(m: nat)
    ensures Fallen(m + 1) == Fallen(m) + if Fallen(m) < 16 then Fallen(m) + 1 else 8
  {
  }

  lemma {:induction false} PositionExact(y: int, n: nat, h: nat)
    requires y <= 0
    ensures After(y, n, h) == Position(y, n, h)
    decreases n
  {
    if n > 0 {
      PositionExact(y, n - 1, h);
      AfterLast(y, n - 1, h);
      if n + y > 0 { NextFallen(n - 1 + y); }
    }
  }

  /** Tics after which every column has come down: it waits for at most 15, reaches 31 in
      five more, and then moves by 8. */
  predicate EnoughTics(n: nat, h: nat) {
    n >= 15 + h || (n >= 20 && 31 + 8 * (n - 20) >= h)
  }

  lemma DownIn(y: int, n: nat, h: nat)
    requires -15 <= y <= 0 && EnoughTics(n, h)
    ensures After(y, n, h) == h
  {
    PositionExact(y, n, h);
    if n + y <= 5 { assert Fallen(n + y) >= n + y; }
  }

  /** Exactly when it is down: on a screen of at least 31 rows, -y tics of waiting, five tics
      for the first 31 rows, and one for every eight of the others. */
  lemma DownExact(y: int, n: nat, h: nat)
    requires y <= 0 && h >= 31
    ensures After(y, n, h) == h <==> n >= 5 - y + (h - 31 + 7) / 8
  {
    PositionExact(y, n, h);
    if 0 < n + y <= 5 { assert Fallen(n + y) == 31 <==> n + y == 5; }
  }

  // ---------------------------------------------------------------------------
  // What a column shows

  /** Row r of column c when k rows of the end screen have come in. */
  ghost function Melted(from: seq<Short>, to: seq<Short>, w: nat, k: int, r: nat, c: nat): Short {
    if r < k then Pixel(to, w, r, c) else Pixel(from, w, if k > 0 then r - k else r, c)
  }

  ghost predicate Shows(s: seq<Short>, from: seq<Short>, to: seq<Short>, w: nat, h: nat, c: nat, k: int) {
    forall r: nat :: r < h ==> Pixel(s, w, r, c) == Melted(from, to, w, k, r, c)
  }

  lemma AllDownShows(s: seq<Short>, from: seq<Short>, to: seq<Short>, w: nat, h: nat)
    requires |s| == |to| == w * h && forall c: nat :: c < w ==> Shows(s, from, to, w, h, c, h)
    ensures s == to
  {
    forall r: nat, c: nat | r < h && c < w ensures Pixel(s, w, r, c) == Pixel(to, w, r, c) {
      assert Shows(s, from, to, w, h, c, h);
    }
    Extensional(s, to, w, h);
  }

  /** Where column i starts, from the random numbers of wipe_initMelt. */
  function StartY(prev: int, r: nat): int {
    var y := prev + r % 3 - 1;
    if y > 0 then 0 else if y == -16 then -15 else y
  }

  /** The random step is one row up, none, or one row down, as far as there is room. */
  lemma StartYExact(prev: int, r: nat)
    requires -15 <= prev <= 0
    ensures r % 3 == 0 ==> StartY(prev, r) == (if prev == -15 then -15 else prev - 1)
    ensures r % 3 == 1 ==> StartY(prev, r) == prev
    ensures r % 3 == 2 ==> StartY(prev, r) == (if prev == 0 then 0 else prev + 1)
  {
  }

  function InitialY(rnd: seq<nat>, i: nat): (y: int)
    requires i < |rnd|
    ensures -15 <= y <= 0
  {
    if i == 0 then -(rnd[0] % 16)
    else StartY(InitialY(rnd, i - 1), rnd[i])
  }

  /** Neighbouring columns start within one row of each other. */
  lemma Neighbours(rnd: seq<nat>, i: nat)
    requires 0 < i < |rnd|
    ensures -1 <= InitialY(rnd, i) - InitialY(rnd, i - 1) <= 1
  {
  }

  // ---------------------------------------------------------------------------
  // The colour fade

  /** A pixel moved towards its end value. */
  function Toward(p: Byte, e: Byte, ticks: nat): Byte {
    if p > e then (if p - ticks < e then e else p - ticks)
    else (if p + ticks > e then e else p + ticks)
  }

  function TowardShort(p: Short, e: Short, ticks: nat): Short {
    Short(Toward(p.lo, e.lo, ticks), Toward(p.hi, e.hi, ticks))
  }

  function Apart(p: Byte, e: Byte): nat { if p > e then p as int - e as int else e as int - p as int }

  /** A tic takes a byte exactly one step towards its end value, and never past it. */
  lemma TowardExact(p: Byte, e: Byte, ticks: nat)
    ensures Apart(Toward(p, e, ticks), e) == if Apart(p, e) > ticks then Apart(p, e) - ticks else 0
    ensures Apart(p, Toward(p, e, ticks)) + Apart(Toward(p, e, ticks), e) == Apart(p, e)
  {
  }

  lemma TowardSum(p: Short, e: Short, s: nat, t: nat)
    ensures TowardShort(TowardShort(p, e, s), e, t) == TowardShort(p, e, s + t)
    ensures s >= 255 ==> TowardShort(p, e, s) == e
  {
  }

  class Wipe {
    /** Width in pairs of pixels, and height. */
    const w: nat
    const h: nat
    const scr: array<Short>
    const start: array<Short>
    const end: array<Short>
    var y: array<int>
    var go: bool

    /** The two pictures, row by row, and the wipe in progress. */
    ghost var from: seq<Short>
    ghost var to: seq<Short>
    ghost var melting: bool
    ghost var elapsed: nat

    constructor (w: nat, h: nat, scr: array<Short>, start: array<Short>, end: array<Short>)
      requires w > 0 && scr.Length == start.Length == end.Length == w * h
      requires scr != start && scr != end && start != end
      ensures Valid() && !go && this.w == w && this.h == h
      ensures this.scr == scr && this.start == start && this.end == end
    {
      this.w, this.h, this.scr, this.start, this.end := w, h, scr, start, end;
      go := false;
      y := new int[0];
    }

    predicate Shaped() {
      && w > 0 && scr.Length == start.Length == end.Length == w * h
      && scr != start && scr != end && start != end
    }

    ghost predicate Valid()
      reads this, scr, start, end, y
    {
      Shaped() && (go ==> if melting then Melting() else Fading())
    }

    ghost predicate Melting()
      reads this, scr, start, end, y
      requires Shaped()
    {
      && y.Length == 2 * w
      && IsTransposed(start[..], from, w, h) && IsTransposed(end[..], to, w, h)
      && forall c: nat :: c < w ==> -15 <= y[c] <= h && Shows(scr[..], from, to, w, h, c, y[c])
    }

    ghost predicate Fading()
      reads this, scr, start, end
      requires Shaped()
    {
      && start[..] == from && end[..] == to
      && forall k :: 0 <= k < scr.Length ==> scr[k] == TowardShort(from[k], to[k], elapsed)
    }

    /** One strip of a column: n pixels one below the other, from consecutive ones. */
    method CopyStrip(src: array<Short>, s: nat, c: nat, row: nat, n: nat)
      requires Shaped() && src != scr && c < w && row + n <= h && s + n <= src.Length
      modifies scr
      ensures Strip(old(scr[..]), scr[..], w, h, src[..], s, c, row, n)
    {
      var d, j := row * w + c, n;
      while j > 0
        invariant 0 <= j <= n && d == Cell(w, row + (n - j), c)
        invariant Strip(old(scr[..]), scr[..], w, h, src[..], s, c, row, n - j)
      {
        ghost var now := scr[..];
        CellInside(w, h, row + (n - j), c);
        scr[d] := src[s + (n - j)];
        Update(now, scr[..], w, h, row + (n - j), c, src[s + (n - j)]);
        d := d + w;
        j := j - 1;
      }
    }

    /** One tic of one column; `moved` says that it was not yet down. */
    method MeltColumn(i: nat) returns (moved: bool)
      requires Shaped() && Melting() && i < w
      modifies scr, y
      ensures Melting() && moved == (old(y[i]) < h)
      ensures y[i] == NextY(old(y[i]), h)
      ensures forall c :: 0 <= c < y.Length && c != i ==> y[c] == old(y[c])
    {
      moved := y[i] < h;
      ghost var was, k := scr[..], y[i];
      if y[i] < 0 {
        y[i] := y[i] + 1;
      } else if y[i] < h {
        ScrollColumn(i);
      }
      assert Shows(was, from, to, w, h, i, k);
    }

    /** Where column i begins in a transposed picture. */
    method ColumnStart(i: nat) returns (s: nat)
      requires Shaped() && i < w
      ensures s == Cell(h, i, 0) && s + h <= scr.Length
    {
      RowsBelow(h, i + 1, w);
      s := i * h;
    }

    /** The strips of one tic: dy rows of the end screen, and below them the start screen. */
    method CopyColumn(i: nat, k: nat, dy: nat) returns (ghost column: nat, ghost mid: seq<Short>)
      requires Shaped() && i < w && k + dy <= h
      modifies scr
      ensures column == Cell(h, i, 0)
      ensures Strip(old(scr[..]), mid, w, h, end[..], column + k, i, k, dy)
      ensures Strip(mid, scr[..], w, h, start[..], column, i, k + dy, h - (k + dy))
    {
      var s := ColumnStart(i);
      CopyStrip(end, s + k, i, k, dy);
      column, mid := s, scr[..];
      CopyStrip(start, s, i, k + dy, h - (k + dy));
    }

    /** The scrolling of a column that no longer waits. */
    method ScrollColumn(i: nat)
      requires Shaped() && Melting() && i < w && 0 <= y[i] < h
      modifies scr, y
      ensures Melting() && y[i] == NextY(old(y[i]), h)
      ensures forall c :: 0 <= c < y.Length && c != i ==> y[c] == old(y[c])
    {
      ghost var was := scr[..];
      var k := y[i];
      var dy := if k < 16 then k + 1 else 8;
      if k + dy >= h { dy := h - k; }
      ghost var column, mid := CopyColumn(i, k, dy);
      y[i] := k + dy;
      assert Shows(was, from, to, w, h, i, k);
      Scrolled(was, mid, scr[..], from, to, start[..], end[..], w, h, i, column, k, dy);
    }

    /** The loop over the columns. */
    method MeltTic() returns (moved: bool)
      requires Shaped() && Melting()
      modifies scr, y
      ensures Melting() && moved == !AllDown(old(y[..]), w, h)
      ensures forall c: nat :: c < w ==> y[c] == NextY(old(y[c]), h)
    {
      moved := false;
      var i := 0;
      while i < w
        invariant 0 <= i <= w && Melting()
        invariant moved == exists c: nat :: c < i && old(y[..])[c] < h
        invariant forall c: nat :: c < w ==> y[c] == if c < i then NextY(old(y[c]), h) else old(y[c])
      {
        var m := MeltColumn(i);
        moved := moved || m;
        i := i + 1;
      }
    }

    /** wipe_doMelt */
    method DoMelt(ticks: nat) returns (done: bool)
      requires Shaped() && Melting()
      modifies scr, y
      ensures Melting() && done == (ticks == 0 || AllDown(old(y[..]), w, h))
      ensures forall c: nat :: c < w ==> y[c] == After(old(y[c]), ticks, h)
      ensures done && ticks > 0 ==> scr[..] == to
      ensures ticks == 0 ==> scr[..] == old(scr[..])
    {
      done := true;
      var n := 0;
      while n < ticks
        invariant 0 <= n <= ticks && Melting()
        invariant done == (n == 0 || AllDown(old(y[..]), w, h))
        invariant n == 0 ==> scr[..] == old(scr[..])
        invariant forall c: nat :: c < w ==> y[c] == After(old(y[c]), n, h)
      {
        ghost var now := y[..];
        var moved := MeltTic();
        done := done && !moved;
        forall c: nat | c < w ensures y[c] == After(old(y[c]), n + 1, h) {
          AfterLast(old(y[c]), n, h);
        }
        StaysDown(old(y[..]), now, w, h, n);
        n := n + 1;
      }
      if done && ticks > 0 { DownPicture(scr[..], from, to, w, h, old(y[..]), y[..], ticks); }
    }

    /** wipe_initMelt */
    method InitMelt(rnd: seq<nat>)
      requires Shaped() && |rnd| == 2 * w && from == start[..] && to == end[..]
      modifies this`y, scr, start, end
      ensures Melting() && fresh(y) && scr[..] == from
      ensures forall c: nat :: c < w ==> y[c] == InitialY(rnd, c)
    {
      forall k | 0 <= k < scr.Length { scr[k] := start[k]; }
      assert scr[..] == from;
      Transpose(start, w, h);
      Transpose(end, w, h);
      InitColumns(rnd);
    }

    /** The starting positions: each column within one row of the one before. */
    method InitColumns(rnd: seq<nat>)
      requires w > 0 && |rnd| == 2 * w
      modifies this`y
      ensures fresh(y) && y.Length == |rnd| && forall c: nat :: c < |rnd| ==> y[c] == InitialY(rnd, c)
    {
      y := new int[|rnd|];
      var first: int := rnd[0] % 16;
      y[0] := -first;
      var i := 1;
      while i < |rnd|
        invariant 1 <= i <= |rnd| && y.Length == |rnd| && fresh(y)
        invariant forall c: nat :: c < i ==> y[c] == InitialY(rnd, c)
      {
        var next := NextColumn(y[i - 1], rnd[i]);
        y[i] := next;
        i := i + 1;
      }
    }

    static method NextColumn(prev: int, random: nat) returns (y: int)
      ensures y == StartY(prev, random)
    {
      var r: int := random % 3;
      r := r - 1;
      y := prev + r;
      if y > 0 {
        y := 0;
      } else if y == -16 {
        y := -15;
      }
    }

    /** One byte of the loop in wipe_doColorXForm. */
    static method FadeByte(p: Byte, e: Byte, ticks: nat) returns (p': Byte, changed: bool)
      ensures p' == Toward(p, e, ticks) && changed == (p != e)
    {
      p', changed := p, false;
      if p > e {
        var newval := p - ticks;
        p' := if newval < e then e else newval;
        changed := true;
      } else if p < e {
        var newval := p + ticks;
        p' := if newval > e then e else newval;
        changed := true;
      }
    }

    /** wipe_doColorXForm */
    method DoColorXForm(ticks: nat) returns (done: bool)
      requires Shaped()
      modifies scr
      ensures done == (old(scr[..]) == end[..]) && (done ==> scr[..] == end[..])
      ensures forall k :: 0 <= k < scr.Length ==> scr[k] == TowardShort(old(scr[k]), end[k], ticks)
    {
      var changed := false;
      var k := 0;
      while k < scr.Length
        invariant 0 <= k <= scr.Length
        invariant changed == (old(scr[..])[..k] != end[..k])
        invariant forall j :: 0 <= j < scr.Length ==>
          scr[j] == if j < k then TowardShort(old(scr[j]), end[j], ticks) else old(scr[j])
      {
        var lo, c0 := FadeByte(scr[k].lo, end[k].lo, ticks);
        var hi, c1 := FadeByte(scr[k].hi, end[k].hi, ticks);
        ghost var was := old(scr[..]);
        assert was[..k + 1] == was[..k] + [was[k]] && end[..k + 1] == end[..k] + [end[k]];
        scr[k] := Short(lo, hi);
        changed := changed || c0 || c1;
        k := k + 1;
      }
      assert old(scr[..])[..k] == old(scr[..]) && end[..k] == end[..];
      done := !changed;
    }

    /** The initial stuff of a wipe. */
    method Begin(melt: bool, rnd: seq<nat>)
      requires Shaped() && |rnd| == 2 * w
      modifies this, scr, start, end
      ensures Valid() && go && melting == melt && elapsed == 0
      ensures from == old(start[..]) && to == old(end[..]) && scr[..] == from
      ensures if melt then fresh(y) && forall c: nat :: c < w ==> y[c] == InitialY(rnd, c) else y == old(y)
    {
      go := true;
      from, to, melting, elapsed := start[..], end[..], melt, 0;
      if melt {
        InitMelt(rnd);
      } else {
        forall k | 0 <= k < scr.Length { scr[k] := start[k]; }
      }
    }

    /** A piece of the fade. */
    method FadePiece(ticks: nat) returns (done: bool)
      requires Shaped() && Fading()
      modifies this`elapsed, scr
      ensures Fading() && elapsed == old(elapsed) + ticks
      ensures done == Faded(from, to, old(elapsed)) && (done ==> scr[..] == to)
    {
      ghost var was := scr[..];
      done := DoColorXForm(ticks);
      forall k | 0 <= k < scr.Length ensures scr[k] == TowardShort(from[k], to[k], elapsed + ticks) {
        assert was[k] == TowardShort(from[k], to[k], elapsed);
        TowardSum(from[k], to[k], elapsed, ticks);
      }
      elapsed := elapsed + ticks;
    }

    /** wipe_ScreenWipe: begins a wipe unless one is under way, and does a piece of it.
        `ys` is where the columns stood before the piece. */
    method ScreenWipe(melt: bool, ticks: nat, rnd: seq<nat>) returns (done: bool, ghost ys: seq<int>)
      requires Valid() && |rnd| == 2 * w && (go ==> melt == melting)
      modifies this, scr, start, end, y
      ensures Valid() && go == !done && melting == melt && (y == old(y) || fresh(y))
      ensures if old(go) then from == old(from) && to == old(to) else from == old(start[..]) && to == old(end[..])
      ensures melt ==> |ys| == 2 * w && (if old(go) then ys == old(y[..]) else Fresh(ys, rnd, w))
      ensures melt ==> y.Length == 2 * w && Melting() && forall c: nat :: c < w ==> y[c] == After(ys[c], ticks, h)
      ensures melt ==> (done <==> ticks == 0 || AllDown(ys, w, h))
      ensures !melt ==> Fading() && elapsed == (if old(go) then old(elapsed) else 0) + ticks
      ensures !melt ==> done == Faded(from, to, elapsed - ticks)
      ensures done && (ticks > 0 || !melt) ==> scr[..] == to
      ensures melt && ticks == 0 ==> scr[..] == if old(go) then old(scr[..]) else from
    {
      if !go { Begin(melt, rnd); }
      ys := y[..];
      if melt {
        done := DoMelt(ticks);
      } else {
        done := FadePiece(ticks);
      }
      if done { go := false; }
    }

    /** The wipe loop of D_Display: as long as the clock advances between calls, the end
        screen is shown, after no more calls than the columns or pixels need. */
    method WipeIn(melt: bool, tics: nat -> nat, rnd: seq<nat>) returns (calls: nat)
      requires Valid() && !go && |rnd| == 2 * w
      requires forall n :: tics(n) > 0
      modifies this, scr, start, end, y
      ensures Valid() && !go && scr[..] == old(end[..])
      ensures melt ==> forall n: nat :: EnoughTics(n, h) ==> calls <= n + 1
      ensures !melt ==> calls <= 256
    {
      calls := 0;
      var done := false;
      ghost var total: nat := 0;
      ghost var from0, to0 := start[..], end[..];
      assert EnoughTics(15 + h, h);
      while !done
        invariant Valid() && calls <= total && (y == old(y) || fresh(y))
        invariant calls == 0 ==> !go && !done && start[..] == from0 && end[..] == to0 && total == 0
        invariant calls > 0 ==> go == !done && from == from0 && to == to0
        invariant calls > 0 && !done ==> Underway(melt, rnd, total)
        invariant melt ==> forall n: nat :: EnoughTics(n, h) ==> calls <= if done then n + 1 else n
        invariant !melt ==> calls <= if done then 256 else 255
        invariant done ==> scr[..] == to0
        decreases !done, (if melt then 15 + h else 255) - calls
      {
        done := Turn(melt, tics(calls), rnd, total);
        total := total + tics(calls);
        calls := calls + 1;
      }
    }

    /** The body of that loop, after `total` tics. */
    method Turn(melt: bool, ticks: nat, rnd: seq<nat>, ghost total: nat) returns (done: bool)
      requires Valid() && |rnd| == 2 * w && ticks > 0 && if total == 0 then !go else Underway(melt, rnd, total)
      modifies this, scr, start, end, y
      ensures Valid() && (y == old(y) || fresh(y))
      ensures if total == 0 then from == old(start[..]) && to == old(end[..]) else from == old(from) && to == old(to)
      ensures if done then !go && scr[..] == to else Underway(melt, rnd, total + ticks)
      ensures melt && !done ==> forall n: nat :: EnoughTics(n, h) ==> total < n
      ensures !melt && !done ==> total < 255
    {
      ghost var ys;
      done, ys := ScreenWipe(melt, ticks, rnd);
      if melt {
        MeltCall(ys, rnd, w, h, total, ticks);
      } else if !done {
        FadeCall(from, to, total);
      }
    }

    /** A wipe that has had `total` tics. */
    ghost predicate Underway(melt: bool, rnd: seq<nat>, total: nat)
      reads this, y
      requires |rnd| == 2 * w
    {
      && go && melting == melt
      && (melt ==> y.Length == 2 * w && forall c: nat :: c < w ==> y[c] == After(InitialY(rnd, c), total, h))
      && (!melt ==> elapsed == total)
    }
  }

  ghost predicate Faded(from: seq<Short>, to: seq<Short>, ticks: nat)
    requires |from| == |to|
  {
    forall k :: 0 <= k < |to| ==> TowardShort(from[k], to[k], ticks) == to[k]
  }

  lemma FadeCall(from: seq<Short>, to: seq<Short>, before: nat)
    requires |from| == |to| && !Faded(from, to, before)
    ensures before < 255
  {
    var k :| 0 <= k < |to| && TowardShort(from[k], to[k], before) != to[k];
    TowardSum(from[k], to[k], before, 0);
  }

  lemma MeltCall(ys: seq<int>, rnd: seq<nat>, w: nat, h: nat, before: nat, ticks: nat)
    requires |ys| == |rnd| == 2 * w && forall c: nat :: c < w ==> ys[c] == After(InitialY(rnd, c), before, h)
    ensures forall c: nat :: c < w ==> After(ys[c], ticks, h) == After(InitialY(rnd, c), before + ticks, h)
    ensures !AllDown(ys, w, h) ==> forall n: nat :: EnoughTics(n, h) ==> before < n
  {
    forall c: nat | c < w ensures After(ys[c], ticks, h) == After(InitialY(rnd, c), before + ticks, h) {
      AfterSum(InitialY(rnd, c), before, ticks, h);
    }
    if !AllDown(ys, w, h) {
      var c: nat :| c < w && ys[c] < h;
      forall n: nat | EnoughTics(n, h) ensures before < n {
        if n <= before { DownIn(InitialY(rnd, c), before, h); }
      }
    }
  }

  ghost predicate AllDown(ys: seq<int>, w: nat, h: nat) {
    forall c: nat :: c < w && c < |ys| ==> ys[c] >= h
  }

  lemma StaysDown(ys: seq<int>, now: seq<int>, w: nat, h: nat, n: nat)
    requires |ys| == |now| && w <= |ys| && forall c: nat :: c < w ==> now[c] == After(ys[c], n, h) && -15 <= ys[c] <= h
    ensures AllDown(ys, w, h) ==> AllDown(now, w, h)
  {
    forall c: nat | c < w ensures ys[c] >= h ==> now[c] >= h {
      AfterBounds(ys[c], n, h);
    }
  }

  /** The columns at the beginning of a melt. */
  ghost predicate Fresh(ys: seq<int>, rnd: seq<nat>, w: nat) {
    |ys| == 2 * w == |rnd| && forall c: nat :: c < w ==> ys[c] == InitialY(rnd, c)
  }

  lemma DownPicture(s: seq<Short>, from: seq<Short>, to: seq<Short>, w: nat, h: nat, ys: seq<int>, ys': seq<int>, n: nat)
    requires |s| == |to| == w * h && |ys| == |ys'| && w <= |ys| && AllDown(ys, w, h)
    requires forall c: nat :: c < w ==> -15 <= ys[c] <= h && ys'[c] == After(ys[c], n, h) && Shows(s, from, to, w, h, c, ys'[c])
    ensures s == to
  {
    forall c: nat | c < w ensures Shows(s, from, to, w, h, c, h) {
      AfterBounds(ys[c], n, h);
    }
    AllDownShows(s, from, to, w, h);
  }

  /** after differs from before in n rows of column c, which hold src from s on. */
  ghost predicate Strip(before: seq<Short>, after: seq<Short>, w: nat, h: nat, src: seq<Short>, s: nat, c: nat, row: nat, n: nat) {
    && |after| == |before| && s + n <= |src|
    && forall r: nat, c': nat :: r < h && c' < w ==>
         Pixel(after, w, r, c') == if c' == c && row <= r < row + n then src[s + (r - row)] else Pixel(before, w, r, c')
  }

  lemma Scrolled(was: seq<Short>, mid: seq<Short>, s: seq<Short>, from: seq<Short>, to: seq<Short>,
                 start: seq<Short>, end: seq<Short>, w: nat, h: nat, i: nat, s0: nat, k: nat, dy: nat)
    requires i < w && k + dy <= h && s0 == Cell(h, i, 0) && Shows(was, from, to, w, h, i, k)
    requires IsTransposed(start, from, w, h) && IsTransposed(end, to, w, h)
    requires Strip(was, mid, w, h, end, s0 + k, i, k, dy)
    requires Strip(mid, s, w, h, start, s0, i, k + dy, h - (k + dy))
    ensures Shows(s, from, to, w, h, i, k + dy)
    ensures forall c: nat, y: int :: c < w && c != i && Shows(was, from, to, w, h, c, y) ==> Shows(s, from, to, w, h, c, y)
  {
    forall r: nat | r < h ensures Pixel(s, w, r, i) == Melted(from, to, w, k + dy, r, i) {
      if r < k {
      } else if r < k + dy {
        CellInside(h, w, i, r);
        assert Pixel(mid, w, r, i) == end[Cell(h, i, r)] == Pixel(end, h, i, r) == Pixel(to, w, r, i);
      } else {
        CellInside(h, w, i, r - (k + dy));
        assert Pixel(s, w, r, i) == start[Cell(h, i, r - (k + dy))] == Pixel(start, h, i, r - (k + dy));
      }
    }
  }
}
