// EV_BuildStairs: from every tagged sector that is not moving yet, a flight of stairs along
// two-sided lines into sectors with the same floor texture.
module Stairs {
  import F = FloorMove

  datatype Line = Line(twosided: bool, front: nat, back: nat)

  datatype Sector = Sector(tag: int, floorheight: int, floorpic: int, lines: seq<Line>)

  /** specialdata: nothing, some other mover, or a stair. */
  datatype Special = NoSpecial | OtherMover | Stair(speed: int, dest: int)

  datatype StairType = Build8 | Turbo16

  const FRACUNIT := 0x1_0000
  const FLOORSPEED := FRACUNIT

  function Speed(t: StairType): int {
    match t
    case Build8 => FLOORSPEED / 4
    case Turbo16 => FLOORSPEED * 4
  }

  function StairSize(t: StairType): (r: int)
    ensures r > 0
  {
    match t
    case Build8 => 8 * FRACUNIT
    case Turbo16 => 16 * FRACUNIT
  }

  /** A first stair rises by 8 units in 32 tics, or by 16 units in 4, if nothing is in the way;
      its mover is gone in the tic after.  The other fields of the mover are left unset. */
  lemma FirstStairRises(t: StairType, floor: int, m: F.Mover, fits: seq<bool>)
    requires m.dir == F.Up && m.speed == Speed(t) && m.dest == floor + StairSize(t)
    requires |fits| > 32 && forall i :: 0 <= i < |fits| ==> fits[i]
    ensures F.Run(floor, m, fits) == if t == Build8 then (floor + 8 * FRACUNIT, false, 33) else (floor + 16 * FRACUNIT, false, 5)
  {
    F.ArrivesInTime(floor, m, fits, if t == Build8 then 32 else 4);
  }

  /** The lines of every sector lead to sectors. */
  predicate ValidLevel(sectors: seq<Sector>) {
    forall s, i :: 0 <= s < |sectors| && 0 <= i < |sectors[s].lines| && sectors[s].lines[i].twosided ==>
      sectors[s].lines[i].back < |sectors|
  }

  // ---------------------------------------------------------------------------
  // What is built: the stairs in the order in which they are made

  datatype Built = Built(sector: nat, dest: int)

  /** Line i of sector p leads on to a sector with the same floor. */
  predicate Matches(sectors: seq<Sector>, p: nat, i: nat)
    requires ValidLevel(sectors) && p < |sectors| && i < |sectors[p].lines|
  {
    var l := sectors[p].lines[i];
    l.twosided && l.front == p && sectors[l.back].floorpic == sectors[p].floorpic
  }

  /** How many of the first n lines do. */
  function Matching(sectors: seq<Sector>, p: nat, n: nat): nat
    requires ValidLevel(sectors) && p < |sectors| && n <= |sectors[p].lines|
  {
    if n == 0 then 0 else Matching(sectors, p, n - 1) + if Matches(sectors, p, n - 1) then 1 else 0
  }

  function Sectors(bs: seq<Built>): set<nat> {
    set b <- bs :: b.sector
  }

  /** None of the first n lines of p leads on to a sector that is free. */
  ghost predicate NoWayOn(sectors: seq<Sector>, busy: set<nat>, p: nat, n: nat)
    requires ValidLevel(sectors) && p < |sectors| && n <= |sectors[p].lines|
  {
    forall i: nat :: i < n && Matches(sectors, p, i) ==> sectors[p].lines[i].back in busy
  }

  /** s is the first step of a flight: the next free tagged sector after `pos`. */
  ghost predicate StartsAt(sectors: seq<Sector>, tag: int, busy: set<nat>, pos: int, s: nat) {
    && pos < s < |sectors| && sectors[s].tag == tag && s !in busy
    && forall k :: pos < k < s && k >= 0 && sectors[k].tag == tag ==> k in busy
  }

  /** s follows p in a flight: through the first line to a free sector.  Every matching line
      passed on the way raises the step. */
  ghost predicate Follows(sectors: seq<Sector>, size: int, busy: set<nat>, p: Built, b: Built)
    requires ValidLevel(sectors)
  {
    p.sector < |sectors| && exists i: nat :: i < |sectors[p.sector].lines| && Through(sectors, size, busy, p, b, i)
  }

  ghost predicate Through(sectors: seq<Sector>, size: int, busy: set<nat>, p: Built, b: Built, i: nat)
    requires ValidLevel(sectors) && p.sector < |sectors| && i < |sectors[p.sector].lines|
  {
    && Matches(sectors, p.sector, i) && sectors[p.sector].lines[i].back == b.sector && b.sector !in busy
    && NoWayOn(sectors, busy, p.sector, i)
    && b.dest == p.dest + size * Matching(sectors, p.sector, i + 1)
  }

  /** The flight that ends at p can not go on. */
  ghost predicate Ends(sectors: seq<Sector>, busy: set<nat>, p: int)
    requires ValidLevel(sectors)
  {
    0 <= p < |sectors| ==> NoWayOn(sectors, busy, p, |sectors[p].lines|)
  }

  function Last(bs: seq<Built>): int {
    if bs == [] then -1 else bs[|bs| - 1].sector
  }

  /** Nothing is left to do after bs. */
  ghost predicate Finished(sectors: seq<Sector>, tag: int, busy: set<nat>, bs: seq<Built>)
    requires ValidLevel(sectors)
  {
    Ends(sectors, busy, Last(bs)) && forall k: nat :: Last(bs) < k < |sectors| && sectors[k].tag == tag ==> k in busy
  }

  /** b comes next when pre has been built. */
  ghost predicate ComesNext(sectors: seq<Sector>, tag: int, size: int, busy: set<nat>, pre: seq<Built>, b: Built)
    requires ValidLevel(sectors)
  {
    var now := busy + Sectors(pre);
    || (pre != [] && Follows(sectors, size, now, pre[|pre| - 1], b))
    || (&& StartsAt(sectors, tag, now, Last(pre), b.sector)
        && b.dest == sectors[b.sector].floorheight + size
        && Ends(sectors, now, Last(pre)))
  }

  /** Stair j of bs is made as it should be. */
  ghost predicate WellBuilt(sectors: seq<Sector>, tag: int, size: int, busy: set<nat>, bs: seq<Built>, j: nat)
    requires ValidLevel(sectors) && j < |bs|
  {
    ComesNext(sectors, tag, size, busy, bs[..j], bs[j])
  }

  ghost predicate AllWellBuilt(sectors: seq<Sector>, tag: int, size: int, busy: set<nat>, bs: seq<Built>)
    requires ValidLevel(sectors)
  {
    forall j: nat :: j < |bs| ==> WellBuilt(sectors, tag, size, busy, bs, j)
  }

  /** The movers that go with what was built. */
  ghost predicate Records(before: seq<Special>, after: seq<Special>, speed: int, bs: seq<Built>) {
    && |after| == |before|
    && (forall j :: 0 <= j < |bs| ==> bs[j].sector < |after| && after[bs[j].sector] == Stair(speed, bs[j].dest))
    && (forall s :: 0 <= s < |after| && s !in Sectors(bs) ==> after[s] == before[s])
    && (forall s :: s in Sectors(bs) ==> s < |before| && before[s] == NoSpecial)
  }

  function Busy(special: seq<Special>): set<nat> {
    set s: nat | s < |special| && special[s] != NoSpecial
  }

  function FreeCount(special: seq<Special>): nat {
    if special == [] then 0
    else FreeCount(special[1..]) + if special[0] == NoSpecial then 1 else 0
  }

  lemma {:induction false} OneLessFree(special: seq<Special>, s: nat, x: Special)
    requires s < |special| && special[s] == NoSpecial && x != NoSpecial
    ensures FreeCount(special[s := x]) < FreeCount(special)
  {
    if s > 0 {
      assert special[s := x][1..] == special[1..][s - 1 := x];
      OneLessFree(special[1..], s - 1, x);
    }
  }

  lemma BuiltOneMore(sectors: seq<Sector>, tag: int, size: int, busy: set<nat>, bs: seq<Built>, b: Built)
    requires ValidLevel(sectors) && AllWellBuilt(sectors, tag, size, busy, bs)
    requires WellBuilt(sectors, tag, size, busy, bs + [b], |bs|)
    ensures AllWellBuilt(sectors, tag, size, busy, bs + [b])
  {
    var cs := bs + [b];
    forall j: nat | j < |cs| ensures WellBuilt(sectors, tag, size, busy, cs, j) {
      if j < |bs| {
        assert WellBuilt(sectors, tag, size, busy, bs, j);
        assert cs[..j] == bs[..j];
      }
    }
  }

  lemma RecordOneMore(before: seq<Special>, now: seq<Special>, after: seq<Special>, speed: int, bs: seq<Built>, b: Built)
    requires Records(before, now, speed, bs) && b.sector < |now| && now[b.sector] == NoSpecial
    requires after == now[b.sector := Stair(speed, b.dest)]
    ensures Records(before, after, speed, bs + [b])
    ensures Busy(after) == Busy(now) + {b.sector} && FreeCount(after) < FreeCount(now)
  {
    var cs := bs + [b];
    forall s | s in Sectors(cs) ensures s in Sectors(bs) || s == b.sector {
    }
    assert b in cs && forall c :: c in bs ==> c in cs;
    assert Sectors(cs) == Sectors(bs) + {b.sector};
    assert b.sector !in Sectors(bs);
    OneLessFree(now, b.sector, Stair(speed, b.dest));
  }

  lemma BusyIs(before: seq<Special>, now: seq<Special>, speed: int, bs: seq<Built>)
    requires Records(before, now, speed, bs)
    ensures Busy(now) == Busy(before) + Sectors(bs)
  {
    forall s | s in Busy(now) ensures s in Busy(before) + Sectors(bs) { }
    forall s | s in Sectors(bs) ensures s in Busy(now) {
      var b :| b in bs && b.sector == s;
      var j :| 0 <= j < |bs| && bs[j] == b;
      assert now[bs[j].sector] == Stair(speed, bs[j].dest);
    }
  }

  class Level {
    const sectors: seq<Sector>
    const specialdata: array<Special>

    constructor (sectors: seq<Sector>, specialdata: array<Special>)
      requires ValidLevel(sectors) && specialdata.Length == |sectors|
      ensures Valid() && this.sectors == sectors && this.specialdata == specialdata
    {
      this.sectors, this.specialdata := sectors, specialdata;
    }

    predicate Valid() {
      ValidLevel(sectors) && specialdata.Length == |sectors|
    }

    /** P_FindSectorFromLineTag */
    method FindSectorFromLineTag(tag: int, start: int) returns (r: int)
      requires Valid() && start >= -1
      ensures r == -1 || (start < r < |sectors| && sectors[r].tag == tag)
      ensures forall k :: start < k < (if r == -1 then |sectors| else r) ==> sectors[k].tag != tag
    {
      var i := start + 1;
      while i < |sectors|
        invariant start < i && forall k :: start < k < i && k < |sectors| ==> sectors[k].tag != tag
      {
        if sectors[i].tag == tag { return i; }
        i := i + 1;
      }
      r := -1;
    }

    /** The mover for a new stair. */
    method Build(b: Built, speed: int, tag: int, size: int, ghost before: seq<Special>, ghost bs: seq<Built>)
      returns (ghost bs': seq<Built>)
      requires Valid() && b.sector < |sectors| && specialdata[b.sector] == NoSpecial
      requires Records(before, specialdata[..], speed, bs) && AllWellBuilt(sectors, tag, size, Busy(before), bs)
      requires WellBuilt(sectors, tag, size, Busy(before), bs + [b], |bs|)
      modifies specialdata
      ensures bs' == bs + [b] && FreeCount(specialdata[..]) < FreeCount(old(specialdata[..]))
      ensures Records(before, specialdata[..], speed, bs') && AllWellBuilt(sectors, tag, size, Busy(before), bs')
    {
      ghost var now := specialdata[..];
      specialdata[b.sector] := Stair(speed, b.dest);
      bs' := bs + [b];
      BuiltOneMore(sectors, tag, size, Busy(before), bs, b);
      assert specialdata[..] == now[b.sector := Stair(speed, b.dest)];
      RecordOneMore(before, now, specialdata[..], speed, bs, b);
    }

    /** The scan of the lines of a sector: the height it ends with, and the line that leads
        on, if any. */
    method Scan(secnum: nat, size: int, height0: int) returns (i: nat, height: int)
      requires Valid() && secnum < |sectors|
      ensures i <= |sectors[secnum].lines|
      ensures NoWayOn(sectors, Busy(specialdata[..]), secnum, i)
      ensures i < |sectors[secnum].lines| ==>
        && Matches(sectors, secnum, i) && sectors[secnum].lines[i].back !in Busy(specialdata[..])
        && height == height0 + size * Matching(sectors, secnum, i + 1)
    {
      var texture := sectors[secnum].floorpic;
      height := height0;
      i := 0;
      while i < |sectors[secnum].lines|
        invariant i <= |sectors[secnum].lines|
        invariant height == height0 + size * Matching(sectors, secnum, i)
        invariant NoWayOn(sectors, Busy(specialdata[..]), secnum, i)
      {
        var l := sectors[secnum].lines[i];
        if l.twosided && l.front == secnum && sectors[l.back].floorpic == texture {
          height := height + size;
          assert size * (Matching(sectors, secnum, i) + 1) == size * Matching(sectors, secnum, i) + size;
          if specialdata[l.back] == NoSpecial { return; }
        }
        i := i + 1;
      }
    }

    /** The do loop: a flight from the stair built last. */
    method Flight(speed: int, tag: int, size: int, secnum0: nat, height0: int, ghost before: seq<Special>, ghost bs0: seq<Built>)
      returns (secnum: nat, ghost bs: seq<Built>)
      requires Valid() && bs0 != [] && bs0[|bs0| - 1] == Built(secnum0, height0)
      requires Records(before, specialdata[..], speed, bs0) && AllWellBuilt(sectors, tag, size, Busy(before), bs0)
      modifies specialdata
      ensures bs != [] && Last(bs) == secnum < |sectors|
      ensures FreeCount(specialdata[..]) <= FreeCount(old(specialdata[..]))
      ensures Records(before, specialdata[..], speed, bs) && AllWellBuilt(sectors, tag, size, Busy(before), bs)
      ensures Ends(sectors, Busy(specialdata[..]), Last(bs))
    {
      var height, ok := height0, true;
      secnum, bs := secnum0, bs0;
      while ok
        invariant bs != [] && bs[|bs| - 1] == Built(secnum, height) && secnum < |sectors|
        invariant FreeCount(specialdata[..]) <= FreeCount(old(specialdata[..]))
        invariant Records(before, specialdata[..], speed, bs) && AllWellBuilt(sectors, tag, size, Busy(before), bs)
        invariant ok || Ends(sectors, Busy(specialdata[..]), secnum)
        decreases FreeCount(specialdata[..]), ok
      {
        var i, h := Scan(secnum, size, height);
        ok := i < |sectors[secnum].lines|;
        if ok {
          BusyIs(before, specialdata[..], speed, bs);
          var b := Built(sectors[secnum].lines[i].back, h);
          assert (bs + [b])[..|bs|] == bs;
          assert Through(sectors, size, Busy(specialdata[..]), bs[|bs| - 1], b, i);
          bs := Build(b, speed, tag, size, before, bs);
          secnum, height := b.sector, h;
        }
      }
    }

    /** EV_BuildStairs. */
    method BuildStairs(tag: int, stairs: StairType) returns (rtn: int, ghost bs: seq<Built>)
      requires Valid()
      modifies specialdata
      ensures rtn == if bs == [] then 0 else 1
      ensures Records(old(specialdata[..]), specialdata[..], Speed(stairs), bs)
      ensures AllWellBuilt(sectors, tag, StairSize(stairs), Busy(old(specialdata[..])), bs)
      ensures Finished(sectors, tag, Busy(specialdata[..]), bs)
    {
      ghost var before := specialdata[..];
      var speed, size := Speed(stairs), StairSize(stairs);
      var secnum: int := -1;
      rtn, bs := 0, [];
      while true
        invariant -1 <= secnum < |sectors| && rtn == if bs == [] then 0 else 1
        invariant Records(before, specialdata[..], speed, bs) && AllWellBuilt(sectors, tag, size, Busy(before), bs)
        invariant Ends(sectors, Busy(specialdata[..]), Last(bs))
        invariant Last(bs) <= secnum
        invariant forall k: nat :: Last(bs) < k <= secnum && sectors[k].tag == tag ==> k in Busy(specialdata[..])
        decreases FreeCount(specialdata[..]), |sectors| - secnum
      {
        secnum := FindSectorFromLineTag(tag, secnum);
        if secnum < 0 { return; }
        if specialdata[secnum] != NoSpecial { continue; }
        rtn := 1;
        var height := sectors[secnum].floorheight + size;
        BusyIs(before, specialdata[..], speed, bs);
        assert (bs + [Built(secnum, height)])[..|bs|] == bs;
        bs := Build(Built(secnum, height), speed, tag, size, before, bs);
        secnum, bs := Flight(speed, tag, size, secnum, height, before, bs);
      }
    }
  }

  // ---------------------------------------------------------------------------
  // What this means

  /** No sector gets a second mover, whether it had one before or got one here. */
  lemma NeverReplaced(sectors: seq<Sector>, tag: int, size: int, busy: set<nat>, bs: seq<Built>, j: nat, k: nat)
    requires ValidLevel(sectors) && AllWellBuilt(sectors, tag, size, busy, bs) && j < k < |bs|
    ensures bs[k].sector !in busy && bs[k].sector != bs[j].sector
  {
    assert WellBuilt(sectors, tag, size, busy, bs, k);
    assert bs[j] in bs[..k];
  }

  /** Stair j belongs to the flight that starts with stair i. */
  ghost predicate SameFlight(sectors: seq<Sector>, size: int, bs: seq<Built>, i: nat, j: nat) {
    && i <= j < |bs| && bs[i].sector < |sectors| && bs[j].sector < |sectors|
    && bs[i].dest == sectors[bs[i].sector].floorheight + size
    && sectors[bs[j].sector].floorpic == sectors[bs[i].sector].floorpic
    && (exists n: nat :: n >= j - i && bs[j].dest == bs[i].dest + size * n)
  }

  lemma MatchingGrows(sectors: seq<Sector>, p: nat, n: nat)
    requires ValidLevel(sectors) && p < |sectors| && n < |sectors[p].lines| && Matches(sectors, p, n)
    ensures Matching(sectors, p, n + 1) >= 1
  {
  }

  /** Every stair is part of a flight: all its sectors share one floor texture, the first
      stair is one step above its own floor, and each is higher than the one before by a
      positive number of steps. */
  lemma {:induction false} FlightOf(sectors: seq<Sector>, tag: int, size: int, busy: set<nat>, bs: seq<Built>, j: nat)
    returns (i: nat)
    requires ValidLevel(sectors) && AllWellBuilt(sectors, tag, size, busy, bs) && j < |bs| && size > 0
    ensures SameFlight(sectors, size, bs, i, j) && sectors[bs[i].sector].tag == tag
    ensures i < j ==> SameFlight(sectors, size, bs, i, j - 1) && bs[j].dest >= bs[j - 1].dest + size
  {
    assert WellBuilt(sectors, tag, size, busy, bs, j);
    var now := busy + Sectors(bs[..j]);
    if j > 0 && Follows(sectors, size, now, bs[j - 1], bs[j]) {
      i := FlightOf(sectors, tag, size, busy, bs, j - 1);
      var p := bs[j - 1].sector;
      var l: nat :| l < |sectors[p].lines| && Through(sectors, size, now, bs[j - 1], bs[j], l);
      MatchingGrows(sectors, p, l);
      var m := Matching(sectors, p, l + 1);
      var n: nat :| n >= j - 1 - i && bs[j - 1].dest == bs[i].dest + size * n;
      assert size * (n + m) == size * n + size * m && size * m >= size;
    } else {
      i := j;
      assert bs[j].dest == bs[i].dest + size * 0;
    }
  }

  lemma {:induction false} MatchingNone(sectors: seq<Sector>, p: nat, n: nat)
    requires ValidLevel(sectors) && p < |sectors| && n <= |sectors[p].lines|
    ensures Matching(sectors, p, n) == 0 <==> forall k: nat :: k < n ==> !Matches(sectors, p, k)
  {
    if n > 0 { MatchingNone(sectors, p, n - 1); }
  }

  /** A stair is exactly one step above the one before just if the line it was reached
      through is the first that matches; matching lines to busy sectors raise it further. */
  lemma StepExact(sectors: seq<Sector>, size: int, busy: set<nat>, p: Built, b: Built, i: nat)
    requires ValidLevel(sectors) && p.sector < |sectors| && i < |sectors[p.sector].lines| && size > 0
    requires Through(sectors, size, busy, p, b, i)
    ensures b.dest == p.dest + size <==> forall k: nat :: k < i ==> !Matches(sectors, p.sector, k)
  {
    var m := Matching(sectors, p.sector, i);
    MatchingNone(sectors, p.sector, i);
    assert size * (m + 1) == size * m + size;
    if m > 0 { assert size * m >= size; }
  }

  // ---------------------------------------------------------------------------
  // There is only one way to build

  lemma WayOn(sectors: seq<Sector>, size: int, busy: set<nat>, p: Built, b: Built)
    requires ValidLevel(sectors) && Follows(sectors, size, busy, p, b)
    ensures !Ends(sectors, busy, p.sector)
  {
    var i: nat :| i < |sectors[p.sector].lines| && Through(sectors, size, busy, p, b, i);
  }

  lemma SameFollower(sectors: seq<Sector>, size: int, busy: set<nat>, p: Built, b: Built, c: Built)
    requires ValidLevel(sectors) && Follows(sectors, size, busy, p, b) && Follows(sectors, size, busy, p, c)
    ensures b == c
  {
    var i: nat :| i < |sectors[p.sector].lines| && Through(sectors, size, busy, p, b, i);
    var j: nat :| j < |sectors[p.sector].lines| && Through(sectors, size, busy, p, c, j);
    assert i == j;
  }

  lemma SameNext(sectors: seq<Sector>, tag: int, size: int, busy: set<nat>, pre: seq<Built>, b: Built, c: Built)
    requires ValidLevel(sectors)
    requires ComesNext(sectors, tag, size, busy, pre, b) && ComesNext(sectors, tag, size, busy, pre, c)
    ensures b == c
  {
    var now := busy + Sectors(pre);
    if pre != [] && Follows(sectors, size, now, pre[|pre| - 1], b) {
      WayOn(sectors, size, now, pre[|pre| - 1], b);
      SameFollower(sectors, size, now, pre[|pre| - 1], b, c);
    } else {
      if pre != [] && Follows(sectors, size, now, pre[|pre| - 1], c) { WayOn(sectors, size, now, pre[|pre| - 1], c); }
      assert b.sector == c.sector;
    }
  }

  lemma {:induction false} SamePrefix(sectors: seq<Sector>, tag: int, size: int, busy: set<nat>, bs: seq<Built>, cs: seq<Built>, j: nat)
    requires ValidLevel(sectors) && j <= |bs| && j <= |cs|
    requires AllWellBuilt(sectors, tag, size, busy, bs) && AllWellBuilt(sectors, tag, size, busy, cs)
    ensures bs[..j] == cs[..j]
  {
    if j > 0 {
      SamePrefix(sectors, tag, size, busy, bs, cs, j - 1);
      assert WellBuilt(sectors, tag, size, busy, bs, j - 1);
      assert WellBuilt(sectors, tag, size, busy, cs, j - 1);
      SameNext(sectors, tag, size, busy, bs[..j - 1], bs[j - 1], cs[j - 1]);
      assert bs[..j] == bs[..j - 1] + [bs[j - 1]] && cs[..j] == cs[..j - 1] + [cs[j - 1]];
    }
  }

  lemma FinishedIsLast(sectors: seq<Sector>, tag: int, size: int, busy: set<nat>, bs: seq<Built>, b: Built)
    requires ValidLevel(sectors) && Finished(sectors, tag, busy + Sectors(bs), bs)
    ensures !ComesNext(sectors, tag, size, busy, bs, b)
  {
    var now := busy + Sectors(bs);
    if bs != [] && Follows(sectors, size, now, bs[|bs| - 1], b) { WayOn(sectors, size, now, bs[|bs| - 1], b); }
  }

  /** What EV_BuildStairs promises leaves it no choice: any two ways to build all stairs are
      the same. */
  lemma BuildUnique(sectors: seq<Sector>, tag: int, size: int, busy: set<nat>, bs: seq<Built>, cs: seq<Built>)
    requires ValidLevel(sectors)
    requires AllWellBuilt(sectors, tag, size, busy, bs) && Finished(sectors, tag, busy + Sectors(bs), bs)
    requires AllWellBuilt(sectors, tag, size, busy, cs) && Finished(sectors, tag, busy + Sectors(cs), cs)
    ensures bs == cs
  {
    var n := if |bs| < |cs| then |bs| else |cs|;
    SamePrefix(sectors, tag, size, busy, bs, cs, n);
    assert bs[..|bs|] == bs && cs[..|cs|] == cs;
    if n < |cs| {
      assert WellBuilt(sectors, tag, size, busy, cs, n);
      FinishedIsLast(sectors, tag, size, busy, bs, cs[n]);
    } else if n < |bs| {
      assert WellBuilt(sectors, tag, size, busy, bs, n);
      FinishedIsLast(sectors, tag, size, busy, cs, bs[n]);
    }
  }

  // ---------------------------------------------------------------------------
  // A stair that is two steps high

  /** Sector 0 is tagged and leads to sector 1, which is moving, and then to sector 2. */
  function Landing(): (sectors: seq<Sector>)
    ensures ValidLevel(sectors)
  {
    [Sector(7, 0, 1, [Line(true, 0, 1), Line(true, 0, 2)]), Sector(0, 0, 1, []), Sector(0, 0, 1, [])]
  }

  lemma LandingBuilt(bs: seq<Built>, size: int)
    requires size > 0 && bs == [Built(0, size), Built(2, 3 * size)]
    ensures AllWellBuilt(Landing(), 7, size, {1}, bs) && Finished(Landing(), 7, {1} + Sectors(bs), bs)
  {
    var sectors := Landing();
    assert bs[..0] == [] && bs[..1] == [Built(0, size)];
    assert Sectors(bs[..0]) == {} && Sectors(bs[..1]) == {0};
    assert WellBuilt(sectors, 7, size, {1}, bs, 0);
    assert Matches(sectors, 0, 0) && Matches(sectors, 0, 1);
    assert Matching(sectors, 0, 2) == 2;
    assert Through(sectors, size, {1, 0}, bs[0], bs[1], 1);
    assert {1} + Sectors(bs[..1]) == {1, 0};
    assert WellBuilt(sectors, 7, size, {1}, bs, 1);
  }

  /** The stair that EV_BuildStairs makes of sector 2 there is two steps above the one of
      sector 0. */
  method TallStair(stairs: StairType) returns (rise: int)
    ensures rise == 2 * StairSize(stairs)
  {
    var specialdata := new Special[3](i => if i == 1 then OtherMover else NoSpecial);
    var level := new Level(Landing(), specialdata);
    ghost var before := specialdata[..];
    assert before == [NoSpecial, OtherMover, NoSpecial];
    assert Busy(before) == {1};
    var rtn, bs := level.BuildStairs(7, stairs);
    ghost var cs := [Built(0, StairSize(stairs)), Built(2, 3 * StairSize(stairs))];
    LandingBuilt(cs, StairSize(stairs));
    BusyIs(before, specialdata[..], Speed(stairs), bs);
    BuildUnique(Landing(), 7, StairSize(stairs), {1}, bs, cs);
    assert bs[0].dest == StairSize(stairs) && bs[1].dest == 3 * StairSize(stairs);
    rise := specialdata[2].dest - specialdata[0].dest;
  }
}
