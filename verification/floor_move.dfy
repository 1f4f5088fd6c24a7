// T_MovePlane and T_MoveFloor.  Whether things are crushed by the new height, the answer of
// P_ChangeSector, comes from outside.
module FloorMove {
  datatype Result = Ok | Crushed | PastDest

  datatype Plane = Floor | Ceiling
  datatype Direction = Up | Down

  /** One move of a plane: where it ends up, and the result.  `fits` says whether nothing is
      in the way of the new height. */
  function Moved(h: int, speed: int, dest: int, crush: bool, plane: Plane, dir: Direction, fits: bool): (int, Result) {
    var next := if dir == Up then h + speed else h - speed;
    if (dir == Up && next > dest) || (dir == Down && next < dest) then (if fits then dest else h, PastDest)
    else if fits then (next, Ok)
    else if plane == Ceiling && dir == Up then (next, Ok)
    else if crush && (plane == Floor <==> dir == Up) then (next, Crushed)
    else (h, Crushed)
  }

  function Gap(h: int, dest: int, dir: Direction): int {
    if dir == Up then dest - h else h - dest
  }

  /** What a move means.  A plane short of its destination stays short of it. The result is
      PastDest exactly if the step would lead past the destination. With nothing in the way
      the distance shrinks by the speed, to no less than 0; with something in the way the
      plane stays where it is, unless it crushes or is a rising ceiling. */
  lemma MoveLaw(h: int, speed: int, dest: int, crush: bool, plane: Plane, dir: Direction, fits: bool)
    requires speed > 0 && Gap(h, dest, dir) >= 0
    ensures var r := Moved(h, speed, dest, crush, plane, dir, fits);
            && 0 <= Gap(r.0, dest, dir) <= Gap(h, dest, dir)
            && (r.1 == PastDest <==> Gap(h, dest, dir) < speed)
            && (fits ==> Gap(r.0, dest, dir) == (if Gap(h, dest, dir) < speed then 0 else Gap(h, dest, dir) - speed))
            && (!fits && r.0 != h ==> Gap(h, dest, dir) >= speed && if plane == Floor then crush && dir == Up else crush || dir == Up)
            && (r.1 == Crushed ==> !fits)
  {
  }

  datatype FloorType = DonutRaise | LowerAndChange | OtherType

  /** floormove_t */
  datatype Mover = Mover(kind: FloorType, crush: bool, dir: Direction, newspecial: int, texture: int, dest: int, speed: int)

  class Sector {
    var floorheight: int
    var ceilingheight: int
    var floorpic: int
    var special: int
    var moving: bool

    constructor (floorheight: int, ceilingheight: int)
      ensures this.floorheight == floorheight && this.ceilingheight == ceilingheight && !moving
    {
      this.floorheight, this.ceilingheight := floorheight, ceilingheight;
      floorpic, special, moving := 0, 0, false;
    }

    /** T_MovePlane */
    method MovePlane(speed: int, dest: int, crush: bool, plane: Plane, dir: Direction, fits: bool) returns (res: Result)
      modifies this`floorheight, this`ceilingheight
      ensures plane == Floor ==> (floorheight, res) == Moved(old(floorheight), speed, dest, crush, plane, dir, fits)
                                 && ceilingheight == old(ceilingheight)
      ensures plane == Ceiling ==> (ceilingheight, res) == Moved(old(ceilingheight), speed, dest, crush, plane, dir, fits)
                                   && floorheight == old(floorheight)
    {
      match plane {
        case Floor =>
          var lastpos := floorheight;
          match dir {
            case Down =>
              if floorheight - speed < dest {
                floorheight := dest;
                if !fits { floorheight := lastpos; }
                return PastDest;
              } else {
                floorheight := floorheight - speed;
                if !fits {
                  floorheight := lastpos;
                  return Crushed;
                }
              }
            case Up =>
              if floorheight + speed > dest {
                floorheight := dest;
                if !fits { floorheight := lastpos; }
                return PastDest;
              } else {
                floorheight := floorheight + speed;
                if !fits {
                  if crush { return Crushed; }
                  floorheight := lastpos;
                  return Crushed;
                }
              }
          }
        case Ceiling =>
          var lastpos := ceilingheight;
          match dir {
            case Down =>
              if ceilingheight - speed < dest {
                ceilingheight := dest;
                if !fits { ceilingheight := lastpos; }
                return PastDest;
              } else {
                ceilingheight := ceilingheight - speed;
                if !fits {
                  if crush { return Crushed; }
                  ceilingheight := lastpos;
                  return Crushed;
                }
              }
            case Up =>
              if ceilingheight + speed > dest {
                ceilingheight := dest;
                if !fits { ceilingheight := lastpos; }
                return PastDest;
              } else {
                ceilingheight := ceilingheight + speed;
              }
          }
      }
      return Ok;
    }

    /** T_MoveFloor: one tic; when the destination is passed the mover is removed. */
    method MoveFloor(m: Mover, fits: bool)
      requires moving
      modifies this
      ensures var r := Moved(old(floorheight), m.speed, m.dest, m.crush, Floor, m.dir, fits);
              && floorheight == r.0 && moving == (r.1 != PastDest) && ceilingheight == old(ceilingheight)
              && var change := !moving && ((m.dir == Up && m.kind == DonutRaise) || (m.dir == Down && m.kind == LowerAndChange));
                 if change then special == m.newspecial && floorpic == m.texture
                 else special == old(special) && floorpic == old(floorpic)
    {
      var res := MovePlane(m.speed, m.dest, m.crush, Floor, m.dir, fits);
      if res == PastDest {
        moving := false;
        if m.dir == Up && m.kind == DonutRaise {
          special, floorpic := m.newspecial, m.texture;
        } else if m.dir == Down && m.kind == LowerAndChange {
          special, floorpic := m.newspecial, m.texture;
        }
      }
    }

    /** The mover's thinker, called until it removes itself. */
    method RunFloor(m: Mover, fits: seq<bool>) returns (tics: nat)
      requires moving
      modifies this
      ensures (floorheight, moving, tics) == Run(old(floorheight), m, fits) && ceilingheight == old(ceilingheight)
    {
      tics := 0;
      while tics < |fits| && moving
        invariant tics <= |fits| && ceilingheight == old(ceilingheight)
        invariant var r := Run(old(floorheight), m, fits);
                  r == if moving then After(Run(floorheight, m, fits[tics..]), tics) else (floorheight, false, tics)
        decreases |fits| - tics
      {
        MoveFloor(m, fits[tics]);
        tics := tics + 1;
      }
    }
  }

  function After(r: (int, bool, nat), n: nat): (int, bool, nat) {
    (r.0, r.1, r.2 + n)
  }

  /** Tic by tic: the height, whether the mover is still there, and how many tics it had. */
  function Run(h: int, m: Mover, fits: seq<bool>): (int, bool, nat)
    decreases |fits|
  {
    if fits == [] then (h, true, 0)
    else
      var r := Moved(h, m.speed, m.dest, m.crush, Floor, m.dir, fits[0]);
      if r.1 == PastDest then (r.0, false, 1) else After(Run(r.0, m, fits[1..]), 1)
  }

  predicate Short(h: int, m: Mover) {
    if m.dir == Up then h <= m.dest else h >= m.dest
  }

  /** A floor never passes its destination. */
  lemma {:induction false} NeverPast(h: int, m: Mover, fits: seq<bool>)
    requires Short(h, m) && m.speed > 0
    ensures Short(Run(h, m, fits).0, m)
    decreases |fits|
  {
    if fits != [] {
      var r := Moved(h, m.speed, m.dest, m.crush, Floor, m.dir, fits[0]);
      if r.1 != PastDest { NeverPast(r.0, m, fits[1..]); }
    }
  }

  /** A floor that is pushed up by a crushing mover moves even when something is in the way. */
  predicate Pushes(m: Mover) {
    m.crush && m.dir == Up
  }

  /** In how many of these tics the floor can move. */
  function Moves(m: Mover, fits: seq<bool>): nat {
    if fits == [] then 0 else Moves(m, fits[1..]) + if fits[0] || Pushes(m) then 1 else 0
  }

  /** The first tic before which the floor could move n times; |fits| if there is none. */
  function TicAfter(m: Mover, fits: seq<bool>, n: nat): (k: nat)
    ensures k <= |fits|
    ensures k < |fits| ==> Moves(m, fits[..k]) == n
    ensures forall j :: 0 <= j < k ==> Moves(m, fits[..j]) < n
    decreases |fits|
  {
    if n == 0 || fits == [] then 0
    else
      var n' := if fits[0] || Pushes(m) then n - 1 else n;
      var k := 1 + TicAfter(m, fits[1..], n');
      assert forall j :: 0 < j <= |fits| ==> fits[..j][1..] == fits[1..][..j - 1] && fits[..j][0] == fits[0];
      k
  }

  /** Let k be the first tic before which the floor could make all the whole steps that its
      distance holds.  The mover removes itself in tic k, if the run gets there, and the floor
      is at its destination then just if nothing is in the way in that tic or the speed divides
      the distance: otherwise it stops short for good. */
  lemma {:induction false} ArrivesExactly(h: int, m: Mover, fits: seq<bool>)
    requires Short(h, m) && m.speed > 0
    ensures var gap := Gap(h, m.dest, m.dir);
            var k, r := TicAfter(m, fits, gap / m.speed), Run(h, m, fits);
            if k == |fits| then r.1
            else !r.1 && r.2 == k + 1 && (r.0 == m.dest <==> fits[k] || gap % m.speed == 0)
    decreases |fits|
  {
    if fits != [] {
      var gap := Gap(h, m.dest, m.dir);
      var r := Moved(h, m.speed, m.dest, m.crush, Floor, m.dir, fits[0]);
      QuotientSteps(gap, m.speed);
      if r.1 != PastDest { ArrivesExactly(r.0, m, fits[1..]); }
    }
  }

  lemma QuotientSteps(gap: int, speed: int)
    requires gap >= 0 && speed > 0
    ensures gap / speed >= 0 && (gap / speed == 0 <==> gap < speed)
    ensures gap >= speed ==> (gap - speed) / speed == gap / speed - 1 && (gap - speed) % speed == gap % speed
    ensures gap < speed ==> (gap % speed == 0 <==> gap == 0)
  {
    var q, r := gap / speed, gap % speed;
    assert gap == q * speed + r;
    if gap >= speed {
      assert q > 0 by { if q <= 0 { NotLarger(q, speed); } }
      assert gap - speed == (q - 1) * speed + r;
      Divided(gap - speed, speed, q - 1, r);
    } else {
      Divided(gap, speed, 0, gap);
    }
  }

  lemma NotLarger(q: int, d: int)
    requires q <= 0 && d > 0
    ensures q * d <= 0
  {
  }

  lemma Divided(x: int, d: int, q: int, r: int)
    requires d > 0 && 0 <= r < d && x == q * d + r
    ensures x / d == q && x % d == r
  {
    var q' := x / d;
    assert x == q' * d + x % d;
    assert (q' - q) * d == r - x % d;
    if q' > q { Larger(q' - q, d); }
    if q' < q { Larger(q - q', d); }
  }

  lemma Larger(q: int, d: int)
    requires q >= 1 && d > 0
    ensures q * d >= d
  {
  }

  const FRACUNIT := 0x1_0000

  /** turboLower from a height of 10 to 0: it moves by 4 a tic, something is in the way in the
      third, and the floor stays at 2. */
  lemma StopsShort()
    ensures var m := Mover(OtherType, false, Down, 0, 0, 0, 4 * FRACUNIT);
            Run(10 * FRACUNIT, m, [true, true, false]) == (2 * FRACUNIT, false, 3)
  {
    var m := Mover(OtherType, false, Down, 0, 0, 0, 4 * FRACUNIT);
    assert [true, true, false][1..] == [true, false] && [true, false][1..] == [false];
    assert Run(2 * FRACUNIT, m, [false]) == (2 * FRACUNIT, false, 1);
    assert Run(6 * FRACUNIT, m, [true, false]) == (2 * FRACUNIT, false, 2);
  }

  /** Unhindered, the floor arrives after as many tics as its distance holds steps, and one
      more. */
  lemma {:induction false} ArrivesInTime(h: int, m: Mover, fits: seq<bool>, n: nat)
    requires Short(h, m) && m.speed > 0 && |fits| > n && (forall i :: 0 <= i < |fits| ==> fits[i])
    requires n * m.speed <= Gap(h, m.dest, m.dir) < (n + 1) * m.speed
    ensures Run(h, m, fits) == (m.dest, false, n + 1)
    decreases n
  {
    if n > 0 {
      assert (n - 1) * m.speed == n * m.speed - m.speed && n * m.speed == (n + 1) * m.speed - m.speed;
      var r := Moved(h, m.speed, m.dest, m.crush, Floor, m.dir, fits[0]);
      assert n * m.speed >= m.speed;
      ArrivesInTime(r.0, m, fits[1..], n - 1);
    }
  }
}
