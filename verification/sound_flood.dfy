// P_RecursiveSound and P_NoiseAlert: a noise floods the sectors it can reach, crossing at
// most one sound-blocking line.
module SoundFlood {
  /** A line: its flags and the sectors of its sides, if it has a second one. */
  datatype Line = Line(twosided: bool, soundblock: bool, front: nat, back: Side)
  datatype Side = NoSide | Side(sector: nat)

  datatype Heights = Heights(floor: int, ceiling: int)

  /** The level, as far as sound is concerned: heights of every sector, and the lines
      around it. */
  datatype Map = Map(heights: seq<Heights>, lines: seq<seq<Line>>)

  predicate ValidMap(m: Map) {
    && |m.lines| == |m.heights|
    && (forall s, i :: 0 <= s < |m.lines| && 0 <= i < |m.lines[s]| ==> ValidLine(m, m.lines[s][i]))
  }

  predicate ValidLine(m: Map, l: Line) {
    l.front < |m.heights| && (l.back.Side? ==> l.back.sector < |m.heights|)
  }

  function Min(a: int, b: int): int { if a < b then a else b }

  function Max(a: int, b: int): int { if a > b then a else b }

  /** P_LineOpening: the height of the gap. */
  function OpenRange(m: Map, l: Line): int
    requires ValidLine(m, l)
  {
    match l.back
    case NoSide => 0
    case Side(b) =>
      var f, k := m.heights[l.front], m.heights[b];
      Min(f.ceiling, k.ceiling) - Max(f.floor, k.floor)
  }

  /** Sound passes through line i of sector s. */
  predicate Passes(m: Map, s: nat, i: nat)
    requires ValidMap(m)
  {
    s < |m.lines| && i < |m.lines[s]| && m.lines[s][i].twosided && OpenRange(m, m.lines[s][i]) > 0
  }

  function Other(m: Map, s: nat, i: nat): (o: nat)
    requires ValidMap(m) && Passes(m, s, i)
    ensures o < |m.lines|
  {
    var l := m.lines[s][i];
    if l.front == s then l.back.sector else l.front
  }

  /** 1 for a sound-blocking line. */
  function Cost(m: Map, s: nat, i: nat): nat
    requires ValidMap(m) && Passes(m, s, i)
  {
    if m.lines[s][i].soundblock then 1 else 0
  }

  // ---------------------------------------------------------------------------
  // Walks: the lines taken, by their place in each sector's list

  ghost predicate IsWalk(m: Map, s: nat, w: seq<nat>, t: nat)
    requires ValidMap(m)
    decreases |w|
  {
    if w == [] then s == t else Passes(m, s, w[0]) && IsWalk(m, Other(m, s, w[0]), w[1..], t)
  }

  /** Sound-blocking lines crossed. */
  ghost function Blocks(m: Map, s: nat, w: seq<nat>, t: nat): nat
    requires ValidMap(m) && IsWalk(m, s, w, t)
    decreases |w|
  {
    if w == [] then 0 else Cost(m, s, w[0]) + Blocks(m, Other(m, s, w[0]), w[1..], t)
  }

  /** t can be reached from s across exactly b sound-blocking lines. */
  ghost predicate Reaches(m: Map, s: nat, t: nat, b: nat)
    requires ValidMap(m)
  {
    exists w :: IsWalk(m, s, w, t) && Blocks(m, s, w, t) == b
  }

  lemma ReachesSelf(m: Map, s: nat)
    requires ValidMap(m)
    ensures Reaches(m, s, s, 0)
  {
    assert IsWalk(m, s, [], s) && Blocks(m, s, [], s) == 0;
  }

  lemma ReachesVia(m: Map, s: nat, i: nat, t: nat, b: nat)
    requires ValidMap(m) && Passes(m, s, i) && Reaches(m, Other(m, s, i), t, b)
    ensures Reaches(m, s, t, Cost(m, s, i) + b)
  {
    var o := Other(m, s, i);
    var w :| IsWalk(m, o, w, t) && Blocks(m, o, w, t) == b;
    var v := [i] + w;
    assert v[0] == i && v[1..] == w;
    assert IsWalk(m, s, v, t) && Blocks(m, s, v, t) == Cost(m, s, i) + b;
  }

  // ---------------------------------------------------------------------------
  // Labels: 1 or 2 for sectors flooded in this round, 3 for the others

  /** The fields of a sector that the flood writes. */
  datatype Sector<T> = Sector(validcount: int, soundtraversed: int, soundtarget: T)

  function Label<T>(sec: Sector<T>, validcount: int): int {
    if sec.validcount == validcount then sec.soundtraversed else 3
  }

  /** The labels of flooded sectors are 1 and 2. */
  predicate Marked<T>(sectors: seq<Sector<T>>, validcount: int) {
    forall t :: 0 <= t < |sectors| ==> 1 <= Label(sectors[t], validcount) <= 3
  }

  function Slack<T>(sectors: seq<Sector<T>>, validcount: int): (r: nat)
    requires Marked(sectors, validcount)
  {
    if sectors == [] then 0 else Label(sectors[0], validcount) - 1 + Slack(sectors[1..], validcount)
  }

  /** No label grew, and labelling is the only change. */
  ghost predicate Improves<T>(before: seq<Sector<T>>, after: seq<Sector<T>>, validcount: int, target: T) {
    && |after| == |before|
    && forall t :: 0 <= t < |before| ==>
         if Label(after[t], validcount) < Label(before[t], validcount)
         then after[t] == Sector(validcount, Label(after[t], validcount), target)
         else after[t] == before[t]
  }

  lemma {:induction false} SlackShrinks<T>(before: seq<Sector<T>>, after: seq<Sector<T>>, validcount: int)
    requires Marked(before, validcount) && Marked(after, validcount) && |after| == |before|
    requires forall t :: 0 <= t < |before| ==> Label(after[t], validcount) <= Label(before[t], validcount)
    ensures Slack(after, validcount) <= Slack(before, validcount)
    ensures forall t :: 0 <= t < |before| && Label(after[t], validcount) < Label(before[t], validcount) ==>
              Slack(after, validcount) < Slack(before, validcount)
  {
    if before != [] { SlackShrinks(before[1..], after[1..], validcount); }
  }

  lemma {:induction false} FreshSlack<T>(sectors: seq<Sector<T>>, validcount: int)
    requires Marked(sectors, validcount)
    ensures Slack(sectors, validcount) <= 2 * |sectors|
  {
    if sectors != [] { FreshSlack(sectors[1..], validcount); }
  }

  /** The first n lines of sector t carry its label on. */
  ghost predicate ClosedUpTo<T>(m: Map, sectors: seq<Sector<T>>, validcount: int, t: nat, n: nat)
    requires ValidMap(m) && |sectors| == |m.lines| && t < |sectors|
  {
    forall i: nat :: i < n && Passes(m, t, i) ==> CarriedOn(m, sectors, validcount, t, i)
  }

  ghost predicate CarriedOn<T>(m: Map, sectors: seq<Sector<T>>, validcount: int, t: nat, i: nat)
    requires ValidMap(m) && |sectors| == |m.lines| && t < |sectors| && Passes(m, t, i)
  {
    var l := Label(sectors[t], validcount) + Cost(m, t, i);
    l <= 2 ==> Label(sectors[Other(m, t, i)], validcount) <= l
  }

  ghost predicate Closed<T>(m: Map, sectors: seq<Sector<T>>, validcount: int, t: nat)
    requires ValidMap(m) && |sectors| == |m.lines| && t < |sectors|
  {
    ClosedUpTo(m, sectors, validcount, t, |m.lines[t]|)
  }

  /** What a flood from s at label l leaves behind: every label that dropped was reached,
      and is carried on. */
  ghost predicate Flooded<T>(m: Map, before: seq<Sector<T>>, after: seq<Sector<T>>, validcount: int, s: nat, l: int)
    requires ValidMap(m) && |before| == |m.lines| && |after| == |before|
  {
    forall t :: 0 <= t < |before| && Label(after[t], validcount) < Label(before[t], validcount) ==>
      Reached(m, after, validcount, s, l, t) && Closed(m, after, validcount, t)
  }

  ghost predicate Reached<T>(m: Map, after: seq<Sector<T>>, validcount: int, s: nat, l: int, t: nat)
    requires ValidMap(m) && t < |after|
  {
    var l' := Label(after[t], validcount);
    l <= l' <= 2 && Reaches(m, s, t, l' - l)
  }

  lemma ClosedStays<T>(m: Map, before: seq<Sector<T>>, after: seq<Sector<T>>, validcount: int, t: nat, n: nat)
    requires ValidMap(m) && |before| == |m.lines| && |after| == |before| && t < |before|
    requires forall u :: 0 <= u < |before| ==> Label(after[u], validcount) <= Label(before[u], validcount)
    requires after[t] == before[t] && ClosedUpTo(m, before, validcount, t, n)
    ensures ClosedUpTo(m, after, validcount, t, n)
  {
    forall i: nat | i < n && Passes(m, t, i) ensures CarriedOn(m, after, validcount, t, i) {
      assert CarriedOn(m, before, validcount, t, i);
    }
  }

  /** What holds inside the loop over the lines of s, whose own label is l. */
  ghost predicate Flooding<T>(m: Map, before: seq<Sector<T>>, now: seq<Sector<T>>, validcount: int, s: nat, l: int, n: nat)
    requires ValidMap(m) && |before| == |m.lines| && |now| == |before|
  {
    && s < |before| && Label(now[s], validcount) == l && l <= 2
    && ClosedUpTo(m, now, validcount, s, n)
    && forall t :: 0 <= t < |before| && t != s && Label(now[t], validcount) < Label(before[t], validcount) ==>
         Reached(m, now, validcount, s, l, t) && Closed(m, now, validcount, t)
  }

  /** One more line: either nothing goes through it, or a flood went through. */
  lemma FloodingOn<T>(m: Map, before: seq<Sector<T>>, now: seq<Sector<T>>, after: seq<Sector<T>>, validcount: int,
                      target: T, s: nat, l: int, i: nat)
    requires ValidMap(m) && |before| == |m.lines| && Improves(before, now, validcount, target)
    requires Improves(now, after, validcount, target)
    requires Flooding(m, before, now, validcount, s, l, i) && Passes(m, s, i) && l + Cost(m, s, i) <= 2
    requires Flooded(m, now, after, validcount, Other(m, s, i), l + Cost(m, s, i))
    requires Label(after[Other(m, s, i)], validcount) <= l + Cost(m, s, i)
    ensures Improves(before, after, validcount, target) && Flooding(m, before, after, validcount, s, l, i + 1)
  {
    var o, c := Other(m, s, i), Cost(m, s, i);
    assert Label(after[s], validcount) >= l;
    assert after[s] == now[s];
    ClosedStays(m, now, after, validcount, s, i);
    assert CarriedOn(m, after, validcount, s, i);
    forall t | 0 <= t < |before| && t != s && Label(after[t], validcount) < Label(before[t], validcount)
      ensures Reached(m, after, validcount, s, l, t) && Closed(m, after, validcount, t)
    {
      if Label(after[t], validcount) < Label(now[t], validcount) {
        assert Reached(m, after, validcount, o, l + c, t);
        ReachesVia(m, s, i, t, Label(after[t], validcount) - (l + c));
      } else {
        ClosedStays(m, now, after, validcount, t, |m.lines[t]|);
      }
    }
  }

  lemma FloodingPast<T>(m: Map, before: seq<Sector<T>>, now: seq<Sector<T>>, validcount: int, s: nat, l: int, i: nat)
    requires ValidMap(m) && |before| == |m.lines| && |now| == |before|
    requires Flooding(m, before, now, validcount, s, l, i)
    requires Passes(m, s, i) ==> l + Cost(m, s, i) > 2
    ensures Flooding(m, before, now, validcount, s, l, i + 1)
  {
  }

  lemma FloodingStarts<T>(m: Map, before: seq<Sector<T>>, now: seq<Sector<T>>, validcount: int, target: T, s: nat, l: int)
    requires ValidMap(m) && |before| == |m.lines| && s < |before| && Marked(before, validcount) && 1 <= l <= 2
    requires Label(before[s], validcount) > l && now == before[s := Sector(validcount, l, target)]
    ensures Marked(now, validcount) && Improves(before, now, validcount, target)
    ensures Flooding(m, before, now, validcount, s, l, 0) && 1 + Slack(now, validcount) <= Slack(before, validcount)
  {
    assert forall t :: 0 <= t < |before| && t != s ==> now[t] == before[t];
    assert Marked(now, validcount);
    SlackShrinks(before, now, validcount);
  }

  lemma FloodingEnds<T>(m: Map, before: seq<Sector<T>>, now: seq<Sector<T>>, validcount: int, s: nat, l: int)
    requires ValidMap(m) && |before| == |m.lines| && |now| == |before| && s < |before|
    requires Flooding(m, before, now, validcount, s, l, |m.lines[s]|)
    ensures Flooded(m, before, now, validcount, s, l)
  {
    ReachesSelf(m, s);
  }

  class Level<T> {
    const m: Map
    const sectors: array<Sector<T>>
    var validcount: int
    var soundtarget: T

    constructor (m: Map, sectors: array<Sector<T>>, validcount: int, soundtarget: T)
      requires ValidMap(m) && sectors.Length == |m.lines|
      requires forall t :: 0 <= t < sectors.Length ==> sectors[t].validcount <= validcount
      ensures Valid() && this.m == m && this.sectors == sectors
      ensures this.validcount == validcount && this.soundtarget == soundtarget
    {
      this.m, this.sectors := m, sectors;
      this.validcount, this.soundtarget := validcount, soundtarget;
    }

    /** No sector has been visited in a round that is still to come. */
    predicate Valid()
      reads this, sectors
    {
      && Sized()
      && forall t :: 0 <= t < sectors.Length ==> sectors[t].validcount <= validcount
    }

    predicate Sized() {
      ValidMap(m) && sectors.Length == |m.lines|
    }

    /** P_RecursiveSound.  `floods` counts the calls that do not return at once. */
    method RecursiveSound(s: nat, soundblocks: int) returns (ghost floods: nat)
      requires Sized() && Marked(sectors[..], validcount) && s < sectors.Length && 0 <= soundblocks <= 1
      modifies sectors
      ensures Marked(sectors[..], validcount)
      ensures Improves(old(sectors[..]), sectors[..], validcount, soundtarget)
      ensures Label(sectors[s], validcount) <= soundblocks + 1
      ensures Flooded(m, old(sectors[..]), sectors[..], validcount, s, soundblocks + 1)
      ensures floods + Slack(sectors[..], validcount) <= Slack(old(sectors[..]), validcount)
      decreases Slack(sectors[..], validcount), 0
    {
      floods := 0;
      if sectors[s].validcount == validcount && sectors[s].soundtraversed <= soundblocks + 1 {
        return;
      }
      ghost var before := sectors[..];
      sectors[s] := Sector(validcount, soundblocks + 1, soundtarget);
      floods := 1;
      assert sectors[..] == before[s := Sector(validcount, soundblocks + 1, soundtarget)];
      FloodingStarts(m, before, sectors[..], validcount, soundtarget, s, soundblocks + 1);
      var i := 0;
      while i < |m.lines[s]|
        invariant 0 <= i <= |m.lines[s]|
        invariant Marked(sectors[..], validcount) && Improves(before, sectors[..], validcount, soundtarget)
        invariant Flooding(m, before, sectors[..], validcount, s, soundblocks + 1, i)
        invariant floods + Slack(sectors[..], validcount) <= Slack(before, validcount) && floods > 0
      {
        ghost var more := ThroughLine(s, i, soundblocks, before);
        floods := floods + more;
        i := i + 1;
      }
      FloodingEnds(m, before, sectors[..], validcount, s, soundblocks + 1);
    }

    /** The body of the loop over the lines of a sector. */
    method ThroughLine(s: nat, i: nat, soundblocks: int, ghost before: seq<Sector<T>>) returns (ghost floods: nat)
      requires Sized() && Marked(sectors[..], validcount) && 0 <= soundblocks <= 1
      requires s < sectors.Length && i < |m.lines[s]| && |before| == sectors.Length
      requires Improves(before, sectors[..], validcount, soundtarget)
      requires Flooding(m, before, sectors[..], validcount, s, soundblocks + 1, i)
      modifies sectors
      ensures Marked(sectors[..], validcount) && Improves(before, sectors[..], validcount, soundtarget)
      ensures Flooding(m, before, sectors[..], validcount, s, soundblocks + 1, i + 1)
      ensures floods + Slack(sectors[..], validcount) <= Slack(old(sectors[..]), validcount)
      decreases Slack(sectors[..], validcount), 2
    {
      ghost var now, l := sectors[..], soundblocks + 1;
      floods := SoundThrough(s, i, soundblocks);
      if Passes(m, s, i) && l + Cost(m, s, i) <= 2 {
        FloodingOn(m, before, now, sectors[..], validcount, soundtarget, s, l, i);
      } else {
        FloodingPast(m, before, now, validcount, s, l, i);
      }
    }

    /** One line: the sector behind it is flooded, unless it keeps the sound back. */
    method SoundThrough(s: nat, i: nat, soundblocks: int) returns (ghost floods: nat)
      requires Sized() && Marked(sectors[..], validcount) && 0 <= soundblocks <= 1
      requires s < sectors.Length && i < |m.lines[s]|
      modifies sectors
      ensures Marked(sectors[..], validcount) && Improves(old(sectors[..]), sectors[..], validcount, soundtarget)
      ensures if Passes(m, s, i) && soundblocks + 1 + Cost(m, s, i) <= 2
              then Flooded(m, old(sectors[..]), sectors[..], validcount, Other(m, s, i), soundblocks + 1 + Cost(m, s, i))
                   && Label(sectors[Other(m, s, i)], validcount) <= soundblocks + 1 + Cost(m, s, i)
              else sectors[..] == old(sectors[..])
      ensures floods + Slack(sectors[..], validcount) <= Slack(old(sectors[..]), validcount)
      decreases Slack(sectors[..], validcount), 1
    {
      floods := 0;
      var check := m.lines[s][i];
      if !check.twosided || OpenRange(m, check) <= 0 { return; }
      var other := if check.front == s then check.back.sector else check.front;
      if check.soundblock {
        if soundblocks == 0 { floods := RecursiveSound(other, 1); }
      } else {
        floods := RecursiveSound(other, soundblocks);
      }
    }

    /** P_NoiseAlert.  Afterwards sector t is labelled 1 just if sound gets there freely, 2
        just if it has to cross one sound-blocking line, and is untouched otherwise. */
    method NoiseAlert(target: T, s: nat) returns (ghost floods: nat)
      requires Valid() && s < sectors.Length
      modifies this, sectors
      ensures Valid() && validcount == old(validcount) + 1 && soundtarget == target
      ensures forall t :: 0 <= t < sectors.Length ==>
        sectors[t] == if Reaches(m, s, t, 0) then Sector(validcount, 1, target)
                      else if Reaches(m, s, t, 1) then Sector(validcount, 2, target)
                      else old(sectors[t])
      ensures forall t :: 0 <= t < sectors.Length && t != s && m.heights[t].floor >= m.heights[t].ceiling ==>
        sectors[t] == old(sectors[t])
      ensures floods <= 2 * sectors.Length
    {
      soundtarget := target;
      validcount := validcount + 1;
      ghost var before := sectors[..];
      FreshSlack(before, validcount);
      floods := RecursiveSound(s, 0);
      ghost var after := sectors[..];
      Exact(m, before, after, validcount, target, s);
      assert forall t :: 0 <= t < sectors.Length ==> after[t] == sectors[t];
      forall t | 0 <= t < sectors.Length && t != s && m.heights[t].floor >= m.heights[t].ceiling
        ensures sectors[t] == old(sectors[t])
      {
        ClosedIsSilent(m, s, t, 0);
        ClosedIsSilent(m, s, t, 1);
      }
    }
  }

  // ---------------------------------------------------------------------------
  // What the flood goes through, said of sectors and heights

  /** Height z lies in the room of sector s. */
  predicate InRoom(m: Map, s: nat, z: int)
    requires s < |m.heights|
  {
    m.heights[s].floor <= z < m.heights[s].ceiling
  }

  /** Line l, taken from sector a, leads to b: to its other side. */
  predicate Joins(l: Line, a: nat, b: nat) {
    l.back.Side? && if l.front == a then l.back.sector == b else l.front == b
  }

  /** Both of its sectors have room at a common height. */
  ghost predicate Open(m: Map, l: Line)
    requires ValidLine(m, l)
  {
    l.back.Side? && exists z: int :: InRoom(m, l.front, z) && InRoom(m, l.back.sector, z)
  }

  /** Sound passes through a line exactly if it is two-sided and some height is open on both
      sides; it comes out on the other side. */
  lemma PassesExact(m: Map, s: nat, i: nat)
    requires ValidMap(m) && s < |m.lines| && i < |m.lines[s]|
    ensures Passes(m, s, i) <==> m.lines[s][i].twosided && Open(m, m.lines[s][i])
    ensures Passes(m, s, i) ==> Joins(m.lines[s][i], s, Other(m, s, i))
  {
    var l := m.lines[s][i];
    if Passes(m, s, i) {
      var z := Max(m.heights[l.front].floor, m.heights[l.back.sector].floor);
      assert InRoom(m, l.front, z) && InRoom(m, l.back.sector, z);
    }
  }

  /** A line of sector a lets sound through to b. */
  ghost predicate Opening(m: Map, a: nat, b: nat, i: nat, blocking: bool)
    requires ValidMap(m)
  {
    && a < |m.lines| && i < |m.lines[a]|
    && m.lines[a][i].twosided && m.lines[a][i].soundblock == blocking
    && Open(m, m.lines[a][i]) && Joins(m.lines[a][i], a, b)
  }

  ghost predicate Door(m: Map, a: nat, b: nat, blocking: bool)
    requires ValidMap(m)
  {
    exists i: nat :: Opening(m, a, b, i, blocking)
  }

  /** The sectors of p, each joined to the next without a sound-blocking line. */
  ghost predicate FreePath(m: Map, p: seq<nat>, s: nat, t: nat)
    requires ValidMap(m)
  {
    p != [] && p[0] == s && p[|p| - 1] == t && forall k :: 0 <= k < |p| - 1 ==> Door(m, p[k], p[k + 1], false)
  }

  lemma OpeningIs(m: Map, a: nat, b: nat, i: nat, blocking: bool)
    requires ValidMap(m)
    ensures Opening(m, a, b, i, blocking) <==> Passes(m, a, i) && Other(m, a, i) == b && m.lines[a][i].soundblock == blocking
  {
    if a < |m.lines| && i < |m.lines[a]| { PassesExact(m, a, i); }
  }

  lemma {:induction false} PathOfWalk(m: Map, s: nat, w: seq<nat>, t: nat) returns (p: seq<nat>)
    requires ValidMap(m) && IsWalk(m, s, w, t) && Blocks(m, s, w, t) == 0
    ensures FreePath(m, p, s, t)
    decreases |w|
  {
    if w == [] {
      p := [s];
    } else {
      var o := Other(m, s, w[0]);
      OpeningIs(m, s, o, w[0], false);
      var q := PathOfWalk(m, o, w[1..], t);
      p := [s] + q;
      forall k | 0 <= k < |p| - 1 ensures Door(m, p[k], p[k + 1], false) {
        if k > 0 { assert Door(m, q[k - 1], q[k], false); }
      }
    }
  }

  lemma {:induction false} WalkOfPath(m: Map, p: seq<nat>, s: nat, t: nat)
    requires ValidMap(m) && FreePath(m, p, s, t)
    ensures Reaches(m, s, t, 0)
    decreases |p|
  {
    if |p| == 1 {
      ReachesSelf(m, s);
    } else {
      assert Door(m, p[0], p[1], false);
      var i: nat :| Opening(m, s, p[1], i, false);
      OpeningIs(m, s, p[1], i, false);
      forall k | 0 <= k < |p[1..]| - 1 ensures Door(m, p[1..][k], p[1..][k + 1], false) {
        assert Door(m, p[k + 1], p[k + 2], false);
      }
      WalkOfPath(m, p[1..], p[1], t);
      ReachesVia(m, s, i, t, 0);
    }
  }

  /** Label 1: there is a path through openings none of which blocks sound. */
  lemma FreeExact(m: Map, s: nat, t: nat)
    requires ValidMap(m)
    ensures Reaches(m, s, t, 0) <==> exists p: seq<nat> :: FreePath(m, p, s, t)
  {
    if Reaches(m, s, t, 0) {
      var w :| IsWalk(m, s, w, t) && Blocks(m, s, w, t) == 0;
      var p := PathOfWalk(m, s, w, t);
    }
    if p: seq<nat> :| FreePath(m, p, s, t) { WalkOfPath(m, p, s, t); }
  }

  /** A free path to a, a sound-blocking opening to b, and a free path on. */
  ghost predicate Through(m: Map, s: nat, a: nat, b: nat, t: nat)
    requires ValidMap(m)
  {
    Reaches(m, s, a, 0) && Door(m, a, b, true) && Reaches(m, b, t, 0)
  }

  lemma {:induction false} ThroughOfWalk(m: Map, s: nat, w: seq<nat>, t: nat) returns (a: nat, b: nat)
    requires ValidMap(m) && IsWalk(m, s, w, t) && Blocks(m, s, w, t) == 1
    ensures Through(m, s, a, b, t)
    decreases |w|
  {
    var o := Other(m, s, w[0]);
    OpeningIs(m, s, o, w[0], m.lines[s][w[0]].soundblock);
    if m.lines[s][w[0]].soundblock {
      a, b := s, o;
      ReachesSelf(m, s);
      assert IsWalk(m, o, w[1..], t) && Blocks(m, o, w[1..], t) == 0;
    } else {
      a, b := ThroughOfWalk(m, o, w[1..], t);
      ReachesVia(m, s, w[0], a, 0);
    }
  }

  lemma {:induction false} WalkJoined(m: Map, s: nat, w: seq<nat>, a: nat, t: nat, n: nat)
    requires ValidMap(m) && IsWalk(m, s, w, a) && Blocks(m, s, w, a) == 0 && Reaches(m, a, t, n)
    ensures Reaches(m, s, t, n)
    decreases |w|
  {
    if w != [] {
      WalkJoined(m, Other(m, s, w[0]), w[1..], a, t, n);
      ReachesVia(m, s, w[0], t, n);
    }
  }

  /** Label 2: there is a path with exactly one sound-blocking opening. */
  lemma OneBlockExact(m: Map, s: nat, t: nat)
    requires ValidMap(m)
    ensures Reaches(m, s, t, 1) <==> exists a: nat, b: nat :: Through(m, s, a, b, t)
  {
    if Reaches(m, s, t, 1) {
      var w :| IsWalk(m, s, w, t) && Blocks(m, s, w, t) == 1;
      var a, b := ThroughOfWalk(m, s, w, t);
    }
    if a: nat, b: nat :| Through(m, s, a, b, t) {
      var i: nat :| Opening(m, a, b, i, true);
      OpeningIs(m, a, b, i, true);
      ReachesVia(m, a, i, t, 0);
      var w :| IsWalk(m, s, w, a) && Blocks(m, s, w, a) == 0;
      WalkJoined(m, s, w, a, t, 1);
    }
  }

  lemma {:induction false} NoWalkInto(m: Map, s: nat, w: seq<nat>, t: nat)
    requires ValidMap(m) && t < |m.heights| && m.heights[t].floor >= m.heights[t].ceiling && s != t
    ensures !IsWalk(m, s, w, t)
    decreases |w|
  {
    if w != [] && Passes(m, s, w[0]) {
      PassesExact(m, s, w[0]);
      NoWalkInto(m, Other(m, s, w[0]), w[1..], t);
    }
  }

  /** No sound gets into a sector without room, such as a closed door, from outside. */
  lemma ClosedIsSilent(m: Map, s: nat, t: nat, b: nat)
    requires ValidMap(m) && t < |m.heights| && m.heights[t].floor >= m.heights[t].ceiling && s != t
    ensures !Reaches(m, s, t, b)
  {
    forall w ensures !IsWalk(m, s, w, t) { NoWalkInto(m, s, w, t); }
  }

  // ---------------------------------------------------------------------------
  // The labels of a whole flood

  lemma {:induction false} WalkCovered<T>(m: Map, sectors: seq<Sector<T>>, validcount: int, s: nat, w: seq<nat>, t: nat, l: int)
    requires ValidMap(m) && |sectors| == |m.lines| && s < |sectors| && IsWalk(m, s, w, t)
    requires forall u :: 0 <= u < |sectors| && Label(sectors[u], validcount) < 3 ==> Closed(m, sectors, validcount, u)
    requires Label(sectors[s], validcount) <= l && l + Blocks(m, s, w, t) <= 2
    ensures t < |sectors| && Label(sectors[t], validcount) <= l + Blocks(m, s, w, t)
    decreases |w|
  {
    if w != [] {
      assert CarriedOn(m, sectors, validcount, s, w[0]);
      WalkCovered(m, sectors, validcount, Other(m, s, w[0]), w[1..], t, l + Cost(m, s, w[0]));
    }
  }

  lemma Covered<T>(m: Map, sectors: seq<Sector<T>>, validcount: int, s: nat, t: nat, b: nat)
    requires ValidMap(m) && |sectors| == |m.lines| && s < |sectors| && t < |sectors|
    requires forall u :: 0 <= u < |sectors| && Label(sectors[u], validcount) < 3 ==> Closed(m, sectors, validcount, u)
    requires Label(sectors[s], validcount) <= 1 && Reaches(m, s, t, b) && b <= 1
    ensures Label(sectors[t], validcount) <= b + 1
  {
    var w :| IsWalk(m, s, w, t) && Blocks(m, s, w, t) == b;
    WalkCovered(m, sectors, validcount, s, w, t, 1);
  }

  lemma Exact<T>(m: Map, before: seq<Sector<T>>, after: seq<Sector<T>>, validcount: int, target: T, s: nat)
    requires ValidMap(m) && |before| == |m.lines| && s < |before|
    requires forall t :: 0 <= t < |before| ==> Label(before[t], validcount) == 3
    requires Marked(after, validcount) && Improves(before, after, validcount, target)
    requires Label(after[s], validcount) <= 1 && Flooded(m, before, after, validcount, s, 1)
    ensures forall t :: 0 <= t < |before| ==>
      after[t] == if Reaches(m, s, t, 0) then Sector(validcount, 1, target)
                  else if Reaches(m, s, t, 1) then Sector(validcount, 2, target)
                  else before[t]
  {
    forall t | 0 <= t < |before|
      ensures after[t] == if Reaches(m, s, t, 0) then Sector(validcount, 1, target)
                          else if Reaches(m, s, t, 1) then Sector(validcount, 2, target)
                          else before[t]
    {
      if Reaches(m, s, t, 0) {
        Covered(m, after, validcount, s, t, 0);
      } else if Reaches(m, s, t, 1) {
        Covered(m, after, validcount, s, t, 1);
        assert Reached(m, after, validcount, s, 1, t);
      } else {
        assert Label(after[t], validcount) == 3;
      }
    }
  }
}
