// The lemmas behind the lockstep theorems: tic arithmetic, rings, and what each
// action of a node keeps.
module LockstepProofs {
  import opened LockstepNode
  import opened LockstepSystem

  // ---------------------------------------------------------------------------
  // Tic arithmetic

  lemma ExpandExact(maketic: int, t: int)
    requires maketic >= 0 && -64 <= t - maketic <= 64
    ensures ExpandTics(maketic, t % 256) == t
  {
    var d := t % 256 - maketic % 256;
    assert t - maketic == 256 * (t / 256 - maketic / 256) + d;
  }

  /** 64 is the largest radius in which ExpandTics recovers every tic number. */
  lemma ExpandRadius(r: int)
    ensures (forall m: int, t: int {:trigger ExpandTics(m, t % 256)} ::
               m >= 0 && -r <= t - m <= r ==> ExpandTics(m, t % 256) == t) <==> r <= 64
  {
    if r <= 64 {
      forall m: int, t: int | m >= 0 && -r <= t - m <= r ensures ExpandTics(m, t % 256) == t {
        ExpandExact(m, t);
      }
    } else {
      assert ExpandTics(0, 65 % 256) == -191;
    }
  }

  /** A request within 69 tics expands to itself, or to the same byte one turn later. */
  lemma ExpandRequest(maketic: int, r: int)
    requires 0 <= r <= maketic <= r + 69
    ensures ResendOk(maketic, ExpandTics(maketic, r % 256))
    ensures ExpandTics(maketic, r % 256) in {r, r + 256}
  {
    var d := r % 256 - maketic % 256;
    assert r - maketic == 256 * (r / 256 - maketic / 256) + d;
  }

  lemma SlotsDiffer(p: int, q: int, p': int, q': int)
    requires Slot(p, q) == Slot(p', q')
    ensures p == p' && q % BACKUPTICS == q' % BACKUPTICS
  {
  }

  lemma SameSlot(q: int, q': int)
    requires q % BACKUPTICS == q' % BACKUPTICS && -BACKUPTICS < q - q' < BACKUPTICS
    ensures q == q'
  {
  }

  // ---------------------------------------------------------------------------
  // Receiving

  /** The copying loop leaves every slot alone that no tic of lo..hi of `who` maps to. */
  lemma {:induction false} StoreKeeps(ring: seq<Ticcmd>, who: nat, lo: int, hi: int, base: int, cmds: seq<Ticcmd>, k: nat)
    requires base <= lo && hi - base <= |cmds| && who * BACKUPTICS + BACKUPTICS <= |ring| && k < |ring|
    requires forall q :: lo <= q < hi ==> k != Slot(who, q)
    ensures StoreTics(ring, who, lo, hi, base, cmds)[k] == ring[k]
    decreases hi - lo
  {
    if lo < hi {
      StoreKeeps(ring[Slot(who, lo) := cmds[lo - base]], who, lo + 1, hi, base, cmds, k);
    }
  }

  /** ... and puts tic q of the packet into the slot of tic q. */
  lemma {:induction false} StorePuts(ring: seq<Ticcmd>, who: nat, lo: int, hi: int, base: int, cmds: seq<Ticcmd>, q: int)
    requires base <= lo && hi - base <= |cmds| && who * BACKUPTICS + BACKUPTICS <= |ring|
    requires lo <= q < hi <= lo + BACKUPTICS
    ensures StoreTics(ring, who, lo, hi, base, cmds)[Slot(who, q)] == cmds[q - base]
    decreases hi - lo
  {
    var ring' := ring[Slot(who, lo) := cmds[lo - base]];
    if q == lo {
      forall q' | lo + 1 <= q' < hi ensures Slot(who, q) != Slot(who, q') {
        if Slot(who, q) == Slot(who, q') { SlotsDiffer(who, q, who, q'); SameSlot(q, q'); }
      }
      StoreKeeps(ring', who, lo + 1, hi, base, cmds, Slot(who, q));
    } else {
      StorePuts(ring', who, lo + 1, hi, base, cmds, q);
    }
  }

  /** Rings of player `b` after a packet of player `who` is stored: nothing is lost from
      `keep` on, provided the ring is long enough. */
  lemma StoreHolds(ring: seq<Ticcmd>, who: nat, lo: int, hi: int, base: int, cmds: seq<Ticcmd>,
                   b: nat, made: seq<Ticcmd>, keep: int, top: int)
    requires base <= lo <= hi && hi - base <= |cmds|
    requires who * BACKUPTICS + BACKUPTICS <= |ring| && b * BACKUPTICS + BACKUPTICS <= |ring|
    requires Holds(ring, b * BACKUPTICS, made, keep, top)
    requires b == who ==> top == lo && keep <= lo && hi <= |made| && hi <= keep + BACKUPTICS && base >= 0
    requires b == who ==> forall q :: lo <= q < hi ==> cmds[q - base] == made[q]
    ensures Holds(StoreTics(ring, who, lo, hi, base, cmds), b * BACKUPTICS, made, keep, if b == who then hi else top)
  {
    var r := StoreTics(ring, who, lo, hi, base, cmds);
    forall q | keep <= q < (if b == who then hi else top)
      ensures HoldsAt(r, b * BACKUPTICS, made, q)
    {
      if b == who && q >= lo {
        StorePuts(ring, who, lo, hi, base, cmds, q);
      } else {
        assert HoldsAt(ring, b * BACKUPTICS, made, q);
        forall q' | lo <= q' < hi ensures Slot(b, q) != Slot(who, q') {
          if Slot(b, q) == Slot(who, q') { SlotsDiffer(b, q, who, q'); SameSlot(q, q'); }
        }
        StoreKeeps(ring, who, lo, hi, base, cmds, Slot(b, q));
      }
    }
  }

  // ---------------------------------------------------------------------------
  // Building and sending

  /** Facts about a node and its history that building keeps. */
  ghost predicate Local(c: Config, nd: Node, made: seq<Ticcmd>)
    requires ValidConfig(c)
  {
    && |made| == nd.maketic
    && nd.maketic <= NetTic(c, nd) + BACKUPTICS / 2 - 1
    && Holds(nd.localcmds, 0, made, if nd.maketic < BACKUPTICS then 0 else nd.maketic - BACKUPTICS, nd.maketic)
  }

  lemma BuildOneKeeps(c: Config, nd: Node, me: nat, control: Ticcmd, made: seq<Ticcmd>)
    requires ValidConfig(c) && Shape(c, nd) && me < c.n && CanBuild(c, nd) && Local(c, nd, made)
    ensures Local(c, BuildOne(c, nd, me, control), made + [BuildCmd(nd, me, control)])
  {
    var nd1 := BuildOne(c, nd, me, control);
    var made1 := made + [BuildCmd(nd, me, control)];
    forall q | (if nd1.maketic < BACKUPTICS then 0 else nd1.maketic - BACKUPTICS) <= q < nd1.maketic
      ensures HoldsAt(nd1.localcmds, 0, made1, q)
    {
      if q < nd.maketic {
        assert HoldsAt(nd.localcmds, 0, made, q);
        if q % BACKUPTICS == nd.maketic % BACKUPTICS { SameSlot(q, nd.maketic); }
      }
    }
  }

  lemma {:induction false} BuildKeeps(c: Config, nd: Node, me: nat, controls: seq<Ticcmd>, made: seq<Ticcmd>)
    requires ValidConfig(c) && Shape(c, nd) && me < c.n && Local(c, nd, made)
    ensures Local(c, Build(c, nd, me, controls), made + Built(c, nd, me, controls))
    ensures var b := Build(c, nd, me, controls);
            b == nd.(localcmds := b.localcmds, maketic := b.maketic)
            && nd.maketic <= b.maketic
    ensures controls != [] && CanBuild(c, nd) ==> Build(c, nd, me, controls).maketic > nd.maketic
    decreases |controls|
  {
    if controls == [] || !CanBuild(c, nd) {
      assert made + [] == made;
    } else {
      BuildOneKeeps(c, nd, me, controls[0], made);
      var x := [BuildCmd(nd, me, controls[0])];
      var rest := Built(c, BuildOne(c, nd, me, controls[0]), me, controls[1..]);
      BuildKeeps(c, BuildOne(c, nd, me, controls[0]), me, controls[1..], made + x);
      assert made + x + rest == made + (x + rest);
    }
  }

  /** The i-th built command carries the ring value of its own tic. */
  lemma {:induction false} BuiltConsistency(c: Config, nd: Node, me: nat, controls: seq<Ticcmd>, i: nat)
    requires ValidConfig(c) && Shape(c, nd) && me < c.n && i < |Built(c, nd, me, controls)|
    ensures nd.maketic + i < NetTic(c, nd) + BACKUPTICS / 2 - 1
    ensures 0 <= Slot(me, nd.maketic + i) < |nd.consist|
    ensures Built(c, nd, me, controls)[i].consistancy == nd.consist[Slot(me, nd.maketic + i)]
    decreases |controls|
  {
    SlotInRange(c, me, nd.maketic + i);
    if i > 0 {
      BuiltConsistency(c, BuildOne(c, nd, me, controls[0]), me, controls[1..], i - 1);
    }
  }

  /** The sending loop from `i` on, in closed form. */
  ghost predicate SendClosed(c: Config, nd: Node, me: nat, i: nat, r: Sent)
    requires Shape(c, nd) && Shape(c, r.node) && i + |r.packets| <= c.n
  {
    && r.node == nd.(resendto := r.node.resendto)
    && (r.error ==> i + |r.packets| < c.n && NumTics(nd, i + |r.packets|) > BACKUPTICS)
    && (!r.error ==> i + |r.packets| == c.n)
    && (forall k: nat :: k < c.n ==>
          r.node.resendto[k] == if i <= k < i + |r.packets| then nd.maketic - c.extratics else nd.resendto[k])
    && (forall k: nat :: i <= k < i + |r.packets| ==>
          NumTics(nd, k) <= BACKUPTICS && r.packets[k - i] == MakePacket(c, nd, me, k))
  }

  lemma {:induction false} SendFacts(c: Config, nd: Node, me: nat, i: nat)
    requires Shape(c, nd) && i <= c.n
    ensures SendClosed(c, nd, me, i, SendFrom(c, nd, me, i))
    decreases c.n - i
  {
    if i < c.n && NumTics(nd, i) <= BACKUPTICS {
      var nd1 := MarkSent(c, nd, i);
      var r := SendFrom(c, nd, me, i);
      var r1 := SendFrom(c, nd1, me, i + 1);
      SendFacts(c, nd1, me, i + 1);
      forall k: nat | i <= k < i + |r.packets|
        ensures NumTics(nd, k) <= BACKUPTICS && r.packets[k - i] == MakePacket(c, nd, me, k)
      {
        if k > i {
          assert r.packets[k - i] == r1.packets[k - (i + 1)];
          assert NumTics(nd1, k) == NumTics(nd, k);
          assert MakePacket(c, nd1, me, k) == MakePacket(c, nd, me, k);
        }
      }
      if r.error { assert NumTics(nd1, i + |r.packets|) == NumTics(nd, i + |r.packets|); }
    }
  }

  /** If the byte `numtics` is at most 12 then the resend position is within the ring. */
  lemma SendableIsRecent(maketic0: int, maketic: int, resend: int)
    requires ResendOk(maketic0, resend) && maketic0 <= maketic <= maketic0 + 5
    requires (maketic - resend) % 256 <= BACKUPTICS
    ensures 0 <= resend <= maketic <= resend + BACKUPTICS
  {
  }

  lemma PacketCommand(c: Config, nd: Node, me: nat, i: nat, made: seq<Ticcmd>, j: int)
    requires ValidConfig(c) && Shape(c, nd) && i < c.n && Local(c, nd, made)
    requires 0 <= nd.resendto[i] <= nd.maketic <= nd.resendto[i] + BACKUPTICS
    requires 0 <= j < MakePacket(c, nd, me, i).numtics == nd.maketic - nd.resendto[i]
    ensures MakePacket(c, nd, me, i).cmds[j] == made[nd.resendto[i] + j]
  {
    assert HoldsAt(nd.localcmds, 0, made, nd.resendto[i] + j);
  }

  /** A packet made from a recent resend position carries built commands. */
  lemma PacketCarriesMade(c: Config, nd: Node, me: nat, i: nat, made: seq<Ticcmd>)
    requires ValidConfig(c) && Shape(c, nd) && i < c.n && Local(c, nd, made)
    requires 0 <= nd.resendto[i] <= nd.maketic <= nd.resendto[i] + BACKUPTICS
    ensures var p := MakePacket(c, nd, me, i);
            && p.numtics == nd.maketic - nd.resendto[i]
            && Carries(Flight(me, i, nd.resendto[i], nd.nettics[i], p), made)
  {
    var p := MakePacket(c, nd, me, i);
    assert p.numtics == nd.maketic - nd.resendto[i];
    forall j | 0 <= j < p.numtics ensures p.cmds[j] == made[nd.resendto[i] + j] {
      PacketCommand(c, nd, me, i, made, j);
    }
  }

  // ---------------------------------------------------------------------------
  // Running

  lemma TimesMono(a: int, b: int, d: int)
    requires a <= b && d >= 0
    ensures a * d <= b * d
  {
  }

  lemma TicDiv(t: int, d: int, j: int)
    requires d >= 1 && 0 <= j < d
    ensures (t * d + j) / d == t && (t * d + j) % d == j
  {
    var x := t * d + j;
    var q := x / d;
    assert x == q * d + x % d;
    if q >= t + 1 {
      TimesMono(t + 1, q, d);
    } else if q <= t - 1 {
      TimesMono(q, t - 1, d);
    }
  }

  /** The network tic while the j-th game tic after `base` is about to run. */
  lemma TicWithin(c: Config, base: int, j: int)
    requires c.ticdup >= 1 && base >= 0 && base % c.ticdup == 0 && 0 <= j <= c.ticdup
    ensures j < c.ticdup ==> (base + j) / c.ticdup == base / c.ticdup
    ensures j < c.ticdup ==> (base + j) % c.ticdup == j
    ensures j == c.ticdup ==> (base + j) / c.ticdup == base / c.ticdup + 1 && (base + j) % c.ticdup == 0
  {
    var t := base / c.ticdup;
    assert base == t * c.ticdup + 0;
    if j < c.ticdup {
      TicDiv(t, c.ticdup, j);
    } else {
      assert (t + 1) * c.ticdup == t * c.ticdup + c.ticdup;
      TicDiv(t + 1, c.ticdup, 0);
    }
  }

  lemma NetTicTimes(c: Config, nd: Node)
    requires c.ticdup >= 1
    ensures NetTic(c, nd) * c.ticdup <= |nd.ran|
    ensures |nd.ran| % c.ticdup == 0 ==> NetTic(c, nd) * c.ticdup == |nd.ran|
  {
  }

  /** RecordFrom writes the slots of tic t of players below k, and nothing else. */
  lemma {:induction false} RecordAt(c: Config, nd: Node, k: nat, i: nat)
    requires Shape(c, nd) && c.ticdup >= 1 && k <= c.n && i < |nd.consist| && |nd.ran| % c.ticdup == 0
    ensures forall p: nat :: p < k && i == Slot(p, NetTic(c, nd)) ==> RecordFrom(c, nd, k)[i] == c.sim(nd.game, p, nd.ran)
    ensures (forall p: nat :: p < k ==> i != Slot(p, NetTic(c, nd))) ==> RecordFrom(c, nd, k)[i] == nd.consist[i]
  {
    if k > 0 {
      SlotInRange(c, k - 1, NetTic(c, nd));
      RecordAt(c, nd, k - 1, i);
    }
  }

  lemma {:induction false} DuplicateAt(c: Config, ring: seq<Ticcmd>, q: int, k: nat, i: nat)
    requires |ring| == c.n * BACKUPTICS && k <= c.n && i < |ring|
    ensures (exists p: nat :: p < k && i == Slot(p, q)) ==> DuplicateFrom(c, ring, q, k)[i] == Duplicated(ring[i])
    ensures (forall p: nat :: p < k ==> i != Slot(p, q)) ==> DuplicateFrom(c, ring, q, k)[i] == ring[i]
  {
    if k > 0 {
      SlotInRange(c, k - 1, q);
      DuplicateAt(c, ring, q, k - 1, i);
      if i == Slot(k - 1, q) {
        forall p: nat | p < k - 1 ensures i != Slot(p, q) { }
      }
    }
  }

  function SubCmd(cmd: Ticcmd, j: int): Ticcmd {
    if j == 0 then cmd else Duplicated(cmd)
  }

  /** f is the j-th frame made of the ring entries of tic t. */
  ghost predicate FrameFrom(c: Config, nd0: Node, f: seq<Ticcmd>, t: int, j: int)
    requires Shape(c, nd0)
  {
    && |f| == c.n
    && forall p: nat :: p < c.n ==>
         0 <= Slot(p, t) < |nd0.netcmds| && f[p] == SubCmd(nd0.netcmds[Slot(p, t)], j)
  }

  /** The frames nd has executed since nd0, j of them. */
  ghost predicate MidRan(c: Config, nd0: Node, nd: Node, t: int, j: int)
    requires Shape(c, nd0)
  {
    && |nd.ran| == |nd0.ran| + j && nd0.ran <= nd.ran
    && (forall g: nat :: |nd0.ran| <= g < |nd.ran| ==> FrameFrom(c, nd0, nd.ran[g], t, g - |nd0.ran|))
  }

  /** The rings of nd after j game tics of network tic t from nd0. */
  ghost predicate MidRings(c: Config, nd0: Node, nd: Node, t: int, j: int)
    requires Shape(c, nd0) && Shape(c, nd)
  {
    && (forall p: nat {:trigger Slot(p, t)} :: p < c.n ==>
          && 0 <= Slot(p, t) < |nd.netcmds|
          && nd.netcmds[Slot(p, t)] == SubCmd(nd0.netcmds[Slot(p, t)], if c.ticdup > 1 then j else 0)
          && nd.consist[Slot(p, t)] == if j == 0 then nd0.consist[Slot(p, t)] else c.sim(nd0.game, p, nd0.ran))
    && (forall k: nat :: k < c.n * BACKUPTICS && (forall p: nat :: p < c.n ==> k != Slot(p, t)) ==>
          nd.netcmds[k] == nd0.netcmds[k] && nd.consist[k] == nd0.consist[k])
  }

  /** nd is nd0 after j game tics of its network tic t. */
  ghost predicate Mid(c: Config, nd0: Node, nd: Node, t: int, j: int) {
    && ValidConfig(c) && Shape(c, nd0) && Shape(c, nd)
    && 0 <= j <= c.ticdup && |nd0.ran| % c.ticdup == 0 && t == NetTic(c, nd0)
    && nd == nd0.(ran := nd.ran, netcmds := nd.netcmds, consist := nd.consist)
    && MidRan(c, nd0, nd, t, j) && MidRings(c, nd0, nd, t, j)
  }

  /** Every consistency check of tic t passes in nd0; there is none up to game tic 12. */
  ghost predicate Agreeing(c: Config, nd0: Node, t: int)
    requires Shape(c, nd0)
  {
    |nd0.ran| > BACKUPTICS ==> forall p: nat {:trigger Slot(p, t)} :: p < c.n ==>
      0 <= Slot(p, t) < |nd0.consist| && nd0.consist[Slot(p, t)] == nd0.netcmds[Slot(p, t)].consistancy
  }

  /** What one game tic does, its checks having passed. */
  lemma SubTicPasses(c: Config, nd0: Node, nd: Node, t: int, j: int)
    requires Mid(c, nd0, nd, t, j) && j < c.ticdup && Agreeing(c, nd0, t)
    ensures NetTic(c, nd) == t && |nd.ran| % c.ticdup == j
    ensures var r := SubTic(c, nd);
            && !r.desync
            && r.node == nd.(ran := nd.ran + [Frame(c, nd)], consist := RecordFrom(c, nd, c.n),
                             netcmds := if j + 1 < c.ticdup then DuplicateFrom(c, nd.netcmds, t, c.n) else nd.netcmds)
  {
    TicWithin(c, |nd0.ran|, j);
    TicWithin(c, |nd0.ran|, j + 1);
    forall p: nat | p < c.n ensures Consistent(c, nd, p) {
      SlotInRange(c, p, t);
      assert Slot(p, t) == Slot(p, NetTic(c, nd));
    }
  }

  lemma SubTicRan(c: Config, nd0: Node, nd: Node, t: int, j: int)
    requires Mid(c, nd0, nd, t, j) && j < c.ticdup && Agreeing(c, nd0, t)
    ensures MidRan(c, nd0, SubTic(c, nd).node, t, j + 1)
  {
    SubTicPasses(c, nd0, nd, t, j);
    var r := SubTic(c, nd).node;
    var f := Frame(c, nd);
    forall p: nat | p < c.n ensures 0 <= Slot(p, t) < |nd0.netcmds| && f[p] == SubCmd(nd0.netcmds[Slot(p, t)], j) {
      SlotInRange(c, p, t);
    }
    assert FrameFrom(c, nd0, f, t, j);
    forall g: nat | |nd0.ran| <= g < |r.ran| ensures FrameFrom(c, nd0, r.ran[g], t, g - |nd0.ran|) {
      if g < |nd.ran| { assert r.ran[g] == nd.ran[g]; } else { assert r.ran[g] == f; }
    }
  }

  lemma SubTicRings(c: Config, nd0: Node, nd: Node, t: int, j: int)
    requires Mid(c, nd0, nd, t, j) && j < c.ticdup && Agreeing(c, nd0, t)
    ensures MidRings(c, nd0, SubTic(c, nd).node, t, j + 1)
  {
    SubTicPasses(c, nd0, nd, t, j);
    var r := SubTic(c, nd).node;
    forall p: nat | p < c.n
      ensures 0 <= Slot(p, t) < |r.netcmds|
      ensures r.netcmds[Slot(p, t)] == SubCmd(nd0.netcmds[Slot(p, t)], if c.ticdup > 1 then j + 1 else 0)
      ensures r.consist[Slot(p, t)] == c.sim(nd0.game, p, nd0.ran)
    {
      SlotInRange(c, p, t);
      DuplicateAt(c, nd.netcmds, t, c.n, Slot(p, t));
      if j == 0 { RecordAt(c, nd, c.n, Slot(p, t)); assert nd.ran == nd0.ran; }
    }
    forall k: nat | k < c.n * BACKUPTICS && (forall p: nat :: p < c.n ==> k != Slot(p, t))
      ensures r.netcmds[k] == nd0.netcmds[k] && r.consist[k] == nd0.consist[k]
    {
      DuplicateAt(c, nd.netcmds, t, c.n, k);
      if j == 0 { RecordAt(c, nd, c.n, k); }
    }
  }

  lemma {:induction false} SubTicsMid(c: Config, nd0: Node, nd: Node, t: int, j: int)
    requires Mid(c, nd0, nd, t, j) && Agreeing(c, nd0, t)
    ensures var r := SubTics(c, nd, c.ticdup - j); !r.desync && Mid(c, nd0, r.node, t, c.ticdup)
    decreases c.ticdup - j
  {
    if j < c.ticdup {
      SubTicPasses(c, nd0, nd, t, j);
      SubTicRan(c, nd0, nd, t, j);
      SubTicRings(c, nd0, nd, t, j);
      SubTicsMid(c, nd0, SubTic(c, nd).node, t, j + 1);
    }
  }

  /** A network tic of a node whose checks agree runs to its end. */
  lemma RunTicMid(c: Config, nd: Node)
    requires ValidConfig(c) && Shape(c, nd) && |nd.ran| % c.ticdup == 0 && Agreeing(c, nd, NetTic(c, nd))
    ensures var r := RunTic(c, nd); !r.desync && Mid(c, nd, r.node, NetTic(c, nd), c.ticdup)
    ensures NetTic(c, RunTic(c, nd).node) == NetTic(c, nd) + 1 && |RunTic(c, nd).node.ran| % c.ticdup == 0
  {
    var t := NetTic(c, nd);
    forall p: nat | p < c.n ensures 0 <= Slot(p, t) < |nd.netcmds| { SlotInRange(c, p, t); }
    SubTicsMid(c, nd, nd, t, 0);
    TicWithin(c, |nd.ran|, c.ticdup);
  }

  /** ... and that of a node with a check that does not agree ends at once. */
  lemma RunTicFails(c: Config, nd: Node)
    requires ValidConfig(c) && Shape(c, nd) && |nd.ran| % c.ticdup == 0 && !Agreeing(c, nd, NetTic(c, nd))
    ensures RunTic(c, nd) == Ticked(nd, true)
  {
    var t := NetTic(c, nd);
    var p: nat :| p < c.n && !(0 <= Slot(p, t) < |nd.consist| && nd.consist[Slot(p, t)] == nd.netcmds[Slot(p, t)].consistancy);
    SlotInRange(c, p, t);
    assert !Consistent(c, nd, p);
  }
}
