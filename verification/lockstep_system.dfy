// N nodes and a network that may lose, duplicate and reorder packets.  `made` and the
// full tic numbers kept beside each packet in flight are history: no node reads them.
module LockstepSystem {
  import opened LockstepNode

  /** A packet on the wire with the true values of its two truncated tic numbers. */
  datatype Flight = Flight(src: nat, dst: nat, start: int, from: int, data: Packet)

  datatype Sys = Sys(
    nodes: seq<Node>,
    made: seq<seq<Ticcmd>>,     // made[p][t] is the command player p's node built for tic t
    wire: set<Flight>,          // every packet ever sent; nothing is removed
    halted: set<nat>)           // nodes that ended in I_Error

  datatype Step =
    | Update(me: nat, controls: seq<Ticcmd>)
    | Deliver(f: Flight)
    | Run(me: nat)

  /** The commands the building loop adds to `made[me]`. */
  function Built(c: Config, nd: Node, me: nat, controls: seq<Ticcmd>): seq<Ticcmd>
    requires ValidConfig(c) && Shape(c, nd) && me < c.n
    decreases |controls|
  {
    if controls == [] || !CanBuild(c, nd) then []
    else
      SlotInRange(c, me, nd.maketic);
      [BuildCmd(nd, me, controls[0])] + Built(c, BuildOne(c, nd, me, controls[0]), me, controls[1..])
  }

  /** The packets of one NetUpdate, with the tic numbers they were made from. */
  ghost function Flights(c: Config, nd: Node, me: nat, controls: seq<Ticcmd>): set<Flight>
    requires ValidConfig(c) && Shape(c, nd) && me < c.n
  {
    var b := Build(c, nd, me, controls);
    var out := LockstepNode.Update(c, nd, me, controls).packets;
    set i: nat | i < |out| && i != me :: Flight(me, i, b.resendto[i], b.nettics[i], out[i])
  }

  ghost predicate SysShape(c: Config, s: Sys) {
    && |s.nodes| == c.n && |s.made| == c.n
    && forall a: nat :: a < c.n ==> Shape(c, s.nodes[a])
  }

  /** A packet is delivered while the receiver's maketic is within 64 of its first tic. */
  ghost predicate InWindow(s: Sys, f: Flight) {
    f.dst < |s.nodes| && -64 <= f.start - s.nodes[f.dst].maketic <= 64
  }

  ghost predicate Enabled(c: Config, s: Sys, step: Step)
    requires ValidConfig(c) && SysShape(c, s)
  {
    match step
    case Update(me, controls) =>
      // the first call of NetUpdate builds at least one tic
      me < c.n && me !in s.halted && (controls != [] || s.nodes[me].maketic > 0)
    case Deliver(f) =>
      f in s.wire && f.src < c.n && f.dst < c.n && f.dst !in s.halted && InWindow(s, f) && WellFormedPacket(f.data)
    case Run(me) =>
      me < c.n && me !in s.halted && CanRun(c, s.nodes[me])
  }

  ghost function Next(c: Config, s: Sys, step: Step): (s': Sys)
    requires ValidConfig(c) && SysShape(c, s) && Enabled(c, s, step)
    ensures SysShape(c, s')
  {
    match step
    case Update(me, controls) =>
      var r := LockstepNode.Update(c, s.nodes[me], me, controls);
      s.(nodes := s.nodes[me := r.node],
         made := s.made[me := s.made[me] + Built(c, s.nodes[me], me, controls)],
         wire := s.wire + Flights(c, s.nodes[me], me, controls),
         halted := if r.error then s.halted + {me} else s.halted)
    case Deliver(f) =>
      s.(nodes := s.nodes[f.dst := Receive(c, s.nodes[f.dst], f.src, f.data)])
    case Run(me) =>
      var r := RunTic(c, s.nodes[me]);
      s.(nodes := s.nodes[me := r.node],
         halted := if r.desync then s.halted + {me} else s.halted)
  }

  ghost predicate Init(c: Config, s: Sys) {
    && |s.nodes| == c.n && |s.made| == c.n && s.wire == {} && s.halted == {}
    && (forall a: nat :: a < c.n ==> s.made[a] == [])
    && (forall a: nat :: a < c.n ==>
          && Shape(c, s.nodes[a])
          && s.nodes[a].maketic == 0 && s.nodes[a].ran == []
          && (forall b :: 0 <= b < c.n ==>
                && s.nodes[a].nettics[b] == 0 && s.nodes[a].resendto[b] == 0
                && !s.nodes[a].remoteresend[b])
          && (forall k :: 0 <= k < c.n * BACKUPTICS ==> s.nodes[a].consist[k] == 0))
  }

  ghost predicate StepOk(c: Config, tr: seq<Sys>, st: seq<Step>, m: int) {
    && ValidConfig(c) && 0 <= m < |st| && |tr| == |st| + 1
    && SysShape(c, tr[m]) && Enabled(c, tr[m], st[m]) && tr[m + 1] == Next(c, tr[m], st[m])
  }

  /** A finite run: states tr joined by steps st. */
  ghost predicate IsRun(c: Config, tr: seq<Sys>, st: seq<Step>) {
    && ValidConfig(c) && |tr| == |st| + 1
    && Init(c, tr[0])
    && forall m :: 0 <= m < |st| ==> StepOk(c, tr, st, m)
  }

  // ---------------------------------------------------------------------------
  // The invariant

  /** Ring at `off` holds the built command of tic q. */
  ghost predicate HoldsAt(ring: seq<Ticcmd>, off: int, made: seq<Ticcmd>, q: int) {
    && 0 <= q < |made| && 0 <= off + q % BACKUPTICS < |ring|
    && ring[off + q % BACKUPTICS] == made[q]
  }

  ghost predicate Holds(ring: seq<Ticcmd>, off: int, made: seq<Ticcmd>, lo: int, hi: int) {
    forall q :: lo <= q < hi ==> HoldsAt(ring, off, made, q)
  }

  /** The game command of player p in game tic g. */
  function FrameCmd(c: Config, made: seq<seq<Ticcmd>>, p: nat, g: nat): Ticcmd
    requires c.ticdup >= 1 && p < |made| && g / c.ticdup < |made[p]|
  {
    if g % c.ticdup == 0 then made[p][g / c.ticdup] else Duplicated(made[p][g / c.ticdup])
  }

  /** The consistency ring value for player p when tic t is the next to be recorded. */
  function ConsistAt(c: Config, game: nat, ran: seq<seq<Ticcmd>>, p: nat, t: int): int
  {
    var g := (t - BACKUPTICS) * c.ticdup;
    if t < BACKUPTICS || g < 0 || g > |ran| then 0 else c.sim(game, p, ran[..g])
  }

  /** In game tic g node a has executed for player p what p's node built. */
  ghost predicate RanAt(c: Config, s: Sys, a: nat, g: nat, p: nat) {
    && c.ticdup >= 1 && p < |s.made| && a < |s.nodes| && g < |s.nodes[a].ran|
    && p < |s.nodes[a].ran[g]| && g / c.ticdup < |s.made[p]|
    && s.nodes[a].ran[g][p] == FrameCmd(c, s.made, p, g)
  }

  ghost predicate RanMade(c: Config, s: Sys, a: nat)
    requires a < |s.nodes|
  {
    && (forall g: nat :: g < |s.nodes[a].ran| ==> |s.nodes[a].ran[g]| == c.n)
    && (forall g: nat, p: nat :: g < |s.nodes[a].ran| && p < c.n ==> RanAt(c, s, a, g, p))
  }

  /** The stream of b that node a reassembles. */
  ghost predicate Stream(c: Config, s: Sys, a: nat, b: nat)
    requires ValidConfig(c) && SysShape(c, s) && a < c.n && b < c.n
  {
    var nd := s.nodes[a];
    && NetTic(c, nd) <= nd.nettics[b] <= s.nodes[b].maketic
    && Holds(nd.netcmds, b * BACKUPTICS, s.made[b], NetTic(c, nd), nd.nettics[b])
  }

  ghost predicate Streams(c: Config, s: Sys, a: nat)
    requires ValidConfig(c) && SysShape(c, s) && a < c.n
  {
    forall b: nat :: b < c.n ==> Stream(c, s, a, b)
  }

  /** The consistency ring entry that will be compared when tic t is run. */
  ghost predicate Recorded(c: Config, nd: Node, p: nat, t: int) {
    0 <= Slot(p, t) < |nd.consist| && nd.consist[Slot(p, t)] == ConsistAt(c, nd.game, nd.ran, p, t)
  }

  /** The consistency value stamped on the q-th command of node a. */
  ghost predicate Stamped(c: Config, s: Sys, a: nat, q: int)
    requires a < |s.nodes| && a < |s.made|
  {
    0 <= q < |s.made[a]| && s.made[a][q].consistancy == ConsistAt(c, s.nodes[a].game, s.nodes[a].ran, a, q)
  }

  ghost predicate Consistencies(c: Config, s: Sys, a: nat)
    requires ValidConfig(c) && SysShape(c, s) && a < c.n
  {
    var nd := s.nodes[a];
    && (forall p: nat, t: int ::
          p < c.n && NetTic(c, nd) <= t < NetTic(c, nd) + BACKUPTICS ==> Recorded(c, nd, p, t))
    && (forall q :: 0 <= q < |s.made[a]| ==> Stamped(c, s, a, q))
  }

  /** The part of the invariant that is about one node's own progress. */
  ghost predicate Progress(c: Config, s: Sys, a: nat)
    requires ValidConfig(c) && SysShape(c, s) && a < c.n
  {
    var nd := s.nodes[a];
    && |s.made[a]| == nd.maketic
    && |nd.ran| % c.ticdup == 0
    && nd.maketic <= NetTic(c, nd) + BACKUPTICS / 2 - 1
    && Holds(nd.localcmds, 0, s.made[a], if nd.maketic < BACKUPTICS then 0 else nd.maketic - BACKUPTICS, nd.maketic)
  }

  /** A resend position is a tic the peer asked for, perhaps expanded one turn too far;
      in the latter case the next send to that peer ends in I_Error. */
  ghost predicate ResendOk(maketic: int, resend: int) {
    || (0 <= resend <= maketic && maketic - resend <= 69)
    || (resend > maketic && resend >= 256 && 65 <= maketic - (resend - 256) <= 69)
  }

  ghost predicate Resends(c: Config, s: Sys, a: nat)
    requires ValidConfig(c) && SysShape(c, s) && a < c.n
  {
    var nd := s.nodes[a];
    && nd.nettics[a] == nd.maketic && !nd.remoteresend[a]
    && 0 <= nd.resendto[a] <= nd.maketic && nd.maketic - nd.resendto[a] <= 1
    && forall b: nat {:trigger nd.resendto[b]} :: b < c.n ==> ResendOk(nd.maketic, nd.resendto[b])
  }

  /** The packet carries tics of `made` from f.start on, with its tic numbers truncated. */
  ghost predicate Carries(f: Flight, made: seq<Ticcmd>) {
    && WellFormedPacket(f.data) && f.data.numtics <= BACKUPTICS && f.data.player == f.src
    && 0 <= f.start && f.data.starttic == f.start % 256
    && f.start + f.data.numtics <= |made|
    && (forall j :: 0 <= j < f.data.numtics ==> f.data.cmds[j] == made[f.start + j])
    && (f.data.retransmit ==> f.data.retransmitfrom == f.from % 256)
  }

  ghost predicate FlightOk(c: Config, s: Sys, f: Flight)
    requires ValidConfig(c) && SysShape(c, s)
  {
    && f.src < c.n && f.dst < c.n && f.src != f.dst
    && Carries(f, s.made[f.src])
    && 0 <= f.from <= s.nodes[f.src].nettics[f.dst]
    && f.start <= f.from + BACKUPTICS / 2 - 1
  }

  ghost predicate Inv(c: Config, s: Sys) {
    && ValidConfig(c) && SysShape(c, s)
    && (forall a: nat :: a < c.n ==> Progress(c, s, a))
    && (forall a: nat :: a < c.n ==> Streams(c, s, a))
    && (forall a: nat :: a < c.n ==> RanMade(c, s, a))
    && (forall a: nat :: a < c.n ==> Consistencies(c, s, a))
    && (forall a: nat :: a < c.n && a !in s.halted ==> Resends(c, s, a))
    && (forall f :: f in s.wire ==> FlightOk(c, s, f))
  }
}
