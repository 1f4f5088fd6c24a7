// One DOOM network node: the global variables of d_net.c as a value, and what each
// protocol action does to them.  The class in lockstep_net.dfy updates the same
// variables in place and is proved against the functions of this module.
module LockstepNode {
  const BACKUPTICS := 12
  const RESENDCOUNT := 10
  const BT_SPECIAL := 128

  /** The command sampled for one player in one tic. */
  datatype Ticcmd = Ticcmd(
    forwardmove: int, sidemove: int, angleturn: int,
    consistancy: int, chatchar: int, buttons: int)

  const EMPTY_CMD := Ticcmd(0, 0, 0, 0, 0, 0)

  /** What travels: tic numbers are single bytes.  `retransmit` is NCMD_RETRANSMIT. */
  datatype Packet = Packet(
    retransmit: bool, retransmitfrom: int, starttic: int,
    player: nat, numtics: int, cmds: seq<Ticcmd>)

  /** Game set-up shared by all nodes.  `sim` gives the number the consistency check
      samples for a player (its x position, or rndindex), as a function of the game that is
      running, of the player, and of the command frames the game has consumed so far. */
  datatype Config = Config(n: nat, ticdup: int, extratics: int, sim: (nat, nat, seq<seq<Ticcmd>>) -> int)

  ghost predicate ValidConfig(c: Config) {
    1 <= c.n <= 8 && 1 <= c.ticdup && 0 <= c.extratics <= 1
  }

  /** The variables of one node.  `ran` lists the frames (one command per player) that
      the game has consumed, so gametic is its length; `game` is the game the node runs,
      which need not be the one of the other nodes. */
  datatype Node = Node(
    game: nat,
    maketic: int,
    ran: seq<seq<Ticcmd>>,
    localcmds: seq<Ticcmd>,
    netcmds: seq<Ticcmd>,
    nettics: seq<int>,
    remoteresend: seq<bool>,
    resendto: seq<int>,
    resendcount: seq<int>,
    consist: seq<int>)

  function NetTic(c: Config, nd: Node): int
    requires c.ticdup >= 1
  {
    |nd.ran| / c.ticdup
  }

  ghost predicate Shape(c: Config, nd: Node) {
    && nd.maketic >= 0
    && |nd.localcmds| == BACKUPTICS
    && |nd.netcmds| == c.n * BACKUPTICS
    && |nd.nettics| == c.n
    && |nd.remoteresend| == c.n
    && |nd.resendto| == c.n
    && |nd.resendcount| == c.n
    && |nd.consist| == c.n * BACKUPTICS
  }

  /** Index of tic `q` of player `p` in a table of rings. */
  function Slot(p: int, q: int): int {
    p * BACKUPTICS + q % BACKUPTICS
  }

  /** d_net.c ExpandTics. */
  function ExpandTics(maketic: int, low: int): int
    requires maketic >= 0 && 0 <= low < 256
  {
    var delta := low - maketic % 256;
    if -64 <= delta <= 64 then maketic - maketic % 256 + low
    else if delta > 64 then maketic - maketic % 256 - 256 + low
    else maketic - maketic % 256 + 256 + low
  }

  // ---------------------------------------------------------------------------
  // Receiving (GetPackets)

  /** The copying loop: tics lo..hi of `who` go to their ring slots. */
  function StoreTics(ring: seq<Ticcmd>, who: nat, lo: int, hi: int, base: int, cmds: seq<Ticcmd>): (r: seq<Ticcmd>)
    requires base <= lo && hi - base <= |cmds|
    requires who * BACKUPTICS + BACKUPTICS <= |ring|
    ensures |r| == |ring|
    decreases hi - lo
  {
    if lo >= hi then ring
    else StoreTics(ring[Slot(who, lo) := cmds[lo - base]], who, lo + 1, hi, base, cmds)
  }

  ghost predicate WellFormedPacket(p: Packet) {
    && 0 <= p.retransmitfrom < 256 && 0 <= p.starttic < 256
    && 0 <= p.numtics == |p.cmds|
  }

  /** The retransmit bookkeeping at the top of GetPackets. */
  function NoteRequest(nd: Node, from: nat, p: Packet): (r: Node)
    requires nd.maketic >= 0 && 0 <= p.retransmitfrom < 256
    requires from < |nd.resendto| && from < |nd.resendcount|
  {
    if nd.resendcount[from] <= 0 && p.retransmit then
      nd.(resendto := nd.resendto[from := ExpandTics(nd.maketic, p.retransmitfrom)],
          resendcount := nd.resendcount[from := RESENDCOUNT])
    else
      nd.(resendcount := nd.resendcount[from := nd.resendcount[from] - 1])
  }

  /** One iteration of the GetPackets loop, for a game packet of `from`. */
  function Receive(c: Config, nd: Node, from: nat, p: Packet): (r: Node)
    requires Shape(c, nd) && from < c.n && WellFormedPacket(p)
    ensures Shape(c, r)
  {
    var start := ExpandTics(nd.maketic, p.starttic);
    var end := start + p.numtics;
    var nd1 := NoteRequest(nd, from, p);
    if end <= nd1.nettics[from] then nd1
    else if start > nd1.nettics[from] then
      nd1.(remoteresend := nd1.remoteresend[from := true])
    else
      nd1.(remoteresend := nd1.remoteresend[from := false],
           netcmds := StoreTics(nd1.netcmds, from, nd1.nettics[from], end, start, p.cmds),
           nettics := nd1.nettics[from := end])
  }

  // ---------------------------------------------------------------------------
  // Building and sending (NetUpdate)

  /** G_BuildTiccmd: the sampled controls, stamped with the consistency value. */
  function BuildCmd(nd: Node, me: nat, control: Ticcmd): Ticcmd
    requires 0 <= Slot(me, nd.maketic) < |nd.consist|
  {
    control.(consistancy := nd.consist[Slot(me, nd.maketic)])
  }

  predicate CanBuild(c: Config, nd: Node)
    requires c.ticdup >= 1
  {
    nd.maketic - NetTic(c, nd) < BACKUPTICS / 2 - 1
  }

  function BuildOne(c: Config, nd: Node, me: nat, control: Ticcmd): (r: Node)
    requires Shape(c, nd) && me < c.n
    ensures Shape(c, r)
  {
    nd.(localcmds := nd.localcmds[nd.maketic % BACKUPTICS := BuildCmd(nd, me, control)],
        maketic := nd.maketic + 1)
  }

  /** The building loop; it stops early when no more tics can be held. */
  function Build(c: Config, nd: Node, me: nat, controls: seq<Ticcmd>): (r: Node)
    requires ValidConfig(c) && Shape(c, nd) && me < c.n
    ensures Shape(c, r)
    decreases |controls|
  {
    if controls == [] || !CanBuild(c, nd) then nd
    else Build(c, BuildOne(c, nd, me, controls[0]), me, controls[1..])
  }

  /** The value the byte field `numtics` gets for node `i`. */
  function NumTics(nd: Node, i: nat): int
    requires i < |nd.resendto|
  {
    (nd.maketic - nd.resendto[i]) % 256
  }

  /** The packet NetUpdate makes for node `i`. */
  function MakePacket(c: Config, nd: Node, me: nat, i: nat): (p: Packet)
    requires Shape(c, nd) && i < c.n
  {
    Packet(nd.remoteresend[i],
           if nd.remoteresend[i] then nd.nettics[i] % 256 else 0,
           nd.resendto[i] % 256,
           me,
           NumTics(nd, i),
           seq(NumTics(nd, i), j requires 0 <= j => nd.localcmds[(nd.resendto[i] + j) % BACKUPTICS]))
  }

  function MarkSent(c: Config, nd: Node, i: nat): (r: Node)
    requires Shape(c, nd) && i < c.n
    ensures Shape(c, r)
  {
    nd.(resendto := nd.resendto[i := nd.maketic - c.extratics])
  }

  datatype Sent = Sent(node: Node, packets: seq<Packet>, error: bool)

  /** The sending loop from node `i` on; I_Error ends it. */
  function SendFrom(c: Config, nd: Node, me: nat, i: nat): (r: Sent)
    requires Shape(c, nd) && i <= c.n
    ensures Shape(c, r.node)
    ensures |r.packets| <= c.n - i && (!r.error ==> |r.packets| == c.n - i)
    decreases c.n - i
  {
    if i == c.n then Sent(nd, [], false)
    else if NumTics(nd, i) > BACKUPTICS then Sent(nd, [], true)
    else
      var rest := SendFrom(c, MarkSent(c, nd, i), me, i + 1);
      Sent(rest.node, [MakePacket(c, nd, me, i)] + rest.packets, rest.error)
  }

  /** NetUpdate up to the point where packets of other nodes are read: build, send to
      everyone, and take the rebound copy of one's own packet. */
  function Update(c: Config, nd: Node, me: nat, controls: seq<Ticcmd>): (r: Sent)
    requires ValidConfig(c) && Shape(c, nd) && me < c.n
    ensures Shape(c, r.node) && |r.packets| <= c.n && (!r.error ==> |r.packets| == c.n)
  {
    var sent := SendFrom(c, Build(c, nd, me, controls), me, 0);
    if sent.error then sent
    else
      SentWellFormed(c, Build(c, nd, me, controls), me, 0, me);
      sent.(node := Receive(c, sent.node, me, sent.packets[me]))
  }

  lemma {:induction false} SentWellFormed(c: Config, nd: Node, me: nat, i: nat, k: nat)
    requires Shape(c, nd) && i <= c.n && k < |SendFrom(c, nd, me, i).packets|
    ensures WellFormedPacket(SendFrom(c, nd, me, i).packets[k])
    decreases c.n - i
  {
    if k > 0 {
      SentWellFormed(c, MarkSent(c, nd, i), me, i + 1, k - 1);
    }
  }

  // ---------------------------------------------------------------------------
  // Running (TryRunTics, G_Ticker)

  predicate CanRun(c: Config, nd: Node)
    requires c.ticdup >= 1 && |nd.nettics| == c.n
  {
    forall i :: 0 <= i < c.n ==> nd.nettics[i] > NetTic(c, nd)
  }

  /** The commands of the current tic, one per player. */
  function Frame(c: Config, nd: Node): (f: seq<Ticcmd>)
    requires Shape(c, nd) && c.ticdup >= 1
  {
    seq(c.n, p requires 0 <= p < c.n => SlotInRange(c, p, NetTic(c, nd)); nd.netcmds[Slot(p, NetTic(c, nd))])
  }

  lemma SlotInRange(c: Config, p: int, q: int)
    requires 0 <= p < c.n
    ensures 0 <= Slot(p, q) < c.n * BACKUPTICS
  {
  }

  /** Does the consistency check of G_Ticker pass for player p? */
  predicate Consistent(c: Config, nd: Node, p: nat)
    requires Shape(c, nd) && c.ticdup >= 1 && p < c.n
  {
    SlotInRange(c, p, NetTic(c, nd));
    var k := Slot(p, NetTic(c, nd));
    |nd.ran| % c.ticdup == 0 && |nd.ran| > BACKUPTICS ==> nd.consist[k] == nd.netcmds[k].consistancy
  }

  /** The consistency values recorded for players 0..k at the current tic. */
  function RecordFrom(c: Config, nd: Node, k: nat): (r: seq<int>)
    requires Shape(c, nd) && c.ticdup >= 1 && k <= c.n
    ensures |r| == |nd.consist|
  {
    if k == 0 || |nd.ran| % c.ticdup != 0 then nd.consist
    else
      SlotInRange(c, k - 1, NetTic(c, nd));
      RecordFrom(c, nd, k - 1)[Slot(k - 1, NetTic(c, nd)) := c.sim(nd.game, k - 1, nd.ran)]
  }

  /** What TryRunTics does to a command before the same tic is run again. */
  function Duplicated(cmd: Ticcmd): Ticcmd {
    cmd.(chatchar := 0, buttons := if cmd.buttons / BT_SPECIAL % 2 == 1 then 0 else cmd.buttons)
  }

  /** Players 0..k have had slot `q` of their ring turned into its duplicate. */
  function DuplicateFrom(c: Config, ring: seq<Ticcmd>, q: int, k: nat): (r: seq<Ticcmd>)
    requires |ring| == c.n * BACKUPTICS && k <= c.n
    ensures |r| == |ring|
  {
    if k == 0 then ring
    else
      SlotInRange(c, k - 1, q);
      var r := DuplicateFrom(c, ring, q, k - 1);
      r[Slot(k - 1, q) := Duplicated(r[Slot(k - 1, q)])]
  }

  datatype Ticked = Ticked(node: Node, desync: bool)

  /** G_Ticker followed by gametic++ and the rewriting of duplicated commands. */
  function SubTic(c: Config, nd: Node): (r: Ticked)
    requires Shape(c, nd) && c.ticdup >= 1
    ensures Shape(c, r.node)
  {
    if exists p | 0 <= p < c.n :: !Consistent(c, nd, p) then Ticked(nd, true)
    else
      var nd1 := nd.(consist := RecordFrom(c, nd, c.n), ran := nd.ran + [Frame(c, nd)]);
      if |nd1.ran| % c.ticdup == 0 then Ticked(nd1, false)
      else Ticked(nd1.(netcmds := DuplicateFrom(c, nd1.netcmds, NetTic(c, nd1), c.n)), false)
  }

  /** The remaining `k` game tics of the current network tic. */
  function SubTics(c: Config, nd: Node, k: nat): (r: Ticked)
    requires Shape(c, nd) && c.ticdup >= 1
    ensures Shape(c, r.node)
    decreases k
  {
    if k == 0 then Ticked(nd, false)
    else
      var t := SubTic(c, nd);
      if t.desync then t else SubTics(c, t.node, k - 1)
  }

  /** One network tic: ticdup game tics. */
  function RunTic(c: Config, nd: Node): (r: Ticked)
    requires Shape(c, nd) && ValidConfig(c)
    ensures Shape(c, r.node)
  {
    SubTics(c, nd, c.ticdup)
  }
}
