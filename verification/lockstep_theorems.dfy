// What the lockstep protocol promises, over every run with packet loss, duplication
// and reordering.
module LockstepTheorems {
  import opened LockstepNode
  import opened LockstepSystem
  import opened LockstepProofs
  import opened LockstepInvariant

  // ---------------------------------------------------------------------------
  // Safety

  /** Lockstep agreement.  In every state of every run, whatever game tic g node a has
      executed, the command it used for player p is the one p's node built for that
      network tic; so any two nodes have executed the same frames. */
  lemma LockstepAgreement(c: Config, tr: seq<Sys>, st: seq<Step>, k: nat, a: nat, b: nat, g: nat, p: nat)
    requires IsRun(c, tr, st) && k < |tr| && a < c.n && b < c.n && p < c.n
    ensures |tr[k].nodes| == c.n == |tr[k].made|
    ensures g < |tr[k].nodes[a].ran| ==>
      && p < |tr[k].nodes[a].ran[g]| && g / c.ticdup < |tr[k].made[p]|
      && tr[k].nodes[a].ran[g][p] == FrameCmd(c, tr[k].made, p, g)
    ensures tr[k].nodes[a].ran <= tr[k].nodes[b].ran || tr[k].nodes[b].ran <= tr[k].nodes[a].ran
  {
    InvAlways(c, tr, st, k);
    if g < |tr[k].nodes[a].ran| { RanIsMade(c, tr[k], a, g, p); }
    Prefixes(c, tr[k], a, b);
  }

  lemma RanIsMade(c: Config, s: Sys, a: nat, g: nat, p: nat)
    requires Inv(c, s) && a < c.n && g < |s.nodes[a].ran| && p < c.n
    ensures p < |s.nodes[a].ran[g]| && g / c.ticdup < |s.made[p]| && s.nodes[a].ran[g][p] == FrameCmd(c, s.made, p, g)
  {
    assert RanMade(c, s, a);
    assert RanAt(c, s, a, g, p);
  }

  lemma Prefixes(c: Config, s: Sys, a: nat, b: nat)
    requires Inv(c, s) && a < c.n && b < c.n
    ensures s.nodes[a].ran <= s.nodes[b].ran || s.nodes[b].ran <= s.nodes[a].ran
  {
    var x, y := s.nodes[a].ran, s.nodes[b].ran;
    SamePrefix(c, s, a, b, if |x| <= |y| then |x| else |y|);
    assert x[..|x|] == x && y[..|y|] == y;
  }

  /** In a tic that is run again the command of the tic is repeated without its chat character
      and without a special button; everything else a player does is repeated. */
  lemma RepeatedHarmlessly(c: Config, tr: seq<Sys>, st: seq<Step>, k: nat, a: nat, g: nat, p: nat)
    requires IsRun(c, tr, st) && k < |tr| && a < c.n && p < c.n && |tr[k].nodes| == c.n
    requires g < |tr[k].nodes[a].ran| && g % c.ticdup != 0
    ensures |tr[k].made| == c.n && |tr[k].nodes[a].ran[g]| == c.n && g / c.ticdup < |tr[k].made[p]|
    ensures var again, first := tr[k].nodes[a].ran[g][p], tr[k].made[p][g / c.ticdup];
            && again.chatchar == 0 && again.buttons / BT_SPECIAL % 2 == 0
            && (first.buttons / BT_SPECIAL % 2 == 0 ==> again.buttons == first.buttons)
            && again.forwardmove == first.forwardmove && again.sidemove == first.sidemove && again.angleturn == first.angleturn
  {
    InvAlways(c, tr, st, k);
    assert RanMade(c, tr[k], a);
    assert RanAt(c, tr[k], a, g, p);
  }

  /** The ring entry read for player p when a tic is about to run is p's own command. */
  lemma RingReadIsBuilt(c: Config, tr: seq<Sys>, st: seq<Step>, k: nat, a: nat, p: nat)
    requires IsRun(c, tr, st) && k < |st| && st[k] == Run(a) && p < c.n
    ensures a < c.n && |tr[k].nodes| == c.n == |tr[k].made| && Shape(c, tr[k].nodes[a])
    ensures var t := NetTic(c, tr[k].nodes[a]);
            0 <= t < |tr[k].made[p]| && Frame(c, tr[k].nodes[a])[p] == tr[k].made[p][t]
  {
    InvAlways(c, tr, st, k);
    assert StepOk(c, tr, st, k);
    var s := tr[k];
    assert Streams(c, s, a) && Stream(c, s, a, p) && Progress(c, s, p);
    assert HoldsAt(s.nodes[a].netcmds, p * BACKUPTICS, s.made[p], NetTic(c, s.nodes[a]));
  }

  /** Flow control, in every state of every run. */
  lemma FlowControlAlways(c: Config, tr: seq<Sys>, st: seq<Step>, k: nat, a: nat, b: nat)
    requires IsRun(c, tr, st) && k < |tr| && a < c.n && b < c.n
    ensures |tr[k].nodes| == c.n
    ensures tr[k].nodes[b].maketic <= tr[k].nodes[a].maketic + 5
    ensures tr[k].nodes[b].maketic <= NetTic(c, tr[k].nodes[a]) + 10
  {
    InvAlways(c, tr, st, k);
    FlowControl(c, tr[k], a, b);
  }

  /** One step only adds to histories and to stream positions. */
  lemma StepMonotone(c: Config, s: Sys, step: Step, a: nat, b: nat)
    requires Inv(c, s) && Enabled(c, s, step) && a < c.n && b < c.n
    ensures var s' := Next(c, s, step);
            s.made[a] <= s'.made[a] && s.nodes[a].nettics[b] <= s'.nodes[a].nettics[b]
  {
    if step.Update? && step.me == a {
      SentPackets(c, s, a, step.controls);
    }
    if step.Run? && step.me == a {
      RunTicKeeps(c, s.nodes[a], c.ticdup);
    }
  }

  lemma {:induction false} RunTicKeeps(c: Config, nd: Node, k: nat)
    requires Shape(c, nd) && c.ticdup >= 1
    ensures var r := SubTics(c, nd, k).node;
            r == nd.(ran := r.ran, netcmds := r.netcmds, consist := r.consist)
    decreases k
  {
    if k > 0 && !SubTic(c, nd).desync {
      RunTicKeeps(c, SubTic(c, nd).node, k - 1);
    }
  }

  /** No step ever overwrites a command that is received but not yet consumed. */
  lemma NoUnconsumedOverwrite(c: Config, tr: seq<Sys>, st: seq<Step>, k: nat, a: nat, b: nat, q: int)
    requires IsRun(c, tr, st) && k < |st| && a < c.n && b < c.n
    requires |tr[k].nodes| == |tr[k + 1].nodes| == c.n
    requires |tr[k].nodes[a].nettics| == c.n
    requires NetTic(c, tr[k].nodes[a]) <= q < tr[k].nodes[a].nettics[b]
    requires NetTic(c, tr[k + 1].nodes[a]) <= q
    ensures 0 <= Slot(b, q) < |tr[k].nodes[a].netcmds| == |tr[k + 1].nodes[a].netcmds|
    ensures tr[k + 1].nodes[a].netcmds[Slot(b, q)] == tr[k].nodes[a].netcmds[Slot(b, q)]
  {
    InvAlways(c, tr, st, k);
    InvAlways(c, tr, st, k + 1);
    assert StepOk(c, tr, st, k);
    StepMonotone(c, tr[k], st[k], a, b);
    StepMonotone(c, tr[k], st[k], b, b);
    assert Streams(c, tr[k], a) && Stream(c, tr[k], a, b);
    assert Streams(c, tr[k + 1], a) && Stream(c, tr[k + 1], a, b);
    assert HoldsAt(tr[k].nodes[a].netcmds, b * BACKUPTICS, tr[k].made[b], q);
    assert HoldsAt(tr[k + 1].nodes[a].netcmds, b * BACKUPTICS, tr[k + 1].made[b], q);
  }

  /** The consistency check, exactly.  A node that runs a tic later than game tic 12 ends in
      the consistency error just if for some player the value it had 12 tics before is not
      the one that the player's own node had there, and stamped on the command. */
  lemma DesyncExact(c: Config, tr: seq<Sys>, st: seq<Step>, k: nat, a: nat, g: int)
    requires IsRun(c, tr, st) && k < |st| && st[k] == Run(a) && a < c.n && |tr[k].nodes| == c.n
    requires g == (NetTic(c, tr[k].nodes[a]) - BACKUPTICS) * c.ticdup
    ensures Shape(c, tr[k].nodes[a])
    ensures RunTic(c, tr[k].nodes[a]).desync <==>
      |tr[k].nodes[a].ran| > BACKUPTICS && exists p: nat :: p < c.n && Diverged(c, tr[k], a, p, g)
    ensures tr[k + 1].halted == if RunTic(c, tr[k].nodes[a]).desync then tr[k].halted + {a} else tr[k].halted
  {
    InvAlways(c, tr, st, k);
    assert StepOk(c, tr, st, k);
    InvRun(c, tr[k], a);
    ChecksAgree(c, tr[k], a, g);
  }

  /** All nodes run games that sample the same values. */
  ghost predicate SameGame(c: Config, s: Sys) {
    forall a: nat, b: nat, p: nat, ran: seq<seq<Ticcmd>> {:trigger c.sim(s.nodes[a].game, p, ran), s.nodes[b]} ::
      a < |s.nodes| && b < |s.nodes| ==> c.sim(s.nodes[a].game, p, ran) == c.sim(s.nodes[b].game, p, ran)
  }

  lemma GamesStay(c: Config, s: Sys, step: Step, a: nat)
    requires Inv(c, s) && Enabled(c, s, step) && a < c.n
    ensures Next(c, s, step).nodes[a].game == s.nodes[a].game
  {
    if step.Update? && step.me == a {
      SentPackets(c, s, a, step.controls);
    }
    if step.Run? && step.me == a {
      RunTicKeeps(c, s.nodes[a], c.ticdup);
    }
  }

  lemma {:induction false} GamesAlways(c: Config, tr: seq<Sys>, st: seq<Step>, k: nat, a: nat)
    requires IsRun(c, tr, st) && k < |tr| && a < c.n
    ensures |tr[0].nodes| == |tr[k].nodes| == c.n && tr[k].nodes[a].game == tr[0].nodes[a].game
  {
    InvAlways(c, tr, st, k);
    if k > 0 {
      GamesAlways(c, tr, st, k - 1, a);
      InvAlways(c, tr, st, k - 1);
      assert StepOk(c, tr, st, k - 1);
      GamesStay(c, tr[k - 1], st[k - 1], a);
    }
  }

  /** No false alarm: as long as all run the same game the consistency check never fires. */
  lemma NoFalseDesync(c: Config, tr: seq<Sys>, st: seq<Step>, k: nat, a: nat)
    requires IsRun(c, tr, st) && SameGame(c, tr[0]) && k < |st| && st[k] == Run(a)
    ensures a < c.n == |tr[k].nodes| && Shape(c, tr[k].nodes[a]) && !RunTic(c, tr[k].nodes[a]).desync
    ensures tr[k + 1].halted == tr[k].halted
  {
    InvAlways(c, tr, st, k);
    assert StepOk(c, tr, st, k);
    var g := (NetTic(c, tr[k].nodes[a]) - BACKUPTICS) * c.ticdup;
    DesyncExact(c, tr, st, k, a, g);
    forall p: nat | p < c.n ensures !Diverged(c, tr[k], a, p, g) {
      GamesAlways(c, tr, st, k, a);
      GamesAlways(c, tr, st, k, p);
      NotDiverged(c, tr[0], tr[k], a, p, g);
    }
  }

  lemma NotDiverged(c: Config, s0: Sys, s: Sys, a: nat, p: nat, g: int)
    requires Inv(c, s) && SameGame(c, s0) && a < c.n && p < c.n && |s0.nodes| == c.n
    requires s.nodes[a].game == s0.nodes[a].game && s.nodes[p].game == s0.nodes[p].game
    ensures !Diverged(c, s, a, p, g)
  {
    if 0 <= g <= |s.nodes[a].ran| && g <= |s.nodes[p].ran| {
      SamePrefix(c, s, a, p, g);
      assert c.sim(s0.nodes[a].game, p, s.nodes[a].ran[..g]) == c.sim(s0.nodes[p].game, p, s.nodes[a].ran[..g]);
    }
  }

  /** What is compared: the value recorded 12 tics before, on both sides. */
  lemma StampIsTwelveBack(c: Config, tr: seq<Sys>, st: seq<Step>, k: nat, a: nat, t: int)
    requires IsRun(c, tr, st) && k < |tr| && a < c.n
    ensures |tr[k].made| == c.n == |tr[k].nodes|
    ensures BACKUPTICS <= t < |tr[k].made[a]| ==>
      var g := (t - BACKUPTICS) * c.ticdup;
      0 <= g <= |tr[k].nodes[a].ran| && tr[k].made[a][t].consistancy == c.sim(tr[k].nodes[a].game, a, tr[k].nodes[a].ran[..g])
  {
    InvAlways(c, tr, st, k);
    var s := tr[k];
    assert Progress(c, s, a) && Consistencies(c, s, a);
    if BACKUPTICS <= t < |s.made[a]| {
      assert Stamped(c, s, a, t);
      TwelveBack(c, s.nodes[a], t);
      TimesMono(0, t - BACKUPTICS, c.ticdup);
    }
  }

  // ---------------------------------------------------------------------------
  // Loss recovery

  ghost predicate DeliversTo(step: Step, b: nat, a: nat) {
    step.Deliver? && step.f.src == b && step.f.dst == a
  }

  /** How many packets of b are delivered to a in steps i..j. */
  ghost function Deliveries(st: seq<Step>, i: nat, j: nat, b: nat, a: nat): nat
    requires i <= j <= |st|
    decreases j
  {
    if i == j then 0
    else Deliveries(st, i, j - 1, b, a) + if DeliversTo(st[j - 1], b, a) then 1 else 0
  }

  ghost predicate NoUpdate(st: seq<Step>, i: nat, j: nat, a: nat) {
    forall m :: i <= m < j && m < |st| ==> !(st[m].Update? && st[m].me == a)
  }

  /** The effect of one step on what a keeps about resending to b. */
  lemma StepResend(c: Config, s: Sys, step: Step, a: nat, b: nat)
    requires Inv(c, s) && Enabled(c, s, step) && a < c.n && b < c.n && a != b
    ensures var nd, nd' := s.nodes[a], Next(c, s, step).nodes[a];
            nd.resendcount[b] > 0 || !DeliversTo(step, b, a) ==>
              && nd'.resendcount[b] == nd.resendcount[b] - (if DeliversTo(step, b, a) then 1 else 0)
              && (!(step.Update? && step.me == a) ==> nd'.resendto[b] == nd.resendto[b])
  {
    if step.Update? && step.me == a {
      SentPackets(c, s, a, step.controls);
    }
    if step.Run? && step.me == a {
      RunTicKeeps(c, s.nodes[a], c.ticdup);
    }
  }

  /** While the count is positive it falls by one per delivered packet of b, and the
      resend position stays until a sends. */
  ghost predicate HeldSince(nd: Node, nd': Node, b: nat, delivered: nat, silent: bool)
    requires b < |nd.resendcount| && b < |nd'.resendcount| && b < |nd.resendto| && b < |nd'.resendto|
  {
    && nd'.resendcount[b] == nd.resendcount[b] - delivered
    && (silent ==> nd'.resendto[b] == nd.resendto[b])
  }

  lemma {:induction false} ResendHeld(c: Config, tr: seq<Sys>, st: seq<Step>, i: nat, j: nat, a: nat, b: nat)
    requires IsRun(c, tr, st) && i <= j <= |st| && a < c.n && b < c.n && a != b
    requires |tr[i].nodes| == c.n && Shape(c, tr[i].nodes[a])
    requires Deliveries(st, i, j, b, a) <= tr[i].nodes[a].resendcount[b]
    ensures |tr[j].nodes| == c.n && Shape(c, tr[j].nodes[a])
    ensures HeldSince(tr[i].nodes[a], tr[j].nodes[a], b, Deliveries(st, i, j, b, a), NoUpdate(st, i, j, a))
    decreases j
  {
    InvAlways(c, tr, st, j);
    if i < j {
      InvAlways(c, tr, st, j - 1);
      ResendHeld(c, tr, st, i, j - 1, a, b);
      var one := if DeliversTo(st[j - 1], b, a) then 1 else 0;
      assert HeldSince(tr[j - 1].nodes[a], tr[j].nodes[a], b, one, !(st[j - 1].Update? && st[j - 1].me == a)) by {
        assert StepOk(c, tr, st, j - 1);
        StepResend(c, tr[j - 1], st[j - 1], a, b);
      }
    }
  }

  /** Delivery of a request that node a is ready to honour. */
  ghost predicate Honours(c: Config, s: Sys, step: Step, b: nat, a: nat)
    requires SysShape(c, s) && a < c.n && b < c.n
  {
    && DeliversTo(step, b, a) && step.f.data.retransmit
    && s.nodes[a].resendcount[b] <= 0
    && -64 <= step.f.from - s.nodes[a].maketic <= 64
  }

  lemma HonouredRequest(c: Config, s: Sys, step: Step, a: nat, b: nat)
    requires Inv(c, s) && Enabled(c, s, step) && a < c.n && b < c.n && Honours(c, s, step, b, a)
    ensures var nd' := Next(c, s, step).nodes[a];
            nd'.resendto[b] == step.f.from && nd'.resendcount[b] == RESENDCOUNT
  {
    assert FlightOk(c, s, step.f);
    ExpandExact(s.nodes[a].maketic, step.f.from);
  }

  /** A request is honoured again at the latest by the 11th packet after one that was:
      once ten more packets of b have been delivered, a is ready for the next request, and
      in the meantime no request moves the resend position. */
  lemma RequestsRecur(c: Config, tr: seq<Sys>, st: seq<Step>, i: nat, j: nat, a: nat, b: nat)
    requires IsRun(c, tr, st) && i < j <= |st| && a < c.n && b < c.n && a != b
    requires |tr[i].nodes| == c.n && SysShape(c, tr[i]) && Honours(c, tr[i], st[i], b, a)
    requires Deliveries(st, i + 1, j, b, a) <= RESENDCOUNT
    ensures |tr[j].nodes| == c.n && Shape(c, tr[j].nodes[a])
    ensures tr[j].nodes[a].resendcount[b] == RESENDCOUNT - Deliveries(st, i + 1, j, b, a)
    ensures NoUpdate(st, i + 1, j, a) ==> tr[j].nodes[a].resendto[b] == st[i].f.from
  {
    InvAlways(c, tr, st, i);
    InvAlways(c, tr, st, i + 1);
    assert StepOk(c, tr, st, i);
    HonouredRequest(c, tr[i], st[i], a, b);
    ResendHeld(c, tr, st, i + 1, j, a, b);
  }

  /** A request that is still current never makes the answering send too long. */
  lemma CurrentRequestFits(c: Config, s: Sys, a: nat, b: nat, controls: seq<Ticcmd>)
    requires Inv(c, s) && a < c.n && b < c.n && a != b && Enabled(c, s, Update(a, controls))
    requires s.nodes[b].nettics[a] <= s.nodes[a].resendto[b] <= s.nodes[a].maketic
    ensures NumTics(Build(c, s.nodes[a], a, controls), b) <= 10
  {
    var nd := s.nodes[a];
    var nb := Build(c, nd, a, controls);
    assert nb.resendto == nd.resendto && nd.maketic <= nb.maketic <= NetTic(c, nd) + 5 by { SentPackets(c, s, a, controls); }
    assert NetTic(c, nd) <= s.nodes[b].maketic by { FlowControl(c, s, a, b); }
    assert s.nodes[b].maketic <= NetTic(c, s.nodes[b]) + 5 by { assert Progress(c, s, b); }
    assert NetTic(c, s.nodes[b]) <= s.nodes[b].nettics[a] by { FlowControl(c, s, b, a); }
    ByteOf(nb.maketic - nb.resendto[b]);
  }

  /** b has, or has overtaken, what it is about to be resent; or the position a keeps for
      it was expanded beyond everything built. */
  ghost predicate StaleFor(c: Config, s: Sys, a: nat, b: nat)
    requires SysShape(c, s) && a < c.n
  {
    && b < c.n && b != a
    && (s.nodes[a].resendto[b] < s.nodes[b].nettics[a] || s.nodes[a].resendto[b] > s.nodes[a].maketic)
  }

  /** The peer at which the sending loop failed. */
  lemma SendErrorAt(c: Config, s: Sys, a: nat, controls: seq<Ticcmd>) returns (b: nat)
    requires Inv(c, s) && a < c.n && Enabled(c, s, Update(a, controls))
    requires LockstepNode.Update(c, s.nodes[a], a, controls).error
    ensures b < c.n && NumTics(Build(c, s.nodes[a], a, controls), b) > BACKUPTICS
  {
    SendFacts(c, Build(c, s.nodes[a], a, controls), a, 0);
    b := |SendFrom(c, Build(c, s.nodes[a], a, controls), a, 0).packets|;
  }

  /** NetUpdate's "numtics > BACKUPTICS" error comes only from a stale request. */
  lemma SendErrorMeansStale(c: Config, s: Sys, a: nat, controls: seq<Ticcmd>)
    requires Inv(c, s) && a < c.n && Enabled(c, s, Update(a, controls))
    requires LockstepNode.Update(c, s.nodes[a], a, controls).error
    ensures exists b: nat :: StaleFor(c, s, a, b)
  {
    var b := SendErrorAt(c, s, a, controls);
    if b == a {
      OwnSendFits(c, s, a, controls);
    } else if !StaleFor(c, s, a, b) {
      CurrentRequestFits(c, s, a, b, controls);
    }
  }

  lemma OwnSendFits(c: Config, s: Sys, a: nat, controls: seq<Ticcmd>)
    requires Inv(c, s) && a < c.n && Enabled(c, s, Update(a, controls))
    ensures NumTics(Build(c, s.nodes[a], a, controls), a) <= BACKUPTICS
  {
    var nd := s.nodes[a];
    var nb := Build(c, nd, a, controls);
    assert nb.resendto == nd.resendto && nd.maketic <= nb.maketic <= nd.maketic + 5 by { SentPackets(c, s, a, controls); }
    assert nd.resendto[a] <= nd.maketic <= nd.resendto[a] + 1 by { assert Resends(c, s, a); }
    ByteOf(nb.maketic - nb.resendto[a]);
  }

  lemma ByteOf(x: int)
    requires 0 <= x < 256
    ensures x % 256 == x
  {
  }

  /** The maketic that NetUpdate's building loop reaches: no more than the controls it is
      given, and no further than five tics ahead of the game. */
  function BuiltUpTo(maketic: int, nettic: int, controls: nat): int {
    var limit := nettic + BACKUPTICS / 2 - 1;
    if maketic >= limit then maketic else if maketic + controls > limit then limit else maketic + controls
  }

  lemma {:induction false} BuildReaches(c: Config, nd: Node, me: nat, controls: seq<Ticcmd>)
    requires ValidConfig(c) && Shape(c, nd) && me < c.n
    ensures Build(c, nd, me, controls).maketic == BuiltUpTo(nd.maketic, NetTic(c, nd), |controls|)
    decreases |controls|
  {
    if controls != [] && CanBuild(c, nd) {
      BuildReaches(c, BuildOne(c, nd, me, controls[0]), me, controls[1..]);
    }
  }

  lemma {:induction false} BuiltControls(c: Config, nd: Node, me: nat, controls: seq<Ticcmd>, i: nat)
    requires ValidConfig(c) && Shape(c, nd) && me < c.n
    ensures nd.maketic + |Built(c, nd, me, controls)| == BuiltUpTo(nd.maketic, NetTic(c, nd), |controls|)
    ensures i < |Built(c, nd, me, controls)| ==>
      && i < |controls| && 0 <= Slot(me, nd.maketic + i) < |nd.consist|
      && Built(c, nd, me, controls)[i] == controls[i].(consistancy := nd.consist[Slot(me, nd.maketic + i)])
    decreases |controls|
  {
    SlotInRange(c, me, nd.maketic + i);
    if controls != [] && CanBuild(c, nd) {
      BuiltControls(c, BuildOne(c, nd, me, controls[0]), me, controls[1..], if i == 0 then 0 else i - 1);
    }
  }

  /** What a NetUpdate adds to the commands of its player: the sampled controls in order, as
      many as can be held, each with the value recorded twelve tics before its own. */
  lemma MadeIsSampled(c: Config, s: Sys, me: nat, controls: seq<Ticcmd>, i: nat)
    requires Inv(c, s) && Enabled(c, s, Update(me, controls))
    ensures var nd, made := s.nodes[me], Next(c, s, Update(me, controls)).made[me];
            && s.made[me] <= made && |made| == BuiltUpTo(nd.maketic, NetTic(c, nd), |controls|)
            && (nd.maketic + i < |made| ==>
                  && i < |controls| && nd.maketic + i < |made|
                  && made[nd.maketic + i] == controls[i].(consistancy := ConsistAt(c, nd.game, nd.ran, me, nd.maketic + i)))
  {
    var nd := s.nodes[me];
    assert |s.made[me]| == nd.maketic by { assert Progress(c, s, me); }
    BuiltControls(c, nd, me, controls, i);
    if i < |Built(c, nd, me, controls)| { BuiltStamped(c, s, me, controls, i); }
  }

  /** The commands from `resend` on are in the ring of the last twelve. */
  predicate Sendable(maketic: int, resend: int) {
    0 <= maketic - resend <= BACKUPTICS
  }

  lemma SentIsRecent(c: Config, s: Sys, a: nat, controls: seq<Ticcmd>, b: nat)
    requires Inv(c, s) && a < c.n && b < c.n && Enabled(c, s, Update(a, controls))
    requires !LockstepNode.Update(c, s.nodes[a], a, controls).error
    ensures Sendable(Build(c, s.nodes[a], a, controls).maketic, s.nodes[a].resendto[b])
  {
    var nd := s.nodes[a];
    var nb := Build(c, nd, a, controls);
    ResendOkHere(c, s, a, b);
    assert nb.resendto == nd.resendto && nd.maketic <= nb.maketic <= nd.maketic + 5 && NumTics(nb, b) <= BACKUPTICS by {
      SentPackets(c, s, a, controls);
    }
    SendableIsRecent(nd.maketic, nb.maketic, nb.resendto[b]);
  }

  lemma NotSent(c: Config, s: Sys, a: nat, controls: seq<Ticcmd>) returns (b: nat)
    requires Inv(c, s) && a < c.n && Enabled(c, s, Update(a, controls))
    requires LockstepNode.Update(c, s.nodes[a], a, controls).error
    ensures b < c.n && !Sendable(Build(c, s.nodes[a], a, controls).maketic, s.nodes[a].resendto[b])
  {
    b := SendErrorAt(c, s, a, controls);
    var nb := Build(c, s.nodes[a], a, controls);
    assert nb.resendto == s.nodes[a].resendto by { SentPackets(c, s, a, controls); }
    TooLong(nb, b);
  }

  lemma TooLong(nd: Node, b: nat)
    requires b < |nd.resendto| && NumTics(nd, b) > BACKUPTICS
    ensures !Sendable(nd.maketic, nd.resendto[b])
  {
  }

  /** The I_Error of the sending loop, exactly: some position to be sent from is more than
      twelve tics behind what has been built, or ahead of it. */
  lemma SendErrorExact(c: Config, s: Sys, a: nat, controls: seq<Ticcmd>, m: int)
    requires Inv(c, s) && a < c.n && Enabled(c, s, Update(a, controls))
    requires m == BuiltUpTo(s.nodes[a].maketic, NetTic(c, s.nodes[a]), |controls|)
    ensures LockstepNode.Update(c, s.nodes[a], a, controls).error <==>
      exists b: nat {:trigger s.nodes[a].resendto[b]} :: b < c.n && !Sendable(m, s.nodes[a].resendto[b])
  {
    BuildReaches(c, s.nodes[a], a, controls);
    if LockstepNode.Update(c, s.nodes[a], a, controls).error {
      var b := NotSent(c, s, a, controls);
    } else {
      forall b: nat | b < c.n ensures Sendable(m, s.nodes[a].resendto[b]) {
        SentIsRecent(c, s, a, controls, b);
      }
    }
  }

  // ---------------------------------------------------------------------------
  // Runs that do not end in the error

  /** A request that node a is ready to honour asks for no more than the last seven tics. */
  ghost predicate RecentRequest(c: Config, s: Sys, step: Step) {
    SysShape(c, s) && step.Deliver? && step.f.src < c.n && step.f.dst < c.n && step.f.data.retransmit
    && s.nodes[step.f.dst].resendcount[step.f.src] <= 0 ==>
      0 <= s.nodes[step.f.dst].maketic - step.f.from <= 7
  }

  ghost predicate Close(c: Config, s: Sys, a: nat)
    requires SysShape(c, s) && a < c.n
  {
    forall b: nat {:trigger s.nodes[a].resendto[b]} :: b < c.n ==> 0 <= s.nodes[a].maketic - s.nodes[a].resendto[b] <= 7
  }

  ghost predicate Quiet(c: Config, s: Sys) {
    SysShape(c, s) && s.halted == {} && forall a: nat :: a < c.n ==> Close(c, s, a)
  }

  lemma QuietUpdate(c: Config, s: Sys, me: nat, controls: seq<Ticcmd>)
    requires Inv(c, s) && Quiet(c, s) && Enabled(c, s, Update(me, controls))
    ensures Quiet(c, Next(c, s, Update(me, controls)))
  {
    var nd := s.nodes[me];
    var nb := Build(c, nd, me, controls);
    var s' := Next(c, s, Update(me, controls));
    assert Close(c, s, me) && Resends(c, s, me);
    SentPackets(c, s, me, controls);
    if LockstepNode.Update(c, nd, me, controls).error {
      var b := SendErrorAt(c, s, me, controls);
      ByteOf(nb.maketic - nd.resendto[b]);
      assert false;
    }
    assert SendFrom(c, nb, me, 0).packets[me - 0] == MakePacket(c, nb, me, me);
    forall a: nat | a < c.n ensures Close(c, s', a) {
      if a != me { assert Close(c, s, a); }
    }
  }

  lemma QuietNext(c: Config, s: Sys, step: Step)
    requires Inv(c, s) && Quiet(c, s) && Enabled(c, s, step) && RecentRequest(c, s, step)
    requires step.Run? ==> !RunTic(c, s.nodes[step.me]).desync
    ensures Quiet(c, Next(c, s, step))
  {
    var s' := Next(c, s, step);
    match step
    case Update(me, controls) => QuietUpdate(c, s, me, controls);
    case Deliver(f) =>
      assert FlightOk(c, s, f);
      if f.data.retransmit && s.nodes[f.dst].resendcount[f.src] <= 0 { ExpandExact(s.nodes[f.dst].maketic, f.from); }
      forall a: nat | a < c.n ensures Close(c, s', a) { assert Close(c, s, a); }
    case Run(me) =>
      InvRun(c, s, me);
      RunTicKeeps(c, s.nodes[me], c.ticdup);
      forall a: nat | a < c.n ensures Close(c, s', a) { assert Close(c, s, a); }
  }

  /** If all run the same game, and every request that is honoured asks for no more than the
      last seven tics, then no node of the run ever ends in an error. */
  lemma {:induction false} NobodyHalts(c: Config, tr: seq<Sys>, st: seq<Step>, k: nat)
    requires IsRun(c, tr, st) && SameGame(c, tr[0]) && k < |tr|
    requires forall m: nat :: m < |st| ==> RecentRequest(c, tr[m], st[m])
    ensures Quiet(c, tr[k]) && tr[k].halted == {}
  {
    if k == 0 {
      InvInit(c, tr[0]);
    } else {
      NobodyHalts(c, tr, st, k - 1);
      InvAlways(c, tr, st, k - 1);
      assert StepOk(c, tr, st, k - 1);
      if st[k - 1].Run? { NoFalseDesync(c, tr, st, k - 1, st[k - 1].me); }
      QuietNext(c, tr[k - 1], st[k - 1]);
    }
  }

  /** Later states only add. */
  lemma {:induction false} RunMonotone(c: Config, tr: seq<Sys>, st: seq<Step>, i: nat, j: nat, a: nat, b: nat)
    requires IsRun(c, tr, st) && i <= j <= |st| && a < c.n && b < c.n
    ensures |tr[i].nodes| == |tr[j].nodes| == c.n && Shape(c, tr[i].nodes[a]) && Shape(c, tr[j].nodes[a])
    ensures tr[i].nodes[a].nettics[b] <= tr[j].nodes[a].nettics[b]
    decreases j
  {
    InvAlways(c, tr, st, i);
    InvAlways(c, tr, st, j);
    if i < j {
      InvAlways(c, tr, st, j - 1);
      RunMonotone(c, tr, st, i, j - 1, a, b);
      assert tr[j - 1].nodes[a].nettics[b] <= tr[j].nodes[a].nettics[b] by {
        assert StepOk(c, tr, st, j - 1);
        StepMonotone(c, tr[j - 1], st[j - 1], a, b);
      }
    }
  }

  /** The packet a makes for b in its NetUpdate at step j. */
  lemma ReplyIs(c: Config, s: Sys, a: nat, b: nat, controls: seq<Ticcmd>, reply: Flight)
    requires Inv(c, s) && a < c.n && b < c.n && a != b && Enabled(c, s, Update(a, controls))
    requires reply in Flights(c, s.nodes[a], a, controls) && reply.dst == b
    ensures var s' := Next(c, s, Update(a, controls));
            reply.src == a && reply.start == s.nodes[a].resendto[b]
            && reply.start + reply.data.numtics == |s'.made[a]|
  {
    var nd := s.nodes[a];
    var nb := Build(c, nd, a, controls);
    FlightsAre(c, nd, a, controls, reply);
    SentPackets(c, s, a, controls);
    assert SendFrom(c, nb, a, 0).packets[b - 0] == MakePacket(c, nb, a, b) && NumTics(nb, b) <= BACKUPTICS;
    NewFlight(c, s, a, b, nd, nb, s.made[a] + Built(c, nd, a, controls));
  }

  /** A NetUpdate that does not fail sends one packet to every peer, with everything from the
      peer's resend position on, and with a request just if it misses something of the peer's. */
  lemma UpdateReaches(c: Config, s: Sys, a: nat, controls: seq<Ticcmd>, b: nat) returns (f: Flight)
    requires Inv(c, s) && a < c.n && b < c.n && a != b && Enabled(c, s, Update(a, controls))
    requires !LockstepNode.Update(c, s.nodes[a], a, controls).error
    ensures f in Next(c, s, Update(a, controls)).wire && f.src == a && f.dst == b
    ensures forall f' :: f' in Flights(c, s.nodes[a], a, controls) && f'.dst == b ==> f' == f
    ensures f.start == s.nodes[a].resendto[b] && f.start + f.data.numtics == |Next(c, s, Update(a, controls)).made[a]|
    ensures f.data.retransmit <==> s.nodes[a].remoteresend[b]
    ensures f.data.retransmit ==> f.from == s.nodes[a].nettics[b] && f.data.retransmitfrom == f.from % 256
  {
    var nd, nb := s.nodes[a], Build(c, s.nodes[a], a, controls);
    SentPackets(c, s, a, controls);
    assert SendFrom(c, nb, a, 0).packets[b - 0] == MakePacket(c, nb, a, b);
    f := Flight(a, b, nb.resendto[b], nb.nettics[b], MakePacket(c, nb, a, b));
    assert f in Flights(c, nd, a, controls);
    ReplyIs(c, s, a, b, controls, f);
  }

  /** A delivered packet that reaches beyond what the receiver has, and does not start
      beyond it, brings the receiver to its end and clears the resend flag. */
  lemma DeliveryCatchesUp(c: Config, s: Sys, f: Flight)
    requires Inv(c, s) && Enabled(c, s, Deliver(f))
    requires f.start <= s.nodes[f.dst].nettics[f.src] < f.start + f.data.numtics
    ensures var nd' := Next(c, s, Deliver(f)).nodes[f.dst];
            nd'.nettics[f.src] == f.start + f.data.numtics && !nd'.remoteresend[f.src]
  {
    assert FlightOk(c, s, f);
    ExpandExact(s.nodes[f.dst].maketic, f.start);
  }

  /** A packet that starts beyond what the receiver has sets the flag, and changes no
      stream; the receiver's next packet then carries the request. */
  lemma GapSetsFlag(c: Config, s: Sys, f: Flight)
    requires Inv(c, s) && Enabled(c, s, Deliver(f)) && f.data.numtics > 0
    requires s.nodes[f.dst].nettics[f.src] < f.start
    ensures var nd, nd' := s.nodes[f.dst], Next(c, s, Deliver(f)).nodes[f.dst];
            nd'.remoteresend[f.src] && nd'.nettics == nd.nettics && nd'.netcmds == nd.netcmds
  {
    assert FlightOk(c, s, f);
    ExpandExact(s.nodes[f.dst].maketic, f.start);
  }

  /** Step i delivers to a a request of b that a honours; step j is a's next NetUpdate,
      with at most ten packets of b delivered in between; `reply` is the packet that this
      NetUpdate makes for b, and step k delivers it. */
  ghost predicate RequestAndReply(c: Config, tr: seq<Sys>, st: seq<Step>, i: nat, j: nat, k: nat, a: nat, b: nat, reply: Flight) {
    && IsRun(c, tr, st) && i < j < k < |st| && a < c.n && b < c.n && a != b
    && SysShape(c, tr[i]) && Honours(c, tr[i], st[i], b, a)
    && NoUpdate(st, i + 1, j, a) && Deliveries(st, i + 1, j, b, a) <= RESENDCOUNT
    && st[j].Update? && st[j].me == a
    && SysShape(c, tr[j]) && reply in Flights(c, tr[j].nodes[a], a, st[j].controls) && reply.dst == b
    && st[k] == Deliver(reply)
  }

  lemma ReplyAnswers(c: Config, tr: seq<Sys>, st: seq<Step>, i: nat, j: nat, k: nat, a: nat, b: nat, reply: Flight)
    requires RequestAndReply(c, tr, st, i, j, k, a, b, reply)
    ensures SysShape(c, tr[j + 1]) && SysShape(c, tr[k])
    ensures reply.src == a && reply.start == st[i].f.from
    ensures reply.start + reply.data.numtics == |tr[j + 1].made[a]|
    ensures reply.start <= tr[k].nodes[b].nettics[a]
  {
    InvAlways(c, tr, st, i);
    InvAlways(c, tr, st, j);
    InvAlways(c, tr, st, j + 1);
    InvAlways(c, tr, st, k);
    RequestsRecur(c, tr, st, i, j, a, b);
    assert reply.src == a && reply.start == st[i].f.from && reply.start + reply.data.numtics == |tr[j + 1].made[a]| by {
      assert StepOk(c, tr, st, j);
      ReplyIs(c, tr[j], a, b, st[j].controls, reply);
    }
    assert st[i].f.from <= tr[i].nodes[b].nettics[a] by {
      assert StepOk(c, tr, st, i);
      assert FlightOk(c, tr[i], st[i].f);
    }
    RunMonotone(c, tr, st, i, k, b, a);
  }

  /** Loss recovery.  Whatever else happens in between, the reply starts where b asked and
      ends at a's maketic, and once it is delivered b has everything up to there; if it
      brought anything new then b's flag is clear. */
  lemma LossRecovery(c: Config, tr: seq<Sys>, st: seq<Step>, i: nat, j: nat, k: nat, a: nat, b: nat, reply: Flight)
    requires RequestAndReply(c, tr, st, i, j, k, a, b, reply)
    ensures SysShape(c, tr[j + 1]) && SysShape(c, tr[k]) && SysShape(c, tr[k + 1])
    ensures reply.start == st[i].f.from && reply.start + reply.data.numtics == |tr[j + 1].made[a]|
    ensures tr[k + 1].nodes[b].nettics[a] >= |tr[j + 1].made[a]|
    ensures tr[k].nodes[b].nettics[a] < |tr[j + 1].made[a]| ==>
      tr[k + 1].nodes[b].nettics[a] == |tr[j + 1].made[a]| && !tr[k + 1].nodes[b].remoteresend[a]
  {
    ReplyAnswers(c, tr, st, i, j, k, a, b, reply);
    InvAlways(c, tr, st, k);
    InvAlways(c, tr, st, k + 1);
    assert StepOk(c, tr, st, k);
    if tr[k].nodes[b].nettics[a] < |tr[j + 1].made[a]| {
      DeliveryCatchesUp(c, tr[k], reply);
    } else {
      StepMonotone(c, tr[k], st[k], b, a);
    }
  }
}
