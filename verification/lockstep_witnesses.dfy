// Two runs of a game of two that show what the other theorems leave open: a request that
// arrives late makes NetUpdate end in I_Error, and a packet that arrives 256 tics late is
// taken for the current tic.
module LockstepWitnesses {
  import opened LockstepNode
  import opened LockstepSystem
  import opened LockstepProofs
  import opened LockstepInvariant
  import opened LockstepTheorems

  /** Two players, one game tic per network tic, nothing sent twice without being asked. */
  ghost predicate Duo(c: Config) {
    c.n == 2 && c.ticdup == 1 && c.extratics == 0
  }

  // ---------------------------------------------------------------------------
  // Reachable states

  ghost predicate Ends(c: Config, tr: seq<Sys>, st: seq<Step>, s: Sys) {
    IsRun(c, tr, st) && tr[|st|] == s
  }

  ghost predicate Reachable(c: Config, s: Sys) {
    exists tr: seq<Sys>, st: seq<Step> :: Ends(c, tr, st, s)
  }

  lemma ReachableInv(c: Config, s: Sys)
    requires Reachable(c, s)
    ensures Inv(c, s)
  {
    var tr, st :| Ends(c, tr, st, s);
    InvAlways(c, tr, st, |st|);
  }

  lemma ReachableNext(c: Config, s: Sys, step: Step)
    requires Reachable(c, s) && ValidConfig(c) && SysShape(c, s) && Enabled(c, s, step)
    ensures Reachable(c, Next(c, s, step)) && Inv(c, Next(c, s, step))
  {
    var tr, st :| Ends(c, tr, st, s);
    var tr', st' := tr + [Next(c, s, step)], st + [step];
    forall m | 0 <= m < |st'| ensures StepOk(c, tr', st', m) {
      if m < |st| { assert StepOk(c, tr, st, m); }
    }
    assert Ends(c, tr', st', Next(c, s, step));
    ReachableInv(c, Next(c, s, step));
  }

  // ---------------------------------------------------------------------------
  // What the two runs look at

  /** A node without its rings. */
  datatype View = View(maketic: int, tics: nat, nettics: seq<int>, flags: seq<bool>, resendto: seq<int>, counts: seq<int>)

  ghost function Look(nd: Node): View {
    View(nd.maketic, |nd.ran|, nd.nettics, nd.remoteresend, nd.resendto, nd.resendcount)
  }

  /** s is reachable, no node has halted, and the nodes look like a and b; they run
      games 0 and 1. */
  ghost predicate Seen(c: Config, s: Sys, a: View, b: View) {
    && Duo(c) && Reachable(c, s) && Inv(c, s) && s.halted == {}
    && Look(s.nodes[0]) == a && Look(s.nodes[1]) == b && s.nodes[0].game == 0 && s.nodes[1].game == 1
  }

  /** The packet travels from src to the other node. */
  ghost predicate Sent(s: Sys, f: Flight, src: nat, start: int, numtics: int, retransmit: bool, from: int) {
    && f in s.wire && src < 2 && f.src == src && f.dst == 1 - src && f.start == start && f.from == from
    && WellFormedPacket(f.data) && f.data.numtics == numtics && f.data.retransmit == retransmit
  }

  /** NetUpdate of node me with that many controls. */
  ghost function Updated(v: View, me: nat, m: int): View
    requires me < |v.nettics| && me < |v.counts|
  {
    View(m, v.tics, v.nettics[me := m], v.flags, [m, m], v.counts[me := v.counts[me] - 1])
  }

  /** A packet of node src is received. */
  ghost function Received(v: View, src: nat, start: int, numtics: int, retransmit: bool, from: int): View
    requires src < |v.nettics| && src < |v.counts| && src < |v.flags| && src < |v.resendto|
  {
    var end := start + numtics;
    var v1 := if v.counts[src] <= 0 && retransmit
              then v.(resendto := v.resendto[src := from], counts := v.counts[src := RESENDCOUNT])
              else v.(counts := v.counts[src := v.counts[src] - 1]);
    if end <= v.nettics[src] then v1
    else if start > v.nettics[src] then v1.(flags := v.flags[src := true])
    else v1.(flags := v.flags[src := false], nettics := v.nettics[src := end])
  }

  // ---------------------------------------------------------------------------
  // One step of a run

  lemma OwnPacket(c: Config, nd: Node, me: nat, p: Packet, start: int)
    requires ValidConfig(c) && Shape(c, nd) && me < c.n && WellFormedPacket(p) && !p.retransmit
    requires p.starttic == start % 256 && nd.maketic - 12 <= start <= nd.nettics[me] && start + p.numtics == nd.maketic
    requires nd.nettics[me] <= nd.maketic && !nd.remoteresend[me]
    ensures Look(Receive(c, nd, me, p)) ==
      Look(nd).(nettics := nd.nettics[me := nd.maketic], counts := nd.resendcount[me := nd.resendcount[me] - 1])
  {
    ExpandExact(nd.maketic, start);
  }

  lemma EitherSendable(c: Config, nd: Node, m: int, b: nat)
    requires Duo(c) && Shape(c, nd) && b < c.n && Sendable(m, nd.resendto[0]) && Sendable(m, nd.resendto[1])
    ensures Sendable(m, nd.resendto[b])
  {
  }

  lemma NoErrorAt(c: Config, s: Sys, me: nat, controls: seq<Ticcmd>, m: int)
    requires Inv(c, s) && Enabled(c, s, Update(me, controls)) && m == Build(c, s.nodes[me], me, controls).maketic
    requires forall b: nat {:trigger s.nodes[me].resendto[b]} :: b < c.n ==> Sendable(m, s.nodes[me].resendto[b])
    ensures !LockstepNode.Update(c, s.nodes[me], me, controls).error
  {
    if LockstepNode.Update(c, s.nodes[me], me, controls).error {
      var b := NotSent(c, s, me, controls);
    }
  }

  lemma NoError(c: Config, s: Sys, me: nat, controls: seq<Ticcmd>, m: int)
    requires Duo(c) && Inv(c, s) && Enabled(c, s, Update(me, controls))
    requires m == BuiltUpTo(s.nodes[me].maketic, |s.nodes[me].ran|, |controls|)
    requires Sendable(m, s.nodes[me].resendto[0]) && Sendable(m, s.nodes[me].resendto[1])
    ensures !LockstepNode.Update(c, s.nodes[me], me, controls).error
    ensures Build(c, s.nodes[me], me, controls).maketic == m
  {
    assert NetTic(c, s.nodes[me]) == |s.nodes[me].ran|;
    BuildReaches(c, s.nodes[me], me, controls);
    forall b: nat | b < c.n ensures Sendable(m, s.nodes[me].resendto[b]) { EitherSendable(c, s.nodes[me], m, b); }
    NoErrorAt(c, s, me, controls, m);
  }

  lemma UpdateLooks(c: Config, s: Sys, me: nat, controls: seq<Ticcmd>, m: int)
    requires Duo(c) && Inv(c, s) && Enabled(c, s, Update(me, controls))
    requires m == BuiltUpTo(s.nodes[me].maketic, |s.nodes[me].ran|, |controls|)
    requires Sendable(m, s.nodes[me].resendto[0]) && Sendable(m, s.nodes[me].resendto[1])
    ensures Look(LockstepNode.Update(c, s.nodes[me], me, controls).node) == Updated(Look(s.nodes[me]), me, m)
  {
    var nd := s.nodes[me];
    var nb := Build(c, nd, me, controls);
    var sent := SendFrom(c, nb, me, 0);
    NoError(c, s, me, controls, m);
    SentPackets(c, s, me, controls);
    assert Resends(c, s, me);
    assert sent.packets[me - 0] == MakePacket(c, nb, me, me);
    assert sent.node.resendto == [m, m];
    NewFlight(c, s, me, me, nd, nb, s.made[me] + Built(c, nd, me, controls));
    OwnPacket(c, sent.node, me, sent.packets[me], nd.resendto[me]);
  }

  lemma UpdateSends(c: Config, s: Sys, me: nat, controls: seq<Ticcmd>, m: int) returns (f: Flight)
    requires Duo(c) && Inv(c, s) && Enabled(c, s, Update(me, controls))
    requires m == BuiltUpTo(s.nodes[me].maketic, |s.nodes[me].ran|, |controls|)
    requires Sendable(m, s.nodes[me].resendto[0]) && Sendable(m, s.nodes[me].resendto[1])
    ensures var nd := s.nodes[me];
            Sent(Next(c, s, Update(me, controls)), f, me, nd.resendto[1 - me], m - nd.resendto[1 - me],
                 nd.remoteresend[1 - me], nd.nettics[1 - me])
  {
    var nd := s.nodes[me];
    var nb := Build(c, nd, me, controls);
    var i := 1 - me;
    NoError(c, s, me, controls, m);
    SentPackets(c, s, me, controls);
    assert SendFrom(c, nb, me, 0).packets[i - 0] == MakePacket(c, nb, me, i);
    NewFlight(c, s, me, i, nd, nb, s.made[me] + Built(c, nd, me, controls));
    f := Flight(me, i, nb.resendto[i], nb.nettics[i], MakePacket(c, nb, me, i));
    assert f in Flights(c, nd, me, controls);
  }

  lemma UpdateStep(c: Config, s: Sys, a: View, b: View, me: nat, controls: seq<Ticcmd>, m: int) returns (s': Sys, f: Flight)
    requires Seen(c, s, a, b) && me < 2
    requires var v := if me == 0 then a else b;
             && (controls != [] || v.maketic > 0) && m == BuiltUpTo(v.maketic, v.tics, |controls|)
             && Sendable(m, v.resendto[0]) && Sendable(m, v.resendto[1])
    ensures Seen(c, s', if me == 0 then Updated(a, 0, m) else a, if me == 1 then Updated(b, 1, m) else b)
    ensures var v := if me == 0 then a else b;
            Sent(s', f, me, v.resendto[1 - me], m - v.resendto[1 - me], v.flags[1 - me], v.nettics[1 - me])
    ensures s.wire <= s'.wire
  {
    s' := Updates(c, s, me, controls, m);
    f := UpdateSends(c, s, me, controls, m);
  }

  lemma Updates(c: Config, s: Sys, me: nat, controls: seq<Ticcmd>, m: int) returns (s': Sys)
    requires Duo(c) && Reachable(c, s) && Inv(c, s) && s.halted == {} && Enabled(c, s, Update(me, controls))
    requires m == BuiltUpTo(s.nodes[me].maketic, |s.nodes[me].ran|, |controls|)
    requires Sendable(m, s.nodes[me].resendto[0]) && Sendable(m, s.nodes[me].resendto[1])
    ensures s' == Next(c, s, Update(me, controls)) && Reachable(c, s') && Inv(c, s') && s'.halted == {}
    ensures Look(s'.nodes[me]) == Updated(Look(s.nodes[me]), me, m) && s'.nodes[1 - me] == s.nodes[1 - me]
    ensures s'.nodes[me].game == s.nodes[me].game && s.wire <= s'.wire
  {
    s' := Next(c, s, Update(me, controls));
    NoError(c, s, me, controls, m);
    UpdateLooks(c, s, me, controls, m);
    ReachableNext(c, s, Update(me, controls));
    GamesStay(c, s, Update(me, controls), me);
  }

  lemma DeliverStep(c: Config, s: Sys, a: View, b: View, f: Flight, src: nat, start: int, numtics: int, retransmit: bool, from: int)
    returns (s': Sys)
    requires Seen(c, s, a, b) && Sent(s, f, src, start, numtics, retransmit, from)
    requires var v := if src == 0 then b else a;
             -64 <= start - v.maketic <= 64 && (retransmit ==> -64 <= from - v.maketic <= 64)
    ensures Seen(c, s', if src == 1 then Received(a, 1, start, numtics, retransmit, from) else a,
                 if src == 0 then Received(b, 0, start, numtics, retransmit, from) else b)
    ensures s'.wire == s.wire
  {
    s' := Next(c, s, Deliver(f));
    ReachableNext(c, s, Deliver(f));
    assert FlightOk(c, s, f);
    ExpandExact(s.nodes[f.dst].maketic, start);
    if retransmit { ExpandExact(s.nodes[f.dst].maketic, from); }
  }

  /** The two games sample the same values. */
  ghost predicate Alike(c: Config) {
    forall p: nat, ran: seq<seq<Ticcmd>> :: c.sim(0, p, ran) == c.sim(1, p, ran)
  }

  lemma GamesAgree(c: Config, s: Sys, me: nat)
    requires Duo(c) && Inv(c, s) && me < 2 && CanRun(c, s.nodes[me]) && s.nodes[0].game == 0 && s.nodes[1].game == 1
    requires |s.nodes[me].ran| <= BACKUPTICS || Alike(c)
    ensures Agreeing(c, s.nodes[me], NetTic(c, s.nodes[me]))
  {
    var g := (NetTic(c, s.nodes[me]) - BACKUPTICS) * c.ticdup;
    ChecksAgree(c, s, me, g);
    if Alike(c) {
      forall p: nat | p < c.n ensures !Diverged(c, s, me, p, g) {
        if 0 <= g <= |s.nodes[me].ran| && g <= |s.nodes[p].ran| { SamePrefix(c, s, me, p, g); }
      }
    }
  }

  lemma RunStep(c: Config, s: Sys, a: View, b: View, me: nat) returns (s': Sys)
    requires Seen(c, s, a, b) && me < 2
    requires var v := if me == 0 then a else b; v.nettics[0] > v.tics && v.nettics[1] > v.tics && (v.tics <= BACKUPTICS || Alike(c))
    ensures Seen(c, s', if me == 0 then a.(tics := a.tics + 1) else a, if me == 1 then b.(tics := b.tics + 1) else b)
    ensures s'.wire == s.wire
  {
    s' := Next(c, s, Run(me));
    ReachableNext(c, s, Run(me));
    InvRun(c, s, me);
    GamesAgree(c, s, me);
    RunTicKeeps(c, s.nodes[me], c.ticdup);
  }

  // ---------------------------------------------------------------------------
  // Rounds

  /** No node has anything to be sent again. */
  ghost predicate InStep(c: Config, s: Sys, t: nat, a0: int, a1: int, b0: int, b1: int) {
    Seen(c, s, View(t, t, [t, t], [false, false], [t, t], [a0, a1]), View(t, t, [t, t], [false, false], [t, t], [b0, b1]))
  }

  const ONE := [EMPTY_CMD]

  /** Both nodes have built and sent tic t, and received the other's. */
  ghost predicate Exchanged(c: Config, s: Sys, t: nat, a0: int, a1: int, b0: int, b1: int) {
    Seen(c, s, View(t + 1, t, [t + 1, t + 1], [false, false], [t + 1, t + 1], [a0, a1]),
         View(t + 1, t, [t + 1, t + 1], [false, false], [t + 1, t + 1], [b0, b1]))
  }

  lemma Exchange(c: Config, s: Sys, t: nat, a0: int, a1: int, b0: int, b1: int) returns (s': Sys, f: Flight)
    requires InStep(c, s, t, a0, a1, b0, b1)
    ensures Exchanged(c, s', t, a0 - 1, a1 - 1, b0 - 1, b1 - 1) && s.wire <= s'.wire
    ensures Sent(s', f, 1, t, 1, false, t)
  {
    var a, b := View(t, t, [t, t], [false, false], [t, t], [a0, a1]), View(t, t, [t, t], [false, false], [t, t], [b0, b1]);
    var s1, g := UpdateStep(c, s, a, b, 0, ONE, t + 1);
    a := View(t + 1, t, [t + 1, t], [false, false], [t + 1, t + 1], [a0 - 1, a1]);
    s1, f := UpdateStep(c, s1, a, b, 1, ONE, t + 1);
    b := View(t + 1, t, [t, t + 1], [false, false], [t + 1, t + 1], [b0, b1 - 1]);
    s1 := DeliverStep(c, s1, a, b, g, 0, t, 1, false, t);
    b := View(t + 1, t, [t + 1, t + 1], [false, false], [t + 1, t + 1], [b0 - 1, b1 - 1]);
    s' := DeliverStep(c, s1, a, b, f, 1, t, 1, false, t);
  }

  /** Both nodes build one tic, send it and run it. */
  lemma Round(c: Config, s: Sys, t: nat, a0: int, a1: int, b0: int, b1: int) returns (s': Sys, f: Flight)
    requires InStep(c, s, t, a0, a1, b0, b1) && (t <= BACKUPTICS || Alike(c))
    ensures InStep(c, s', t + 1, a0 - 1, a1 - 1, b0 - 1, b1 - 1) && s.wire <= s'.wire
    ensures Sent(s', f, 1, t, 1, false, t)
  {
    var s1;
    s1, f := Exchange(c, s, t, a0, a1, b0, b1);
    var a := View(t + 1, t, [t + 1, t + 1], [false, false], [t + 1, t + 1], [a0 - 1, a1 - 1]);
    var b := View(t + 1, t, [t + 1, t + 1], [false, false], [t + 1, t + 1], [b0 - 1, b1 - 1]);
    s1 := RunStep(c, s1, a, b, 0);
    s' := RunStep(c, s1, a.(tics := t + 1), b, 1);
  }

  /** n rounds. */
  lemma {:induction false} Rounds(c: Config, s: Sys, t: nat, n: nat, a0: int, a1: int, b0: int, b1: int) returns (s': Sys)
    requires InStep(c, s, t, a0, a1, b0, b1) && (t + n <= BACKUPTICS + 1 || Alike(c))
    ensures InStep(c, s', t + n, a0 - n, a1 - n, b0 - n, b1 - n) && s.wire <= s'.wire
  {
    s' := s;
    if n > 0 {
      var s1 := Rounds(c, s, t, n - 1, a0, a1, b0, b1);
      var f;
      s', f := Round(c, s1, t + n - 1, a0 - (n - 1), a1 - (n - 1), b0 - (n - 1), b1 - (n - 1));
    }
  }

  lemma Beginning(c: Config) returns (s: Sys)
    requires Duo(c)
    ensures InStep(c, s, 0, 0, 0, 0, 0)
  {
    var nd := Node(0, 0, [], seq(12, _ => EMPTY_CMD), seq(24, _ => EMPTY_CMD), [0, 0], [false, false], [0, 0], [0, 0], seq(24, _ => 0));
    s := Sys([nd, nd.(game := 1)], [[], []], {}, {});
    assert Init(c, s);
    assert Ends(c, [s], [], s);
    InvInit(c, s);
  }

  // ---------------------------------------------------------------------------
  // A packet 256 tics late

  /** The delivery window is needed: there is a run at whose end a packet of node 1's first
      tic is still on the wire, and node 0 takes it for tic 256, which node 1 has not yet
      built. */
  lemma WindowIsNeeded(c: Config) returns (s: Sys, f: Flight)
    requires Duo(c) && Alike(c)
    ensures Reachable(c, s) && Inv(c, s) && s.halted == {}
    ensures f in s.wire && f.src == 1 && f.dst == 0 && f.start == 0 && WellFormedPacket(f.data) && f.data.numtics == 1
    ensures s.nodes[0].maketic == 256 && |s.made[1]| == 256 && s.nodes[0].nettics[1] == 256
    ensures Receive(c, s.nodes[0], 1, f.data).nettics[1] == 257
    ensures Receive(c, s.nodes[0], 1, f.data).netcmds[Slot(1, 256)] == s.made[1][0]
  {
    s := Beginning(c);
    s, f := Round(c, s, 0, 0, 0, 0, 0);
    s := Rounds(c, s, 1, 255, -1, -1, -1, -1);
    assert FlightOk(c, s, f) && Progress(c, s, 1);
    TakenForLater(c, s.nodes[0], f.data);
  }

  lemma TakenForLater(c: Config, nd: Node, p: Packet)
    requires Duo(c) && Shape(c, nd) && WellFormedPacket(p) && p.starttic == 0 && p.numtics == 1
    requires nd.maketic == 256 && nd.nettics[1] == 256
    ensures Receive(c, nd, 1, p).nettics[1] == 257
    ensures Receive(c, nd, 1, p).netcmds[Slot(1, 256)] == p.cmds[0]
  {
    assert ExpandTics(256, 0) == 256;
    StorePuts(nd.netcmds, 1, 256, 257, 256, p.cmds, 256);
  }

  // ---------------------------------------------------------------------------
  // A request 13 tics late

  /** Node 0's first packet is overtaken by its second; node 1 asks for tic 0 again, and has
      it before the request arrives. */
  lemma Overtaken(c: Config) returns (s: Sys, q: Flight)
    requires Duo(c)
    ensures Seen(c, s, View(2, 0, [2, 0], [false, false], [2, 2], [-2, 0]), View(2, 0, [2, 2], [false, false], [2, 2], [-3, -1]))
    ensures Sent(s, q, 1, 0, 2, true, 0)
  {
    s := Beginning(c);
    var a, b := View(0, 0, [0, 0], [false, false], [0, 0], [0, 0]), View(0, 0, [0, 0], [false, false], [0, 0], [0, 0]);
    var p1, p2;
    s, p1 := UpdateStep(c, s, a, b, 0, ONE, 1);
    a := View(1, 0, [1, 0], [false, false], [1, 1], [-1, 0]);
    s, p2 := UpdateStep(c, s, a, b, 0, ONE, 2);
    a := View(2, 0, [2, 0], [false, false], [2, 2], [-2, 0]);
    s := DeliverStep(c, s, a, b, p2, 0, 1, 1, false, 0);
    b := View(0, 0, [0, 0], [true, false], [0, 0], [-1, 0]);
    s, q := UpdateStep(c, s, a, b, 1, ONE + ONE, 2);
    b := View(2, 0, [0, 2], [true, false], [2, 2], [-1, -1]);
    s := DeliverStep(c, s, a, b, p1, 0, 0, 1, false, 0);
    b := View(2, 0, [1, 2], [false, false], [2, 2], [-2, -1]);
    s := DeliverStep(c, s, a, b, p2, 0, 1, 1, false, 0);
  }

  /** Both run the two tics; the request, honoured when it came first, is no longer needed. */
  lemma Settled(c: Config) returns (s: Sys, q: Flight)
    requires Duo(c)
    ensures InStep(c, s, 2, -3, 10, -3, -1) && Sent(s, q, 1, 0, 2, true, 0)
  {
    s, q := Overtaken(c);
    var a, b := View(2, 0, [2, 0], [false, false], [2, 2], [-2, 0]), View(2, 0, [2, 2], [false, false], [2, 2], [-3, -1]);
    s := DeliverStep(c, s, a, b, q, 1, 0, 2, true, 0);
    a := View(2, 0, [2, 2], [false, false], [2, 0], [-2, 10]);
    var r;
    s, r := UpdateStep(c, s, a, b, 0, [], 2);
    a := View(2, 0, [2, 2], [false, false], [2, 2], [-3, 10]);
    s := RunStep(c, s, a, b, 0);
    s := RunStep(c, s, a.(tics := 1), b, 0);
    a := a.(tics := 2);
    s := RunStep(c, s, a, b, 1);
    s := RunStep(c, s, a, b.(tics := 1), 1);
  }

  /** Eleven rounds later a duplicate of the request arrives and is honoured again. */
  lemma HonouredLate(c: Config) returns (s: Sys)
    requires Duo(c)
    ensures Seen(c, s, View(13, 13, [13, 13], [false, false], [13, 0], [-14, 10]),
                 View(13, 13, [13, 13], [false, false], [13, 13], [-14, -12]))
  {
    var q;
    s, q := Settled(c);
    s := Rounds(c, s, 2, 11, -3, 10, -3, -1);
    s := DeliverStep(c, s, View(13, 13, [13, 13], [false, false], [13, 13], [-14, -1]),
                     View(13, 13, [13, 13], [false, false], [13, 13], [-14, -12]), q, 1, 0, 2, true, 0);
  }

  /** There is a run that ends in I_Error: the next NetUpdate of node 0 finds 13 tics to be
      sent to node 1, whatever is built in it. */
  lemma LateRequestHalts(c: Config, controls: seq<Ticcmd>) returns (s: Sys)
    requires Duo(c)
    ensures Reachable(c, s) && Inv(c, s) && s.halted == {} && Enabled(c, s, Update(0, controls))
    ensures Next(c, s, Update(0, controls)).halted == {0}
  {
    s := HonouredLate(c);
    var nd := s.nodes[0];
    SendErrorExact(c, s, 0, controls, BuiltUpTo(nd.maketic, NetTic(c, nd), |controls|));
    assert !Sendable(BuiltUpTo(nd.maketic, NetTic(c, nd), |controls|), nd.resendto[1]);
  }

  // ---------------------------------------------------------------------------
  // Two games

  /** If the two games sample different values after one tic, the run in which all packets
      arrive ends as soon as node 0 runs tic 13. */
  lemma DivergedHalts(c: Config) returns (s: Sys)
    requires Duo(c) && forall p: nat, ran: seq<seq<Ticcmd>> :: |ran| == 1 ==> c.sim(0, p, ran) != c.sim(1, p, ran)
    ensures Reachable(c, s) && Inv(c, s) && s.halted == {} && Enabled(c, s, Run(0)) && |s.nodes[0].ran| == 13
    ensures Next(c, s, Run(0)).halted == {0}
  {
    s := Beginning(c);
    s := Rounds(c, s, 0, 13, 0, 0, 0, 0);
    var f;
    s, f := Exchange(c, s, 13, -13, -13, -13, -13);
    var g := (NetTic(c, s.nodes[0]) - BACKUPTICS) * c.ticdup;
    SamePrefix(c, s, 0, 1, 1);
    assert Diverged(c, s, 0, 1, g);
    ChecksAgree(c, s, 0, g);
    InvRun(c, s, 0);
  }
}
