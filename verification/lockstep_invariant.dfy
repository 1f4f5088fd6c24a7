// Every step of every node keeps the invariant.
module LockstepInvariant {
  import opened LockstepNode
  import opened LockstepSystem
  import opened LockstepProofs

  /** Flow control, from the invariant: nobody is more than 5 tics ahead of anybody's
      maketic, nor more than 10 ahead of anybody's game. */
  lemma FlowControl(c: Config, s: Sys, a: nat, b: nat)
    requires Inv(c, s) && a < c.n && b < c.n
    ensures s.nodes[b].maketic <= s.nodes[a].maketic + 5
    ensures s.nodes[b].maketic <= NetTic(c, s.nodes[a]) + 10
    ensures NetTic(c, s.nodes[a]) <= s.nodes[a].nettics[b] <= s.nodes[b].maketic
  {
    assert Progress(c, s, a) && Progress(c, s, b) && Streams(c, s, a) && Streams(c, s, b);
    assert Stream(c, s, a, b) && Stream(c, s, b, a);
  }

  // ---------------------------------------------------------------------------
  // What a step of node `me` cannot disturb

  ghost predicate Grows(c: Config, s: Sys, s': Sys, me: nat) {
    && SysShape(c, s) && SysShape(c, s') && me < c.n
    && (forall b: nat :: b < c.n && b != me ==> s'.nodes[b] == s.nodes[b] && s'.made[b] == s.made[b])
    && s.made[me] <= s'.made[me]
    && s.nodes[me].maketic <= s'.nodes[me].maketic
    && (forall b: nat :: b < c.n ==> s.nodes[me].nettics[b] <= s'.nodes[me].nettics[b])
    && s.halted <= s'.halted
  }

  lemma HoldsPrefix(ring: seq<Ticcmd>, off: int, made: seq<Ticcmd>, made': seq<Ticcmd>, lo: int, hi: int)
    requires Holds(ring, off, made, lo, hi) && made <= made'
    ensures Holds(ring, off, made', lo, hi)
  {
    forall q | lo <= q < hi
      ensures HoldsAt(ring, off, made', q)
    {
      assert HoldsAt(ring, off, made, q);
    }
  }

  lemma RanMadeGrows(c: Config, s: Sys, s': Sys, me: nat, b: nat)
    requires Inv(c, s) && Grows(c, s, s', me) && b < c.n && s'.nodes[b].ran == s.nodes[b].ran
    ensures RanMade(c, s', b)
  {
    assert RanMade(c, s, b);
    forall g: nat, p: nat | g < |s'.nodes[b].ran| && p < c.n
      ensures RanAt(c, s', b, g, p)
    {
      assert RanAt(c, s, b, g, p);
    }
  }

  lemma Others(c: Config, s: Sys, s': Sys, me: nat, b: nat)
    requires Inv(c, s) && Grows(c, s, s', me) && b < c.n && b != me
    ensures Progress(c, s', b) && Streams(c, s', b) && RanMade(c, s', b) && Consistencies(c, s', b)
    ensures b !in s.halted ==> Resends(c, s', b)
  {
    assert Progress(c, s, b) && Streams(c, s, b) && Consistencies(c, s, b);
    var nd := s.nodes[b];
    forall q | 0 <= q < |s'.made[b]| ensures Stamped(c, s', b, q) { assert Stamped(c, s, b, q); }
    forall d: nat | d < c.n
      ensures Stream(c, s', b, d)
    {
      assert Stream(c, s, b, d);
      HoldsPrefix(nd.netcmds, d * BACKUPTICS, s.made[d], s'.made[d], NetTic(c, nd), nd.nettics[d]);
    }
    RanMadeGrows(c, s, s', me, b);
  }

  lemma OldFlights(c: Config, s: Sys, s': Sys, me: nat, f: Flight)
    requires Inv(c, s) && Grows(c, s, s', me) && f in s.wire
    ensures FlightOk(c, s', f)
  {
    assert FlightOk(c, s, f);
    forall j | 0 <= j < f.data.numtics ensures f.data.cmds[j] == s'.made[f.src][f.start + j] {
      assert f.data.cmds[j] == s.made[f.src][f.start + j];
    }
    assert Carries(f, s'.made[f.src]);
  }

  /** Only the part about `me` and about new packets is left to prove for a step of `me`. */
  lemma Rest(c: Config, s: Sys, s': Sys, me: nat)
    requires Inv(c, s) && Grows(c, s, s', me)
    requires Progress(c, s', me) && Streams(c, s', me) && RanMade(c, s', me) && Consistencies(c, s', me)
    requires me !in s'.halted ==> Resends(c, s', me)
    requires forall f :: f in s'.wire && f !in s.wire ==> FlightOk(c, s', f)
    ensures Inv(c, s')
  {
    forall b: nat | b < c.n && b != me
      ensures Progress(c, s', b) && Streams(c, s', b) && RanMade(c, s', b) && Consistencies(c, s', b)
      ensures b !in s.halted ==> Resends(c, s', b)
    {
      Others(c, s, s', me, b);
    }
    forall f | f in s'.wire ensures FlightOk(c, s', f) {
      if f in s.wire { OldFlights(c, s, s', me, f); }
    }
  }

  // ---------------------------------------------------------------------------
  // Delivery

  /** Node `a` takes a packet of `b` whose first tic it expands correctly: its streams
      still carry what was built, and every unconsumed slot keeps its command. */
  lemma ReceiveStreams(c: Config, s: Sys, s': Sys, a: nat, b: nat, p: Packet, start: int)
    requires Inv(c, s) && a < c.n && b < c.n && WellFormedPacket(p)
    requires s' == s.(nodes := s.nodes[a := Receive(c, s.nodes[a], b, p)])
    requires start >= 0 && ExpandTics(s.nodes[a].maketic, p.starttic) == start
    requires start + p.numtics <= |s.made[b]|
    requires forall j :: 0 <= j < p.numtics ==> p.cmds[j] == s.made[b][start + j]
    ensures Streams(c, s', a) && Grows(c, s, s', a)
    ensures s'.nodes[a].nettics == s.nodes[a].nettics[b := s'.nodes[a].nettics[b]]
  {
    var nd, nd' := s.nodes[a], s'.nodes[a];
    assert Progress(c, s, a) && Progress(c, s, b) && Streams(c, s, a);
    var lo, hi := nd.nettics[b], start + p.numtics;
    FlowControl(c, s, a, b);
    if start <= lo < hi {
      forall d: nat | d < c.n
        ensures Stream(c, s', a, d)
      {
        assert Stream(c, s, a, d);
        StoreHolds(nd.netcmds, b, lo, hi, start, p.cmds, d, s.made[d], NetTic(c, nd), nd.nettics[d]);
      }
    } else {
      assert nd'.nettics == nd.nettics && nd'.netcmds == nd.netcmds;
      forall d: nat | d < c.n
        ensures Stream(c, s', a, d)
      {
        assert Stream(c, s, a, d);
      }
    }
  }

  lemma ReceiveKeeps(c: Config, s: Sys, s': Sys, a: nat, b: nat, p: Packet)
    requires Inv(c, s) && a < c.n && b < c.n && WellFormedPacket(p)
    requires s' == s.(nodes := s.nodes[a := Receive(c, s.nodes[a], b, p)])
    requires Grows(c, s, s', a)
    ensures Progress(c, s', a) && RanMade(c, s', a) && Consistencies(c, s', a)
  {
    var nd, nd' := s.nodes[a], s'.nodes[a];
    assert Progress(c, s, a) && Consistencies(c, s, a);
    RanMadeGrows(c, s, s', a, a);
    assert nd'.ran == nd.ran && nd'.consist == nd.consist;
    forall p: nat, t: int | p < c.n && NetTic(c, nd') <= t < NetTic(c, nd') + BACKUPTICS
      ensures Recorded(c, nd', p, t)
    {
      assert Recorded(c, nd, p, t);
    }
    forall q | 0 <= q < |s'.made[a]| ensures Stamped(c, s', a, q) { assert Stamped(c, s, a, q); }
  }

  lemma InvDeliver(c: Config, s: Sys, f: Flight)
    requires Inv(c, s) && Enabled(c, s, Deliver(f))
    ensures Inv(c, Next(c, s, Deliver(f)))
  {
    var s' := Next(c, s, Deliver(f));
    var a, b := f.dst, f.src;
    var nd, nd' := s.nodes[a], s'.nodes[a];
    assert FlightOk(c, s, f) && Resends(c, s, a);
    ExpandExact(nd.maketic, f.start);
    ReceiveStreams(c, s, s', a, b, f.data, f.start);
    ReceiveKeeps(c, s, s', a, b, f.data);
    forall d: nat | d < c.n ensures ResendOk(nd'.maketic, nd'.resendto[d]) {
      assert nd.resendto[d] == nd.resendto[d];
      if d == b && nd.resendcount[b] <= 0 && f.data.retransmit {
        FlowControl(c, s, b, a);
        ExpandRequest(nd.maketic, f.from);
      }
    }
    Rest(c, s, s', a);
  }

  // ---------------------------------------------------------------------------
  // Running a tic

  lemma ConsistStable(c: Config, game: nat, ran: seq<seq<Ticcmd>>, ran': seq<seq<Ticcmd>>, p: nat, t: int)
    requires c.ticdup >= 1 && ran <= ran' && (t - BACKUPTICS) * c.ticdup <= |ran|
    ensures ConsistAt(c, game, ran', p, t) == ConsistAt(c, game, ran, p, t)
  {
    var g := (t - BACKUPTICS) * c.ticdup;
    if 0 <= g <= |ran| { assert ran'[..g] == ran[..g]; }
  }

  /** Two nodes that have both got past game tic g agree on the first g frames. */
  lemma SamePrefix(c: Config, s: Sys, a: nat, b: nat, g: nat)
    requires Inv(c, s) && a < c.n && b < c.n && g <= |s.nodes[a].ran| && g <= |s.nodes[b].ran|
    ensures s.nodes[a].ran[..g] == s.nodes[b].ran[..g]
  {
    assert RanMade(c, s, a) && RanMade(c, s, b);
    var x, y := s.nodes[a].ran, s.nodes[b].ran;
    forall i: nat | i < g ensures x[i] == y[i] {
      forall p: nat | p < c.n ensures |x[i]| == c.n && |y[i]| == c.n && x[i][p] == y[i][p] {
        assert RanAt(c, s, a, i, p) && RanAt(c, s, b, i, p);
      }
    }
  }

  /** The tic 12 before an already built tic is behind the builder's game. */
  lemma TwelveBack(c: Config, nd: Node, t: int)
    requires c.ticdup >= 1 && t <= NetTic(c, nd) + BACKUPTICS
    ensures (t - BACKUPTICS) * c.ticdup <= |nd.ran|
  {
    NetTicTimes(c, nd);
    TimesMono(t - BACKUPTICS, NetTic(c, nd), c.ticdup);
  }

  /** What node a would compare for player p when its game tic g-th frame is 12 tics back:
      its own value there is another than the one p's node had. */
  ghost predicate Diverged(c: Config, s: Sys, a: nat, p: nat, g: int) {
    && a < |s.nodes| && p < |s.nodes| && 0 <= g <= |s.nodes[a].ran| && g <= |s.nodes[p].ran|
    && c.sim(s.nodes[a].game, p, s.nodes[a].ran[..g]) != c.sim(s.nodes[p].game, p, s.nodes[p].ran[..g])
  }

  /** The stamped and the recorded consistency values of the tic a node is about to run are
      those of 12 tics before, on p's own node and on a. */
  lemma CheckedValues(c: Config, s: Sys, a: nat, p: nat, t: int)
    requires Inv(c, s) && a < c.n && p < c.n && CanRun(c, s.nodes[a]) && t == NetTic(c, s.nodes[a])
    ensures var nd := s.nodes[a];
            && 0 <= Slot(p, t) < |nd.consist|
            && nd.consist[Slot(p, t)] == ConsistAt(c, nd.game, nd.ran, p, t)
            && nd.netcmds[Slot(p, t)].consistancy == ConsistAt(c, s.nodes[p].game, s.nodes[p].ran, p, t)
  {
    var nd := s.nodes[a];
    assert Progress(c, s, a) && Streams(c, s, a) && Consistencies(c, s, a);
    SlotInRange(c, p, t);
    assert Stream(c, s, a, p) && Consistencies(c, s, p) && Progress(c, s, p);
    assert HoldsAt(nd.netcmds, p * BACKUPTICS, s.made[p], t);
    assert Recorded(c, nd, p, t) && Stamped(c, s, p, t);
  }

  /** One check of G_Ticker: it fails if the games have diverged 12 tics back. */
  lemma CheckFails(c: Config, s: Sys, a: nat, p: nat, t: int)
    requires Inv(c, s) && a < c.n && p < c.n && CanRun(c, s.nodes[a]) && t == NetTic(c, s.nodes[a])
    ensures 0 <= Slot(p, t) < |s.nodes[a].consist|
    ensures s.nodes[a].consist[Slot(p, t)] != s.nodes[a].netcmds[Slot(p, t)].consistancy
       <==> Diverged(c, s, a, p, (t - BACKUPTICS) * c.ticdup)
  {
    CheckedValues(c, s, a, p, t);
    assert Stream(c, s, a, p) by { assert Streams(c, s, a); }
    assert Progress(c, s, p);
    TwelveBack(c, s.nodes[a], t);
    TwelveBack(c, s.nodes[p], t);
    if t >= BACKUPTICS { TimesMono(0, t - BACKUPTICS, c.ticdup); } else { TimesMono(t - BACKUPTICS, -1, c.ticdup); }
  }

  /** The checks of the tic that a is about to run fail exactly if there are any and some
      game has diverged from a's 12 tics back. */
  lemma ChecksAgree(c: Config, s: Sys, a: nat, g: int)
    requires Inv(c, s) && a < c.n && CanRun(c, s.nodes[a]) && g == (NetTic(c, s.nodes[a]) - BACKUPTICS) * c.ticdup
    ensures !Agreeing(c, s.nodes[a], NetTic(c, s.nodes[a])) <==>
      |s.nodes[a].ran| > BACKUPTICS && exists p: nat :: p < c.n && Diverged(c, s, a, p, g)
  {
    var nd, t := s.nodes[a], NetTic(c, s.nodes[a]);
    forall p: nat | p < c.n
      ensures 0 <= Slot(p, t) < |nd.consist|
      ensures nd.consist[Slot(p, t)] != nd.netcmds[Slot(p, t)].consistancy <==> Diverged(c, s, a, p, g)
    {
      CheckFails(c, s, a, p, t);
    }
  }

  /** A slot that is not of tic t keeps its content while tic t runs. */
  lemma MidElsewhere(c: Config, nd0: Node, nd: Node, t: int, j: int, p: nat, q: int)
    requires Mid(c, nd0, nd, t, j) && p < c.n && q % BACKUPTICS != t % BACKUPTICS
    ensures 0 <= Slot(p, q) < |nd.netcmds|
    ensures nd.netcmds[Slot(p, q)] == nd0.netcmds[Slot(p, q)] && nd.consist[Slot(p, q)] == nd0.consist[Slot(p, q)]
  {
    SlotInRange(c, p, q);
    forall p': nat | p' < c.n ensures Slot(p, q) != Slot(p', t) {
      if Slot(p, q) == Slot(p', t) { SlotsDiffer(p, q, p', t); }
    }
  }

  lemma RunStreams(c: Config, s: Sys, s': Sys, a: nat)
    requires Inv(c, s) && Enabled(c, s, Run(a)) && s' == Next(c, s, Run(a))
    requires Mid(c, s.nodes[a], s'.nodes[a], NetTic(c, s.nodes[a]), c.ticdup)
    requires NetTic(c, s'.nodes[a]) == NetTic(c, s.nodes[a]) + 1
    ensures Streams(c, s', a)
  {
    var nd, nd' := s.nodes[a], s'.nodes[a];
    var t := NetTic(c, nd);
    assert Streams(c, s, a);
    forall d: nat | d < c.n
      ensures Stream(c, s', a, d)
    {
      assert Stream(c, s, a, d);
      assert nd'.nettics[d] >= t + 1;
      FlowControl(c, s, a, d);
      forall q | t + 1 <= q < nd'.nettics[d]
        ensures HoldsAt(nd'.netcmds, d * BACKUPTICS, s'.made[d], q)
      {
        assert HoldsAt(nd.netcmds, d * BACKUPTICS, s.made[d], q);
        if q % BACKUPTICS == t % BACKUPTICS { SameSlot(q, t); }
        MidElsewhere(c, nd, nd', t, c.ticdup, d, q);
        assert Slot(d, q) == d * BACKUPTICS + q % BACKUPTICS;
      }
    }
  }

  lemma RunRanMade(c: Config, s: Sys, s': Sys, a: nat)
    requires Inv(c, s) && Enabled(c, s, Run(a)) && s' == Next(c, s, Run(a))
    requires Mid(c, s.nodes[a], s'.nodes[a], NetTic(c, s.nodes[a]), c.ticdup)
    ensures RanMade(c, s', a)
  {
    var nd, nd' := s.nodes[a], s'.nodes[a];
    var t := NetTic(c, nd);
    assert Streams(c, s, a) && RanMade(c, s, a);
    forall g: nat, p: nat | g < |nd'.ran| && p < c.n
      ensures |nd'.ran[g]| == c.n && RanAt(c, s', a, g, p)
    {
      if g < |nd.ran| {
        assert nd'.ran[g] == nd.ran[g];
        assert RanAt(c, s, a, g, p);
      } else {
        TicWithin(c, |nd.ran|, g - |nd.ran|);
        assert Stream(c, s, a, p);
        assert HoldsAt(nd.netcmds, p * BACKUPTICS, s.made[p], t);
        assert FrameFrom(c, nd, nd'.ran[g], t, g - |nd.ran|);
      }
    }
  }

  /** The consistency ring after tic t of nd: its slot now holds what will be compared in
      tic t + 12, the others are as they were. */
  lemma RecordedNext(c: Config, nd: Node, nd': Node, t: int, p: nat, u: int)
    requires Mid(c, nd, nd', t, c.ticdup) && p < c.n && t + 1 <= u < t + 1 + BACKUPTICS
    requires u < t + BACKUPTICS ==> Recorded(c, nd, p, u)
    ensures Recorded(c, nd', p, u)
  {
    SlotInRange(c, p, u);
    if u < t + BACKUPTICS {
      if u % BACKUPTICS == t % BACKUPTICS { SameSlot(u, t); }
      MidElsewhere(c, nd, nd', t, c.ticdup, p, u);
      TwelveBack(c, nd, u);
      ConsistStable(c, nd.game, nd.ran, nd'.ran, p, u);
    } else {
      assert u % BACKUPTICS == t % BACKUPTICS;
      assert Slot(p, u) == Slot(p, t);
      NetTicTimes(c, nd);
      assert nd'.ran[..|nd.ran|] == nd.ran;
    }
  }

  lemma RunConsistencies(c: Config, s: Sys, s': Sys, a: nat)
    requires Inv(c, s) && Enabled(c, s, Run(a)) && s' == Next(c, s, Run(a))
    requires Mid(c, s.nodes[a], s'.nodes[a], NetTic(c, s.nodes[a]), c.ticdup)
    requires NetTic(c, s'.nodes[a]) == NetTic(c, s.nodes[a]) + 1
    ensures Consistencies(c, s', a)
  {
    var nd, nd' := s.nodes[a], s'.nodes[a];
    var t := NetTic(c, nd);
    assert Progress(c, s, a) && Consistencies(c, s, a);
    forall p: nat, u: int | p < c.n && t + 1 <= u < t + 1 + BACKUPTICS
      ensures Recorded(c, nd', p, u)
    {
      if u < t + BACKUPTICS { assert Recorded(c, nd, p, u); }
      RecordedNext(c, nd, nd', t, p, u);
    }
    forall q | 0 <= q < |s'.made[a]| ensures Stamped(c, s', a, q) {
      assert Stamped(c, s, a, q);
      TwelveBack(c, nd, q);
      ConsistStable(c, nd.game, nd.ran, nd'.ran, a, q);
    }
  }

  lemma InvRunPasses(c: Config, s: Sys, a: nat)
    requires Inv(c, s) && Enabled(c, s, Run(a)) && Agreeing(c, s.nodes[a], NetTic(c, s.nodes[a]))
    ensures Inv(c, Next(c, s, Run(a)))
    ensures !RunTic(c, s.nodes[a]).desync
    ensures NetTic(c, Next(c, s, Run(a)).nodes[a]) == NetTic(c, s.nodes[a]) + 1
  {
    var s' := Next(c, s, Run(a));
    var nd, nd' := s.nodes[a], s'.nodes[a];
    assert Progress(c, s, a) && Resends(c, s, a);
    RunTicMid(c, nd);
    RunStreams(c, s, s', a);
    RunRanMade(c, s, s', a);
    RunConsistencies(c, s, s', a);
    assert Progress(c, s', a);
    forall b: nat | b < c.n ensures ResendOk(nd'.maketic, nd'.resendto[b]) {
      assert nd.resendto[b] == nd'.resendto[b];
    }
    assert Resends(c, s', a);
    Rest(c, s, s', a);
  }

  /** A network tic keeps the invariant, and ends in the consistency error exactly if its
      checks do not agree. */
  lemma InvRun(c: Config, s: Sys, a: nat)
    requires Inv(c, s) && Enabled(c, s, Run(a))
    ensures Inv(c, Next(c, s, Run(a)))
    ensures RunTic(c, s.nodes[a]).desync <==> !Agreeing(c, s.nodes[a], NetTic(c, s.nodes[a]))
    ensures !RunTic(c, s.nodes[a]).desync ==> NetTic(c, Next(c, s, Run(a)).nodes[a]) == NetTic(c, s.nodes[a]) + 1
  {
    assert Progress(c, s, a);
    if Agreeing(c, s.nodes[a], NetTic(c, s.nodes[a])) {
      InvRunPasses(c, s, a);
    } else {
      RunTicFails(c, s.nodes[a]);
      var s' := Next(c, s, Run(a));
      assert s'.nodes == s.nodes;
      forall d: nat | d < c.n && d !in s'.halted ensures Resends(c, s', d) { assert Resends(c, s, d); }
      SameButHalted(c, s, s');
    }
  }

  // ---------------------------------------------------------------------------
  // Building and sending

  /** The state in which `me` has sent its packets but not yet read its own; for the
      purposes of the invariant it counts as halted. */
  ghost function AfterSend(c: Config, s: Sys, me: nat, controls: seq<Ticcmd>): (s1: Sys)
    requires ValidConfig(c) && SysShape(c, s) && me < c.n
    ensures SysShape(c, s1)
  {
    var nd := s.nodes[me];
    s.(nodes := s.nodes[me := SendFrom(c, Build(c, nd, me, controls), me, 0).node],
       made := s.made[me := s.made[me] + Built(c, nd, me, controls)],
       wire := s.wire + Flights(c, nd, me, controls),
       halted := s.halted + {me})
  }

  lemma SentPackets(c: Config, s: Sys, me: nat, controls: seq<Ticcmd>)
    requires Inv(c, s) && Enabled(c, s, Update(me, controls))
    ensures var nd := s.nodes[me];
            var b := Build(c, nd, me, controls);
            && Local(c, b, s.made[me] + Built(c, nd, me, controls))
            && SendClosed(c, b, me, 0, SendFrom(c, b, me, 0))
            && b == nd.(localcmds := b.localcmds, maketic := b.maketic)
            && nd.maketic <= b.maketic <= nd.maketic + 5 && b.maketic > 0
            && NetTic(c, nd) <= nd.maketic
  {
    var nd := s.nodes[me];
    assert Progress(c, s, me) && Streams(c, s, me) && Resends(c, s, me);
    assert Stream(c, s, me, me);
    BuildKeeps(c, nd, me, controls, s.made[me]);
    SendFacts(c, Build(c, nd, me, controls), me, 0);
  }

  /** A resend position that can be served is within the last twelve tics, and no more than
      five beyond what has been received from the peer. */
  lemma RecentStart(maketic0: int, maketic: int, resend: int, nettic: int, received: int)
    requires ResendOk(maketic0, resend) && maketic0 <= maketic <= maketic0 + 5 && (maketic - resend) % 256 <= BACKUPTICS
    requires maketic <= nettic + 5 && 0 <= nettic <= received
    ensures 0 <= resend <= maketic <= resend + BACKUPTICS && resend <= received + 5
  {
    SendableIsRecent(maketic0, maketic, resend);
  }

  lemma ResendOkHere(c: Config, s: Sys, me: nat, i: nat)
    requires Inv(c, s) && me < c.n && me !in s.halted && i < c.n
    ensures ResendOk(s.nodes[me].maketic, s.nodes[me].resendto[i])
  {
    assert Resends(c, s, me);
  }

  lemma SendStart(c: Config, s: Sys, me: nat, i: nat, m: int)
    requires Inv(c, s) && me < c.n && me !in s.halted && i < c.n
    requires s.nodes[me].maketic <= m <= s.nodes[me].maketic + 5 && m <= NetTic(c, s.nodes[me]) + 5
    requires (m - s.nodes[me].resendto[i]) % 256 <= BACKUPTICS
    ensures var resend, received := s.nodes[me].resendto[i], s.nodes[me].nettics[i];
            0 <= resend <= m <= resend + BACKUPTICS && 0 <= received && resend <= received + 5
  {
    var t := NetTic(c, s.nodes[me]);
    assert 0 <= t <= s.nodes[me].nettics[i] by { ReceivedSoFar(c, s, me, i); }
    assert ResendOk(s.nodes[me].maketic, s.nodes[me].resendto[i]) by { ResendOkHere(c, s, me, i); }
    RecentStart(s.nodes[me].maketic, m, s.nodes[me].resendto[i], t, s.nodes[me].nettics[i]);
  }

  lemma ReceivedSoFar(c: Config, s: Sys, me: nat, i: nat)
    requires Inv(c, s) && me < c.n && i < c.n
    ensures 0 <= NetTic(c, s.nodes[me]) <= s.nodes[me].nettics[i]
  {
    assert Streams(c, s, me) && Stream(c, s, me, i);
  }

  /** The packet for node i, seen from the node `b` that has just built its commands. */
  lemma NewFlight(c: Config, s: Sys, me: nat, i: nat, nd: Node, b: Node, made: seq<Ticcmd>)
    requires Inv(c, s) && me < c.n && me !in s.halted && nd == s.nodes[me] && i < c.n
    requires Shape(c, b) && Local(c, b, made) && NumTics(b, i) <= BACKUPTICS
    requires b == nd.(localcmds := b.localcmds, maketic := b.maketic) && nd.maketic <= b.maketic <= nd.maketic + 5
    ensures var p := MakePacket(c, b, me, i);
            && Carries(Flight(me, i, b.resendto[i], b.nettics[i], p), made)
            && 0 <= b.resendto[i] && p.numtics == b.maketic - b.resendto[i]
            && b.resendto[i] <= b.nettics[i] + 5 && 0 <= b.nettics[i]
  {
    SendStart(c, s, me, i, b.maketic);
    PacketCarriesMade(c, b, me, i, made);
  }

  lemma AfterSendOwn(c: Config, s: Sys, me: nat, controls: seq<Ticcmd>)
    requires Inv(c, s) && Enabled(c, s, Update(me, controls))
    ensures var s1 := AfterSend(c, s, me, controls);
            Grows(c, s, s1, me) && Progress(c, s1, me) && Streams(c, s1, me) && RanMade(c, s1, me)
  {
    var s1 := AfterSend(c, s, me, controls);
    var nd, nd1 := s.nodes[me], s1.nodes[me];
    assert Progress(c, s, me) && Streams(c, s, me);
    SentPackets(c, s, me, controls);
    assert nd1.nettics == nd.nettics && nd1.netcmds == nd.netcmds && nd1.ran == nd.ran;
    assert Grows(c, s, s1, me);
    forall d: nat | d < c.n ensures Stream(c, s1, me, d) {
      assert Stream(c, s, me, d);
      HoldsPrefix(nd.netcmds, d * BACKUPTICS, s.made[d], s1.made[d], NetTic(c, nd), nd.nettics[d]);
    }
    RanMadeGrows(c, s, s1, me, me);
  }

  /** A command that is being built is stamped with the value recorded for its tic. */
  lemma BuiltStamped(c: Config, s: Sys, me: nat, controls: seq<Ticcmd>, i: nat)
    requires Inv(c, s) && me < c.n && i < |Built(c, s.nodes[me], me, controls)|
    ensures var nd := s.nodes[me];
            Built(c, nd, me, controls)[i].consistancy == ConsistAt(c, nd.game, nd.ran, me, nd.maketic + i)
  {
    var nd := s.nodes[me];
    BuiltConsistency(c, nd, me, controls, i);
    assert Streams(c, s, me) && Stream(c, s, me, me);
    assert Recorded(c, nd, me, nd.maketic + i) by { assert Consistencies(c, s, me); }
  }

  lemma AfterSendConsistencies(c: Config, s: Sys, me: nat, controls: seq<Ticcmd>)
    requires Inv(c, s) && Enabled(c, s, Update(me, controls))
    ensures Consistencies(c, AfterSend(c, s, me, controls), me)
  {
    var s1 := AfterSend(c, s, me, controls);
    var nd, nd1 := s.nodes[me], s1.nodes[me];
    assert |s.made[me]| == nd.maketic by { assert Progress(c, s, me); }
    assert nd1.consist == nd.consist && nd1.ran == nd.ran && nd1.game == nd.game by { SentPackets(c, s, me, controls); }
    assert Consistencies(c, s, me);
    forall p: nat, t: int | p < c.n && NetTic(c, nd1) <= t < NetTic(c, nd1) + BACKUPTICS
      ensures Recorded(c, nd1, p, t)
    {
      assert Recorded(c, nd, p, t);
    }
    forall q | 0 <= q < |s1.made[me]| ensures Stamped(c, s1, me, q) {
      if q < nd.maketic {
        assert Stamped(c, s, me, q);
      } else {
        BuiltStamped(c, s, me, controls, q - nd.maketic);
      }
    }
  }

  lemma FlightsAre(c: Config, nd: Node, me: nat, controls: seq<Ticcmd>, f: Flight)
    requires ValidConfig(c) && Shape(c, nd) && me < c.n && f in Flights(c, nd, me, controls)
    ensures var b := Build(c, nd, me, controls);
            var out := SendFrom(c, b, me, 0).packets;
            && f.src == me && f.dst != me && f.dst < |out| && f.dst < c.n
            && f == Flight(me, f.dst, b.resendto[f.dst], b.nettics[f.dst], out[f.dst])
  {
  }

  lemma FlightOkHere(c: Config, s: Sys, f: Flight)
    requires ValidConfig(c) && SysShape(c, s) && f.src < c.n && f.dst < c.n && f.src != f.dst
    requires Carries(f, s.made[f.src]) && 0 <= f.from <= s.nodes[f.src].nettics[f.dst] && f.start <= f.from + 5
    ensures FlightOk(c, s, f)
  {
  }

  lemma AfterSendFlight(c: Config, s: Sys, me: nat, controls: seq<Ticcmd>, f: Flight, made: seq<Ticcmd>)
    requires Inv(c, s) && Enabled(c, s, Update(me, controls)) && f in Flights(c, s.nodes[me], me, controls)
    requires made == s.made[me] + Built(c, s.nodes[me], me, controls)
    ensures f.src == me && f.dst < c.n && f.dst != me && Carries(f, made)
    ensures 0 <= f.from == s.nodes[me].nettics[f.dst] && f.start <= f.from + 5
  {
    var nd, b := s.nodes[me], Build(c, s.nodes[me], me, controls);
    FlightsAre(c, nd, me, controls, f);
    SentPackets(c, s, me, controls);
    assert SendFrom(c, b, me, 0).packets[f.dst - 0] == MakePacket(c, b, me, f.dst) && NumTics(b, f.dst) <= BACKUPTICS;
    NewFlight(c, s, me, f.dst, nd, b, made);
  }

  lemma AfterSendFlights(c: Config, s: Sys, me: nat, controls: seq<Ticcmd>, f: Flight)
    requires Inv(c, s) && Enabled(c, s, Update(me, controls)) && f in Flights(c, s.nodes[me], me, controls)
    ensures FlightOk(c, AfterSend(c, s, me, controls), f)
  {
    var s1 := AfterSend(c, s, me, controls);
    AfterSendFlight(c, s, me, controls, f, s1.made[me]);
    assert s1.nodes[me].nettics == s.nodes[me].nettics by { SentPackets(c, s, me, controls); }
    FlightOkHere(c, s1, f);
  }

  lemma InvAfterSend(c: Config, s: Sys, me: nat, controls: seq<Ticcmd>)
    requires Inv(c, s) && Enabled(c, s, Update(me, controls))
    ensures Inv(c, AfterSend(c, s, me, controls))
  {
    var s1 := AfterSend(c, s, me, controls);
    AfterSendOwn(c, s, me, controls);
    AfterSendConsistencies(c, s, me, controls);
    forall f | f in s1.wire && f !in s.wire ensures FlightOk(c, s1, f) {
      AfterSendFlights(c, s, me, controls, f);
    }
    Rest(c, s, s1, me);
  }

  /** Taking back the rebound packet completes the node's own stream. */
  lemma InvRebound(c: Config, s: Sys, s1: Sys, s2: Sys, me: nat, nd: Node, b: Node, sent: Node)
    requires Inv(c, s) && me < c.n && me !in s.halted && nd == s.nodes[me]
    requires Inv(c, s1) && s1.nodes[me] == sent && Shape(c, b) && Local(c, b, s1.made[me])
    requires b == nd.(localcmds := b.localcmds, maketic := b.maketic) && nd.maketic <= b.maketic <= nd.maketic + 5
    requires b.maketic > 0 && NumTics(b, me) <= BACKUPTICS
    requires sent == b.(resendto := sent.resendto)
    requires forall k: nat :: k < c.n ==> sent.resendto[k] == b.maketic - c.extratics
    requires WellFormedPacket(MakePacket(c, b, me, me))
    requires s2 == s1.(nodes := s1.nodes[me := Receive(c, sent, me, MakePacket(c, b, me, me))])
    ensures Resends(c, s2, me)
    ensures Streams(c, s2, me) && Progress(c, s2, me) && RanMade(c, s2, me) && Consistencies(c, s2, me) && Grows(c, s1, s2, me)
  {
    var p := MakePacket(c, b, me, me);
    var start := b.resendto[me];
    assert Resends(c, s, me);
    NewFlight(c, s, me, me, nd, b, s1.made[me]);
    ExpandExact(b.maketic, start);
    ReceiveStreams(c, s1, s2, me, me, p, start);
    ReceiveKeeps(c, s1, s2, me, me, p);
    var nd' := s2.nodes[me];
    assert nd'.nettics[me] == nd'.maketic == b.maketic;
    forall d: nat | d < c.n ensures ResendOk(nd'.maketic, nd'.resendto[d]) {
      assert sent.resendto[d] == b.maketic - c.extratics;
    }
  }

  lemma InvUpdate(c: Config, s: Sys, me: nat, controls: seq<Ticcmd>)
    requires Inv(c, s) && Enabled(c, s, Update(me, controls))
    ensures Inv(c, Next(c, s, Update(me, controls)))
  {
    var nd := s.nodes[me];
    var b := Build(c, nd, me, controls);
    var sent := SendFrom(c, b, me, 0);
    var s1 := AfterSend(c, s, me, controls);
    var s' := Next(c, s, Update(me, controls));
    InvAfterSend(c, s, me, controls);
    SentPackets(c, s, me, controls);
    if sent.error {
      assert s' == s1;
    } else {
      assert sent.packets[me - 0] == MakePacket(c, b, me, me);
      SentWellFormed(c, b, me, 0, me);
      var s2 := s1.(nodes := s1.nodes[me := Receive(c, s1.nodes[me], me, sent.packets[me])]);
      InvRebound(c, s, s1, s2, me, nd, b, sent.node);
      Rest(c, s1, s2, me);
      assert s' == s2.(halted := s.halted);
      forall d: nat | d < c.n && d !in s'.halted ensures Resends(c, s', d) {
        if d != me { assert Resends(c, s2, d); }
      }
      SameButHalted(c, s2, s');
    }
  }

  /** Apart from Resends, the invariant does not look at `halted`. */
  lemma SameButHalted(c: Config, s: Sys, s': Sys)
    requires Inv(c, s) && s' == s.(halted := s'.halted)
    requires forall d: nat :: d < c.n && d !in s'.halted ==> Resends(c, s', d)
    ensures Inv(c, s')
  {
    forall a: nat | a < c.n
      ensures Progress(c, s', a) && Streams(c, s', a) && RanMade(c, s', a) && Consistencies(c, s', a)
    {
      assert Progress(c, s, a) && Streams(c, s, a) && RanMade(c, s, a) && Consistencies(c, s, a);
      forall b: nat | b < c.n ensures Stream(c, s', a, b) { assert Stream(c, s, a, b); }
      forall g: nat, p: nat | g < |s.nodes[a].ran| && p < c.n ensures RanAt(c, s', a, g, p) {
        assert RanAt(c, s, a, g, p);
      }
      forall q | 0 <= q < |s'.made[a]| ensures Stamped(c, s', a, q) { assert Stamped(c, s, a, q); }
    }
    forall f | f in s'.wire ensures FlightOk(c, s', f) { assert FlightOk(c, s, f); }
  }

  lemma InvInit(c: Config, s: Sys)
    requires ValidConfig(c) && Init(c, s)
    ensures Inv(c, s)
  {
    forall a: nat | a < c.n
      ensures Progress(c, s, a) && Streams(c, s, a) && RanMade(c, s, a) && Consistencies(c, s, a) && Resends(c, s, a)
    {
      var nd := s.nodes[a];
      forall b: nat | b < c.n ensures Stream(c, s, a, b) { assert nd.nettics[b] == 0; }
      forall p: nat, t: int | p < c.n && 0 <= t < BACKUPTICS ensures Recorded(c, nd, p, t) {
        SlotInRange(c, p, t);
      }
    }
  }

  /** Every step keeps the invariant. */
  lemma InvNext(c: Config, s: Sys, step: Step)
    requires Inv(c, s) && Enabled(c, s, step)
    ensures Inv(c, Next(c, s, step))
  {
    match step
    case Update(me, controls) => InvUpdate(c, s, me, controls);
    case Deliver(f) => InvDeliver(c, s, f);
    case Run(me) => InvRun(c, s, me);
  }

  /** The invariant holds in every state of every run. */
  lemma {:induction false} InvAlways(c: Config, tr: seq<Sys>, st: seq<Step>, k: nat)
    requires IsRun(c, tr, st) && k < |tr|
    ensures Inv(c, tr[k])
  {
    if k == 0 {
      InvInit(c, tr[0]);
    } else {
      InvAlways(c, tr, st, k - 1);
      assert StepOk(c, tr, st, k - 1);
      InvNext(c, tr[k - 1], st[k - 1]);
    }
  }
}
