// d_net.c and the command part of G_Ticker as they are written: loops over the global
// arrays.  Each method is proved to do what the functions of LockstepNode say.
module LockstepNet {
  import opened LockstepNode
  import opened LockstepProofs

  /** What one call of NetUpdate meets: whether the clock has moved (newtics > 0 before
      skipping), the controls sampled for each new tic, and the packets waiting. */
  datatype Input = Input(due: bool, controls: seq<Ticcmd>, incoming: seq<(nat, Packet)>)

  const IDLE := Input(false, [], [])

  ghost predicate ValidIncoming(c: Config, incoming: seq<(nat, Packet)>) {
    forall k :: 0 <= k < |incoming| ==> incoming[k].0 < c.n && WellFormedPacket(incoming[k].1)
  }

  function ReceiveAll(c: Config, nd: Node, incoming: seq<(nat, Packet)>): (r: Node)
    requires Shape(c, nd) && ValidIncoming(c, incoming)
    ensures Shape(c, r)
    decreases |incoming|
  {
    if incoming == [] then nd
    else
      var k := |incoming| - 1;
      Receive(c, ReceiveAll(c, nd, incoming[..k]), incoming[k].0, incoming[k].1)
  }

  /** A whole call of NetUpdate. */
  function NetUpdated(c: Config, nd: Node, me: nat, input: Input): (r: Sent)
    requires ValidConfig(c) && Shape(c, nd) && me < c.n && ValidIncoming(c, input.incoming)
    ensures Shape(c, r.node)
  {
    if !input.due then Sent(ReceiveAll(c, nd, input.incoming), [], false)
    else
      var r := Update(c, nd, me, input.controls);
      if r.error then r else r.(node := ReceiveAll(c, r.node, input.incoming))
  }

  /** One thing a node can do; these are the steps the runs of LockstepSystem are made of. */
  datatype NodeStep = Listen(from: nat, p: Packet) | BuildAndSend(controls: seq<Ticcmd>) | RunOne

  /** nd' results from nd by the steps of `trace`, every tic run being allowed to run. */
  ghost predicate Does(c: Config, me: nat, nd: Node, trace: seq<NodeStep>, nd': Node)
    requires ValidConfig(c) && Shape(c, nd) && me < c.n
    decreases |trace|
  {
    if trace == [] then nd == nd'
    else
      match trace[0]
      case Listen(from, p) =>
        from < c.n && WellFormedPacket(p) && Does(c, me, Receive(c, nd, from, p), trace[1..], nd')
      case BuildAndSend(controls) =>
        !Update(c, nd, me, controls).error && Does(c, me, Update(c, nd, me, controls).node, trace[1..], nd')
      case RunOne =>
        CanRun(c, nd) && !RunTic(c, nd).desync && Does(c, me, RunTic(c, nd).node, trace[1..], nd')
  }

  lemma {:induction false} DoesThen(c: Config, me: nat, a: Node, t1: seq<NodeStep>, b: Node, t2: seq<NodeStep>, d: Node)
    requires ValidConfig(c) && Shape(c, a) && Shape(c, b) && me < c.n
    requires Does(c, me, a, t1, b) && Does(c, me, b, t2, d)
    ensures Does(c, me, a, t1 + t2, d)
    decreases |t1|
  {
    if t1 == [] {
      assert t1 + t2 == t2;
    } else {
      assert (t1 + t2)[1..] == t1[1..] + t2;
      match t1[0]
      case Listen(from, p) => DoesThen(c, me, Receive(c, a, from, p), t1[1..], b, t2, d);
      case BuildAndSend(controls) => DoesThen(c, me, Update(c, a, me, controls).node, t1[1..], b, t2, d);
      case RunOne => DoesThen(c, me, RunTic(c, a).node, t1[1..], b, t2, d);
    }
  }

  // ---------------------------------------------------------------------------
  // The steps that calls of NetUpdate and tics amount to

  function ListensTo(incoming: seq<(nat, Packet)>): seq<NodeStep> {
    seq(|incoming|, k requires 0 <= k < |incoming| => Listen(incoming[k].0, incoming[k].1))
  }

  /** One call of NetUpdate: what it builds and sends, and every packet that is waiting. */
  function StepsOf(input: Input): seq<NodeStep> {
    (if input.due then [BuildAndSend(input.controls)] else []) + ListensTo(input.incoming)
  }

  function CallSteps(inputs: seq<Input>): seq<NodeStep>
    decreases |inputs|
  {
    if inputs == [] then [] else CallSteps(inputs[..|inputs| - 1]) + StepsOf(inputs[|inputs| - 1])
  }

  function Nth(after: seq<Input>, k: nat): Input {
    if k < |after| then after[k] else IDLE
  }

  /** n tics, each with the NetUpdate after it. */
  function RunSteps(after: seq<Input>, n: nat): seq<NodeStep> {
    if n == 0 then [] else RunSteps(after, n - 1) + ([RunOne] + StepsOf(Nth(after, n - 1)))
  }

  ghost predicate ValidInputs(c: Config, inputs: seq<Input>) {
    forall k :: 0 <= k < |inputs| ==> ValidIncoming(c, inputs[k].incoming)
  }

  /** Calls of NetUpdate in a row; the first that fails ends them. */
  function Calls(c: Config, nd: Node, me: nat, inputs: seq<Input>): (r: Sent)
    requires ValidConfig(c) && Shape(c, nd) && me < c.n && ValidInputs(c, inputs)
    ensures Shape(c, r.node)
    decreases |inputs|
  {
    if inputs == [] then Sent(nd, [], false)
    else
      var r := Calls(c, nd, me, inputs[..|inputs| - 1]);
      if r.error then r else NetUpdated(c, r.node, me, inputs[|inputs| - 1])
  }

  datatype Counted = Counted(node: Node, status: Status)

  /** A tic and the NetUpdate after it. */
  function TicThen(c: Config, nd: Node, me: nat, input: Input): (r: Counted)
    requires ValidConfig(c) && Shape(c, nd) && me < c.n && ValidIncoming(c, input.incoming)
    ensures Shape(c, r.node) && r.status in {Ran, Desync, SendError}
  {
    var t := RunTic(c, nd);
    if t.desync then Counted(t.node, Desync)
    else
      var u := NetUpdated(c, t.node, me, input);
      Counted(u.node, if u.error then SendError else Ran)
  }

  /** n tics, each with the NetUpdate after it; the first error ends them. */
  function TicsRun(c: Config, nd: Node, me: nat, after: seq<Input>, n: nat): (r: Counted)
    requires ValidConfig(c) && Shape(c, nd) && me < c.n && ValidInputs(c, after)
    ensures Shape(c, r.node) && r.status in {Ran, Desync, SendError}
  {
    if n == 0 then Counted(nd, Ran)
    else
      var r := TicsRun(c, nd, me, after, n - 1);
      if r.status != Ran then r else TicThen(c, r.node, me, Nth(after, n - 1))
  }

  ghost predicate DoesOne(c: Config, me: nat, nd: Node, step: NodeStep, nd': Node)
    requires ValidConfig(c) && Shape(c, nd) && me < c.n
  {
    match step
    case Listen(from, p) => from < c.n && WellFormedPacket(p) && nd' == Receive(c, nd, from, p)
    case BuildAndSend(controls) => !Update(c, nd, me, controls).error && nd' == Update(c, nd, me, controls).node
    case RunOne => CanRun(c, nd) && RunTic(c, nd) == Ticked(nd', false)
  }

  lemma OneStep(c: Config, me: nat, nd: Node, step: NodeStep, nd': Node)
    requires ValidConfig(c) && Shape(c, nd) && me < c.n && DoesOne(c, me, nd, step, nd')
    ensures Does(c, me, nd, [step], nd')
  {
    assert [step][1..] == [];
    assert Does(c, me, nd', [], nd');
  }

  lemma {:induction false} ListensDo(c: Config, me: nat, nd: Node, incoming: seq<(nat, Packet)>)
    requires ValidConfig(c) && Shape(c, nd) && me < c.n && ValidIncoming(c, incoming)
    ensures Does(c, me, nd, ListensTo(incoming), ReceiveAll(c, nd, incoming))
    decreases |incoming|
  {
    if incoming != [] {
      var k := |incoming| - 1;
      var mid, step := ReceiveAll(c, nd, incoming[..k]), Listen(incoming[k].0, incoming[k].1);
      ListensDo(c, me, nd, incoming[..k]);
      OneStep(c, me, mid, step, ReceiveAll(c, nd, incoming));
      DoesThen(c, me, nd, ListensTo(incoming[..k]), mid, [step], ReceiveAll(c, nd, incoming));
      assert ListensTo(incoming[..k]) + [step] == ListensTo(incoming);
    }
  }

  /** A call of NetUpdate that does not fail is a sequence of node steps. */
  lemma NetUpdateDoes(c: Config, me: nat, nd: Node, input: Input)
    requires ValidConfig(c) && Shape(c, nd) && me < c.n && ValidIncoming(c, input.incoming)
    requires !NetUpdated(c, nd, me, input).error
    ensures Does(c, me, nd, StepsOf(input), NetUpdated(c, nd, me, input).node)
  {
    if !input.due {
      ListensDo(c, me, nd, input.incoming);
      assert [] + ListensTo(input.incoming) == ListensTo(input.incoming);
    } else {
      var mid, step := Update(c, nd, me, input.controls).node, BuildAndSend(input.controls);
      ListensDo(c, me, mid, input.incoming);
      OneStep(c, me, nd, step, mid);
      DoesThen(c, me, nd, [step], mid, ListensTo(input.incoming), NetUpdated(c, nd, me, input).node);
    }
  }

  /** So is any number of calls. */
  lemma {:induction false} CallsDo(c: Config, me: nat, nd: Node, inputs: seq<Input>)
    requires ValidConfig(c) && Shape(c, nd) && me < c.n && ValidInputs(c, inputs)
    requires !Calls(c, nd, me, inputs).error
    ensures Does(c, me, nd, CallSteps(inputs), Calls(c, nd, me, inputs).node)
    decreases |inputs|
  {
    if inputs != [] {
      var k := |inputs| - 1;
      var mid := Calls(c, nd, me, inputs[..k]).node;
      CallsDo(c, me, nd, inputs[..k]);
      NetUpdateDoes(c, me, mid, inputs[k]);
      DoesThen(c, me, nd, CallSteps(inputs[..k]), mid, StepsOf(inputs[k]), Calls(c, nd, me, inputs).node);
    }
  }

  /** The calls continue from where the first one led. */
  lemma {:induction false} CallsAfter(c: Config, me: nat, nd: Node, first: Input, inputs: seq<Input>)
    requires ValidConfig(c) && Shape(c, nd) && me < c.n && ValidIncoming(c, first.incoming) && ValidInputs(c, inputs)
    requires !NetUpdated(c, nd, me, first).error
    ensures ValidInputs(c, [first] + inputs)
    ensures Calls(c, nd, me, [first] + inputs).node == Calls(c, NetUpdated(c, nd, me, first).node, me, inputs).node
    ensures Calls(c, nd, me, [first] + inputs).error == Calls(c, NetUpdated(c, nd, me, first).node, me, inputs).error
    decreases |inputs|
  {
    var all := [first] + inputs;
    if inputs == [] {
      assert all == [first] && all[..0] == [];
    } else {
      var k := |inputs| - 1;
      CallsAfter(c, me, nd, first, inputs[..k]);
      assert all[..|all| - 1] == [first] + inputs[..k];
      assert all[|all| - 1] == inputs[k];
    }
  }

  /** A tic that has arrived from everybody, with the NetUpdate after it. */
  lemma TicThenDoes(c: Config, me: nat, nd: Node, input: Input)
    requires ValidConfig(c) && Shape(c, nd) && me < c.n && ValidIncoming(c, input.incoming)
    requires Arrived(nd, NetTic(c, nd) + 1) && TicThen(c, nd, me, input).status == Ran
    ensures Does(c, me, nd, [RunOne] + StepsOf(input), TicThen(c, nd, me, input).node)
  {
    var t, r := RunTic(c, nd).node, TicThen(c, nd, me, input).node;
    OneStep(c, me, nd, RunOne, t);
    NetUpdateDoes(c, me, t, input);
    DoesThen(c, me, nd, [RunOne], t, StepsOf(input), r);
  }

  /** It is the only tic that is run, and takes nothing back that has arrived. */
  lemma TicThenCounts(c: Config, me: nat, nd: Node, input: Input, want: int)
    requires ValidConfig(c) && Shape(c, nd) && me < c.n && ValidIncoming(c, input.incoming)
    requires |nd.ran| % c.ticdup == 0 && Arrived(nd, want) && TicThen(c, nd, me, input).status == Ran
    ensures var r := TicThen(c, nd, me, input).node;
            NetTic(c, r) == NetTic(c, nd) + 1 && |r.ran| % c.ticdup == 0 && Arrived(r, want)
  {
    RunTicCounts(c, nd);
    SubTicsNettics(c, nd, c.ticdup);
    NetUpdatedGrows(c, RunTic(c, nd).node, me, input);
  }

  lemma {:induction false} TicsRunCounts(c: Config, me: nat, nd: Node, after: seq<Input>, n: nat, want: int)
    requires ValidConfig(c) && Shape(c, nd) && me < c.n && ValidInputs(c, after)
    requires |nd.ran| % c.ticdup == 0 && Arrived(nd, want) && TicsRun(c, nd, me, after, n).status == Ran
    ensures var r := TicsRun(c, nd, me, after, n).node;
            NetTic(c, r) == NetTic(c, nd) + n && |r.ran| % c.ticdup == 0 && Arrived(r, want)
  {
    if n > 0 {
      TicsRunCounts(c, me, nd, after, n - 1, want);
      TicThenCounts(c, me, TicsRun(c, nd, me, after, n - 1).node, Nth(after, n - 1), want);
    }
  }

  /** Tics that have arrived from everybody, with the NetUpdates between them. */
  lemma {:induction false} TicsRunDo(c: Config, me: nat, nd: Node, after: seq<Input>, n: nat, want: int)
    requires ValidConfig(c) && Shape(c, nd) && me < c.n && ValidInputs(c, after)
    requires |nd.ran| % c.ticdup == 0 && Arrived(nd, want) && NetTic(c, nd) + n <= want
    requires TicsRun(c, nd, me, after, n).status == Ran
    ensures Does(c, me, nd, RunSteps(after, n), TicsRun(c, nd, me, after, n).node)
  {
    if n > 0 {
      var mid, input := TicsRun(c, nd, me, after, n - 1).node, Nth(after, n - 1);
      TicsRunDo(c, me, nd, after, n - 1, want);
      TicsRunCounts(c, me, nd, after, n - 1, want);
      TicThenDoes(c, me, mid, input);
      DoesThen(c, me, nd, RunSteps(after, n - 1), mid, [RunOne] + StepsOf(input), TicsRun(c, nd, me, after, n).node);
    }
  }

  /** A network tic that passes its checks is ticdup game tics. */
  lemma RunTicCounts(c: Config, nd: Node)
    requires ValidConfig(c) && Shape(c, nd) && |nd.ran| % c.ticdup == 0 && !RunTic(c, nd).desync
    ensures NetTic(c, RunTic(c, nd).node) == NetTic(c, nd) + 1 && |RunTic(c, nd).node.ran| % c.ticdup == 0
  {
    SubTicsCount(c, nd, c.ticdup);
    TicWithin(c, |nd.ran|, c.ticdup);
  }

  lemma {:induction false} SubTicsCount(c: Config, nd: Node, k: nat)
    requires Shape(c, nd) && c.ticdup >= 1 && !SubTics(c, nd, k).desync
    ensures |SubTics(c, nd, k).node.ran| == |nd.ran| + k
    decreases k
  {
    if k > 0 { SubTicsCount(c, SubTic(c, nd).node, k - 1); }
  }

  // ---------------------------------------------------------------------------
  // How many tics TryRunTics runs

  function Lowest(s: seq<int>): (r: int)
    requires s != []
    ensures r in s && forall k :: 0 <= k < |s| ==> r <= s[k]
  {
    if |s| == 1 || s[0] <= Lowest(s[1..]) then s[0] else Lowest(s[1..])
  }

  /** Everybody's commands up to tic `want` are here. */
  predicate Arrived(nd: Node, want: int) {
    forall k :: 0 <= k < |nd.nettics| ==> nd.nettics[k] >= want
  }

  /** Tics that could be run at once. */
  function Available(c: Config, nd: Node): int
    requires ValidConfig(c) && Shape(c, nd)
  {
    Lowest(nd.nettics) - NetTic(c, nd)
  }

  /** The tics to run when realtics have passed and `available` have arrived: one more than
      have passed as long as that leaves one in reserve, and never none. */
  function Wanted(realtics: int, available: int): (r: nat)
    ensures r >= 1 && (available >= 1 ==> r <= available)
  {
    var n := if realtics >= available then available
             else if realtics == available - 1 then realtics
             else realtics + 1;
    if n < 1 then 1 else n
  }

  /** Calls 0..used of the wait loop: each of them was needed. */
  ghost predicate Awaited(c: Config, nd: Node, me: nat, waits: seq<Input>, used: nat, want: int)
    requires ValidConfig(c) && Shape(c, nd) && me < c.n && ValidInputs(c, waits)
  {
    used <= |waits| && forall v :: 0 <= v < used ==> Lacking(c, nd, me, waits[..v], want)
  }

  /** How the wait ends, and where. */
  ghost predicate Waited(c: Config, nd: Node, me: nat, waits: seq<Input>, last: Input, used: nat, want: int,
                         status: Status, nd': Node)
    requires ValidConfig(c) && Shape(c, nd) && me < c.n && ValidInputs(c, waits) && ValidIncoming(c, last.incoming)
  {
    && Awaited(c, nd, me, waits, used, want)
    && var r := Calls(c, nd, me, waits[..used]);
    if r.error then status == SendError
    else if Arrived(r.node, want) then status == Ran && nd' == r.node
    else
      var u := NetUpdated(c, r.node, me, last);
      used == |waits| && status == (if u.error then SendError else TimedOut) && (!u.error ==> nd' == u.node)
  }

  /** How the wait and the tics behind it end, from where the first NetUpdate has led. */
  ghost predicate Decided(c: Config, nd: Node, me: nat, counts: nat, waits: seq<Input>, last: Input, after: seq<Input>,
                          used: nat, status: Status)
    requires ValidConfig(c) && Shape(c, nd) && me < c.n
    requires ValidInputs(c, waits) && ValidIncoming(c, last.incoming) && ValidInputs(c, after)
  {
    var want := NetTic(c, nd) + counts;
    && Awaited(c, nd, me, waits, used, want)
    && var r := Calls(c, nd, me, waits[..used]);
    if r.error then status == SendError
    else if Arrived(r.node, want) then status == TicsRun(c, r.node, me, after, counts).status
    else used == |waits| && status == if NetUpdated(c, r.node, me, last).error then SendError else TimedOut
  }

  ghost predicate Lacking(c: Config, nd: Node, me: nat, inputs: seq<Input>, want: int)
    requires ValidConfig(c) && Shape(c, nd) && me < c.n && ValidInputs(c, inputs)
  {
    !Calls(c, nd, me, inputs).error && !Arrived(Calls(c, nd, me, inputs).node, want)
  }

  lemma TicNext(g: int, d: int)
    requires g >= 0 && d >= 1
    ensures (g + 1) % d == 0 <==> g % d == d - 1
    ensures g % d != d - 1 ==> (g + 1) / d == g / d
  {
    var t, j := g / d, g % d;
    assert g == t * d + j;
    if j < d - 1 {
      TicDiv(t, d, j + 1);
    } else {
      assert g + 1 == (t + 1) * d;
      TicDiv(t + 1, d, 0);
    }
  }

  datatype Status = Ran | TimedOut | SendError | Desync | LowTicError | GameTicError

  class NetNode {
    const c: Config
    const me: nat
    const game: nat
    var maketic: int
    var gametic: int
    var ran: seq<seq<Ticcmd>>       // what G_Ticker has fed to the game; gametic of them
    const localcmds: array<Ticcmd>
    const netcmds: array<Ticcmd>     // netcmds[p][t] at p * BACKUPTICS + t
    const nettics: array<int>
    const remoteresend: array<bool>
    const resendto: array<int>
    const resendcount: array<int>
    const consistancy: array<int>

    ghost function Repr(): set<object> {
      {this, localcmds, netcmds, nettics, remoteresend, resendto, resendcount, consistancy}
    }

    ghost predicate Valid()
      reads this
    {
      && ValidConfig(c) && me < c.n && maketic >= 0 && gametic == |ran|
      && localcmds.Length == BACKUPTICS && netcmds.Length == c.n * BACKUPTICS && localcmds != netcmds
      && nettics.Length == remoteresend.Length == resendto.Length == resendcount.Length == c.n
      && consistancy.Length == c.n * BACKUPTICS
      && nettics != resendto && nettics != resendcount && nettics != consistancy
      && resendto != resendcount && resendto != consistancy && resendcount != consistancy
    }

    ghost function View(): (nd: Node)
      requires Valid()
      reads this, Repr()
      ensures Shape(c, nd)
    {
      Node(game, maketic, ran, localcmds[..], netcmds[..], nettics[..], remoteresend[..],
           resendto[..], resendcount[..], consistancy[..])
    }

    /** D_CheckNetGame: everything starts at tic 0. */
    constructor (c: Config, me: nat, game: nat)
      requires ValidConfig(c) && me < c.n
      ensures Valid() && this.c == c && this.me == me && fresh(Repr())
      ensures View().game == game && View().maketic == 0 && View().ran == []
      ensures forall k :: 0 <= k < c.n ==>
        View().nettics[k] == 0 && View().resendto[k] == 0 && !View().remoteresend[k]
      ensures forall k :: 0 <= k < c.n * BACKUPTICS ==> View().consist[k] == 0
    {
      this.c, this.me, this.game := c, me, game;
      maketic, gametic, ran := 0, 0, [];
      localcmds := new Ticcmd[BACKUPTICS](_ => EMPTY_CMD);
      netcmds := new Ticcmd[c.n * BACKUPTICS](_ => EMPTY_CMD);
      nettics := new int[c.n](_ => 0);
      remoteresend := new bool[c.n](_ => false);
      resendto := new int[c.n](_ => 0);
      resendcount := new int[c.n](_ => 0);
      consistancy := new int[c.n * BACKUPTICS](_ => 0);
    }

    /** The body of the GetPackets loop. */
    /** The check for a retransmit request. */
    method CheckRetransmit(netnode: nat, p: Packet)
      requires Valid() && netnode < c.n && WellFormedPacket(p)
      modifies resendto, resendcount
      ensures Valid() && View() == NoteRequest(old(View()), netnode, p)
    {
      if resendcount[netnode] <= 0 && p.retransmit {
        resendto[netnode] := ExpandTics(maketic, p.retransmitfrom);
        resendcount[netnode] := RESENDCOUNT;
      } else {
        resendcount[netnode] := resendcount[netnode] - 1;
      }
    }

    method HandlePacket(netnode: nat, p: Packet)
      requires Valid() && netnode < c.n && WellFormedPacket(p)
      modifies netcmds, nettics, remoteresend, resendto, resendcount
      ensures Valid() && View() == Receive(c, old(View()), netnode, p)
    {
      var realstart := ExpandTics(maketic, p.starttic);
      var realend := realstart + p.numtics;
      ghost var nd1 := NoteRequest(View(), netnode, p);
      CheckRetransmit(netnode, p);
      if realend <= nettics[netnode] { return; }
      if realstart > nettics[netnode] {
        remoteresend[netnode] := true;
        return;
      }
      remoteresend[netnode] := false;
      ghost var lo := nettics[netnode];
      ghost var all := StoreTics(nd1.netcmds, netnode, lo, realend, realstart, p.cmds);
      while nettics[netnode] < realend
        invariant lo <= nettics[netnode] <= realend
        invariant StoreTics(netcmds[..], netnode, nettics[netnode], realend, realstart, p.cmds) == all
        invariant View() == nd1.(remoteresend := nd1.remoteresend[netnode := false],
                                 netcmds := netcmds[..], nettics := nd1.nettics[netnode := nettics[netnode]])
      {
        var t := nettics[netnode];
        netcmds[Slot(netnode, t)] := p.cmds[t - realstart];
        nettics[netnode] := t + 1;
      }
    }

    method GetPackets(incoming: seq<(nat, Packet)>)
      requires Valid() && ValidIncoming(c, incoming)
      modifies netcmds, nettics, remoteresend, resendto, resendcount
      ensures Valid() && View() == ReceiveAll(c, old(View()), incoming)
    {
      var k := 0;
      while k < |incoming|
        invariant 0 <= k <= |incoming|
        invariant View() == ReceiveAll(c, old(View()), incoming[..k])
      {
        HandlePacket(incoming[k].0, incoming[k].1);
        assert incoming[..k + 1][..k] == incoming[..k];
        k := k + 1;
      }
      assert incoming[..k] == incoming;
    }

    /** The building loop of NetUpdate. */
    method BuildTics(controls: seq<Ticcmd>)
      requires Valid()
      modifies this`maketic, localcmds
      ensures Valid() && View() == Build(c, old(View()), me, controls)
    {
      var gameticdiv := gametic / c.ticdup;
      var i := 0;
      while i < |controls|
        invariant 0 <= i <= |controls| && maketic >= 0
        invariant View() == old(View()).(maketic := maketic, localcmds := localcmds[..])
        invariant Build(c, View(), me, controls[i..]) == Build(c, old(View()), me, controls)
      {
        if maketic - gameticdiv >= BACKUPTICS / 2 - 1 { break; }
        SlotInRange(c, me, maketic);
        localcmds[maketic % BACKUPTICS] := controls[i].(consistancy := consistancy[Slot(me, maketic)]);
        maketic := maketic + 1;
        assert controls[i..][1..] == controls[i + 1..];
        i := i + 1;
      }
    }

    /** The sending loop of NetUpdate. */
    method SendPackets() returns (packets: seq<Packet>, error: bool)
      requires Valid()
      modifies resendto
      ensures Valid()
      ensures Sent(View(), packets, error) == SendFrom(c, old(View()), me, 0)
    {
      packets, error := [], false;
      var i := 0;
      while i < c.n
        invariant 0 <= i <= c.n && |packets| == i
        invariant View() == old(View()).(resendto := resendto[..])
        invariant Prepended(packets, SendFrom(c, View(), me, i)) == SendFrom(c, old(View()), me, 0)
      {
        SendStep(c, View(), me, i, packets);
        var p;
        p, error := SendTo(i);
        if error { return; }
        packets := packets + [p];
        i := i + 1;
      }
      assert packets + [] == packets;
    }

    /** The packet to one node, or I_Error. */
    method SendTo(i: nat) returns (p: Packet, error: bool)
      requires Valid() && i < c.n
      modifies resendto
      ensures Valid() && error == (NumTics(old(View()), i) > BACKUPTICS)
      ensures error ==> View() == old(View())
      ensures !error ==> p == MakePacket(c, old(View()), me, i) && View() == MarkSent(c, old(View()), i)
    {
      var realstart := resendto[i];
      var numtics := (maketic - realstart) % 256;
      p := Packet(remoteresend[i], if remoteresend[i] then nettics[i] % 256 else 0, realstart % 256,
                  me, numtics, CopyLocal(realstart, numtics));
      error := numtics > BACKUPTICS;
      if !error { resendto[i] := maketic - c.extratics; }
    }

    /** The commands realstart .. realstart + numtics of the local ring. */
    function CopyLocal(realstart: int, numtics: nat): seq<Ticcmd>
      requires localcmds.Length == BACKUPTICS
      reads this, localcmds
    {
      seq(numtics, j requires 0 <= j && localcmds.Length == BACKUPTICS reads this, localcmds => localcmds[(realstart + j) % BACKUPTICS])
    }

    method NetUpdate(input: Input) returns (sent: seq<Packet>, error: bool)
      requires Valid() && ValidIncoming(c, input.incoming)
      modifies this`maketic, localcmds, netcmds, nettics, remoteresend, resendto, resendcount
      ensures Valid() && Sent(View(), sent, error) == NetUpdated(c, old(View()), me, input)
    {
      sent, error := [], false;
      if input.due {
        BuildTics(input.controls);
        ghost var b := View();
        sent, error := SendPackets();
        if error { return; }
        SentWellFormed(c, b, me, 0, me);
        HandlePacket(me, sent[me]);          // the rebound packet
      }
      GetPackets(input.incoming);
    }

    /** The command and consistency part of G_Ticker. */
    method Ticker() returns (desync: bool)
      requires Valid()
      modifies this`ran, this`gametic, consistancy
      ensures Valid() && desync == SubTic(c, old(View())).desync
      ensures !desync ==>
        View() == old(View()).(ran := old(ran) + [Frame(c, old(View()))], consist := RecordFrom(c, old(View()), c.n))
    {
      ghost var nd := View();
      var buf := gametic / c.ticdup;
      var frame: seq<Ticcmd> := [];
      var i := 0;
      while i < c.n
        invariant 0 <= i <= c.n && |frame| == i && gametic == old(gametic) && ran == old(ran)
        invariant frame == Frame(c, nd)[..i]
        invariant View() == nd.(consist := RecordFrom(c, nd, i))
        invariant forall p: nat :: p < i ==> Consistent(c, nd, p)
      {
        SlotInRange(c, i, buf);
        var cmd := netcmds[Slot(i, buf)];
        frame := frame + [cmd];
        if gametic % c.ticdup == 0 {
          RecordAt(c, nd, i, Slot(i, buf));
          assert nd.consist[Slot(i, buf)] == consistancy[Slot(i, buf)];
          if gametic > BACKUPTICS && consistancy[Slot(i, buf)] != cmd.consistancy {
            assert !Consistent(c, nd, i);
            return true;
          }
          consistancy[Slot(i, buf)] := c.sim(game, i, ran);
        }
        assert Consistent(c, nd, i);
        i := i + 1;
      }
      assert frame == Frame(c, nd);
      ran := ran + [frame];
      gametic := gametic + 1;
      desync := false;
    }

    /** The rewriting of the current tic's commands before it is run again. */
    method DuplicateCommands()
      requires Valid()
      modifies netcmds
      ensures Valid()
      ensures View() == old(View()).(netcmds := DuplicateFrom(c, old(View()).netcmds, NetTic(c, old(View())), c.n))
    {
      var buf := gametic / c.ticdup;
      var j := 0;
      while j < c.n
        invariant 0 <= j <= c.n
        invariant View() == old(View()).(netcmds := DuplicateFrom(c, old(View()).netcmds, buf, j))
      {
        SlotInRange(c, j, buf);
        var cmd := netcmds[Slot(j, buf)];
        netcmds[Slot(j, buf)] := cmd.(chatchar := 0, buttons := if cmd.buttons / BT_SPECIAL % 2 == 1 then 0 else cmd.buttons);
        j := j + 1;
      }
    }

    /** Game tic i of the current network tic. */
    method GameTic(i: int) returns (desync: bool)
      requires Valid() && 0 <= i < c.ticdup && gametic % c.ticdup == i
      modifies this`ran, this`gametic, consistancy, netcmds
      ensures Valid() && desync == SubTic(c, old(View())).desync
      ensures !desync ==> View() == SubTic(c, old(View())).node && gametic == old(gametic) + 1
    {
      ghost var nd := View();
      desync := Ticker();
      if desync { return; }
      TicNext(gametic - 1, c.ticdup);
      if i != c.ticdup - 1 { DuplicateCommands(); }
    }

    /** One round of the counts loop of TryRunTics. */
    method RunNetTic(lowtic: int) returns (status: Status)
      requires Valid() && gametic % c.ticdup == 0 && gametic / c.ticdup < lowtic
      modifies this`ran, this`gametic, consistancy, netcmds
      ensures Valid() && status in {Ran, Desync}
      ensures (status == Desync) == RunTic(c, old(View())).desync
      ensures status == Ran ==> View() == RunTic(c, old(View())).node
      ensures status == Ran ==> gametic % c.ticdup == 0 && gametic / c.ticdup == old(gametic) / c.ticdup + 1
    {
      ghost var nd := View();
      var i := 0;
      while i < c.ticdup
        invariant 0 <= i <= c.ticdup && Valid()
        invariant gametic == old(gametic) + i
        invariant SubTics(c, View(), c.ticdup - i) == RunTic(c, nd)
      {
        TicWithin(c, old(gametic), i);
        if gametic / c.ticdup > lowtic { return GameTicError; }
        var bad := GameTic(i);
        if bad { return Desync; }
        i := i + 1;
      }
      TicWithin(c, old(gametic), c.ticdup);
      status := Ran;
    }

    /** The minimum over the nodes, as TryRunTics computes it. */
    method LowTic() returns (lowtic: int)
      requires Valid()
      ensures lowtic == Lowest(nettics[..])
    {
      lowtic := nettics[0];
      var i := 1;
      while i < c.n
        invariant 1 <= i <= c.n
        invariant forall k :: 0 <= k < i ==> lowtic <= nettics[k]
        invariant exists k :: 0 <= k < i && lowtic == nettics[k]
      {
        if nettics[i] < lowtic { lowtic := nettics[i]; }
        i := i + 1;
      }
    }

    /** The wait loop of TryRunTics: `waits` are the NetUpdate calls that return within 20 tics
        and `last` is the one after them, behind which the loop is left in any case. */
    method WaitForTics(want: int, lowtic0: int, waits: seq<Input>, last: Input)
      returns (status: Status, lowtic: int, ghost used: nat)
      requires Valid() && lowtic0 == Lowest(nettics[..]) && lowtic0 >= gametic / c.ticdup
      requires ValidInputs(c, waits) && ValidIncoming(c, last.incoming)
      modifies this`maketic, localcmds, netcmds, nettics, remoteresend, resendto, resendcount
      ensures Valid() && gametic == old(gametic)
      ensures Waited(c, old(View()), me, waits, last, used, want, status, View())
      ensures status == Ran ==> lowtic == Lowest(nettics[..])
    {
      ghost var nd0 := View();
      lowtic, used := lowtic0, 0;
      var w := 0;
      while lowtic < want
        invariant 0 <= w == used <= |waits| && Valid() && gametic == old(gametic)
        invariant !Calls(c, nd0, me, waits[..w]).error && View() == Calls(c, nd0, me, waits[..w]).node
        invariant lowtic == Lowest(nettics[..]) && lowtic >= gametic / c.ticdup
        invariant Awaited(c, nd0, me, waits, w, want)
        decreases |waits| - w
      {
        ghost var nd := View();
        var input := if w < |waits| then waits[w] else last;
        var sent, error := NetUpdate(input);
        StillLacking(c, nd0, me, waits, w, want, nd);
        if error {
          used := if w < |waits| then w + 1 else w;
          return SendError, lowtic, used;
        }
        NetUpdatedGrows(c, nd, me, input);
        lowtic := LowTic();
        if lowtic < gametic / c.ticdup { return LowTicError, lowtic, used; }
        if w == |waits| { return TimedOut, lowtic, used; }
        w, used := w + 1, used + 1;
      }
      status := Ran;
    }

    /** One round of the counts loop with the NetUpdate after it. */
    method RunAndUpdate(lowtic: int, input: Input) returns (status: Status)
      requires Valid() && gametic % c.ticdup == 0 && gametic / c.ticdup < lowtic && ValidIncoming(c, input.incoming)
      modifies this`maketic, this`gametic, this`ran
      modifies localcmds, netcmds, nettics, remoteresend, resendto, resendcount, consistancy
      ensures Valid() && status == TicThen(c, old(View()), me, input).status
      ensures status == Ran ==> View() == TicThen(c, old(View()), me, input).node
      ensures status == Ran ==> gametic % c.ticdup == 0 && gametic / c.ticdup == old(gametic) / c.ticdup + 1
    {
      status := RunNetTic(lowtic);
      if status != Ran { return; }
      var sent, error := NetUpdate(input);
      status := if error then SendError else Ran;
    }

    /** The counts loop of TryRunTics. */
    method RunCounts(counts: nat, lowtic: int, after: seq<Input>) returns (status: Status)
      requires Valid() && gametic % c.ticdup == 0 && lowtic >= gametic / c.ticdup + counts && ValidInputs(c, after)
      modifies this`maketic, this`gametic, this`ran
      modifies localcmds, netcmds, nettics, remoteresend, resendto, resendcount, consistancy
      ensures Valid() && status == TicsRun(c, old(View()), me, after, counts).status
      ensures status == Ran ==> View() == TicsRun(c, old(View()), me, after, counts).node
    {
      ghost var nd0 := View();
      var k := 0;
      while k < counts
        invariant 0 <= k <= counts && Valid()
        invariant gametic % c.ticdup == 0 && gametic / c.ticdup == old(gametic) / c.ticdup + k
        invariant TicsRun(c, nd0, me, after, k) == Counted(View(), Ran)
      {
        status := RunAndUpdate(lowtic, if k < |after| then after[k] else IDLE);
        if status != Ran {
          TicsRunStops(c, nd0, me, after, k + 1, counts);
          return;
        }
        k := k + 1;
      }
      status := Ran;
    }

    /** TryRunTics once it is decided how many tics to run. */
    method WaitAndRun(counts: nat, lowtic0: int, waits: seq<Input>, last: Input, after: seq<Input>)
      returns (status: Status, ghost used: nat)
      requires Valid() && gametic % c.ticdup == 0 && lowtic0 == Lowest(nettics[..]) && lowtic0 >= gametic / c.ticdup
      requires ValidInputs(c, waits) && ValidIncoming(c, last.incoming) && ValidInputs(c, after)
      modifies this`maketic, this`gametic, this`ran
      modifies localcmds, netcmds, nettics, remoteresend, resendto, resendcount, consistancy
      ensures Valid() && Decided(c, old(View()), me, counts, waits, last, after, used, status)
      ensures var r := Calls(c, old(View()), me, waits[..used]);
              status == Ran ==>
                && !r.error && |r.node.ran| == old(gametic) && Arrived(r.node, old(gametic) / c.ticdup + counts)
                && TicsRun(c, r.node, me, after, counts) == Counted(View(), Ran)
      ensures status == TimedOut ==>
        && !Calls(c, old(View()), me, waits).error && !NetUpdated(c, Calls(c, old(View()), me, waits).node, me, last).error
        && gametic == old(gametic) && View() == NetUpdated(c, Calls(c, old(View()), me, waits).node, me, last).node
    {
      var lowtic;
      ghost var nd := View();
      status, lowtic, used := WaitForTics(gametic / c.ticdup + counts, lowtic0, waits, last);
      DecidedBy(c, nd, me, counts, waits, last, after, used, status, View());
      if status == Ran { status := RunCounts(counts, lowtic, after); }
    }

    /** TryRunTics behind its first NetUpdate. */
    method RunFrom(realtics: int, waits: seq<Input>, last: Input, after: seq<Input>)
      returns (status: Status, tics: nat, ghost used: nat)
      requires Valid() && gametic % c.ticdup == 0 && Arrived(View(), gametic / c.ticdup)
      requires ValidInputs(c, waits) && ValidIncoming(c, last.incoming) && ValidInputs(c, after)
      modifies this`maketic, this`gametic, this`ran
      modifies localcmds, netcmds, nettics, remoteresend, resendto, resendcount, consistancy
      ensures Valid() && used <= |waits|
      ensures Decided(c, old(View()), me, Wanted(realtics, Available(c, old(View()))), waits, last, after, used, status)
      ensures Available(c, old(View())) >= 1 ==> used == 0 && status != TimedOut
      ensures tics == if status == Ran then Wanted(realtics, Available(c, old(View()))) else 0
      ensures var r := Calls(c, old(View()), me, waits[..used]);
              status == Ran ==>
                && !r.error && |r.node.ran| == old(gametic) && Arrived(r.node, old(gametic) / c.ticdup + tics)
                && TicsRun(c, r.node, me, after, tics) == Counted(View(), Ran)
      ensures status == TimedOut ==>
        && !Calls(c, old(View()), me, waits).error && !NetUpdated(c, Calls(c, old(View()), me, waits).node, me, last).error
        && gametic == old(gametic) && View() == NetUpdated(c, Calls(c, old(View()), me, waits).node, me, last).node
    {
      ghost var nd := View();
      var lowtic, counts := TicsToRun(realtics);
      status, used := WaitAndRun(counts, lowtic, waits, last, after);
      if Available(c, nd) >= 1 { NoWait(c, nd, me, realtics, waits, used); }
      tics := if status == Ran then counts else 0;
    }

    /** TryRunTics.  `waits` and `last` are the NetUpdate calls of the wait loop, `after` those
        between the tics that are run. */
    method TryRunTics(realtics: int, first: Input, waits: seq<Input>, last: Input, after: seq<Input>)
      returns (status: Status, tics: nat, ghost used: nat, ghost steps: seq<NodeStep>)
      requires Valid() && gametic % c.ticdup == 0
      requires Arrived(View(), gametic / c.ticdup)
      requires ValidIncoming(c, first.incoming) && ValidInputs(c, waits) && ValidIncoming(c, last.incoming) && ValidInputs(c, after)
      modifies this`maketic, this`gametic, this`ran
      modifies localcmds, netcmds, nettics, remoteresend, resendto, resendcount, consistancy
      ensures Valid()
      // neither of TryRunTics's own errors can occur
      ensures status != LowTicError && status != GameTicError
      // it waits exactly until the wanted tics have arrived from everybody
      ensures var u := NetUpdated(c, old(View()), me, first);
              if u.error then status == SendError
              else Decided(c, u.node, me, Wanted(realtics, Available(c, u.node)), waits, last, after, used, status)
      // and not at all when a tic was there to begin with
      ensures Available(c, NetUpdated(c, old(View()), me, first).node) >= 1 ==> used == 0 && status != TimedOut
      // what it does
      ensures status == Ran ==> tics == Wanted(realtics, Available(c, NetUpdated(c, old(View()), me, first).node))
      ensures status != Ran ==> tics == 0
      ensures Performed(c, me, old(View()), first, waits, last, after, used, status, tics, steps, View())
    {
      ghost var nd0 := View();
      tics, used, steps := 0, 0, [];
      var sent, error := NetUpdate(first);
      if error { return SendError, 0, 0, []; }
      NetUpdatedGrows(c, nd0, me, first);
      status, tics, used := RunFrom(realtics, waits, last, after);
      steps := StepsDone(c, me, nd0, first, waits, last, after, used, status, tics, View());
    }

    /** "Decide how many tics to run." */
    method TicsToRun(realtics: int) returns (lowtic: int, counts: nat)
      requires Valid()
      ensures lowtic == Lowest(nettics[..]) && counts == Wanted(realtics, Available(c, View()))
    {
      lowtic := LowTic();
      var available := lowtic - gametic / c.ticdup;
      var n := if realtics < available - 1 then realtics + 1
               else if realtics < available then realtics else available;
      counts := if n < 1 then 1 else n;
    }
  }

  lemma DecidedBy(c: Config, nd: Node, me: nat, counts: nat, waits: seq<Input>, last: Input, after: seq<Input>,
                  used: nat, status: Status, nd': Node)
    requires ValidConfig(c) && Shape(c, nd) && me < c.n
    requires ValidInputs(c, waits) && ValidIncoming(c, last.incoming) && ValidInputs(c, after)
    requires Waited(c, nd, me, waits, last, used, NetTic(c, nd) + counts, status, nd')
    ensures status != Ran ==> Decided(c, nd, me, counts, waits, last, after, used, status)
    ensures status == Ran ==>
      && used <= |waits| && nd' == Calls(c, nd, me, waits[..used]).node && !Calls(c, nd, me, waits[..used]).error
      && Arrived(nd', NetTic(c, nd) + counts)
      && Decided(c, nd, me, counts, waits, last, after, used, TicsRun(c, nd', me, after, counts).status)
    ensures status == TimedOut ==>
      && !Calls(c, nd, me, waits).error && !NetUpdated(c, Calls(c, nd, me, waits).node, me, last).error
      && nd' == NetUpdated(c, Calls(c, nd, me, waits).node, me, last).node
  {
    assert waits[..|waits|] == waits;
  }

  /** One more call of the wait loop. */
  lemma StillLacking(c: Config, nd0: Node, me: nat, waits: seq<Input>, w: nat, want: int, nd: Node)
    requires ValidConfig(c) && Shape(c, nd0) && me < c.n && ValidInputs(c, waits) && w <= |waits|
    requires Awaited(c, nd0, me, waits, w, want) && !Arrived(nd, want)
    requires !Calls(c, nd0, me, waits[..w]).error && Calls(c, nd0, me, waits[..w]).node == nd
    ensures w < |waits| ==> Awaited(c, nd0, me, waits, w + 1, want)
    ensures w < |waits| ==> Calls(c, nd0, me, waits[..w + 1]) == NetUpdated(c, nd, me, waits[w])
  {
    assert Lacking(c, nd0, me, waits[..w], want);
    if w < |waits| { assert waits[..w + 1][..w] == waits[..w]; }
  }

  /** If a tic is there to begin with, the wanted ones are. */
  lemma NoWait(c: Config, nd: Node, me: nat, realtics: int, waits: seq<Input>, used: nat)
    requires ValidConfig(c) && Shape(c, nd) && me < c.n && ValidInputs(c, waits) && Available(c, nd) >= 1
    ensures Arrived(nd, NetTic(c, nd) + Wanted(realtics, Available(c, nd)))
    ensures Awaited(c, nd, me, waits, used, NetTic(c, nd) + Wanted(realtics, Available(c, nd))) ==> used == 0
  {
    assert waits[..0] == [] && Calls(c, nd, me, []) == Sent(nd, [], false);
    assert !Lacking(c, nd, me, waits[..0], NetTic(c, nd) + Wanted(realtics, Available(c, nd)));
  }

  /** Once an error has ended the tics, asking for more changes nothing. */
  lemma {:induction false} TicsRunStops(c: Config, nd: Node, me: nat, after: seq<Input>, k: nat, n: nat)
    requires ValidConfig(c) && Shape(c, nd) && me < c.n && ValidInputs(c, after)
    requires k <= n && TicsRun(c, nd, me, after, k).status != Ran
    ensures TicsRun(c, nd, me, after, n) == TicsRun(c, nd, me, after, k)
  {
    if k < n { TicsRunStops(c, nd, me, after, k, n - 1); }
  }

  /** The steps of a call that is given up. */
  lemma TimeOutDoes(c: Config, me: nat, nd: Node, first: Input, waits: seq<Input>, last: Input)
    requires ValidConfig(c) && Shape(c, nd) && me < c.n
    requires ValidIncoming(c, first.incoming) && ValidInputs(c, waits) && ValidIncoming(c, last.incoming)
    requires !NetUpdated(c, nd, me, first).error
    requires !Calls(c, NetUpdated(c, nd, me, first).node, me, waits).error
    requires !NetUpdated(c, Calls(c, NetUpdated(c, nd, me, first).node, me, waits).node, me, last).error
    ensures var r := Calls(c, NetUpdated(c, nd, me, first).node, me, waits);
            Does(c, me, nd, CallSteps([first] + waits + [last]), NetUpdated(c, r.node, me, last).node)
  {
    CallsAfter(c, me, nd, first, waits);
    var all := [first] + waits + [last];
    assert all[..|all| - 1] == [first] + waits;
    CallsDo(c, me, nd, all);
  }

  /** The steps of a call that runs tics. */
  lemma TicsDo(c: Config, me: nat, nd: Node, first: Input, waits: seq<Input>, after: seq<Input>, n: nat, r: Node)
    requires ValidConfig(c) && Shape(c, nd) && me < c.n
    requires ValidIncoming(c, first.incoming) && ValidInputs(c, waits) && ValidInputs(c, after)
    requires !NetUpdated(c, nd, me, first).error
    requires Calls(c, NetUpdated(c, nd, me, first).node, me, waits).node == r
    requires !Calls(c, NetUpdated(c, nd, me, first).node, me, waits).error
    requires |r.ran| % c.ticdup == 0 && Arrived(r, NetTic(c, r) + n) && TicsRun(c, r, me, after, n).status == Ran
    ensures var nd' := TicsRun(c, r, me, after, n).node;
            && Does(c, me, nd, CallSteps([first] + waits) + RunSteps(after, n), nd')
            && NetTic(c, nd') == NetTic(c, r) + n && |nd'.ran| % c.ticdup == 0
  {
    CallsAfter(c, me, nd, first, waits);
    CallsDo(c, me, nd, [first] + waits);
    TicsRunDo(c, me, r, after, n, NetTic(c, r) + n);
    TicsRunCounts(c, me, r, after, n, NetTic(c, r) + n);
    DoesThen(c, me, nd, CallSteps([first] + waits), r, RunSteps(after, n), TicsRun(c, r, me, after, n).node);
  }

  /** What a call of TryRunTics has done: all that the NetUpdate calls it made were given, in
      order, and exactly the tics it reports, every one of which had arrived from everybody. */
  ghost predicate Performed(c: Config, me: nat, nd: Node, first: Input, waits: seq<Input>, last: Input, after: seq<Input>,
                            used: nat, status: Status, tics: nat, steps: seq<NodeStep>, nd': Node)
    requires ValidConfig(c) && Shape(c, nd) && me < c.n
  {
    && (status == Ran ==>
          && used <= |waits| && steps == CallSteps([first] + waits[..used]) + RunSteps(after, tics)
          && Does(c, me, nd, steps, nd') && |nd'.ran| % c.ticdup == 0 && NetTic(c, nd') == NetTic(c, nd) + tics)
    && (status == TimedOut ==>
          steps == CallSteps([first] + waits + [last]) && Does(c, me, nd, steps, nd') && |nd'.ran| == |nd.ran|)
  }

  lemma StepsDone(c: Config, me: nat, nd: Node, first: Input, waits: seq<Input>, last: Input, after: seq<Input>,
                  used: nat, status: Status, tics: nat, nd': Node) returns (steps: seq<NodeStep>)
    requires ValidConfig(c) && Shape(c, nd) && me < c.n && |nd.ran| % c.ticdup == 0
    requires ValidIncoming(c, first.incoming) && ValidInputs(c, waits) && ValidIncoming(c, last.incoming) && ValidInputs(c, after)
    requires !NetUpdated(c, nd, me, first).error && used <= |waits|
    requires var nd1 := NetUpdated(c, nd, me, first).node;
             var r := Calls(c, nd1, me, waits[..used]);
             status == Ran ==>
               && !r.error && |r.node.ran| == |nd.ran| && Arrived(r.node, NetTic(c, nd) + tics)
               && TicsRun(c, r.node, me, after, tics) == Counted(nd', Ran)
    requires var nd1 := NetUpdated(c, nd, me, first).node;
             status == TimedOut ==>
               && !Calls(c, nd1, me, waits).error && !NetUpdated(c, Calls(c, nd1, me, waits).node, me, last).error
               && |nd'.ran| == |nd.ran| && nd' == NetUpdated(c, Calls(c, nd1, me, waits).node, me, last).node
    ensures Performed(c, me, nd, first, waits, last, after, used, status, tics, steps, nd')
  {
    if status == Ran {
      TicsDo(c, me, nd, first, waits[..used], after, tics, Calls(c, NetUpdated(c, nd, me, first).node, me, waits[..used]).node);
      steps := CallSteps([first] + waits[..used]) + RunSteps(after, tics);
    } else {
      if status == TimedOut { TimeOutDoes(c, me, nd, first, waits, last); }
      steps := CallSteps([first] + waits + [last]);
    }
  }

  lemma {:induction false} SubTicsNettics(c: Config, nd: Node, k: nat)
    requires Shape(c, nd) && c.ticdup >= 1
    ensures SubTics(c, nd, k).node.nettics == nd.nettics
    decreases k
  {
    if k > 0 && !SubTic(c, nd).desync { SubTicsNettics(c, SubTic(c, nd).node, k - 1); }
  }

  lemma {:induction false} ReceiveAllGrows(c: Config, nd: Node, incoming: seq<(nat, Packet)>, i: nat)
    requires Shape(c, nd) && ValidIncoming(c, incoming) && i < c.n
    ensures ReceiveAll(c, nd, incoming).nettics[i] >= nd.nettics[i] && ReceiveAll(c, nd, incoming).ran == nd.ran
    decreases |incoming|
  {
    if incoming != [] { ReceiveAllGrows(c, nd, incoming[..|incoming| - 1], i); }
  }

  lemma {:induction false} BuildNettics(c: Config, nd: Node, me: nat, controls: seq<Ticcmd>)
    requires ValidConfig(c) && Shape(c, nd) && me < c.n
    ensures Build(c, nd, me, controls).nettics == nd.nettics && Build(c, nd, me, controls).ran == nd.ran
    decreases |controls|
  {
    if controls != [] && CanBuild(c, nd) { BuildNettics(c, BuildOne(c, nd, me, controls[0]), me, controls[1..]); }
  }

  /** NetUpdate never takes a stream back. */
  lemma NetUpdatedGrows(c: Config, nd: Node, me: nat, input: Input)
    requires ValidConfig(c) && Shape(c, nd) && me < c.n && ValidIncoming(c, input.incoming)
    requires !NetUpdated(c, nd, me, input).error
    ensures forall i: nat :: i < c.n ==> NetUpdated(c, nd, me, input).node.nettics[i] >= nd.nettics[i]
    ensures NetUpdated(c, nd, me, input).node.ran == nd.ran
  {
    forall i: nat | i < c.n
      ensures NetUpdated(c, nd, me, input).node.nettics[i] >= nd.nettics[i] && NetUpdated(c, nd, me, input).node.ran == nd.ran
    {
      if input.due {
        BuildNettics(c, nd, me, input.controls);
        SendFacts(c, Build(c, nd, me, input.controls), me, 0);
        ReceiveAllGrows(c, Update(c, nd, me, input.controls).node, input.incoming, i);
      } else {
        ReceiveAllGrows(c, nd, input.incoming, i);
      }
    }
  }

  function Prepended(packets: seq<Packet>, r: Sent): Sent {
    Sent(r.node, packets + r.packets, r.error)
  }

  lemma SendStep(c: Config, nd: Node, me: nat, i: nat, packets: seq<Packet>)
    requires Shape(c, nd) && i < c.n
    ensures Prepended(packets, SendFrom(c, nd, me, i)) ==
      if NumTics(nd, i) > BACKUPTICS then Sent(nd, packets, true)
      else Prepended(packets + [MakePacket(c, nd, me, i)], SendFrom(c, MarkSent(c, nd, i), me, i + 1))
  {
    if NumTics(nd, i) > BACKUPTICS {
      assert packets + [] == packets;
    } else {
      var p, rest := MakePacket(c, nd, me, i), SendFrom(c, MarkSent(c, nd, i), me, i + 1).packets;
      assert packets + ([p] + rest) == (packets + [p]) + rest;
    }
  }
}
