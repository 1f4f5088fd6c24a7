// What a node does in a call of TryRunTics is a stretch of a run of the whole system.
module LockstepTrace {
  import opened LockstepNode
  import opened LockstepSystem
  import opened LockstepInvariant
  import opened LockstepNet

  /** st is the step of the system that corresponds to a step of node me. */
  predicate Corresponds(me: nat, step: NodeStep, st: Step) {
    match step
    case Listen(from, p) => st.Deliver? && st.f.src == from && st.f.dst == me && st.f.data == p
    case BuildAndSend(controls) => st == Step.Update(me, controls)
    case RunOne => st == Run(me)
  }

  /** From s on the steps st are possible, and are the ones of the trace. */
  ghost predicate Follows(c: Config, s: Sys, me: nat, trace: seq<NodeStep>, st: seq<Step>)
    decreases |trace|
  {
    && ValidConfig(c) && SysShape(c, s) && |trace| == |st|
    && (trace != [] ==>
          && Corresponds(me, trace[0], st[0]) && Enabled(c, s, st[0])
          && Follows(c, Next(c, s, st[0]), me, trace[1..], st[1..]))
  }

  /** One step of the node is one of the system, and no error. */
  lemma StepInSystem(c: Config, s: Sys, me: nat, trace: seq<NodeStep>, st: Step, nd: Node)
    requires ValidConfig(c) && SysShape(c, s) && me < c.n && trace != []
    requires Corresponds(me, trace[0], st) && Enabled(c, s, st) && Does(c, me, s.nodes[me], trace, nd)
    ensures var s' := Next(c, s, st); s'.halted == s.halted && Does(c, me, s'.nodes[me], trace[1..], nd)
  {
  }

  lemma {:induction false} TraceInSystem(c: Config, s: Sys, me: nat, trace: seq<NodeStep>, st: seq<Step>, nd: Node)
    returns (tr: seq<Sys>)
    requires Inv(c, s) && me < c.n && Follows(c, s, me, trace, st) && Does(c, me, s.nodes[me], trace, nd)
    ensures |tr| == |st| + 1 && tr[0] == s && forall m :: 0 <= m < |st| ==> StepOk(c, tr, st, m)
    ensures Inv(c, tr[|st|]) && tr[|st|].nodes[me] == nd && tr[|st|].halted == s.halted
    decreases |trace|
  {
    if trace == [] {
      tr := [s];
    } else {
      var s' := Next(c, s, st[0]);
      StepInSystem(c, s, me, trace, st[0], nd);
      InvNext(c, s, st[0]);
      var rest := TraceInSystem(c, s', me, trace[1..], st[1..], nd);
      tr := [s] + rest;
      FromHere(c, s, st, rest);
    }
  }

  lemma FromHere(c: Config, s: Sys, st: seq<Step>, rest: seq<Sys>)
    requires ValidConfig(c) && SysShape(c, s) && st != [] && Enabled(c, s, st[0])
    requires |rest| == |st| && rest[0] == Next(c, s, st[0]) && forall m :: 0 <= m < |st| - 1 ==> StepOk(c, rest, st[1..], m)
    ensures forall m :: 0 <= m < |st| ==> StepOk(c, [s] + rest, st, m)
  {
    forall m | 0 <= m < |st| ensures StepOk(c, [s] + rest, st, m) {
      if m > 0 { assert StepOk(c, rest, st[1..], m - 1); }
    }
  }
}
