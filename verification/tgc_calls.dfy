// Calls of C library functions: the arguments are evaluated from left to right, and their
// values are passed in that order.
module TgcCalls {
  import opened TgcMachine
  import opened TgcLanguage
  import opened TgcExpressions

  function RenderArgs(args: seq<Ex>): seq<Token> {
    if args == [] then [] else RenderEx(args[0], 0) + RenderArgs(args[1..])
  }

  function RenderCall(f: string, args: seq<Ex>): seq<Token> {
    [TId(f), TLParen] + (RenderArgs(args) + [TRParen])
  }

  function Values(args: seq<Ex>, env: map<string, int>): seq<int> {
    seq(|args|, i requires 0 <= i < |args| => Eval(args[i], env))
  }

  function AllFaults(args: seq<Ex>, env: map<string, int>): seq<Event> {
    if args == [] then [] else Faults(args[0], env) + AllFaults(args[1..], env)
  }

  /** Arguments that can be told apart without commas, which the lexer drops: every one but
      the first begins with a number or a name. */
  predicate GoodArgs(args: seq<Ex>) {
    && (forall i :: 0 <= i < |args| ==> GoodEx(args[i]))
    && (forall i :: 1 <= i < |args| ==> BeginsArg(RenderEx(args[i], 0)[0]))
  }

  lemma GoodRest(args: seq<Ex>)
    requires GoodArgs(args) && args != []
    ensures GoodArgs(args[1..])
  {
  }

  lemma ArgParts(p: Prog, pos: nat, args: seq<Ex>)
    requires args != [] && Starts(p, pos, RenderArgs(args))
    ensures var n := |RenderEx(args[0], 0)|;
            && Starts(p, pos, RenderEx(args[0], 0)) && Starts(p, pos + n, RenderArgs(args[1..]))
            && |RenderArgs(args)| == n + |RenderArgs(args[1..])|
    ensures At(p, pos) == RenderEx(args[0], 0)[0]
  {
    SplitAs(p, pos, RenderArgs(args), RenderEx(args[0], 0), RenderArgs(args[1..]));
    TokensAt(p, pos, RenderEx(args[0], 0), 0);
  }

  lemma FirstArg(p: Prog, pos: nat, args: seq<Ex>)
    requires args != [] && GoodArgs(args) && Starts(p, pos, RenderArgs(args)) && At(p, pos + |RenderArgs(args)|) == TRParen
    ensures var n := |RenderEx(args[0], 0)|;
            && Starts(p, pos, RenderEx(args[0], 0)) && Starts(p, pos + n, RenderArgs(args[1..]))
            && |RenderArgs(args)| == n + |RenderArgs(args[1..])|
            && (if |args| == 1 then At(p, pos + n) == TRParen else BeginsArg(At(p, pos + n)))
  {
    ArgParts(p, pos, args);
    if |args| > 1 {
      assert BeginsArg(RenderEx(args[1], 0)[0]);
      ArgParts(p, pos + |RenderEx(args[0], 0)|, args[1..]);
    } else {
      assert RenderArgs(args[1..]) == [];
    }
  }

  lemma ValuesCons(args: seq<Ex>, env: map<string, int>, before: seq<int>)
    requires args != []
    ensures before + Values(args, env) == (before + [Eval(args[0], env)]) + Values(args[1..], env)
  {
  }

  /** r is where the argument loop is left, and what it has collected. */
  ghost predicate Collected(st: St, r: (St, seq<int>), before: seq<int>, args: seq<Ex>, env: map<string, int>, n: nat) {
    && r.0.pos == st.pos + n && r.1 == before + Values(args, env)
    && r.0.out == st.out + AllFaults(args, env) && r.0.rv == st.rv && Agree(r.0.vars, env)
  }

  lemma OneArg(p: Prog, st: St, args: seq<Ex>, env: map<string, int>)
    requires args != [] && GoodArgs(args) && Agree(st.vars, env)
    requires Starts(p, st.pos, RenderArgs(args)) && At(p, st.pos + |RenderArgs(args)|) == TRParen
    ensures Evaluated(st, Expr(p, st), args[0], env, |RenderEx(args[0], 0)|)
  {
    FirstArg(p, st.pos, args);
    ExprEvaluates(p, st, args[0], env);
  }

  lemma CollectedMore(st: St, e: Val, r: (St, seq<int>), before: seq<int>, args: seq<Ex>, env: map<string, int>, k: nat, n: nat)
    requires args != [] && Evaluated(st, e, args[0], env, k)
    requires Collected(e.st, r, before + [e.v], args[1..], env, n)
    ensures Collected(st, r, before, args, env, k + n)
  {
    ValuesCons(args, env, before);
    assert (st.out + Faults(args[0], env)) + AllFaults(args[1..], env) == st.out + (Faults(args[0], env) + AllFaults(args[1..], env));
  }

  lemma ArgsNext(p: Prog, st: St, e: Val, before: seq<int>)
    requires e == Expr(p, st)
    ensures EndsArgs(At(p, e.st.pos)) ==> Args(p, st, before) == (e.st, before + [e.v])
    ensures BeginsArg(At(p, e.st.pos)) ==> Args(p, st, before) == Args(p, e.st, before + [e.v])
  {
  }

  lemma {:induction false} ArgsEvaluate(p: Prog, st: St, args: seq<Ex>, env: map<string, int>, before: seq<int>)
    requires args != [] && GoodArgs(args) && Agree(st.vars, env)
    requires Starts(p, st.pos, RenderArgs(args)) && At(p, st.pos + |RenderArgs(args)|) == TRParen
    ensures Collected(st, Args(p, st, before), before, args, env, |RenderArgs(args)|)
    decreases |args|
  {
    var e := Expr(p, st);
    FirstArg(p, st.pos, args);
    OneArg(p, st, args, env);
    ArgsNext(p, st, e, before);
    if |args| == 1 {
      assert Collected(e.st, (e.st, before + [e.v]), before + [e.v], args[1..], env, 0);
      CollectedMore(st, e, (e.st, before + [e.v]), before, args, env, |RenderEx(args[0], 0)|, 0);
    } else {
      GoodRest(args);
      ArgsEvaluate(p, e.st, args[1..], env, before + [e.v]);
      CollectedMore(st, e, Args(p, e.st, before + [e.v]), before, args, env, |RenderEx(args[0], 0)|, |RenderArgs(args[1..])|);
    }
  }

  lemma CallParts(p: Prog, pos: nat, f: string, args: seq<Ex>)
    requires Starts(p, pos, RenderCall(f, args))
    ensures At(p, pos) == TId(f) && At(p, pos + 1) == TLParen && Starts(p, pos + 2, RenderArgs(args))
    ensures At(p, pos + 2 + |RenderArgs(args)|) == TRParen && |RenderCall(f, args)| == 3 + |RenderArgs(args)|
  {
    Framed(p, pos, RenderCall(f, args), [TId(f), TLParen], RenderArgs(args), [TRParen]);
    TokensAt(p, pos, [TId(f), TLParen], 0);
    TokensAt(p, pos, [TId(f), TLParen], 1);
    One(p, pos + 2 + |RenderArgs(args)|, TRParen);
  }

  lemma CalledWith(p: Prog, st: St, f: string, a: (St, seq<int>))
    requires At(p, st.pos) == TId(f) && At(p, st.pos + 1) == TLParen && At(p, st.pos + 2) != TRParen
    requires a == Args(p, st.(pos := st.pos + 2), []) && At(p, a.0.pos) == TRParen
    ensures Factor(p, st) == Val(Skip1(a.0), p.builtin(Take31(f), a.1))
  {
  }

  lemma CalledBare(p: Prog, st: St, f: string)
    requires At(p, st.pos) == TId(f) && At(p, st.pos + 1) == TLParen && At(p, st.pos + 2) == TRParen
    ensures Factor(p, st) == Val(st.(pos := st.pos + 3), p.builtin(Take31(f), []))
  {
  }

  lemma FirstToken(p: Prog, pos: nat, args: seq<Ex>)
    requires args != [] && GoodArgs(args) && Starts(p, pos, RenderArgs(args)) && At(p, pos + |RenderArgs(args)|) == TRParen
    ensures At(p, pos) != TRParen
  {
    FirstArg(p, pos, args);
    TokensAt(p, pos, RenderEx(args[0], 0), 0);
    FirstOf(args[0], 0);
  }

  lemma {:induction false} FirstOf(e: Ex, level: nat)
    ensures RenderEx(e, level)[0] != TRParen
    decreases e
  {
    if e.Bin? {
      FirstOf(e.l, LeftLevel(e.op));
      BinaryTokens(e, level);
    }
  }

  /** A call of up to eight arguments is left behind its closing parenthesis, with the answer
      to their values in order and the faults of evaluating them. */
  lemma CallEvaluates(p: Prog, st: St, f: string, args: seq<Ex>, env: map<string, int>)
    requires |args| <= 8 && GoodArgs(args) && Starts(p, st.pos, RenderCall(f, args)) && Agree(st.vars, env)
    ensures var r := Factor(p, st);
            && r.v == p.builtin(Take31(f), Values(args, env)) && r.st.pos == st.pos + |RenderCall(f, args)|
            && r.st.out == st.out + AllFaults(args, env) && r.st.rv == st.rv && Agree(r.st.vars, env)
  {
    CallParts(p, st.pos, f, args);
    if args == [] {
      assert Values(args, env) == [] && st.out + [] == st.out;
      CalledBare(p, st, f);
    } else {
      var st1 := st.(pos := st.pos + 2);
      FirstToken(p, st1.pos, args);
      ArgsEvaluate(p, st1, args, env, []);
      CalledWith(p, st, f, Args(p, st1, []));
      assert [] + Values(args, env) == Values(args, env);
    }
  }
}
