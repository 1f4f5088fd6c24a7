// The interpreter is correct on every program of the language, except behind an if-else
// whose first branch was taken; what happens there is stated exactly.
module TgcTheorems {
  import opened TgcMachine
  import opened TgcLanguage
  import opened TgcExpressions
  import opened TgcStatements
  import opened TgcSimulation

  const START := Mem(map[], [], 0)

  function Program(body: seq<Cmd>, builtin: (string, seq<int>) -> int): Prog {
    Prog(RenderProgram(body), builtin)
  }

  lemma MainFound(p: Prog)
    requires Starts(p, 0, [TInt, TId("main"), TLParen, TRParen, TLBrace]) && |p.tokens| > 5
    ensures Entry(p) == 5
  {
    var head := [TInt, TId("main"), TLParen, TRParen, TLBrace];
    TokensAt(p, 0, head, 0);
    TokensAt(p, 0, head, 1);
    TokensAt(p, 0, head, 2);
    TokensAt(p, 0, head, 3);
    TokensAt(p, 0, head, 4);
    assert FindMain(p, 1) == 1;
    assert FindMain(p, 0) == 1;
  }

  lemma ProgramStarts(body: seq<Cmd>, p: Prog)
    requires p.tokens == RenderProgram(body)
    ensures Starts(p, 0, RenderProgram(body))
  {
    forall i | 0 <= i < |p.tokens| ensures TokenIs(p, 0, p.tokens, i) { }
  }

  lemma ProgramParts(body: seq<Cmd>, p: Prog)
    requires p.tokens == RenderProgram(body)
    ensures Entry(p) == 5 && Starts(p, 5, RenderBody(body)) && At(p, 5 + |RenderBody(body)|) == TRBrace
    ensures At(p, 6 + |RenderBody(body)|) == TEof
  {
    var head, tail := [TInt, TId("main"), TLParen, TRParen, TLBrace], [TRBrace, TEof];
    ProgramStarts(body, p);
    Framed(p, 0, RenderProgram(body), head, RenderBody(body), tail);
    TokensAt(p, 5 + |RenderBody(body)|, tail, 0);
    TokensAt(p, 5 + |RenderBody(body)|, tail, 1);
    MainFound(p);
  }

  lemma StartRepresents()
    ensures Represents(St(5, [], [], 0), START)
  {
    forall x: string ensures AgreeAt([], map[], x) { }
  }

  lemma ResultUnique(p: Prog, st: St, g: nat, k: nat)
    requires Body(g, p, st).Done? && Body(k, p, st).Done?
    ensures Body(k, p, st) == Body(g, p, st)
  {
    if k <= g { BodyMono(k, g - k, p, st); } else { BodyMono(g, k - g, p, st); }
  }

  lemma ProgramRuns(f: nat, body: seq<Cmd>, p: Prog) returns (g: nat)
    requires GoodBody(body) && ExecBody(f, body, START).Fine? && CleanBody(f, body, START)
    requires p.tokens == RenderProgram(body)
    ensures var o := ExecBody(f, body, START);
            Run(g, p).Done? && Run(g, p).returned == o.returned && Represents(Run(g, p).st, o.m)
  {
    ProgramParts(body, p);
    StartRepresents();
    var st0 := St(5, [], [], 0);
    var st';
    st', g := BodyRuns(f, p, st0, body, START);
    UpToBrace(p, st0, |RenderBody(body)|, st', g, ExecBody(f, body, START));
  }

  /** The run r has the outcome o: the same variables, output, return value and way out. */
  ghost predicate Matches(r: Flow, o: Outcome) {
    && r.Done? && o.Fine? && r.returned == o.returned && r.st.out == o.m.out && r.st.rv == o.m.rv
    && (forall x: string :: |x| <= 31 ==> Lookup(r.st.vars, x) == Get(o.m.env, x))
  }

  lemma Matching(r: Flow, o: Outcome)
    requires r.Done? && o.Fine? && r.returned == o.returned && Represents(r.st, o.m)
    ensures Matches(r, o)
  {
    forall x: string | |x| <= 31 ensures Lookup(r.st.vars, x) == Get(o.m.env, x) {
      assert AgreeAt(r.st.vars, o.m.env, x);
    }
  }

  /** Interpreter correctness.  If a program's big-step execution terminates, so does the
      driver on its token rendering, with the same variables, output and exit code; and no
      amount of further fuel changes that. */
  lemma InterpreterCorrect(f: nat, body: seq<Cmd>, builtin: (string, seq<int>) -> int) returns (g: nat)
    requires GoodBody(body) && ExecBody(f, body, START).Fine? && CleanBody(f, body, START)
    ensures Matches(Run(g, Program(body, builtin)), ExecBody(f, body, START))
    ensures forall k: nat :: Run(k, Program(body, builtin)).Done? ==>
      Run(k, Program(body, builtin)) == Run(g, Program(body, builtin))
  {
    var p := Program(body, builtin);
    g := ProgramRuns(f, body, p);
    Matching(Run(g, p), ExecBody(f, body, START));
    forall k: nat | Run(k, p).Done? ensures Run(k, p) == Run(g, p) {
      ResultUnique(p, St(Entry(p), [], [], 0), g, k);
    }
  }

  /** In particular for every program without else. */
  lemma InterpreterCorrectWithoutElse(f: nat, body: seq<Cmd>, builtin: (string, seq<int>) -> int) returns (g: nat)
    requires GoodBody(body) && NoElseBody(body) && ExecBody(f, body, START).Fine?
    ensures Matches(Run(g, Program(body, builtin)), ExecBody(f, body, START))
  {
    NoElseBodyIsClean(f, body, START);
    g := InterpreterCorrect(f, body, builtin);
  }

  /** A body that has run up to the end of the tokens. */
  lemma UpToEnd(p: Prog, st: St, n: nat, st': St, g: nat, o: Outcome)
    requires Runs(p, st, n, st', g, o) && At(p, st.pos + n) == TEof
    ensures Body(g, p, st) == Done(st', o.returned)
  {
    if !o.returned { assert Ends(0, p, st') && Body(0 + g, p, st) == Body(0, p, st'); }
  }

  /** The driver starts at the first token exactly if nothing is called main. */
  lemma EntryExact(p: Prog)
    ensures Entry(p) == 0 <==> forall k :: 0 <= k < |p.tokens| ==> p.tokens[k] != TId("main")
  {
  }

  lemma ScriptRuns(f: nat, body: seq<Cmd>, p: Prog, o: Outcome) returns (g: nat)
    requires GoodBody(body) && o == ExecBody(f, body, START) && o.Fine? && CleanBody(f, body, START)
    requires Starts(p, 0, RenderBody(body)) && At(p, |RenderBody(body)|) == TEof && Entry(p) == 0
    ensures Run(g, p).Done? && Run(g, p).returned == o.returned && Represents(Run(g, p).st, o.m)
  {
    StartRepresents();
    var st0, st' := St(0, [], [], 0), St(0, [], [], 0);
    st', g := BodyRuns(f, p, st0, body, START);
    UpToEnd(p, st0, |RenderBody(body)|, st', g, o);
  }

  /** A file without main is run from its beginning, as a list of statements. */
  lemma ScriptCorrect(f: nat, body: seq<Cmd>, p: Prog) returns (g: nat)
    requires GoodBody(body) && ExecBody(f, body, START).Fine? && CleanBody(f, body, START)
    requires p.tokens == RenderBody(body) + [TEof]
    requires forall k :: 0 <= k < |p.tokens| ==> p.tokens[k] != TId("main")
    ensures Matches(Run(g, p), ExecBody(f, body, START))
  {
    EntryExact(p);
    forall i | 0 <= i < |p.tokens| ensures TokenIs(p, 0, p.tokens, i) { }
    SplitAs(p, 0, p.tokens, RenderBody(body), [TEof]);
    One(p, |RenderBody(body)|, TEof);
    g := ScriptRuns(f, body, p, ExecBody(f, body, START));
    Matching(Run(g, p), ExecBody(f, body, START));
  }

  // ---------------------------------------------------------------------------
  // else after a taken branch

  lemma TakenElseLands(p: Prog, st: St, g: nat, b: Flow, q: nat)
    requires Condition(p, Skip1(st)).v != 0 && b == Braced(g, p, Condition(p, Skip1(st)).st)
    requires b.Done? && !b.returned && b.st.pos == q
    requires At(p, q) == TId("else") && At(p, q + 1) == TLBrace
    ensures IfStmt(g, p, st) == Done(b.st.(pos := SkipTo(p, q + 1, 0)), false)
  {
  }

  /** The skip that is entered in front of the second branch. */
  lemma ElseSkip(p: Prog, pos: nat, s: Cmd)
    requires s.IfElse? && Starts(p, pos, Render(s))
    ensures SkipTo(p, ThenEnd(s, pos) + 1, 0) == SkipTo(p, pos + |Render(s)|, 0)
  {
    IfElseParts(p, pos, s);
    var q := ThenEnd(s, pos);
    BodyPasses(p, q + 2, s.other);
    BracesPass(p, q + 1, |RenderBody(s.other)|);
  }

  lemma TakenBranch(f: nat, p: Prog, st: St, s: Cmd, m: Mem, o: Outcome) returns (g: nat, b: Flow)
    requires s.IfElse? && Good(s) && Starts(p, st.pos, Render(s)) && Represents(st, m) && Eval(s.c, m.env) != 0
    requires o == ExecBody(f, s.body, After(s.c, m)) && o.Fine? && !o.returned && CleanBody(f, s.body, After(s.c, m))
    ensures Condition(p, Skip1(st)).v != 0 && b == Braced(g, p, Condition(p, Skip1(st)).st)
    ensures b.Done? && !b.returned && b.st.pos == ThenEnd(s, st.pos) && Represents(b.st, o.m)
    ensures At(p, ThenEnd(s, st.pos)) == TId("else") && At(p, ThenEnd(s, st.pos) + 1) == TLBrace
  {
    IfElseParts(p, st.pos, s);
    var c;
    g, c := TakenBranchRuns(f, p, Skip1(st), s.c, s.body, m, o);
    b := Braced(g, p, c.st);
  }

  /** A taken first branch with an else behind it: the skip runs on to the end of the
      enclosing block. */
  lemma TakenElse(f: nat, p: Prog, st: St, s: Cmd, m: Mem) returns (g: nat)
    requires s.IfElse? && Good(s) && Starts(p, st.pos, Render(s)) && Represents(st, m) && Eval(s.c, m.env) != 0
    requires ExecBody(f, s.body, After(s.c, m)).Fine? && !ExecBody(f, s.body, After(s.c, m)).returned
    requires CleanBody(f, s.body, After(s.c, m))
    ensures var r := IfStmt(g, p, st);
            && r.Done? && !r.returned && Represents(r.st, ExecBody(f, s.body, After(s.c, m)).m)
            && r.st.pos == SkipTo(p, st.pos + |Render(s)|, 0)
  {
    var o, q := ExecBody(f, s.body, After(s.c, m)), ThenEnd(s, st.pos);
    var b;
    g, b := TakenBranch(f, p, st, s, m, o);
    ElseSkip(p, st.pos, s);
    TakenElseLands(p, st, g, b, q);
  }

  /** Exactly when an if-else that goes through is left at its end: if its condition was
      false, or nothing at all follows it. */
  lemma IfElseExact(f: nat, p: Prog, st: St, s: Cmd, m: Mem) returns (g: nat)
    requires s.IfElse? && Good(s) && Starts(p, st.pos, Render(s)) && Represents(st, m)
    requires Exec(f, s, m).Fine? && !Exec(f, s, m).returned
    requires CleanBody(f, if Eval(s.c, m.env) != 0 then s.body else s.other, After(s.c, m))
    ensures var r := IfStmt(g, p, st);
            && r.Done? && !r.returned && Represents(r.st, Exec(f, s, m).m)
            && (r.st.pos == st.pos + |Render(s)| <==>
                  Eval(s.c, m.env) == 0 || At(p, st.pos + |Render(s)|) == TEof)
  {
    Chosen(f, s, m);
    if Eval(s.c, m.env) != 0 {
      g := TakenElse(f, p, st, s, m);
      SkipMoves(p, st.pos + |Render(s)|);
    } else {
      g := OtherRuns(f, p, st, s, m);
    }
  }

  lemma Chosen(f: nat, s: Cmd, m: Mem)
    requires s.IfElse?
    ensures Exec(f, s, m) == ExecBody(f, if Eval(s.c, m.env) != 0 then s.body else s.other, After(s.c, m))
  {
  }

  lemma SkipMoves(p: Prog, pos: nat)
    ensures SkipTo(p, pos, 0) == pos <==> At(p, pos) == TEof
  {
  }

  lemma OneStatementBody(p: Prog, st: St, g: nat)
    requires At(p, st.pos) == TIf && IfStmt(g, p, st).Done? && !IfStmt(g, p, st).returned
    requires At(p, IfStmt(g, p, st).st.pos) == TEof
    ensures Body(g + 2, p, st) == IfStmt(g, p, st)
  {
    assert Stmt(g + 1, p, st) == IfStmt(g, p, st);
  }

  lemma {:induction false} RenderAppend(a: seq<Cmd>, b: seq<Cmd>)
    ensures RenderBody(a + b) == RenderBody(a) + RenderBody(b)
  {
    if a == [] {
      assert a + b == b;
    } else {
      RenderAppend(a[1..], b);
      FirstRendered(a);
      FirstRendered(a + b);
      assert (a + b)[1..] == a[1..] + b;
      Regrouped(Render(a[0]), RenderBody(a[1..]), RenderBody(b));
    }
  }

  lemma Regrouped(h: seq<Token>, t: seq<Token>, u: seq<Token>)
    ensures h + (t + u) == (h + t) + u
  {
  }

  lemma FirstRendered(body: seq<Cmd>)
    requires body != []
    ensures RenderBody(body) == Render(body[0]) + RenderBody(body[1..])
  {
  }

  /** Where the rest of a body starts behind the statements pre. */
  lemma Behind(p: Prog, pos: nat, pre: seq<Cmd>, rest: seq<Cmd>)
    requires Starts(p, pos, RenderBody(pre + rest))
    ensures Starts(p, pos, RenderBody(pre)) && Starts(p, pos + |RenderBody(pre)|, RenderBody(rest))
    ensures |RenderBody(pre + rest)| == |RenderBody(pre)| + |RenderBody(rest)|
  {
    RenderAppend(pre, rest);
    SplitAs(p, pos, RenderBody(pre + rest), RenderBody(pre), RenderBody(rest));
  }

  lemma SkipToEnd(p: Prog, pos: nat, s: Cmd, rest: seq<Cmd>)
    requires Starts(p, pos, RenderBody([s] + rest))
    requires At(p, pos + |RenderBody([s] + rest)|) == TRBrace && At(p, pos + 1 + |RenderBody([s] + rest)|) == TEof
    ensures Starts(p, pos, Render(s)) && At(p, SkipTo(p, pos + |Render(s)|, 0)) == TEof
  {
    var body := [s] + rest;
    assert body[0] == s && body[1..] == rest;
    BodyParts(p, pos, body);
    SkipPastBody(p, pos + |Render(s)|, rest);
  }

  lemma TakenElseEndsBody(f: nat, p: Prog, st: St, s: Cmd, m: Mem, o: Outcome) returns (g: nat)
    requires s.IfElse? && Good(s) && Eval(s.c, m.env) != 0 && Represents(st, m)
    requires Starts(p, st.pos, Render(s)) && At(p, SkipTo(p, st.pos + |Render(s)|, 0)) == TEof
    requires o == ExecBody(f, s.body, After(s.c, m)) && o.Fine? && !o.returned && CleanBody(f, s.body, After(s.c, m))
    ensures Body(g, p, st).Done? && Represents(Body(g, p, st).st, o.m)
  {
    var g0 := TakenElse(f, p, st, s, m);
    assert At(p, st.pos) == TIf by { IfElseParts(p, st.pos, s); }
    OneStatementBody(p, st, g0);
    g := g0 + 2;
  }

  /** The statement s of main behind the statements pre. */
  lemma MainReady(p: Prog, pre: seq<Cmd>, s: Cmd, rest: seq<Cmd>)
    requires p.tokens == RenderProgram(pre + ([s] + rest))
    ensures Entry(p) == 5 && Starts(p, 5, RenderBody(pre))
    ensures Starts(p, 5 + |RenderBody(pre)|, Render(s))
    ensures At(p, SkipTo(p, 5 + |RenderBody(pre)| + |Render(s)|, 0)) == TEof
  {
    ProgramParts(pre + ([s] + rest), p);
    Behind(p, 5, pre, [s] + rest);
    SkipToEnd(p, 5 + |RenderBody(pre)|, s, rest);
  }

  /** What precedes s is not followed by an else. */
  lemma PrefixReady(p: Prog, pre: seq<Cmd>, s: Cmd, rest: seq<Cmd>)
    requires p.tokens == RenderProgram(pre + ([s] + rest)) && s.IfElse?
    ensures Entry(p) == 5 && Starts(p, 5, RenderBody(pre)) && NotElse(p, 5 + |RenderBody(pre)|)
  {
    MainReady(p, pre, s, rest);
    IfElseParts(p, 5 + |RenderBody(pre)|, s);
  }

  lemma PrefixRuns(f: nat, p: Prog, pre: seq<Cmd>, s: Cmd, rest: seq<Cmd>, o: Outcome) returns (st': St, g: nat)
    requires p.tokens == RenderProgram(pre + ([s] + rest)) && GoodBody(pre) && s.IfElse?
    requires ExecBody(f, pre, START) == o && o.Fine? && CleanBody(f, pre, START)
    ensures Runs(p, St(Entry(p), [], [], 0), |RenderBody(pre)|, st', g, o)
    ensures Represents(st', o.m) && (!o.returned ==> st'.pos == 5 + |RenderBody(pre)|)
  {
    PrefixReady(p, pre, s, rest);
    StartRepresents();
    st', g := BodyRuns(f, p, St(5, [], [], 0), pre, START);
  }

  lemma RunsOn(p: Prog, n: nat, st': St, g1: nat, o: Outcome, g2: nat, r: Flow)
    requires Runs(p, St(Entry(p), [], [], 0), n, st', g1, o) && !o.returned && Body(g2, p, st') == r && r.Done?
    ensures Run(g2 + g1, p) == r
  {
    assert Ends(g2, p, st');
  }

  lemma LastRuns(f: nat, p: Prog, st: St, pre: seq<Cmd>, s: Cmd, rest: seq<Cmd>, m: Mem, o: Outcome) returns (g: nat, r: Flow)
    requires p.tokens == RenderProgram(pre + ([s] + rest)) && st.pos == 5 + |RenderBody(pre)| && Represents(st, m)
    requires s.IfElse? && Good(s) && Eval(s.c, m.env) != 0
    requires o == ExecBody(f, s.body, After(s.c, m)) && o.Fine? && !o.returned && CleanBody(f, s.body, After(s.c, m))
    ensures r == Body(g, p, st) && r.Done? && Represents(r.st, o.m)
  {
    MainReady(p, pre, s, rest);
    g := TakenElseEndsBody(f, p, st, s, m, o);
    r := Body(g, p, st);
  }

  /** In main, nothing behind an if-else whose first branch goes through is executed: the
      run ends with what that branch left. */
  lemma TakenElseEndsMain(f: nat, p: Prog, pre: seq<Cmd>, s: Cmd, rest: seq<Cmd>, m: Mem, o: Outcome) returns (g: nat)
    requires p.tokens == RenderProgram(pre + ([s] + rest)) && GoodBody(pre)
    requires ExecBody(f, pre, START) == Fine(m, false) && CleanBody(f, pre, START)
    requires s.IfElse? && Good(s) && Eval(s.c, m.env) != 0
    requires o == ExecBody(f, s.body, After(s.c, m)) && o.Fine? && !o.returned && CleanBody(f, s.body, After(s.c, m))
    ensures Run(g, p).Done? && Represents(Run(g, p).st, o.m)
  {
    var st', g1 := PrefixRuns(f, p, pre, s, rest, Fine(m, false));
    var g2, r := LastRuns(f, p, st', pre, s, rest, m, o);
    RunsOn(p, |RenderBody(pre)|, st', g1, Fine(m, false), g2, r);
    g := g2 + g1;
  }

  /** int main() { if (1) { } else { } print(7); }  means printing 7, and prints nothing. */
  lemma ElseLosesTheRest(builtin: (string, seq<int>) -> int) returns (body: seq<Cmd>, g: nat)
    ensures body == [IfElse(Lit(1), [], []), Print(Lit(7))] && GoodBody(body)
    ensures ExecBody(0, body, START) == Fine(Mem(map[], [Number(7)], 0), false)
    ensures Run(g, Program(body, builtin)).Done? && Run(g, Program(body, builtin)).st.out == []
  {
    var s, rest := IfElse(Lit(1), [], []), [Print(Lit(7))];
    body := [s] + rest;
    PrintsSeven(s, rest);
    WellFormed(body);
    g := NothingPrinted(Program(body, builtin), s, rest);
  }

  lemma WellFormed(body: seq<Cmd>)
    requires body == [IfElse(Lit(1), [], []), Print(Lit(7))]
    ensures GoodBody(body)
  {
  }

  lemma NothingPrinted(p: Prog, s: Cmd, rest: seq<Cmd>) returns (g: nat)
    requires p.tokens == RenderProgram([s] + rest) && s == IfElse(Lit(1), [], [])
    ensures Run(g, p).Done? && Run(g, p).st.out == []
  {
    assert [] + ([s] + rest) == [s] + rest;
    NothingDone(s);
    g := TakenElseEndsMain(0, p, [], s, rest, START, Fine(START, false));
  }

  lemma NothingDone(s: Cmd)
    requires s == IfElse(Lit(1), [], [])
    ensures ExecBody(0, [], START) == Fine(START, false) && CleanBody(0, [], START)
    ensures After(s.c, START) == START && Eval(s.c, START.env) != 0 && Exec(0, s, START) == Fine(START, false)
  {
    assert After(s.c, START) == START;
    assert ExecBody(0, s.body, START) == Fine(START, false);
  }

  lemma ExecFirst(f: nat, body: seq<Cmd>, m: Mem, o: Outcome)
    requires body != [] && o == Exec(f, body[0], m)
    ensures ExecBody(f, body, m) == if o.Timeout? || o.returned then o else ExecBody(f, body[1..], o.m)
  {
  }

  lemma PrintsSeven(s: Cmd, rest: seq<Cmd>)
    requires s == IfElse(Lit(1), [], []) && rest == [Print(Lit(7))]
    ensures ExecBody(0, [s] + rest, START) == Fine(Mem(map[], [Number(7)], 0), false)
  {
    var m := Mem(map[], [Number(7)], 0);
    NothingDone(s);
    ExecFirst(0, [s] + rest, START, Fine(START, false));
    assert ([s] + rest)[1..] == rest && rest[1..] == [];
    ExecFirst(0, rest, START, Fine(m, false));
    assert ExecBody(0, [], m) == Fine(m, false);
  }
}
