// The converse of the simulation: where the meaning of a program does not come to an end, the
// interpreter does not either.
module TgcConverse {
  import opened TgcMachine
  import opened TgcLanguage
  import opened TgcExpressions
  import opened TgcStatements
  import opened TgcSimulation
  import opened TgcTheorems

  /** A taken condition whose body does not end. */
  lemma {:induction false} TakenStuck(f: nat, k: nat, p: Prog, st: St, c: Ex, body: seq<Cmd>, m: Mem)
    requires GoodEx(c) && GoodBody(body) && Starts(p, st.pos, RenderCond(c)) && Represents(st, m)
    requires Starts(p, st.pos + CondLen(c), RenderBody(body))
    requires At(p, st.pos + CondLen(c) + |RenderBody(body)|) == TRBrace
    requires ExecBody(f, body, After(c, m)).Timeout? && CleanBody(f, body, After(c, m)) && k <= f
    ensures Condition(p, st).v == Eval(c, m.env) && Body(k, p, Condition(p, st).st).OutOfFuel?
    decreases f, body, 2
  {
    ConditionHere(p, st, c, m);
    BodyStuck(f, k, p, Condition(p, st).st, body, After(c, m));
  }

  lemma {:induction false} IfStuck(f: nat, k: nat, p: Prog, st: St, s: Cmd, m: Mem)
    requires (s.If? || s.IfElse?) && Good(s) && Starts(p, st.pos, Render(s)) && Represents(st, m) && IfAt(p, st.pos, s)
    requires Eval(s.c, m.env) != 0 && k <= f
    requires ExecBody(f, s.body, After(s.c, m)).Timeout? && CleanBody(f, s.body, After(s.c, m))
    ensures IfStmt(k, p, st).OutOfFuel?
    decreases f, s, 1
  {
    TakenStuck(f, k, p, Skip1(st), s.c, s.body, m);
    TakenOut(k, p, st);
  }

  lemma TakenOut(k: nat, p: Prog, st: St)
    requires var c := Condition(p, Skip1(st)); c.v != 0 && Body(k, p, c.st).OutOfFuel?
    ensures IfStmt(k, p, st).OutOfFuel?
  {
  }

  lemma OtherOut(k: nat, p: Prog, st: St, st1: St)
    requires var c := Condition(p, Skip1(st)); c.v == 0 && st1 == Skip(p, c.st)
    requires At(p, st1.pos) == TId("else") && At(p, st1.pos + 1) == TLBrace
    requires Body(k, p, st1.(pos := st1.pos + 2)).OutOfFuel?
    ensures IfStmt(k, p, st).OutOfFuel?
  {
    assert Accept(p, Skip1(st1), TLBrace) == st1.(pos := st1.pos + 2);
  }

  lemma {:induction false} OtherStuck(f: nat, k: nat, p: Prog, st: St, s: Cmd, m: Mem)
    requires s.IfElse? && Good(s) && Starts(p, st.pos, Render(s)) && Represents(st, m)
    requires Eval(s.c, m.env) == 0 && k <= f
    requires ExecBody(f, s.other, After(s.c, m)).Timeout? && CleanBody(f, s.other, After(s.c, m))
    ensures IfStmt(k, p, st).OutOfFuel?
    decreases f, s, 1
  {
    var st1, st2 := AtElse(p, st, s, m);
    BodyStuck(f, k, p, st2, s.other, After(s.c, m));
    OtherOut(k, p, st, st1);
  }

  lemma {:induction false} BlockStuck(f: nat, k: nat, p: Prog, st: St, s: Cmd, m: Mem)
    requires s.Block? && Good(s) && Starts(p, st.pos, Render(s)) && Represents(st, m)
    requires Exec(f, s, m).Timeout? && Clean(f, s, m) && k <= f
    ensures At(p, st.pos) == TLBrace && Braced(k, p, Skip1(st)).OutOfFuel?
    decreases f, s, 1
  {
    BlockParts(p, st.pos, s);
    BodyStuck(f, k, p, Skip1(st), s.body, m);
  }

  lemma CallStuck(k: nat, p: Prog, st: St)
    requires Compound(At(p, st.pos)) && (k > 1 ==> CompoundStmt(k - 2, p, st).OutOfFuel?)
    ensures Body(k, p, st).OutOfFuel?
  {
    if k > 0 {
      StmtIs(k - 1, p, st);
      BodyIs(k, p, st, OutOfFuel);
    }
  }

  lemma WhileOut(k: nat, p: Prog, st: St)
    requires At(p, st.pos) == TWhile && Condition(p, Skip1(st)).v != 0 && Body(k, p, Condition(p, Skip1(st)).st).OutOfFuel?
    ensures CompoundStmt(k, p, st).OutOfFuel?
  {
  }

  /** The body of a while statement does not end. */
  lemma {:induction false} TurnStuck(f: nat, k: nat, p: Prog, st: St, s: Cmd, m: Mem)
    requires s.While? && Good(s) && Starts(p, st.pos, Render(s)) && Represents(st, m) && Eval(s.c, m.env) != 0
    requires ExecBody(f, s.body, After(s.c, m)).Timeout? && CleanBody(f, s.body, After(s.c, m)) && k <= f
    ensures Body(k, p, st).OutOfFuel?
    decreases f, s, 1
  {
    IfParts(p, st.pos, s);
    if k > 1 {
      TakenStuck(f, k - 2, p, Skip1(st), s.c, s.body, m);
      WhileOut(k - 2, p, st);
    }
    CallStuck(k, p, st);
  }

  lemma LaterOut(p: Prog, st: St, g: nat, f: Flow, k: nat)
    requires !AtEnd(p, st) && f == Stmt(g, p, st) && f.Done? && !f.returned && k > 0 && Body(k - 1, p, f.st).OutOfFuel?
    ensures Body(k, p, st).OutOfFuel?
  {
    if Body(k, p, st).Done? { CallLeads(p, st, g, k); }
  }

  /** A turn that goes through is one call, which leaves t_pos at the statement. */
  lemma TurnDone(f: nat, p: Prog, st: St, s: Cmd, m: Mem, o: Outcome) returns (g: nat, r: Flow)
    requires s.While? && Good(s) && Starts(p, st.pos, Render(s)) && Represents(st, m) && Eval(s.c, m.env) != 0
    requires o == ExecBody(f, s.body, After(s.c, m)) && o.Fine? && !o.returned && CleanBody(f, s.body, After(s.c, m))
    ensures r == Stmt(g, p, st) && r.Done? && !r.returned && Represents(r.st, o.m) && r.st.pos == st.pos
    ensures !AtEnd(p, st)
  {
    HeadNotEnd(p, st, s);
    g := WhileTurn(f, p, st, s, m);
    r := Stmt(g, p, st);
  }

  /** Its body ends, but what comes after that does not. */
  lemma {:induction false} LaterTurnStuck(f: nat, k: nat, p: Prog, st: St, s: Cmd, m: Mem, o: Outcome)
    requires s.While? && Good(s) && Starts(p, st.pos, Render(s)) && Represents(st, m) && Eval(s.c, m.env) != 0
    requires o == ExecBody(f, s.body, After(s.c, m)) && o.Fine? && !o.returned && CleanBody(f, s.body, After(s.c, m))
    requires f > 0 && Exec(f - 1, s, o.m).Timeout? && Clean(f - 1, s, o.m) && 0 < k <= f
    ensures Body(k, p, st).OutOfFuel?
    decreases f, s, 1
  {
    var g, r := TurnDone(f, p, st, s, m, o);
    WhileStuck(f - 1, k - 1, p, r.st, s, o.m);
    LaterOut(p, st, g, r, k);
  }

  lemma {:induction false} WhileStuck(f: nat, k: nat, p: Prog, st: St, s: Cmd, m: Mem)
    requires s.While? && Good(s) && Starts(p, st.pos, Render(s)) && Represents(st, m)
    requires Exec(f, s, m).Timeout? && Clean(f, s, m) && k <= f
    ensures Body(k, p, st).OutOfFuel?
    decreases f, s, 2
  {
    var o := ExecBody(f, s.body, After(s.c, m));
    if k == 0 {
      HeadNotEnd(p, st, s);
    } else if o.Timeout? {
      TurnStuck(f, k, p, st, s, m);
    } else {
      LaterTurnStuck(f, k, p, st, s, m, o);
    }
  }

  lemma {:induction false} CmdStuck(f: nat, k: nat, p: Prog, st: St, s: Cmd, m: Mem)
    requires Good(s) && Starts(p, st.pos, Render(s)) && Represents(st, m)
    requires Exec(f, s, m).Timeout? && Clean(f, s, m) && k <= f
    ensures Body(k, p, st).OutOfFuel?
    decreases f, s, 3
  {
    if s.While? {
      WhileStuck(f, k, p, st, s, m);
    } else if s.Block? {
      BlockStuck(f, if k > 1 then k - 2 else 0, p, st, s, m);
      CallStuck(k, p, st);
    } else {
      ChoiceStuck(f, if k > 1 then k - 2 else 0, p, st, s, m);
      CallStuck(k, p, st);
    }
  }

  lemma {:induction false} ChoiceStuck(f: nat, k: nat, p: Prog, st: St, s: Cmd, m: Mem)
    requires (s.If? || s.IfElse?) && Good(s) && Starts(p, st.pos, Render(s)) && Represents(st, m)
    requires Exec(f, s, m).Timeout? && Clean(f, s, m) && k <= f
    ensures At(p, st.pos) == TIf && IfStmt(k, p, st).OutOfFuel?
    decreases f, s, 2
  {
    if s.If? { IfParts(p, st.pos, s); } else { IfElseParts(p, st.pos, s); }
    if Eval(s.c, m.env) != 0 { IfStuck(f, k, p, st, s, m); } else { OtherStuck(f, k, p, st, s, m); }
  }

  /** A body whose execution takes more than f turns is not finished with fuel f. */
  lemma {:induction false} BodyStuck(f: nat, k: nat, p: Prog, st: St, body: seq<Cmd>, m: Mem)
    requires GoodBody(body) && Starts(p, st.pos, RenderBody(body)) && Represents(st, m)
    requires NotElse(p, st.pos + |RenderBody(body)|)
    requires ExecBody(f, body, m).Timeout? && CleanBody(f, body, m) && k <= f
    ensures Body(k, p, st).OutOfFuel?
    decreases f, body, 1
  {
    var o := Exec(f, body[0], m);
    BodyParts(p, st.pos, body);
    if o.Timeout? {
      CmdStuck(f, k, p, st, body[0], m);
    } else {
      var st1, g1 := FirstRuns(f, p, st, body, m);
      BodyStuck(f, k, p, st1, body[1..], o.m);
      assert Ends(k, p, st) ==> Ends(k, p, st1);
    }
  }

  /** If the interpreter ends on a clean program, so does the program's big-step execution,
      within as many turns. */
  lemma InterpreterComplete(k: nat, body: seq<Cmd>, builtin: (string, seq<int>) -> int)
    requires GoodBody(body) && CleanBody(k, body, START) && Run(k, Program(body, builtin)).Done?
    ensures ExecBody(k, body, START).Fine?
  {
    if ExecBody(k, body, START).Timeout? { ProgramStuck(k, body, Program(body, builtin)); }
  }

  lemma ProgramStuck(k: nat, body: seq<Cmd>, p: Prog)
    requires p.tokens == RenderProgram(body) && GoodBody(body) && CleanBody(k, body, START) && ExecBody(k, body, START).Timeout?
    ensures Run(k, p).OutOfFuel?
  {
    var st := St(5, [], [], 0);
    assert Entry(p) == 5 && Starts(p, st.pos, RenderBody(body)) && NotElse(p, st.pos + |RenderBody(body)|) by { ProgramParts(body, p); }
    StartRepresents();
    BodyStuck(k, k, p, st, body, START);
  }

  /** A program without else ends under the interpreter exactly if its meaning does. */
  lemma TerminationExact(body: seq<Cmd>, builtin: (string, seq<int>) -> int)
    requires GoodBody(body) && NoElseBody(body)
    ensures (exists k: nat :: Run(k, Program(body, builtin)).Done?) <==> (exists f: nat :: ExecBody(f, body, START).Fine?)
  {
    if k: nat :| Run(k, Program(body, builtin)).Done? {
      NoElseBodyIsClean(k, body, START);
      InterpreterComplete(k, body, builtin);
    }
    if f: nat :| ExecBody(f, body, START).Fine? {
      NoElseBodyIsClean(f, body, START);
      var g := InterpreterCorrect(f, body, builtin);
    }
  }
}
