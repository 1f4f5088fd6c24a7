// An `else` without an opening brace, as in every `else if`.  When the first branch goes
// through, the statement behind the else is executed as well; when the condition fails, the
// rest of the enclosing block is executed as part of it, up to and with its closing brace.
module TgcBareElse {
  import opened TgcMachine
  import opened TgcLanguage
  import opened TgcExpressions
  import opened TgcStatements
  import opened TgcSimulation

  /** At pos: if (c) { body } else, ending in front of q. */
  ghost predicate BareElseAt(p: Prog, pos: nat, c: Ex, body: seq<Cmd>, q: nat) {
    && At(p, pos) == TIf && Starts(p, pos + 1, RenderCond(c)) && Starts(p, pos + 1 + CondLen(c), RenderBody(body))
    && q == pos + 3 + CondLen(c) + |RenderBody(body)| && At(p, q - 2) == TRBrace && At(p, q - 1) == TId("else")
    && At(p, q) != TLBrace
  }

  /** One call of tgc_stmt executes s and ends behind it. */
  lemma OneCall(f: nat, p: Prog, st: St, s: Cmd, m: Mem) returns (g: nat)
    requires !s.While? && !s.Block? && Good(s) && Starts(p, st.pos, Render(s)) && Represents(st, m)
    requires NotElse(p, st.pos + |Render(s)|) && Exec(f, s, m).Fine? && Clean(f, s, m)
    ensures Lands(st, |Render(s)|, Stmt(g, p, st), Exec(f, s, m))
  {
    if s.If? {
      g := IfLands(f, p, st, s, m);
    } else if s.IfElse? {
      g := IfElseLands(f, p, st, s, m);
    } else {
      SimpleHere(p, st, s, m, f);
      g := 0;
    }
  }

  lemma ElseStatement(f: nat, p: Prog, st: St, q: nat, s: Cmd, m: Mem, o: Outcome) returns (g: nat, r: Flow)
    requires st.pos == q && At(p, q) != TLBrace && Starts(p, q, Render(s)) && Represents(st, m)
    requires Good(s) && !s.While? && NotElse(p, q + |Render(s)|) && Exec(f, s, m) == o && o.Fine? && Clean(f, s, m)
    ensures r == Stmt(g, p, st) && r.Done? && Represents(r.st, o.m) && (!o.returned ==> r.st.pos == q + |Render(s)|)
  {
    assert !s.Block? by {
      if s.Block? { BlockParts(p, q, s); }
    }
    g := OneCall(f, p, st, s, m);
    r := Stmt(g, p, st);
  }

  lemma BothBranches(p: Prog, st: St, g1: nat, g2: nat, b: Flow, r: Flow, q: nat) returns (g: nat)
    requires Condition(p, Skip1(st)).v != 0 && b == Braced(g1, p, Condition(p, Skip1(st)).st) && b.Done? && !b.returned
    requires b.st.pos == q - 1 && At(p, q - 1) == TId("else") && At(p, q) != TLBrace
    requires r == Stmt(g2, p, Skip1(b.st)) && r.Done?
    ensures IfStmt(g, p, st) == Done(r.st, false)
  {
    g := g1 + g2;
    BracedKeeps(g1, g, p, Condition(p, Skip1(st)).st, b);
    StmtKeeps(g2, g, p, Skip1(b.st), r);
    assert SkipElse(g, p, Skip1(b.st)) == Done(r.st, false);
  }

  lemma FirstBranch(f: nat, p: Prog, st: St, c: Ex, body: seq<Cmd>, q: nat, m: Mem, o: Outcome) returns (g: nat, b: Flow)
    requires BareElseAt(p, st.pos, c, body, q) && Represents(st, m) && GoodEx(c) && GoodBody(body) && Eval(c, m.env) != 0
    requires o == ExecBody(f, body, After(c, m)) && o.Fine? && !o.returned && CleanBody(f, body, After(c, m))
    ensures Condition(p, Skip1(st)).v != 0 && b == Braced(g, p, Condition(p, Skip1(st)).st) && b.Done? && !b.returned
    ensures b.st.pos == q - 1 && Represents(b.st, o.m)
  {
    var cond;
    g, cond := TakenBranchRuns(f, p, Skip1(st), c, body, m, o);
    b := Braced(g, p, cond.st);
  }

  /** The first branch goes through: s is executed after it.  What s returns becomes the
      exit code, but the run goes on. */
  lemma BareElseTaken(f: nat, p: Prog, st: St, c: Ex, body: seq<Cmd>, q: nat, s: Cmd, m: Mem, m1: Mem, o: Outcome)
    returns (g: nat)
    requires BareElseAt(p, st.pos, c, body, q) && Starts(p, q, Render(s)) && Represents(st, m)
    requires GoodEx(c) && GoodBody(body) && Good(s) && !s.While? && NotElse(p, q + |Render(s)|)
    requires Eval(c, m.env) != 0 && ExecBody(f, body, After(c, m)) == Fine(m1, false) && CleanBody(f, body, After(c, m))
    requires Exec(f, s, m1) == o && o.Fine? && Clean(f, s, m1)
    ensures var r := IfStmt(g, p, st);
            r.Done? && !r.returned && Represents(r.st, o.m) && (!o.returned ==> r.st.pos == q + |Render(s)|)
  {
    var g1, b := FirstBranch(f, p, st, c, body, q, m, Fine(m1, false));
    var g2, r := ElseStatement(f, p, Skip1(b.st), q, s, m1, o);
    g := BothBranches(p, st, g1, g2, b, r, q);
  }

  lemma OtherUnbraced(p: Prog, st: St, g: nat, st1: St, n: nat, o: Outcome)
    requires Condition(p, Skip1(st)).v == 0 && st1 == Skip(p, Condition(p, Skip1(st)).st) && st1.pos >= st.pos
    requires At(p, st1.pos) == TId("else") && At(p, st1.pos + 1) != TLBrace
    requires Lands(Skip1(st1), n, Braced(g, p, Skip1(st1)), o)
    ensures Lands(st, st1.pos + 1 + n - st.pos, IfStmt(g, p, st), o)
  {
    assert Accept(p, Skip1(st1), TLBrace) == Skip1(st1);
  }

  lemma AtBareElse(p: Prog, st: St, c: Ex, body: seq<Cmd>, q: nat, m: Mem) returns (st1: St)
    requires BareElseAt(p, st.pos, c, body, q) && Represents(st, m) && GoodEx(c) && Eval(c, m.env) == 0
    ensures Condition(p, Skip1(st)).v == 0 && st1 == Skip(p, Condition(p, Skip1(st)).st)
    ensures st1.pos == q - 1 && Represents(st1, After(c, m))
  {
    UntakenSkips(p, Skip1(st), c, body, m);
    st1 := Skip(p, Condition(p, Skip1(st)).st);
  }

  /** The condition fails: the statements from the else to the end of the enclosing block
      are executed as the second branch, and that block's closing brace is consumed. */
  lemma BareElseUntaken(f: nat, p: Prog, st: St, c: Ex, body: seq<Cmd>, q: nat, rest: seq<Cmd>, m: Mem, o: Outcome)
    returns (g: nat)
    requires BareElseAt(p, st.pos, c, body, q) && Starts(p, q, RenderBody(rest)) && Represents(st, m)
    requires At(p, q + |RenderBody(rest)|) == TRBrace
    requires GoodEx(c) && GoodBody(rest) && Eval(c, m.env) == 0
    requires o == ExecBody(f, rest, After(c, m)) && o.Fine? && CleanBody(f, rest, After(c, m))
    ensures Lands(st, q + |RenderBody(rest)| + 1 - st.pos, IfStmt(g, p, st), o)
  {
    var st1 := AtBareElse(p, st, c, body, q, m);
    var st2;
    st2, g := BodyRuns(f, p, Skip1(st1), rest, After(c, m));
    UpToBrace(p, Skip1(st1), |RenderBody(rest)|, st2, g, o);
    OtherUnbraced(p, st, g, st1, |RenderBody(rest)| + 1, o);
  }
}
