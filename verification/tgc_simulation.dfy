// The simulation between token-stream execution and the big-step meaning.
module TgcSimulation {
  import opened TgcMachine
  import opened TgcLanguage
  import opened TgcExpressions
  import opened TgcStatements

  // ---------------------------------------------------------------------------
  // Programs in which no taken branch is followed by a skipped `else`

  /** Executing s never completes the first branch of an if-else. */
  ghost predicate Tidy(fuel: nat, s: Cmd, m: Mem)
    decreases fuel, s, 0
  {
    match s
    case If(c, body) => Eval(c, m.env) != 0 ==> TidyBody(fuel, body, After(c, m))
    case IfElse(c, body, other) =>
      if Eval(c, m.env) != 0 then
        var o := ExecBody(fuel, body, After(c, m));
        TidyBody(fuel, body, After(c, m)) && (o.Fine? ==> o.returned)
      else TidyBody(fuel, other, After(c, m))
    case While(c, body) =>
      Eval(c, m.env) != 0 && fuel > 0 ==>
        var o := ExecBody(fuel, body, After(c, m));
        TidyBody(fuel, body, After(c, m)) && (o.Fine? && !o.returned ==> Tidy(fuel - 1, s, o.m))
    case Block(body) => TidyBody(fuel, body, m)
    case _ => true
  }

  ghost predicate TidyBody(fuel: nat, body: seq<Cmd>, m: Mem)
    decreases fuel, body, 1
  {
    body != [] ==>
      var o := Exec(fuel, body[0], m);
      Tidy(fuel, body[0], m) && (o.Fine? && !o.returned ==> TidyBody(fuel, body[1..], o.m))
  }

  /** The same of a statement and of a list of statements, under names that are not
      recursive. */
  ghost predicate Clean(fuel: nat, s: Cmd, m: Mem) {
    Tidy(fuel, s, m)
  }

  ghost predicate CleanBody(fuel: nat, body: seq<Cmd>, m: Mem) {
    TidyBody(fuel, body, m)
  }

  predicate NoElse(s: Cmd) {
    match s
    case If(_, body) => NoElseBody(body)
    case IfElse(_, _, _) => false
    case While(_, body) => NoElseBody(body)
    case Block(body) => NoElseBody(body)
    case _ => true
  }

  predicate NoElseBody(body: seq<Cmd>) {
    forall i :: 0 <= i < |body| ==> NoElse(body[i])
  }

  lemma {:induction false} NoElseIsClean(fuel: nat, s: Cmd, m: Mem)
    requires NoElse(s)
    ensures Clean(fuel, s, m)
    decreases fuel, s, 0
  {
    match s
    case If(c, body) => NoElseBodyIsClean(fuel, body, After(c, m));
    case While(c, body) =>
      if fuel > 0 {
        NoElseBodyIsClean(fuel, body, After(c, m));
        var o := ExecBody(fuel, body, After(c, m));
        if o.Fine? { NoElseIsClean(fuel - 1, s, o.m); }
      }
    case Block(body) => NoElseBodyIsClean(fuel, body, m);
    case _ =>
  }

  lemma {:induction false} NoElseBodyIsClean(fuel: nat, body: seq<Cmd>, m: Mem)
    requires NoElseBody(body)
    ensures CleanBody(fuel, body, m)
    decreases fuel, body, 1
  {
    if body != [] {
      NoElseIsClean(fuel, body[0], m);
      var o := Exec(fuel, body[0], m);
      if o.Fine? { NoElseBodyIsClean(fuel, body[1..], o.m); }
    }
  }

  // ---------------------------------------------------------------------------
  // Single statements

  /** f is where the machine got to from st on n tokens that mean o. */
  ghost predicate Lands(st: St, n: nat, f: Flow, o: Outcome) {
    && f.Done? && o.Fine? && f.returned == o.returned && Represents(f.st, o.m)
    && (!o.returned ==> f.st.pos == st.pos + n)
  }

  lemma ExprHere(p: Prog, st: St, e: Ex, m: Mem)
    requires GoodEx(e) && Starts(p, st.pos, RenderEx(e, 0)) && Represents(st, m)
    requires Stops(At(p, st.pos + |RenderEx(e, 0)|), 0)
    ensures var r := Expr(p, st);
            r.st.pos == st.pos + |RenderEx(e, 0)| && r.v == Eval(e, m.env) && Represents(r.st, After(e, m))
            && st.vars <= r.st.vars
  {
    ExprEvaluates(p, st, e, m.env);
  }

  /** = e ; */
  lemma AssignHere(p: Prog, st: St, x: string, e: Ex, m: Mem)
    requires GoodEx(e) && GoodName(x) && Represents(st, m) && FindVar(st.vars, x) < |st.vars|
    requires At(p, st.pos) == TAssign && Starts(p, st.pos + 1, RenderEx(e, 0)) && At(p, st.pos + 1 + |RenderEx(e, 0)|) == TSemi
    ensures var r := Accept(p, AssignTail(p, st, FindVar(st.vars, x)), TSemi);
            r.pos == st.pos + |RenderEx(e, 0)| + 2 && Represents(r, Set(After(e, m), x, Eval(e, m.env)))
  {
    ExprHere(p, Skip1(st), e, m);
    var r := Expr(p, Skip1(st));
    FindExtended(st.vars, r.st.vars, x);
    StoreAgrees(r.st.vars, x, r.v, m.env);
  }

  /** st after get_var(x) with n tokens consumed. */
  function Named(st: St, x: string, n: nat): (r: St)
    ensures FindVar(st.vars, x) < |r.vars|
  {
    st.(pos := st.pos + n, vars := GetVar(st.vars, x))
  }

  lemma NamedHere(st: St, x: string, n: nat, m: Mem)
    requires GoodName(x) && Represents(st, m)
    ensures Represents(Named(st, x, n), m) && FindVar(Named(st, x, n).vars, x) == FindVar(st.vars, x)
  {
    GetVarAgrees(st.vars, x, m.env);
  }

  lemma DeclareHere(p: Prog, st: St, s: Cmd, m: Mem)
    requires s.Declare? && Good(s) && Starts(p, st.pos, Render(s)) && Represents(st, m)
    ensures Lands(st, |Render(s)|, SimpleStmt(p, st), Fine(m, false))
  {
    var r := Render(s);
    TokensAt(p, st.pos, r, 0);
    TokensAt(p, st.pos, r, 1);
    TokensAt(p, st.pos, r, 2);
    NamedHere(st, s.x, 2, m);
    assert SimpleStmt(p, st) == Done(Skip1(Named(st, s.x, 2)), false);
  }

  lemma MentionHere(p: Prog, st: St, s: Cmd, m: Mem)
    requires s.Mention? && Good(s) && Starts(p, st.pos, Render(s)) && Represents(st, m)
    ensures Lands(st, |Render(s)|, SimpleStmt(p, st), Fine(m, false))
  {
    var r := Render(s);
    TokensAt(p, st.pos, r, 0);
    TokensAt(p, st.pos, r, 1);
    NamedHere(st, s.x, 1, m);
    assert SimpleStmt(p, st) == Done(Skip1(Named(st, s.x, 1)), false);
  }

  lemma DefineHere(p: Prog, st: St, s: Cmd, m: Mem)
    requires (s.Define? || s.Assign?) && Good(s) && Starts(p, st.pos, Render(s)) && Represents(st, m)
    ensures Lands(st, |Render(s)|, SimpleStmt(p, st), Fine(Set(After(s.e, m), s.x, Eval(s.e, m.env)), false))
  {
    DefineParts(p, st.pos, s);
    var n := DefineLen(s);
    NamedHere(st, s.x, n, m);
    AssignHere(p, Named(st, s.x, n), s.x, s.e, m);
  }

  /** Tokens before the assignment sign. */
  function DefineLen(s: Cmd): nat { if s.Define? then 2 else 1 }

  lemma DefineParts(p: Prog, pos: nat, s: Cmd)
    requires (s.Define? || s.Assign?) && Starts(p, pos, Render(s))
    ensures var n, t := DefineLen(s), RenderEx(s.e, 0);
            && (s.Define? ==> At(p, pos) == TInt) && At(p, pos + n - 1) == TId(s.x) && At(p, pos + n) == TAssign
            && Starts(p, pos + n + 1, t) && At(p, pos + n + 1 + |t|) == TSemi && |Render(s)| == n + 2 + |t|
  {
    var head := if s.Define? then [TInt, TId(s.x), TAssign] else [TId(s.x), TAssign];
    Framed(p, pos, Render(s), head, RenderEx(s.e, 0), [TSemi]);
    TokensAt(p, pos, head, 0);
    TokensAt(p, pos, head, 1);
    if s.Define? { TokensAt(p, pos, head, 2); }
    One(p, pos + |head| + |RenderEx(s.e, 0)|, TSemi);
  }

  lemma PrintRuns(p: Prog, st: St, e: Val)
    requires At(p, st.pos) == TPrint && At(p, st.pos + 1) == TLParen && !At(p, st.pos + 2).TString?
    requires e == Expr(p, st.(pos := st.pos + 2)) && At(p, e.st.pos) == TRParen && At(p, e.st.pos + 1) == TSemi
    ensures SimpleStmt(p, st) == Done(Emit(e.st, Number(e.v)).(pos := e.st.pos + 2), false)
  {
  }

  lemma PrintParts(p: Prog, pos: nat, e: Ex)
    requires Starts(p, pos, Render(Print(e)))
    ensures var t := RenderEx(e, 0);
            && At(p, pos) == TPrint && At(p, pos + 1) == TLParen && Starts(p, pos + 2, t) && !At(p, pos + 2).TString?
            && At(p, pos + 2 + |t|) == TRParen && At(p, pos + 3 + |t|) == TSemi && |Render(Print(e))| == |t| + 4
  {
    var t := RenderEx(e, 0);
    Framed(p, pos, Render(Print(e)), [TPrint, TLParen], t, [TRParen, TSemi]);
    TokensAt(p, pos, [TPrint, TLParen], 0);
    TokensAt(p, pos, [TPrint, TLParen], 1);
    TokensAt(p, pos + 2 + |t|, [TRParen, TSemi], 0);
    TokensAt(p, pos + 2 + |t|, [TRParen, TSemi], 1);
    TokensAt(p, pos + 2, t, 0);
    HeadNotString(e, 0);
  }

  lemma PrintLands(p: Prog, st: St, r: Val, n: nat, m: Mem, o: Outcome)
    requires At(p, st.pos) == TPrint && At(p, st.pos + 1) == TLParen && !At(p, st.pos + 2).TString?
    requires r == Expr(p, st.(pos := st.pos + 2)) && At(p, r.st.pos) == TRParen && At(p, r.st.pos + 1) == TSemi
    requires r.st.pos + 2 == st.pos + n && Represents(r.st, m) && o == Fine(Put(m, Number(r.v)), false)
    ensures Lands(st, n, SimpleStmt(p, st), o)
  {
    PrintRuns(p, st, r);
  }

  lemma PrintHere(p: Prog, st: St, e: Ex, m: Mem, o: Outcome)
    requires GoodEx(e) && Starts(p, st.pos, Render(Print(e))) && Represents(st, m)
    requires o == Fine(Put(After(e, m), Number(Eval(e, m.env))), false)
    ensures Lands(st, |Render(Print(e))|, SimpleStmt(p, st), o)
  {
    PrintParts(p, st.pos, e);
    var r := ExprRuns(p, st.(pos := st.pos + 2), e, m);
    PrintLands(p, st, r, |RenderEx(e, 0)| + 4, After(e, m), o);
  }

  lemma ExprRuns(p: Prog, st: St, e: Ex, m: Mem) returns (r: Val)
    requires GoodEx(e) && Starts(p, st.pos, RenderEx(e, 0)) && Represents(st, m)
    requires Stops(At(p, st.pos + |RenderEx(e, 0)|), 0)
    ensures r == Expr(p, st) && r.st.pos == st.pos + |RenderEx(e, 0)| && r.v == Eval(e, m.env) && Represents(r.st, After(e, m))
  {
    ExprHere(p, st, e, m);
    r := Expr(p, st);
  }

  lemma {:induction false} HeadNotString(e: Ex, level: nat)
    ensures !RenderEx(e, level)[0].TString?
    decreases e
  {
    if e.Bin? {
      HeadNotString(e.l, LeftLevel(e.op));
      BinaryTokens(e, level);
    }
  }

  lemma ReturnRuns(p: Prog, st: St, e: Val)
    requires At(p, st.pos) == TReturn && e == Expr(p, Skip1(st)) && At(p, e.st.pos) == TSemi
    ensures SimpleStmt(p, st) == Done(e.st.(rv := e.v, pos := e.st.pos + 1), true)
  {
  }

  lemma ReturnParts(p: Prog, pos: nat, e: Ex)
    requires Starts(p, pos, Render(Return(e)))
    ensures var t := RenderEx(e, 0);
            At(p, pos) == TReturn && Starts(p, pos + 1, t) && At(p, pos + 1 + |t|) == TSemi && |Render(Return(e))| == |t| + 2
  {
    var t := RenderEx(e, 0);
    Framed(p, pos, Render(Return(e)), [TReturn], t, [TSemi]);
    One(p, pos, TReturn);
    One(p, pos + 1 + |t|, TSemi);
  }

  lemma ReturnLands(p: Prog, st: St, r: Val, n: nat, m: Mem, o: Outcome)
    requires At(p, st.pos) == TReturn && r == Expr(p, Skip1(st)) && At(p, r.st.pos) == TSemi
    requires r.st.pos + 1 == st.pos + n && Represents(r.st, m) && o == Fine(m.(rv := r.v), true)
    ensures Lands(st, n, SimpleStmt(p, st), o) && SimpleStmt(p, st).st.pos == st.pos + n
  {
    ReturnRuns(p, st, r);
  }

  lemma ReturnHere(p: Prog, st: St, e: Ex, m: Mem, o: Outcome)
    requires GoodEx(e) && Starts(p, st.pos, Render(Return(e))) && Represents(st, m)
    requires o == Fine(After(e, m).(rv := Eval(e, m.env)), true)
    ensures Lands(st, |Render(Return(e))|, SimpleStmt(p, st), o)
    ensures SimpleStmt(p, st).st.pos == st.pos + |Render(Return(e))|
  {
    ReturnParts(p, st.pos, e);
    var r := ExprRuns(p, Skip1(st), e, m);
    ReturnLands(p, st, r, |RenderEx(e, 0)| + 2, After(e, m), o);
  }

  lemma TextHere(p: Prog, st: St, s: Cmd, m: Mem)
    requires (s.PrintText? || s.Say?) && Starts(p, st.pos, Render(s)) && Represents(st, m)
    ensures Lands(st, |Render(s)|, SimpleStmt(p, st), Fine(Put(m, Text(s.s)), false))
  {
    var r := Render(s);
    TokensAt(p, st.pos, r, 0);
    TokensAt(p, st.pos, r, 1);
    if s.PrintText? {
      TokensAt(p, st.pos, r, 2);
      TokensAt(p, st.pos, r, 3);
      TokensAt(p, st.pos, r, 4);
    }
  }

  /** A statement that executes no others does what it means and ends right behind
      itself. */
  lemma SimpleHere(p: Prog, st: St, s: Cmd, m: Mem, fuel: nat)
    requires Simple(s) && Good(s) && Starts(p, st.pos, Render(s)) && Represents(st, m)
    ensures Lands(st, |Render(s)|, SimpleStmt(p, st), Exec(fuel, s, m))
    ensures At(p, st.pos) !in {TIf, TWhile, TLBrace, TRBrace, TEof}
  {
    TokensAt(p, st.pos, Render(s), 0);
    match s
    case Declare(_) => DeclareHere(p, st, s, m);
    case Mention(_) => MentionHere(p, st, s, m);
    case Define(_, _) => DefineHere(p, st, s, m);
    case Assign(_, _) => DefineHere(p, st, s, m);
    case Print(e) => PrintHere(p, st, e, m, Exec(fuel, s, m));
    case PrintText(_) => TextHere(p, st, s, m);
    case Say(_) => TextHere(p, st, s, m);
    case Return(e) => ReturnHere(p, st, e, m, Exec(fuel, s, m));
  }

  lemma ConditionHere(p: Prog, st: St, c: Ex, m: Mem)
    requires GoodEx(c) && Starts(p, st.pos, RenderCond(c)) && Represents(st, m)
    ensures var r := Condition(p, st);
            r.st.pos == st.pos + CondLen(c) && r.v == Eval(c, m.env) && Represents(r.st, After(c, m))
  {
    CondParts(p, st.pos, c);
    ExprHere(p, Skip1(st), c, m);
  }

  // ---------------------------------------------------------------------------
  // Statements that execute others

  /** The loop over statements comes to an end from st. */
  predicate Ends(k: nat, p: Prog, st: St) {
    Body(k, p, st).Done?
  }

  /** Running on from st with g more fuel is running on from st'. */
  ghost predicate Continues(p: Prog, st: St, st': St, g: nat) {
    forall k: nat :: Ends(k, p, st') ==> Body(k + g, p, st) == Body(k, p, st')
  }

  /** If the loop over statements ends from st, it ends from st'. */
  ghost predicate Leads(p: Prog, st: St, st': St) {
    forall k: nat {:trigger Ends(k, p, st)} :: Ends(k, p, st) ==> Ends(k, p, st')
  }

  /** What the loop over statements makes of n tokens at st that mean o: it goes on behind
      them, or it has returned. */
  ghost predicate Runs(p: Prog, st: St, n: nat, st': St, g: nat, o: Outcome) {
    && o.Fine? && Represents(st', o.m)
    && (if o.returned then Body(g, p, st) == Done(st', true)
        else st'.pos == st.pos + n && Continues(p, st, st', g) && Leads(p, st, st'))
  }

  /** A body that has run up to a closing brace. */
  lemma UpToBrace(p: Prog, st: St, n: nat, st': St, g: nat, o: Outcome)
    requires Runs(p, st, n, st', g, o) && At(p, st.pos + n) == TRBrace
    ensures Body(g, p, st) == Done(st', o.returned)
    ensures Lands(st, n + 1, Braced(g, p, st), o)
  {
    if !o.returned { assert Ends(0, p, st') && Body(0 + g, p, st) == Body(0, p, st'); }
  }

  /** A loop that ends goes on behind a statement with less fuel. */
  lemma CallLeads(p: Prog, st: St, g0: nat, k: nat)
    requires Stmt(g0, p, st).Done? && !Stmt(g0, p, st).returned && !AtEnd(p, st) && Body(k, p, st).Done?
    ensures k > 0 && Body(k - 1, p, Stmt(g0, p, st).st).Done?
  {
    SameStmt(g0, k - 1, p, st);
  }

  lemma SameStmt(g: nat, k: nat, p: Prog, st: St)
    requires Stmt(g, p, st).Done? && Stmt(k, p, st).Done?
    ensures Stmt(g, p, st) == Stmt(k, p, st)
  {
    if g <= k { StmtMono(g, k - g, p, st); } else { StmtMono(k, g - k, p, st); }
  }

  /** One statement call that lands makes the loop go on from there. */
  lemma CallRuns(p: Prog, st: St, n: nat, g0: nat, o: Outcome) returns (st': St, g: nat)
    requires Lands(st, n, Stmt(g0, p, st), o) && !AtEnd(p, st)
    ensures Runs(p, st, n, st', g, o)
  {
    st', g := Stmt(g0, p, st).st, g0 + 1;
    if !o.returned {
      forall k: nat | Ends(k, p, st') ensures Body(k + g, p, st) == Body(k, p, st') {
        StmtMono(g0, k, p, st);
        BodyMono(k, g0, p, st');
      }
      forall k: nat | Ends(k, p, st) ensures Ends(k, p, st') {
        CallLeads(p, st, g0, k);
        BodyMono(k - 1, 1, p, st');
      }
    }
  }

  lemma IfCall(p: Prog, st: St, n: nat, g0: nat, o: Outcome) returns (g: nat)
    requires At(p, st.pos) == TIf && Lands(st, n, IfStmt(g0, p, st), o)
    ensures Lands(st, n, Stmt(g, p, st), o)
  {
    g := g0 + 1;
    StmtIs(g, p, st);
  }

  lemma WhileCall(p: Prog, st: St, n: nat, g0: nat, o: Outcome) returns (g: nat)
    requires At(p, st.pos) == TWhile && Lands(st, n, WhileStmt(g0, p, st), o)
    ensures Lands(st, n, Stmt(g, p, st), o)
  {
    g := g0 + 1;
    StmtIs(g, p, st);
  }

  lemma BlockCall(p: Prog, st: St, n: nat, g0: nat, o: Outcome) returns (g: nat)
    requires At(p, st.pos) == TLBrace && Lands(Skip1(st), n, Braced(g0, p, Skip1(st)), o)
    ensures Lands(st, n + 1, Stmt(g, p, st), o)
  {
    g := g0 + 1;
    StmtIs(g, p, st);
  }

  lemma RunsThen(p: Prog, st: St, n1: nat, st1: St, g1: nat, o1: Outcome, n2: nat, st2: St, g2: nat, o2: Outcome)
    requires Runs(p, st, n1, st1, g1, o1) && !o1.returned && Runs(p, st1, n2, st2, g2, o2)
    ensures Runs(p, st, n1 + n2, st2, g1 + g2, o2)
  {
    if o2.returned {
      assert Ends(g2, p, st1) && Body(g2 + g1, p, st) == Body(g2, p, st1);
    } else {
      forall k: nat | Ends(k, p, st2) ensures Body(k + (g1 + g2), p, st) == Body(k, p, st2) {
        assert Body(k + g2, p, st1) == Body(k, p, st2);
        assert Ends(k + g2, p, st1) && Body((k + g2) + g1, p, st) == Body(k + g2, p, st1);
      }
      forall k: nat | Ends(k, p, st) ensures Ends(k, p, st2) {
        assert Ends(k, p, st1);
      }
    }
  }

  /** Nothing at pos that an if statement would take for its else. */
  predicate NotElse(p: Prog, pos: nat) { At(p, pos) != TId("else") }

  lemma RenderedNotElse(p: Prog, pos: nat, body: seq<Cmd>)
    requires GoodBody(body) && Starts(p, pos, RenderBody(body)) && NotElse(p, pos + |RenderBody(body)|)
    ensures NotElse(p, pos)
  {
    if body != [] {
      BodyParts(p, pos, body);
      TokensAt(p, pos, Render(body[0]), 0);
      assert Good(body[0]);
    }
  }

  /** A taken condition with its braced body. */
  lemma TakenRuns(f: nat, p: Prog, st: St, c: Ex, body: seq<Cmd>, m: Mem) returns (g: nat)
    requires GoodEx(c) && GoodBody(body) && Starts(p, st.pos, RenderCond(c)) && Represents(st, m)
    requires Starts(p, st.pos + CondLen(c), RenderBody(body))
    requires At(p, st.pos + CondLen(c) + |RenderBody(body)|) == TRBrace
    requires ExecBody(f, body, After(c, m)).Fine? && CleanBody(f, body, After(c, m))
    ensures Condition(p, st).v == Eval(c, m.env)
    ensures var c1 := Condition(p, st).st; var o := ExecBody(f, body, After(c, m));
            && c1.pos == st.pos + CondLen(c)
            && Body(g, p, c1).Done? && Body(g, p, c1).returned == o.returned && Represents(Body(g, p, c1).st, o.m)
            && Lands(c1, |RenderBody(body)| + 1, Braced(g, p, c1), o)
    decreases f, body, 2
  {
    ConditionHere(p, st, c, m);
    var c1 := Condition(p, st).st;
    var st1;
    st1, g := BodyRuns(f, p, c1, body, After(c, m));
    UpToBrace(p, c1, |RenderBody(body)|, st1, g, ExecBody(f, body, After(c, m)));
  }

  lemma TakenBranchRuns(f: nat, p: Prog, st: St, e: Ex, body: seq<Cmd>, m: Mem, o: Outcome) returns (g: nat, c: Val)
    requires GoodEx(e) && GoodBody(body) && Starts(p, st.pos, RenderCond(e)) && Represents(st, m)
    requires Starts(p, st.pos + CondLen(e), RenderBody(body))
    requires At(p, st.pos + CondLen(e) + |RenderBody(body)|) == TRBrace
    requires o == ExecBody(f, body, After(e, m)) && o.Fine? && CleanBody(f, body, After(e, m))
    ensures c == Condition(p, st) && c.v == Eval(e, m.env) && c.st.pos == st.pos + CondLen(e)
    ensures Lands(c.st, |RenderBody(body)| + 1, Braced(g, p, c.st), o)
    decreases f, body, 3
  {
    g := TakenRuns(f, p, st, e, body, m);
    c := Condition(p, st);
  }

  /** An untaken condition: the skip ends behind the body. */
  lemma UntakenSkips(p: Prog, st: St, c: Ex, body: seq<Cmd>, m: Mem)
    requires GoodEx(c) && Starts(p, st.pos, RenderCond(c)) && Represents(st, m)
    requires Starts(p, st.pos + CondLen(c), RenderBody(body))
    requires At(p, st.pos + CondLen(c) + |RenderBody(body)|) == TRBrace
    ensures Condition(p, st).v == Eval(c, m.env)
    ensures var r := Skip(p, Condition(p, st).st);
            r.pos == st.pos + CondLen(c) + |RenderBody(body)| + 1 && Represents(r, After(c, m))
  {
    ConditionHere(p, st, c, m);
    SkipPastBody(p, st.pos + CondLen(c), body);
  }

  /** A taken if statement behind which no else stands, or whose body returned. */
  lemma IfTakenLands(p: Prog, st: St, g: nat, c: Val, n: nat, k: nat, o: Outcome)
    requires c == Condition(p, Skip1(st)) && c.v != 0 && Lands(c.st, n, Braced(g, p, c.st), o)
    requires c.st.pos + n == st.pos + k && (o.returned || NotElse(p, st.pos + k))
    ensures Lands(st, k, IfStmt(g, p, st), o)
  {
  }

  lemma IfUntakenLands(p: Prog, st: St, r: St, n: nat, m: Mem)
    requires Condition(p, Skip1(st)).v == 0 && r == Skip(p, Condition(p, Skip1(st)).st)
    requires Represents(r, m) && r.pos == st.pos + n && NotElse(p, r.pos)
    ensures Lands(st, n, IfStmt(0, p, st), Fine(m, false))
  {
  }

  /** The parts of an if statement up to the end of its first branch. */
  ghost predicate IfAt(p: Prog, pos: nat, s: Cmd)
    requires s.If? || s.IfElse?
  {
    && At(p, pos) == TIf && Starts(p, pos + 1, RenderCond(s.c)) && Starts(p, pos + 1 + CondLen(s.c), RenderBody(s.body))
    && At(p, pos + 1 + CondLen(s.c) + |RenderBody(s.body)|) == TRBrace
  }

  /** An if statement whose condition is true. */
  lemma IfTrueStmt(f: nat, p: Prog, st: St, e: Ex, body: seq<Cmd>, m: Mem, o: Outcome) returns (g: nat)
    requires GoodEx(e) && GoodBody(body) && Represents(st, m) && Eval(e, m.env) != 0
    requires Starts(p, st.pos + 1, RenderCond(e)) && Starts(p, st.pos + 1 + CondLen(e), RenderBody(body))
    requires At(p, st.pos + 1 + CondLen(e) + |RenderBody(body)|) == TRBrace
    requires o == ExecBody(f, body, After(e, m)) && o.Fine? && CleanBody(f, body, After(e, m))
    requires o.returned || NotElse(p, st.pos + 2 + CondLen(e) + |RenderBody(body)|)
    ensures Lands(st, 2 + CondLen(e) + |RenderBody(body)|, IfStmt(g, p, st), o)
    decreases f, body, 4
  {
    var c;
    g, c := TakenBranchRuns(f, p, Skip1(st), e, body, m, o);
    IfTakenLands(p, st, g, c, |RenderBody(body)| + 1, 2 + CondLen(e) + |RenderBody(body)|, o);
  }

  lemma IfTrueLands(f: nat, p: Prog, st: St, s: Cmd, m: Mem) returns (g: nat)
    requires (s.If? || s.IfElse?) && Good(s) && Represents(st, m) && Eval(s.c, m.env) != 0 && IfAt(p, st.pos, s)
    requires ExecBody(f, s.body, After(s.c, m)).Fine? && CleanBody(f, s.body, After(s.c, m))
    requires ExecBody(f, s.body, After(s.c, m)).returned || NotElse(p, st.pos + 2 + CondLen(s.c) + |RenderBody(s.body)|)
    ensures Lands(st, 2 + CondLen(s.c) + |RenderBody(s.body)|, Stmt(g, p, st), ExecBody(f, s.body, After(s.c, m)))
    decreases f, s.body, 5
  {
    var g0 := IfTrueStmt(f, p, st, s.c, s.body, m, ExecBody(f, s.body, After(s.c, m)));
    g := IfCall(p, st, 2 + CondLen(s.c) + |RenderBody(s.body)|, g0, ExecBody(f, s.body, After(s.c, m)));
  }

  lemma FalseSkips(p: Prog, st: St, s: Cmd, m: Mem)
    requires s.If? && Good(s) && Starts(p, st.pos, Render(s)) && Represents(st, m) && Eval(s.c, m.env) == 0
    ensures Condition(p, Skip1(st)).v == 0 && At(p, st.pos) == TIf
    ensures var r := Skip(p, Condition(p, Skip1(st)).st);
            Represents(r, After(s.c, m)) && r.pos == st.pos + |Render(s)|
  {
    IfParts(p, st.pos, s);
    UntakenSkips(p, Skip1(st), s.c, s.body, m);
  }

  /** if without else, its condition false */
  lemma IfFalseLands(p: Prog, st: St, s: Cmd, m: Mem) returns (g: nat)
    requires s.If? && Good(s) && Starts(p, st.pos, Render(s)) && Represents(st, m) && Eval(s.c, m.env) == 0
    requires NotElse(p, st.pos + |Render(s)|)
    ensures Lands(st, |Render(s)|, Stmt(g, p, st), Fine(After(s.c, m), false))
  {
    FalseSkips(p, st, s, m);
    IfUntakenLands(p, st, Skip(p, Condition(p, Skip1(st)).st), |Render(s)|, After(s.c, m));
    g := IfCall(p, st, |Render(s)|, 0, Fine(After(s.c, m), false));
  }

  lemma IfLands(f: nat, p: Prog, st: St, s: Cmd, m: Mem) returns (g: nat)
    requires s.If? && Good(s) && Starts(p, st.pos, Render(s)) && Represents(st, m)
    requires NotElse(p, st.pos + |Render(s)|)
    requires Exec(f, s, m).Fine? && Clean(f, s, m)
    ensures Lands(st, |Render(s)|, Stmt(g, p, st), Exec(f, s, m))
    decreases f, s, 3
  {
    if Eval(s.c, m.env) != 0 {
      IfParts(p, st.pos, s);
      g := IfTrueLands(f, p, st, s, m);
    } else {
      g := IfFalseLands(p, st, s, m);
    }
  }

  lemma ElseLands(p: Prog, st: St, g: nat, n: nat, o: Outcome)
    requires var c := Condition(p, Skip1(st));
             c.v == 0 && At(p, Skip(p, c.st).pos) == TId("else") && At(p, Skip(p, c.st).pos + 1) == TLBrace
             && Skip(p, c.st).pos >= st.pos
    requires var st1 := Skip(p, Condition(p, Skip1(st)).st); Lands(st1.(pos := st1.pos + 2), n, Braced(g, p, st1.(pos := st1.pos + 2)), o)
    ensures Lands(st, Skip(p, Condition(p, Skip1(st)).st).pos - st.pos + 2 + n, IfStmt(g, p, st), o)
  {
    var st1 := Skip(p, Condition(p, Skip1(st)).st);
    assert Accept(p, Skip1(st1), TLBrace) == st1.(pos := st1.pos + 2);
  }

  /** The tokens at and behind the else. */
  lemma ElseTokensAt(p: Prog, pos: nat, s: Cmd) returns (q: nat)
    requires s.IfElse? && Starts(p, pos, Render(s))
    ensures q == ThenEnd(s, pos) && At(p, q) == TId("else") && At(p, q + 1) == TLBrace
    ensures Starts(p, q + 2, RenderBody(s.other)) && At(p, q + 2 + |RenderBody(s.other)|) == TRBrace
    ensures q + 3 + |RenderBody(s.other)| == pos + |Render(s)|
  {
    IfElseParts(p, pos, s);
    q := ThenEnd(s, pos);
  }

  lemma ElseReached(p: Prog, st: St, s: Cmd, m: Mem) returns (st1: St)
    requires s.IfElse? && Good(s) && Starts(p, st.pos, Render(s)) && Represents(st, m)
    ensures Condition(p, Skip1(st)).v == Eval(s.c, m.env) && st1 == Skip(p, Condition(p, Skip1(st)).st)
    ensures st1.pos == ThenEnd(s, st.pos) && Represents(st1, After(s.c, m))
  {
    IfElseParts(p, st.pos, s);
    UntakenSkips(p, Skip1(st), s.c, s.body, m);
    st1 := Skip(p, Condition(p, Skip1(st)).st);
  }

  /** After an untaken condition tgc_skip stops at the else. */
  lemma AtElse(p: Prog, st: St, s: Cmd, m: Mem) returns (st1: St, st2: St)
    requires s.IfElse? && Good(s) && Starts(p, st.pos, Render(s)) && Represents(st, m) && Eval(s.c, m.env) == 0
    ensures Condition(p, Skip1(st)).v == 0 && st1 == Skip(p, Condition(p, Skip1(st)).st) && st1.pos == ThenEnd(s, st.pos)
    ensures At(p, st1.pos) == TId("else") && At(p, st1.pos + 1) == TLBrace
    ensures st2 == st1.(pos := st1.pos + 2) && Represents(st2, After(s.c, m)) && Starts(p, st2.pos, RenderBody(s.other))
    ensures At(p, st2.pos + |RenderBody(s.other)|) == TRBrace && st2.pos + |RenderBody(s.other)| + 1 == st.pos + |Render(s)|
  {
    var q := ElseTokensAt(p, st.pos, s);
    st1 := ElseReached(p, st, s, m);
    st2 := st1.(pos := q + 2);
  }

  /** The second branch of an if-else. */
  lemma OtherRuns(f: nat, p: Prog, st: St, s: Cmd, m: Mem) returns (g: nat)
    requires s.IfElse? && Good(s) && Starts(p, st.pos, Render(s)) && Represents(st, m) && Eval(s.c, m.env) == 0
    requires ExecBody(f, s.other, After(s.c, m)).Fine? && CleanBody(f, s.other, After(s.c, m))
    ensures Lands(st, |Render(s)|, IfStmt(g, p, st), ExecBody(f, s.other, After(s.c, m)))
    decreases f, s, 2
  {
    var st1, st2 := AtElse(p, st, s, m);
    var st3;
    st3, g := BodyRuns(f, p, st2, s.other, After(s.c, m));
    UpToBrace(p, st2, |RenderBody(s.other)|, st3, g, ExecBody(f, s.other, After(s.c, m)));
    ElseLands(p, st, g, |RenderBody(s.other)| + 1, ExecBody(f, s.other, After(s.c, m)));
  }

  lemma IfElseLands(f: nat, p: Prog, st: St, s: Cmd, m: Mem) returns (g: nat)
    requires s.IfElse? && Good(s) && Starts(p, st.pos, Render(s)) && Represents(st, m)
    requires Exec(f, s, m).Fine? && Clean(f, s, m)
    ensures Lands(st, |Render(s)|, Stmt(g, p, st), Exec(f, s, m))
    decreases f, s, 3
  {
    IfElseParts(p, st.pos, s);
    if Eval(s.c, m.env) != 0 {
      g := IfTrueLands(f, p, st, s, m);
    } else {
      var g0 := OtherRuns(f, p, st, s, m);
      g := IfCall(p, st, |Render(s)|, g0, Exec(f, s, m));
    }
  }

  lemma WhileTakenLands(p: Prog, st: St, g: nat, o: Outcome)
    requires var c := Condition(p, Skip1(st));
             c.v != 0 && Body(g, p, c.st).Done? && o.Fine? && Body(g, p, c.st).returned == o.returned
             && Represents(Body(g, p, c.st).st, o.m)
    ensures Lands(st, 0, WhileStmt(g, p, st), o)
  {
  }

  /** One turn of a while statement whose condition holds: t_pos is back at `while`. */
  lemma WhileTurn(f: nat, p: Prog, st: St, s: Cmd, m: Mem) returns (g: nat)
    requires s.While? && Good(s) && Starts(p, st.pos, Render(s)) && Represents(st, m)
    requires Eval(s.c, m.env) != 0 && ExecBody(f, s.body, After(s.c, m)).Fine? && CleanBody(f, s.body, After(s.c, m))
    ensures Lands(st, 0, Stmt(g, p, st), ExecBody(f, s.body, After(s.c, m)))
    decreases f, s, 3
  {
    IfParts(p, st.pos, s);
    var g0 := TakenRuns(f, p, Skip1(st), s.c, s.body, m);
    WhileTakenLands(p, st, g0, ExecBody(f, s.body, After(s.c, m)));
    g := WhileCall(p, st, 0, g0, ExecBody(f, s.body, After(s.c, m)));
  }

  /** A while statement whose condition fails is left behind. */
  lemma WhileExit(p: Prog, st: St, s: Cmd, m: Mem) returns (g: nat)
    requires s.While? && Good(s) && Starts(p, st.pos, Render(s)) && Represents(st, m) && Eval(s.c, m.env) == 0
    ensures Lands(st, |Render(s)|, Stmt(g, p, st), Fine(After(s.c, m), false))
  {
    IfParts(p, st.pos, s);
    UntakenSkips(p, Skip1(st), s.c, s.body, m);
    g := WhileCall(p, st, |Render(s)|, 0, Fine(After(s.c, m), false));
  }

  lemma WhileTurnRuns(f: nat, p: Prog, st: St, s: Cmd, m: Mem) returns (st': St, g: nat)
    requires s.While? && Good(s) && Starts(p, st.pos, Render(s)) && Represents(st, m)
    requires Eval(s.c, m.env) != 0 && ExecBody(f, s.body, After(s.c, m)).Fine? && CleanBody(f, s.body, After(s.c, m))
    ensures Runs(p, st, 0, st', g, ExecBody(f, s.body, After(s.c, m)))
    decreases f, s, 4
  {
    HeadNotEnd(p, st, s);
    var g0 := WhileTurn(f, p, st, s, m);
    st', g := CallRuns(p, st, 0, g0, ExecBody(f, s.body, After(s.c, m)));
  }

  /** A while statement in the loop over statements. */
  lemma {:induction false} WhileRuns(f: nat, p: Prog, st: St, s: Cmd, m: Mem) returns (st': St, g: nat)
    requires s.While? && Good(s) && Starts(p, st.pos, Render(s)) && Represents(st, m)
    requires Exec(f, s, m).Fine? && Clean(f, s, m)
    ensures Runs(p, st, |Render(s)|, st', g, Exec(f, s, m))
    decreases f, s, 5
  {
    if Eval(s.c, m.env) == 0 {
      HeadNotEnd(p, st, s);
      var g0 := WhileExit(p, st, s, m);
      st', g := CallRuns(p, st, |Render(s)|, g0, Exec(f, s, m));
    } else {
      var o := ExecBody(f, s.body, After(s.c, m));
      var st1, g1 := WhileTurnRuns(f, p, st, s, m);
      if o.returned {
        st', g := st1, g1;
      } else {
        var g2;
        st', g2 := WhileRuns(f - 1, p, st1, s, o.m);
        RunsThen(p, st, 0, st1, g1, o, |Render(s)|, st', g2, Exec(f - 1, s, o.m));
        g := g1 + g2;
      }
    }
  }

  lemma HeadNotEnd(p: Prog, st: St, s: Cmd)
    requires Starts(p, st.pos, Render(s))
    ensures !AtEnd(p, st)
  {
    TokensAt(p, st.pos, Render(s), 0);
  }

  lemma BlockLands(f: nat, p: Prog, st: St, s: Cmd, m: Mem) returns (g: nat)
    requires s.Block? && Good(s) && Starts(p, st.pos, Render(s)) && Represents(st, m)
    requires Exec(f, s, m).Fine? && Clean(f, s, m)
    ensures Lands(st, |Render(s)|, Stmt(g, p, st), Exec(f, s, m))
    decreases f, s, 3
  {
    BlockParts(p, st.pos, s);
    var o := ExecBody(f, s.body, m);
    var st1, g0 := BodyRuns(f, p, Skip1(st), s.body, m);
    UpToBrace(p, Skip1(st), |RenderBody(s.body)|, st1, g0, o);
    g := BlockCall(p, st, |RenderBody(s.body)| + 1, g0, o);
  }

  /** A call of tgc_stmt on any statement but a while does what the statement means and
      leaves t_pos right behind it. */
  lemma {:induction false} CmdLands(f: nat, p: Prog, st: St, s: Cmd, m: Mem) returns (g: nat)
    requires !s.While? && Good(s) && Starts(p, st.pos, Render(s)) && Represents(st, m)
    requires NotElse(p, st.pos + |Render(s)|)
    requires Exec(f, s, m).Fine? && Clean(f, s, m)
    ensures Lands(st, |Render(s)|, Stmt(g, p, st), Exec(f, s, m))
    decreases f, s, 4
  {
    if s.If? {
      g := IfLands(f, p, st, s, m);
    } else if s.IfElse? {
      g := IfElseLands(f, p, st, s, m);
    } else if s.Block? {
      g := BlockLands(f, p, st, s, m);
    } else {
      SimpleHere(p, st, s, m, f);
      g := 0;
    }
  }

  /** Any statement in the loop over statements. */
  lemma {:induction false} CmdRuns(f: nat, p: Prog, st: St, s: Cmd, m: Mem) returns (st': St, g: nat)
    requires Good(s) && Starts(p, st.pos, Render(s)) && Represents(st, m)
    requires NotElse(p, st.pos + |Render(s)|)
    requires Exec(f, s, m).Fine? && Clean(f, s, m)
    ensures Runs(p, st, |Render(s)|, st', g, Exec(f, s, m))
    decreases f, s, 6
  {
    if s.While? {
      st', g := WhileRuns(f, p, st, s, m);
    } else {
      HeadNotEnd(p, st, s);
      var g0 := CmdLands(f, p, st, s, m);
      st', g := CallRuns(p, st, |Render(s)|, g0, Exec(f, s, m));
    }
  }

  lemma {:induction false} FirstRuns(f: nat, p: Prog, st: St, body: seq<Cmd>, m: Mem) returns (st1: St, g1: nat)
    requires body != [] && GoodBody(body) && Starts(p, st.pos, RenderBody(body)) && Represents(st, m)
    requires NotElse(p, st.pos + |RenderBody(body)|)
    requires Exec(f, body[0], m).Fine? && Clean(f, body[0], m)
    ensures Runs(p, st, |Render(body[0])|, st1, g1, Exec(f, body[0], m))
    ensures Starts(p, st.pos + |Render(body[0])|, RenderBody(body[1..]))
    ensures |RenderBody(body)| == |Render(body[0])| + |RenderBody(body[1..])|
    ensures !Exec(f, body[0], m).returned ==> Ready(p, st1, body[1..], Exec(f, body[0], m).m)
    decreases f, body, 0, 0
  {
    BodyParts(p, st.pos, body);
    RenderedNotElse(p, st.pos + |Render(body[0])|, body[1..]);
    st1, g1 := CmdRuns(f, p, st, body[0], m);
  }

  /** st is at the rendering of body, with memory m. */
  ghost predicate Ready(p: Prog, st: St, body: seq<Cmd>, m: Mem) {
    && GoodBody(body) && Starts(p, st.pos, RenderBody(body)) && Represents(st, m)
    && NotElse(p, st.pos + |RenderBody(body)|)
  }

  lemma RunsBoth(p: Prog, st: St, n: nat, n1: nat, st1: St, g1: nat, o1: Outcome, n2: nat, st2: St, g2: nat, o2: Outcome)
    requires Runs(p, st, n1, st1, g1, o1) && !o1.returned && Runs(p, st1, n2, st2, g2, o2) && n == n1 + n2
    ensures Runs(p, st, n, st2, g1 + g2, o2)
  {
    RunsThen(p, st, n1, st1, g1, o1, n2, st2, g2, o2);
  }

  lemma ExecOn(f: nat, body: seq<Cmd>, m: Mem, o: Outcome)
    requires body != [] && o == Exec(f, body[0], m) && ExecBody(f, body, m).Fine? && CleanBody(f, body, m)
    ensures o.Fine? && Clean(f, body[0], m) && (o.returned ==> ExecBody(f, body, m) == o)
    ensures !o.returned ==> ExecBody(f, body, m) == ExecBody(f, body[1..], o.m) && CleanBody(f, body[1..], o.m)
  {
  }

  /** A sequence of statements. */
  lemma {:induction false} BodyRuns(f: nat, p: Prog, st: St, body: seq<Cmd>, m: Mem) returns (st': St, g: nat)
    requires GoodBody(body) && Starts(p, st.pos, RenderBody(body)) && Represents(st, m)
    requires NotElse(p, st.pos + |RenderBody(body)|)
    requires ExecBody(f, body, m).Fine? && CleanBody(f, body, m)
    ensures Runs(p, st, |RenderBody(body)|, st', g, ExecBody(f, body, m))
    decreases f, body, 1
  {
    if body == [] {
      st', g := st, 0;
    } else {
      st', g := SequenceRuns(f, p, st, body, m, Exec(f, body[0], m), ExecBody(f, body, m));
    }
  }

  lemma {:induction false} SequenceRuns(f: nat, p: Prog, st: St, body: seq<Cmd>, m: Mem, o: Outcome, all: Outcome)
    returns (st': St, g: nat)
    requires body != [] && GoodBody(body) && Starts(p, st.pos, RenderBody(body)) && Represents(st, m)
    requires NotElse(p, st.pos + |RenderBody(body)|) && o == Exec(f, body[0], m)
    requires all == ExecBody(f, body, m) && all.Fine? && CleanBody(f, body, m)
    ensures Runs(p, st, |RenderBody(body)|, st', g, all)
    decreases f, body, 0, 1
  {
    ExecOn(f, body, m, o);
    st', g := FirstRuns(f, p, st, body, m);
    if !o.returned {
      var st1, g1, g2 := st', g, 0;
      st', g2 := BodyRuns(f, p, st1, body[1..], o.m);
      RunsBoth(p, st, |RenderBody(body)|, |Render(body[0])|, st1, g1, o, |RenderBody(body[1..])|, st', g2, all);
      g := g1 + g2;
    }
  }
}
