// The interpreter as it is written: recursive procedures and loops over t_pos, vars and
// *rv, each proved to do what the functions of TgcMachine say.  `fuel` is a ghost bound
// on nested and repeated statements: the contracts speak of the runs that end.
module TgcInterpreter {
  import opened CArithmetic
  import opened M = TgcMachine

  class Tgc {
    const p: Prog
    var pos: nat
    var vars: seq<Var>
    var out: seq<Event>
    var rv: int

    constructor (p: Prog)
      ensures this.p == p && View() == St(0, [], [], 0)
    {
      this.p := p;
      pos, vars, out, rv := 0, [], [], 0;
    }

    function View(): St
      reads this
    {
      St(pos, vars, out, rv)
    }

    method AcceptToken(t: Token)
      requires t != TEof
      modifies this`pos
      ensures View() == Accept(p, old(View()), t)
    {
      if At(p, pos) == t { pos := pos + 1; }
    }

    method Say(e: Event)
      modifies this`out
      ensures View() == Emit(old(View()), e)
    {
      out := out + [e];
    }

    /** get_var */
    method Variable(name: string) returns (i: nat)
      modifies this`vars
      ensures i == FindVar(old(vars), name) < |vars| && vars == GetVar(old(vars), name)
    {
      i := 0;
      while i < |vars|
        invariant i <= |vars| && vars == old(vars)
        invariant forall k :: 0 <= k < i ==> vars[k].name != name
      {
        if vars[i].name == name {
          FirstIs(vars, name, i);
          return;
        }
        i := i + 1;
      }
      FirstIs(vars, name, i);
      vars := vars + [Var(Take31(name), 0)];
    }

    /** A call of a C library function. */
    method Call() returns (v: int)
      requires At(p, pos).TId? && At(p, pos + 1) == TLParen
      modifies this
      ensures Val(View(), v) == Called(p, old(View()))
      decreases Left(p, View()), 0, 0
    {
      var name := At(p, pos).name;
      pos := pos + 2;
      var args := [];
      if At(p, pos) != TRParen { args := Arguments(); }
      AcceptToken(TRParen);
      v := p.builtin(Take31(name), args);
    }

    /** A variable. */
    method Read() returns (v: int)
      requires At(p, pos).TId? && At(p, pos + 1) != TLParen
      modifies this`pos, this`vars
      ensures Val(View(), v) == M.Factor(p, old(View()))
    {
      var name := At(p, pos).name;
      pos := pos + 1;
      var i := Variable(name);
      v := vars[i].val;
    }

    method Factor() returns (v: int)
      modifies this
      ensures Val(View(), v) == M.Factor(p, old(View()))
      decreases Left(p, View()), 0, 1
    {
      match At(p, pos)
      case TNum(n) =>
        pos := pos + 1;
        v := n;
      case TId(name) =>
        if At(p, pos + 1) == TLParen {
          CallIs(p, View());
          v := Call();
        } else {
          v := Read();
        }
      case TLParen =>
        pos := pos + 1;
        v := Expr();
        AcceptToken(TRParen);
      case _ =>
        v := 0;
    }

    /** One argument; `more` says whether another follows. */
    method Argument(args: seq<int>) returns (args': seq<int>, more: bool)
      modifies this
      ensures Advances(p, old(View()), View())
      ensures Args(p, old(View()), args) == if more then Args(p, View(), args') else (View(), args')
      ensures more ==> Left(p, View()) < Left(p, old(View()))
      decreases Left(p, View()), 7, 0
    {
      var v := Expr();
      args', more := args + [v], !EndsArgs(At(p, pos));
      if more && !BeginsArg(At(p, pos)) { pos := pos + 1; }
    }

    method Arguments() returns (args: seq<int>)
      modifies this
      ensures (View(), args) == Args(p, old(View()), [])
      decreases Left(p, View()), 7, 1
    {
      args := [];
      var more := true;
      while more
        invariant Advances(p, old(View()), View())
        invariant Args(p, old(View()), []) == if more then Args(p, View(), args) else (View(), args)
        decreases more, Left(p, View())
      {
        args, more := Argument(args);
      }
    }

    /** One turn of the product loop. */
    method MulDiv(v: int) returns (v': int)
      requires At(p, pos) == TMul || At(p, pos) == TDiv
      modifies this
      ensures Val(View(), v') == Scaled(p, old(View()), v)
      decreases Left(p, View()), 1
    {
      var mul := At(p, pos) == TMul;
      pos := pos + 1;
      var f := Factor();
      if mul {
        v' := v * f;
      } else if f != 0 {
        v' := CDiv(v, f);
      } else {
        v' := v;
        Say(DivisionByZero);
      }
    }

    method Term() returns (v: int)
      modifies this
      ensures Val(View(), v) == M.Term(p, old(View()))
      decreases Left(p, View()), 2
    {
      v := Factor();
      while At(p, pos) == TMul || At(p, pos) == TDiv
        invariant Advances(p, old(View()), View())
        invariant TermRest(p, View(), v) == M.Term(p, old(View()))
        decreases Left(p, View())
      {
        ScaledOn(p, View(), v);
        v := MulDiv(v);
      }
    }

    /** One turn of the sum loop. */
    method AddSub(v: int) returns (v': int)
      requires At(p, pos) == TPlus || At(p, pos) == TMinus
      modifies this
      ensures Val(View(), v') == Summed(p, old(View()), v)
      decreases Left(p, View()), 3
    {
      var minus := At(p, pos) == TMinus;
      pos := pos + 1;
      var t := Term();
      v' := if minus then v - t else v + t;
    }

    method ExprAdd() returns (v: int)
      modifies this
      ensures Val(View(), v) == M.ExprAdd(p, old(View()))
      decreases Left(p, View()), 4
    {
      v := Term();
      while At(p, pos) == TPlus || At(p, pos) == TMinus
        invariant Advances(p, old(View()), View())
        invariant AddRest(p, View(), v) == M.ExprAdd(p, old(View()))
        decreases Left(p, View())
      {
        SummedOn(p, View(), v);
        v := AddSub(v);
      }
    }

    method Expr() returns (v: int)
      modifies this
      ensures Val(View(), v) == M.Expr(p, old(View()))
      decreases Left(p, View()), 6
    {
      v := ExprAdd();
      match At(p, pos)
      case TLt => pos := pos + 1; var b := ExprAdd(); v := Truth(v < b);
      case TGt => pos := pos + 1; var b := ExprAdd(); v := Truth(v > b);
      case TEq => pos := pos + 1; var b := ExprAdd(); v := Truth(v == b);
      case _ =>
    }

    method Skip()
      modifies this`pos
      ensures View() == M.Skip(p, old(View()))
    {
      var b := 0;
      while At(p, pos) != TEof
        invariant b >= 0 && SkipTo(p, pos, b) == SkipTo(p, old(pos), 0)
        decreases Left(p, View())
      {
        if At(p, pos) == TLBrace {
          b := b + 1;
        } else if At(p, pos) == TRBrace {
          b := b - 1;
          if b < 0 {
            pos := pos + 1;
            return;
          }
        }
        pos := pos + 1;
      }
    }

    /** Optional "= expr" for variable i. */
    method AssignRest(i: nat)
      requires i < |vars|
      modifies this
      ensures View() == AssignTail(p, old(View()), i)
    {
      if At(p, pos) == TAssign {
        pos := pos + 1;
        var v := Expr();
        vars := vars[i := vars[i].(val := v)];
      }
    }

    method ReadCondition() returns (c: int)
      modifies this
      ensures Val(View(), c) == Condition(p, old(View()))
    {
      AcceptToken(TLParen);
      c := Expr();
      AcceptToken(TRParen);
      AcceptToken(TLBrace);
    }

    /** From an identifier on, in both statements that may assign to it. */
    method Assign()
      requires At(p, pos).TId?
      modifies this
      ensures View() == Assigned(p, old(View()))
    {
      var name := At(p, pos).name;
      pos := pos + 1;
      var i := Variable(name);
      AssignRest(i);
    }

    method Declaration()
      requires At(p, pos) == TInt
      modifies this
      ensures Done(View(), false) == SimpleStmt(p, old(View()))
    {
      ghost var st0 := View();
      pos := pos + 1;
      ghost var st1 := View();
      if At(p, pos).TId? { Assign(); }
      ghost var st2 := View();
      AcceptToken(TSemi);
      DeclarationIs(p, st0, st1, st2);
    }

    method Assignment()
      requires At(p, pos).TId?
      modifies this
      ensures Done(View(), false) == SimpleStmt(p, old(View()))
    {
      Assign();
      AcceptToken(TSemi);
    }

    method PrintArgument()
      modifies this
      ensures View() == Printed(p, old(View()))
    {
      if At(p, pos).TString? {
        var s := At(p, pos).str;
        pos := pos + 1;
        Say(Text(s));
      } else {
        var v := Expr();
        Say(Number(v));
      }
    }

    method PrintStatement()
      requires At(p, pos) == TPrint
      modifies this
      ensures View() == PrintedAll(p, old(View()))
    {
      pos := pos + 1;
      AcceptToken(TLParen);
      PrintArgument();
      AcceptToken(TRParen);
      AcceptToken(TSemi);
    }

    method ReturnStatement()
      requires At(p, pos) == TReturn
      modifies this
      ensures Done(View(), true) == SimpleStmt(p, old(View()))
    {
      pos := pos + 1;
      rv := Expr();
      AcceptToken(TSemi);
    }

    method Simple() returns (returned: bool)
      modifies this
      ensures Done(View(), returned) == SimpleStmt(p, old(View()))
    {
      returned := false;
      match At(p, pos)
      case TInt => Declaration();
      case TId(name) => Assignment();
      case TPrint =>
        PrintIs(p, View());
        PrintStatement();
      case TReturn =>
        ReturnStatement();
        returned := true;
      case TString(s) =>
        pos := pos + 1;
        Say(Text(s));
        AcceptToken(TSemi);
      case TEof =>
      case _ =>
        Say(Unexpected(pos));
        pos := pos + 1;
    }

    /** The body of the loop around tgc_stmt. */
    method NextStatement(ghost fuel: nat) returns (returned: bool)
      requires Body(fuel, p, View()).Done? && !AtEnd(p, View())
      modifies this
      ensures fuel > 0
      ensures Body(fuel, p, old(View())) == if returned then Done(View(), true) else Body(fuel - 1, p, View())
      decreases fuel, 0
    {
      StatementNext(fuel, p, View());
      returned := Stmt(fuel - 1);
    }

    /** while (not at a closing brace or the end) if (tgc_stmt(rv)) return 1; */
    method Statements(ghost fuel: nat) returns (returned: bool)
      requires Body(fuel, p, View()).Done?
      modifies this
      ensures Done(View(), returned) == Body(fuel, p, old(View()))
      decreases fuel, 1
    {
      ghost var left: nat := fuel;
      while At(p, pos) != TRBrace && At(p, pos) != TEof
        invariant Body(left, p, View()) == Body(fuel, p, old(View())) && Body(left, p, View()).Done?
        invariant left <= fuel
        decreases left
      {
        returned := NextStatement(left);
        if returned { return; }
        left := left - 1;
      }
      returned := false;
    }

    method Enclosed(ghost fuel: nat) returns (returned: bool)
      requires Braced(fuel, p, View()).Done?
      modifies this
      ensures Done(View(), returned) == Braced(fuel, p, old(View()))
      decreases fuel, 2
    {
      returned := Statements(fuel);
      if !returned { AcceptToken(TRBrace); }
    }

    /** What is done about an else behind a taken branch. */
    method ElseBehind(ghost fuel: nat)
      requires SkipElse(fuel, p, View()).Done?
      modifies this
      ensures Done(View(), false) == SkipElse(fuel, p, old(View()))
      decreases fuel, 3, 1
    {
      if At(p, pos) == TLBrace {
        Skip();
      } else {
        var ignored := Stmt(fuel);
      }
    }

    method Taken(ghost fuel: nat) returns (returned: bool)
      requires IfTaken(fuel, p, View()).Done?
      modifies this
      ensures Done(View(), returned) == IfTaken(fuel, p, old(View()))
      decreases fuel, 3, 2
    {
      returned := Enclosed(fuel);
      if !returned && At(p, pos) == TId("else") {
        pos := pos + 1;
        ElseBehind(fuel);
      }
    }

    method Untaken(ghost fuel: nat) returns (returned: bool)
      requires IfUntaken(fuel, p, View()).Done?
      modifies this
      ensures Done(View(), returned) == IfUntaken(fuel, p, old(View()))
      decreases fuel, 3, 2
    {
      returned := false;
      Skip();
      if At(p, pos) == TId("else") {
        pos := pos + 1;
        AcceptToken(TLBrace);
        returned := Enclosed(fuel);
      }
    }

    method If(ghost fuel: nat) returns (returned: bool)
      requires IfBranch(fuel, p, Condition(p, Skip1(View()))).Done?
      modifies this
      ensures Done(View(), returned) == IfBranch(fuel, p, Condition(p, Skip1(old(View()))))
      decreases fuel, 4
    {
      pos := pos + 1;
      var c := ReadCondition();
      if c != 0 {
        returned := Taken(fuel);
      } else {
        returned := Untaken(fuel);
      }
    }

    method While(ghost fuel: nat) returns (returned: bool)
      requires WhileBranch(fuel, p, Condition(p, Skip1(View())), pos).Done?
      modifies this
      ensures Done(View(), returned) == WhileBranch(fuel, p, Condition(p, Skip1(old(View()))), old(pos))
      decreases fuel, 4
    {
      var s := pos;
      pos := pos + 1;
      var c := ReadCondition();
      if c != 0 {
        returned := Statements(fuel);
        if returned { return; }
        AcceptToken(TRBrace);
        pos := s;
      } else {
        Skip();
      }
      returned := false;
    }

    method IfStatement(ghost fuel: nat) returns (returned: bool)
      requires IfStmt(fuel, p, View()).Done?
      modifies this
      ensures Done(View(), returned) == IfStmt(fuel, p, old(View()))
      decreases fuel, 5
    {
      IfIs(fuel, p, View());
      returned := If(fuel);
    }

    method WhileStatement(ghost fuel: nat) returns (returned: bool)
      requires WhileStmt(fuel, p, View()).Done?
      modifies this
      ensures Done(View(), returned) == WhileStmt(fuel, p, old(View()))
      decreases fuel, 5
    {
      WhileIs(fuel, p, View());
      returned := While(fuel);
    }

    /** tgc_stmt */
    method Stmt(ghost fuel: nat) returns (returned: bool)
      requires M.Stmt(fuel, p, View()).Done?
      modifies this
      ensures Done(View(), returned) == M.Stmt(fuel, p, old(View()))
      decreases fuel, 3, 0
    {
      match At(p, pos)
      case TIf => returned := IfStatement(fuel - 1);
      case TWhile => returned := WhileStatement(fuel - 1);
      case TLBrace =>
        pos := pos + 1;
        returned := Enclosed(fuel - 1);
      case _ => returned := Simple();
    }

    /** To the first statement of main, or of the program if there is no main. */
    method FindEntry()
      requires View() == St(0, [], [], 0)
      modifies this`pos
      ensures View() == St(Entry(p), [], [], 0)
    {
      var m := 0;
      while m < |p.tokens| && p.tokens[m] != TId("main")
        invariant 0 <= m <= |p.tokens| && FindMain(p, m) == FindMain(p, 0)
      {
        m := m + 1;
      }
      if m < |p.tokens| {
        pos := m + 1;
        AcceptToken(TLParen);
        AcceptToken(TRParen);
        AcceptToken(TLBrace);
        EntryIs(p, m, pos);
      }
    }

    /** The driver part of cmd_tgc: find main, then execute. */
    method Execute(ghost fuel: nat) returns (code: int)
      requires View() == St(0, [], [], 0) && Run(fuel, p).Done?
      modifies this
      ensures View() == Run(fuel, p).st && code == rv
    {
      FindEntry();
      var returned := Statements(fuel);
      code := rv;
    }
  }

  /** A call, its value and where it leaves off. */
  function Called(p: Prog, st: St): Val
    requires At(p, st.pos).TId?
  {
    var st1 := st.(pos := st.pos + 2);
    var a := if At(p, st1.pos) == TRParen then (st1, []) else Args(p, st1, []);
    Val(Accept(p, a.0, TRParen), p.builtin(Take31(At(p, st.pos).name), a.1))
  }

  lemma CallIs(p: Prog, st: St)
    requires At(p, st.pos).TId? && At(p, st.pos + 1) == TLParen
    ensures M.Factor(p, st) == Called(p, st)
  {
  }

  /** v times or divided by the next factor. */
  function Scaled(p: Prog, st: St, v: int): Val {
    var f := M.Factor(p, Skip1(st));
    if At(p, st.pos) == TMul then Val(f.st, v * f.v)
    else if f.v != 0 then Val(f.st, CDiv(v, f.v)) else Val(Emit(f.st, DivisionByZero), v)
  }

  lemma ScaledOn(p: Prog, st: St, v: int)
    requires At(p, st.pos) == TMul || At(p, st.pos) == TDiv
    ensures var r := Scaled(p, st, v);
            TermRest(p, st, v) == TermRest(p, r.st, r.v) && Advances(p, st, r.st) && Left(p, r.st) < Left(p, st)
  {
  }

  /** v plus or minus the next term. */
  function Summed(p: Prog, st: St, v: int): Val {
    var t := M.Term(p, Skip1(st));
    Val(t.st, if At(p, st.pos) == TMinus then v - t.v else v + t.v)
  }

  lemma SummedOn(p: Prog, st: St, v: int)
    requires At(p, st.pos) == TPlus || At(p, st.pos) == TMinus
    ensures var r := Summed(p, st, v);
            AddRest(p, st, v) == AddRest(p, r.st, r.v) && Advances(p, st, r.st) && Left(p, r.st) < Left(p, st)
  {
  }

  function Assigned(p: Prog, st: St): St
    requires At(p, st.pos).TId?
  {
    var name := At(p, st.pos).name;
    AssignTail(p, Skip1(st).(vars := GetVar(st.vars, name)), FindVar(st.vars, name))
  }

  function Printed(p: Prog, st: St): St {
    match At(p, st.pos)
    case TString(s) => Emit(Skip1(st), Text(s))
    case _ => var e := Expr(p, st); Emit(e.st, Number(e.v))
  }

  lemma DeclarationIs(p: Prog, st: St, st1: St, st2: St)
    requires At(p, st.pos) == TInt && st1 == Skip1(st)
    requires st2 == if At(p, st1.pos).TId? then Assigned(p, st1) else st1
    ensures SimpleStmt(p, st) == Done(Accept(p, st2, TSemi), false)
  {
  }

  function PrintedAll(p: Prog, st: St): St {
    Accept(p, Accept(p, Printed(p, Accept(p, Skip1(st), TLParen)), TRParen), TSemi)
  }

  lemma PrintIs(p: Prog, st: St)
    requires At(p, st.pos) == TPrint
    ensures SimpleStmt(p, st) == Done(PrintedAll(p, st), false)
  {
  }

  function IfTaken(fuel: nat, p: Prog, st: St): Flow {
    var f := Braced(fuel, p, st);
    if f.OutOfFuel? || f.returned || !IsElse(p, f.st) then f else SkipElse(fuel, p, Skip1(f.st))
  }

  function IfUntaken(fuel: nat, p: Prog, st: St): Flow {
    var st1 := M.Skip(p, st);
    if IsElse(p, st1) then Braced(fuel, p, Accept(p, Skip1(st1), TLBrace)) else Done(st1, false)
  }

  function IfBranch(fuel: nat, p: Prog, c: Val): Flow {
    if c.v != 0 then IfTaken(fuel, p, c.st) else IfUntaken(fuel, p, c.st)
  }

  lemma IfIs(fuel: nat, p: Prog, st: St)
    ensures IfStmt(fuel, p, st) == IfBranch(fuel, p, Condition(p, Skip1(st)))
  {
  }

  function WhileBranch(fuel: nat, p: Prog, c: Val, s: nat): Flow {
    if c.v != 0 then
      var f := Body(fuel, p, c.st);
      if f.OutOfFuel? || f.returned then f else Done(f.st.(pos := s), false)
    else Done(M.Skip(p, c.st), false)
  }

  lemma WhileIs(fuel: nat, p: Prog, st: St)
    ensures WhileStmt(fuel, p, st) == WhileBranch(fuel, p, Condition(p, Skip1(st)), st.pos)
  {
  }

  lemma StatementNext(fuel: nat, p: Prog, st: St)
    requires !AtEnd(p, st) && Body(fuel, p, st).Done?
    ensures fuel > 0 && M.Stmt(fuel - 1, p, st).Done?
    ensures var f := M.Stmt(fuel - 1, p, st); Body(fuel, p, st) == if f.returned then f else Body(fuel - 1, p, f.st)
  {
  }

  lemma EntryIs(p: Prog, m: nat, pos: nat)
    requires m == FindMain(p, 0) < |p.tokens|
    requires pos == Accept(p, Accept(p, Accept(p, St(m + 1, [], [], 0), TLParen), TRParen), TLBrace).pos
    ensures Entry(p) == pos
  {
  }

  lemma FirstIs(vars: seq<Var>, name: string, i: nat)
    requires i <= |vars| && (i < |vars| ==> vars[i].name == name)
    requires forall k :: 0 <= k < i ==> vars[k].name != name
    ensures FindVar(vars, name) == i
  {
  }
}
