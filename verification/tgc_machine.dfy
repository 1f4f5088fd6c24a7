// The TGC evaluator of main.c: a recursive descent over the token array that executes
// while it parses, as functions of the interpreter's variables.
module TgcMachine {
  import opened CArithmetic

  datatype Token =
    | TInt | TId(name: string) | TNum(val: int) | TString(str: string)
    | TIf | TWhile | TPrint | TReturn
    | TPlus | TMinus | TMul | TDiv | TLt | TGt | TEq | TAssign
    | TLParen | TRParen | TLBrace | TRBrace | TSemi | TEof

  datatype Var = Var(name: string, val: int)

  /** What reaches the console. */
  datatype Event = Number(n: int) | Text(s: string) | DivisionByZero | Unexpected(at: nat)

  /** t_pos, vars, the output so far, and *rv. */
  datatype St = St(pos: nat, vars: seq<Var>, out: seq<Event>, rv: int)

  datatype Val = Val(st: St, v: int)

  /** The token array, and what the C library functions answer. */
  datatype Prog = Prog(tokens: seq<Token>, builtin: (string, seq<int>) -> int)

  function At(p: Prog, pos: nat): Token {
    if pos < |p.tokens| then p.tokens[pos] else TEof
  }

  function Left(p: Prog, st: St): nat {
    if st.pos < |p.tokens| then |p.tokens| - st.pos else 0
  }

  /** tgc_strncpy into 32 bytes. */
  function Take31(name: string): string {
    if |name| <= 31 then name else name[..31]
  }

  /** Index of the first variable with that name, or |vars|. */
  function FindVar(vars: seq<Var>, name: string): (i: nat)
    ensures i <= |vars|
    ensures i < |vars| ==> vars[i].name == name
    ensures forall k :: 0 <= k < i ==> vars[k].name != name
  {
    if vars == [] then 0
    else if vars[0].name == name then 0
    else 1 + FindVar(vars[1..], name)
  }

  /** The variables after get_var(name); the variable is at FindVar(vars, name). */
  function GetVar(vars: seq<Var>, name: string): (r: seq<Var>)
    ensures FindVar(vars, name) < |r|
  {
    if FindVar(vars, name) < |vars| then vars else vars + [Var(Take31(name), 0)]
  }

  /** Evaluating moves forward, and loses no variable. */
  ghost predicate Advances(p: Prog, st: St, r: St) {
    && st.pos <= r.pos && r.pos + Left(p, r) == st.pos + Left(p, st)
    && |st.vars| <= |r.vars|
  }

  function Skip1(st: St): St {
    st.(pos := st.pos + 1)
  }

  /** if (tokens[t_pos].type == t) t_pos++; */
  function Accept(p: Prog, st: St, t: Token): (r: St)
    requires t != TEof
  {
    if At(p, st.pos) == t then Skip1(st) else st
  }

  function Emit(st: St, e: Event): St {
    st.(out := st.out + [e])
  }

  // ---------------------------------------------------------------------------
  // Expressions

  function Factor(p: Prog, st: St): (r: Val)
    ensures Advances(p, st, r.st)
    ensures At(p, st.pos).TNum? || At(p, st.pos).TId? ==> r.st.pos > st.pos
    decreases Left(p, st), 0
  {
    match At(p, st.pos)
    case TNum(v) => Val(Skip1(st), v)
    case TId(name) =>
      if At(p, st.pos + 1) == TLParen then
        var st1 := st.(pos := st.pos + 2);
        if At(p, st1.pos) == TRParen then Val(Skip1(st1), p.builtin(Take31(name), []))
        else
          var a := Args(p, st1, []);
          Val(Accept(p, a.0, TRParen), p.builtin(Take31(name), a.1))
      else
        var vars := GetVar(st.vars, name);
        Val(Skip1(st).(vars := vars), vars[FindVar(st.vars, name)].val)
    case TLParen =>
      var e := Expr(p, Skip1(st));
      Val(Accept(p, e.st, TRParen), e.v)
    case _ => Val(st, 0)
  }

  /** The argument loop of a call. */
  function Args(p: Prog, st: St, args: seq<int>): (r: (St, seq<int>))
    ensures Advances(p, st, r.0)
    decreases Left(p, st), 7
  {
    var e := Expr(p, st);
    var args' := args + [e.v];
    if EndsArgs(At(p, e.st.pos)) then (e.st, args')
    else if BeginsArg(At(p, e.st.pos)) then Args(p, e.st, args')
    else Args(p, Skip1(e.st), args')
  }

  predicate EndsArgs(t: Token) {
    t.TRParen? || t.TSemi? || t.TEof?
  }

  predicate BeginsArg(t: Token) {
    t.TNum? || t.TId?
  }

  function TermRest(p: Prog, st: St, v: int): (r: Val)
    ensures Advances(p, st, r.st)
    decreases Left(p, st), 1
  {
    match At(p, st.pos)
    case TMul =>
      var f := Factor(p, Skip1(st));
      TermRest(p, f.st, v * f.v)
    case TDiv =>
      var f := Factor(p, Skip1(st));
      if f.v != 0 then TermRest(p, f.st, CDiv(v, f.v)) else TermRest(p, Emit(f.st, DivisionByZero), v)
    case _ => Val(st, v)
  }

  function Term(p: Prog, st: St): (r: Val)
    ensures Advances(p, st, r.st)
    ensures At(p, st.pos).TNum? || At(p, st.pos).TId? ==> r.st.pos > st.pos
    decreases Left(p, st), 2
  {
    var f := Factor(p, st);
    TermRest(p, f.st, f.v)
  }

  function AddRest(p: Prog, st: St, v: int): (r: Val)
    ensures Advances(p, st, r.st)
    decreases Left(p, st), 3
  {
    match At(p, st.pos)
    case TPlus =>
      var t := Term(p, Skip1(st));
      AddRest(p, t.st, v + t.v)
    case TMinus =>
      var t := Term(p, Skip1(st));
      AddRest(p, t.st, v - t.v)
    case _ => Val(st, v)
  }

  function ExprAdd(p: Prog, st: St): (r: Val)
    ensures Advances(p, st, r.st)
    ensures At(p, st.pos).TNum? || At(p, st.pos).TId? ==> r.st.pos > st.pos
    decreases Left(p, st), 4
  {
    var t := Term(p, st);
    AddRest(p, t.st, t.v)
  }

  function Truth(b: bool): int { if b then 1 else 0 }

  /** What tgc_expr does after its first operand. */
  function Compare(p: Prog, a: Val): (r: Val)
    ensures Advances(p, a.st, r.st)
    decreases Left(p, a.st), 5
  {
    match At(p, a.st.pos)
    case TLt => var b := ExprAdd(p, Skip1(a.st)); Val(b.st, Truth(a.v < b.v))
    case TGt => var b := ExprAdd(p, Skip1(a.st)); Val(b.st, Truth(a.v > b.v))
    case TEq => var b := ExprAdd(p, Skip1(a.st)); Val(b.st, Truth(a.v == b.v))
    case _ => a
  }

  function Expr(p: Prog, st: St): (r: Val)
    ensures Advances(p, st, r.st)
    ensures At(p, st.pos).TNum? || At(p, st.pos).TId? ==> r.st.pos > st.pos
    decreases Left(p, st), 6
  {
    Compare(p, ExprAdd(p, st))
  }

  // ---------------------------------------------------------------------------
  // Statements

  /** tgc_skip with brace count b: the position it stops at. */
  function SkipTo(p: Prog, pos: nat, b: nat): (r: nat)
    ensures r >= pos
    decreases if pos < |p.tokens| then |p.tokens| - pos else 0
  {
    match At(p, pos)
    case TEof => pos
    case TLBrace => SkipTo(p, pos + 1, b + 1)
    case TRBrace => if b == 0 then pos + 1 else SkipTo(p, pos + 1, b - 1)
    case _ => SkipTo(p, pos + 1, b)
  }

  function Skip(p: Prog, st: St): St {
    st.(pos := SkipTo(p, st.pos, 0))
  }

  /** The outcome of executing statements: where they left off and whether a return
      statement was executed; OutOfFuel if they need more nested or repeated calls. */
  datatype Flow = Done(st: St, returned: bool) | OutOfFuel

  predicate AtEnd(p: Prog, st: St) {
    At(p, st.pos) == TRBrace || At(p, st.pos) == TEof
  }

  /** int and id statements share their tail: an optional "= expr" and semicolon. */
  function AssignTail(p: Prog, st: St, i: nat): (r: St)
    requires i < |st.vars|
  {
    if At(p, st.pos) == TAssign then
      var e := Expr(p, Skip1(st));
      e.st.(vars := e.st.vars[i := e.st.vars[i].(val := e.v)])
    else st
  }

  /** if (tokens[t_pos].type == T_LPAREN) t_pos++; c = expr; RPAREN; LBRACE */
  function Condition(p: Prog, st: St): Val {
    var e := Expr(p, Accept(p, st, TLParen));
    Val(Accept(p, Accept(p, e.st, TRParen), TLBrace), e.v)
  }

  predicate IsElse(p: Prog, st: St) {
    At(p, st.pos) == TId("else")
  }

  /** while (not at a closing brace or the end) if (tgc_stmt(rv)) return 1; */
  function Body(fuel: nat, p: Prog, st: St): Flow
    decreases fuel, 1
  {
    if AtEnd(p, st) then Done(st, false)
    else if fuel == 0 then OutOfFuel
    else
      var f := Stmt(fuel - 1, p, st);
      if f.OutOfFuel? || f.returned then f else Body(fuel - 1, p, f.st)
  }

  /** A body and its closing brace. */
  function Braced(fuel: nat, p: Prog, st: St): Flow
    decreases fuel, 2
  {
    var f := Body(fuel, p, st);
    if f.OutOfFuel? || f.returned then f else Done(Accept(p, f.st, TRBrace), false)
  }

  /** Statements that execute no others. */
  function SimpleStmt(p: Prog, st: St): Flow {
    match At(p, st.pos)
    case TInt =>
      var st1 := Skip1(st);
      (match At(p, st1.pos)
       case TId(name) =>
         var st2 := AssignTail(p, Skip1(st1).(vars := GetVar(st1.vars, name)), FindVar(st1.vars, name));
         Done(Accept(p, st2, TSemi), false)
       case _ => Done(Accept(p, st1, TSemi), false))
    case TId(name) =>
      var st1 := AssignTail(p, Skip1(st).(vars := GetVar(st.vars, name)), FindVar(st.vars, name));
      Done(Accept(p, st1, TSemi), false)
    case TPrint =>
      var st1 := Accept(p, Skip1(st), TLParen);
      var st2 := (match At(p, st1.pos)
                  case TString(s) => Emit(Skip1(st1), Text(s))
                  case _ => var e := Expr(p, st1); Emit(e.st, Number(e.v)));
      Done(Accept(p, Accept(p, st2, TRParen), TSemi), false)
    case TReturn =>
      var e := Expr(p, Skip1(st));
      Done(Accept(p, e.st.(rv := e.v), TSemi), true)
    case TString(s) => Done(Accept(p, Emit(Skip1(st), Text(s)), TSemi), false)
    case TEof => Done(st, false)
    case _ => Done(Skip1(Emit(st, Unexpected(st.pos))), false)
  }

  /** The if statement at st. */
  function IfStmt(fuel: nat, p: Prog, st: St): Flow
    decreases fuel, 4
  {
    var c := Condition(p, Skip1(st));
    if c.v != 0 then
      var f := Braced(fuel, p, c.st);
      if f.OutOfFuel? || f.returned then f
      else if IsElse(p, f.st) then SkipElse(fuel, p, Skip1(f.st))
      else f
    else
      var st1 := Skip(p, c.st);
      if IsElse(p, st1) then Braced(fuel, p, Accept(p, Skip1(st1), TLBrace))
      else Done(st1, false)
  }

  /** What follows `else` when the first branch was taken: tgc_skip is entered with the
      opening brace still ahead; without one, a statement is executed. */
  function SkipElse(fuel: nat, p: Prog, st: St): Flow
    decreases fuel, 3, 1
  {
    if At(p, st.pos) == TLBrace then Done(Skip(p, st), false)
    else
      var g := Stmt(fuel, p, st);
      if g.OutOfFuel? then g else Done(g.st, false)
  }

  /** The while statement at st: one turn. */
  function WhileStmt(fuel: nat, p: Prog, st: St): Flow
    decreases fuel, 4
  {
    var c := Condition(p, Skip1(st));
    if c.v != 0 then
      var f := Body(fuel, p, c.st);
      if f.OutOfFuel? || f.returned then f else Done(f.st.(pos := st.pos), false)
    else Done(Skip(p, c.st), false)
  }

  function Stmt(fuel: nat, p: Prog, st: St): Flow
    decreases fuel, 3, 0
  {
    match At(p, st.pos)
    case TIf => if fuel == 0 then OutOfFuel else IfStmt(fuel - 1, p, st)
    case TWhile => if fuel == 0 then OutOfFuel else WhileStmt(fuel - 1, p, st)
    case TLBrace => if fuel == 0 then OutOfFuel else Braced(fuel - 1, p, Skip1(st))
    case _ => SimpleStmt(p, st)
  }

  // ---------------------------------------------------------------------------
  // The driver in cmd_tgc

  /** Index of the first identifier `main` from i on, or |tokens|. */
  function FindMain(p: Prog, i: nat): (m: nat)
    requires i <= |p.tokens|
    ensures i <= m <= |p.tokens|
    ensures m < |p.tokens| ==> p.tokens[m] == TId("main")
    ensures forall k :: i <= k < m ==> p.tokens[k] != TId("main")
    decreases |p.tokens| - i
  {
    if i == |p.tokens| || p.tokens[i] == TId("main") then i else FindMain(p, i + 1)
  }

  function Entry(p: Prog): nat {
    var m := FindMain(p, 0);
    if m == |p.tokens| then 0
    else Accept(p, Accept(p, Accept(p, St(m + 1, [], [], 0), TLParen), TRParen), TLBrace).pos
  }

  function Run(fuel: nat, p: Prog): Flow {
    Body(fuel, p, St(Entry(p), [], [], 0))
  }
}
