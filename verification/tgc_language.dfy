// The little language TGC is meant to implement: abstract syntax, its token rendering,
// and a big-step meaning that never mentions tokens or positions.
module TgcLanguage {
  import opened CArithmetic
  import opened TgcMachine

  datatype Op = Mul | Div | Add | Sub | Lt | Gt | Eq

  datatype Ex = Lit(n: nat) | Name(x: string) | Bin(op: Op, l: Ex, r: Ex)

  datatype Cmd =
    | Declare(x: string)                       // int x;
    | Define(x: string, e: Ex)                 // int x = e;
    | Mention(x: string)                       // x;
    | Assign(x: string, e: Ex)                 // x = e;
    | Print(e: Ex)                             // print(e);
    | PrintText(s: string)                     // print("s");
    | Say(s: string)                           // "s";
    | Return(e: Ex)                            // return e;
    | If(c: Ex, body: seq<Cmd>)                // if (c) { body }
    | IfElse(c: Ex, body: seq<Cmd>, other: seq<Cmd>)
    | While(c: Ex, body: seq<Cmd>)
    | Block(body: seq<Cmd>)

  // ---------------------------------------------------------------------------
  // Rendering

  function OpToken(op: Op): Token {
    match op
    case Mul => TMul case Div => TDiv case Add => TPlus case Sub => TMinus
    case Lt => TLt case Gt => TGt case Eq => TEq
  }

  /** Binding strength: comparison 0, sums 1, products 2. */
  function Prec(op: Op): nat {
    match op
    case Mul => 2 case Div => 2 case Add => 1 case Sub => 1
    case Lt => 0 case Gt => 0 case Eq => 0
  }

  /** Where the left operand of op is expected. */
  function LeftLevel(op: Op): nat { if Prec(op) == 0 then 1 else Prec(op) }

  /** Tokens of e where an operand of strength at least `level` is expected; parentheses
      only where they are needed.  Sums and products associate to the left. */
  function ExTokens(e: Ex, level: nat): (r: seq<Token>)
    ensures |r| > 0
    decreases e, 1
  {
    match e
    case Lit(n) => [TNum(n)]
    case Name(x) => [TId(x)]
    case Bin(op, _, _) => if Prec(op) < level then [TLParen] + (BinTokens(e) + [TRParen]) else BinTokens(e)
  }

  function BinTokens(e: Ex): (r: seq<Token>)
    requires e.Bin?
    ensures |r| > 0
    decreases e, 0
  {
    ExTokens(e.l, LeftLevel(e.op)) + ([OpToken(e.op)] + ExTokens(e.r, Prec(e.op) + 1))
  }

  function BodyTokens(body: seq<Cmd>): seq<Token>
    decreases body
  {
    if body == [] then [] else CmdTokens(body[0]) + BodyTokens(body[1..])
  }

  /** Statements that hold no others. */
  predicate Simple(s: Cmd) {
    !s.If? && !s.IfElse? && !s.While? && !s.Block?
  }

  function RenderSimple(s: Cmd): (r: seq<Token>)
    requires Simple(s)
    ensures |r| > 0
  {
    match s
    case Declare(x) => [TInt, TId(x), TSemi]
    case Define(x, e) => [TInt, TId(x), TAssign] + (ExTokens(e, 0) + [TSemi])
    case Mention(x) => [TId(x), TSemi]
    case Assign(x, e) => [TId(x), TAssign] + (ExTokens(e, 0) + [TSemi])
    case Print(e) => [TPrint, TLParen] + (ExTokens(e, 0) + [TRParen, TSemi])
    case PrintText(t) => [TPrint, TLParen, TString(t), TRParen, TSemi]
    case Say(t) => [TString(t), TSemi]
    case Return(e) => [TReturn] + (ExTokens(e, 0) + [TSemi])
  }

  function CmdTokens(s: Cmd): (r: seq<Token>)
    ensures |r| > 0
    decreases s
  {
    if Simple(s) then RenderSimple(s)
    else
      match s
      case If(c, body) => [TIf] + (([TLParen] + (ExTokens(c, 0) + [TRParen, TLBrace])) + (BodyTokens(body) + [TRBrace]))
      case IfElse(c, body, other) =>
        [TIf] + (([TLParen] + (ExTokens(c, 0) + [TRParen, TLBrace])) + (BodyTokens(body) + ([TRBrace] + (ElseTokens() + (BodyTokens(other) + [TRBrace])))))
      case While(c, body) => [TWhile] + (([TLParen] + (ExTokens(c, 0) + [TRParen, TLBrace])) + (BodyTokens(body) + [TRBrace]))
      case Block(body) => [TLBrace] + (BodyTokens(body) + [TRBrace])
  }

  /** The tokens of expressions, statements and statement lists, under names that are not
      recursive: proofs about where a rendering stands need not look into it. */
  function RenderEx(e: Ex, level: nat): (r: seq<Token>)
    ensures |r| > 0
  {
    ExTokens(e, level)
  }

  function RenderBin(e: Ex): (r: seq<Token>)
    requires e.Bin?
    ensures |r| > 0
  {
    BinTokens(e)
  }

  function Render(s: Cmd): (r: seq<Token>)
    ensures |r| > 0
  {
    CmdTokens(s)
  }

  function RenderBody(body: seq<Cmd>): seq<Token> {
    BodyTokens(body)
  }

  function ElseTokens(): seq<Token> {
    [TId("else"), TLBrace]
  }

  function RenderCond(c: Ex): seq<Token> {
    [TLParen] + (RenderEx(c, 0) + [TRParen, TLBrace])
  }

  /** int main() { body } */
  function RenderProgram(body: seq<Cmd>): seq<Token> {
    [TInt, TId("main"), TLParen, TRParen, TLBrace] + (RenderBody(body) + [TRBrace, TEof])
  }

  // ---------------------------------------------------------------------------
  // Meaning

  /** Variables (absent means 0), output, and the value of the last return. */
  datatype Mem = Mem(env: map<string, int>, out: seq<Event>, rv: int)

  function Get(env: map<string, int>, x: string): int {
    if x in env then env[x] else 0
  }

  function Apply(op: Op, a: int, b: int): int {
    match op
    case Mul => a * b
    case Div => if b == 0 then a else CDiv(a, b)
    case Add => a + b
    case Sub => a - b
    case Lt => Truth(a < b)
    case Gt => Truth(a > b)
    case Eq => Truth(a == b)
  }

  /** A comparison is 1 if it holds and 0 if not; a quotient is rounded toward zero, and a
      division by zero leaves the dividend. */
  lemma ApplyExact(op: Op, a: int, b: int)
    ensures Prec(op) == 0 ==> Apply(op, a, b) == if (if op == Lt then a < b else if op == Gt then a > b else a == b) then 1 else 0
    ensures op == Div && b == 0 ==> Apply(op, a, b) == a
    ensures op == Div && b != 0 ==>
      Abs(a - b * Apply(op, a, b)) < Abs(b) && (a >= 0 ==> a - b * Apply(op, a, b) >= 0) && (a <= 0 ==> a - b * Apply(op, a, b) <= 0)
  {
    if b != 0 { CDivRemainder(a, b); }
  }

  function Eval(e: Ex, env: map<string, int>): int {
    match e
    case Lit(n) => n
    case Name(x) => Get(env, x)
    case Bin(op, l, r) => Apply(op, Eval(l, env), Eval(r, env))
  }

  /** The division errors reported while e is evaluated, left to right. */
  function Faults(e: Ex, env: map<string, int>): seq<Event> {
    match e
    case Lit(_) => []
    case Name(_) => []
    case Bin(op, l, r) =>
      Faults(l, env) + (Faults(r, env) + if op == Div && Eval(r, env) == 0 then [DivisionByZero] else [])
  }

  /** Memory after evaluating e. */
  function After(e: Ex, m: Mem): Mem {
    m.(out := m.out + Faults(e, m.env))
  }

  datatype Outcome = Fine(m: Mem, returned: bool) | Timeout

  function RunBody(fuel: nat, body: seq<Cmd>, m: Mem): Outcome
    decreases fuel, body, 1
  {
    if body == [] then Fine(m, false)
    else
      var o := RunCmd(fuel, body[0], m);
      if o.Timeout? || o.returned then o else RunBody(fuel, body[1..], o.m)
  }

  function ExecSimple(s: Cmd, m: Mem): Outcome
    requires Simple(s)
  {
    match s
    case Declare(x) => Fine(m, false)
    case Define(x, e) => Fine(Set(After(e, m), x, Eval(e, m.env)), false)
    case Mention(x) => Fine(m, false)
    case Assign(x, e) => Fine(Set(After(e, m), x, Eval(e, m.env)), false)
    case Print(e) => Fine(Put(After(e, m), Number(Eval(e, m.env))), false)
    case PrintText(t) => Fine(Put(m, Text(t)), false)
    case Say(t) => Fine(Put(m, Text(t)), false)
    case Return(e) => Fine(After(e, m).(rv := Eval(e, m.env)), true)
  }

  function RunCmd(fuel: nat, s: Cmd, m: Mem): Outcome
    decreases fuel, s, 0
  {
    if Simple(s) then ExecSimple(s, m)
    else
      match s
      case If(c, body) =>
        if Eval(c, m.env) != 0 then RunBody(fuel, body, After(c, m)) else Fine(After(c, m), false)
      case IfElse(c, body, other) =>
        if Eval(c, m.env) != 0 then RunBody(fuel, body, After(c, m)) else RunBody(fuel, other, After(c, m))
      case While(c, body) =>
        if Eval(c, m.env) == 0 then Fine(After(c, m), false)
        else if fuel == 0 then Timeout
        else
          var o := RunBody(fuel, body, After(c, m));
          if o.Timeout? || o.returned then o else RunCmd(fuel - 1, s, o.m)
      case Block(body) => RunBody(fuel, body, m)
  }

  /** The outcome of a list of statements and of a statement, under names that are not
      recursive.  Each turn of a while statement takes one unit of fuel. */
  function ExecBody(fuel: nat, body: seq<Cmd>, m: Mem): Outcome {
    RunBody(fuel, body, m)
  }

  function Exec(fuel: nat, s: Cmd, m: Mem): Outcome {
    RunCmd(fuel, s, m)
  }

  function Set(m: Mem, x: string, v: int): Mem {
    m.(env := m.env[x := v])
  }

  function Put(m: Mem, e: Event): Mem {
    m.(out := m.out + [e])
  }

  // ---------------------------------------------------------------------------
  // Programs that can be written down

  predicate GoodName(x: string) {
    |x| <= 31 && x != "else"
  }

  predicate GoodEx(e: Ex) {
    match e
    case Lit(_) => true
    case Name(x) => GoodName(x)
    case Bin(_, l, r) => GoodEx(l) && GoodEx(r)
  }

  predicate GoodBody(body: seq<Cmd>) {
    forall i :: 0 <= i < |body| ==> Good(body[i])
  }

  predicate Good(s: Cmd) {
    match s
    case Declare(x) => GoodName(x)
    case Define(x, e) => GoodName(x) && GoodEx(e)
    case Mention(x) => GoodName(x)
    case Assign(x, e) => GoodName(x) && GoodEx(e)
    case Print(e) => GoodEx(e)
    case PrintText(_) => true
    case Say(_) => true
    case Return(e) => GoodEx(e)
    case If(c, body) => GoodEx(c) && GoodBody(body)
    case IfElse(c, body, other) => GoodEx(c) && GoodBody(body) && GoodBody(other)
    case While(c, body) => GoodEx(c) && GoodBody(body)
    case Block(body) => GoodBody(body)
  }
}
