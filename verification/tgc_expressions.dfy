// The evaluator on the rendering of an expression tree computes the tree's value.
module TgcExpressions {
  import opened TgcMachine
  import opened TgcLanguage

  // ---------------------------------------------------------------------------
  // Token runs

  predicate TokenIs(p: Prog, pos: nat, r: seq<Token>, i: int) {
    0 <= i < |r| && At(p, pos + i) == r[i]
  }

  /** The tokens from pos on begin with r. */
  ghost predicate Starts(p: Prog, pos: nat, r: seq<Token>) {
    forall i :: 0 <= i < |r| ==> TokenIs(p, pos, r, i)
  }

  lemma TokensAt(p: Prog, pos: nat, r: seq<Token>, i: nat)
    requires Starts(p, pos, r) && i < |r|
    ensures At(p, pos + i) == r[i]
  {
    assert TokenIs(p, pos, r, i);
  }

  lemma Split(p: Prog, pos: nat, a: seq<Token>, b: seq<Token>)
    requires Starts(p, pos, a + b)
    ensures Starts(p, pos, a) && Starts(p, pos + |a|, b)
  {
    forall i | 0 <= i < |a| ensures TokenIs(p, pos, a, i) {
      assert TokenIs(p, pos, a + b, i);
    }
    var q := pos + |a|;
    forall i | 0 <= i < |b| ensures TokenIs(p, q, b, i) {
      assert TokenIs(p, pos, a + b, |a| + i);
    }
  }

  lemma SplitAs(p: Prog, pos: nat, r: seq<Token>, a: seq<Token>, b: seq<Token>)
    requires Starts(p, pos, r) && r == a + b
    ensures Starts(p, pos, a) && Starts(p, pos + |a|, b) && |r| == |a| + |b|
  {
    Split(p, pos, a, b);
  }

  lemma One(p: Prog, pos: nat, t: Token)
    requires Starts(p, pos, [t])
    ensures At(p, pos) == t
  {
    TokensAt(p, pos, [t], 0);
  }

  lemma Framed(p: Prog, pos: nat, r: seq<Token>, head: seq<Token>, mid: seq<Token>, tail: seq<Token>)
    requires Starts(p, pos, r) && r == head + (mid + tail)
    ensures Starts(p, pos, head) && Starts(p, pos + |head|, mid) && Starts(p, pos + |head| + |mid|, tail)
    ensures |r| == |head| + |mid| + |tail|
  {
    Split(p, pos, head, mid + tail);
    Split(p, pos + |head|, mid, tail);
  }

  // ---------------------------------------------------------------------------
  // The variable table as a map with default 0

  function Lookup(vars: seq<Var>, x: string): int {
    var i := FindVar(vars, x);
    if i < |vars| then vars[i].val else 0
  }

  predicate AgreeAt(vars: seq<Var>, env: map<string, int>, x: string) {
    |x| <= 31 ==> Lookup(vars, x) == Get(env, x)
  }

  ghost predicate Agree(vars: seq<Var>, env: map<string, int>) {
    forall x: string :: AgreeAt(vars, env, x)
  }

  /** FindVar is the only index with its two properties. */
  lemma FindIs(vars: seq<Var>, x: string, i: nat)
    requires i <= |vars| && (i < |vars| ==> vars[i].name == x)
    requires forall k :: 0 <= k < i ==> vars[k].name != x
    ensures FindVar(vars, x) == i
  {
  }

  lemma FindExtended(vars: seq<Var>, more: seq<Var>, x: string)
    requires vars <= more && FindVar(vars, x) < |vars|
    ensures FindVar(more, x) == FindVar(vars, x)
  {
    FindIs(more, x, FindVar(vars, x));
  }

  /** get_var adds nothing that a lookup could see. */
  lemma GetVarKeeps(vars: seq<Var>, name: string, x: string)
    requires |name| <= 31
    ensures Lookup(GetVar(vars, name), x) == Lookup(vars, x)
    ensures FindVar(GetVar(vars, name), name) == FindVar(vars, name)
  {
    var r := GetVar(vars, name);
    FindIs(r, name, FindVar(vars, name));
    if FindVar(vars, x) < |vars| {
      FindExtended(vars, r, x);
    } else if FindVar(vars, name) == |vars| {
      FindIs(r, x, if x == name then |vars| else |r|);
    }
  }

  lemma GetVarAgrees(vars: seq<Var>, name: string, env: map<string, int>)
    requires |name| <= 31 && Agree(vars, env)
    ensures Agree(GetVar(vars, name), env)
    ensures GetVar(vars, name)[FindVar(vars, name)].val == Get(env, name)
    ensures FindVar(GetVar(vars, name), name) == FindVar(vars, name)
  {
    forall x: string ensures AgreeAt(GetVar(vars, name), env, x) {
      GetVarKeeps(vars, name, x);
      assert AgreeAt(vars, env, x);
    }
    GetVarKeeps(vars, name, name);
    assert AgreeAt(vars, env, name);
  }

  /** Storing to the variable of that name updates the map at that name only. */
  lemma StoreAgrees(vars: seq<Var>, name: string, v: int, env: map<string, int>)
    requires |name| <= 31 && Agree(vars, env) && FindVar(vars, name) < |vars|
    ensures var i := FindVar(vars, name); Agree(vars[i := vars[i].(val := v)], env[name := v])
  {
    var i := FindVar(vars, name);
    var r := vars[i := vars[i].(val := v)];
    var env' := env[name := v];
    forall x: string ensures AgreeAt(r, env', x) {
      FindIs(r, x, FindVar(vars, x));
      assert AgreeAt(vars, env, x);
    }
  }

  // ---------------------------------------------------------------------------
  // Expressions

  /** r is the result of evaluating e, which took n tokens from st. */
  ghost predicate Evaluated(st: St, r: Val, e: Ex, env: map<string, int>, n: nat) {
    && r.st.pos == st.pos + n && r.v == Eval(e, env)
    && r.st.out == st.out + Faults(e, env) && r.st.rv == st.rv
    && Agree(r.st.vars, env) && st.vars <= r.st.vars
  }

  /** Tokens that end an operand expected at `level`. */
  predicate Stops(t: Token, level: nat) {
    && t != TLParen
    && (level <= 1 ==> t != TMul && t != TDiv)
    && (level == 0 ==> t != TPlus && t != TMinus && t != TLt && t != TGt && t != TEq)
  }

  function Rank(e: Ex, level: nat): nat
    requires level <= 3
  {
    if e.Bin? && Prec(e.op) < level then 13 - level else 4 - level
  }

  /** st is where the rendering of e for `level` starts, followed by a token that ends it. */
  ghost predicate Ready(p: Prog, st: St, e: Ex, level: nat, env: map<string, int>) {
    && GoodEx(e) && Starts(p, st.pos, RenderEx(e, level)) && Agree(st.vars, env)
    && Stops(At(p, st.pos + |RenderEx(e, level)|), level)
  }

  lemma BinaryTokens(e: Ex, level: nat)
    requires e.Bin?
    ensures RenderEx(e, level) == if Prec(e.op) < level then [TLParen] + (RenderBin(e) + [TRParen]) else RenderBin(e)
    ensures RenderBin(e) == RenderEx(e.l, LeftLevel(e.op)) + ([OpToken(e.op)] + RenderEx(e.r, Prec(e.op) + 1))
  {
  }

  lemma LeafParts(p: Prog, pos: nat, e: Ex, level: nat)
    requires Starts(p, pos, RenderEx(e, level)) && !e.Bin?
    ensures At(p, pos) == if e.Lit? then TNum(e.n) else TId(e.x)
    ensures |RenderEx(e, level)| == 1
  {
    TokensAt(p, pos, RenderEx(e, level), 0);
  }

  lemma ParenParts(p: Prog, pos: nat, e: Ex, level: nat)
    requires Starts(p, pos, RenderEx(e, level)) && e.Bin? && Prec(e.op) < level
    ensures At(p, pos) == TLParen && Starts(p, pos + 1, RenderEx(e, 0))
    ensures At(p, pos + 1 + |RenderEx(e, 0)|) == TRParen
    ensures |RenderEx(e, level)| == |RenderEx(e, 0)| + 2
  {
    Framed(p, pos, RenderEx(e, level), [TLParen], RenderBin(e), [TRParen]);
    One(p, pos, TLParen);
    One(p, pos + 1 + |RenderBin(e)|, TRParen);
  }

  lemma BinParts(p: Prog, pos: nat, e: Ex, level: nat)
    requires Starts(p, pos, RenderEx(e, level)) && e.Bin? && Prec(e.op) >= level
    ensures var k := |RenderEx(e.l, LeftLevel(e.op))|;
            && Starts(p, pos, RenderEx(e.l, LeftLevel(e.op)))
            && At(p, pos + k) == OpToken(e.op)
            && Starts(p, pos + k + 1, RenderEx(e.r, Prec(e.op) + 1))
            && |RenderEx(e, level)| == k + 1 + |RenderEx(e.r, Prec(e.op) + 1)|
  {
    assert RenderEx(e, level) == RenderBin(e);
    Framed(p, pos, RenderBin(e), RenderEx(e.l, LeftLevel(e.op)), [OpToken(e.op)], RenderEx(e.r, Prec(e.op) + 1));
    One(p, pos + |RenderEx(e.l, LeftLevel(e.op))|, OpToken(e.op));
  }

  /** Two operands, evaluated one after the other around the operator token. */
  lemma Combine(st: St, l: Val, f: Val, r: Val, e: Ex, env: map<string, int>, n1: nat, n2: nat)
    requires e.Bin? && Evaluated(st, l, e.l, env, n1) && Evaluated(Skip1(l.st), f, e.r, env, n2)
    requires r.v == Apply(e.op, l.v, f.v)
    requires r.st == if e.op == Div && f.v == 0 then Emit(f.st, DivisionByZero) else f.st
    ensures Evaluated(st, r, e, env, n1 + 1 + n2)
  {
    var fl, fr := Faults(e.l, env), Faults(e.r, env);
    var last := if e.op == Div && f.v == 0 then [DivisionByZero] else [];
    assert Faults(e, env) == fl + (fr + last);
    assert r.st.out == f.st.out + last;
    assert st.out + fl + fr + last == st.out + (fl + (fr + last));
  }

  /** A binary expression that needs no parentheses: its left operand is ready ... */
  lemma LeftReady(p: Prog, st: St, e: Ex, env: map<string, int>)
    requires e.Bin? && Ready(p, st, e, Prec(e.op), env)
    ensures Ready(p, st, e.l, LeftLevel(e.op), env)
  {
    BinParts(p, st.pos, e, Prec(e.op));
  }

  /** ... and once that is evaluated the operator is next, with the right operand behind. */
  lemma RightReady(p: Prog, st: St, l: Val, e: Ex, env: map<string, int>)
    requires e.Bin? && Ready(p, st, e, Prec(e.op), env)
    requires Evaluated(st, l, e.l, env, |RenderEx(e.l, LeftLevel(e.op))|)
    ensures At(p, l.st.pos) == OpToken(e.op) && Ready(p, Skip1(l.st), e.r, Prec(e.op) + 1, env)
    ensures |RenderEx(e, Prec(e.op))| == |RenderEx(e.l, LeftLevel(e.op))| + 1 + |RenderEx(e.r, Prec(e.op) + 1)|
  {
    BinParts(p, st.pos, e, Prec(e.op));
  }

  lemma InnerReady(p: Prog, st: St, e: Ex, level: nat, env: map<string, int>)
    requires e.Bin? && Prec(e.op) < level <= 3 && Ready(p, st, e, level, env)
    ensures At(p, st.pos) == TLParen && Ready(p, Skip1(st), e, 0, env)
    ensures At(p, st.pos + 1 + |RenderEx(e, 0)|) == TRParen
    ensures |RenderEx(e, level)| == |RenderEx(e, 0)| + 2
  {
    ParenParts(p, st.pos, e, level);
  }

  lemma LeafEvaluates(p: Prog, st: St, e: Ex, env: map<string, int>)
    requires Ready(p, st, e, 3, env) && !e.Bin?
    ensures Evaluated(st, Factor(p, st), e, env, |RenderEx(e, 3)|)
  {
    LeafParts(p, st.pos, e, 3);
    if e.Name? { GetVarAgrees(st.vars, e.x, env); }
  }

  /** Parentheses pass the value of what they enclose. */
  lemma ParensEvaluate(p: Prog, st: St, e: Ex, env: map<string, int>, inner: Val, n: nat)
    requires At(p, st.pos) == TLParen && inner == Expr(p, Skip1(st))
    requires Evaluated(Skip1(st), inner, e, env, n) && At(p, st.pos + 1 + n) == TRParen
    ensures Evaluated(st, Factor(p, st), e, env, n + 2)
  {
    assert Factor(p, st) == Val(Skip1(inner.st), inner.v);
  }

  lemma {:induction false} FactorEvaluates(p: Prog, st: St, e: Ex, env: map<string, int>)
    requires Ready(p, st, e, 3, env)
    ensures Evaluated(st, Factor(p, st), e, env, |RenderEx(e, 3)|)
    decreases e, Rank(e, 3), 0
  {
    if e.Bin? {
      InnerReady(p, st, e, 3, env);
      ExprEvaluates(p, Skip1(st), e, env);
      ParensEvaluate(p, st, e, env, Expr(p, Skip1(st)), |RenderEx(e, 0)|);
    } else {
      LeafEvaluates(p, st, e, env);
    }
  }

  lemma SameRendering(p: Prog, st: St, e: Ex, level: nat, env: map<string, int>)
    requires Ready(p, st, e, level, env) && level <= 2 && (e.Bin? ==> Prec(e.op) != level)
    ensures RenderEx(e, level) == RenderEx(e, level + 1) && Ready(p, st, e, level + 1, env)
    ensures Rank(e, level + 1) < Rank(e, level)
  {
  }

  /** Reading a product (a sum) at st comes to its loop with the value r. */
  predicate ProductFrom(p: Prog, st: St, r: Val) { Term(p, st) == TermRest(p, r.st, r.v) }

  predicate SumFrom(p: Prog, st: St, r: Val) { ExprAdd(p, st) == AddRest(p, r.st, r.v) }

  /** One turn of the product loop. */
  lemma ProductStep(p: Prog, l: Val, op: Op) returns (r: Val)
    requires At(p, l.st.pos) == OpToken(op) && Prec(op) == 2
    ensures TermRest(p, l.st, l.v) == TermRest(p, r.st, r.v)
    ensures var f := Factor(p, Skip1(l.st));
            && r.v == Apply(op, l.v, f.v)
            && r.st == if op == Div && f.v == 0 then Emit(f.st, DivisionByZero) else f.st
  {
    var f := Factor(p, Skip1(l.st));
    r := Val(if op == Div && f.v == 0 then Emit(f.st, DivisionByZero) else f.st, Apply(op, l.v, f.v));
  }

  /** One turn of the sum loop. */
  lemma SumStep(p: Prog, l: Val, t: Val, op: Op) returns (r: Val)
    requires At(p, l.st.pos) == OpToken(op) && Prec(op) == 1 && Term(p, Skip1(l.st)) == t
    ensures AddRest(p, l.st, l.v) == AddRest(p, r.st, r.v)
    ensures r == Val(t.st, Apply(op, l.v, t.v))
  {
    r := Val(t.st, Apply(op, l.v, t.v));
  }

  lemma FirstFactor(p: Prog, st: St, r: Val)
    requires r == Factor(p, st)
    ensures ProductFrom(p, st, r)
  {
  }

  lemma ProductOf(p: Prog, st: St, l: Val, f: Val, e: Ex, env: map<string, int>) returns (r: Val)
    requires e.Bin? && Prec(e.op) == 2 && At(p, l.st.pos) == OpToken(e.op)
    requires ProductFrom(p, st, l) && Factor(p, Skip1(l.st)) == f
    requires Evaluated(st, l, e.l, env, |RenderEx(e.l, 2)|) && Evaluated(Skip1(l.st), f, e.r, env, |RenderEx(e.r, 3)|)
    ensures Evaluated(st, r, e, env, |RenderEx(e, 2)|) && ProductFrom(p, st, r)
  {
    r := ProductStep(p, l, e.op);
    Combine(st, l, f, r, e, env, |RenderEx(e.l, 2)|, |RenderEx(e.r, 3)|);
    BinaryTokens(e, 2);
  }

  lemma ProductReady(p: Prog, st: St, e: Ex, env: map<string, int>)
    requires e.Bin? && Prec(e.op) == 2 && Ready(p, st, e, 2, env)
    ensures Ready(p, st, e.l, 2, env)
  {
    LeftReady(p, st, e, env);
  }

  lemma ProductRight(p: Prog, st: St, l: Val, e: Ex, env: map<string, int>)
    requires e.Bin? && Prec(e.op) == 2 && Ready(p, st, e, 2, env)
    requires Evaluated(st, l, e.l, env, |RenderEx(e.l, 2)|)
    ensures At(p, l.st.pos) == OpToken(e.op) && Ready(p, Skip1(l.st), e.r, 3, env)
  {
    RightReady(p, st, l, e, env);
  }

  /** The product loop continues after e as if e's value had been read at once. */
  lemma {:induction false} TermEvaluates(p: Prog, st: St, e: Ex, env: map<string, int>) returns (r: Val)
    requires Ready(p, st, e, 2, env)
    ensures Evaluated(st, r, e, env, |RenderEx(e, 2)|) && ProductFrom(p, st, r)
    decreases e, Rank(e, 2), 0
  {
    if e.Bin? && Prec(e.op) == 2 {
      ProductReady(p, st, e, env);
      var l := TermEvaluates(p, st, e.l, env);
      ProductRight(p, st, l, e, env);
      FactorEvaluates(p, Skip1(l.st), e.r, env);
      r := ProductOf(p, st, l, Factor(p, Skip1(l.st)), e, env);
    } else {
      SameRendering(p, st, e, 2, env);
      FactorEvaluates(p, st, e, env);
      r := Factor(p, st);
      FirstFactor(p, st, r);
    }
  }

  lemma FirstTerm(p: Prog, st: St, r: Val)
    requires r == Term(p, st)
    ensures SumFrom(p, st, r)
  {
  }

  lemma SumOf(p: Prog, st: St, l: Val, t: Val, e: Ex, env: map<string, int>) returns (r: Val)
    requires e.Bin? && Prec(e.op) == 1 && At(p, l.st.pos) == OpToken(e.op)
    requires SumFrom(p, st, l) && Term(p, Skip1(l.st)) == t
    requires Evaluated(st, l, e.l, env, |RenderEx(e.l, 1)|) && Evaluated(Skip1(l.st), t, e.r, env, |RenderEx(e.r, 2)|)
    ensures Evaluated(st, r, e, env, |RenderEx(e, 1)|) && SumFrom(p, st, r)
  {
    r := SumStep(p, l, t, e.op);
    Combine(st, l, t, r, e, env, |RenderEx(e.l, 1)|, |RenderEx(e.r, 2)|);
    BinaryTokens(e, 1);
  }

  lemma SumReady(p: Prog, st: St, e: Ex, env: map<string, int>)
    requires e.Bin? && Prec(e.op) == 1 && Ready(p, st, e, 1, env)
    ensures Ready(p, st, e.l, 1, env)
  {
    LeftReady(p, st, e, env);
  }

  lemma SumRight(p: Prog, st: St, l: Val, e: Ex, env: map<string, int>)
    requires e.Bin? && Prec(e.op) == 1 && Ready(p, st, e, 1, env)
    requires Evaluated(st, l, e.l, env, |RenderEx(e.l, 1)|)
    ensures At(p, l.st.pos) == OpToken(e.op) && Ready(p, Skip1(l.st), e.r, 2, env)
    ensures Stops(At(p, Skip1(l.st).pos + |RenderEx(e.r, 2)|), 1)
  {
    RightReady(p, st, l, e, env);
  }

  lemma {:induction false} SumEvaluates(p: Prog, st: St, e: Ex, env: map<string, int>) returns (r: Val)
    requires Ready(p, st, e, 1, env)
    ensures Evaluated(st, r, e, env, |RenderEx(e, 1)|) && SumFrom(p, st, r)
    decreases e, Rank(e, 1), 0
  {
    if e.Bin? && Prec(e.op) == 1 {
      SumReady(p, st, e, env);
      var l := SumEvaluates(p, st, e.l, env);
      SumRight(p, st, l, e, env);
      var t := WholeTerm(p, Skip1(l.st), e.r, env);
      r := SumOf(p, st, l, t, e, env);
    } else {
      SameRendering(p, st, e, 1, env);
      r := WholeTerm(p, st, e, env);
      FirstTerm(p, st, r);
    }
  }

  lemma ProductEnds(p: Prog, st: St, r: Val)
    requires ProductFrom(p, st, r) && Stops(At(p, r.st.pos), 1)
    ensures Term(p, st) == r
  {
  }

  /** A sum ends in front of a token that ends an operand or compares. */
  lemma SumEnds(p: Prog, st: St, r: Val)
    requires SumFrom(p, st, r) && At(p, r.st.pos) != TPlus && At(p, r.st.pos) != TMinus
    ensures ExprAdd(p, st) == r
  {
  }

  /** A term that nothing multiplies. */
  lemma {:induction false} WholeTerm(p: Prog, st: St, e: Ex, env: map<string, int>) returns (r: Val)
    requires Ready(p, st, e, 2, env) && Stops(At(p, st.pos + |RenderEx(e, 2)|), 1)
    ensures Evaluated(st, r, e, env, |RenderEx(e, 2)|) && Term(p, st) == r
    decreases e, Rank(e, 2), 1
  {
    r := TermEvaluates(p, st, e, env);
    ProductEnds(p, st, r);
  }

  lemma {:induction false} WholeSum(p: Prog, st: St, e: Ex, env: map<string, int>) returns (r: Val)
    requires Ready(p, st, e, 1, env) && Stops(At(p, st.pos + |RenderEx(e, 1)|), 0)
    ensures Evaluated(st, r, e, env, |RenderEx(e, 1)|) && ExprAdd(p, st) == r
    decreases e, Rank(e, 1), 1
  {
    r := SumEvaluates(p, st, e, env);
    SumEnds(p, st, r);
  }

  /** A sum before a comparison. */
  lemma {:induction false} ComparedSum(p: Prog, st: St, e: Ex, op: Op, env: map<string, int>) returns (r: Val)
    requires Prec(op) == 0 && Ready(p, st, e, 1, env) && At(p, st.pos + |RenderEx(e, 1)|) == OpToken(op)
    ensures Evaluated(st, r, e, env, |RenderEx(e, 1)|) && ExprAdd(p, st) == r
    decreases e, Rank(e, 1), 1
  {
    r := SumEvaluates(p, st, e, env);
    SumEnds(p, st, r);
  }

  lemma Compared(p: Prog, st: St, l: Val, t: Val, op: Op)
    requires Prec(op) == 0 && ExprAdd(p, st) == l && At(p, l.st.pos) == OpToken(op) && ExprAdd(p, Skip1(l.st)) == t
    ensures Expr(p, st) == Val(t.st, Apply(op, l.v, t.v))
  {
  }

  lemma ComparisonOf(p: Prog, st: St, l: Val, t: Val, e: Ex, env: map<string, int>)
    requires e.Bin? && Prec(e.op) == 0 && At(p, l.st.pos) == OpToken(e.op)
    requires ExprAdd(p, st) == l && ExprAdd(p, Skip1(l.st)) == t
    requires Evaluated(st, l, e.l, env, |RenderEx(e.l, 1)|) && Evaluated(Skip1(l.st), t, e.r, env, |RenderEx(e.r, 1)|)
    ensures Evaluated(st, Expr(p, st), e, env, |RenderEx(e, 0)|)
  {
    Compared(p, st, l, t, e.op);
    Combine(st, l, t, Expr(p, st), e, env, |RenderEx(e.l, 1)|, |RenderEx(e.r, 1)|);
    BinaryTokens(e, 0);
  }

  lemma ComparisonReady(p: Prog, st: St, e: Ex, env: map<string, int>)
    requires e.Bin? && Prec(e.op) == 0 && Ready(p, st, e, 0, env)
    ensures Ready(p, st, e.l, 1, env) && At(p, st.pos + |RenderEx(e.l, 1)|) == OpToken(e.op)
  {
    BinParts(p, st.pos, e, 0);
  }

  lemma ComparisonRight(p: Prog, st: St, l: Val, e: Ex, env: map<string, int>)
    requires e.Bin? && Prec(e.op) == 0 && Ready(p, st, e, 0, env)
    requires Evaluated(st, l, e.l, env, |RenderEx(e.l, 1)|)
    ensures At(p, l.st.pos) == OpToken(e.op) && Ready(p, Skip1(l.st), e.r, 1, env)
    ensures Stops(At(p, Skip1(l.st).pos + |RenderEx(e.r, 1)|), 0)
  {
    BinParts(p, st.pos, e, 0);
  }

  lemma {:induction false} ComparisonEvaluates(p: Prog, st: St, e: Ex, env: map<string, int>)
    requires Ready(p, st, e, 0, env) && e.Bin? && Prec(e.op) == 0
    ensures Evaluated(st, Expr(p, st), e, env, |RenderEx(e, 0)|)
    decreases e, Rank(e, 0), 1
  {
    ComparisonReady(p, st, e, env);
    var l := ComparedSum(p, st, e.l, e.op, env);
    ComparisonRight(p, st, l, e, env);
    var t := WholeSum(p, Skip1(l.st), e.r, env);
    ComparisonOf(p, st, l, t, e, env);
  }

  /** Expression trees evaluate to their value: precedence, left associativity, and a
      division by zero that is reported and leaves the dividend. */
  lemma {:induction false} ExprEvaluates(p: Prog, st: St, e: Ex, env: map<string, int>)
    requires Ready(p, st, e, 0, env)
    ensures Evaluated(st, Expr(p, st), e, env, |RenderEx(e, 0)|)
    decreases e, Rank(e, 0), 2
  {
    if e.Bin? && Prec(e.op) == 0 {
      ComparisonEvaluates(p, st, e, env);
    } else {
      SameRendering(p, st, e, 0, env);
      var r := WholeSum(p, st, e, env);
    }
  }
}
