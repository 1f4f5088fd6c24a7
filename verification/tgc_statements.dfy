// Executing the rendering of a statement does what the statement means.
module TgcStatements {
  import opened TgcMachine
  import opened TgcLanguage
  import opened TgcExpressions

  /** The interpreter's variables represent the memory m. */
  ghost predicate Represents(st: St, m: Mem) {
    Agree(st.vars, m.env) && st.out == m.out && st.rv == m.rv
  }

  // ---------------------------------------------------------------------------
  // Fuel does not change a result that was reached

  /** The loop over statements, one statement on. */
  lemma BodyIs(k: nat, p: Prog, st: St, f: Flow)
    requires k > 0 && !AtEnd(p, st) && f == Stmt(k - 1, p, st)
    ensures Body(k, p, st) == if f.OutOfFuel? || f.returned then f else Body(k - 1, p, f.st)
  {
  }

  lemma BodyStarts(k: nat, p: Prog, st: St) returns (f: Flow)
    requires !AtEnd(p, st) && Body(k, p, st).Done?
    ensures k > 0 && f == Stmt(k - 1, p, st) && f.Done? && (!f.returned ==> Body(k - 1, p, f.st).Done?)
  {
    f := Stmt(k - 1, p, st);
  }

  lemma {:induction false} BodyKeeps(k: nat, j: nat, p: Prog, st: St, r: Flow)
    requires Body(k, p, st) == r && r.Done? && k <= j
    ensures Body(j, p, st) == r
    decreases k, 1
  {
    if !AtEnd(p, st) {
      var f := BodyStarts(k, p, st);
      StmtKeeps(k - 1, j - 1, p, st, f);
      if !f.returned { BodyKeeps(k - 1, j - 1, p, f.st, r); }
      BodyIs(j, p, st, f);
    }
  }

  lemma {:induction false} BracedKeeps(k: nat, j: nat, p: Prog, st: St, r: Flow)
    requires Braced(k, p, st) == r && r.Done? && k <= j
    ensures Braced(j, p, st) == r
    decreases k, 2
  {
    BodyKeeps(k, j, p, st, Body(k, p, st));
  }

  lemma {:induction false} IfKeeps(k: nat, j: nat, p: Prog, st: St, r: Flow)
    requires IfStmt(k, p, st) == r && r.Done? && k <= j
    ensures IfStmt(j, p, st) == r
    decreases k, 4
  {
    var c := Condition(p, Skip1(st));
    if c.v != 0 {
      var f := Braced(k, p, c.st);
      BracedKeeps(k, j, p, c.st, f);
      if !f.returned && IsElse(p, f.st) && At(p, f.st.pos + 1) != TLBrace {
        StmtKeeps(k, j, p, Skip1(f.st), Stmt(k, p, Skip1(f.st)));
      }
    } else {
      var st1 := Skip(p, c.st);
      if IsElse(p, st1) { BracedKeeps(k, j, p, Accept(p, Skip1(st1), TLBrace), r); }
    }
  }

  lemma {:induction false} WhileKeeps(k: nat, j: nat, p: Prog, st: St, r: Flow)
    requires WhileStmt(k, p, st) == r && r.Done? && k <= j
    ensures WhileStmt(j, p, st) == r
    decreases k, 4
  {
    var c := Condition(p, Skip1(st));
    if c.v != 0 { BodyKeeps(k, j, p, c.st, Body(k, p, c.st)); }
  }

  lemma {:induction false} StmtKeeps(k: nat, j: nat, p: Prog, st: St, r: Flow)
    requires Stmt(k, p, st) == r && r.Done? && k <= j
    ensures Stmt(j, p, st) == r
    decreases k, 3
  {
    StmtIs(k, p, st);
    StmtIs(j, p, st);
    if Compound(At(p, st.pos)) { CompoundKeeps(k - 1, j - 1, p, st, r); }
  }

  lemma {:induction false} CompoundKeeps(k: nat, j: nat, p: Prog, st: St, r: Flow)
    requires Compound(At(p, st.pos)) && CompoundStmt(k, p, st) == r && r.Done? && k <= j
    ensures CompoundStmt(j, p, st) == r
    decreases k, 5
  {
    match At(p, st.pos)
    case TIf => IfKeeps(k, j, p, st, r);
    case TWhile => WhileKeeps(k, j, p, st, r);
    case TLBrace => BracedKeeps(k, j, p, Skip1(st), r);
  }

  lemma BodyMono(k: nat, d: nat, p: Prog, st: St)
    requires Body(k, p, st).Done?
    ensures Body(k + d, p, st) == Body(k, p, st)
  {
    BodyKeeps(k, k + d, p, st, Body(k, p, st));
  }

  /** A finished run is the same with more fuel. */
  lemma StmtMono(k: nat, d: nat, p: Prog, st: St)
    requires Stmt(k, p, st).Done?
    ensures Stmt(k + d, p, st) == Stmt(k, p, st)
  {
    StmtKeeps(k, k + d, p, st, Stmt(k, p, st));
  }

  /** Statements that execute others. */
  predicate Compound(t: Token) {
    t == TIf || t == TWhile || t == TLBrace
  }

  function CompoundStmt(k: nat, p: Prog, st: St): Flow
    requires Compound(At(p, st.pos))
  {
    match At(p, st.pos)
    case TIf => IfStmt(k, p, st)
    case TWhile => WhileStmt(k, p, st)
    case TLBrace => Braced(k, p, Skip1(st))
  }

  lemma StmtIs(k: nat, p: Prog, st: St)
    ensures Compound(At(p, st.pos)) ==> Stmt(k, p, st) == if k == 0 then OutOfFuel else CompoundStmt(k - 1, p, st)
    ensures !Compound(At(p, st.pos)) ==> Stmt(k, p, st) == SimpleStmt(p, st)
  {
  }

  // ---------------------------------------------------------------------------
  // Skipping

  predicate Flat(r: seq<Token>) {
    forall i :: 0 <= i < |r| ==> r[i] != TLBrace && r[i] != TRBrace && r[i] != TEof
  }

  lemma {:induction false} SkipFlat(p: Prog, pos: nat, r: seq<Token>, b: nat)
    requires Starts(p, pos, r) && Flat(r)
    ensures SkipTo(p, pos, b) == SkipTo(p, pos + |r|, b)
    decreases |r|
  {
    if r != [] {
      TokensAt(p, pos, r, 0);
      assert r == [r[0]] + r[1..];
      Split(p, pos, [r[0]], r[1..]);
      SkipFlat(p, pos + 1, r[1..], b);
    }
  }

  lemma {:induction false} ExFlat(e: Ex, level: nat)
    ensures Flat(RenderEx(e, level))
    decreases e
  {
    if e.Bin? {
      ExFlat(e.l, LeftLevel(e.op));
      ExFlat(e.r, Prec(e.op) + 1);
      BinaryTokens(e, level);
    }
  }

  /** A run of tokens that tgc_skip passes whatever the brace count. */
  ghost predicate Passable(p: Prog, pos: nat, n: nat) {
    forall b: nat :: SkipTo(p, pos, b) == SkipTo(p, pos + n, b)
  }

  lemma FlatPasses(p: Prog, pos: nat, r: seq<Token>)
    requires Starts(p, pos, r) && Flat(r)
    ensures Passable(p, pos, |r|)
  {
    forall b: nat ensures SkipTo(p, pos, b) == SkipTo(p, pos + |r|, b) { SkipFlat(p, pos, r, b); }
  }

  /** { body } passes if body does. */
  lemma BracesPass(p: Prog, pos: nat, n: nat)
    requires At(p, pos) == TLBrace && Passable(p, pos + 1, n) && At(p, pos + 1 + n) == TRBrace
    ensures Passable(p, pos, n + 2)
  {
    forall b: nat ensures SkipTo(p, pos, b) == SkipTo(p, pos + n + 2, b) {
      assert SkipTo(p, pos + 1, b + 1) == SkipTo(p, pos + 1 + n, b + 1);
    }
  }

  lemma PassBoth(p: Prog, pos: nat, n1: nat, n2: nat)
    requires Passable(p, pos, n1) && Passable(p, pos + n1, n2)
    ensures Passable(p, pos, n1 + n2)
  {
    forall b: nat ensures SkipTo(p, pos, b) == SkipTo(p, pos + (n1 + n2), b) {
      assert SkipTo(p, pos, b) == SkipTo(p, pos + n1, b);
    }
  }

  // ---------------------------------------------------------------------------
  // Where the parts of a rendered statement are

  function CondLen(c: Ex): nat { |RenderEx(c, 0)| + 3 }

  lemma CondParts(p: Prog, pos: nat, c: Ex)
    requires Starts(p, pos, RenderCond(c))
    ensures At(p, pos) == TLParen && Starts(p, pos + 1, RenderEx(c, 0))
    ensures At(p, pos + 1 + |RenderEx(c, 0)|) == TRParen && At(p, pos + 2 + |RenderEx(c, 0)|) == TLBrace
    ensures |RenderCond(c)| == CondLen(c)
  {
    var e := RenderEx(c, 0);
    Framed(p, pos, RenderCond(c), [TLParen], e, [TRParen, TLBrace]);
    One(p, pos, TLParen);
    TokensAt(p, pos + 1 + |e|, [TRParen, TLBrace], 0);
    TokensAt(p, pos + 1 + |e|, [TRParen, TLBrace], 1);
  }

  lemma CondLength(c: Ex)
    ensures |RenderCond(c)| == CondLen(c)
  {
  }

  /** keyword cond { b tail */
  lemma GuardedTokens(p: Prog, pos: nat, r: seq<Token>, k: Token, cond: seq<Token>, b: seq<Token>, tail: seq<Token>)
    requires Starts(p, pos, r) && r == [k] + (cond + (b + tail))
    ensures At(p, pos) == k && Starts(p, pos + 1, cond) && Starts(p, pos + 1 + |cond|, b)
    ensures Starts(p, pos + 1 + |cond| + |b|, tail) && |r| == 1 + |cond| + |b| + |tail|
  {
    Framed(p, pos, r, [k], cond, b + tail);
    Split(p, pos + 1 + |cond|, b, tail);
    One(p, pos, k);
  }

  lemma IfElseTokens(p: Prog, pos: nat, r: seq<Token>, cond: seq<Token>, b: seq<Token>, o: seq<Token>)
    requires Starts(p, pos, r)
    requires r == [TIf] + (cond + (b + ([TRBrace] + (ElseTokens() + (o + [TRBrace])))))
    ensures At(p, pos) == TIf && Starts(p, pos + 1, cond) && Starts(p, pos + 1 + |cond|, b)
    ensures var q := pos + 2 + |cond| + |b|;
            && At(p, q - 1) == TRBrace && At(p, q) == TId("else") && At(p, q + 1) == TLBrace
            && Starts(p, q + 2, o) && At(p, q + 2 + |o|) == TRBrace && pos + |r| == q + 3 + |o|
  {
    var tail := o + [TRBrace];
    GuardedTokens(p, pos, r, TIf, cond, b, [TRBrace] + (ElseTokens() + tail));
    var q := pos + 2 + |cond| + |b|;
    Framed(p, q - 1, [TRBrace] + (ElseTokens() + tail), [TRBrace], ElseTokens(), tail);
    Split(p, q + 2, o, [TRBrace]);
    One(p, q - 1, TRBrace);
    TokensAt(p, q, ElseTokens(), 0);
    TokensAt(p, q, ElseTokens(), 1);
    One(p, q + 2 + |o|, TRBrace);
  }

  lemma IfParts(p: Prog, pos: nat, s: Cmd)
    requires (s.If? || s.While?) && Starts(p, pos, Render(s))
    ensures At(p, pos) == (if s.If? then TIf else TWhile) && Starts(p, pos + 1, RenderCond(s.c))
    ensures Starts(p, pos + 1 + CondLen(s.c), RenderBody(s.body))
    ensures At(p, pos + 1 + CondLen(s.c) + |RenderBody(s.body)|) == TRBrace
    ensures |Render(s)| == 2 + CondLen(s.c) + |RenderBody(s.body)|
  {
    var k := if s.If? then TIf else TWhile;
    GuardedTokens(p, pos, Render(s), k, RenderCond(s.c), RenderBody(s.body), [TRBrace]);
    CondLength(s.c);
    One(p, pos + 1 + CondLen(s.c) + |RenderBody(s.body)|, TRBrace);
  }

  /** End of the first branch of an if-else. */
  function ThenEnd(s: Cmd, pos: nat): nat
    requires s.IfElse?
  {
    pos + 2 + CondLen(s.c) + |RenderBody(s.body)|
  }

  lemma IfElseParts(p: Prog, pos: nat, s: Cmd)
    requires s.IfElse? && Starts(p, pos, Render(s))
    ensures At(p, pos) == TIf && Starts(p, pos + 1, RenderCond(s.c))
    ensures Starts(p, pos + 1 + CondLen(s.c), RenderBody(s.body))
    ensures At(p, ThenEnd(s, pos) - 1) == TRBrace
    ensures At(p, ThenEnd(s, pos)) == TId("else") && At(p, ThenEnd(s, pos) + 1) == TLBrace
    ensures Starts(p, ThenEnd(s, pos) + 2, RenderBody(s.other))
    ensures At(p, ThenEnd(s, pos) + 2 + |RenderBody(s.other)|) == TRBrace
    ensures pos + |Render(s)| == ThenEnd(s, pos) + 3 + |RenderBody(s.other)|
  {
    IfElseTokens(p, pos, Render(s), RenderCond(s.c), RenderBody(s.body), RenderBody(s.other));
    CondLength(s.c);
  }

  lemma BlockParts(p: Prog, pos: nat, s: Cmd)
    requires s.Block? && Starts(p, pos, Render(s))
    ensures At(p, pos) == TLBrace && Starts(p, pos + 1, RenderBody(s.body))
    ensures At(p, pos + 1 + |RenderBody(s.body)|) == TRBrace && |Render(s)| == 2 + |RenderBody(s.body)|
  {
    Framed(p, pos, Render(s), [TLBrace], RenderBody(s.body), [TRBrace]);
    One(p, pos, TLBrace);
    One(p, pos + 1 + |RenderBody(s.body)|, TRBrace);
  }

  lemma BodyParts(p: Prog, pos: nat, body: seq<Cmd>)
    requires body != [] && Starts(p, pos, RenderBody(body))
    ensures Starts(p, pos, Render(body[0])) && Starts(p, pos + |Render(body[0])|, RenderBody(body[1..]))
    ensures |RenderBody(body)| == |Render(body[0])| + |RenderBody(body[1..])|
  {
    SplitAs(p, pos, RenderBody(body), Render(body[0]), RenderBody(body[1..]));
  }

  lemma CondPasses(p: Prog, pos: nat, c: Ex)
    requires Starts(p, pos, RenderCond(c))
    ensures Passable(p, pos, CondLen(c) - 1)
  {
    var n := |RenderEx(c, 0)|;
    CondParts(p, pos, c);
    ExFlat(c, 0);
    TokenPasses(p, pos);
    FlatPasses(p, pos + 1, RenderEx(c, 0));
    TokenPasses(p, pos + 1 + n);
    PassBoth(p, pos, 1, n);
    PassBoth(p, pos, 1 + n, 1);
  }

  lemma TokenPasses(p: Prog, pos: nat)
    requires At(p, pos) !in {TLBrace, TRBrace, TEof}
    ensures Passable(p, pos, 1)
  {
  }

  /** keyword ( c ) { body } passes if body does. */
  lemma GuardedPasses(p: Prog, pos: nat, c: Ex, n: nat)
    requires At(p, pos) in {TIf, TWhile} && Starts(p, pos + 1, RenderCond(c))
    requires Passable(p, pos + 1 + CondLen(c), n) && At(p, pos + 1 + CondLen(c) + n) == TRBrace
    ensures Passable(p, pos, 2 + CondLen(c) + n)
  {
    CondParts(p, pos + 1, c);
    TokenPasses(p, pos);
    CondPasses(p, pos + 1, c);
    BracesPass(p, pos + CondLen(c), n);
    PassBoth(p, pos, 1, CondLen(c) - 1);
    PassBoth(p, pos, CondLen(c), n + 2);
  }

  lemma IfElsePasses(p: Prog, pos: nat, s: Cmd)
    requires s.IfElse? && Starts(p, pos, Render(s))
    requires Passable(p, pos + 1 + CondLen(s.c), |RenderBody(s.body)|)
    requires Passable(p, ThenEnd(s, pos) + 2, |RenderBody(s.other)|)
    ensures Passable(p, pos, |Render(s)|)
  {
    var n, m, q := |RenderBody(s.body)|, |RenderBody(s.other)|, ThenEnd(s, pos);
    IfElseParts(p, pos, s);
    GuardedPasses(p, pos, s.c, n);
    TokenPasses(p, q);
    BracesPass(p, q + 1, m);
    PassBoth(p, pos, q - pos, 1);
    PassBoth(p, pos, q + 1 - pos, m + 2);
  }

  lemma {:induction false} ConditionalPasses(p: Prog, pos: nat, s: Cmd)
    requires (s.If? || s.While?) && Starts(p, pos, Render(s))
    ensures Passable(p, pos, |Render(s)|)
    decreases s, 0
  {
    IfParts(p, pos, s);
    BodyPasses(p, pos + 1 + CondLen(s.c), s.body);
    GuardedPasses(p, pos, s.c, |RenderBody(s.body)|);
  }

  lemma {:induction false} AlternativePasses(p: Prog, pos: nat, s: Cmd)
    requires s.IfElse? && Starts(p, pos, Render(s))
    ensures Passable(p, pos, |Render(s)|)
    decreases s, 0
  {
    IfElseParts(p, pos, s);
    BodyPasses(p, pos + 1 + CondLen(s.c), s.body);
    BodyPasses(p, ThenEnd(s, pos) + 2, s.other);
    IfElsePasses(p, pos, s);
  }

  /** tgc_skip passes any rendered statement: its braces balance. */
  lemma {:induction false} CmdPasses(p: Prog, pos: nat, s: Cmd)
    requires Starts(p, pos, Render(s))
    ensures Passable(p, pos, |Render(s)|)
    decreases s, 1
  {
    if s.If? || s.While? {
      ConditionalPasses(p, pos, s);
    } else if s.IfElse? {
      AlternativePasses(p, pos, s);
    } else if s.Block? {
      BlockParts(p, pos, s);
      BodyPasses(p, pos + 1, s.body);
      BracesPass(p, pos, |RenderBody(s.body)|);
    } else {
      SimpleFlat(s);
      FlatPasses(p, pos, Render(s));
    }
  }

  lemma SimpleFlat(s: Cmd)
    requires Simple(s)
    ensures Flat(Render(s))
  {
    if s.Define? || s.Assign? || s.Print? || s.Return? { ExFlat(s.e, 0); }
  }

  lemma {:induction false} BodyPasses(p: Prog, pos: nat, body: seq<Cmd>)
    requires Starts(p, pos, RenderBody(body))
    ensures Passable(p, pos, |RenderBody(body)|)
    decreases body
  {
    if body != [] {
      BodyParts(p, pos, body);
      CmdPasses(p, pos, body[0]);
      BodyPasses(p, pos + |Render(body[0])|, body[1..]);
      PassBoth(p, pos, |Render(body[0])|, |RenderBody(body[1..])|);
    }
  }

  /** After an untaken condition: skipping ends right behind the body's closing brace. */
  lemma SkipPastBody(p: Prog, pos: nat, body: seq<Cmd>)
    requires Starts(p, pos, RenderBody(body)) && At(p, pos + |RenderBody(body)|) == TRBrace
    ensures SkipTo(p, pos, 0) == pos + |RenderBody(body)| + 1
  {
    BodyPasses(p, pos, body);
  }
}
