// The lexer inverts every way of writing tokens down: any spelling of each token, with
// any white space and comments between them.
module TgcLexing {
  import opened TgcMachine
  import opened TgcLexer

  const KEYWORDS := {"int", "void", "if", "while", "print", "return"}

  predicate AllWord(w: string) {
    forall k :: 0 <= k < |w| ==> WordChar(w[k])
  }

  predicate IsWord(w: string) {
    w != "" && Alpha(w[0]) && AllWord(w)
  }

  /** What a string literal is written as, line feeds as \n. */
  function Escaped(b: string): string {
    if b == "" then ""
    else (if b[0] == '\n' then "\\n" else [b[0]]) + Escaped(b[1..])
  }

  /** No character that ends the literal, and no backslash that would be read as one. */
  predicate Quotable(b: string) {
    forall k :: 0 <= k < |b| ==> b[k] != '"' && b[k] != '\0' && !(b[k] == '\\' && k + 1 < |b| && b[k + 1] == 'n')
  }

  predicate Fits(b: string) {
    |b| <= 255 && (|b| == 255 ==> b[254] != '\n')
  }

  predicate SymbolText(t: Token, text: string) {
    match t
    case TPlus => text == "+"
    case TMinus => text == "-"
    case TMul => text == "*"
    case TDiv => text == "/"
    case TLt => text == "<"
    case TGt => text == ">"
    case TEq => text == "=="
    case TAssign => text == "="
    case TLParen => text == "("
    case TRParen => text == ")"
    case TLBrace => text == "{"
    case TRBrace => text == "}"
    case TSemi => text == ";"
    case _ => false
  }

  /** The ways to write a token. */
  predicate Spells(t: Token, text: string) {
    match t
    case TInt => text == "int" || text == "void"
    case TIf => text == "if"
    case TWhile => text == "while"
    case TPrint => text == "print"
    case TReturn => text == "return"
    case TId(name) => IsWord(text) && text !in KEYWORDS && name == Take31(text)
    case TNum(v) => text != "" && AllDigits(text) && v == Decimal(text)
    case TString(b) => Quotable(b) && Fits(b) && text == "\"" + Escaped(b) + "\""
    case TEof => false
    case _ => SymbolText(t, text)
  }

  /** A token ends before the character c. */
  predicate Ended(t: Token, c: char) {
    match t
    case TInt => !WordChar(c)
    case TIf => !WordChar(c)
    case TWhile => !WordChar(c)
    case TPrint => !WordChar(c)
    case TReturn => !WordChar(c)
    case TId(_) => !WordChar(c)
    case TNum(_) => !Digit(c)
    case TDiv => c != '/' && c != '*'
    case TAssign => c != '='
    case _ => true
  }

  datatype Gap = Space(c: char) | Line(remark: string) | Block(remark: string)

  function GapText(g: Gap): string {
    match g
    case Space(c) => [c]
    case Line(r) => "//" + (r + "\n")
    case Block(r) => "/*" + (r + "*/")
  }

  predicate GoodGap(g: Gap) {
    match g
    case Space(c) => c != '\0' && Blank(c)
    case Line(r) => forall k :: 0 <= k < |r| ==> r[k] != '\n' && r[k] != '\0'
    case Block(r) => forall k :: 0 <= k < |r| ==> r[k] != '\0' && !(r[k] == '*' && (r + "*/")[k + 1] == '/')
  }

  function GapsText(gs: seq<Gap>): string {
    if gs == [] then "" else GapText(gs[0]) + GapsText(gs[1..])
  }

  predicate GoodGaps(gs: seq<Gap>) {
    forall k :: 0 <= k < |gs| ==> GoodGap(gs[k])
  }

  /** A token, how it is written, and what separates it from the next. */
  datatype Lexeme = Lexeme(tok: Token, text: string, gaps: seq<Gap>)

  function LexemesText(ls: seq<Lexeme>): string {
    if ls == [] then "" else ls[0].text + (GapsText(ls[0].gaps) + LexemesText(ls[1..]))
  }

  function Tokens(ls: seq<Lexeme>): seq<Token> {
    if ls == [] then [] else [ls[0].tok] + Tokens(ls[1..])
  }

  predicate GoodLexemes(ls: seq<Lexeme>) {
    ls != [] ==>
      && Spells(ls[0].tok, ls[0].text) && GoodGaps(ls[0].gaps)
      && Ended(ls[0].tok, Ch(GapsText(ls[0].gaps) + LexemesText(ls[1..]), 0))
      && GoodLexemes(ls[1..])
  }

  // ---------------------------------------------------------------------------
  // Characters of a text known from some position on

  ghost predicate From(s: string, i: nat, t: string) {
    i <= |s| && s[i..] == t
  }

  lemma FromSplit(s: string, i: nat, a: string, b: string)
    requires From(s, i, a + b)
    ensures From(s, i + |a|, b) && s[i..i + |a|] == a
    ensures Ch(s, i + |a|) == Ch(b, 0)
  {
    assert s[i + |a|..] == s[i..][|a|..] == b;
    assert s[i..i + |a|] == s[i..][..|a|] == a;
    if b != "" { assert s[i..][|a|] == (a + b)[|a|]; }
  }

  lemma FromAt(s: string, i: nat, a: string, b: string, k: nat)
    requires From(s, i, a + b) && k < |a|
    ensures Ch(s, i + k) == a[k]
  {
    assert s[i..][k] == (a + b)[k];
  }

  lemma FromHead(s: string, i: nat, t: string)
    requires From(s, i, t)
    ensures Ch(s, i) == Ch(t, 0)
    ensures t != "" ==> From(s, i + 1, t[1..])
  {
    if t != "" { assert s[i + 1..] == s[i..][1..]; }
  }

  // ---------------------------------------------------------------------------
  // White space and comments

  lemma {:induction false} LineEnds(s: string, i: nat, r: string, rest: string)
    requires From(s, i, r + ("\n" + rest)) && GoodGap(Line(r))
    ensures LineEnd(s, i) == i + |r|
    decreases |r|
  {
    FromHead(s, i, r + ("\n" + rest));
    if r != "" {
      assert (r + ("\n" + rest))[1..] == r[1..] + ("\n" + rest);
      LineEnds(s, i + 1, r[1..], rest);
    }
  }

  lemma {:induction false} CommentEnds(s: string, i: nat, r: string, rest: string)
    requires From(s, i, (r + "*/") + rest) && GoodGap(Block(r))
    ensures CommentEnd(s, i) == i + |r|
    decreases |r|
  {
    FromAt(s, i, r + "*/", rest, 0);
    FromAt(s, i, r + "*/", rest, 1);
    if r != "" {
      FromHead(s, i, (r + "*/") + rest);
      assert ((r + "*/") + rest)[1..] == (r[1..] + "*/") + rest;
      assert r[1..] + "*/" == (r + "*/")[1..];
      CommentEnds(s, i + 1, r[1..], rest);
    }
  }

  /** The two slashes of a remark, and what follows them. */
  lemma RemarkAt(s: string, i: nat, r: string, rest: string)
    requires From(s, i, GapText(Line(r)) + rest)
    ensures Ch(s, i) == '/' && Ch(s, i + 1) == '/' && From(s, i + 2, r + ("\n" + rest))
  {
    var body := r + ("\n" + rest);
    assert GapText(Line(r)) + rest == "//" + body;
    FromSplit(s, i, "//", body);
    FromAt(s, i, "//", body, 0);
    FromAt(s, i, "//", body, 1);
  }

  lemma LineNext(s: string, i: nat, r: string, rest: string)
    requires From(s, i, GapText(Line(r)) + rest) && GoodGap(Line(r))
    ensures Ch(s, i) != '\0' && Next(s, i) == Piece([], i + |r| + 2)
    ensures Ch(s, i + |r| + 2) == '\n'
  {
    RemarkAt(s, i, r, rest);
    LineEnds(s, i + 2, r, rest);
    LineRead(s, i);
    FromSplit(s, i + 2, r, "\n" + rest);
  }

  lemma LineRead(s: string, i: nat)
    requires Ch(s, i) == '/' && Ch(s, i + 1) == '/'
    ensures Next(s, i) == Piece([], LineEnd(s, i + 2))
  {
  }

  lemma BlockNext(s: string, i: nat, r: string, rest: string)
    requires From(s, i, GapText(Block(r)) + rest) && GoodGap(Block(r))
    ensures Ch(s, i) != '\0' && Next(s, i) == Piece([], i + |r| + 4)
  {
    var body := (r + "*/") + rest;
    assert GapText(Block(r)) + rest == "/*" + body;
    FromSplit(s, i, "/*", body);
    FromAt(s, i, "/*", body, 0);
    FromAt(s, i, "/*", body, 1);
    CommentEnds(s, i + 2, r, rest);
    FromSplit(s, i + 2, r + "*/", rest);
    FromAt(s, i + 2, r + "*/", rest, |r|);
  }

  /** The tokens of s from i on are ts. */
  predicate IsLex(s: string, i: nat, ts: seq<Token>) {
    LexFrom(s, i) == ts
  }

  /** Lexing at i comes to lexing at j, with the tokens `before` found in between. */
  ghost predicate Yields(s: string, i: nat, before: seq<Token>, j: nat) {
    forall ts: seq<Token> :: IsLex(s, j, ts) ==> IsLex(s, i, before + ts)
  }

  ghost predicate Passes(s: string, i: nat, j: nat) {
    forall ts: seq<Token> :: IsLex(s, j, ts) ==> IsLex(s, i, ts)
  }

  lemma Step(s: string, i: nat, before: seq<Token>, j: nat)
    requires Ch(s, i) != '\0' && Next(s, i) == Piece(before, j)
    ensures Yields(s, i, before, j)
  {
    forall ts: seq<Token> | IsLex(s, j, ts) ensures IsLex(s, i, before + ts) { }
  }

  lemma Pass(s: string, i: nat, j: nat)
    requires Ch(s, i) != '\0' && Next(s, i) == Piece([], j)
    ensures Passes(s, i, j)
  {
    Step(s, i, [], j);
    forall ts: seq<Token> | IsLex(s, j, ts) ensures IsLex(s, i, ts) { assert [] + ts == ts; }
  }

  lemma PassOn(s: string, i: nat, j: nat, k: nat)
    requires Passes(s, i, j) && Passes(s, j, k)
    ensures Passes(s, i, k)
  {
  }

  lemma LineFeedPassed(s: string, i: nat)
    requires Ch(s, i) == '\n'
    ensures Passes(s, i, i + 1)
  {
    Pass(s, i, i + 1);
  }

  lemma BlankPassed(s: string, i: nat, g: Gap, rest: string)
    requires g.Space? && From(s, i, GapText(g) + rest) && GoodGap(g)
    ensures Passes(s, i, i + |GapText(g)|)
  {
    FromHead(s, i, GapText(g) + rest);
    Pass(s, i, i + 1);
  }

  lemma RemarkPassed(s: string, i: nat, r: string, rest: string)
    requires From(s, i, GapText(Line(r)) + rest) && GoodGap(Line(r))
    ensures Passes(s, i, i + |r| + 2) && Ch(s, i + |r| + 2) == '\n'
  {
    LineNext(s, i, r, rest);
    Pass(s, i, i + |r| + 2);
  }

  lemma LinePassed(s: string, i: nat, g: Gap, rest: string)
    requires g.Line? && From(s, i, GapText(g) + rest) && GoodGap(g)
    ensures Passes(s, i, i + |GapText(g)|)
  {
    var j := i + |g.remark| + 2;
    RemarkPassed(s, i, g.remark, rest);
    LineFeedPassed(s, j);
    PassOn(s, i, j, j + 1);
  }

  lemma BlockPassed(s: string, i: nat, g: Gap, rest: string)
    requires g.Block? && From(s, i, GapText(g) + rest) && GoodGap(g)
    ensures Passes(s, i, i + |GapText(g)|)
  {
    BlockNext(s, i, g.remark, rest);
    Pass(s, i, i + |g.remark| + 4);
  }

  lemma GapSkipped(s: string, i: nat, g: Gap, rest: string) returns (j: nat)
    requires From(s, i, GapText(g) + rest) && GoodGap(g)
    ensures Passes(s, i, j) && From(s, j, rest)
  {
    j := i + |GapText(g)|;
    assert From(s, j, rest) by { FromSplit(s, i, GapText(g), rest); }
    if g.Space? {
      BlankPassed(s, i, g, rest);
    } else if g.Line? {
      LinePassed(s, i, g, rest);
    } else {
      BlockPassed(s, i, g, rest);
    }
  }

  lemma GapsCons(gs: seq<Gap>, rest: string)
    requires gs != []
    ensures GapsText(gs) + rest == GapText(gs[0]) + (GapsText(gs[1..]) + rest)
  {
  }

  lemma {:induction false} GapsSkipped(s: string, i: nat, gs: seq<Gap>, rest: string) returns (j: nat)
    requires From(s, i, GapsText(gs) + rest) && GoodGaps(gs)
    ensures Passes(s, i, j) && From(s, j, rest)
    decreases |gs|
  {
    if gs == [] {
      assert GapsText(gs) + rest == rest;
      j := i;
    } else {
      GapsCons(gs, rest);
      var i1 := GapSkipped(s, i, gs[0], GapsText(gs[1..]) + rest);
      j := GapsSkipped(s, i1, gs[1..], rest);
    }
  }

  // ---------------------------------------------------------------------------
  // Tokens

  lemma {:induction false} DigitsRun(s: string, i: nat, w: string, rest: string)
    requires From(s, i, w + rest) && AllDigits(w) && !Digit(Ch(rest, 0))
    ensures DigitsEnd(s, i) == i + |w|
    decreases |w|
  {
    FromHead(s, i, w + rest);
    if w != "" {
      assert (w + rest)[1..] == w[1..] + rest;
      DigitsRun(s, i + 1, w[1..], rest);
    } else {
      assert w + rest == rest;
    }
  }

  lemma {:induction false} WordRun(s: string, i: nat, w: string, rest: string)
    requires From(s, i, w + rest) && AllWord(w) && !WordChar(Ch(rest, 0))
    ensures WordEnd(s, i) == i + |w|
    decreases |w|
  {
    FromHead(s, i, w + rest);
    if w != "" {
      assert (w + rest)[1..] == w[1..] + rest;
      WordRun(s, i + 1, w[1..], rest);
    } else {
      assert w + rest == rest;
    }
  }

  lemma NumberNext(s: string, i: nat, w: string)
    requires Digit(Ch(s, i)) && DigitsEnd(s, i) == i + |w| <= |s| && s[i..i + |w|] == w
    ensures Next(s, i) == Piece([TNum(Decimal(w))], i + |w|)
  {
    assert DigitsEnd(s, i + 1) == i + |w|;
  }

  lemma NumberReads(s: string, i: nat, w: string, rest: string)
    requires From(s, i, w + rest) && w != "" && AllDigits(w) && !Digit(Ch(rest, 0))
    ensures Ch(s, i) != '\0' && Next(s, i) == Piece([TNum(Decimal(w))], i + |w|)
  {
    FromSplit(s, i, w, rest);
    FromAt(s, i, w, rest, 0);
    DigitsRun(s, i, w, rest);
    NumberNext(s, i, w);
  }

  /** Any word is read to its end; its first 31 characters tell which token it is. */
  lemma WordReads(s: string, i: nat, w: string, rest: string)
    requires From(s, i, w + rest) && IsWord(w) && !WordChar(Ch(rest, 0))
    ensures Ch(s, i) != '\0' && Next(s, i) == Piece([WordToken(Take31(w))], i + |w|)
  {
    FromSplit(s, i, w, rest);
    FromAt(s, i, w, rest, 0);
    WordRun(s, i, w, rest);
  }

  lemma SymbolReads(s: string, i: nat, t: Token, text: string, rest: string)
    requires From(s, i, text + rest) && SymbolText(t, text) && Ended(t, Ch(rest, 0))
    ensures Ch(s, i) != '\0' && Next(s, i) == Piece([t], i + |text|)
  {
    FromSplit(s, i, text, rest);
    FromAt(s, i, text, rest, 0);
    if t == TEq { FromAt(s, i, text, rest, 1); }
  }

  /** Reading on in a literal, b read so far and e still to come. */
  lemma {:induction false} StringRun(s: string, i: nat, b: string, e: string, rest: string)
    requires From(s, i, Escaped(e) + ("\"" + rest)) && Quotable(e) && |b| <= 255
    ensures Fits(b + e) || e == "" ==> StringFrom(s, i, b) == (b + e, i + |Escaped(e)|)
    ensures !Fits(b + e) && e != "" ==> StringFrom(s, i, b).0 != b + e
    decreases |e|
  {
    FromSplit(s, i, Escaped(e), "\"" + rest);
    if e == "" {
      assert b + e == b;
    } else {
      var c := if e[0] == '\n' then "\\n" else [e[0]];
      assert Escaped(e) == c + Escaped(e[1..]);
      FromAt(s, i, Escaped(e), "\"" + rest, 0);
      assert b + [e[0]] + e[1..] == b + e;
      FollowingChar(s, i, e, rest);
      if |b| < 255 && !(e[0] == '\n' && |b| == 254) {
        assert Escaped(e) + ("\"" + rest) == c + (Escaped(e[1..]) + ("\"" + rest));
        FromSplit(s, i, c, Escaped(e[1..]) + ("\"" + rest));
        StringRun(s, i + |c|, b + [e[0]], e[1..], rest);
      } else {
        StringStops(s, i, b);
        assert (b + e)[|b|] == e[0];
      }
    }
  }

  /** The buffer is full, or has no room for a line feed. */
  lemma StringStops(s: string, i: nat, b: string)
    requires |b| >= 255 || (|b| == 254 && Ch(s, i) == '\\' && Ch(s, i + 1) == 'n')
    ensures StringFrom(s, i, b).0 == b
  {
  }

  /** A backslash is followed by an n just where it stands for a line feed. */
  lemma FollowingChar(s: string, i: nat, e: string, rest: string)
    requires From(s, i, Escaped(e) + ("\"" + rest)) && Quotable(e) && e != ""
    ensures Ch(s, i) == '\\' && Ch(s, i + 1) == 'n' <==> e[0] == '\n'
  {
    var c := if e[0] == '\n' then "\\n" else [e[0]];
    var tail := Escaped(e[1..]) + ("\"" + rest);
    assert Escaped(e) + ("\"" + rest) == c + tail;
    FromSplit(s, i, c, tail);
    FromAt(s, i, c, tail, 0);
    if e[0] == '\n' {
      FromAt(s, i, c, tail, 1);
    } else if |e| > 1 {
      assert Ch(s, i + 1) == tail[0] == Escaped(e[1..])[0];
      assert e[1..][0] == e[1];
    }
  }

  /** A literal is read back exactly if it fits in the lexer's buffer. */
  lemma StringReads(s: string, i: nat, b: string, rest: string)
    requires From(s, i, ("\"" + Escaped(b) + "\"") + rest) && Quotable(b)
    ensures Ch(s, i) != '\0'
    ensures Next(s, i) == Piece([TString(b)], i + |Escaped(b)| + 2) <==> Fits(b)
  {
    var lit := "\"" + Escaped(b) + "\"";
    assert lit + rest == "\"" + (Escaped(b) + ("\"" + rest));
    FromSplit(s, i, "\"", Escaped(b) + ("\"" + rest));
    FromAt(s, i, "\"", Escaped(b) + ("\"" + rest), 0);
    StringRun(s, i + 1, "", b, rest);
    assert "" + b == b;
    FromSplit(s, i + 1, Escaped(b), "\"" + rest);
    assert Ch(s, i + 1 + |Escaped(b)|) == '"';
  }

  lemma TokenReads(s: string, i: nat, t: Token, text: string, rest: string)
    requires From(s, i, text + rest) && Spells(t, text) && Ended(t, Ch(rest, 0))
    ensures Ch(s, i) != '\0' && Next(s, i) == Piece([t], i + |text|)
  {
    match t
    case TInt => WordReads(s, i, text, rest);
    case TIf => WordReads(s, i, text, rest);
    case TWhile => WordReads(s, i, text, rest);
    case TPrint => WordReads(s, i, text, rest);
    case TReturn => WordReads(s, i, text, rest);
    case TId(_) =>
      WordReads(s, i, text, rest);
      assert |text| > 31 ==> |Take31(text)| == 31;
    case TNum(_) => NumberReads(s, i, text, rest);
    case TString(b) => StringReads(s, i, b, rest);
    case _ => SymbolReads(s, i, t, text, rest);
  }

  // ---------------------------------------------------------------------------
  // Whole texts

  lemma TokenLexed(s: string, i: nat, t: Token, text: string, rest: string) returns (j: nat)
    requires From(s, i, text + rest) && Spells(t, text) && Ended(t, Ch(rest, 0))
    ensures Yields(s, i, [t], j) && From(s, j, rest)
  {
    TokenReads(s, i, t, text, rest);
    FromSplit(s, i, text, rest);
    j := i + |text|;
    Step(s, i, [t], j);
  }

  lemma LexemeReads(s: string, i: nat, l: Lexeme, tail: string) returns (j: nat)
    requires Spells(l.tok, l.text) && GoodGaps(l.gaps) && Ended(l.tok, Ch(GapsText(l.gaps) + tail, 0))
    requires From(s, i, l.text + (GapsText(l.gaps) + tail))
    ensures Yields(s, i, [l.tok], j) && From(s, j, tail)
  {
    var k := TokenLexed(s, i, l.tok, l.text, GapsText(l.gaps) + tail);
    j := GapsSkipped(s, k, l.gaps, tail);
    YieldsOn(s, i, [l.tok], k, j);
  }

  lemma YieldsOn(s: string, i: nat, before: seq<Token>, j: nat, k: nat)
    requires Yields(s, i, before, j) && Passes(s, j, k)
    ensures Yields(s, i, before, k)
  {
  }

  lemma {:induction false} LexemesRead(s: string, i: nat, ls: seq<Lexeme>)
    requires From(s, i, LexemesText(ls)) && GoodLexemes(ls)
    ensures IsLex(s, i, Tokens(ls))
    decreases |ls|
  {
    if ls != [] {
      var j := LexemeReads(s, i, ls[0], LexemesText(ls[1..]));
      LexemesRead(s, j, ls[1..]);
      assert IsLex(s, i, [ls[0].tok] + Tokens(ls[1..]));
    }
  }

  /** The lexer undoes every way of writing tokens down. */
  lemma LexRoundTrip(lead: seq<Gap>, ls: seq<Lexeme>)
    requires GoodGaps(lead) && GoodLexemes(ls)
    ensures Lex(GapsText(lead) + LexemesText(ls)) == Tokens(ls) + [TEof]
  {
    var s := GapsText(lead) + LexemesText(ls);
    assert s[0..] == s;
    var j := GapsSkipped(s, 0, lead, LexemesText(ls));
    LexemesRead(s, j, ls);
    assert IsLex(s, 0, Tokens(ls));
  }

  /** Once a blank follows every token, what else separates them does not matter. */
  predicate Spaced(ls: seq<Lexeme>) {
    forall k :: 0 <= k < |ls| ==>
      && Spells(ls[k].tok, ls[k].text) && GoodGaps(ls[k].gaps)
      && ls[k].gaps != [] && ls[k].gaps[0].Space?
  }

  lemma {:induction false} SpacedIsGood(ls: seq<Lexeme>)
    requires Spaced(ls)
    ensures GoodLexemes(ls)
  {
    if ls != [] {
      var gs := ls[0].gaps;
      assert GoodGap(gs[0]);
      assert (GapsText(gs) + LexemesText(ls[1..]))[0] == gs[0].c;
      SpacedIsGood(ls[1..]);
    }
  }

  lemma SpacingIrrelevant(lead: seq<Gap>, ls: seq<Lexeme>, lead': seq<Gap>, ls': seq<Lexeme>)
    requires GoodGaps(lead) && Spaced(ls) && GoodGaps(lead') && Spaced(ls') && Tokens(ls) == Tokens(ls')
    ensures Lex(GapsText(lead) + LexemesText(ls)) == Lex(GapsText(lead') + LexemesText(ls'))
  {
    SpacedIsGood(ls);
    SpacedIsGood(ls');
    LexRoundTrip(lead, ls);
    LexRoundTrip(lead', ls');
  }

  /** A comment may not directly follow a division sign: 6 divided by 2 becomes 6. */
  lemma CommentAfterDivision() returns (s: string)
    ensures GoodGap(Block("")) && Spells(TNum(6), "6") && Spells(TDiv, "/") && Spells(TNum(2), "2")
    ensures s == "6" + ("/" + (GapText(Block("")) + "2"))
    ensures Lex(s) == [TNum(6), TEof]
  {
    s := "6//**/2";
    SixOverTwo(s);
    SixRead(s);
  }

  lemma SixOverTwo(s: string)
    requires s == "6//**/2"
    ensures GoodGap(Block("")) && Spells(TNum(6), "6") && Spells(TDiv, "/") && Spells(TNum(2), "2")
    ensures s == "6" + ("/" + (GapText(Block("")) + "2"))
  {
    OneDigit("6");
    OneDigit("2");
  }

  lemma OneDigit(w: string)
    requires |w| == 1 && AllDigits(w)
    ensures Decimal(w) == DigitValue(w[0])
  {
    assert w[..0] == "";
  }

  lemma SixRead(s: string)
    requires s == "6//**/2"
    ensures Lex(s) == [TNum(6), TEof]
  {
    OneDigit("6");
    assert From(s, 0, "6" + "//**/2");
    NumberReads(s, 0, "6", "//**/2");
    Step(s, 0, [TNum(6)], 1);
    RestPassed(s);
    assert IsLex(s, 0, [TNum(6)] + []);
  }

  lemma RestPassed(s: string)
    requires s == "6//**/2"
    ensures IsLex(s, 1, [])
  {
    LineEndAtEnd(s, 3);
    LineRead(s, 1);
    Pass(s, 1, 7);
    assert IsLex(s, 7, []);
  }

  lemma {:induction false} LineEndAtEnd(s: string, i: nat)
    requires i <= |s| && forall k :: i <= k < |s| ==> s[k] != '\n' && s[k] != '\0'
    ensures LineEnd(s, i) == |s|
    decreases |s| - i
  {
    if i < |s| { LineEndAtEnd(s, i + 1); }
  }
}
