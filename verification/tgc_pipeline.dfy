// Token lists written out with spaces between them, and whole programs from their text
// to their result.
module TgcPipeline {
  import opened TgcMachine
  import opened TgcLexer
  import opened TgcLexing
  import L = TgcLanguage
  import S = TgcSimulation
  import T = TgcTheorems

  predicate Writable(t: Token) {
    match t
    case TId(name) => IsWord(name) && |name| <= 31 && name !in KEYWORDS
    case TNum(v) => v >= 0
    case TString(b) => Quotable(b) && Fits(b)
    case TEof => false
    case _ => true
  }

  function DigitChar(d: nat): (c: char)
    requires d < 10
    ensures Digit(c) && DigitValue(c) == d
  {
    d as char + '0'
  }

  function Digits(n: nat): (w: string)
    ensures w != "" && AllDigits(w) && Decimal(w) == n
  {
    if n < 10 then
      var w := [DigitChar(n)];
      assert w[..0] == "";
      w
    else
      var w := Digits(n / 10) + [DigitChar(n % 10)];
      assert w[..|w| - 1] == Digits(n / 10);
      w
  }

  predicate IsSymbol(t: Token) {
    t.TPlus? || t.TMinus? || t.TMul? || t.TDiv? || t.TLt? || t.TGt? || t.TEq? || t.TAssign? ||
    t.TLParen? || t.TRParen? || t.TLBrace? || t.TRBrace? || t.TSemi?
  }

  function SymbolSpelling(t: Token): (text: string)
    requires IsSymbol(t)
    ensures SymbolText(t, text)
  {
    match t
    case TPlus => "+" case TMinus => "-" case TMul => "*" case TDiv => "/"
    case TLt => "<" case TGt => ">" case TEq => "==" case TAssign => "="
    case TLParen => "(" case TRParen => ")" case TLBrace => "{" case TRBrace => "}"
    case TSemi => ";"
  }

  function Spelling(t: Token): (text: string)
    requires Writable(t)
    ensures Spells(t, text)
  {
    match t
    case TInt => "int" case TIf => "if" case TWhile => "while" case TPrint => "print" case TReturn => "return"
    case TId(name) => name
    case TNum(v) => Digits(v)
    case TString(b) => "\"" + Escaped(b) + "\""
    case _ => SymbolSpelling(t)
  }

  predicate AllWritable(ts: seq<Token>) {
    forall k :: 0 <= k < |ts| ==> Writable(ts[k])
  }

  /** The tokens, each followed by a space. */
  function PlainText(ts: seq<Token>): string
    requires AllWritable(ts)
  {
    if ts == [] then "" else Spelling(ts[0]) + (" " + PlainText(ts[1..]))
  }

  lemma {:induction false} PlainLexemes(ts: seq<Token>) returns (ls: seq<Lexeme>)
    requires AllWritable(ts)
    ensures GoodLexemes(ls) && Tokens(ls) == ts && LexemesText(ls) == PlainText(ts)
  {
    if ts == [] {
      ls := [];
    } else {
      var tail := PlainLexemes(ts[1..]);
      var gs := [Space(' ')];
      assert GapsText(gs) == " " by { assert GapsText(gs[1..]) == ""; }
      var l := Lexeme(ts[0], Spelling(ts[0]), gs);
      ls := [l] + tail;
      assert ls[0] == l && ls[1..] == tail;
      assert (GapsText(gs) + LexemesText(tail))[0] == ' ';
    }
  }

  /** Lexing the space-separated rendering of a token list gives the list back. */
  lemma PlainRoundTrip(ts: seq<Token>)
    requires AllWritable(ts)
    ensures Lex(PlainText(ts)) == ts + [TEof]
  {
    var ls := PlainLexemes(ts);
    assert GapsText([]) + LexemesText(ls) == LexemesText(ls);
    LexRoundTrip([], ls);
  }

  /** From program text to result: however a program is laid out, lexing its text and
      running the driver gives what its big-step execution gives. */
  lemma TextRunsCorrectly(f: nat, body: seq<L.Cmd>, lead: seq<Gap>, ls: seq<Lexeme>, builtin: (string, seq<int>) -> int)
    returns (g: nat)
    requires GoodGaps(lead) && GoodLexemes(ls) && Tokens(ls) + [TEof] == L.RenderProgram(body)
    requires L.GoodBody(body) && L.ExecBody(f, body, T.START).Fine? && S.CleanBody(f, body, T.START)
    ensures T.Matches(Run(g, Prog(Lex(GapsText(lead) + LexemesText(ls)), builtin)), L.ExecBody(f, body, T.START))
  {
    LexRoundTrip(lead, ls);
    g := T.InterpreterCorrect(f, body, builtin);
  }
}
