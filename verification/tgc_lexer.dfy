// tgc_lex: from the characters of a program to its tokens.  The text is a sequence of
// bytes that ends at its first NUL.
module TgcLexer {
  import opened TgcMachine

  /** *(text + i) */
  function Ch(s: string, i: nat): char {
    if i < |s| then s[i] else '\0'
  }

  function Ahead(s: string, i: nat): nat {
    if i < |s| then |s| - i else 0
  }

  /** *s <= ' ' where char is signed: bytes from 128 on are negative. */
  predicate Blank(c: char) {
    c <= ' ' || c >= '\U{80}'
  }

  predicate Digit(c: char) {
    '0' <= c <= '9'
  }

  predicate AllDigits(w: string) {
    forall k :: 0 <= k < |w| ==> Digit(w[k])
  }

  predicate Alpha(c: char) {
    'a' <= c <= 'z' || 'A' <= c <= 'Z' || c == '_'
  }

  predicate WordChar(c: char) {
    Alpha(c) || Digit(c)
  }

  function DigitValue(c: char): int
    requires Digit(c)
  {
    c as int - '0' as int
  }

  /** First end of line or text from i on. */
  function LineEnd(s: string, i: nat): (j: nat)
    ensures j >= i && (j <= |s| || j == i)
    decreases Ahead(s, i)
  {
    if Ch(s, i) == '\0' || Ch(s, i) == '\n' then i else LineEnd(s, i + 1)
  }

  predicate Closes(s: string, i: nat) {
    Ch(s, i) == '*' && Ch(s, i + 1) == '/'
  }

  /** First end of comment or text from i on. */
  function CommentEnd(s: string, i: nat): (j: nat)
    ensures j >= i && (j <= |s| || j == i)
    ensures Ch(s, j) == '\0' || Closes(s, j)
    decreases Ahead(s, i)
  {
    if Ch(s, i) == '\0' || Closes(s, i) then i else CommentEnd(s, i + 1)
  }

  function DigitsEnd(s: string, i: nat): (j: nat)
    ensures j >= i && (j <= |s| || j == i)
    decreases Ahead(s, i)
  {
    if Digit(Ch(s, i)) then DigitsEnd(s, i + 1) else i
  }

  function WordEnd(s: string, i: nat): (j: nat)
    ensures j >= i && (j <= |s| || j == i)
    decreases Ahead(s, i)
  {
    if WordChar(Ch(s, i)) then WordEnd(s, i + 1) else i
  }

  /** What a string of decimal digits stands for. */
  function Decimal(w: string): int {
    if w == "" then 0
    else 10 * Decimal(w[..|w| - 1]) + (if Digit(w[|w| - 1]) then DigitValue(w[|w| - 1]) else 0)
  }

  /** Characters of a string literal from i on, b already read: at most 255 of them, and
      no line feed as the last of these. */
  function StringFrom(s: string, i: nat, b: string): (r: (string, nat))
    ensures r.1 >= i && (r.1 <= |s| || r.1 == i)
    decreases Ahead(s, i)
  {
    if Ch(s, i) == '\0' || Ch(s, i) == '"' || |b| >= 255 then (b, i)
    else if Ch(s, i) == '\\' && Ch(s, i + 1) == 'n' then
      if |b| < 254 then StringFrom(s, i + 2, b + ['\n']) else (b, i)
    else StringFrom(s, i + 1, b + [Ch(s, i)])
  }

  function WordToken(w: string): Token {
    if w == "int" then TInt
    else if w == "if" then TIf
    else if w == "while" then TWhile
    else if w == "print" then TPrint
    else if w == "return" then TReturn
    else if w == "void" then TInt
    else TId(w)
  }

  /** The tokens found at a position, none or one, and where to go on. */
  datatype Piece = Piece(tokens: seq<Token>, next: nat)

  function Symbol(s: string, i: nat): (r: Piece)
    ensures r.next == i + 1 || (Ch(s, i + 1) == '=' && r.next == i + 2)
  {
    match Ch(s, i)
    case '=' => if Ch(s, i + 1) == '=' then Piece([TEq], i + 2) else Piece([TAssign], i + 1)
    case '+' => Piece([TPlus], i + 1)
    case '-' => Piece([TMinus], i + 1)
    case '*' => Piece([TMul], i + 1)
    case '/' => Piece([TDiv], i + 1)
    case '<' => Piece([TLt], i + 1)
    case '>' => Piece([TGt], i + 1)
    case '(' => Piece([TLParen], i + 1)
    case ')' => Piece([TRParen], i + 1)
    case '{' => Piece([TLBrace], i + 1)
    case '}' => Piece([TRBrace], i + 1)
    case ';' => Piece([TSemi], i + 1)
    case _ => Piece([], i + 1)
  }

  function BlockComment(s: string, i: nat): nat
  {
    var j := CommentEnd(s, i + 2);
    if Ch(s, j) != '\0' then j + 2 else j
  }

  function StringLiteral(s: string, i: nat): Piece {
    var r := StringFrom(s, i + 1, "");
    Piece([TString(r.0)], if Ch(s, r.1) == '"' then r.1 + 1 else r.1)
  }

  /** One turn of the main loop. */
  function Next(s: string, i: nat): (r: Piece)
    requires Ch(s, i) != '\0'
    ensures i < r.next <= |s|
  {
    var c := Ch(s, i);
    if Blank(c) then Piece([], i + 1)
    else if c == '/' && Ch(s, i + 1) == '/' then Piece([], LineEnd(s, i + 1))
    else if c == '/' && Ch(s, i + 1) == '*' then Piece([], BlockComment(s, i))
    else if Digit(c) then
      var j := DigitsEnd(s, i + 1);
      Piece([TNum(Decimal(s[i..j]))], j)
    else if Alpha(c) then
      var j := WordEnd(s, i + 1);
      Piece([WordToken(Take31(s[i..j]))], j)
    else if c == '"' then StringLiteral(s, i)
    else Symbol(s, i)
  }

  function LexFrom(s: string, i: nat): seq<Token>
    decreases Ahead(s, i)
  {
    if Ch(s, i) == '\0' then [] else Next(s, i).tokens + LexFrom(s, Next(s, i).next)
  }

  function Lex(s: string): seq<Token> {
    LexFrom(s, 0) + [TEof]
  }

  // ---------------------------------------------------------------------------
  // The lexer as it is written: a pointer into the text, and a token array.

  class Lexer {
    const text: string
    var at: nat
    var tokens: seq<Token>

    constructor (text: string)
      ensures this.text == text && at == 0 && tokens == []
    {
      this.text := text;
      at, tokens := 0, [];
    }

    method LineComment()
      requires at < |text|
      modifies this`at
      ensures at == LineEnd(text, old(at))
    {
      while Ch(text, at) != '\0' && Ch(text, at) != '\n'
        invariant LineEnd(text, at) == LineEnd(text, old(at))
        decreases Ahead(text, at)
      {
        at := at + 1;
      }
    }

    method Comment()
      modifies this`at
      ensures at == BlockComment(text, old(at))
    {
      at := at + 2;
      while Ch(text, at) != '\0' && !(Ch(text, at) == '*' && Ch(text, at + 1) == '/')
        invariant CommentEnd(text, at) == CommentEnd(text, old(at) + 2)
        decreases Ahead(text, at)
      {
        at := at + 1;
      }
      if Ch(text, at) != '\0' { at := at + 2; }
    }

    method ReadNumber()
      requires Digit(Ch(text, at))
      modifies this`at, this`tokens
      ensures at == DigitsEnd(text, old(at) + 1) <= |text|
      ensures tokens == old(tokens) + [TNum(Decimal(text[old(at)..at]))]
    {
      var v := 0;
      while Digit(Ch(text, at))
        invariant old(at) <= at <= |text| && tokens == old(tokens)
        invariant DigitsEnd(text, at) == DigitsEnd(text, old(at) + 1)
        invariant v == Decimal(text[old(at)..at])
        decreases Ahead(text, at)
      {
        assert text[old(at)..at + 1][..at - old(at)] == text[old(at)..at];
        v := v * 10 + DigitValue(Ch(text, at));
        at := at + 1;
      }
      tokens := tokens + [TNum(v)];
    }

    method ReadWord()
      requires Alpha(Ch(text, at))
      modifies this`at, this`tokens
      ensures at == WordEnd(text, old(at) + 1) <= |text|
      ensures tokens == old(tokens) + [WordToken(Take31(text[old(at)..at]))]
    {
      var b := "";
      while WordChar(Ch(text, at)) && |b| < 31
        invariant old(at) <= at <= |text| && tokens == old(tokens)
        invariant WordEnd(text, at) == WordEnd(text, old(at) + 1)
        invariant b == text[old(at)..at] && |b| <= 31
        decreases Ahead(text, at)
      {
        assert text[old(at)..at + 1] == text[old(at)..at] + [Ch(text, at)];
        b := b + [Ch(text, at)];
        at := at + 1;
      }
      while WordChar(Ch(text, at))
        invariant old(at) <= at <= |text| && tokens == old(tokens)
        invariant WordEnd(text, at) == WordEnd(text, old(at) + 1)
        invariant b == Take31(text[old(at)..at]) && (|b| == 31 || !WordChar(Ch(text, at)))
        decreases Ahead(text, at)
      {
        assert text[old(at)..at + 1] == text[old(at)..at] + [Ch(text, at)];
        at := at + 1;
      }
      tokens := tokens + [WordToken(b)];
    }

    method ReadString()
      requires Ch(text, at) == '"'
      modifies this`at, this`tokens
      ensures at == StringLiteral(text, old(at)).next
      ensures tokens == old(tokens) + StringLiteral(text, old(at)).tokens
    {
      at := at + 1;
      var b := "";
      while Ch(text, at) != '\0' && Ch(text, at) != '"' && |b| < 255
        invariant StringFrom(text, at, b) == StringFrom(text, old(at) + 1, "") && tokens == old(tokens)
        decreases Ahead(text, at)
      {
        if Ch(text, at) == '\\' && Ch(text, at + 1) == 'n' {
          if |b| < 254 {
            b := b + ['\n'];
            at := at + 2;
          } else {
            break;
          }
        } else {
          b := b + [Ch(text, at)];
          at := at + 1;
        }
      }
      assert StringFrom(text, at, b) == (b, at);
      if Ch(text, at) == '"' { at := at + 1; }
      tokens := tokens + [TString(b)];
    }

    method ReadSymbol()
      modifies this`at, this`tokens
      ensures at == Symbol(text, old(at)).next
      ensures tokens == old(tokens) + Symbol(text, old(at)).tokens
    {
      match Ch(text, at)
      case '=' =>
        if Ch(text, at + 1) == '=' {
          tokens := tokens + [TEq];
          at := at + 2;
        } else {
          tokens := tokens + [TAssign];
          at := at + 1;
        }
      case '+' => tokens := tokens + [TPlus]; at := at + 1;
      case '-' => tokens := tokens + [TMinus]; at := at + 1;
      case '*' => tokens := tokens + [TMul]; at := at + 1;
      case '/' => tokens := tokens + [TDiv]; at := at + 1;
      case '<' => tokens := tokens + [TLt]; at := at + 1;
      case '>' => tokens := tokens + [TGt]; at := at + 1;
      case '(' => tokens := tokens + [TLParen]; at := at + 1;
      case ')' => tokens := tokens + [TRParen]; at := at + 1;
      case '{' => tokens := tokens + [TLBrace]; at := at + 1;
      case '}' => tokens := tokens + [TRBrace]; at := at + 1;
      case ';' => tokens := tokens + [TSemi]; at := at + 1;
      case _ => at := at + 1;
    }

    /** One turn of the main loop. */
    method Turn()
      requires Ch(text, at) != '\0'
      modifies this`at, this`tokens
      ensures at == Next(text, old(at)).next
      ensures tokens == old(tokens) + Next(text, old(at)).tokens
    {
      if Blank(Ch(text, at)) {
        at := at + 1;
      } else if Ch(text, at) == '/' && Ch(text, at + 1) == '/' {
        LineComment();
      } else if Ch(text, at) == '/' && Ch(text, at + 1) == '*' {
        Comment();
      } else if Digit(Ch(text, at)) {
        ReadNumber();
      } else if Alpha(Ch(text, at)) {
        ReadWord();
      } else if Ch(text, at) == '"' {
        ReadString();
      } else {
        ReadSymbol();
      }
    }

    /** tgc_lex: ends on every text. */
    method LexAll()
      requires at == 0 && tokens == []
      modifies this`at, this`tokens
      ensures tokens == Lex(text)
    {
      while Ch(text, at) != '\0'
        invariant tokens + LexFrom(text, at) == LexFrom(text, 0)
        decreases Ahead(text, at)
      {
        LexStep(tokens, text, at);
        Turn();
      }
      assert tokens == LexFrom(text, 0);
      tokens := tokens + [TEof];
    }
  }

  lemma LexStep(before: seq<Token>, s: string, i: nat)
    requires Ch(s, i) != '\0'
    ensures before + LexFrom(s, i) == (before + Next(s, i).tokens) + LexFrom(s, Next(s, i).next)
  {
  }
}
