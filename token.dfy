/** The token model of the `src` crate: the `Token` enum and its constants. */
module Token {
  import opened Wrappers
  import CharClass

  datatype Token =
    // single-character tokens
    | Assign | Plus | Minus | Bang | Asterisk | Slash | LThan | GThan
    | Comma | Semicolon | LParen | RParen | LBrace | RBrace
    // double-character tokens
    | Eq | NotEq
    // keyword tokens
    | Fn | Let | True | False | If | Else | Return
    // identifier and literal tokens, carrying their source text
    | Identifier(name: string)
    | Int(digits: string)
  {
    predicate IsSingleChar() {
      Assign? || Plus? || Minus? || Bang? || Asterisk? || Slash? || LThan? || GThan? ||
      Comma? || Semicolon? || LParen? || RParen? || LBrace? || RBrace?
    }

    predicate IsKeyword() {
      Fn? || Let? || True? || False? || If? || Else? || Return?
    }

    /** One of the 23 variants that carry no text. */
    predicate IsFixed() {
      !Identifier? && !Int?
    }
  }

  const SYMBOL_ASSIGN: char := '='
  const SYMBOL_PLUS: char := '+'
  const SYMBOL_MINUS: char := '-'
  const SYMBOL_BANG: char := '!'
  const SYMBOL_ASTERISK: char := '*'
  const SYMBOL_SLASH: char := '/'
  const SYMBOL_LT: char := '<'
  const SYMBOL_GT: char := '>'
  const SYMBOL_COMMA: char := ','
  const SYMBOL_SEMICOLON: char := ';'
  const SYMBOL_LPAREN: char := '('
  const SYMBOL_RPAREN: char := ')'
  const SYMBOL_LBRACE: char := '{'
  const SYMBOL_RBRACE: char := '}'

  const SYMBOL_EQ: string := "=="
  const SYMBOL_NOT_EQ: string := "!="

  const KEYWORD_FN: string := "fn"
  const KEYWORD_LET: string := "let"
  const KEYWORD_TRUE: string := "true"
  const KEYWORD_FALSE: string := "false"
  const KEYWORD_IF: string := "if"
  const KEYWORD_ELSE: string := "else"
  const KEYWORD_RETURN: string := "return"

  /** The keyword token spelled exactly `s`, or `None` when `s` is not a keyword. */
  function Keyword(s: string): Option<Token> {
    if s == KEYWORD_FN then Some(Fn)
    else if s == KEYWORD_LET then Some(Let)
    else if s == KEYWORD_TRUE then Some(True)
    else if s == KEYWORD_FALSE then Some(False)
    else if s == KEYWORD_IF then Some(If)
    else if s == KEYWORD_ELSE then Some(Else)
    else if s == KEYWORD_RETURN then Some(Return)
    else None
  }

  /** The source text of a token. */
  function Literal(t: Token): string {
    match t
    case Assign => [SYMBOL_ASSIGN]
    case Plus => [SYMBOL_PLUS]
    case Minus => [SYMBOL_MINUS]
    case Bang => [SYMBOL_BANG]
    case Asterisk => [SYMBOL_ASTERISK]
    case Slash => [SYMBOL_SLASH]
    case LThan => [SYMBOL_LT]
    case GThan => [SYMBOL_GT]
    case Comma => [SYMBOL_COMMA]
    case Semicolon => [SYMBOL_SEMICOLON]
    case LParen => [SYMBOL_LPAREN]
    case RParen => [SYMBOL_RPAREN]
    case LBrace => [SYMBOL_LBRACE]
    case RBrace => [SYMBOL_RBRACE]
    case Eq => SYMBOL_EQ
    case NotEq => SYMBOL_NOT_EQ
    case Fn => KEYWORD_FN
    case Let => KEYWORD_LET
    case True => KEYWORD_TRUE
    case False => KEYWORD_FALSE
    case If => KEYWORD_IF
    case Else => KEYWORD_ELSE
    case Return => KEYWORD_RETURN
    case Identifier(s) => s
    case Int(s) => s
  }

  /** Exactly the seven keyword spellings are keywords, and they map to keyword variants. */
  lemma KeywordSpelling(s: string)
    ensures Keyword(s).Some? <==> s in {"fn", "let", "true", "false", "if", "else", "return"}
    ensures Keyword(s).Some? ==> Keyword(s).value.IsKeyword()
  {
  }

  /**
   * The text of a token: a word or integer carries its own text, a
   * punctuation token is one symbol character or `==` / `!=`, and a
   * keyword's text is looked up as that keyword.
   */
  lemma LiteralShape(t: Token)
    ensures t.Identifier? ==> Literal(t) == t.name
    ensures t.Int? ==> Literal(t) == t.digits
    ensures t.IsSingleChar() ==> |Literal(t)| == 1 && CharClass.IsSymbol(Literal(t)[0])
    ensures t.Eq? ==> Literal(t) == [SYMBOL_ASSIGN, SYMBOL_ASSIGN]
    ensures t.NotEq? ==> Literal(t) == [SYMBOL_BANG, SYMBOL_ASSIGN]
    ensures t.IsKeyword() ==> Keyword(Literal(t)) == Some(t)
  {
  }

  /** A keyword found by `Keyword` is spelled exactly as the string looked up. */
  lemma KeywordLiteral(s: string)
    ensures Keyword(s).Some? ==> Literal(Keyword(s).value) == s
  {
  }

  /** Lookup is case-sensitive: capitalised keywords are not keywords. */
  lemma KeywordCaseSensitive()
    ensures Keyword("Let") == None && Keyword("FN") == None && Keyword("True") == None
    ensures Keyword("lettuce") == None && Keyword("") == None
  {
  }

  /** No two of the 23 text-free variants share a literal. */
  lemma LiteralInjective(a: Token, b: Token)
    requires a.IsFixed() && b.IsFixed()
    requires Literal(a) == Literal(b)
    ensures a == b
  {
  }

  /** Keywords are spelled with ASCII letters only. */
  lemma KeywordLetters(t: Token)
    requires t.IsKeyword()
    ensures forall k | 0 <= k < |Literal(t)| :: CharClass.IsAsciiAlphabetic(Literal(t)[k])
  {
    assert CharClass.AsciiLetters(Literal(t));
    CharClass.AsciiLettersAt(Literal(t));
  }
}
