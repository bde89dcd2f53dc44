/**
 * The lexer of the `src` crate: a one-character-lookahead cursor over the
 * input's characters, with Unicode character classes.
 *
 * The cursor `Peekable<Enumerate<Chars>>` is modelled by the input string
 * and the index `pos` of the next character; `Peek`, `Next` and `NextIf`
 * are the three cursor operations the Rust code calls. `Step` is the
 * specification of one `next_token` call, `Lex` of calling it until it
 * stops; the lemmas below state what the lexer promises about both.
 */
module Lexer {
  import opened Wrappers
  import opened CharClass
  import opened Scan
  import opened Token

  /** The error `bail!` raises: the unexpected character and its index. */
  datatype LexError = UnexpectedCharacter(c: char, index: nat)

  /** The result type of `next_token`: `Ok(Some(t))`, `Ok(None)` or `Err(..)`. */
  type NextResult = Result<Option<Token>, LexError>

  /** The result of one call together with the cursor it leaves. */
  datatype Scanned = Scanned(result: NextResult, next: nat)

  /** `Token::keyword(&ident).unwrap_or_else(|| Token::Identifier(ident))`. */
  function KeywordOrIdentifier(ident: string): Token {
    match Keyword(ident)
    case Some(k) => k
    case None => Identifier(ident)
  }

  /** The word read is the text of the token built from it: a keyword when it is spelled as one, an identifier otherwise. */
  lemma KeywordOrIdentifierLiteral(ident: string)
    ensures Literal(KeywordOrIdentifier(ident)) == ident
    ensures Keyword(ident).Some? ==> KeywordOrIdentifier(ident).IsKeyword()
    ensures Keyword(ident).None? ==> KeywordOrIdentifier(ident) == Identifier(ident)
  {
    KeywordSpelling(ident);
  }

  /** The arms of `next_token` that consume exactly one punctuation character. */
  function SymbolToken(c: char): Option<Token> {
    if c == SYMBOL_PLUS then Some(Plus)
    else if c == SYMBOL_MINUS then Some(Minus)
    else if c == SYMBOL_ASTERISK then Some(Asterisk)
    else if c == SYMBOL_SLASH then Some(Slash)
    else if c == SYMBOL_LT then Some(LThan)
    else if c == SYMBOL_GT then Some(GThan)
    else if c == SYMBOL_COMMA then Some(Comma)
    else if c == SYMBOL_SEMICOLON then Some(Semicolon)
    else if c == SYMBOL_LPAREN then Some(LParen)
    else if c == SYMBOL_RPAREN then Some(RParen)
    else if c == SYMBOL_LBRACE then Some(LBrace)
    else if c == SYMBOL_RBRACE then Some(RBrace)
    else None
  }

  /** Exactly the twelve other symbols are single-character tokens, each spelled as that character. */
  lemma SymbolTokenSpec(c: char)
    ensures SymbolToken(c).Some? <==> IsSymbol(c) && c != SYMBOL_ASSIGN && c != SYMBOL_BANG
    ensures SymbolToken(c).Some? ==> SymbolToken(c).value.IsSingleChar() && Literal(SymbolToken(c).value) == [c]
  {
  }

  /**
   * One `next_token` call on input `s` with the cursor at `pos`: skip the
   * maximal whitespace run, then classify the first remaining character.
   * A token's text is consumed exactly; an unexpected character is
   * reported at its index and left unconsumed.
   */
  function Step(u: Unicode, s: string, pos: nat): (r: Scanned)
    requires pos <= |s|
    ensures pos <= r.next <= |s|
    ensures r.result.Ok? && r.result.value.Some? ==> pos < r.next
  {
    var start := RunEnd(s, pos, u.isWhitespace);
    if start == |s| then Scanned(Ok(None), start)
    else
      var c := s[start];
      if c == SYMBOL_ASSIGN then
        if start + 1 < |s| && s[start + 1] == '=' then Scanned(Ok(Some(Eq)), start + 2)
        else Scanned(Ok(Some(Assign)), start + 1)
      else if c == SYMBOL_BANG then
        if start + 1 < |s| && s[start + 1] == '=' then Scanned(Ok(Some(NotEq)), start + 2)
        else Scanned(Ok(Some(Bang)), start + 1)
      else if SymbolToken(c).Some? then
        Scanned(Ok(Some(SymbolToken(c).value)), start + 1)
      else if u.isAlphabetic(c) then
        var stop := RunEnd(s, start, u.IsAlphanumeric);
        Scanned(Ok(Some(KeywordOrIdentifier(s[start..stop]))), stop)
      else if u.isNumeric(c) then
        var stop := RunEnd(s, start, u.isNumeric);
        Scanned(Ok(Some(Int(s[start..stop]))), stop)
      else
        Scanned(Err(UnexpectedCharacter(c, start)), start)
  }

  /** What calling `next_token` until it stops produces: the tokens, then the error if any. */
  datatype Trace = Trace(tokens: seq<Token>, error: Option<LexError>)

  /** Calls `Step` from `pos` until it yields `Ok(None)` or an error. */
  function Lex(u: Unicode, s: string, pos: nat): (tr: Trace)
    requires pos <= |s|
    ensures |tr.tokens| <= |s| - pos
    decreases |s| - pos
  {
    var r := Step(u, s, pos);
    match r.result
    case Ok(None) => Trace([], None)
    case Err(e) => Trace([], Some(e))
    case Ok(Some(t)) =>
      var rest := Lex(u, s, r.next);
      Trace([t] + rest.tokens, rest.error)
  }

  /** The concatenated source text of a token sequence. */
  function Literals(ts: seq<Token>): string {
    if ts == [] then [] else Literal(ts[0]) + Literals(ts[1..])
  }


  /* ---- What one step promises ---- */

  /**
   * A step skips the maximal whitespace run and then consumes exactly the
   * text of the token it returns (at least one character); at the end of
   * the input it returns `Ok(None)`, and on an unexpected character an
   * error carrying that character and its index, consuming nothing more.
   */
  lemma StepConsumesLiteral(u: Unicode, s: string, pos: nat)
    requires pos <= |s|
    ensures var r := Step(u, s, pos); var start := RunEnd(s, pos, u.isWhitespace);
      match r.result
      case Ok(None) => start == |s| && r.next == |s|
      case Ok(Some(t)) =>
        && start < |s|
        && |Literal(t)| >= 1
        && r.next == start + |Literal(t)|
        && s[start..r.next] == Literal(t)
      case Err(e) => start < |s| && e == UnexpectedCharacter(s[start], start) && r.next == start
  {
    var start := RunEnd(s, pos, u.isWhitespace);
    if start < |s| {
      var c := s[start];
      SymbolTokenSpec(c);
      if c != SYMBOL_ASSIGN && c != SYMBOL_BANG && SymbolToken(c).None? && u.isAlphabetic(c) {
        KeywordOrIdentifierLiteral(s[start..RunEnd(s, start, u.IsAlphanumeric)]);
      }
    }
  }

  /** `=` is `Eq` when a second `=` follows, which is then consumed; otherwise `Assign`, and only the `=` is consumed. */
  lemma StepAssignOrEq(u: Unicode, s: string, pos: nat)
    requires pos <= |s|
    requires RunEnd(s, pos, u.isWhitespace) < |s| && s[RunEnd(s, pos, u.isWhitespace)] == SYMBOL_ASSIGN
    ensures var start := RunEnd(s, pos, u.isWhitespace);
      Step(u, s, pos) ==
        if start + 1 < |s| && s[start + 1] == '=' then Scanned(Ok(Some(Eq)), start + 2)
        else Scanned(Ok(Some(Assign)), start + 1)
  {
  }

  /** `!` is `NotEq` when a `=` follows, which is then consumed; otherwise `Bang`, and only the `!` is consumed. */
  lemma StepBangOrNotEq(u: Unicode, s: string, pos: nat)
    requires pos <= |s|
    requires RunEnd(s, pos, u.isWhitespace) < |s| && s[RunEnd(s, pos, u.isWhitespace)] == SYMBOL_BANG
    ensures var start := RunEnd(s, pos, u.isWhitespace);
      Step(u, s, pos) ==
        if start + 1 < |s| && s[start + 1] == '=' then Scanned(Ok(Some(NotEq)), start + 2)
        else Scanned(Ok(Some(Bang)), start + 1)
  {
  }

  /**
   * Maximal munch for words: a keyword or identifier token is the whole
   * alphanumeric run that starts at an alphabetic character, and the
   * keyword lookup is made on that whole run.
   */
  lemma StepWord(u: Unicode, s: string, pos: nat)
    requires pos <= |s|
    requires var r := Step(u, s, pos);
      r.result.Ok? && r.result.value.Some? && (r.result.value.value.Identifier? || r.result.value.value.IsKeyword())
    ensures var r := Step(u, s, pos); var start := RunEnd(s, pos, u.isWhitespace);
      && u.isAlphabetic(s[start])
      && (forall k | start <= k < r.next :: u.IsAlphanumeric(s[k]))
      && (r.next == |s| || !u.IsAlphanumeric(s[r.next]))
      && r.result.value.value == KeywordOrIdentifier(s[start..r.next])
  {
  }

  /**
   * Maximal munch for integers: an `Int` token holds the whole non-empty
   * numeric run that starts at a numeric, non-alphabetic character.
   */
  lemma StepInteger(u: Unicode, s: string, pos: nat)
    requires pos <= |s|
    requires var r := Step(u, s, pos); r.result.Ok? && r.result.value.Some? && r.result.value.value.Int?
    ensures var r := Step(u, s, pos); var start := RunEnd(s, pos, u.isWhitespace); var d := r.result.value.value.digits;
      && d != [] && d == s[start..r.next]
      && !u.isAlphabetic(d[0])
      && (forall k | 0 <= k < |d| :: u.isNumeric(d[k]))
      && (r.next == |s| || !u.isNumeric(s[r.next]))
  {
  }

  /**
   * An error names a character that no arm accepts and its index; the
   * cursor is left on it, so the next call reports the same error.
   */
  lemma StepUnexpected(u: Unicode, s: string, pos: nat)
    requires pos <= |s|
    requires Step(u, s, pos).result.Err?
    ensures var r := Step(u, s, pos); var e := r.result.error;
      && r.next == e.index < |s| && s[e.index] == e.c
      && !u.isWhitespace(e.c) && !IsSymbol(e.c) && !u.isAlphabetic(e.c) && !u.isNumeric(e.c)
      && Step(u, s, r.next) == r
  {
    var r := Step(u, s, pos);
    RunEndUnique(s, r.next, r.next, u.isWhitespace);
  }

  /** `Ok(None)` comes only when nothing but whitespace remains, and then again on every later call. */
  lemma StepEnd(u: Unicode, s: string, pos: nat)
    requires pos <= |s|
    requires Step(u, s, pos).result == Ok(None)
    ensures forall k | pos <= k < |s| :: u.isWhitespace(s[k])
    ensures Step(u, s, pos).next == |s| && Step(u, s, |s|) == Step(u, s, pos)
  {
  }

  /** Leading whitespace does not change the outcome of a step. */
  lemma StepAfterWhitespace(u: Unicode, s: string, pos: nat, start: nat)
    requires pos <= start <= |s|
    requires All(s[pos..start], u.isWhitespace)
    ensures Step(u, s, pos) == Step(u, s, start)
  {
    AllSlice(s, pos, start, u.isWhitespace);
    RunEndUnique(s, pos, RunEnd(s, start, u.isWhitespace), u.isWhitespace);
  }

  /** Every character of a token's text is punctuation or alphanumeric, hence not whitespace. */
  lemma StepTokenChars(u: Unicode, s: string, pos: nat)
    requires u.Valid() && pos <= |s|
    requires var r := Step(u, s, pos); r.result.Ok? && r.result.value.Some?
    ensures var r := Step(u, s, pos); var lit := Literal(r.result.value.value);
      forall k | 0 <= k < |lit| :: (IsSymbol(lit[k]) || u.IsAlphanumeric(lit[k])) && !u.isWhitespace(lit[k])
  {
    var r := Step(u, s, pos);
    var start := RunEnd(s, pos, u.isWhitespace);
    var t := r.result.value.value;
    var lit := Literal(t);
    StepConsumesLiteral(u, s, pos);
    assert forall k | 0 <= k < |lit| :: lit[k] == s[start + k];
    LiteralShape(t);
  }

  /* ---- What a whole run promises ---- */

  /** Where a run stops: at the unexpected character, or at the end of the input. */
  function Stop(tr: Trace, s: string): nat {
    if tr.error.Some? then tr.error.value.index else |s|
  }

  /** A step that yields a token contributes that token, then lexing resumes at the step's cursor. */
  lemma LexAfterToken(u: Unicode, s: string, pos: nat, t: Token, next: nat)
    requires pos <= |s|
    requires Step(u, s, pos) == Scanned(Ok(Some(t)), next)
    ensures next <= |s|
    ensures Lex(u, s, pos) == Trace([t] + Lex(u, s, next).tokens, Lex(u, s, next).error)
  {
  }

  /** Only whitespace left: lexing yields nothing more and no error. */
  lemma LexAtEnd(u: Unicode, s: string, pos: nat)
    requires pos <= |s|
    requires All(s[pos..], u.isWhitespace)
    ensures Lex(u, s, pos) == Trace([], None)
  {
    AllSlice(s, pos, |s|, u.isWhitespace);
    RunEndUnique(s, pos, |s|, u.isWhitespace);
  }

  lemma LiteralsCons(t: Token, ts: seq<Token>)
    ensures Literals([t] + ts) == Literal(t) + Literals(ts)
  {
    assert ([t] + ts)[1..] == ts;
  }

  /**
   * The tokens' texts, concatenated, are the input up to where lexing
   * stopped with all whitespace removed; when no error occurs that is the
   * whole input without its whitespace.
   */
  lemma {:induction false} LexLiterals(u: Unicode, s: string, pos: nat)
    requires u.Valid() && pos <= |s|
    ensures var tr := Lex(u, s, pos);
      && pos <= Stop(tr, s) <= |s|
      && Literals(tr.tokens) == Strip(s[pos..Stop(tr, s)], u.isWhitespace)
    ensures Lex(u, s, pos).error == None ==> Literals(Lex(u, s, pos).tokens) == Strip(s[pos..], u.isWhitespace)
    decreases |s| - pos
  {
    var r := Step(u, s, pos);
    var start := RunEnd(s, pos, u.isWhitespace);
    StepConsumesLiteral(u, s, pos);
    RunEndAll(s, pos, u.isWhitespace);
    StripAll(s[pos..start], u.isWhitespace);
    if r.result.Ok? && r.result.value.Some? {
      var t := r.result.value.value;
      LexAfterToken(u, s, pos, t, r.next);
      LexLiterals(u, s, r.next);
      StepTokenChars(u, s, pos);
      LiteralsStep(Lex(u, s, pos), Lex(u, s, r.next), t, s, pos, start, r.next, u.isWhitespace);
    }
    SliceToEnd(s, pos);
  }

  /** One token's text, after stripped whitespace, in front of the stripped text of the rest of the run. */
  lemma LiteralsStep(tr: Trace, rest: Trace, t: Token, s: string, pos: nat, start: nat, next: nat, p: char -> bool)
    requires tr == Trace([t] + rest.tokens, rest.error)
    requires pos <= start <= next <= Stop(rest, s) <= |s|
    requires Strip(s[pos..start], p) == []
    requires s[start..next] == Literal(t) && forall k | 0 <= k < |Literal(t)| :: !p(Literal(t)[k])
    requires Literals(rest.tokens) == Strip(s[next..Stop(rest, s)], p)
    ensures Stop(tr, s) == Stop(rest, s)
    ensures Literals(tr.tokens) == Strip(s[pos..Stop(tr, s)], p)
  {
    var stop := Stop(rest, s);
    LiteralsCons(t, rest.tokens);
    StripNone(s[start..next], p);
    StripSplit(s, pos, start, stop, p);
    StripSplit(s, start, next, stop, p);
    AppendNil(Strip(s[pos..start], p), Strip(s[start..stop], p));
  }

  /**
   * A run that stops with an error has produced every token before the
   * offending character; that character is one no arm accepts.
   */
  lemma {:induction false} LexUnexpected(u: Unicode, s: string, pos: nat)
    requires pos <= |s|
    requires Lex(u, s, pos).error.Some?
    ensures var e := Lex(u, s, pos).error.value;
      && pos <= e.index < |s| && s[e.index] == e.c
      && !u.isWhitespace(e.c) && !IsSymbol(e.c) && !u.isAlphabetic(e.c) && !u.isNumeric(e.c)
    decreases |s| - pos
  {
    var r := Step(u, s, pos);
    if r.result.Err? {
      StepUnexpected(u, s, pos);
    } else {
      LexUnexpected(u, s, r.next);
    }
  }

  /* ---- Lexing printed tokens gives the tokens back ---- */

  /** One token preceded by the whitespace in front of it. */
  datatype Piece = Piece(space: string, token: Token)

  /** The text of a sequence of pieces. */
  function Render(ps: seq<Piece>): string {
    if ps == [] then [] else ps[0].space + Literal(ps[0].token) + Render(ps[1..])
  }

  function TokensOf(ps: seq<Piece>): seq<Token> {
    if ps == [] then [] else [ps[0].token] + TokensOf(ps[1..])
  }

  /** `t` is a token `next_token` produces from its own text: every fixed token, and the words and integers it can read. */
  predicate Lexable(u: Unicode, t: Token) {
    match t
    case Identifier(w) => w != [] && u.isAlphabetic(w[0]) && All(w, u.IsAlphanumeric) && Keyword(w).None?
    case Int(w) => w != [] && !u.isAlphabetic(w[0]) && All(w, u.isNumeric)
    case _ => true
  }

  /** The text `after` a token does not extend it: no alphanumeric after a word, no numeric after an integer, no `=` after `=` or `!`. */
  predicate Separated(u: Unicode, t: Token, after: string) {
    after == [] ||
    if t.Identifier? || t.IsKeyword() then !u.IsAlphanumeric(after[0])
    else if t.Int? then !u.isNumeric(after[0])
    else if t == Assign || t == Bang then after[0] != '='
    else true
  }

  /** Every piece is whitespace then a lexable token, separated from what follows it. */
  predicate Printable(u: Unicode, ps: seq<Piece>, after: string) {
    ps == [] ||
    (&& All(ps[0].space, u.isWhitespace)
     && Lexable(u, ps[0].token)
     && Separated(u, ps[0].token, Render(ps[1..]) + after)
     && Printable(u, ps[1..], after))
  }

  lemma SymbolTokenOfLiteral(t: Token)
    requires t.IsSingleChar() && t != Assign && t != Bang
    ensures SymbolToken(Literal(t)[0]) == Some(t)
  {
  }

  /** A separated alphanumeric run starting with a letter is read back as one word. */
  lemma StepReadsWord(u: Unicode, s: string, start: nat, w: string)
    requires u.Valid() && w != [] && u.isAlphabetic(w[0])
    requires forall k | 0 <= k < |w| :: u.IsAlphanumeric(w[k])
    requires start + |w| <= |s| && s[start..start + |w|] == w
    requires start + |w| == |s| || !u.IsAlphanumeric(s[start + |w|])
    ensures Step(u, s, start) == Scanned(Ok(Some(KeywordOrIdentifier(w))), start + |w|)
  {
    assert forall k | 0 <= k < |w| :: s[start + k] == w[k];
    RunEndUnique(s, start, start, u.isWhitespace);
    RunEndUnique(s, start, start + |w|, u.IsAlphanumeric);
  }

  /** A separated numeric run starting with a non-letter is read back as one integer. */
  lemma StepReadsInteger(u: Unicode, s: string, start: nat, w: string)
    requires u.Valid() && w != [] && !u.isAlphabetic(w[0])
    requires forall k | 0 <= k < |w| :: u.isNumeric(w[k])
    requires start + |w| <= |s| && s[start..start + |w|] == w
    requires start + |w| == |s| || !u.isNumeric(s[start + |w|])
    ensures Step(u, s, start) == Scanned(Ok(Some(Int(w))), start + |w|)
  {
    assert forall k | 0 <= k < |w| :: s[start + k] == w[k];
    RunEndUnique(s, start, start, u.isWhitespace);
    RunEndUnique(s, start, start + |w|, u.isNumeric);
  }

  /** A fixed punctuation token, separated from what follows, is read back exactly. */
  lemma StepReadsPunctuation(u: Unicode, s: string, start: nat, t: Token)
    requires u.Valid() && t.IsFixed() && !t.IsKeyword()
    requires start + |Literal(t)| <= |s| && s[start..start + |Literal(t)|] == Literal(t)
    requires Separated(u, t, s[start + |Literal(t)|..])
    ensures Step(u, s, start) == Scanned(Ok(Some(t)), start + |Literal(t)|)
  {
    var stop := start + |Literal(t)|;
    assert s[start] == Literal(t)[0];
    RunEndUnique(s, start, start, u.isWhitespace);
    if t == Eq || t == NotEq {
      assert s[start + 1] == Literal(t)[1];
    } else {
      assert stop < |s| ==> s[start + |Literal(t)|..][0] == s[stop];
      if t != Assign && t != Bang {
        SymbolTokenOfLiteral(t);
      }
    }
  }

  /** A lexable token at `start`, separated from what follows, is read back exactly. */
  lemma StepLexable(u: Unicode, s: string, start: nat, t: Token)
    requires u.Valid() && Lexable(u, t)
    requires start + |Literal(t)| <= |s| && s[start..start + |Literal(t)|] == Literal(t)
    requires Separated(u, t, s[start + |Literal(t)|..])
    ensures Step(u, s, start) == Scanned(Ok(Some(t)), start + |Literal(t)|)
  {
    var lit := Literal(t);
    var stop := start + |lit|;
    assert stop < |s| ==> s[start + |Literal(t)|..][0] == s[stop];
    if t.IsKeyword() {
      KeywordLetters(t);
      StepReadsWord(u, s, start, lit);
    } else if t.Identifier? {
      StepReadsWord(u, s, start, lit);
    } else if t.Int? {
      StepReadsInteger(u, s, start, lit);
    } else {
      StepReadsPunctuation(u, s, start, t);
    }
  }

  /**
   * Round trip: lexing the text of printable pieces yields their tokens,
   * and then continues exactly as lexing from the end of that text.
   */
  lemma {:induction false} LexRender(u: Unicode, s: string, pos: nat, ps: seq<Piece>, after: string)
    requires u.Valid() && pos <= |s|
    requires s[pos..] == Render(ps) + after
    requires Printable(u, ps, after)
    ensures pos + |Render(ps)| == |s| - |after|
    ensures var tail := Lex(u, s, |s| - |after|);
      Lex(u, s, pos) == Trace(TokensOf(ps) + tail.tokens, tail.error)
    decreases ps
  {
    assert |s[pos..]| == |s| - pos;
    if ps == [] {
      TraceNil(Lex(u, s, pos), ps);
    } else {
      var rest := Render(ps[1..]) + after;
      RenderCons(ps, after);
      var stop := LexPiece(u, s, pos, ps[0].space, ps[0].token, rest);
      LexRender(u, s, stop, ps[1..], after);
      TraceCons(Lex(u, s, pos), Lex(u, s, stop), Lex(u, s, |s| - |after|), ps);
    }
  }

  /** The text of the first piece, then the text of the others. */
  lemma RenderCons(ps: seq<Piece>, after: string)
    requires ps != []
    ensures Render(ps) + after == ps[0].space + Literal(ps[0].token) + (Render(ps[1..]) + after)
    ensures |Render(ps)| == |ps[0].space| + |Literal(ps[0].token)| + |Render(ps[1..])|
  {
    AppendAssoc(ps[0].space + Literal(ps[0].token), Render(ps[1..]), after);
  }

  /** Whitespace, then a lexable token separated from the `rest`: one step yields it, and lexing resumes at `rest`. */
  lemma LexPiece(u: Unicode, s: string, pos: nat, sp: string, t: Token, rest: string) returns (stop: nat)
    requires u.Valid() && pos <= |s| && s[pos..] == sp + Literal(t) + rest
    requires All(sp, u.isWhitespace) && Lexable(u, t) && Separated(u, t, rest)
    ensures stop == pos + |sp| + |Literal(t)| && stop <= |s| && s[stop..] == rest
    ensures Lex(u, s, pos) == Trace([t] + Lex(u, s, stop).tokens, Lex(u, s, stop).error)
  {
    var start;
    start, stop := PieceSplit(s, pos, sp, Literal(t), rest);
    StepAfterWhitespace(u, s, pos, start);
    StepLexable(u, s, start, t);
    LexAfterToken(u, s, pos, t, stop);
  }

  /** Where the pieces of `s[pos..]` lie in `s`. */
  lemma PieceSplit(s: string, pos: nat, sp: string, lit: string, rest: string) returns (start: nat, stop: nat)
    requires pos <= |s| && s[pos..] == sp + lit + rest
    ensures start == pos + |sp| && stop == start + |lit| && stop <= |s|
    ensures s[pos..start] == sp && s[start..stop] == lit && s[stop..] == rest
  {
    start := pos + |sp|;
    stop := start + |lit|;
    AppendAssoc(sp, lit, rest);
    SplitAt(s, pos, sp, lit + rest);
    SplitAt(s, start, lit, rest);
  }

  /** A trace seen as the tokens of no pieces in front of itself. */
  lemma TraceNil(a: Trace, ps: seq<Piece>)
    requires ps == []
    ensures a == Trace(TokensOf(ps) + a.tokens, a.error)
  {
    AppendNil(TokensOf(ps), a.tokens);
  }

  /** The first piece's token in front of a trace that starts with the tokens of the other pieces. */
  lemma TraceCons(a: Trace, b: Trace, c: Trace, ps: seq<Piece>)
    requires ps != []
    requires a == Trace([ps[0].token] + b.tokens, b.error)
    requires b == Trace(TokensOf(ps[1..]) + c.tokens, c.error)
    ensures a == Trace(TokensOf(ps) + c.tokens, c.error)
  {
    AppendAssoc([ps[0].token], TokensOf(ps[1..]), c.tokens);
  }

  /** Printable pieces followed only by whitespace lex to exactly their tokens, with no error. */
  lemma LexRenderAll(u: Unicode, ps: seq<Piece>, after: string)
    requires u.Valid() && All(after, u.isWhitespace)
    requires Printable(u, ps, after)
    ensures Lex(u, Render(ps) + after, 0) == Trace(TokensOf(ps), None)
  {
    var s := Render(ps) + after;
    LexRender(u, s, 0, ps, after);
    SplitAt(s, 0, Render(ps), after);
    LexAtEnd(u, s, |s| - |after|);
    AppendUnit(TokensOf(ps), Lex(u, s, |s| - |after|).tokens);
  }

  class Lexer {
    const unicode: Unicode
    const input: string
    var pos: nat

    ghost predicate Valid()
      reads this
    {
      pos <= |input|
    }

    /** `Lexer::new`: the cursor starts at the first character. */
    constructor (input: string, unicode: Unicode)
      ensures Valid()
      ensures this.input == input && this.unicode == unicode && pos == 0
    {
      this.input := input;
      this.unicode := unicode;
      pos := 0;
    }

    /** `Peekable::peek`: the next character and its index, not consumed. */
    function Peek(): Option<(nat, char)>
      requires Valid()
      reads this
    {
      if pos < |input| then Some((pos, input[pos])) else None
    }

    /** `Peekable::next`: consume the next character, if any. */
    method Next() returns (r: Option<(nat, char)>)
      requires Valid()
      modifies this
      ensures Valid()
      ensures r == old(Peek())
      ensures pos == if old(pos) < |input| then old(pos) + 1 else old(pos)
    {
      r := Peek();
      if pos < |input| {
        pos := pos + 1;
      }
    }

    /** `Peekable::next_if`: consume the next character only if it satisfies `p`. */
    method NextIf(p: char -> bool) returns (r: Option<(nat, char)>)
      requires Valid()
      modifies this
      ensures Valid()
      ensures old(pos) < |input| && p(input[old(pos)]) ==> r == Some((old(pos), input[old(pos)])) && pos == old(pos) + 1
      ensures !(old(pos) < |input| && p(input[old(pos)])) ==> r == None && pos == old(pos)
    {
      if pos < |input| && p(input[pos]) {
        r := Some((pos, input[pos]));
        pos := pos + 1;
      } else {
        r := None;
      }
    }

    /**
     * `read_then_else`: consume the current character, then consume a
     * following `c` only if it is there; the token tells which happened.
     */
    method ReadThenElse(c: char, thenToken: Token, elseToken: Token) returns (t: Token)
      requires Valid()
      modifies this
      ensures Valid()
      ensures var p := old(pos);
        if p + 1 < |input| && input[p + 1] == c then t == thenToken && pos == p + 2
        else t == elseToken && pos == if p < |input| then p + 1 else p
    {
      var _ := Next();
      var matched := NextIf(next => next == c);
      t := if matched.Some? then thenToken else elseToken;
    }

    /** `read_keyword_or_identifier`: the maximal alphanumeric run, resolved against the keywords. */
    method ReadKeywordOrIdentifier() returns (t: Token)
      requires Valid()
      modifies this
      ensures Valid()
      ensures pos == RunEnd(input, old(pos), unicode.IsAlphanumeric)
      ensures t == KeywordOrIdentifier(input[old(pos)..pos])
    {
      var ident := "";
      var next := NextIf(unicode.IsAlphanumeric);
      while next.Some?
        invariant Valid() && old(pos) <= pos
        invariant ident == input[old(pos)..if next.Some? then pos - 1 else pos]
        invariant forall k | old(pos) <= k < pos :: unicode.IsAlphanumeric(input[k])
        invariant next.Some? ==> old(pos) < pos && next.value.1 == input[pos - 1]
        invariant next.None? ==> pos == |input| || !unicode.IsAlphanumeric(input[pos])
        decreases |input| - pos, if next.Some? then 1 else 0
      {
        SliceSnoc(input, old(pos), pos - 1);
        ident := ident + [next.value.1];
        next := NextIf(unicode.IsAlphanumeric);
      }
      RunEndUnique(input, old(pos), pos, unicode.IsAlphanumeric);
      t := KeywordOrIdentifier(ident);
    }

    /** `read_integer`: the maximal numeric run, kept as text. */
    method ReadInteger() returns (t: Token)
      requires Valid()
      modifies this
      ensures Valid()
      ensures pos == RunEnd(input, old(pos), unicode.isNumeric)
      ensures t == Int(input[old(pos)..pos])
    {
      var digits := "";
      var next := NextIf(unicode.isNumeric);
      while next.Some?
        invariant Valid() && old(pos) <= pos
        invariant digits == input[old(pos)..if next.Some? then pos - 1 else pos]
        invariant forall k | old(pos) <= k < pos :: unicode.isNumeric(input[k])
        invariant next.Some? ==> old(pos) < pos && next.value.1 == input[pos - 1]
        invariant next.None? ==> pos == |input| || !unicode.isNumeric(input[pos])
        decreases |input| - pos, if next.Some? then 1 else 0
      {
        SliceSnoc(input, old(pos), pos - 1);
        digits := digits + [next.value.1];
        next := NextIf(unicode.isNumeric);
      }
      RunEndUnique(input, old(pos), pos, unicode.isNumeric);
      t := Int(digits);
    }

    /** `read_token`: consume the current character and return `token`. */
    method ReadToken(token: Token) returns (t: Token)
      requires Valid()
      modifies this
      ensures Valid()
      ensures t == token
      ensures pos == if old(pos) < |input| then old(pos) + 1 else old(pos)
    {
      var _ := Next();
      t := token;
    }

    /** `skip_whitespace`: move past the maximal whitespace run. */
    method SkipWhitespace()
      requires Valid()
      modifies this
      ensures Valid()
      ensures pos == RunEnd(input, old(pos), unicode.isWhitespace)
    {
      var next := NextIf(unicode.isWhitespace);
      while next.Some?
        invariant Valid() && old(pos) <= pos
        invariant forall k | old(pos) <= k < pos :: unicode.isWhitespace(input[k])
        invariant next.None? ==> pos == |input| || !unicode.isWhitespace(input[pos])
        decreases |input| - pos, if next.Some? then 1 else 0
      {
        next := NextIf(unicode.isWhitespace);
      }
      RunEndUnique(input, old(pos), pos, unicode.isWhitespace);
    }

    /** `next_token`: one step of the lexer, as `Step` specifies it. */
    method NextToken() returns (r: NextResult)
      requires Valid()
      modifies this
      ensures Valid()
      ensures Scanned(r, pos) == Step(unicode, input, old(pos))
    {
      SkipWhitespace();
      match Peek()
      case None =>
        return Ok(None);
      case Some((n, c)) =>
        var t: Token;
        if c == SYMBOL_ASSIGN {
          t := ReadThenElse('=', Eq, Assign);
        } else if c == SYMBOL_PLUS {
          t := ReadToken(Plus);
        } else if c == SYMBOL_MINUS {
          t := ReadToken(Minus);
        } else if c == SYMBOL_BANG {
          t := ReadThenElse('=', NotEq, Bang);
        } else if c == SYMBOL_ASTERISK {
          t := ReadToken(Asterisk);
        } else if c == SYMBOL_SLASH {
          t := ReadToken(Slash);
        } else if c == SYMBOL_LT {
          t := ReadToken(LThan);
        } else if c == SYMBOL_GT {
          t := ReadToken(GThan);
        } else if c == SYMBOL_COMMA {
          t := ReadToken(Comma);
        } else if c == SYMBOL_SEMICOLON {
          t := ReadToken(Semicolon);
        } else if c == SYMBOL_LPAREN {
          t := ReadToken(LParen);
        } else if c == SYMBOL_RPAREN {
          t := ReadToken(RParen);
        } else if c == SYMBOL_LBRACE {
          t := ReadToken(LBrace);
        } else if c == SYMBOL_RBRACE {
          t := ReadToken(RBrace);
        } else if unicode.isAlphabetic(c) {
          t := ReadKeywordOrIdentifier();
        } else if unicode.isNumeric(c) {
          t := ReadInteger();
        } else {
          return Err(UnexpectedCharacter(c, n));
        }
        return Ok(Some(t));
    }
  }
}
