/**
 * The lexer of the `monkey` crate. It is the `src` lexer with one change:
 * words and integers are read with the ASCII classes (`is_ascii_alphabetic`,
 * `is_ascii_alphanumeric`, `is_ascii_digit`), while whitespace is still
 * skipped with Unicode `char::is_whitespace`.
 *
 * So one `next_token` call is `Step` over the table `AsciiTable`, and every
 * lemma about `Step` and `Lex` carries over; the lemmas at the end state
 * where the two lexers part.
 */
module MonkeyLexer {
  import opened Wrappers
  import opened CharClass
  import opened Scan
  import opened Token
  import MonkeyToken
  import Src = Lexer

  /** The classes the `monkey` lexer reads with: the given whitespace, ASCII letters and ASCII digits. */
  function AsciiTable(isWhitespace: char -> bool): Unicode {
    Unicode(isWhitespace, IsAsciiAlphabetic, IsAsciiDigit)
  }

  /** With a valid whitespace class the table is valid, so the lemmas about `Step` and `Lex` apply. */
  lemma AsciiTableValid(isWhitespace: char -> bool)
    requires ValidWhitespace(isWhitespace)
    ensures AsciiTable(isWhitespace).Valid()
  {
  }

  /** The table's runs are the ASCII runs the `monkey` lexer reads. */
  lemma AsciiRuns(isWhitespace: char -> bool, s: string, i: nat)
    requires i <= |s|
    ensures RunEnd(s, i, AsciiTable(isWhitespace).IsAlphanumeric) == RunEnd(s, i, IsAsciiAlphanumeric)
    ensures RunEnd(s, i, AsciiTable(isWhitespace).isNumeric) == RunEnd(s, i, IsAsciiDigit)
  {
    var u := AsciiTable(isWhitespace);
    RunEndUnique(s, i, RunEnd(s, i, IsAsciiAlphanumeric), u.IsAlphanumeric);
    RunEndUnique(s, i, RunEnd(s, i, IsAsciiDigit), u.isNumeric);
  }

  /** `keyword_or_identifier` builds the token the `src` lexer builds from the same word. */
  lemma SameLookup(ident: string)
    ensures MonkeyToken.KeywordOrIdentifier(ident) == Src.KeywordOrIdentifier(ident)
  {
    MonkeyToken.KeywordOrIdentifierSpec(ident);
  }

  /* The three arms of `next_token` that the ASCII classes decide, each as `Step` over the table sees it. */

  lemma StepWordArm(isWhitespace: char -> bool, s: string, pos: nat)
    requires pos <= |s|
    requires var start := RunEnd(s, pos, isWhitespace); start < |s| && IsAsciiAlphabetic(s[start])
    ensures var start := RunEnd(s, pos, isWhitespace); var stop := RunEnd(s, start, IsAsciiAlphanumeric);
      Src.Step(AsciiTable(isWhitespace), s, pos) == Src.Scanned(Ok(Some(MonkeyToken.KeywordOrIdentifier(s[start..stop]))), stop)
  {
    var start := RunEnd(s, pos, isWhitespace);
    AsciiRuns(isWhitespace, s, start);
    SameLookup(s[start..RunEnd(s, start, IsAsciiAlphanumeric)]);
  }

  lemma StepIntegerArm(isWhitespace: char -> bool, s: string, pos: nat)
    requires pos <= |s|
    requires var start := RunEnd(s, pos, isWhitespace); start < |s| && !IsAsciiAlphabetic(s[start]) && IsAsciiDigit(s[start])
    ensures var start := RunEnd(s, pos, isWhitespace); var stop := RunEnd(s, start, IsAsciiDigit);
      Src.Step(AsciiTable(isWhitespace), s, pos) == Src.Scanned(Ok(Some(Int(s[start..stop]))), stop)
  {
    AsciiRuns(isWhitespace, s, RunEnd(s, pos, isWhitespace));
  }

  lemma StepErrorArm(isWhitespace: char -> bool, s: string, pos: nat)
    requires pos <= |s|
    requires var start := RunEnd(s, pos, isWhitespace);
      start < |s| && !IsSymbol(s[start]) && !IsAsciiAlphanumeric(s[start])
    ensures var start := RunEnd(s, pos, isWhitespace);
      Src.Step(AsciiTable(isWhitespace), s, pos) == Src.Scanned(Err(Src.UnexpectedCharacter(s[start], start)), start)
  {
  }

  class Lexer {
    const isWhitespace: char -> bool
    const input: string
    var pos: nat

    ghost predicate Valid()
      reads this
    {
      pos <= |input|
    }

    /** `Lexer::new`: the cursor starts at the first character. */
    constructor (input: string, isWhitespace: char -> bool)
      ensures Valid()
      ensures this.input == input && this.isWhitespace == isWhitespace && pos == 0
    {
      this.input := input;
      this.isWhitespace := isWhitespace;
      pos := 0;
    }

    /** `Peekable::peek`: the next character and its index, not consumed. */
    function Peek(): Option<(nat, char)>
      requires Valid()
      reads this
    {
      if pos < |input| then Some((pos, input[pos])) else None
    }

    /** `Peekable::next`: consume the next character, if any. */
    method Next() returns (r: Option<(nat, char)>)
      requires Valid()
      modifies this
      ensures Valid()
      ensures r == old(Peek())
      ensures pos == if old(pos) < |input| then old(pos) + 1 else old(pos)
    {
      r := Peek();
      if pos < |input| {
        pos := pos + 1;
      }
    }

    /** `Peekable::next_if`: consume the next character only if it satisfies `p`. */
    method NextIf(p: char -> bool) returns (r: Option<(nat, char)>)
      requires Valid()
      modifies this
      ensures Valid()
      ensures old(pos) < |input| && p(input[old(pos)]) ==> r == Some((old(pos), input[old(pos)])) && pos == old(pos) + 1
      ensures !(old(pos) < |input| && p(input[old(pos)])) ==> r == None && pos == old(pos)
    {
      if pos < |input| && p(input[pos]) {
        r := Some((pos, input[pos]));
        pos := pos + 1;
      } else {
        r := None;
      }
    }

    /**
     * `read_then_else`: consume the current character, then consume a
     * following `c` only if it is there; the token tells which happened.
     */
    method ReadThenElse(c: char, thenToken: Token, elseToken: Token) returns (t: Token)
      requires Valid()
      modifies this
      ensures Valid()
      ensures var p := old(pos);
        if p + 1 < |input| && input[p + 1] == c then t == thenToken && pos == p + 2
        else t == elseToken && pos == if p < |input| then p + 1 else p
    {
      var _ := Next();
      var matched := NextIf(next => next == c);
      t := if matched.Some? then thenToken else elseToken;
    }

    /** `read_keyword_or_identifier`: the maximal ASCII alphanumeric run, resolved against the keywords. */
    method ReadKeywordOrIdentifier() returns (t: Token)
      requires Valid()
      modifies this
      ensures Valid()
      ensures pos == RunEnd(input, old(pos), IsAsciiAlphanumeric)
      ensures t == MonkeyToken.KeywordOrIdentifier(input[old(pos)..pos])
    {
      var ident := "";
      var next := NextIf(IsAsciiAlphanumeric);
      while next.Some?
        invariant Valid() && old(pos) <= pos
        invariant ident == input[old(pos)..if next.Some? then pos - 1 else pos]
        invariant forall k | old(pos) <= k < pos :: IsAsciiAlphanumeric(input[k])
        invariant next.Some? ==> old(pos) < pos && next.value.1 == input[pos - 1]
        invariant next.None? ==> pos == |input| || !IsAsciiAlphanumeric(input[pos])
        decreases |input| - pos, if next.Some? then 1 else 0
      {
        SliceSnoc(input, old(pos), pos - 1);
        ident := ident + [next.value.1];
        next := NextIf(IsAsciiAlphanumeric);
      }
      RunEndUnique(input, old(pos), pos, IsAsciiAlphanumeric);
      t := MonkeyToken.KeywordOrIdentifier(ident);
    }

    /** `read_integer`: the maximal ASCII digit run, kept as text. */
    method ReadInteger() returns (t: Token)
      requires Valid()
      modifies this
      ensures Valid()
      ensures pos == RunEnd(input, old(pos), IsAsciiDigit)
      ensures t == Int(input[old(pos)..pos])
    {
      var digits := "";
      var next := NextIf(IsAsciiDigit);
      while next.Some?
        invariant Valid() && old(pos) <= pos
        invariant digits == input[old(pos)..if next.Some? then pos - 1 else pos]
        invariant forall k | old(pos) <= k < pos :: IsAsciiDigit(input[k])
        invariant next.Some? ==> old(pos) < pos && next.value.1 == input[pos - 1]
        invariant next.None? ==> pos == |input| || !IsAsciiDigit(input[pos])
        decreases |input| - pos, if next.Some? then 1 else 0
      {
        SliceSnoc(input, old(pos), pos - 1);
        digits := digits + [next.value.1];
        next := NextIf(IsAsciiDigit);
      }
      RunEndUnique(input, old(pos), pos, IsAsciiDigit);
      t := Int(digits);
    }

    /** `read_token`: consume the current character and return `token`. */
    method ReadToken(token: Token) returns (t: Token)
      requires Valid()
      modifies this
      ensures Valid()
      ensures t == token
      ensures pos == if old(pos) < |input| then old(pos) + 1 else old(pos)
    {
      var _ := Next();
      t := token;
    }

    /** `skip_whitespace`: move past the maximal whitespace run. */
    method SkipWhitespace()
      requires Valid()
      modifies this
      ensures Valid()
      ensures pos == RunEnd(input, old(pos), isWhitespace)
    {
      var next := NextIf(isWhitespace);
      while next.Some?
        invariant Valid() && old(pos) <= pos
        invariant forall k | old(pos) <= k < pos :: isWhitespace(input[k])
        invariant next.None? ==> pos == |input| || !isWhitespace(input[pos])
        decreases |input| - pos, if next.Some? then 1 else 0
      {
        next := NextIf(isWhitespace);
      }
      RunEndUnique(input, old(pos), pos, isWhitespace);
    }

    /** `next_token`: one step of the lexer, as `Step` specifies it. */
    method NextToken() returns (r: Src.NextResult)
      requires Valid()
      modifies this
      ensures Valid()
      ensures Src.Scanned(r, pos) == Src.Step(AsciiTable(isWhitespace), input, old(pos))
    {
      SkipWhitespace();
      match Peek()
      case None =>
        return Ok(None);
      case Some((n, c)) =>
        var t: Token;
        if c == SYMBOL_ASSIGN {
          t := ReadThenElse('=', Eq, Assign);
        } else if c == SYMBOL_PLUS {
          t := ReadToken(Plus);
        } else if c == SYMBOL_MINUS {
          t := ReadToken(Minus);
        } else if c == SYMBOL_BANG {
          t := ReadThenElse('=', NotEq, Bang);
        } else if c == SYMBOL_ASTERISK {
          t := ReadToken(Asterisk);
        } else if c == SYMBOL_SLASH {
          t := ReadToken(Slash);
        } else if c == SYMBOL_LT {
          t := ReadToken(LThan);
        } else if c == SYMBOL_GT {
          t := ReadToken(GThan);
        } else if c == SYMBOL_COMMA {
          t := ReadToken(Comma);
        } else if c == SYMBOL_SEMICOLON {
          t := ReadToken(Semicolon);
        } else if c == SYMBOL_LPAREN {
          t := ReadToken(LParen);
        } else if c == SYMBOL_RPAREN {
          t := ReadToken(RParen);
        } else if c == SYMBOL_LBRACE {
          t := ReadToken(LBrace);
        } else if c == SYMBOL_RBRACE {
          t := ReadToken(RBrace);
        } else if IsAsciiAlphabetic(c) {
          t := ReadKeywordOrIdentifier();
          StepWordArm(isWhitespace, input, old(pos));
        } else if IsAsciiDigit(c) {
          t := ReadInteger();
          StepIntegerArm(isWhitespace, input, old(pos));
        } else {
          StepErrorArm(isWhitespace, input, old(pos));
          return Err(Src.UnexpectedCharacter(c, n));
        }
        return Ok(Some(t));
    }
  }

  /* ---- Where the two lexers agree and where they part ---- */

  /** From `pos` on, the Unicode letter and number classes say what the ASCII ones say. */
  ghost predicate AsciiClassesAgree(u: Unicode, s: string, pos: nat) {
    forall k | pos <= k < |s| :: u.isAlphabetic(s[k]) == IsAsciiAlphabetic(s[k]) && u.isNumeric(s[k]) == IsAsciiDigit(s[k])
  }

  /** Runs of two classes that agree on the rest of the input end together. */
  lemma RunEndAgree(s: string, i: nat, p: char -> bool, q: char -> bool)
    requires i <= |s|
    requires forall k | i <= k < |s| :: p(s[k]) == q(s[k])
    ensures RunEnd(s, i, p) == RunEnd(s, i, q)
  {
    RunEndUnique(s, i, RunEnd(s, i, p), q);
  }

  lemma StepAgree(u: Unicode, s: string, pos: nat)
    requires pos <= |s| && AsciiClassesAgree(u, s, pos)
    ensures Src.Step(u, s, pos) == Src.Step(AsciiTable(u.isWhitespace), s, pos)
  {
    var start := RunEnd(s, pos, u.isWhitespace);
    var a := AsciiTable(u.isWhitespace);
    if start < |s| {
      RunEndAgree(s, start, u.IsAlphanumeric, a.IsAlphanumeric);
      RunEndAgree(s, start, u.isNumeric, a.isNumeric);
    }
  }

  /** On text whose letters and digits are all ASCII, the `src` and `monkey` lexers produce the same trace. */
  lemma {:induction false} LexAgree(u: Unicode, s: string, pos: nat)
    requires pos <= |s| && AsciiClassesAgree(u, s, pos)
    ensures Src.Lex(u, s, pos) == Src.Lex(AsciiTable(u.isWhitespace), s, pos)
    decreases |s| - pos
  {
    StepAgree(u, s, pos);
    var r := Src.Step(u, s, pos);
    if r.result.Ok? && r.result.value.Some? {
      LexAgree(u, s, r.next);
    }
  }

  /** The `monkey` lexer stops at a non-ASCII letter: `café` is `caf`, then an error at index 3. */
  lemma CafeMonkey(isWhitespace: char -> bool)
    requires ValidWhitespace(isWhitespace) && !isWhitespace('é')
    ensures Src.Lex(AsciiTable(isWhitespace), "café", 0) == Src.Trace([Identifier("caf")], Some(Src.UnexpectedCharacter('é', 3)))
  {
    var s := "café";
    var u := AsciiTable(isWhitespace);
    AsciiTableValid(isWhitespace);
    assert s[0..3] == "caf";
    Src.StepReadsWord(u, s, 0, "caf");
    Src.LexAfterToken(u, s, 0, Identifier("caf"), 3);
    RunEndUnique(s, 3, 3, isWhitespace);
    StepErrorArm(isWhitespace, s, 3);
  }

  /** The `src` lexer, whose table counts `é` as a letter, reads `café` as one identifier. */
  lemma CafeSrc(u: Unicode)
    requires u.Valid() && u.isAlphabetic('é')
    ensures Src.Lex(u, "café", 0) == Src.Trace([Identifier("café")], None)
  {
    var s := "café";
    assert s[0..4] == s;
    Src.StepReadsWord(u, s, 0, s);
    Src.LexAfterToken(u, s, 0, Identifier("café"), 4);
    Src.LexAtEnd(u, s, 4);
  }
}
