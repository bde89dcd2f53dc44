/**
 * The token model of the `monkey` crate. Its `Token` enum, its symbol and
 * keyword constants and its `literal` are those of the `src` crate, so they
 * are the `Token` module's; what differs is the keyword lookup, which
 * returns a token outright instead of an `Option`.
 */
module MonkeyToken {
  import opened Wrappers
  import opened Token

  /** `Token::keyword_or_identifier`: the keyword spelled exactly `s`, otherwise an identifier carrying `s`. */
  function KeywordOrIdentifier(s: string): (t: Token)
    ensures Literal(t) == s
    ensures t.IsKeyword() || t == Identifier(s)
  {
    if s == KEYWORD_FN then Fn
    else if s == KEYWORD_LET then Let
    else if s == KEYWORD_TRUE then True
    else if s == KEYWORD_FALSE then False
    else if s == KEYWORD_IF then If
    else if s == KEYWORD_ELSE then Else
    else if s == KEYWORD_RETURN then Return
    else Identifier(s)
  }

  /** The lookup agrees with the `src` crate's `Token::keyword`: a keyword where it finds one, an identifier where it does not. */
  lemma KeywordOrIdentifierSpec(s: string)
    ensures Keyword(s).Some? ==> KeywordOrIdentifier(s) == Keyword(s).value
    ensures Keyword(s).None? ==> KeywordOrIdentifier(s) == Identifier(s)
  {
  }

  /** Looking up the text of a keyword, or of an identifier that is not spelled as one, gives back that token. */
  lemma LiteralKeywordOrIdentifier(t: Token)
    requires t.IsKeyword() || (t.Identifier? && Keyword(t.name).None?)
    ensures KeywordOrIdentifier(Literal(t)) == t
  {
    if t.IsKeyword() {
      LiteralShape(t);
      KeywordOrIdentifierSpec(Literal(t));
    }
  }

  /** The lookup is case-sensitive and on the whole word. */
  lemma KeywordOrIdentifierExamples()
    ensures KeywordOrIdentifier("let") == Let && KeywordOrIdentifier("return") == Return
    ensures KeywordOrIdentifier("Let") == Identifier("Let")
    ensures KeywordOrIdentifier("lettuce") == Identifier("lettuce")
  {
  }
}
