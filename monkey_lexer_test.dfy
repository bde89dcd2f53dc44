/**
 * The integration test of the `monkey` crate: the canonical program,
 * written there without indentation, lexes to the same expected tokens
 * as in the `src` crate, and every further call yields `Ok(None)`. The
 * whitespace class is any one that satisfies `ValidWhitespace`.
 *
 * The proof reuses the chunks of `LexerTest`, replacing the three whose
 * lines were indented.
 */
module MonkeyLexerTest {
  import opened Wrappers
  import opened CharClass
  import opened Token
  import opened Lexer
  import opened LexerTest
  import MonkeyLexer

  /**
   * The input of `test_lexer_iterator`: the canonical program with the
   * indentation that the string's line continuations remove. Each literal
   * below is one chunk, as in `LexerTest.INPUT`.
   */
  const INPUT: string :=
    "let five = 5;" +
    "\nlet test = 10;" +
    "\nlet add = fn" +
    "(x, y) {" +
    "\nx + y;" +
    "\n};" +
    "\nlet result = add" +
    "(five," +
    " ten);" +
    "\n!-/*5;" +
    "\n5 < 10 > 5;" +
    "\nif (5 < 10) {" +
    "\nreturn true;" +
    "\n} else {" +
    "\nreturn false;" +
    "\n}" +
    "\n10 == 10;" +
    "\n10 != 9;" +
    "\n"

  /* The chunks whose text loses its indentation; the others are those of `LexerTest`. */

  const C05: Chunk := Then("\n", Identifier("x"), Then(" ", Plus, Then(" ", Identifier("y"), Then("", Semicolon, End))))
  lemma Text05() ensures TextOf(C05) == "\nx + y;" {}
  lemma Tokens05() ensures TokensIn(C05) == [Identifier("x"), Plus, Identifier("y"), Semicolon] {}
  lemma Ascii05() ensures AsciiPrintable(C05, '\n') {}
  lemma First05() ensures First(C05, '\n') == '\n' {}
  lemma Chunk05() returns (c: Chunk)
    ensures TextOf(c) == "\nx + y;" && TokensIn(c) == [Identifier("x"), Plus, Identifier("y"), Semicolon]
    ensures AsciiPrintable(c, '\n') && First(c, '\n') == '\n'
  {
    Text05();
    Tokens05();
    Ascii05();
    First05();
    c := C05;
  }

  const C13: Chunk := Then("\n", Return, Then(" ", True, Then("", Semicolon, End)))
  lemma Text13() ensures TextOf(C13) == "\nreturn true;" {}
  lemma Tokens13() ensures TokensIn(C13) == [Return, True, Semicolon] {}
  lemma Ascii13() ensures AsciiPrintable(C13, '\n') {}
  lemma First13() ensures First(C13, '\n') == '\n' {}
  lemma Chunk13() returns (c: Chunk)
    ensures TextOf(c) == "\nreturn true;" && TokensIn(c) == [Return, True, Semicolon]
    ensures AsciiPrintable(c, '\n') && First(c, '\n') == '\n'
  {
    Text13();
    Tokens13();
    Ascii13();
    First13();
    c := C13;
  }

  const C15: Chunk := Then("\n", Return, Then(" ", False, Then("", Semicolon, End)))
  lemma Text15() ensures TextOf(C15) == "\nreturn false;" {}
  lemma Tokens15() ensures TokensIn(C15) == [Return, False, Semicolon] {}
  lemma Ascii15() ensures AsciiPrintable(C15, '\n') {}
  lemma First15() ensures First(C15, '\n') == '\n' {}
  lemma Chunk15() returns (c: Chunk)
    ensures TextOf(c) == "\nreturn false;" && TokensIn(c) == [Return, False, Semicolon]
    ensures AsciiPrintable(c, '\n') && First(c, '\n') == '\n'
  {
    Text15();
    Tokens15();
    Ascii15();
    First15();
    c := C15;
  }

  /** The canonical program without indentation as one chunk. */
  lemma CanonicalChunk() returns (w: Chunk)
    ensures TextOf(w) + "\n" == INPUT && TokensIn(w) == EXPECTED
    ensures AsciiPrintable(w, '\n')
  {
    w := LexerTest.Chunk01();
    var c02 := LexerTest.Chunk02();
    w := Join(w, c02, '\n');
    var c03 := LexerTest.Chunk03();
    w := Join(w, c03, '(');
    var c04 := LexerTest.Chunk04();
    w := Join(w, c04, '\n');
    var c05 := Chunk05();
    w := Join(w, c05, '\n');
    var c06 := LexerTest.Chunk06();
    w := Join(w, c06, '\n');
    var c07 := LexerTest.Chunk07();
    w := Join(w, c07, '(');
    var c08 := LexerTest.Chunk08();
    w := Join(w, c08, ' ');
    var c09 := LexerTest.Chunk09();
    w := Join(w, c09, '\n');
    var c10 := LexerTest.Chunk10();
    w := Join(w, c10, '\n');
    var c11 := LexerTest.Chunk11();
    w := Join(w, c11, '\n');
    var c12 := LexerTest.Chunk12();
    w := Join(w, c12, '\n');
    var c13 := Chunk13();
    w := Join(w, c13, '\n');
    var c14 := LexerTest.Chunk14();
    w := Join(w, c14, '\n');
    var c15 := Chunk15();
    w := Join(w, c15, '\n');
    var c16 := LexerTest.Chunk16();
    w := Join(w, c16, '\n');
    var c17 := LexerTest.Chunk17();
    w := Join(w, c17, '\n');
    var c18 := LexerTest.Chunk18();
    w := Join(w, c18, '\n');
  }


  /** The canonical program lexes to exactly the expected tokens, then ends cleanly. */
  lemma CanonicalProgram(isWhitespace: char -> bool)
    requires ValidWhitespace(isWhitespace)
    ensures Lex(MonkeyLexer.AsciiTable(isWhitespace), INPUT, 0) == Trace(EXPECTED, None)
  {
    var u := MonkeyLexer.AsciiTable(isWhitespace);
    MonkeyLexer.AsciiTableValid(isWhitespace);
    var w := CanonicalChunk();
    var ps := ChunkPieces(u, w, '\n');
    assert IsAsciiSpace("\n"[0]);
    LexRenderAll(u, ps, "\n");
  }

  /**
   * The procedure of `test_lexer_iterator` on the `monkey` lexer: each
   * call of `next` yields the next expected token, and then two further
   * calls yield `Ok(None)`.
   */
  method ExpectTokens(isWhitespace: char -> bool, input: string, expected: seq<Token>)
    returns (tokens: seq<Token>, last: NextResult, again: NextResult)
    requires Lex(MonkeyLexer.AsciiTable(isWhitespace), input, 0) == Trace(expected, None)
    ensures tokens == expected && last == Ok(None) && again == Ok(None)
  {
    ghost var u := MonkeyLexer.AsciiTable(isWhitespace);
    var lexer := new MonkeyLexer.Lexer(input, isWhitespace);
    tokens := [];
    while |tokens| < |expected|
      invariant lexer.Valid() && lexer.input == input && lexer.isWhitespace == isWhitespace
      invariant |tokens| <= |expected| && tokens == expected[..|tokens|]
      invariant Lex(u, input, lexer.pos) == Trace(expected[|tokens|..], None)
      decreases |expected| - |tokens|
    {
      var i := |tokens|;
      LexHead(u, input, lexer.pos, expected[i..], None);
      var r := lexer.NextToken();
      assert expected[i..][1..] == expected[i + 1..];
      tokens := tokens + [r.value.value];
      assert tokens == expected[..i + 1];
    }
    assert tokens == expected;
    last := lexer.NextToken();
    StepEnd(u, input, lexer.pos);
    again := lexer.NextToken();
  }

  /** `test_lexer_iterator` on the canonical program. */
  method TestLexerIterator(isWhitespace: char -> bool) returns (tokens: seq<Token>, last: NextResult, again: NextResult)
    requires ValidWhitespace(isWhitespace)
    ensures tokens == EXPECTED && last == Ok(None) && again == Ok(None)
  {
    CanonicalProgram(isWhitespace);
    tokens, last, again := ExpectTokens(isWhitespace, INPUT, EXPECTED);
  }
}
