# Monkey lexer in Dafny

This project models the lexer of `rust_monkey`, an interpreter for the Monkey
language, and proves what the lexer promises. The lexer turns source text into
tokens: keywords, identifiers, integers and punctuation. The repository has two
versions of it, and both are modelled:

- The `src` crate (`src/lexer.rs`, `src/token.rs`) reads words and integers with
  Rust's Unicode classes: `char::is_alphabetic`, `is_alphanumeric` and
  `is_numeric`. `Token::keyword` returns an `Option`.
- The `monkey` crate (`monkey/src/lexer.rs`, `monkey/src/token.rs`) reads them
  with the ASCII classes: `is_ascii_alphabetic`, `is_ascii_alphanumeric` and
  `is_ascii_digit`. It still skips whitespace with Unicode `char::is_whitespace`.
  `Token::keyword_or_identifier` returns a `Token`.

## Layout

- `wrappers.dfy`: `Option` and `Result`.
- `char_class.dfy`: the ASCII classes, the fourteen punctuation symbols, and the
  `Unicode` table.
  - The table holds the three Unicode class functions as values. Its `Valid`
    predicate lists the facts the lexer relies on.
  - `AsciiOnlyIsValid` exhibits a table (`ASCII_ONLY`) that satisfies `Valid`,
    so the lemmas that require a valid table are not vacuous.
- `scan.dfy`: sequence facts, maximal runs (`RunEnd`) and whitespace removal
  (`Strip`).
- `token.dfy`: the `Token` datatype, its constants, `Keyword` and `Literal`.
  - The two crates' `Token` enums are the same, and so are their constants and
    `literal`. The `monkey` crate only renames the constants `SYM_*` / `KW_*`.
    So both crates share this one module.
- `lexer.dfy`: the `src` lexer. It has three parts:
  - `Step`, the specification of one `next_token` call.
  - `Lex`, which calls it until it stops, with the lemmas about both.
  - The class `Lexer`, whose methods follow the Rust methods one for one.
    `NextToken` is proved equal to `Step`.
  - The Rust cursor `Peekable<Enumerate<Chars>>` is the input plus the index
    `pos` of the next character. `Peek`, `Next` and `NextIf` are the three
    cursor operations the code calls.
- `lexer_test.dfy`: the unit test `test_lexer_iterator` of `src/lexer.rs`,
  proved for every valid table. Also the two maximal-munch examples `lettuce`
  and `5abc`.
- `monkey_token.dfy`: `keyword_or_identifier`.
- `monkey_lexer.dfy`: the `monkey` lexer as a class of its own, proved equal to
  `Step` over `AsciiTable`.
  - `AsciiTable` is the table of the given whitespace class, ASCII letters and
    ASCII digits.
  - Every lemma about `Step` and `Lex` therefore holds for the `monkey` lexer
    too.
  - Further lemmas state where the two lexers agree (`LexAgree`) and where they
    part (`CafeMonkey`, `CafeSrc`).
- `monkey_lexer_test.dfy`: the integration test `monkey/tests/lexer_test.rs`,
  proved for every valid whitespace class.

The two test files split each canonical program into short chunks. Every chunk
has one small lemma for each of its facts (its text, its tokens, that it is
printable, its first character), and a `ChunkNN` lemma bundles them. The
`Append*` lemmas in `scan.dfy` state facts Dafny proves on its own. Both exist
only to keep each proof obligation small.

Each `next_token` call returns one of three results:

- `Ok(Some(token))` when a token was read;
- `Ok(None)` at the end of the input;
- `Err(UnexpectedCharacter(c, index))` on a character no arm accepts.

The offending character is only peeked, never consumed. So the next call
reports the same error again.

## Model

| member | source | states |
|---|---|---|
| Token.Keyword | src/token.rs:70-81 | definition of `Token::keyword`; its properties are stated by `KeywordSpelling`, `KeywordLiteral` and `KeywordCaseSensitive` |
| Token.Literal | src/token.rs:84-112 | definition of `Token::literal` (also monkey/src/token.rs:84-112); its properties are stated by `LiteralShape` and `LiteralInjective` |
| Token.KeywordSpelling | src/token.rs:70-81 | `keyword` finds a token for exactly the seven keyword spellings, and what it finds is a keyword variant |
| Token.LiteralShape | src/token.rs:84-112 | an identifier or integer renders as its own text; a single-character token renders as one punctuation symbol; `Eq`/`NotEq` render as `==`/`!=`; a keyword's text looks up that keyword |
| Token.KeywordLiteral | src/token.rs:70-112 | a keyword found for `s` renders as `s` |
| Token.KeywordCaseSensitive | src/token.rs:70-81 | the lookup is exact: `Let`, `FN`, `True`, `lettuce` and the empty string are not keywords |
| Token.LiteralInjective | src/token.rs:86-108 | no two of the 23 text-free variants render alike |
| Token.KeywordLetters | src/token.rs:61-67 | keywords are spelled with ASCII letters only |
| Lexer.KeywordOrIdentifier | src/lexer.rs:33 | definition of `keyword(..).unwrap_or_else(Identifier)`; its properties are stated by `KeywordOrIdentifierLiteral` |
| Lexer.KeywordOrIdentifierLiteral | src/lexer.rs:33 | the token built from a word renders as that word; it is a keyword exactly when the word is spelled as one, and otherwise `Identifier(word)` |
| Lexer.SymbolToken | src/lexer.rs:57-68 | definition of the twelve `read_token` arms; its properties are stated by `SymbolTokenSpec` |
| Lexer.SymbolTokenSpec | src/lexer.rs:55-69 | the single-character arms are exactly the twelve symbols other than `=` and `!`, each yielding a single-character token spelled as that symbol |
| Lexer.Step | src/lexer.rs:53-76 | one call never moves the cursor back or past the end, and a call that yields a token moves it forward |
| Lexer.Lex | src/lexer.rs:79-86 | calling `next` until it stops yields no more tokens than there are characters left |
| Lexer.StepConsumesLiteral | src/lexer.rs:53-75 | a call skips the maximal whitespace run, then consumes exactly the token's text (at least one character); `Ok(None)` only at the end; an error names the first non-whitespace character and its index, consuming nothing |
| Lexer.StepAssignOrEq | src/lexer.rs:20-26 | after skipped whitespace, `=` followed by `=` gives `Eq` and consumes both; otherwise it gives `Assign` and consumes only the first |
| Lexer.StepBangOrNotEq | src/lexer.rs:59 | `!` followed by `=` gives `NotEq` and consumes both; otherwise it gives `Bang` and consumes only the `!` |
| Lexer.StepWord | src/lexer.rs:28-34 | a keyword or identifier is the whole alphanumeric run starting at an alphabetic character; the cursor stops at the end or at a non-alphanumeric character; the lookup is on the whole run |
| Lexer.StepInteger | src/lexer.rs:36-42 | an `Int` holds the non-empty, all-numeric, maximal run that starts at a numeric, non-alphabetic character |
| Lexer.StepUnexpected | src/lexer.rs:72 | an error carries a character no arm accepts and its index; the cursor stays on it, so the next call returns the same error |
| Lexer.StepEnd | src/lexer.rs:73 | `Ok(None)` comes only when all that remains is whitespace, and every later call returns it again |
| Lexer.StepAfterWhitespace | src/lexer.rs:49-54 | whitespace in front of the cursor does not change the result |
| Lexer.StepTokenChars | src/lexer.rs:53-75 | every character of a token's text is punctuation or alphanumeric, never whitespace, under a valid table |
| Lexer.LexAfterToken | src/lexer.rs:74-75 | a call that yields a token puts it in front of what the following calls yield |
| Lexer.LexAtEnd | src/lexer.rs:73 | with only whitespace left, lexing yields no tokens and no error |
| Lexer.LexLiterals | src/lexer.rs:53-75 | the tokens' texts, concatenated, are the input up to where lexing stopped, with its whitespace removed; without an error that is the whole input without whitespace |
| Lexer.LexUnexpected | src/lexer.rs:72 | a run that ends in an error ends at a character no arm accepts, at a valid index after the start |
| Lexer.StepReadsWord | src/lexer.rs:28-34 | an alphanumeric word that starts with a letter and is not followed by an alphanumeric is read back as the token built from it |
| Lexer.StepReadsInteger | src/lexer.rs:36-42 | a numeric run that starts with a non-letter and is not followed by a numeric is read back as that `Int` |
| Lexer.StepReadsPunctuation | src/lexer.rs:44-47 | a punctuation token's text not followed by a character that would extend it is read back as that token |
| Lexer.StepLexable | src/lexer.rs:53-75 | any lexable token written out and separated from what follows is read back exactly, consuming its text |
| Lexer.LexPiece | src/lexer.rs:53-75 | whitespace then a separated lexable token: one call yields it, and lexing resumes right after its text |
| Lexer.LexRender | src/lexer.rs:53-75 | round trip: lexing the text of printable pieces yields their tokens, then continues as lexing from the end of that text |
| Lexer.LexRenderAll | src/lexer.rs:53-75 | printable pieces followed only by whitespace lex to exactly their tokens, with no error |
| Lexer.Lexer.constructor | src/lexer.rs:14-18 | a new lexer starts at the first character of its input |
| Lexer.Lexer.Peek | src/lexer.rs:55 | definition of `self.chars.peek()`: the next character and its index, not consumed; `Next` and `NextIf` are stated in its terms |
| Lexer.Lexer.Next | src/lexer.rs:21 | the cursor's `next` returns the next character and its index, and moves one character unless at the end |
| Lexer.Lexer.NextIf | src/lexer.rs:22-23 | the cursor's `next_if` consumes the next character exactly when it exists and satisfies the predicate |
| Lexer.Lexer.ReadThenElse | src/lexer.rs:20-26 | consumes the current character, then a following `c` only if it is there; returns the "then" token exactly when it was |
| Lexer.Lexer.ReadKeywordOrIdentifier | src/lexer.rs:28-34 | consumes the maximal alphanumeric run and returns the keyword or identifier built from it |
| Lexer.Lexer.ReadInteger | src/lexer.rs:36-42 | consumes the maximal numeric run and returns it as an `Int` |
| Lexer.Lexer.ReadToken | src/lexer.rs:44-47 | consumes one character and returns the given token |
| Lexer.Lexer.SkipWhitespace | src/lexer.rs:49-51 | moves the cursor past the maximal whitespace run |
| Lexer.Lexer.NextToken | src/lexer.rs:53-76 | the result and the new cursor are exactly those of `Step` on the old cursor |
| LexerTest.CanonicalProgram | src/lexer.rs:94-169 | the canonical program lexes to exactly the 73 expected tokens, with no error, under every valid table |
| LexerTest.ExpectTokens | src/lexer.rs:170-177 | for an input whose run is clean, each `next` yields the next expected token, then two more calls yield `Ok(None)` |
| LexerTest.TestLexerIterator | src/lexer.rs:93-178 | `test_lexer_iterator` passes under every valid table |
| LexerTest.LettuceIsOneIdentifier | src/lexer.rs:28-34 | `lettuce` is one `Identifier`, not `Let` and a rest |
| LexerTest.IntegerThenIdentifier | src/lexer.rs:36-42 | `5abc` is `Int("5")`, then `Identifier("abc")` |
| MonkeyToken.KeywordOrIdentifier | monkey/src/token.rs:70-81 | the result renders as the input string, and it is a keyword or `Identifier` carrying the string unchanged |
| MonkeyToken.KeywordOrIdentifierSpec | monkey/src/token.rs:70-81 | a keyword string maps to its keyword variant, and any other string `s` to `Identifier(s)` |
| MonkeyToken.LiteralKeywordOrIdentifier | monkey/src/token.rs:70-112 | the other round trip: looking up the text of a keyword, or of an identifier not spelled as one, gives that token back |
| MonkeyToken.KeywordOrIdentifierExamples | monkey/src/token.rs:70-81 | `let` and `return` are keywords; `Let` and `lettuce` are identifiers |
| MonkeyLexer.AsciiTable | monkey/src/lexer.rs:70-71 | definition of the character classes of this lexer: the given whitespace class, `is_ascii_alphabetic` and `is_ascii_digit` (also lines 30 and 38); its properties are stated by `AsciiTableValid` and `AsciiRuns` |
| MonkeyLexer.AsciiTableValid | monkey/src/lexer.rs:28-42 | the ASCII classes with a valid whitespace class satisfy every fact the lexer lemmas rely on |
| MonkeyLexer.SameLookup | monkey/src/lexer.rs:33 | `keyword_or_identifier` builds the same token as the `src` crate's `keyword` lookup with its fallback |
| MonkeyLexer.StepWordArm | monkey/src/lexer.rs:28-34 | at an ASCII letter a call yields the token built from the maximal ASCII alphanumeric run, and the cursor moves past that run |
| MonkeyLexer.StepIntegerArm | monkey/src/lexer.rs:36-42 | at an ASCII digit a call yields the maximal ASCII digit run as an `Int` |
| MonkeyLexer.StepErrorArm | monkey/src/lexer.rs:70-72 | a character that is neither punctuation nor ASCII alphanumeric is an error at its index and is not consumed; this includes non-ASCII letters and digits |
| MonkeyLexer.Lexer.constructor | monkey/src/lexer.rs:14-18 | a new lexer starts at the first character of its input |
| MonkeyLexer.Lexer.Peek | monkey/src/lexer.rs:55 | definition of `self.chars.peek()`: the next character and its index, not consumed; `Next` and `NextIf` are stated in its terms |
| MonkeyLexer.Lexer.Next | monkey/src/lexer.rs:21 | the cursor's `next` returns the next character and its index, and moves one character unless at the end |
| MonkeyLexer.Lexer.NextIf | monkey/src/lexer.rs:22-23 | the cursor's `next_if` consumes the next character exactly when it exists and satisfies the predicate |
| MonkeyLexer.Lexer.ReadThenElse | monkey/src/lexer.rs:20-26 | consumes the current character, then a following `c` only if it is there; returns the "then" token exactly when it was |
| MonkeyLexer.Lexer.ReadKeywordOrIdentifier | monkey/src/lexer.rs:28-34 | consumes the maximal ASCII alphanumeric run and returns `keyword_or_identifier` of it |
| MonkeyLexer.Lexer.ReadInteger | monkey/src/lexer.rs:36-42 | consumes the maximal ASCII digit run and returns it as an `Int` |
| MonkeyLexer.Lexer.ReadToken | monkey/src/lexer.rs:44-47 | consumes one character and returns the given token |
| MonkeyLexer.Lexer.SkipWhitespace | monkey/src/lexer.rs:49-51 | moves the cursor past the maximal whitespace run |
| MonkeyLexer.Lexer.NextToken | monkey/src/lexer.rs:53-76 | the result and the new cursor are exactly those of `Step` over `AsciiTable` on the old cursor, so every `Step` and `Lex` lemma above holds for this lexer |
| MonkeyLexer.StepAgree | monkey/src/lexer.rs:53-76 | where the Unicode letter and number classes agree with the ASCII ones on the rest of the input, one call of either lexer gives the same result |
| MonkeyLexer.LexAgree | monkey/src/lexer.rs:53-76 | on such text the two lexers produce the same tokens and the same error |
| MonkeyLexer.CafeMonkey | monkey/src/lexer.rs:70-72 | the `monkey` lexer reads `café` as `Identifier("caf")`, then fails on `é` at index 3 |
| MonkeyLexer.CafeSrc | src/lexer.rs:70 | the `src` lexer, whose table counts `é` as a letter, reads `café` as one identifier |
| MonkeyLexerTest.CanonicalProgram | monkey/tests/lexer_test.rs:6-100 | the canonical program without indentation lexes to exactly the 73 expected tokens, with no error, for every valid whitespace class |
| MonkeyLexerTest.ExpectTokens | monkey/tests/lexer_test.rs:102-110 | for an input whose run is clean, each `next` of the `monkey` lexer yields the next expected token, then two more calls yield `Ok(None)` |
| MonkeyLexerTest.TestLexerIterator | monkey/tests/lexer_test.rs:25-111 | `test_lexer_iterator` of the `monkey` crate passes for every valid whitespace class |

## Left out

- The Unicode tables behind `char::is_whitespace`, `is_alphabetic` and `is_numeric` are library internals. They are function values. The model only assumes the facts in `ValidWhitespace` and `Unicode.Valid`:
  - ASCII letters are alphabetic and not numeric.
  - ASCII digits are numeric and not alphabetic.
  - The four ASCII spaces are whitespace.
  - No whitespace character is a letter or a number.
  - No punctuation symbol is alphabetic, numeric or whitespace.
- The text of the `anyhow` error message is not modelled. The error is the datatype `UnexpectedCharacter(c, index)`.
- The `FallibleIterator` impl delegates `next` to `next_token`. `NextToken` stands for both, and `Lex` for repeated calls.
- The crates' own `String` buffers are not modelled. The Rust code pushes characters into a fresh `String` in `read_keyword_or_identifier` and `read_integer`, and the methods build the same string in a local variable. A scratch buffer shared across calls does not exist in this code.
- Rust strings are UTF-8, but the model's input is a sequence of characters. `Enumerate` counts characters, not bytes, so an index in an error is a character index, as in the code.
- The `monkey` test builds its lexer with `INPUT.lex()`, from a `Lexable` trait that `monkey/src/lexer.rs` does not define. The model uses the constructor, as `Lexer::new` does.
- The tests are proved for every valid table, not run on Rust's tables.
- The REPLs (`src/repl.rs`, `mnky/src/repl.rs`), the entry points (`src/main.rs`, `mnky/src/main.rs`) and the parser stubs (`src/ast.rs`, `monkey/src/ast.rs`) are left out. They are terminal I/O, argument parsing and a parser that yields nothing.
- The code has no `EndOfInput` token, no sentinel token that closes the stream and no `_` digit separators in integers, and the `src` lexer uses the Unicode classes rather than the ASCII ones. The model follows the code:
  - End of input is `Ok(None)`, and it repeats.
  - An unknown character is an `Err`, and the error repeats because the character is not consumed.
  - The `src` lexer uses the Unicode classes.
