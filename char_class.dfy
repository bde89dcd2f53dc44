/**
 * Character classes used by the lexers.
 *
 * The ASCII classes (`char::is_ascii_alphabetic`, `is_ascii_digit`,
 * `is_ascii_alphanumeric`) are defined outright. The Unicode classes
 * (`char::is_whitespace`, `is_alphabetic`, `is_numeric`) are tables inside
 * the Rust standard library; they are modelled as function values that are
 * only assumed to satisfy the facts `ValidWhitespace` and `Unicode.Valid`
 * list, so every lemma proved about the lexers holds for any table with
 * those facts.
 */
module CharClass {

  predicate IsAsciiAlphabetic(c: char) {
    'a' <= c <= 'z' || 'A' <= c <= 'Z'
  }

  predicate IsAsciiDigit(c: char) {
    '0' <= c <= '9'
  }

  predicate IsAsciiAlphanumeric(c: char) {
    IsAsciiAlphabetic(c) || IsAsciiDigit(c)
  }

  /** The four ASCII whitespace characters the lexers' inputs contain. */
  predicate IsAsciiSpace(c: char) {
    c == ' ' || c == '\t' || c == '\n' || c == '\r'
  }

  /** The fourteen punctuation characters that start a token. */
  predicate IsSymbol(c: char) {
    c == '=' || c == '+' || c == '-' || c == '!' || c == '*' || c == '/' || c == '<' ||
    c == '>' || c == ',' || c == ';' || c == '(' || c == ')' || c == '{' || c == '}'
  }

  /**
   * What the model relies on about `char::is_whitespace`: the four ASCII
   * spaces are whitespace; ASCII letters, ASCII digits and the punctuation
   * symbols are not.
   */
  ghost predicate ValidWhitespace(isWhitespace: char -> bool) {
    && (forall c :: IsAsciiSpace(c) ==> isWhitespace(c))
    && (forall c :: IsAsciiAlphanumeric(c) ==> !isWhitespace(c))
    && (forall c :: IsSymbol(c) ==> !isWhitespace(c))
  }

  /** The three Unicode classification functions of Rust's `char`. */
  datatype Unicode = Unicode(isWhitespace: char -> bool, isAlphabetic: char -> bool, isNumeric: char -> bool)
  {
    /** `char::is_alphanumeric` is defined as alphabetic or numeric. */
    predicate IsAlphanumeric(c: char) {
      isAlphabetic(c) || isNumeric(c)
    }

    /**
     * What the model relies on about the Unicode tables: ASCII letters are
     * alphabetic and not numeric, ASCII digits are numeric and not
     * alphabetic, no whitespace character is alphabetic or numeric, and no
     * punctuation symbol is alphabetic, numeric or whitespace.
     */
    ghost predicate Valid() {
      && ValidWhitespace(isWhitespace)
      && (forall c :: IsAsciiAlphabetic(c) ==> isAlphabetic(c) && !isNumeric(c))
      && (forall c :: IsAsciiDigit(c) ==> isNumeric(c) && !isAlphabetic(c))
      && (forall c :: isWhitespace(c) ==> !isAlphabetic(c) && !isNumeric(c))
      && (forall c :: IsSymbol(c) ==> !isAlphabetic(c) && !isNumeric(c))
    }
  }

  /** `s` consists of ASCII letters only; decidable by unfolding on a literal. */
  predicate AsciiLetters(s: string) {
    s == [] || (IsAsciiAlphabetic(s[0]) && AsciiLetters(s[1..]))
  }

  lemma {:induction false} AsciiLettersAt(s: string)
    requires AsciiLetters(s)
    ensures forall k | 0 <= k < |s| :: IsAsciiAlphabetic(s[k])
  {
    if s != [] {
      AsciiLettersAt(s[1..]);
      assert forall k | 1 <= k < |s| :: s[k] == s[1..][k - 1];
    }
  }

  /** A table that agrees with Unicode on ASCII and classifies nothing else. */
  const ASCII_ONLY: Unicode := Unicode(IsAsciiSpace, IsAsciiAlphabetic, IsAsciiDigit)

  lemma AsciiOnlyIsValid()
    ensures ASCII_ONLY.Valid()
  {
  }
}
