/**
 * The lexer's own test scripts (tests/test_*.c) and a few inputs that show the
 * behaviour of src/lexer.c at its edges, lexed by the model. A script is given
 * byte by byte: the bytes of a C string literal followed by its terminating NUL,
 * which is part of the source store; the SCALLOP_TOKEN_EOF node the tests expect last is not
 * something lex_into_vector produces, so the expected tokens stop before it.
 */
module Scripts {
  import opened CharTypes
  import opened Scanners
  import opened Tokens
  import opened Driver

  /** Every byte in [b, e) lets consume_word step to the next byte. */
  predicate PlainRun(s: seq<Byte>, b: int, e: int)
    decreases e - b
  {
    b >= e || (ContinuesWord(TypeAt(s, b)) && PlainRun(s, b + 1, e))
  }

  /** A run of plain bytes closed by a separator or NUL is one word. */
  lemma {:induction false} PlainWord(s: seq<Byte>, b: int, e: int)
    requires 0 <= b <= e && PlainRun(s, b, e) && EndsWord(TypeAt(s, e))
    ensures WordEnd(s, b) == e
    decreases e - b
  {
    if b < e {
      PlainWord(s, b + 1, e);
      assert WordPass(s, b) == Continue(b + 1);
    } else {
      WordEndCases(s, b);
    }
  }

  /** A plain word that starts with a printable byte is a word token. */
  lemma PlainWordToken(s: seq<Byte>, b: nat, e: int)
    requires TypeAt(s, b) == CharAsciiPrintable && b < e && PlainRun(s, b, e) && EndsWord(TypeAt(s, e))
    ensures CharsToToken(s, b) == Node(Word, b, e)
  {
    PlainWord(s, b, e);
  }

  /** A token that makes progress comes first in what the loop writes from its start. */
  lemma Step(s: seq<Byte>, c: nat, n: Node, o: Outcome)
    requires c < |s| - 1 && CharsToToken(s, c) == n && c < n.endOffset
    requires LexFrom(s, n.endOffset) == o
    ensures LexFrom(s, c) == WithPrefix([n], o)
  {
    LexStep(s, [], c);
    assert [] + [n] == [n];
  }

  /** tests/test_word.c: "foo" is one word. */
  lemma WordScript(s: seq<Byte>)
    requires |s| == 4
    requires s[0] == 0x66 && s[1] == 0x6F && s[2] == 0x6F && s[3] == 0x00
    ensures Lex(s) == Lexed([Node(Word, 0, 3)])
  {
    PlainWordToken(s, 0, 3);
    Step(s, 0, Node(Word, 0, 3), Lexed([]));
  }

  /** The last tokens of ShortPhraseScript. */
  lemma ShortPhraseFrom7(s: seq<Byte>)
    requires |s| == 12
    requires s[0] == 0x66 && s[1] == 0x6F && s[2] == 0x6F && s[3] == 0x20 && s[4] == 0x62 && s[5] == 0x61
      && s[6] == 0x72 && s[7] == 0x09 && s[8] == 0x62 && s[9] == 0x61 && s[10] == 0x7A && s[11] == 0x00
    ensures LexFrom(s, 7) == Lexed([Node(WordSeparator, 7, 8), Node(Word, 8, 11)])
  {
    PlainWordToken(s, 8, 11);
    Step(s, 8, Node(Word, 8, 11), Lexed([]));
    assert CharsToToken(s, 7) == Node(WordSeparator, 7, 8);
    Step(s, 7, Node(WordSeparator, 7, 8), Lexed([Node(Word, 8, 11)]));
  }

  /** The last tokens of ShortPhraseScript. */
  lemma ShortPhraseFrom3(s: seq<Byte>)
    requires |s| == 12
    requires s[0] == 0x66 && s[1] == 0x6F && s[2] == 0x6F && s[3] == 0x20 && s[4] == 0x62 && s[5] == 0x61
      && s[6] == 0x72 && s[7] == 0x09 && s[8] == 0x62 && s[9] == 0x61 && s[10] == 0x7A && s[11] == 0x00
    ensures LexFrom(s, 3) == Lexed([
      Node(WordSeparator, 3, 4), Node(Word, 4, 7), Node(WordSeparator, 7, 8),
      Node(Word, 8, 11)])
  {
    ShortPhraseFrom7(s);
    PlainWordToken(s, 4, 7);
    Step(s, 4, Node(Word, 4, 7), Lexed([Node(WordSeparator, 7, 8), Node(Word, 8, 11)]));
    assert CharsToToken(s, 3) == Node(WordSeparator, 3, 4);
    Step(s, 3, Node(WordSeparator, 3, 4), Lexed([Node(Word, 4, 7), Node(WordSeparator, 7, 8), Node(Word, 8, 11)]));
  }

  /** tests/test_short_phrase.c: words split by a space and a tab. */
  lemma ShortPhraseScript(s: seq<Byte>)
    requires |s| == 12
    requires s[0] == 0x66 && s[1] == 0x6F && s[2] == 0x6F && s[3] == 0x20 && s[4] == 0x62 && s[5] == 0x61
      && s[6] == 0x72 && s[7] == 0x09 && s[8] == 0x62 && s[9] == 0x61 && s[10] == 0x7A && s[11] == 0x00
    ensures Lex(s) == Lexed([
      Node(Word, 0, 3), Node(WordSeparator, 3, 4), Node(Word, 4, 7),
      Node(WordSeparator, 7, 8), Node(Word, 8, 11)])
  {
    ShortPhraseFrom3(s);
    PlainWordToken(s, 0, 3);
    Step(s, 0, Node(Word, 0, 3), Lexed([
      Node(WordSeparator, 3, 4), Node(Word, 4, 7), Node(WordSeparator, 7, 8),
      Node(Word, 8, 11)]));
  }

  /** The last tokens of StatementsScript. */
  lemma StatementsFrom13(s: seq<Byte>)
    requires |s| == 20
    requires s[0] == 0x66 && s[1] == 0x6F && s[2] == 0x6F && s[3] == 0x3B && s[4] == 0x20 && s[5] == 0x62
      && s[6] == 0x61 && s[7] == 0x72 && s[8] == 0x20 && s[9] == 0x62 && s[10] == 0x61 && s[11] == 0x7A
      && s[12] == 0x0A && s[13] == 0x62 && s[14] == 0x61 && s[15] == 0x72 && s[16] == 0x72 && s[17] == 0x79
      && s[18] == 0x3B && s[19] == 0x00
    ensures LexFrom(s, 13) == Lexed([Node(Word, 13, 18), Node(StatementSeparator, 18, 19)])
  {
    assert CharsToToken(s, 18) == Node(StatementSeparator, 18, 19);
    Step(s, 18, Node(StatementSeparator, 18, 19), Lexed([]));
    PlainWordToken(s, 13, 18);
    Step(s, 13, Node(Word, 13, 18), Lexed([Node(StatementSeparator, 18, 19)]));
  }

  /** The last tokens of StatementsScript. */
  lemma StatementsFrom9(s: seq<Byte>)
    requires |s| == 20
    requires s[0] == 0x66 && s[1] == 0x6F && s[2] == 0x6F && s[3] == 0x3B && s[4] == 0x20 && s[5] == 0x62
      && s[6] == 0x61 && s[7] == 0x72 && s[8] == 0x20 && s[9] == 0x62 && s[10] == 0x61 && s[11] == 0x7A
      && s[12] == 0x0A && s[13] == 0x62 && s[14] == 0x61 && s[15] == 0x72 && s[16] == 0x72 && s[17] == 0x79
      && s[18] == 0x3B && s[19] == 0x00
    ensures LexFrom(s, 9) == Lexed([
      Node(Word, 9, 12), Node(StatementSeparator, 12, 13), Node(Word, 13, 18),
      Node(StatementSeparator, 18, 19)])
  {
    StatementsFrom13(s);
    assert CharsToToken(s, 12) == Node(StatementSeparator, 12, 13);
    Step(s, 12, Node(StatementSeparator, 12, 13), Lexed([Node(Word, 13, 18), Node(StatementSeparator, 18, 19)]));
    PlainWordToken(s, 9, 12);
    Step(s, 9, Node(Word, 9, 12), Lexed([Node(StatementSeparator, 12, 13), Node(Word, 13, 18), Node(StatementSeparator, 18, 19)]));
  }

  /** The last tokens of StatementsScript. */
  lemma StatementsFrom5(s: seq<Byte>)
    requires |s| == 20
    requires s[0] == 0x66 && s[1] == 0x6F && s[2] == 0x6F && s[3] == 0x3B && s[4] == 0x20 && s[5] == 0x62
      && s[6] == 0x61 && s[7] == 0x72 && s[8] == 0x20 && s[9] == 0x62 && s[10] == 0x61 && s[11] == 0x7A
      && s[12] == 0x0A && s[13] == 0x62 && s[14] == 0x61 && s[15] == 0x72 && s[16] == 0x72 && s[17] == 0x79
      && s[18] == 0x3B && s[19] == 0x00
    ensures LexFrom(s, 5) == Lexed([
      Node(Word, 5, 8), Node(WordSeparator, 8, 9), Node(Word, 9, 12),
      Node(StatementSeparator, 12, 13), Node(Word, 13, 18), Node(StatementSeparator, 18, 19)])
  {
    StatementsFrom9(s);
    assert CharsToToken(s, 8) == Node(WordSeparator, 8, 9);
    Step(s, 8, Node(WordSeparator, 8, 9), Lexed([
      Node(Word, 9, 12), Node(StatementSeparator, 12, 13), Node(Word, 13, 18),
      Node(StatementSeparator, 18, 19)]));
    PlainWordToken(s, 5, 8);
    Step(s, 5, Node(Word, 5, 8), Lexed([
      Node(WordSeparator, 8, 9), Node(Word, 9, 12), Node(StatementSeparator, 12, 13),
      Node(Word, 13, 18), Node(StatementSeparator, 18, 19)]));
  }

  /** The last tokens of StatementsScript. */
  lemma StatementsFrom3(s: seq<Byte>)
    requires |s| == 20
    requires s[0] == 0x66 && s[1] == 0x6F && s[2] == 0x6F && s[3] == 0x3B && s[4] == 0x20 && s[5] == 0x62
      && s[6] == 0x61 && s[7] == 0x72 && s[8] == 0x20 && s[9] == 0x62 && s[10] == 0x61 && s[11] == 0x7A
      && s[12] == 0x0A && s[13] == 0x62 && s[14] == 0x61 && s[15] == 0x72 && s[16] == 0x72 && s[17] == 0x79
      && s[18] == 0x3B && s[19] == 0x00
    ensures LexFrom(s, 3) == Lexed([
      Node(StatementSeparator, 3, 4), Node(WordSeparator, 4, 5), Node(Word, 5, 8),
      Node(WordSeparator, 8, 9), Node(Word, 9, 12), Node(StatementSeparator, 12, 13),
      Node(Word, 13, 18), Node(StatementSeparator, 18, 19)])
  {
    StatementsFrom5(s);
    assert CharsToToken(s, 4) == Node(WordSeparator, 4, 5);
    Step(s, 4, Node(WordSeparator, 4, 5), Lexed([
      Node(Word, 5, 8), Node(WordSeparator, 8, 9), Node(Word, 9, 12),
      Node(StatementSeparator, 12, 13), Node(Word, 13, 18), Node(StatementSeparator, 18, 19)]));
    assert CharsToToken(s, 3) == Node(StatementSeparator, 3, 4);
    Step(s, 3, Node(StatementSeparator, 3, 4), Lexed([
      Node(WordSeparator, 4, 5), Node(Word, 5, 8), Node(WordSeparator, 8, 9),
      Node(Word, 9, 12), Node(StatementSeparator, 12, 13), Node(Word, 13, 18),
      Node(StatementSeparator, 18, 19)]));
  }

  /** tests/test_statements.c: each statement separator is a token of its own. */
  lemma StatementsScript(s: seq<Byte>)
    requires |s| == 20
    requires s[0] == 0x66 && s[1] == 0x6F && s[2] == 0x6F && s[3] == 0x3B && s[4] == 0x20 && s[5] == 0x62
      && s[6] == 0x61 && s[7] == 0x72 && s[8] == 0x20 && s[9] == 0x62 && s[10] == 0x61 && s[11] == 0x7A
      && s[12] == 0x0A && s[13] == 0x62 && s[14] == 0x61 && s[15] == 0x72 && s[16] == 0x72 && s[17] == 0x79
      && s[18] == 0x3B && s[19] == 0x00
    ensures Lex(s) == Lexed([
      Node(Word, 0, 3), Node(StatementSeparator, 3, 4), Node(WordSeparator, 4, 5),
      Node(Word, 5, 8), Node(WordSeparator, 8, 9), Node(Word, 9, 12),
      Node(StatementSeparator, 12, 13), Node(Word, 13, 18), Node(StatementSeparator, 18, 19)])
  {
    StatementsFrom3(s);
    PlainWordToken(s, 0, 3);
    Step(s, 0, Node(Word, 0, 3), Lexed([
      Node(StatementSeparator, 3, 4), Node(WordSeparator, 4, 5), Node(Word, 5, 8),
      Node(WordSeparator, 8, 9), Node(Word, 9, 12), Node(StatementSeparator, 12, 13),
      Node(Word, 13, 18), Node(StatementSeparator, 18, 19)]));
  }

  /**
   * tests/test_quoted_strings.c expects four words; in src/lexer.c a token
   * that starts with a quote always fails, so the run stops at once.
   */
  lemma QuotedStringsScript(s: seq<Byte>)
    requires |s| == 36
    requires s[0] == 0x27 && s[1] == 0x66 && s[2] == 0x6F && s[3] == 0x6F && s[4] == 0x27 && s[5] == 0x20
      && s[6] == 0x66 && s[7] == 0x6F && s[8] == 0x6F && s[9] == 0x27 && s[10] == 0x62 && s[11] == 0x61
      && s[12] == 0x72 && s[13] == 0x27 && s[14] == 0x20 && s[15] == 0x27 && s[16] == 0x62 && s[17] == 0x61
      && s[18] == 0x72 && s[19] == 0x27 && s[20] == 0x62 && s[21] == 0x61 && s[22] == 0x7A && s[23] == 0x20
      && s[24] == 0x66 && s[25] == 0x6F && s[26] == 0x6F && s[27] == 0x27 && s[28] == 0x62 && s[29] == 0x61
      && s[30] == 0x72 && s[31] == 0x27 && s[32] == 0x62 && s[33] == 0x61 && s[34] == 0x7A && s[35] == 0x00
    ensures Lex(s) == Failed([])
  {
    QuoteTokenFails(s, 0);
  }

  /** tests/test_escape_quoted.c expects one word; the leading quote makes the run fail. */
  lemma EscapeQuotedScript(s: seq<Byte>)
    requires |s| == 14
    requires s[0] == 0x27 && s[1] == 0x5C && s[2] == 0x27 && s[3] == 0x61 && s[4] == 0x5C && s[5] == 0x61
      && s[6] == 0x20 && s[7] == 0x5C && s[8] == 0x7A && s[9] == 0x3B && s[10] == 0x5C && s[11] == 0x62
      && s[12] == 0x27 && s[13] == 0x00
    ensures Lex(s) == Failed([])
  {
    QuoteTokenFails(s, 0);
  }

  /**
   * tests/test_escape_unquoted.c expects the word `\"a\a`; in src/lexer.c a
   * backslash ends the word one byte later, and the double quote after it
   * starts a token that fails.
   */
  lemma EscapeUnquotedScript(s: seq<Byte>)
    requires |s| == 12
    requires s[0] == 0x5C && s[1] == 0x22 && s[2] == 0x61 && s[3] == 0x5C && s[4] == 0x61 && s[5] == 0x20
      && s[6] == 0x5C && s[7] == 0x7A && s[8] == 0x3B && s[9] == 0x5C && s[10] == 0x62 && s[11] == 0x00
    ensures Lex(s) == Failed([Node(Word, 0, 1)])
  {
    assert WordPass(s, 0) == Return(1);
    QuoteTokenFails(s, 1);
    assert LexFrom(s, 1) == Failed([]);
    Step(s, 0, Node(Word, 0, 1), Failed([]));
  }

  /** A NUL inside the source yields the zero node, which sends the loop back to offset 0. */
  lemma InteriorNulLoops(s: seq<Byte>)
    requires |s| == 4
    requires s[0] == 0x61 && s[1] == 0x00 && s[2] == 0x62 && s[3] == 0x00
    ensures Lex(s) == Loops([Node(Word, 0, 1), ZeroNode])
  {
    PlainWordToken(s, 0, 1);
    assert LexFrom(s, 1) == Loops([ZeroNode]);
    Step(s, 0, Node(Word, 0, 1), Loops([ZeroNode]));
  }

  /** An escaped continuation byte: the word stops after the backslash and the next byte is a zero node. */
  lemma EscapedContinuationLoops(s: seq<Byte>)
    requires |s| == 3
    requires s[0] == 0x5C && s[1] == 0x80 && s[2] == 0x00
    ensures Lex(s) == Loops([Node(Word, 0, 1), ZeroNode])
  {
    assert WordPass(s, 0) == Return(1);
    assert LexFrom(s, 1) == Loops([ZeroNode]);
    Step(s, 0, Node(Word, 0, 1), Loops([ZeroNode]));
  }

  /** A two-byte character followed by a space is one word. */
  lemma Utf8WordScript(s: seq<Byte>)
    requires |s| == 4
    requires s[0] == 0xC3 && s[1] == 0xA9 && s[2] == 0x20 && s[3] == 0x00
    ensures Lex(s) == Lexed([Node(Word, 0, 2), Node(WordSeparator, 2, 3)])
  {
    assert Utf8Scan(s, 2, 2) == 2;
    assert Utf8RunEnd(s, 0) == 2;
    assert WordPass(s, 0) == Continue(2);
    assert WordEnd(s, 2) == 2;
    assert WordSeparatorsEnd(s, 3) == 3;
    assert CharsToToken(s, 2) == Node(WordSeparator, 2, 3);
    Step(s, 2, Node(WordSeparator, 2, 3), Lexed([]));
    Step(s, 0, Node(Word, 0, 2), Lexed([Node(WordSeparator, 2, 3)]));
  }

  /** A multi-byte character directly before the final NUL makes consume_utf8_chars, and the run, fail. */
  lemma Utf8AtEndFails(s: seq<Byte>)
    requires |s| == 3
    requires s[0] == 0xC3 && s[1] == 0xA9 && s[2] == 0x00
    ensures Lex(s) == Failed([])
  {
    assert Utf8Scan(s, 2, 2) == -1;
    assert Utf8RunEnd(s, 0) == -1;
    assert WordPass(s, 0) == Continue(-1);
    assert WordEnd(s, 0) == -1;
  }

  /** A start byte followed by an ASCII byte is accepted as part of a word. */
  lemma Utf8StartThenAsciiScript(s: seq<Byte>)
    requires |s| == 3
    requires s[0] == 0xC3 && s[1] == 0x61 && s[2] == 0x00
    ensures Lex(s) == Lexed([Node(Word, 0, 2)])
  {
    assert Utf8RunEnd(s, 0) == 1;
    assert WordPass(s, 0) == Continue(1);
    PlainWord(s, 1, 2);
    Step(s, 0, Node(Word, 0, 2), Lexed([]));
  }

  /** Three pipes: a binary pipe, then a pipe. */
  lemma PipesScript(s: seq<Byte>)
    requires |s| == 4
    requires s[0] == 0x7C && s[1] == 0x7C && s[2] == 0x7C && s[3] == 0x00
    ensures Lex(s) == Lexed([Node(BinaryPipe, 0, 2), Node(Pipe, 2, 3)])
  {
    assert LexFrom(s, 2) == Lexed([Node(Pipe, 2, 3)]);
    Step(s, 0, Node(BinaryPipe, 0, 2), Lexed([Node(Pipe, 2, 3)]));
  }

  /** Braces are one-byte tokens, and adjacent statement separators are not merged. */
  lemma BracesAndSeparatorsScript(s: seq<Byte>)
    requires |s| == 5
    requires s[0] == 0x7B && s[1] == 0x3B && s[2] == 0x3B && s[3] == 0x7D && s[4] == 0x00
    ensures Lex(s) == Lexed([
      Node(OpeningBrace, 0, 1), Node(StatementSeparator, 1, 2),
      Node(StatementSeparator, 2, 3), Node(ClosingBrace, 3, 4)])
  {
    assert LexFrom(s, 3) == Lexed([Node(ClosingBrace, 3, 4)]);
    Step(s, 2, Node(StatementSeparator, 2, 3), Lexed([Node(ClosingBrace, 3, 4)]));
    Step(s, 1, Node(StatementSeparator, 1, 2), Lexed([Node(StatementSeparator, 2, 3), Node(ClosingBrace, 3, 4)]));
    Step(s, 0, Node(OpeningBrace, 0, 1),
      Lexed([Node(StatementSeparator, 1, 2), Node(StatementSeparator, 2, 3), Node(ClosingBrace, 3, 4)]));
  }
}
