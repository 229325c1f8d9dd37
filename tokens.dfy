/**
 * Token kinds, AST nodes and the dispatcher of src/lexer.c
 * (disambiguate_pipe, chars_to_token).
 */
module Tokens {
  import opened CharTypes
  import opened Scanners

  /**
   * enum SCALLOP_TOKEN, in declaration order, followed by the two brace kinds
   * chars_to_token emits, which neither header declares.
   */
  datatype TokenKind =
    | Word
    | WordSeparator
    | StatementSeparator
    | OpeningCurlyBracket
    | ClosingCurlyBracket
    | OpeningSquareBracket
    | ClosingSquareBracket
    | AssignmentOperator
    | Pipe
    | BinaryPipe
    | OpeningBrace
    | ClosingBrace

  /** struct scallop_ast_node: a kind and a half-open offset range into the source. */
  datatype Node = Node(token: TokenKind, startOffset: int, endOffset: int)

  /** The zero-initialised node `{ 0 }`: kind 0 is SCALLOP_TOKEN_WORD. */
  const ZeroNode := Node(Word, 0, 0)

  /** disambiguate_pipe: "||" is a binary pipe two bytes wide, a lone '|' a one-byte pipe. */
  function DisambiguatePipe(s: seq<Byte>, begin: int): Node
  {
    if TypeAt(s, begin + 1) == CharPipe then Node(BinaryPipe, begin, begin + 2)
    else Node(Pipe, begin, begin + 1)
  }

  /** chars_to_token: the token that starts at offset begin, chosen by its first byte. */
  function CharsToToken(s: seq<Byte>, begin: nat): Node
  {
    match TypeAt(s, begin)
    case CharOpenBrace => Node(OpeningBrace, begin, begin + 1)
    case CharCloseBrace => Node(ClosingBrace, begin, begin + 1)
    case CharQuote => Node(Word, begin, WordEnd(s, begin))
    case CharDoubleQuote => Node(Word, begin, WordEnd(s, begin))
    case CharAsciiPrintable => Node(Word, begin, WordEnd(s, begin))
    case CharUtf8Start => Node(Word, begin, WordEnd(s, begin))
    case CharBackslash => Node(Word, begin, WordEnd(s, begin))
    case CharWordSeparator => Node(WordSeparator, begin, WordSeparatorsEnd(s, begin))
    case CharStatementSeparator => Node(StatementSeparator, begin, begin + 1)
    case CharPipe => DisambiguatePipe(s, begin)
    case CharUnknown => ZeroNode.(endOffset := -1)
    case _ => ZeroNode
  }

  /** chars_to_token as the source runs it, with the nested scanners' loops. */
  method ReadToken(s: seq<Byte>, begin: nat) returns (n: Node)
    ensures n == CharsToToken(s, begin)
  {
    var currentChar := At(s, begin);
    match CharTypeOf(currentChar) {
      case CharOpenBrace =>
        n := Node(OpeningBrace, begin, begin + 1);
      case CharCloseBrace =>
        n := Node(ClosingBrace, begin, begin + 1);
      case CharQuote =>
        var end := ConsumeWord(s, begin);
        n := Node(Word, begin, end);
      case CharDoubleQuote =>
        var end := ConsumeWord(s, begin);
        n := Node(Word, begin, end);
      case CharAsciiPrintable =>
        var end := ConsumeWord(s, begin);
        n := Node(Word, begin, end);
      case CharUtf8Start =>
        var end := ConsumeWord(s, begin);
        n := Node(Word, begin, end);
      case CharBackslash =>
        var end := ConsumeWord(s, begin);
        n := Node(Word, begin, end);
      case CharWordSeparator =>
        var end := ConsumeWordSeparators(s, begin);
        n := Node(WordSeparator, begin, end);
      case CharStatementSeparator =>
        n := Node(StatementSeparator, begin, begin + 1);
      case CharPipe =>
        n := DisambiguatePipe(s, begin);
      case CharUnknown =>
        n := ZeroNode.(endOffset := -1);
      case _ =>
        n := ZeroNode;
    }
  }

  /** The widths chars_to_token gives to its fixed-size tokens. */
  lemma DispatchWidths(s: seq<Byte>, begin: nat)
    ensures TypeAt(s, begin) == CharOpenBrace ==> CharsToToken(s, begin) == Node(OpeningBrace, begin, begin + 1)
    ensures TypeAt(s, begin) == CharCloseBrace ==> CharsToToken(s, begin) == Node(ClosingBrace, begin, begin + 1)
    ensures TypeAt(s, begin) == CharStatementSeparator ==>
      CharsToToken(s, begin) == Node(StatementSeparator, begin, begin + 1)
    ensures TypeAt(s, begin) == CharPipe && TypeAt(s, begin + 1) == CharPipe ==>
      CharsToToken(s, begin) == Node(BinaryPipe, begin, begin + 2)
    ensures TypeAt(s, begin) == CharPipe && TypeAt(s, begin + 1) != CharPipe ==>
      CharsToToken(s, begin) == Node(Pipe, begin, begin + 1)
    ensures TypeAt(s, begin) == CharUnknown ==> CharsToToken(s, begin).endOffset == -1
  {
  }

  /** A word token starts at begin and either fails or ends after it. */
  lemma WordTokenBounds(s: seq<Byte>, begin: nat)
    requires TypeAt(s, begin) in {CharQuote, CharDoubleQuote, CharAsciiPrintable, CharUtf8Start, CharBackslash}
    ensures CharsToToken(s, begin).token == Word && CharsToToken(s, begin).startOffset == begin
    ensures CharsToToken(s, begin).endOffset == -1 || CharsToToken(s, begin).endOffset > begin
  {
    var t := TypeAt(s, begin);
    if t == CharQuote || t == CharDoubleQuote {
      QuotedWordFails(s, begin);
    } else if t == CharUtf8Start {
      assert WordEnd(s, begin) == WordEnd(s, Utf8RunEnd(s, begin));
    } else if t == CharAsciiPrintable {
      assert WordEnd(s, begin) == WordEnd(s, begin + 1);
    }
  }

  /** A word separator token is the maximal run of spaces and tabs at begin. */
  lemma WordSeparatorTokenBounds(s: seq<Byte>, begin: nat)
    requires TypeAt(s, begin) == CharWordSeparator
    ensures var n := CharsToToken(s, begin);
      && n.token == WordSeparator && n.startOffset == begin && n.endOffset > begin
      && TypeAt(s, n.endOffset) != CharWordSeparator
      && forall k :: begin <= k < n.endOffset ==> TypeAt(s, k) == CharWordSeparator
  {
  }

  /** A token that starts with a quote always fails (see QuotedWordFails). */
  lemma QuoteTokenFails(s: seq<Byte>, begin: nat)
    requires TypeAt(s, begin) == CharQuote || TypeAt(s, begin) == CharDoubleQuote
    ensures CharsToToken(s, begin) == Node(Word, begin, -1)
  {
    QuotedWordFails(s, begin);
  }

  /**
   * Every node chars_to_token returns is an error (end -1), the zero node, or a
   * token that starts at begin and makes progress.
   */
  lemma TokenProgress(s: seq<Byte>, begin: nat)
    ensures var n := CharsToToken(s, begin);
      n.endOffset == -1 || n == ZeroNode || (n.startOffset == begin < n.endOffset)
  {
    if TypeAt(s, begin) in {CharQuote, CharDoubleQuote, CharAsciiPrintable, CharUtf8Start, CharBackslash} {
      WordTokenBounds(s, begin);
    }
  }

  /** The zero node comes back exactly for a NUL or a continuation byte. */
  lemma ZeroNodeExactly(s: seq<Byte>, begin: nat)
    ensures CharsToToken(s, begin) == ZeroNode <==>
      TypeAt(s, begin) == CharNull || TypeAt(s, begin) == CharUtf8Cont
  {
    if TypeAt(s, begin) in {CharQuote, CharDoubleQuote, CharAsciiPrintable, CharUtf8Start, CharBackslash} {
      WordTokenBounds(s, begin);
    }
  }
}
