/** Reading and classifying single bytes of the source store (src/lexer.c: get_char, char_type). */
module CharTypes {

  /** One byte of the source store. */
  newtype Byte = x: int | 0 <= x < 256

  /** The character classes of enum CHAR_TYPE. */
  datatype CharType =
    | CharNull
    | CharAsciiPrintable
    | CharUtf8Start
    | CharUtf8Cont
    | CharOpenBrace
    | CharCloseBrace
    | CharQuote
    | CharDoubleQuote
    | CharBackslash
    | CharWordSeparator
    | CharStatementSeparator
    | CharPipe
    | CharUnknown

  /** get_char: the byte at offset i; a read the store refuses (any offset outside it) yields 0. */
  function At(s: seq<Byte>, i: int): Byte
  {
    if 0 <= i < |s| then s[i] else 0
  }

  /** char_type: the class of one byte. */
  function CharTypeOf(c: Byte): CharType
  {
    if c == 0x7B then CharOpenBrace            // '{'
    else if c == 0x7D then CharCloseBrace      // '}'
    else if c == 0x27 then CharQuote           // '\''
    else if c == 0x22 then CharDoubleQuote     // '"'
    else if c == 0x5C then CharBackslash       // '\\'
    else if c == 0x3B || c == 0x0A then CharStatementSeparator  // ';' and '\n'
    else if c == 0x20 || c == 0x09 then CharWordSeparator       // ' ' and '\t'
    else if c == 0x7C then CharPipe            // '|'
    else if c == 0x00 then CharNull
    else if 0x20 <= c <= 0x7E then CharAsciiPrintable
    else if 0x80 <= c <= 0xBF then CharUtf8Cont  // top bits 10: `c & 0xC0 == 0x80`
    else if 0xC0 <= c then CharUtf8Start         // top bits 11: `c & 0xC0 == 0xC0`
    else CharUnknown
  }

  /** The class of the byte get_char returns for offset i. */
  function TypeAt(s: seq<Byte>, i: int): CharType
  {
    CharTypeOf(At(s, i))
  }

  /** The bytes that char_type maps by name, before its range tests. */
  predicate Reserved(c: Byte)
  {
    c == 0x7B || c == 0x7D || c == 0x27 || c == 0x22 || c == 0x5C || c == 0x3B
    || c == 0x0A || c == 0x20 || c == 0x09 || c == 0x7C || c == 0x00
  }

  /** Each reserved byte has its own class, and no other byte has that class. */
  lemma ReservedBytes(c: Byte)
    ensures CharTypeOf(c) == CharOpenBrace <==> c == 0x7B
    ensures CharTypeOf(c) == CharCloseBrace <==> c == 0x7D
    ensures CharTypeOf(c) == CharQuote <==> c == 0x27
    ensures CharTypeOf(c) == CharDoubleQuote <==> c == 0x22
    ensures CharTypeOf(c) == CharBackslash <==> c == 0x5C
    ensures CharTypeOf(c) == CharStatementSeparator <==> c == 0x3B || c == 0x0A
    ensures CharTypeOf(c) == CharWordSeparator <==> c == 0x20 || c == 0x09
    ensures CharTypeOf(c) == CharPipe <==> c == 0x7C
    ensures CharTypeOf(c) == CharNull <==> c == 0x00
  {
  }

  /**
   * Every other byte is printable ASCII (0x20..0x7E), a UTF-8 continuation byte
   * (top bits 10), a UTF-8 start byte (top bits 11), or unknown (the remaining
   * control bytes and 0x7F). The top bits are tested with the mask 0xC0, as
   * the source does.
   */
  lemma NonReservedBytes(c: Byte)
    requires !Reserved(c)
    ensures CharTypeOf(c) == CharAsciiPrintable <==> 0x20 <= c <= 0x7E
    ensures CharTypeOf(c) == CharUtf8Cont <==> (c as bv8) & 0xC0 == 0x80
    ensures CharTypeOf(c) == CharUtf8Start <==> (c as bv8) & 0xC0 == 0xC0
    ensures CharTypeOf(c) == CharUnknown <==> c < 0x20 || c == 0x7F
  {
  }

  /** A read outside the store classifies as NUL, so every scanner stops at the end. */
  lemma ReadOutsideIsNull(s: seq<Byte>, i: int)
    requires i < 0 || |s| <= i
    ensures TypeAt(s, i) == CharNull
  {
  }
}
