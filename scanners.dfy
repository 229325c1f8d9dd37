/**
 * The four scanning loops of src/lexer.c: consume_utf8_chars, consume_word,
 * consume_string_literal (with its two wrappers) and consume_word_separators.
 * Each walks an offset forward and returns an end offset, or -1 on error.
 *
 * Each loop is modelled twice: a recursive function that gives the result
 * (and that the pure callers use), and a method with the source's loop that is
 * proved to compute it.
 */
module Scanners {
  import opened CharTypes

  /** Classes allowed inside a UTF-8 run after its start byte. */
  predicate InUtf8Run(t: CharType)
  {
    t == CharUtf8Start || t == CharUtf8Cont
  }

  /** A class that ends a UTF-8 run without an error. */
  predicate EndsUtf8Run(t: CharType)
  {
    !InUtf8Run(t) && t != CharNull && t != CharUnknown
  }

  /** Classes at which consume_word stops and returns that offset. */
  predicate EndsWord(t: CharType)
  {
    t == CharWordSeparator || t == CharStatementSeparator || t == CharNull
  }

  /** Classes that consume_word steps over one byte at a time. */
  predicate ContinuesWord(t: CharType)
  {
    t == CharAsciiPrintable || t == CharOpenBrace || t == CharCloseBrace
    || t == CharPipe || t == CharUnknown
  }

  /** Bytes that can stand inside a successful word before its last byte. */
  predicate InsideWord(t: CharType)
  {
    t != CharQuote && t != CharDoubleQuote && t != CharBackslash && !EndsWord(t)
  }

  /** Classes a quoted string with terminator class tt steps over one byte at a time. */
  predicate InString(t: CharType, tt: CharType)
  {
    t != tt && t != CharBackslash && t != CharNull && t != CharUnknown && t != CharUtf8Cont
  }

  /**
   * The conversion of an int to the counter `char_count`, assuming plain char
   * is a signed 8-bit type (two's complement, wrapping modulo 256).
   */
  function SignedChar(x: int): (r: int)
    ensures -128 <= r < 128
    ensures -128 <= x < 128 ==> r == x
    ensures (x - r) % 256 == 0
  {
    (x + 128) % 256 - 128
  }

  // ---------------------------------------------------------------------------
  // consume_utf8_chars
  // ---------------------------------------------------------------------------

  /**
   * The loop of consume_utf8_chars from offset i, where count is the value of
   * char_count when the byte at i is examined.
   */
  function Utf8Scan(s: seq<Byte>, i: int, count: int): (r: int)
    ensures r == -1 || (i <= r < |s| && EndsUtf8Run(TypeAt(s, r)))
    ensures r != -1 ==> forall k :: i <= k < r ==> InUtf8Run(TypeAt(s, k))
    decreases |s| + 2 - i
  {
    match TypeAt(s, i)
    case CharUtf8Start =>
      if count < 2 then -1 else Utf8Scan(s, i + 1, SignedChar(count + 1))
    case CharUtf8Cont => Utf8Scan(s, i + 1, SignedChar(count + 1))
    case CharNull => -1
    case CharUnknown => -1
    case _ => i
  }

  /**
   * consume_utf8_chars(begin): -1, or the first later offset whose byte is
   * neither a start nor a continuation byte; every byte in between is one of those.
   */
  function Utf8RunEnd(s: seq<Byte>, begin: int): (r: int)
    ensures r == -1 || (begin < r < |s| && EndsUtf8Run(TypeAt(s, r)))
    ensures r != -1 ==> forall k :: begin < k < r ==> InUtf8Run(TypeAt(s, k))
  {
    Utf8Scan(s, begin + 1, 1)
  }

  method ConsumeUtf8Chars(s: seq<Byte>, begin: int) returns (r: int)
    ensures r == Utf8RunEnd(s, begin)
  {
    var i := begin + 1;
    var current := At(s, i);
    var count := 1;
    while true
      invariant current == At(s, i)
      invariant Utf8Scan(s, i, count) == Utf8RunEnd(s, begin)
      decreases |s| + 2 - i
    {
      match CharTypeOf(current) {
        case CharUtf8Start =>
          if count < 2 {
            return -1;
          }
        case CharUtf8Cont =>
        case CharNull =>
          return -1;
        case CharUnknown =>
          return -1;
        case _ =>
          return i;
      }
      i := i + 1;
      current := At(s, i);
      count := SignedChar(count + 1);
    }
  }

  /** A start byte directly after the start byte is an error. */
  lemma Utf8StartAfterStart(s: seq<Byte>, begin: int)
    requires TypeAt(s, begin + 1) == CharUtf8Start
    ensures Utf8RunEnd(s, begin) == -1
  {
  }

  lemma {:induction false} Utf8ScanRejects(s: seq<Byte>, i: int, j: int, count: int)
    requires i <= j
    requires forall k :: i <= k < j ==> InUtf8Run(TypeAt(s, k))
    requires TypeAt(s, j) == CharNull || TypeAt(s, j) == CharUnknown
    ensures Utf8Scan(s, i, count) == -1
    decreases j - i
  {
    if i < j {
      assert InUtf8Run(TypeAt(s, i));
      if TypeAt(s, i) == CharUtf8Cont || count >= 2 {
        Utf8ScanRejects(s, i + 1, j, SignedChar(count + 1));
      }
    }
  }

  /** A NUL or unknown byte reached inside the run makes the run an error. */
  lemma Utf8RunRejects(s: seq<Byte>, begin: int, j: int)
    requires begin < j
    requires forall k :: begin < k < j ==> InUtf8Run(TypeAt(s, k))
    requires TypeAt(s, j) == CharNull || TypeAt(s, j) == CharUnknown
    ensures Utf8RunEnd(s, begin) == -1
  {
    Utf8ScanRejects(s, begin + 1, j, 1);
  }

  lemma {:induction false} Utf8ScanAccepts(s: seq<Byte>, i: int, j: int, count: int)
    requires i <= j
    requires forall k :: i <= k < j ==> InUtf8Run(TypeAt(s, k))
    requires EndsUtf8Run(TypeAt(s, j))
    requires i < j ==> 1 <= count && count + (j - i) <= 128
    requires count < 2 ==> TypeAt(s, i) != CharUtf8Start
    ensures Utf8Scan(s, i, count) == j
    decreases j - i
  {
    if i < j {
      assert InUtf8Run(TypeAt(s, i));
      Utf8ScanAccepts(s, i + 1, j, SignedChar(count + 1));
    }
  }

  /**
   * Conversely, a run of start and continuation bytes that does not begin with a
   * second start byte and ends at a byte of another valid class is accepted, as
   * long as char_count does not wrap (at most 127 bytes after the start byte).
   * In particular a start byte directly followed by an ASCII byte is accepted.
   */
  lemma Utf8RunAccepts(s: seq<Byte>, begin: int, j: int)
    requires begin < j <= begin + 128
    requires forall k :: begin < k < j ==> InUtf8Run(TypeAt(s, k))
    requires TypeAt(s, begin + 1) != CharUtf8Start
    requires EndsUtf8Run(TypeAt(s, j))
    ensures Utf8RunEnd(s, begin) == j
  {
    Utf8ScanAccepts(s, begin + 1, j, 1);
  }

  lemma {:induction false} Utf8ScanCountWraps(s: seq<Byte>, i: int, count: int)
    requires 1 <= count <= 127
    requires forall k :: i <= k < i + (128 - count) ==> TypeAt(s, k) == CharUtf8Cont
    ensures Utf8Scan(s, i, count) == Utf8Scan(s, i + (128 - count), -128)
    decreases 128 - count
  {
    assert TypeAt(s, i) == CharUtf8Cont;
    if count < 127 {
      Utf8ScanCountWraps(s, i + 1, count + 1);
    }
  }

  /**
   * The signed char_count wraps after 127 bytes: a start byte 128 bytes after
   * the first one is rejected as if it directly followed it.
   */
  lemma Utf8CountWraps(s: seq<Byte>, begin: int)
    requires forall k :: begin < k < begin + 128 ==> TypeAt(s, k) == CharUtf8Cont
    requires TypeAt(s, begin + 128) == CharUtf8Start
    ensures Utf8RunEnd(s, begin) == -1
  {
    Utf8ScanCountWraps(s, begin + 1, 1);
  }

  // ---------------------------------------------------------------------------
  // consume_string_literal, consume_double_quote_string, consume_single_quote_string
  // ---------------------------------------------------------------------------

  /** The loop of consume_string_literal from offset i, for a terminator of class tt. */
  function StringScan(s: seq<Byte>, i: int, tt: CharType): (r: int)
    ensures r == -1 || (i <= r && TypeAt(s, r) == tt)
    decreases |s| + 2 - i
  {
    var t := TypeAt(s, i);
    if t == tt then i
    else match t
      case CharBackslash => StringScan(s, i + 2, tt)
      case CharNull => -1
      case CharUnknown => -1
      case CharUtf8Cont => -1
      case _ => StringScan(s, i + 1, tt)
  }

  /**
   * consume_string_literal(begin, terminator): -1, or an offset after the opening
   * byte at begin whose byte has the terminator's class.
   */
  function StringLiteralEnd(s: seq<Byte>, begin: int, terminator: Byte): (r: int)
    ensures r == -1 || (begin < r && TypeAt(s, r) == CharTypeOf(terminator))
  {
    StringScan(s, begin + 1, CharTypeOf(terminator))
  }

  /** consume_double_quote_string: -1 or the offset of a closing '"'. */
  function DoubleQuoteStringEnd(s: seq<Byte>, begin: int): (r: int)
    ensures r == -1 || (begin < r && TypeAt(s, r) == CharDoubleQuote)
  {
    StringLiteralEnd(s, begin, 0x22)
  }

  /** consume_single_quote_string: -1 or the offset of a closing '\''. */
  function SingleQuoteStringEnd(s: seq<Byte>, begin: int): (r: int)
    ensures r == -1 || (begin < r && TypeAt(s, r) == CharQuote)
  {
    StringLiteralEnd(s, begin, 0x27)
  }

  method ConsumeStringLiteral(s: seq<Byte>, begin: int, terminator: Byte) returns (r: int)
    ensures r == StringLiteralEnd(s, begin, terminator)
  {
    var terminatorType := CharTypeOf(terminator);
    var i := begin + 1;
    var current := At(s, i);
    while true
      invariant current == At(s, i)
      invariant StringScan(s, i, terminatorType) == StringLiteralEnd(s, begin, terminator)
      decreases |s| + 2 - i
    {
      var currentType := CharTypeOf(current);
      if currentType == terminatorType {
        return i;
      }
      match currentType {
        case CharBackslash =>
          i := i + 1;
        case CharNull =>
          return -1;
        case CharUnknown =>
          return -1;
        case CharUtf8Cont =>
          return -1;
        case _ =>
      }
      i := i + 1;
      current := At(s, i);
    }
  }

  method ConsumeDoubleQuoteString(s: seq<Byte>, begin: int) returns (r: int)
    ensures r == DoubleQuoteStringEnd(s, begin)
  {
    r := ConsumeStringLiteral(s, begin, 0x22);
  }

  method ConsumeSingleQuoteString(s: seq<Byte>, begin: int) returns (r: int)
    ensures r == SingleQuoteStringEnd(s, begin)
  {
    r := ConsumeStringLiteral(s, begin, 0x27);
  }

  /**
   * Bytes that are neither the terminator's class, a backslash, NUL, unknown nor a
   * continuation byte do not end a string; in particular spaces, tabs, ';' and
   * '\n' lose their separating meaning inside quotes.
   */
  lemma {:induction false} StringSkipsContent(s: seq<Byte>, i: int, j: int, tt: CharType)
    requires i <= j
    requires forall k :: i <= k < j ==> InString(TypeAt(s, k), tt)
    ensures StringScan(s, i, tt) == StringScan(s, j, tt)
    decreases j - i
  {
    if i < j {
      assert InString(TypeAt(s, i), tt);
      StringSkipsContent(s, i + 1, j, tt);
    }
  }

  /** A backslash skips the byte after it, whatever its class. */
  lemma StringEscapeSkips(s: seq<Byte>, i: int, tt: CharType)
    requires TypeAt(s, i) == CharBackslash && tt != CharBackslash
    ensures StringScan(s, i, tt) == StringScan(s, i + 2, tt)
  {
  }

  /**
   * Without escapes, the string ends at the first byte after the opening one
   * whose class is the terminator's ...
   */
  lemma StringLiteralFirstTerminator(s: seq<Byte>, begin: int, terminator: Byte, j: int)
    requires begin < j
    requires forall k :: begin < k < j ==> InString(TypeAt(s, k), CharTypeOf(terminator))
    requires TypeAt(s, j) == CharTypeOf(terminator)
    ensures StringLiteralEnd(s, begin, terminator) == j
  {
    StringSkipsContent(s, begin + 1, j, CharTypeOf(terminator));
  }

  /** ... and a NUL, unknown or continuation byte before the terminator is an error. */
  lemma StringLiteralUnterminated(s: seq<Byte>, begin: int, terminator: Byte, j: int)
    requires begin < j
    requires forall k :: begin < k < j ==> InString(TypeAt(s, k), CharTypeOf(terminator))
    requires TypeAt(s, j) == CharNull || TypeAt(s, j) == CharUnknown || TypeAt(s, j) == CharUtf8Cont
    requires TypeAt(s, j) != CharTypeOf(terminator)
    ensures StringLiteralEnd(s, begin, terminator) == -1
  {
    StringSkipsContent(s, begin + 1, j, CharTypeOf(terminator));
  }

  // ---------------------------------------------------------------------------
  // consume_word
  // ---------------------------------------------------------------------------

  /** What one pass of consume_word's loop body does: return a value, or go on at an offset. */
  datatype WordPassResult = Return(value: int) | Continue(at: int)

  /**
   * One pass of consume_word's loop body at offset begin. After a nested
   * scanner returns r the source sets begin to r - 1, and the loop increment
   * reads offset r again, so the scan goes on AT r: a closing quote is thereby
   * re-read as an opening one.
   */
  function WordPass(s: seq<Byte>, begin: int): (w: WordPassResult)
    ensures w.Return? ==>
      || w.value == -1
      || (w.value == begin && EndsWord(TypeAt(s, begin)))
      || (w.value == begin + 1 && TypeAt(s, begin) == CharBackslash)
    ensures w.Continue? ==> 0 <= begin < |s| && (w.at == -1 || begin < w.at)
    ensures w.Continue? && TypeAt(s, begin) != CharQuote && TypeAt(s, begin) != CharDoubleQuote ==>
      w.at == -1 || forall k :: begin <= k < w.at ==> InsideWord(TypeAt(s, k))
  {
    match TypeAt(s, begin)
    case CharUtf8Start => Continue(Utf8RunEnd(s, begin))
    case CharUtf8Cont => Return(-1)
    case CharQuote => Continue(SingleQuoteStringEnd(s, begin))
    case CharDoubleQuote => Continue(DoubleQuoteStringEnd(s, begin))
    case CharBackslash => Return(begin + 1)
    case CharStatementSeparator => Return(begin)
    case CharWordSeparator => Return(begin)
    case CharNull => Return(begin)
    case _ => Continue(begin + 1)
  }

  /** consume_word(begin): the loop runs while begin >= 0, and -1 once it is negative. */
  function WordEnd(s: seq<Byte>, begin: int): (r: int)
    ensures r == -1 || begin <= r
    decreases if begin < 0 then 0 else |s| + 2 - begin
  {
    if begin < 0 then -1
    else match WordPass(s, begin)
      case Return(value) => value
      case Continue(at) => WordEnd(s, at)
  }

  /**
   * The switch of consume_word's loop body for the byte `current` read at
   * offset begin: the nested scanners run here, and their result r is where
   * the loop goes on (the source stores r - 1 and the increment adds 1 back).
   */
  method ConsumeWordPass(s: seq<Byte>, begin: int, current: Byte) returns (w: WordPassResult)
    requires current == At(s, begin)
    ensures w == WordPass(s, begin)
  {
    match CharTypeOf(current) {
      case CharUtf8Start =>
        var end := ConsumeUtf8Chars(s, begin);
        w := Continue(end);
      case CharUtf8Cont =>
        w := Return(-1);
      case CharQuote =>
        var end := ConsumeSingleQuoteString(s, begin);
        w := Continue(end);
      case CharDoubleQuote =>
        var end := ConsumeDoubleQuoteString(s, begin);
        w := Continue(end);
      case CharBackslash =>
        // falls through to the separator cases after the increment
        w := Return(begin + 1);
      case CharStatementSeparator =>
        w := Return(begin);
      case CharWordSeparator =>
        w := Return(begin);
      case CharNull =>
        w := Return(begin);
      case _ =>
        w := Continue(begin + 1);
    }
  }

  method ConsumeWord(s: seq<Byte>, begin: int) returns (r: int)
    ensures r == WordEnd(s, begin)
  {
    var i := begin;
    var current := At(s, i);
    while i >= 0
      invariant current == At(s, i)
      invariant WordEnd(s, i) == WordEnd(s, begin)
      decreases if i < 0 then 0 else |s| + 2 - i
    {
      var w := ConsumeWordPass(s, i, current);
      match w {
        case Return(value) =>
          return value;
        case Continue(at) =>
          i := at - 1;
      }
      i := i + 1;
      current := At(s, i);
    }
    return -1;
  }

  /** The one-byte cases of consume_word. */
  lemma WordEndCases(s: seq<Byte>, begin: int)
    requires 0 <= begin
    ensures EndsWord(TypeAt(s, begin)) ==> WordEnd(s, begin) == begin
    ensures TypeAt(s, begin) == CharBackslash ==> WordEnd(s, begin) == begin + 1
    ensures TypeAt(s, begin) == CharUtf8Cont ==> WordEnd(s, begin) == -1
    ensures TypeAt(s, begin) == CharUtf8Start && Utf8RunEnd(s, begin) == -1 ==> WordEnd(s, begin) == -1
  {
  }

  /** Printable, brace, pipe and unknown bytes continue the word. */
  lemma {:induction false} WordSkipsContent(s: seq<Byte>, begin: int, j: int)
    requires 0 <= begin <= j
    requires forall k :: begin <= k < j ==> ContinuesWord(TypeAt(s, k))
    ensures WordEnd(s, begin) == WordEnd(s, j)
    decreases j - begin
  {
    if begin < j {
      assert ContinuesWord(TypeAt(s, begin));
      WordSkipsContent(s, begin + 1, j);
    }
  }

  /**
   * A word scan that reaches a quote always fails: the closing quote is re-read
   * as a new opening quote, so the scan can only end in an unterminated string.
   * Concatenation of adjacent literals (foo'bar'baz) does not happen.
   */
  lemma {:induction false} QuotedWordFails(s: seq<Byte>, q: int)
    requires TypeAt(s, q) == CharQuote || TypeAt(s, q) == CharDoubleQuote
    ensures WordEnd(s, q) == -1
    decreases |s| - q
  {
    var r := if TypeAt(s, q) == CharQuote then SingleQuoteStringEnd(s, q) else DoubleQuoteStringEnd(s, q);
    assert WordEnd(s, q) == WordEnd(s, r);
    if r != -1 {
      QuotedWordFails(s, r);
    }
  }

  /** Any word whose scan reaches an unescaped quote ends in -1. */
  lemma WordReachingQuoteFails(s: seq<Byte>, begin: int, q: int)
    requires 0 <= begin <= q
    requires forall k :: begin <= k < q ==> ContinuesWord(TypeAt(s, k))
    requires TypeAt(s, q) == CharQuote || TypeAt(s, q) == CharDoubleQuote
    ensures WordEnd(s, begin) == -1
  {
    WordSkipsContent(s, begin, q);
    QuotedWordFails(s, q);
  }

  /**
   * A successful word ends at a word separator, statement separator or NUL, or
   * one byte past a backslash.
   */
  lemma {:induction false} WordEndStop(s: seq<Byte>, begin: int)
    requires 0 <= begin
    ensures var r := WordEnd(s, begin);
      r == -1 || EndsWord(TypeAt(s, r)) || (begin < r && TypeAt(s, r - 1) == CharBackslash)
    decreases |s| + 2 - begin
  {
    var w := WordPass(s, begin);
    if w.Continue? && w.at != -1 {
      WordEndStop(s, w.at);
    }
  }

  /**
   * No byte of a successful word is a quote, a separator or NUL, and a
   * backslash can only be its last byte.
   */
  lemma {:induction false} WordEndInside(s: seq<Byte>, begin: int)
    requires 0 <= begin
    ensures var r := WordEnd(s, begin);
      r != -1 ==> forall k :: begin <= k < r ==> InsideWord(TypeAt(s, k)) || (k == r - 1 && TypeAt(s, k) == CharBackslash)
    decreases |s| + 2 - begin
  {
    var w := WordPass(s, begin);
    if w.Continue? && w.at != -1 {
      if TypeAt(s, begin) == CharQuote || TypeAt(s, begin) == CharDoubleQuote {
        QuotedWordFails(s, begin);
      } else {
        WordEndInside(s, w.at);
      }
    }
  }

  // ---------------------------------------------------------------------------
  // consume_word_separators
  // ---------------------------------------------------------------------------

  /** consume_word_separators(begin): the first offset at or after begin that is not a space or tab. */
  function WordSeparatorsEnd(s: seq<Byte>, begin: int): (r: int)
    ensures begin <= r && TypeAt(s, r) != CharWordSeparator
    ensures forall k :: begin <= k < r ==> TypeAt(s, k) == CharWordSeparator
    decreases |s| + 2 - begin
  {
    if TypeAt(s, begin) == CharWordSeparator then WordSeparatorsEnd(s, begin + 1) else begin
  }

  method ConsumeWordSeparators(s: seq<Byte>, begin: int) returns (r: int)
    ensures r == WordSeparatorsEnd(s, begin)
  {
    var i := begin;
    var current := At(s, i);
    while true
      invariant current == At(s, i)
      invariant WordSeparatorsEnd(s, i) == WordSeparatorsEnd(s, begin)
      decreases |s| + 2 - i
    {
      match CharTypeOf(current) {
        case CharWordSeparator =>
        case _ =>
          return i;
      }
      i := i + 1;
      current := At(s, i);
    }
  }
}
