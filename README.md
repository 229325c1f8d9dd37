# Scallop lexer, modelled in Dafny

Scallop is a shell for running tasks concurrently. Its lexer, `src/lexer.c`, turns a
script into a flat list of AST nodes. Each node has a token kind, a start offset
and an end offset into the script. The lexer makes a single pass:

- `char_type` sorts each byte into a character class;
- four scanning loops find where a UTF-8 run, a word, a quoted string or a run of
  spaces and tabs ends, or report -1;
- `chars_to_token` picks the token kind from the first byte and asks a scanner for
  the end;
- `lex_into_vector` calls `chars_to_token` again and again. It appends each node to
  the output vector and moves on to that node's end, until the offset reaches
  `source_size - 1`, the offset of the script's final NUL, which is never lexed.

The project has five modules, one file each:

- `chartypes.dfy`, module CharTypes. The byte type, `get_char` as a total read of a
  byte sequence (0 outside it), and `char_type`.
- `scanners.dfy`, module Scanners. Each scanning loop appears twice:
  - a recursive function for its result, used by the pure code;
  - a method with the source's loop, proved to compute that function.
  
  Lemmas then state what the function promises.
- `tokens.dfy`, module Tokens. Token kinds, the node, `disambiguate_pipe` and
  `chars_to_token`. These are a function, plus a method `ReadToken` that runs the
  scanning methods as the source does.
- `driver.dfy`, module Driver. The loop of `lex_into_vector` as a method, proved
  equal to the function `Lex`. It also proves that the output tiles the source:
  each token starts where the previous one ended and is what `chars_to_token`
  returns there.
- `scripts.dfy`, module Scripts. The repository's test scripts and some boundary
  inputs, lexed by the model.

Where the code, its comments and the tests disagree, the model follows
`src/lexer.c`:

- **Adjacent quoted strings are not joined.** The comment at `src/lexer.c:147-150`
  promises that `foo'bar'baz` is one word. In the code, `consume_word` stores the
  offset of the closing quote minus one, and the loop increment reads that quote
  again as a new opening quote. So a word that reaches an unescaped quote always
  fails (`QuotedWordFails`). That includes every token that starts with a quote.
  As a result, `tests/test_quoted_strings.c` and `tests/test_escape_quoted.c`
  yield a failed run, not their expected tokens.
- **A backslash outside a string ends the word.** The backslash is the last byte
  of the word, and the byte after it begins the next token: the backslash case
  advances one offset and falls through to the separator cases, which return it.
  `tests/test_escape_unquoted.c` expects a longer word.
- **The zero node.** A NUL or a UTF-8 continuation byte at the start of a token
  gives the all-zero node, whose kind is Word and whose offsets are 0. The loop
  then goes back to offset 0 and never finishes.
- **Statement separators are not collapsed.** Each `;` or newline is a token of
  its own, even when several follow each other. A whole run of spaces and tabs,
  by contrast, is one word separator token.
- **Brace tokens.** `chars_to_token` emits two brace kinds that neither header
  declares. They get their own constructors, after the declared ones.

Byte values follow the source's character literals (`'{'` is 0x7B, and so on).
The classification does not depend on whether plain `char` is signed: a byte of
0x80 or more is outside the printable range either way, and the `& 0xC0` mask
sorts it into continuation or start. This matches `CharTypeOf`. The UTF-8 byte
counter `char_count` does depend on it; the model assumes a signed 8-bit `char`
(two's complement), as on x86 targets.

## Model

| member | source | states |
|---|---|---|
| CharTypes.ReservedBytes | src/lexer.c:58-81 | each of `{ } ' " \ ; newline space tab \| NUL` has its own class, and exactly those bytes have it (both directions) |
| CharTypes.NonReservedBytes | src/lexer.c:83-96 | every other byte is printable iff in 0x20..0x7E, continuation iff its top bits under mask 0xC0 are 10, start iff they are 11, unknown iff it is another control byte or 0x7F |
| CharTypes.ReadOutsideIsNull | src/lexer.c:30-37 | a read the store refuses yields 0, which is the NUL class, so every scanner stops at the end of the store |
| Scanners.SignedChar | src/lexer.c:108-113 | the `char char_count` counter, for a signed 8-bit `char`: the value stays in -128..127, equals its argument in that range, and differs from it by a multiple of 256 |
| Scanners.Utf8Scan | src/lexer.c:114-128 | the loop from a given offset: -1, or an offset at or after it whose class ends a run (not start, continuation, NUL or unknown), with only start and continuation bytes before it |
| Scanners.Utf8RunEnd | src/lexer.c:105-129 | consume_utf8_chars: -1, or an offset after begin whose class ends the run, with only start and continuation bytes in between |
| Scanners.ConsumeUtf8Chars | src/lexer.c:105-129 | the source's loop, with char_count, returns exactly Utf8RunEnd |
| Scanners.Utf8StartAfterStart | src/lexer.c:116-118 | a start byte directly after the first byte makes the run fail |
| Scanners.Utf8RunRejects | src/lexer.c:122-124 | a NUL or unknown byte reached inside the run makes it fail |
| Scanners.Utf8RunAccepts | src/lexer.c:115-126 | conversely, a run that does not begin with a second start byte and ends at a byte of another class returns that byte's offset, while char_count does not wrap; a start byte followed by ASCII is accepted |
| Scanners.Utf8CountWraps | src/lexer.c:110-118 | after 127 continuation bytes char_count wraps to -128, so a start byte there is rejected as if it came second |
| Scanners.StringScan | src/lexer.c:176-200 | the loop from a given offset: -1, or an offset at or after it whose class is the terminator's |
| Scanners.StringLiteralEnd | src/lexer.c:174-201 | consume_string_literal: -1, or an offset after the opening byte whose class is the terminator's |
| Scanners.DoubleQuoteStringEnd | src/lexer.c:203-206 | consume_double_quote_string: -1 or the offset of a double quote after begin |
| Scanners.SingleQuoteStringEnd | src/lexer.c:208-211 | consume_single_quote_string: -1 or the offset of a single quote after begin |
| Scanners.ConsumeStringLiteral | src/lexer.c:174-201 | the source's loop returns exactly StringLiteralEnd |
| Scanners.ConsumeDoubleQuoteString | src/lexer.c:203-206 | returns exactly DoubleQuoteStringEnd |
| Scanners.ConsumeSingleQuoteString | src/lexer.c:208-211 | returns exactly SingleQuoteStringEnd |
| Scanners.StringSkipsContent | src/lexer.c:196-199 | bytes other than the terminator's class, backslash, NUL, unknown and continuation bytes are stepped over, so spaces, tabs, `;` and newline do not end a string |
| Scanners.StringEscapeSkips | src/lexer.c:188-191 | a backslash skips the next byte, whatever its class |
| Scanners.StringLiteralFirstTerminator | src/lexer.c:183-185 | without escapes the string ends at the first byte of the terminator's class |
| Scanners.StringLiteralUnterminated | src/lexer.c:192-195 | a NUL, unknown or continuation byte before the terminator makes the string fail |
| Scanners.WordPass | src/lexer.c:137-167 | one pass of consume_word's switch: it returns -1, the offset itself at a separator or NUL, or one past a backslash; or it goes on at a later offset (or -1), and the bytes it passes outside a quote are all inside a word |
| Scanners.WordEnd | src/lexer.c:131-172 | consume_word: -1 or an offset at or after begin |
| Scanners.ConsumeWordPass | src/lexer.c:137-167 | the switch with its nested scanner methods yields exactly WordPass |
| Scanners.ConsumeWord | src/lexer.c:131-172 | the source's loop, which re-reads the scanners' result offset, returns exactly WordEnd |
| Scanners.WordEndCases | src/lexer.c:145-164 | a separator or NUL ends the word at itself, a backslash one byte later, a continuation byte or failed UTF-8 run gives -1 |
| Scanners.WordSkipsContent | src/lexer.c:165-166 | printable, brace, pipe and unknown bytes continue the word |
| Scanners.QuotedWordFails | src/lexer.c:147-157 | a word scan that reaches a quote or double quote always returns -1: the closing quote is re-read as an opening one, so no concatenation happens |
| Scanners.WordReachingQuoteFails | src/lexer.c:131-172 | any word whose plain bytes lead up to an unescaped quote ends in -1 |
| Scanners.WordEndStop | src/lexer.c:159-164 | a successful word ends at a word separator, statement separator or NUL, or one byte past a backslash |
| Scanners.WordEndInside | src/lexer.c:131-172 | no byte of a successful word is a quote, separator or NUL, and a backslash can only be its last byte |
| Scanners.WordSeparatorsEnd | src/lexer.c:213-227 | consume_word_separators: the first offset at or after begin that is not a space or tab, with only spaces and tabs before it |
| Scanners.ConsumeWordSeparators | src/lexer.c:213-227 | the source's loop returns exactly WordSeparatorsEnd |
| Tokens.ReadToken | src/lexer.c:248-314 | chars_to_token run with the scanner methods returns exactly CharsToToken |
| Tokens.DispatchWidths | src/lexer.c:229-314 | braces and statement separators are one-byte tokens; `\|\|` is a two-byte binary pipe and a lone `\|` a one-byte pipe; an unknown byte gives end -1 |
| Tokens.WordTokenBounds | src/lexer.c:267-289 | a token that starts with a quote, double quote, printable, start byte or backslash is a word that starts at begin and ends after it or at -1 |
| Tokens.WordSeparatorTokenBounds | src/lexer.c:290-296 | a word separator token is the maximal run of spaces and tabs at begin |
| Tokens.QuoteTokenFails | src/lexer.c:267-280 | a token that starts with a quote or double quote always has end -1 |
| Tokens.TokenProgress | src/lexer.c:248-314 | every node is an error (end -1), the zero node, or starts at begin and ends after it |
| Tokens.ZeroNodeExactly | src/lexer.c:250-311 | the zero node comes back exactly when the first byte is a NUL or a continuation byte (both directions) |
| Driver.LexStep | src/lexer.c:365-374 | one pass of the loop: an end of -1 fails with the vector so far, a zero node repeats, otherwise the rest of the run follows the new node |
| Driver.LexIntoVector | src/lexer.c:358-376 | the source's loop, appending to the vector, returns exactly Lex |
| Driver.TilesIndexed | src/lexer.c:365-374 | tiling by index: the first node starts at the first offset, each starts where the previous one ends, and none is empty |
| Driver.PrefixShape | src/lexer.c:366-373 | a node that makes progress, placed before a well-formed outcome from where it ends, gives a well-formed outcome |
| Driver.LexFromShape | src/lexer.c:365-374 | from any offset the loop's nodes tile the source and are what chars_to_token returns; a completed run reaches source_size - 1, a failed one stops at a node with end -1, a looping one at a NUL or continuation byte |
| Driver.LexTiles | src/lexer.c:365-374 | what lex_into_vector writes tiles the source from offset 0 |
| Driver.LoopsRestart | src/lexer.c:373 | the zero node that ends a looping run has end offset 0 and the loop condition still holds there, so the source goes on from offset 0 and writes the same nodes again |
| Scripts.WordScript | tests/test_word.c:9-12 | "foo" is one word [0, 3) |
| Scripts.ShortPhraseScript | tests/test_short_phrase.c:9-16 | "foo bar\tbaz" gives three words and two word separators with the expected offsets |
| Scripts.StatementsScript | tests/test_statements.c:9-20 | "foo; bar baz\nbarry;" gives the nine expected tokens |
| Scripts.QuotedStringsScript | tests/test_quoted_strings.c:7-18 | the script begins with a quote, so the run fails at once instead of giving the expected words |
| Scripts.EscapeQuotedScript | tests/test_escape_quoted.c:7-11 | the script begins with a quote, so the run fails at once |
| Scripts.EscapeUnquotedScript | tests/test_escape_unquoted.c:7-15 | the first word is the backslash alone [0, 1); the double quote after it starts a token that fails, so the run fails |
| Scripts.InteriorNulLoops | src/lexer.c:310-311 | a NUL inside the script yields the zero node, and the run loops |
| Scripts.EscapedContinuationLoops | src/lexer.c:159-164 | a backslash followed by a continuation byte yields a one-byte word and then the zero node |
| Scripts.Utf8WordScript | src/lexer.c:105-129 | a two-byte character followed by a space is a word, then a separator |
| Scripts.Utf8AtEndFails | src/lexer.c:122-124 | a multi-byte character just before the final NUL makes the run fail |
| Scripts.Utf8StartThenAsciiScript | src/lexer.c:125-126 | a start byte followed by an ASCII byte is accepted inside a word |
| Scripts.PipesScript | src/lexer.c:229-246 | three pipes give a binary pipe and then a pipe |
| Scripts.BracesAndSeparatorsScript | src/lexer.c:253-303 | braces are one-byte tokens and adjacent statement separators are not merged |

## Left out

- The csalt store and vector plumbing is not modelled, because it is a foreign library:
  `get_char_internal`, `csalt_store_split`, `csalt_store_size`,
  `write_node_into_vector`, `receive_split_vector_for_write`, and `scallop_lex`'s
  resource vector. The source is a byte sequence in which reads outside it give 0.
  The output vector is a sequence that grows by appending.
- A failed vector write (`src/lexer.c:369-371`) is not modelled. Writes always
  succeed in the model.
- The callback that `lex_into_vector` calls after a completed run is not modelled.
  The model returns the tokens in `Lexed` instead of the callback's result.
- Driver.LexIntoVector: on a zero node the source resets `current` to 0 and starts the
  same run again without end, appending forever, or until a write fails. The model
  stops at the first zero node and returns `Loops`. `LoopsRestart` shows
  that the run from there is the one already made.
- Offsets are unbounded integers. The truncation of offsets past 2^31 into the
  `int32_t` fields of the node is not modelled.
- The newer pull-style API in `src/scallop/lexer.h`, with row and column tokens and an
  end-of-file token, is not part of this model. So is `src/scallop/util.h`. The
  EOF entry that the tests expect at the end is therefore not part of the
  expected outputs.
- `tests/scallop_lexer.c` is not modelled, because it expects square-bracket tokens
  that `char_type` never produces. The printing and error reporting of the test
  harness is not modelled either.
- Scanners.SignedChar: assumes plain `char` is a signed 8-bit type. Where it is
  unsigned (ARM, AArch64 and PowerPC Linux), `char_count` wraps from 255 to 0
  instead of from 127 to -128, so `SignedChar` and `Utf8CountWraps` describe
  only signed-char targets.
- Scanners.Utf8RunAccepts: it is stated only for runs of at most 127 bytes after
  the start byte. Past that, the signed counter wraps, and `Utf8CountWraps`
  shows what happens then.
