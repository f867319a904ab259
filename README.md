# unitecore lexer, modelled and verified in Dafny

This project models the streaming tokenizer of `unitecore`
(`unitecore/src/lexer/lexer.rs` and the types in `unitecore/src/lexer/mod.rs`)
and proves properties of it. The tokenizer is a `Lexer` object. Each call to
`next_token` does four things:

1. It skips Unicode whitespace.
2. It returns `EOF` when the input is exhausted.
3. Otherwise it consumes one character.
4. It dispatches on that character:
   - `(` and `[` open a bracket and report its nesting depth;
   - `)` and `]` close one, or fail with `MisbalancedSymbol`;
   - a decimal digit or `.` starts a numeric literal (`parse_number`);
   - anything else is an `UnknownSymbol`.

`consume_char` advances the position counters `cur_line`, `cur_col` and
`codepoint_offset`.

The modules:

- `Tokens` (tokens.dfy): the enums of mod.rs as datatypes (`TokenType`,
  `PunctuationKind`, `NumericHint`, `LexerError`) and `i32` as a subset type.
  The derived `PartialEq` is Dafny's structural equality.
- `CharClass` (charclass.dfy): the standard-library character tests the
  lexer calls. These are `is_whitespace` (the Unicode `White_Space` list),
  `is_digit(radix)` (through `to_digit`) and `is_ascii_alphabetic`.
- `LexerSpec` (lexer_spec.dfy): every method of lexer.rs as a pure step
  function from an old snapshot of the lexer (`State`: cursor, counters,
  bracket map) to the result and the new snapshot.
- `Lexing` (lexer.dfy): the `Lexer` class. Its fields are updated in place,
  as in the source. Each method, `skip_whitespace`'s loop and
  `parse_number`'s loop included, is proved to produce exactly what the step
  function of the same name says.
- `NumberShape` (number_shape.dfy): an independent reference definition of
  decimal numeric lexemes. It is a finite automaton:
  `([0-9]+ '.' [0-9]* | '.' [0-9]+ | [0-9]+) ([eE] [+-]? [0-9]+)?`.
  The module also proves facts about how many dots and exponent markers
  such lexemes hold, and where.
- `NumberProperties` (number_properties.dfy): what `parse_number` does,
  stated against that automaton. On success this covers the lexeme, the
  hint, the shape, maximal munch and the counters. On failure it covers the
  three forms of `NumericLiteralInvalidChar` and the counters after each.
  The outcome relation admits one scan only, so it determines the result.
- `Positions` (positions.dfy): a reference definition of the line, column
  and offset reached after reading a text. It proves that `consume_char` and
  `skip_whitespace` keep the counters equal to it.
- `LexerProperties` (lexer_properties.dfy): properties of `next_token` and
  the bracket counts:
  - EOF exactly at trailing whitespace, and EOF is final;
  - progress;
  - the dispatch table;
  - the depth round trip, for one pair and across any run of successive calls;
  - the counters after each kind of token.
- `Scenarios` (scenarios.dfy): `next_token` on concrete inputs, one call at
  a time, with the full state after each call. The inputs include `src/main.rs`'s
  `"2.2 2.2e92 .2"`.

### Behaviour of the code as written

The model follows the code. Some of what the code does is not what a reader
of its comments or its types might expect:

- `consume_digit` reads straight from the iterator. The character it takes
  (the digit after a leading `.`, the first digit of an exponent, or the
  non-digit found instead) moves neither `cur_col` nor `codepoint_offset`.
  A line feed taken this way does not advance `cur_line`.
  - `NextTokenPositions` proves the exact lag. After a numeric literal
    `raw`, the offset and the column trail the input read by `Bypassed(raw)`:
    one for a leading `.` plus one for an exponent.
  - `NextTokenFailurePositions` does the same for a failed literal. The
    character dropped in place of a missing digit is not counted either, and
    a line feed dropped this way is missing from the line count.
  - `LeadingDotUncounted`, `ExponentUncounted` and `NewlineUncounted` show
    it on `".5"`, `"1e+5"` and `".\n"`.
  - So `codepoint_offset` equals the number of characters consumed only
    until `consume_digit` first takes a character. That happens after any
    leading `.` or exponent marker (and sign) with input left, whether the
    literal then succeeds or fails. `".x"`, `".\n"` and `"1ex"` all leave
    the offset one behind.
- A second `.`, or a `.` after an exponent, ends the literal successfully.
  `"1.2.3"` gives `Numeric("1.2")` and then `Numeric(".3")`, shown by
  `SecondDotEndsLiteral` and `SecondDotStartsLiteral`.
- After an ASCII letter the literal fails, and its `raw` includes the
  letter. The exception is a first `e` or `E`, which starts the exponent. The letter itself is left in the input, so the next call reports
  it as an `UnknownSymbol` (`LetterAfterLiteral`). In the two
  `consume_digit` failures, the offending character has been consumed.
- `map_balance` also pairs `{` and `}`, but `transform_to_type` does not
  dispatch them. They are unknown symbols (`Unknown`).
- The depth reported by `Open` is the count before the increment. The depth
  reported by `Close` is the count after the decrement. So a matching pair
  reports the same depth, however many calls lie between its opener and
  its closer (`DepthRoundTrip`, `PairDepths`, `PairOpen`/`PairClose`).

The Rust field `raw` is called `punct` in `Punctuation`. The Rust field
`symbol` of `UnknownSymbol` is called `lexeme`. Dafny needs same-named
destructors to share a type.

## Model

| member | source | states |
|---|---|---|
| LexerSpec.New | unitecore/src/lexer/lexer.rs:4-14 | a new lexer is well formed: cursor inside the text, counters 1-based, offset not ahead, no negative count |
| Positions.NewInSync | unitecore/src/lexer/lexer.rs:4-14 | a new lexer is at index 0 of its input with an empty bracket map, and its counters (line 1, column 1, offset 0) are those of having read nothing |
| Lexing.Lexer.constructor | unitecore/src/lexer/lexer.rs:4-14 | sets line 1, column 1, offset 0, the cursor at the start of the input and an empty map, i.e. the state `New(input)` |
| LexerSpec.MapBalance | unitecore/src/lexer/lexer.rs:16-26 | the partner of a bracket is another bracket, and it is a closer exactly when the argument is an opener (other characters panic: precondition) |
| LexerProperties.MapBalanceInvolution | unitecore/src/lexer/lexer.rs:16-26 | `map_balance` is an involution on the six brackets |
| LexerSpec.Push | unitecore/src/lexer/lexer.rs:28-36 | returns the count held before (0 if absent); afterwards that key holds the old count + 1 (1 if absent), every other key is unchanged, and no count becomes negative |
| Lexing.Lexer.PushSymbol | unitecore/src/lexer/lexer.rs:28-36 | the in-place map update and the depth returned are those of `Push` |
| LexerSpec.Pop | unitecore/src/lexer/lexer.rs:38-49 | succeeds iff the partner's count is at least 1; then it decrements that entry and returns the new value; otherwise it returns `MisbalancedSymbol(c, map_balance(c))` and leaves the map unchanged; no count becomes negative |
| Lexing.Lexer.PopSymbol | unitecore/src/lexer/lexer.rs:38-49 | the in-place map update and the result are those of `Pop` |
| LexerProperties.DepthRoundTrip | unitecore/src/lexer/lexer.rs:28-49 | pushing an opener and then popping its closer gives `Ok` with the same depth, and every count is restored (a key that was absent stays behind with 0) |
| LexerProperties.CountStep | unitecore/src/lexer/lexer.rs:157-165 | one `next_token` call moves the count of each opener by +1 for an `Open` on it, -1 for a `Close` on its partner and 0 for any other result; the `Open` reports the count before the call and the `Close` the count after |
| LexerProperties.RunCounts | unitecore/src/lexer/lexer.rs:28-49 | across any number of successive calls, each opener's count moves by exactly the openers on it less the closers on its partner, so a run balanced for that opener restores its count; the state stays well formed |
| LexerProperties.LexAt | unitecore/src/lexer/lexer.rs:157-165 | the `j`-th call of a run is `next_token` from the state the first `j` calls leave, and those calls are the run's first `j` results |
| LexerProperties.OpenDepthAt | unitecore/src/lexer/lexer.rs:28-36 | an `Open(d)` in a run reports the starting count plus the net openers on that bracket before it |
| LexerProperties.CloseDepthAt | unitecore/src/lexer/lexer.rs:38-49 | a `Close(d)` in a run reports the starting count plus the net openers on its partner up to and including it |
| LexerProperties.PairDepths | unitecore/src/lexer/lexer.rs:28-49 | in any run of calls, an `Open(d1)` and a later `Close(d2)` on its partner, with balanced brackets of that kind in between, report the same depth |
| LexerSpec.ConsumeDigit | unitecore/src/lexer/lexer.rs:51-64 | takes the next character if there is one, without touching line, column or offset; `Ok` iff that character is a digit of the radix; the error carries the `raw` passed in |
| Lexing.Lexer.ConsumeDigit | unitecore/src/lexer/lexer.rs:51-64 | advances the iterator exactly as `ConsumeDigit` |
| LexerSpec.ExponentHead | unitecore/src/lexer/lexer.rs:85-99 | the marker is taken, and so is a sign exactly when one follows it, so the cursor moves by 2 or by 1; both are appended to the lexeme exactly as taken; offset and column advance by the characters taken, the line unchanged |
| LexerSpec.ExponentArm | unitecore/src/lexer/lexer.rs:85-101 | the exponent arm always takes at least the marker and counts it (the offset grows), stays within the input and leaves the line unchanged |
| Lexing.Lexer.ExponentArm | unitecore/src/lexer/lexer.rs:85-101 | the exponent arm of the loop updates the lexer as `ExponentArm` says |
| NumberProperties.ExponentHeadPhase | unitecore/src/lexer/lexer.rs:85-99 | after the marker and sign the lexeme is in a phase that demands a digit |
| NumberProperties.ExponentArmOutcome | unitecore/src/lexer/lexer.rs:85-101 | on success the lexeme grew by exactly the characters taken and ends in an exponent digit; on failure the digit was missing: the input ended, or a character that cannot continue the lexeme (not a digit, nor a sign right after the marker) was taken and left out of `raw` |
| LexerSpec.NumberLoop | unitecore/src/lexer/lexer.rs:77-118 | the loop never moves the cursor or the offset back, stays in the input, never changes the line, and succeeds only with a `Numeric` token |
| LexerSpec.ParseNumber | unitecore/src/lexer/lexer.rs:66-121 | the same bounds for the whole of `parse_number`, leading-`.` path included |
| Lexing.Lexer.ParseNumber | unitecore/src/lexer/lexer.rs:66-121 | the method with its `loop` over `seen_dot`, `seen_exp` and `num` returns and leaves the state that `ParseNumber` says |
| NumberProperties.LoopEndOutcome | unitecore/src/lexer/lexer.rs:113-116 | when no arm takes the lookahead, the literal is `Ok`, a complete lexeme that the lookahead cannot extend, and its hint is `Integer` iff neither a `.` nor an exponent was seen |
| NumberProperties.LoopLetterOutcome | unitecore/src/lexer/lexer.rs:107-112 | at a letter other than a first exponent marker, the literal fails with the letter appended to `raw` and not consumed; `raw` is then rejected by the automaton |
| NumberProperties.NumberLoopOutcome | unitecore/src/lexer/lexer.rs:77-118 | from any lexeme in the phase its flags describe, the loop's outcome is a complete literal extended by exactly the characters taken, or one of the error forms; a dropped character, and a letter appended to `raw`, is one the automaton rejects, so a sign after the marker is never dropped and a first exponent marker never ends the literal as a letter |
| NumberProperties.ParseNumberOutcome | unitecore/src/lexer/lexer.rs:66-118 | the same for `parse_number` from either start (a digit or `.`) |
| NumberProperties.OutcomeStop | unitecore/src/lexer/lexer.rs:77-118 | every outcome stops at the unique index where the lexeme is still live and the next character would kill it; there it is `Ok` for a complete lexeme not followed by a letter, a letter failure for a complete lexeme followed by one, and a missing digit for a lexeme awaiting a digit |
| NumberProperties.OutcomeUnique | unitecore/src/lexer/lexer.rs:66-118 | two scans that both meet the outcome relation from the same input and prefix have the same result and stop at the same index |
| NumberProperties.ParseNumberDetermined | unitecore/src/lexer/lexer.rs:66-121 | any scan meeting the outcome relation has the result and stop index of `parse_number`, so the relation is a complete specification of it |
| NumberProperties.MarkerIsNoLetter | unitecore/src/lexer/lexer.rs:85-101 | on `"1e5"` after `1`, a failure at the `e` with `raw` `"1e"` is not an outcome: the first marker is taken by the exponent arm |
| NumberProperties.ParseNumberSuccess | unitecore/src/lexer/lexer.rs:66-118 | on success, `raw` is the start character followed by exactly the characters taken; `hint` is `FloatingPoint` iff `raw` holds `.`, `e` or `E`; at most one `.` and one exponent marker; no longer run of the input is a numeric lexeme |
| NumberProperties.ParseNumberFailure | unitecore/src/lexer/lexer.rs:66-118 | failure is always `NumericLiteralInvalidChar`, with `raw` either `"."` or ending in a marker, or in a marker and sign, and the missing digit's place consumed (a non-digit, and no sign directly after a marker) and dropped or the input ended; or with a letter appended to a complete literal and left in the input, the result not a lexeme prefix (so not a first `e`/`E`) |
| NumberProperties.AwaitingShape | unitecore/src/lexer/lexer.rs:72-101 | a lexeme waiting for the digit that `consume_digit` demands is `"."` or ends in `e`/`E`, optionally followed by a sign |
| NumberProperties.ExponentArmCounters | unitecore/src/lexer/lexer.rs:85-101 | a successful exponent arm counts every character it takes except the digit taken with `consume_digit` |
| NumberProperties.NumberLoopCounters | unitecore/src/lexer/lexer.rs:77-118 | a successful loop moves offset and column by the characters taken, less one per exponent marker |
| NumberProperties.ParseNumberCounters | unitecore/src/lexer/lexer.rs:66-118 | a successful `parse_number` keeps the line and moves offset and column by the characters taken, less `Bypassed(raw)` |
| NumberProperties.ExponentArmRaw | unitecore/src/lexer/lexer.rs:85-101 | a successful exponent arm appends to the lexeme exactly the characters it took |
| NumberProperties.ExponentArmFailure | unitecore/src/lexer/lexer.rs:85-101 | a failed exponent arm counted the marker and sign; the character dropped in place of the digit, if any, was not counted |
| NumberProperties.NumberLoopFailureCounters | unitecore/src/lexer/lexer.rs:77-118 | a failed loop ends in one of three forms (a letter appended and not taken, the input ended after a marker, a character dropped after a marker), and offset and column moved by the characters counted in that form, less one per completed exponent |
| NumberProperties.LeadDotFailure | unitecore/src/lexer/lexer.rs:72-75 | when no digit follows a leading `.`, nothing is counted, whether the input ended or a character was taken and dropped |
| NumberProperties.ParseNumberFailureCounters | unitecore/src/lexer/lexer.rs:66-118 | a failed `parse_number` keeps the line and moves offset and column by the characters counted in its failure form, less those `consume_digit` took or was to take |
| LexerProperties.ParseFailurePositions | unitecore/src/lexer/lexer.rs:51-118 | a failed literal read from synchronised counters leaves them agreeing with the text up to the last character counted, lagging by `Bypassed`, with the missing digit's place uncounted |
| LexerProperties.FailedLive | unitecore/src/lexer/lexer.rs:77-118 | the counted part of a failed literal holds no line feed: the only line feed a literal can take is the dropped character |
| NumberShape.IntegerIffNoMarker | unitecore/src/lexer/lexer.rs:115 | a live lexeme is in the integer phase iff it contains no `.`, `e` or `E`: the basis of the hint |
| NumberShape.LexemeShape | unitecore/src/lexer/lexer.rs:77-118 | a numeric lexeme holds at most one `.`, at most one exponent marker, no `.` after the marker, and ends in a digit or its fraction's `.` |
| NumberShape.LiveChars | unitecore/src/lexer/lexer.rs:77-118 | a live lexeme is made of digits, `.`, `e`, `E`, `+` and `-` only |
| NumberShape.LeadDotOnly | unitecore/src/lexer/lexer.rs:72-75 | the only lexeme waiting for the digit after a leading `.` is `"."` |
| LexerSpec.TransformToType | unitecore/src/lexer/lexer.rs:123-130 | dispatch keeps the state well formed, never moves the cursor, the line or the offset back, and never yields `EOF` |
| Lexing.Lexer.TransformToType | unitecore/src/lexer/lexer.rs:123-130 | the method's result and new state are those of `TransformToType` |
| LexerProperties.NextTokenDispatch | unitecore/src/lexer/lexer.rs:123-130 | for each lookahead: `(`/`[` give `Open(count before)` and increment it; `)`/`]` give `Close(count after)` with the partner decremented, or `MisbalancedSymbol` with the map unchanged; digits and `.` give a numeric outcome; anything else gives `UnknownSymbol([c])`; brackets and unknown symbols leave the cursor just past `c`, counted by `consume_char` |
| LexerSpec.ConsumeChar | unitecore/src/lexer/lexer.rs:132-146 | on an available character: the offset grows by 1, and a line feed increments the line and sets the column to 1, any other character increments the column; on exhausted input nothing changes |
| Lexing.Lexer.ConsumeChar | unitecore/src/lexer/lexer.rs:132-146 | the in-place counter updates are those of `ConsumeChar` |
| Positions.ConsumeCharTracks | unitecore/src/lexer/lexer.rs:132-146 | counters that describe the text read so far describe it with the consumed character appended |
| Positions.ConsumeCharInSync | unitecore/src/lexer/lexer.rs:132-146 | `consume_char` keeps the counters equal to line, column and offset of the input read |
| LexerSpec.SkipWhitespace | unitecore/src/lexer/lexer.rs:148-155 | consumes only whitespace and stops at the first non-whitespace character or the end of the input; the offset grows by exactly the characters skipped and the line never decreases; at the end of the input nothing changes |
| Lexing.Lexer.SkipWhitespace | unitecore/src/lexer/lexer.rs:148-155 | the `while let` loop leaves the lexer where `SkipWhitespace` says |
| Positions.SkipWhitespaceTracks | unitecore/src/lexer/lexer.rs:148-155 | the counters after skipping describe the text read plus the skipped whitespace |
| Positions.SkipWhitespaceInSync | unitecore/src/lexer/lexer.rs:148-155 | `skip_whitespace` keeps the counters in sync with the input read |
| LexerSpec.NextToken | unitecore/src/lexer/lexer.rs:157-165 | `next_token` keeps the state well formed and never moves the cursor, the line or the offset back |
| Lexing.Lexer.NextToken | unitecore/src/lexer/lexer.rs:157-165 | the method's result and new state are those of `NextToken` |
| LexerProperties.NextTokenEof | unitecore/src/lexer/lexer.rs:157-165 | the result is `EOF` iff every remaining character is whitespace |
| LexerProperties.EofIsFinal | unitecore/src/lexer/lexer.rs:157-165 | after `EOF` the whole input is consumed and the counts are untouched, and the next call returns `EOF` again and changes nothing |
| LexerProperties.NextTokenProgress | unitecore/src/lexer/lexer.rs:157-165 | every result other than `EOF`, errors included, consumes at least the character dispatched on |
| LexerProperties.NoNewlineTaken | unitecore/src/lexer/lexer.rs:66-118 | a successful literal consumes no line feed |
| LexerProperties.NumericPositions | unitecore/src/lexer/lexer.rs:51-64 | after a literal read from synchronised counters, the line is right, and offset and column are short by `Bypassed(raw)` |
| LexerProperties.TransformPositions | unitecore/src/lexer/lexer.rs:123-130 | from synchronised counters, a bracket or unknown symbol leaves them in sync; a literal leaves the line right and offset and column lagging by `Bypassed(raw)` |
| LexerProperties.NextTokenPositions | unitecore/src/lexer/lexer.rs:157-165 | the same for a whole `next_token` call, whitespace included; counters stay exact after a literal with no leading `.` and no exponent |
| LexerProperties.NextTokenFailurePositions | unitecore/src/lexer/lexer.rs:157-165 | after a failed literal from synchronised counters: the line counts the line feeds up to the end `e` of the counted text (where the scan stopped, or one before when a character was dropped); offset and column lag that text by `Bypassed` of the lexeme part, less one when `raw` ends awaiting a digit |
| CharClass.DigitValue | unitecore/src/lexer/lexer.rs:58 | a character has a digit value iff it is an ASCII digit or letter, and the value is below 36 |
| CharClass.DecimalDigits | unitecore/src/lexer/lexer.rs:102-107 | in radix 10, `is_digit` holds exactly for `'0'..='9'` |
| Scenarios.PairOpen | unitecore/src/lexer/lexer.rs:125 | `"()"`: `Open(0)`, counting `(` once |
| Scenarios.PairClose | unitecore/src/lexer/lexer.rs:126 | `"()"`: then `Close(0)`, count back to 0 |
| Scenarios.NestedOpenOuter | unitecore/src/lexer/lexer.rs:125 | `"(())"`: `Open(0)` |
| Scenarios.NestedOpenInner | unitecore/src/lexer/lexer.rs:125 | `"(())"`: then `Open(1)` |
| Scenarios.NestedCloseInner | unitecore/src/lexer/lexer.rs:126 | `"(())"`: then `Close(1)` |
| Scenarios.NestedCloseOuter | unitecore/src/lexer/lexer.rs:126 | `"(())"`: then `Close(0)` |
| Scenarios.NestedEnd | unitecore/src/lexer/lexer.rs:157-165 | `"(())"`: then `EOF` |
| Scenarios.Misbalanced | unitecore/src/lexer/lexer.rs:38-49 | `")"` gives `MisbalancedSymbol(')', '(')` and then `EOF`; `']'` after `(` gives `MisbalancedSymbol(']', '[')` |
| Scenarios.Unknown | unitecore/src/lexer/lexer.rs:123-130 | `"{"` and `"@"` give `UnknownSymbol`, then `EOF`; the empty input gives `EOF` at once |
| Scenarios.WhitespaceCounted | unitecore/src/lexer/lexer.rs:148-155 | `" \t\n 7"`: whitespace and line feed are skipped and counted (line 2, column 3, offset 5) |
| Scenarios.ParseFraction | src/main.rs:6 | `parse_number` on `2.2` stops at the blank |
| Scenarios.LiteralWithFraction | src/main.rs:6 | `"2.2 2.2e92 .2"`: `Numeric("2.2", FloatingPoint)` |
| Scenarios.LiteralWithExponent | src/main.rs:6 | then `Numeric("2.2e92", FloatingPoint)` |
| Scenarios.ParseLiteralWithExponent | src/main.rs:6 | `parse_number` on `2.2e92` |
| Scenarios.ExponentOfLiteral | unitecore/src/lexer/lexer.rs:85-101 | the exponent of `2.2e92`: the marker is counted, its first digit is not |
| Scenarios.ParseLeadingDot | src/main.rs:6 | `parse_number` on `.2` |
| Scenarios.LiteralWithLeadingDot | src/main.rs:6 | then `Numeric(".2", FloatingPoint)` |
| Scenarios.LiteralsEnd | src/main.rs:6 | then `EOF` |
| Scenarios.IntegerLiteral | unitecore/src/lexer/lexer.rs:115 | `"123"`: `Numeric("123", Integer)` |
| Scenarios.IntegerLiteralEnd | unitecore/src/lexer/lexer.rs:157-165 | `"123"`: then `EOF` |
| Scenarios.SecondDotEndsLiteral | unitecore/src/lexer/lexer.rs:113-116 | `"1.2.3"`: the second `.` ends the literal successfully with `Numeric("1.2", FloatingPoint)` |
| Scenarios.SecondDotStartsLiteral | unitecore/src/lexer/lexer.rs:72-75 | then the second `.` starts `Numeric(".3", FloatingPoint)` |
| Scenarios.MissingExponentDigit | unitecore/src/lexer/lexer.rs:100 | `"1e"`: `NumericLiteralInvalidChar("1e")` |
| Scenarios.LetterAfterLiteral | unitecore/src/lexer/lexer.rs:107-112 | `"12a"`: `NumericLiteralInvalidChar("12a")` with `a` left in the input, then `UnknownSymbol("a")` |
| Scenarios.LetterReadNext | unitecore/src/lexer/lexer.rs:128 | `"12a"`: the next call reads the letter left in the input as `UnknownSymbol("a")` |
| Scenarios.LeadingDotUncounted | unitecore/src/lexer/lexer.rs:51-64 | `".5"` gives `Numeric(".5", FloatingPoint)` with two characters taken but offset 1 and column 2 |
| Scenarios.ExponentWithSign | unitecore/src/lexer/lexer.rs:85-101 | the exponent arm on `"1e+5"` counts the marker and the sign but not the digit |
| Scenarios.ExponentUncounted | unitecore/src/lexer/lexer.rs:51-64 | `"1e+5"` gives `Numeric("1e+5", FloatingPoint)` with four characters taken but offset 3 |
| Scenarios.NewlineUncounted | unitecore/src/lexer/lexer.rs:72-75 | `".\n"` fails with `raw = "."`, having taken the line feed while staying on line 1, column 2 |

## Left out

- The `println!` calls in `consume_digit` and `parse_number` are debug output with no effect on the lexer's state.
- `FileIO` carries a placeholder `IoError` value instead of `std::io::Error`. `MissingExpectedSymbol` is declared but never constructed by the lexer.
- `Peekable<Chars>` is the input text plus the index of the next character, and `HashMap<char, i32>` is a Dafny map. Their internals are not modelled.
- `char::is_whitespace` is written out as the Unicode `White_Space` code point list.
- LexerSpec.Push: the `i32` overflow of `*v += 1` would panic in a debug build and wrap in a release build. The model requires instead that the count is below `i32::MAX` (`CanPush`; `NoOverflowAhead` for `next_token`). A run of successive calls (`Lex`) stops before a call that would overflow.
- LexerSpec.MapBalance: the panic on a non-bracket is a precondition. `pop_symbol` only ever passes `)` or `]`.
- The `usize` counters are unbounded naturals, so their overflow is not modelled.
- src/lexer/lexer.rs and src/lexer.rs are older drafts that do not compile. They are not part of this model.
- The token-builder macros of unitecore/src/lexer/macros.rs and the test in tests/src/lib.rs are not part of this model.
- The driver loop of src/main.rs prints tokens; only its input string is used, in `Scenarios`.
- `Operators`, `Identifier`, `Char`, `Unknown` and `Separator` are declared but never produced by the lexer, so they appear only in the datatypes.
- Position counters are stated exactly from counters that agree with the input read (`InSync`), as they do for a new lexer. From counters that already lag, after a literal that `consume_digit` read into, only the relative movement is stated (`ParseNumberCounters`, `ParseNumberFailureCounters`, and the counter clauses of `ConsumeChar` and `SkipWhitespace`).
- Inserting whitespace between tokens and getting the same tokens back is not stated. It compares the token sequences of two different inputs; runs of successive calls (`Lex`) are stated only for the bracket counts and depths.
