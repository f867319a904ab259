/**
  The token and error universe of the unitecore lexer
  (unitecore/src/lexer/mod.rs). Every Rust enum becomes a datatype; the
  derived `PartialEq` of the Rust enums is Dafny's structural equality on
  datatypes.
 */
module Tokens {

  /** Rust's `i32`, the `BalancingDepthType` of the source. */
  type i32 = x: int | -0x8000_0000 <= x <= 0x7fff_ffff

  const I32_MAX: i32 := 0x7fff_ffff

  datatype Option<T> = None | Some(value: T)

  /** `NumericHint`: the coarse shape class of a numeric literal. */
  datatype NumericHint = Integer | FloatingPoint

  /** `PunctuationKind`: a bracket with its nesting depth, or a separator. */
  datatype PunctuationKind = Open(openDepth: i32) | Close(closeDepth: i32) | Separator

  /**
    `TokenType` (and its alias `Token`). Dafny requires destructors of the
    same name to have the same type, so the Rust field `raw` is called
    `punct` in `Punctuation` (a char) and stays `raw` in `Numeric` (a string).
   */
  datatype TokenType =
    | EOF
    | Punctuation(punct: char, kind: PunctuationKind)
    | Operators(op: string)
    | Identifier(name: string)
    | Char(ch: char)
    | Numeric(raw: string, hint: NumericHint)
    | Unknown(unknown: char)

  type Token = TokenType

  /** Stand-in for the foreign `std::io::Error` carried by `FileIO`. */
  datatype IoError = IoError(description: string)

  /**
    `LexerError`. `UnknownSymbol`'s Rust field `symbol` (a String) is called
    `lexeme` here, because `MisbalancedSymbol` already has a `symbol` of type char.
   */
  datatype LexerError =
    | FileIO(cause: IoError)
    | MissingExpectedSymbol(expected: TokenType, found: Token)
    | NumericLiteralInvalidChar(raw: string)
    | MisbalancedSymbol(symbol: char, open: char)
    | UnknownSymbol(lexeme: string)

  /** `Result<T, LexerError>`. */
  datatype Result<T> = Ok(value: T) | Err(error: LexerError)
}
