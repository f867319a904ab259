/**
  The character classes of Rust's standard library that the lexer relies on:
  `char::is_whitespace`, `char::is_digit(radix)` (via `char::to_digit`) and
  `char::is_ascii_alphabetic`. Characters are Unicode scalar values.
 */
module CharClass {
  import opened Tokens

  /** Unicode `White_Space` property, which `char::is_whitespace` tests. */
  predicate IsWhitespace(ch: char) {
    var n := ch as int;
    || (0x09 <= n <= 0x0D) || n == 0x20 || n == 0x85 || n == 0xA0 || n == 0x1680
    || (0x2000 <= n <= 0x200A) || n == 0x2028 || n == 0x2029 || n == 0x202F
    || n == 0x205F || n == 0x3000
  }

  predicate IsAsciiAlphabetic(ch: char) {
    ('A' <= ch <= 'Z') || ('a' <= ch <= 'z')
  }

  /** `char::to_digit`, before the comparison with the radix: the value of an
      ASCII digit or letter (either case), as in radices up to 36. */
  function DigitValue(ch: char): (v: Option<nat>)
    ensures v.Some? ==> v.value < 36
    ensures v.Some? <==> ('0' <= ch <= '9' || IsAsciiAlphabetic(ch))
  {
    if '0' <= ch <= '9' then Some(ch as int - '0' as int)
    else if 'a' <= ch <= 'z' then Some(ch as int - 'a' as int + 10)
    else if 'A' <= ch <= 'Z' then Some(ch as int - 'A' as int + 10)
    else None
  }

  /** `char::is_digit(radix)`; Rust panics for a radix above 36. */
  predicate IsDigit(ch: char, radix: nat)
    requires radix <= 36
  {
    DigitValue(ch).Some? && DigitValue(ch).value < radix
  }

  /** In radix 10 the digits are exactly '0' to '9'. */
  lemma DecimalDigits(ch: char)
    ensures IsDigit(ch, 10) <==> '0' <= ch <= '9'
  {
  }
}
