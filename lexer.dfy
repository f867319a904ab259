/**
  The `Lexer` object of unitecore/src/lexer/lexer.rs and mod.rs. Its fields
  are updated in place, as in the source; every method is proved to do what
  the step function of the same name in LexerSpec says, on the snapshot
  `State()` of the fields.
 */
module Lexing {
  import opened Tokens
  import opened CharClass
  import LexerSpec

  class Lexer {
    /** Public position counters (`usize` in the source). */
    var curLine: nat
    var curCol: nat
    var codepointOffset: nat

    /** The `Peekable<Chars>` iterator: the borrowed input and the number of
        characters already taken from it. */
    const chars: string
    var next: nat

    /** Private bracket counts, `HashMap<char, i32>`. */
    var balancingState: map<char, i32>

    function Cursor(): LexerSpec.Cursor
      reads this
    {
      LexerSpec.Cursor(chars, next, curLine, curCol, codepointOffset)
    }

    function State(): LexerSpec.State
      reads this
    {
      LexerSpec.State(Cursor(), balancingState)
    }

    /** The object invariant: the cursor is within the input, the counters
        are 1-based, the offset never runs ahead, no count is negative. */
    ghost predicate Valid()
      reads this
    {
      LexerSpec.Wf(State())
    }

    /** `Lexer::new`. */
    constructor (input: string)
      ensures Valid() && State() == LexerSpec.New(input)
      ensures curLine == 1 && curCol == 1 && codepointOffset == 0
      ensures chars == input && next == 0 && balancingState == map[]
    {
      curCol := 1;
      curLine := 1;
      codepointOffset := 0;
      chars := input;
      next := 0;
      balancingState := map[];
    }

    /** `push_symbol`. */
    method PushSymbol(c: char) returns (depth: i32)
      requires LexerSpec.CanPush(balancingState, c)
      modifies this`balancingState
      ensures (depth, balancingState) == LexerSpec.Push(old(balancingState), c)
    {
      if c in balancingState {
        var v := balancingState[c] + 1;
        balancingState := balancingState[c := v];
        depth := v - 1;
      } else {
        balancingState := balancingState[c := 1];
        depth := 0;
      }
    }

    /** `pop_symbol`. */
    method PopSymbol(c: char) returns (r: Result<i32>)
      requires LexerSpec.IsBracket(c)
      modifies this`balancingState
      ensures (r, balancingState) == LexerSpec.Pop(old(balancingState), c)
    {
      var open := LexerSpec.MapBalance(c);
      if open in balancingState {
        var v := balancingState[open];
        if v >= 1 {
          balancingState := balancingState[open := v - 1];
          r := Ok(v - 1);
        } else {
          r := Err(MisbalancedSymbol(c, open));
        }
      } else {
        r := Err(MisbalancedSymbol(c, open));
      }
    }

    /** `Peekable::peek` on the input. */
    method Peek() returns (r: Option<char>)
      ensures r == LexerSpec.Peek(Cursor())
    {
      r := if next < |chars| then Some(chars[next]) else None;
    }

    /** `consume_digit`: `chars.next()` alone, the counters stay put. */
    method ConsumeDigit(raw: string, forRadix: nat) returns (r: Result<char>)
      requires Valid() && forRadix <= 36
      modifies this`next
      ensures Valid()
      ensures (r, Cursor()) == LexerSpec.ConsumeDigit(old(Cursor()), raw, forRadix)
    {
      if next < |chars| {
        var c := chars[next];
        next := next + 1;
        if !IsDigit(c, forRadix) {
          r := Err(NumericLiteralInvalidChar(raw));
        } else {
          r := Ok(c);
        }
      } else {
        r := Err(NumericLiteralInvalidChar(raw));
      }
    }

    /** The exponent arm of the `parse_number` loop, at the marker: the
        marker and an optional sign, then one digit via `consume_digit`. */
    method ExponentArm(num: string) returns (r: Result<string>)
      requires Valid() && next < |chars| && (chars[next] == 'e' || chars[next] == 'E')
      modifies this`next, this`curLine, this`curCol, this`codepointOffset
      ensures Valid()
      ensures (r, Cursor()) == LexerSpec.ExponentArm(old(Cursor()), num)
    {
      ghost var start := Cursor();
      var lexeme := num + [chars[next]];
      var _ := ConsumeChar();
      var sign := Peek();
      if sign.Some? && (sign.value == '+' || sign.value == '-') {
        lexeme := lexeme + [sign.value];
        var _ := ConsumeChar();
      }
      assert (lexeme, Cursor()) == LexerSpec.ExponentHead(start, num);
      var d := ConsumeDigit(lexeme, 10);
      if d.Err? {
        r := Err(d.error);
      } else {
        r := Ok(lexeme + [d.value]);
      }
    }

    /** `parse_number`, after `start` has been consumed. */
    method ParseNumber(start: char) returns (r: Result<TokenType>)
      requires Valid()
      modifies this`next, this`curLine, this`curCol, this`codepointOffset
      ensures Valid()
      ensures LexerSpec.Scan(r, Cursor()) == LexerSpec.ParseNumber(old(Cursor()), start)
    {
      var seenDot := false;
      var seenExp := false;
      var num := [start];
      var radix := 10;
      ghost var target := LexerSpec.ParseNumber(Cursor(), start);

      if start == '.' {
        ghost var before := Cursor();
        var d := ConsumeDigit(num, 10);
        if d.Err? {
          r := Err(d.error);
          return;
        }
        num := num + [d.value];
        seenDot := true;
        assert num == [start, d.value];
        assert (d, Cursor()) == LexerSpec.ConsumeDigit(before, [start], 10);
        assert LexerSpec.NumberLoop(Cursor(), num, seenDot, seenExp) == target;
      }

      var outcome: Option<Result<TokenType>> := None;
      while outcome.None?
        invariant Valid()
        invariant outcome.None? ==>
          LexerSpec.NumberLoop(Cursor(), num, seenDot, seenExp) == LexerSpec.ParseNumber(old(Cursor()), start)
        invariant outcome.Some? ==>
          LexerSpec.Scan(outcome.value, Cursor()) == LexerSpec.ParseNumber(old(Cursor()), start)
        decreases |chars| - next, if outcome.None? then 1 else 0
      {
        var p := Peek();
        if p.Some? && p.value == '.' && !seenDot && !seenExp {
          num := num + [p.value];
          var _ := ConsumeChar();
          seenDot := true;
        } else if p.Some? && (p.value == 'e' || p.value == 'E') && !seenExp {
          var e := ExponentArm(num);
          seenExp := true;
          if e.Err? {
            outcome := Some(Err(e.error));
          } else {
            num := e.value;
          }
        } else if p.Some? && IsDigit(p.value, radix) {
          num := num + [p.value];
          var _ := ConsumeChar();
        } else if p.Some? && (IsAsciiAlphabetic(p.value) || IsDigit(p.value, 10)) {
          num := num + [p.value];
          outcome := Some(Err(NumericLiteralInvalidChar(num)));
        } else {
          outcome := Some(Ok(Numeric(num, if seenDot || seenExp then FloatingPoint else Integer)));
        }
      }
      r := outcome.value;
    }

    /** `transform_to_type`: dispatch on the consumed character `c`. */
    method TransformToType(c: char) returns (r: Result<TokenType>)
      requires Valid()
      requires (c == '(' || c == '[') ==> LexerSpec.CanPush(balancingState, c)
      modifies this`next, this`curLine, this`curCol, this`codepointOffset, this`balancingState
      ensures Valid()
      ensures LexerSpec.Step(r, State()) == LexerSpec.TransformToType(old(State()), c)
    {
      if c == '(' || c == '[' {
        var depth := PushSymbol(c);
        r := Ok(Punctuation(c, Open(depth)));
      } else if c == ')' || c == ']' {
        var p := PopSymbol(c);
        match p
        case Ok(depth) => r := Ok(Punctuation(c, Close(depth)));
        case Err(e) => r := Err(e);
      } else if '0' <= c <= '9' || c == '.' {
        r := ParseNumber(c);
      } else {
        r := Err(UnknownSymbol([c]));
      }
    }

    /** `consume_char`: take the next character and update the counters. */
    method ConsumeChar() returns (r: Option<char>)
      requires Valid()
      modifies this`next, this`curLine, this`curCol, this`codepointOffset
      ensures Valid()
      ensures (r, Cursor()) == LexerSpec.ConsumeChar(old(Cursor()))
    {
      if next < |chars| {
        var c := chars[next];
        next := next + 1;
        curCol := curCol + 1;
        if c == '\n' {
          curLine := curLine + 1;
          curCol := 1;
        }
        codepointOffset := codepointOffset + 1;
        r := Some(c);
      } else {
        r := None;
      }
    }

    /** `skip_whitespace`. */
    method SkipWhitespace()
      requires Valid()
      modifies this`next, this`curLine, this`curCol, this`codepointOffset
      ensures Valid()
      ensures Cursor() == LexerSpec.SkipWhitespace(old(Cursor()))
    {
      var p := Peek();
      while p.Some? && IsWhitespace(p.value)
        invariant Valid()
        invariant p == LexerSpec.Peek(Cursor())
        invariant LexerSpec.SkipWhitespace(Cursor()) == LexerSpec.SkipWhitespace(old(Cursor()))
        decreases |chars| - next
      {
        var _ := ConsumeChar();
        p := Peek();
      }
    }

    /** `next_token`. */
    method NextToken() returns (r: Result<TokenType>)
      requires Valid() && LexerSpec.NoOverflowAhead(State())
      modifies this
      ensures Valid()
      ensures LexerSpec.Step(r, State()) == LexerSpec.NextToken(old(State()))
    {
      SkipWhitespace();
      var c := ConsumeChar();
      if c.Some? {
        r := TransformToType(c.value);
      } else {
        r := Ok(EOF);
      }
    }
  }
}
