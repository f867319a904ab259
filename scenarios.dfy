/**
  `next_token` on concrete inputs, one call at a time, with the complete
  state after each call: tokens, errors, bracket counts and the position
  counters `(next, line, col, offset)` of the cursor.
 */
module Scenarios {
  import opened Tokens
  import opened LexerSpec
  import opened CharClass

  /** "()" gives `Open(0)` and then `Close(0)`. */
  lemma PairOpen()
    ensures NextToken(New("()")) ==
      Step(Ok(Punctuation('(', Open(0))), State(Cursor("()", 1, 1, 2, 1), map['(' := 1]))
  {
  }

  lemma PairClose()
    ensures NextToken(State(Cursor("()", 1, 1, 2, 1), map['(' := 1])) ==
      Step(Ok(Punctuation(')', Close(0))), State(Cursor("()", 2, 1, 3, 2), map['(' := 0]))
  {
    var t := "()";
    assert t[1] == ')' && MapBalance(')') == '(';
    SkipStops(Cursor(t, 1, 1, 2, 1));
    assert map['(' := 1]['(' := 0] == map['(' := 0];
  }

  /** Nested brackets: the depth reported on opening equals the one reported
      on the matching close. */
  lemma NestedOpenOuter()
    ensures NextToken(New("(())")) ==
      Step(Ok(Punctuation('(', Open(0))), State(Cursor("(())", 1, 1, 2, 1), map['(' := 1]))
  {
  }

  lemma NestedOpenInner()
    ensures NextToken(State(Cursor("(())", 1, 1, 2, 1), map['(' := 1])) ==
      Step(Ok(Punctuation('(', Open(1))), State(Cursor("(())", 2, 1, 3, 2), map['(' := 2]))
  {
  }

  lemma NestedCloseInner()
    ensures NextToken(State(Cursor("(())", 2, 1, 3, 2), map['(' := 2])) ==
      Step(Ok(Punctuation(')', Close(1))), State(Cursor("(())", 3, 1, 4, 3), map['(' := 1]))
  {
    var t := "(())";
    assert t[2] == ')' && MapBalance(')') == '(';
    SkipStops(Cursor(t, 2, 1, 3, 2));
    assert map['(' := 2]['(' := 1] == map['(' := 1];
  }

  lemma NestedCloseOuter()
    ensures NextToken(State(Cursor("(())", 3, 1, 4, 3), map['(' := 1])) ==
      Step(Ok(Punctuation(')', Close(0))), State(Cursor("(())", 4, 1, 5, 4), map['(' := 0]))
  {
    var t := "(())";
    assert t[3] == ')' && MapBalance(')') == '(';
    SkipStops(Cursor(t, 3, 1, 4, 3));
    assert map['(' := 1]['(' := 0] == map['(' := 0];
  }

  lemma NestedEnd()
    ensures NextToken(State(Cursor("(())", 4, 1, 5, 4), map['(' := 0])) ==
      Step(Ok(EOF), State(Cursor("(())", 4, 1, 5, 4), map['(' := 0]))
  {
  }

  /** A closer without its opener is an error that still consumes it, and
      the stream then ends. A closer of the other kind is no match. */
  lemma Misbalanced()
    ensures NextToken(New(")")) ==
      Step(Err(MisbalancedSymbol(')', '(')), State(Cursor(")", 1, 1, 2, 1), map[]))
    ensures NextToken(State(Cursor(")", 1, 1, 2, 1), map[])) ==
      Step(Ok(EOF), State(Cursor(")", 1, 1, 2, 1), map[]))
    ensures NextToken(State(Cursor("(]", 1, 1, 2, 1), map['(' := 1])) ==
      Step(Err(MisbalancedSymbol(']', '[')), State(Cursor("(]", 2, 1, 3, 2), map['(' := 1]))
  {
    UnopenedCloser();
    EndAfterCloser();
    OtherCloser();
  }

  lemma UnopenedCloser()
    ensures NextToken(New(")")) ==
      Step(Err(MisbalancedSymbol(')', '(')), State(Cursor(")", 1, 1, 2, 1), map[]))
  {
  }

  lemma EndAfterCloser()
    ensures NextToken(State(Cursor(")", 1, 1, 2, 1), map[])) ==
      Step(Ok(EOF), State(Cursor(")", 1, 1, 2, 1), map[]))
  {
  }

  lemma OtherCloser()
    ensures NextToken(State(Cursor("(]", 1, 1, 2, 1), map['(' := 1])) ==
      Step(Err(MisbalancedSymbol(']', '[')), State(Cursor("(]", 2, 1, 3, 2), map['(' := 1]))
  {
  }

  /** Braces are known to `map_balance` but not dispatched: they are unknown
      symbols, as is any other character. */
  lemma Unknown()
    ensures NextToken(New("{")) ==
      Step(Err(UnknownSymbol("{")), State(Cursor("{", 1, 1, 2, 1), map[]))
    ensures NextToken(New("@")) ==
      Step(Err(UnknownSymbol("@")), State(Cursor("@", 1, 1, 2, 1), map[]))
    ensures NextToken(State(Cursor("@", 1, 1, 2, 1), map[])) ==
      Step(Ok(EOF), State(Cursor("@", 1, 1, 2, 1), map[]))
    ensures NextToken(New("")) == Step(Ok(EOF), New(""))
  {
    UnknownBrace();
    UnknownAt();
    EndAfterUnknown();
    EmptyInput();
  }

  lemma UnknownBrace()
    ensures NextToken(New("{")) ==
      Step(Err(UnknownSymbol("{")), State(Cursor("{", 1, 1, 2, 1), map[]))
  {
  }

  lemma UnknownAt()
    ensures NextToken(New("@")) ==
      Step(Err(UnknownSymbol("@")), State(Cursor("@", 1, 1, 2, 1), map[]))
  {
  }

  lemma EndAfterUnknown()
    ensures NextToken(State(Cursor("@", 1, 1, 2, 1), map[])) ==
      Step(Ok(EOF), State(Cursor("@", 1, 1, 2, 1), map[]))
  {
  }

  lemma EmptyInput()
    ensures NextToken(New("")) == Step(Ok(EOF), New(""))
  {
  }

  // -----------------------------------------------------------------------
  // One step at a time: each lemma below unfolds one arm of the functions
  // of LexerSpec, so that a literal is followed character by character.

  /** `next_token` at a digit or '.': the outcome of `parse_number` from the
      cursor after that character, with the bracket counts untouched. */
  lemma NumberStep(s: State, c1: Cursor, ch: char, n: Scan)
    requires ConsumeChar(SkipWhitespace(s.cursor)) == (Some(ch), c1)
    requires '0' <= ch <= '9' || ch == '.'
    requires ParseNumber(c1, ch) == n
    ensures NoOverflowAhead(s)
    ensures NextToken(s) == Step(n.result, State(n.cursor, s.balance))
  {
  }

  /** `skip_whitespace` at a whitespace lookahead consumes it and goes on. */
  lemma SkipOne(c: Cursor, ch: char, c1: Cursor)
    requires c.next < |c.text| && c.text[c.next] == ch && IsWhitespace(ch)
    requires ConsumeChar(c).1 == c1
    ensures SkipWhitespace(c) == SkipWhitespace(c1)
  {
  }

  /** `skip_whitespace` stops at a lookahead that is not whitespace. */
  lemma SkipStops(c: Cursor)
    requires c.next < |c.text| && !IsWhitespace(c.text[c.next])
    ensures SkipWhitespace(c) == c
  {
  }

  /** The loop takes a first '.', or a digit, with `consume_char`. */
  lemma LoopTakes(c: Cursor, num: string, seenDot: bool, seenExp: bool,
                  c1: Cursor, num1: string, dot1: bool, r: Scan)
    requires c.next < |c.text|
    requires (c.text[c.next] == '.' && !seenDot && !seenExp && dot1)
          || ('0' <= c.text[c.next] <= '9' && dot1 == seenDot)
    requires ConsumeChar(c).1 == c1 && num1 == num + [c.text[c.next]]
    requires NumberLoop(c1, num1, dot1, seenExp) == r
    ensures NumberLoop(c, num, seenDot, seenExp) == r
  {
    DecimalDigits(c.text[c.next]);
  }

  /** The loop at a first exponent marker whose digit is there. */
  lemma LoopExponent(c: Cursor, num: string, seenDot: bool, e: string, c3: Cursor, r: Scan)
    requires c.next < |c.text| && (c.text[c.next] == 'e' || c.text[c.next] == 'E')
    requires ExponentArm(c, num) == (Ok(e), c3)
    requires NumberLoop(c3, e, seenDot, true) == r
    ensures NumberLoop(c, num, seenDot, false) == r
  {
  }

  /** The loop at a first exponent marker whose digit is missing. */
  lemma LoopExponentFails(c: Cursor, num: string, seenDot: bool, err: LexerError, c3: Cursor)
    requires c.next < |c.text| && (c.text[c.next] == 'e' || c.text[c.next] == 'E')
    requires ExponentArm(c, num) == (Err(err), c3)
    ensures NumberLoop(c, num, seenDot, false) == Scan(Err(err), c3)
  {
  }

  /** The loop ends at the end of the input, at a blank, or at a '.' that
      cannot extend the literal. */
  lemma LoopStops(c: Cursor, num: string, seenDot: bool, seenExp: bool)
    requires c.next <= |c.text|
    requires c.next < |c.text| ==>
      c.text[c.next] == ' ' || (c.text[c.next] == '.' && (seenDot || seenExp))
    ensures NumberLoop(c, num, seenDot, seenExp) == Scan(Ok(Numeric(num, HintOf(seenDot, seenExp))), c)
  {
  }

  /** The loop fails at a letter other than an exponent marker. */
  lemma LoopLetter(c: Cursor, num: string, seenDot: bool, seenExp: bool)
    requires c.next < |c.text| && IsAsciiAlphabetic(c.text[c.next])
    requires c.text[c.next] != 'e' && c.text[c.next] != 'E'
    ensures NumberLoop(c, num, seenDot, seenExp) ==
      Scan(Err(NumericLiteralInvalidChar(num + [c.text[c.next]])), c)
  {
    DecimalDigits(c.text[c.next]);
  }

  /** The exponent arm with its digit. */
  lemma ExponentTakes(c: Cursor, num: string, num2: string, c2: Cursor, num3: string, c3: Cursor)
    requires c.next < |c.text| && (c.text[c.next] == 'e' || c.text[c.next] == 'E')
    requires ExponentHead(c, num) == (num2, c2)
    requires c2.next < |c2.text| && '0' <= c2.text[c2.next] <= '9'
    requires num3 == num2 + [c2.text[c2.next]] && c3 == c2.(next := c2.next + 1)
    ensures ExponentArm(c, num) == (Ok(num3), c3)
  {
    DecimalDigits(c2.text[c2.next]);
  }

  /** `parse_number` from a digit is the loop from that digit. */
  lemma ParseFromDigit(c: Cursor, start: char, r: Scan)
    requires '0' <= start <= '9'
    requires NumberLoop(c, [start], false, false) == r
    ensures ParseNumber(c, start) == r
  {
  }

  /** `parse_number` from a '.' takes the next digit with `consume_digit`. */
  lemma ParseFromDot(c: Cursor, num: string, r: Scan)
    requires c.next < |c.text| && '0' <= c.text[c.next] <= '9'
    requires num == ['.', c.text[c.next]]
    requires NumberLoop(c.(next := c.next + 1), num, true, false) == r
    ensures ParseNumber(c, '.') == r
  {
    DecimalDigits(c.text[c.next]);
  }

  /** `parse_number` from a '.' that no digit follows. */
  lemma ParseDotFails(c: Cursor)
    requires c.next < |c.text| && !('0' <= c.text[c.next] <= '9')
    ensures ParseNumber(c, '.') == Scan(Err(NumericLiteralInvalidChar(".")), c.(next := c.next + 1))
  {
    DecimalDigits(c.text[c.next]);
  }

  // -----------------------------------------------------------------------
  // Numeric literals

  /** The blanks of " \t\n 7", one `consume_char` at a time. */
  lemma BlanksSkipped()
    ensures SkipWhitespace(Cursor(" \t\n 7", 0, 1, 1, 0)) == Cursor(" \t\n 7", 4, 2, 2, 4)
  {
    var t := " \t\n 7";
    var c0, c1, c2 := Cursor(t, 0, 1, 1, 0), Cursor(t, 1, 1, 2, 1), Cursor(t, 2, 1, 3, 2);
    var c3, c4 := Cursor(t, 3, 2, 1, 3), Cursor(t, 4, 2, 2, 4);
    assert t[0] == ' ' && t[1] == '\t' && t[2] == '\n' && t[3] == ' ' && t[4] == '7';
    SkipStops(c4);
    SkipOne(c3, ' ', c4);
    assert SkipWhitespace(c3) == c4;
    SkipOne(c2, '\n', c3);
    assert SkipWhitespace(c2) == c4;
    SkipOne(c1, '\t', c2);
    assert SkipWhitespace(c1) == c4;
    SkipOne(c0, ' ', c1);
  }

  /** Whitespace, line feeds included, is skipped and counted. */
  lemma WhitespaceCounted()
    ensures NextToken(New(" \t\n 7")) ==
      Step(Ok(Numeric("7", Integer)), State(Cursor(" \t\n 7", 5, 2, 3, 5), map[]))
  {
    var t := " \t\n 7";
    var c1 := Cursor(t, 5, 2, 3, 5);
    var r := Scan(Ok(Numeric("7", Integer)), c1);
    BlanksSkipped();
    LoopStops(c1, "7", false, false);
    ParseFromDigit(c1, '7', r);
    NumberStep(New(t), c1, '7', r);
  }

  /** The three literal forms of "2.2 2.2e92 .2", separated by blanks. */
  lemma ParseFraction()
    ensures ParseNumber(Cursor("2.2 2.2e92 .2", 1, 1, 2, 1), '2') ==
      Scan(Ok(Numeric("2.2", FloatingPoint)), Cursor("2.2 2.2e92 .2", 3, 1, 4, 3))
  {
    var t := "2.2 2.2e92 .2";
    var r := Scan(Ok(Numeric("2.2", FloatingPoint)), Cursor(t, 3, 1, 4, 3));
    assert t[1] == '.' && t[2] == '2' && t[3] == ' ';
    assert "2" + ['.'] == "2." && "2." + ['2'] == "2.2";
    LoopStops(Cursor(t, 3, 1, 4, 3), "2.2", true, false);
    LoopTakes(Cursor(t, 2, 1, 3, 2), "2.", true, false, Cursor(t, 3, 1, 4, 3), "2.2", true, r);
    LoopTakes(Cursor(t, 1, 1, 2, 1), "2", false, false, Cursor(t, 2, 1, 3, 2), "2.", true, r);
    ParseFromDigit(Cursor(t, 1, 1, 2, 1), '2', r);
  }

  lemma LiteralWithFraction()
    ensures NextToken(New("2.2 2.2e92 .2")) ==
      Step(Ok(Numeric("2.2", FloatingPoint)), State(Cursor("2.2 2.2e92 .2", 3, 1, 4, 3), map[]))
  {
    var t := "2.2 2.2e92 .2";
    ParseFraction();
    SkipStops(Cursor(t, 0, 1, 1, 0));
    NumberStep(New(t), Cursor(t, 1, 1, 2, 1), '2',
      Scan(Ok(Numeric("2.2", FloatingPoint)), Cursor(t, 3, 1, 4, 3)));
  }

  /** The exponent of "2.2e92": the marker is counted, its first digit is not. */
  lemma ExponentOfLiteral()
    ensures NumberLoop(Cursor("2.2 2.2e92 .2", 7, 1, 8, 7), "2.2", true, false) ==
      Scan(Ok(Numeric("2.2e92", FloatingPoint)), Cursor("2.2 2.2e92 .2", 10, 1, 10, 9))
  {
    var t := "2.2 2.2e92 .2";
    var r := Scan(Ok(Numeric("2.2e92", FloatingPoint)), Cursor(t, 10, 1, 10, 9));
    assert t[7] == 'e' && t[8] == '9' && t[9] == '2' && t[10] == ' ';
    assert "2.2" + ['e'] == "2.2e" && "2.2e" + ['9'] == "2.2e9" && "2.2e9" + ['2'] == "2.2e92";
    assert ExponentHead(Cursor(t, 7, 1, 8, 7), "2.2") == ("2.2e", Cursor(t, 8, 1, 9, 8));
    ExponentTakes(Cursor(t, 7, 1, 8, 7), "2.2", "2.2e", Cursor(t, 8, 1, 9, 8), "2.2e9", Cursor(t, 9, 1, 9, 8));
    LoopStops(Cursor(t, 10, 1, 10, 9), "2.2e92", true, true);
    LoopTakes(Cursor(t, 9, 1, 9, 8), "2.2e9", true, true, Cursor(t, 10, 1, 10, 9), "2.2e92", true, r);
    LoopExponent(Cursor(t, 7, 1, 8, 7), "2.2", true, "2.2e9", Cursor(t, 9, 1, 9, 8), r);
  }

  lemma ParseLiteralWithExponent()
    ensures ParseNumber(Cursor("2.2 2.2e92 .2", 5, 1, 6, 5), '2') ==
      Scan(Ok(Numeric("2.2e92", FloatingPoint)), Cursor("2.2 2.2e92 .2", 10, 1, 10, 9))
  {
    var t := "2.2 2.2e92 .2";
    var r := Scan(Ok(Numeric("2.2e92", FloatingPoint)), Cursor(t, 10, 1, 10, 9));
    assert t[5] == '.' && t[6] == '2';
    assert "2" + ['.'] == "2." && "2." + ['2'] == "2.2";
    ExponentOfLiteral();
    LoopTakes(Cursor(t, 6, 1, 7, 6), "2.", true, false, Cursor(t, 7, 1, 8, 7), "2.2", true, r);
    LoopTakes(Cursor(t, 5, 1, 6, 5), "2", false, false, Cursor(t, 6, 1, 7, 6), "2.", true, r);
    ParseFromDigit(Cursor(t, 5, 1, 6, 5), '2', r);
  }

  lemma LiteralWithExponent()
    ensures NextToken(State(Cursor("2.2 2.2e92 .2", 3, 1, 4, 3), map[])) ==
      Step(Ok(Numeric("2.2e92", FloatingPoint)), State(Cursor("2.2 2.2e92 .2", 10, 1, 10, 9), map[]))
  {
    var t := "2.2 2.2e92 .2";
    assert t[3] == ' ' && t[4] == '2';
    SkipOne(Cursor(t, 3, 1, 4, 3), ' ', Cursor(t, 4, 1, 5, 4));
    SkipStops(Cursor(t, 4, 1, 5, 4));
    ParseLiteralWithExponent();
    NumberStep(State(Cursor(t, 3, 1, 4, 3), map[]), Cursor(t, 5, 1, 6, 5), '2',
      Scan(Ok(Numeric("2.2e92", FloatingPoint)), Cursor(t, 10, 1, 10, 9)));
  }

  lemma ParseLeadingDot()
    ensures ParseNumber(Cursor("2.2 2.2e92 .2", 12, 1, 12, 11), '.') ==
      Scan(Ok(Numeric(".2", FloatingPoint)), Cursor("2.2 2.2e92 .2", 13, 1, 12, 11))
  {
    var t := "2.2 2.2e92 .2";
    assert t[12] == '2' && ['.', '2'] == ".2";
    LoopStops(Cursor(t, 13, 1, 12, 11), ".2", true, false);
    ParseFromDot(Cursor(t, 12, 1, 12, 11), ".2",
      Scan(Ok(Numeric(".2", FloatingPoint)), Cursor(t, 13, 1, 12, 11)));
  }

  lemma LiteralWithLeadingDot()
    ensures NextToken(State(Cursor("2.2 2.2e92 .2", 10, 1, 10, 9), map[])) ==
      Step(Ok(Numeric(".2", FloatingPoint)), State(Cursor("2.2 2.2e92 .2", 13, 1, 12, 11), map[]))
  {
    var t := "2.2 2.2e92 .2";
    assert t[10] == ' ' && t[11] == '.';
    SkipOne(Cursor(t, 10, 1, 10, 9), ' ', Cursor(t, 11, 1, 11, 10));
    SkipStops(Cursor(t, 11, 1, 11, 10));
    ParseLeadingDot();
    NumberStep(State(Cursor(t, 10, 1, 10, 9), map[]), Cursor(t, 12, 1, 12, 11), '.',
      Scan(Ok(Numeric(".2", FloatingPoint)), Cursor(t, 13, 1, 12, 11)));
  }

  lemma LiteralsEnd()
    ensures NextToken(State(Cursor("2.2 2.2e92 .2", 13, 1, 12, 11), map[])) ==
      Step(Ok(EOF), State(Cursor("2.2 2.2e92 .2", 13, 1, 12, 11), map[]))
  {
  }

  /** Digits alone make an `Integer` literal, and the stream then ends. */
  lemma IntegerLiteral()
    ensures NextToken(New("123")) ==
      Step(Ok(Numeric("123", Integer)), State(Cursor("123", 3, 1, 4, 3), map[]))
  {
    var t := "123";
    var r := Scan(Ok(Numeric("123", Integer)), Cursor(t, 3, 1, 4, 3));
    assert t[0] == '1' && t[1] == '2' && t[2] == '3';
    assert "1" + ['2'] == "12" && "12" + ['3'] == "123";
    LoopStops(Cursor(t, 3, 1, 4, 3), "123", false, false);
    LoopTakes(Cursor(t, 2, 1, 3, 2), "12", false, false, Cursor(t, 3, 1, 4, 3), "123", false, r);
    LoopTakes(Cursor(t, 1, 1, 2, 1), "1", false, false, Cursor(t, 2, 1, 3, 2), "12", false, r);
    ParseFromDigit(Cursor(t, 1, 1, 2, 1), '1', r);
    SkipStops(Cursor(t, 0, 1, 1, 0));
    NumberStep(New(t), Cursor(t, 1, 1, 2, 1), '1', r);
  }

  lemma IntegerLiteralEnd()
    ensures NextToken(State(Cursor("123", 3, 1, 4, 3), map[])) ==
      Step(Ok(EOF), State(Cursor("123", 3, 1, 4, 3), map[]))
  {
  }

  /** A second '.' ends the literal successfully and starts the next one. */
  lemma SecondDotEndsLiteral()
    ensures NextToken(New("1.2.3")) ==
      Step(Ok(Numeric("1.2", FloatingPoint)), State(Cursor("1.2.3", 3, 1, 4, 3), map[]))
  {
    var t := "1.2.3";
    var r := Scan(Ok(Numeric("1.2", FloatingPoint)), Cursor(t, 3, 1, 4, 3));
    assert t[0] == '1' && t[1] == '.' && t[2] == '2' && t[3] == '.';
    assert "1" + ['.'] == "1." && "1." + ['2'] == "1.2";
    LoopStops(Cursor(t, 3, 1, 4, 3), "1.2", true, false);
    LoopTakes(Cursor(t, 2, 1, 3, 2), "1.", true, false, Cursor(t, 3, 1, 4, 3), "1.2", true, r);
    LoopTakes(Cursor(t, 1, 1, 2, 1), "1", false, false, Cursor(t, 2, 1, 3, 2), "1.", true, r);
    ParseFromDigit(Cursor(t, 1, 1, 2, 1), '1', r);
    SkipStops(Cursor(t, 0, 1, 1, 0));
    NumberStep(New(t), Cursor(t, 1, 1, 2, 1), '1', r);
  }

  lemma SecondDotStartsLiteral()
    ensures NextToken(State(Cursor("1.2.3", 3, 1, 4, 3), map[])) ==
      Step(Ok(Numeric(".3", FloatingPoint)), State(Cursor("1.2.3", 5, 1, 5, 4), map[]))
  {
    var t := "1.2.3";
    var r := Scan(Ok(Numeric(".3", FloatingPoint)), Cursor(t, 5, 1, 5, 4));
    assert t[3] == '.' && t[4] == '3' && ['.', '3'] == ".3";
    LoopStops(Cursor(t, 5, 1, 5, 4), ".3", true, false);
    ParseFromDot(Cursor(t, 4, 1, 5, 4), ".3", r);
    SkipStops(Cursor(t, 3, 1, 4, 3));
    NumberStep(State(Cursor(t, 3, 1, 4, 3), map[]), Cursor(t, 4, 1, 5, 4), '.', r);
  }

  /** An exponent without its digit. */
  lemma MissingExponentDigit()
    ensures NextToken(New("1e")) ==
      Step(Err(NumericLiteralInvalidChar("1e")), State(Cursor("1e", 2, 1, 3, 2), map[]))
  {
    var t := "1e";
    var r := Scan(Err(NumericLiteralInvalidChar("1e")), Cursor(t, 2, 1, 3, 2));
    assert t[0] == '1' && t[1] == 'e' && "1" + ['e'] == "1e";
    assert ExponentArm(Cursor(t, 1, 1, 2, 1), "1") ==
      (Err(NumericLiteralInvalidChar("1e")), Cursor(t, 2, 1, 3, 2));
    LoopExponentFails(Cursor(t, 1, 1, 2, 1), "1", false, NumericLiteralInvalidChar("1e"), Cursor(t, 2, 1, 3, 2));
    ParseFromDigit(Cursor(t, 1, 1, 2, 1), '1', r);
    SkipStops(Cursor(t, 0, 1, 1, 0));
    NumberStep(New(t), Cursor(t, 1, 1, 2, 1), '1', r);
  }

  /** A letter after a literal goes into `raw` but is left in the input, to
      be read by the next call. */
  lemma LetterAfterLiteral()
    ensures NextToken(New("12a")) ==
      Step(Err(NumericLiteralInvalidChar("12a")), State(Cursor("12a", 2, 1, 3, 2), map[]))
  {
    var t := "12a";
    var r := Scan(Err(NumericLiteralInvalidChar("12a")), Cursor(t, 2, 1, 3, 2));
    assert t[0] == '1' && t[1] == '2' && t[2] == 'a';
    assert "1" + ['2'] == "12" && "12" + ['a'] == "12a";
    LoopLetter(Cursor(t, 2, 1, 3, 2), "12", false, false);
    LoopTakes(Cursor(t, 1, 1, 2, 1), "1", false, false, Cursor(t, 2, 1, 3, 2), "12", false, r);
    ParseFromDigit(Cursor(t, 1, 1, 2, 1), '1', r);
    SkipStops(Cursor(t, 0, 1, 1, 0));
    NumberStep(New(t), Cursor(t, 1, 1, 2, 1), '1', r);
  }

  lemma LetterReadNext()
    ensures NextToken(State(Cursor("12a", 2, 1, 3, 2), map[])) ==
      Step(Err(UnknownSymbol("a")), State(Cursor("12a", 3, 1, 4, 3), map[]))
  {
  }

  /** `consume_digit` takes characters without counting them: after ".5"
      the offset is one short of the two characters read. */
  lemma LeadingDotUncounted()
    ensures NextToken(New(".5")) ==
      Step(Ok(Numeric(".5", FloatingPoint)), State(Cursor(".5", 2, 1, 2, 1), map[]))
  {
    var t := ".5";
    var r := Scan(Ok(Numeric(".5", FloatingPoint)), Cursor(t, 2, 1, 2, 1));
    assert t[0] == '.' && t[1] == '5' && ['.', '5'] == ".5";
    LoopStops(Cursor(t, 2, 1, 2, 1), ".5", true, false);
    ParseFromDot(Cursor(t, 1, 1, 2, 1), ".5", r);
    SkipStops(Cursor(t, 0, 1, 1, 0));
    NumberStep(New(t), Cursor(t, 1, 1, 2, 1), '.', r);
  }

  /** The exponent arm on "1e+5": marker and sign counted, digit not. */
  lemma ExponentWithSign()
    ensures ExponentArm(Cursor("1e+5", 1, 1, 2, 1), "1") == (Ok("1e+5"), Cursor("1e+5", 4, 1, 4, 3))
  {
    var t := "1e+5";
    assert t[1] == 'e' && t[2] == '+' && t[3] == '5';
    assert "1" + ['e'] == "1e" && "1e" + ['+'] == "1e+" && "1e+" + ['5'] == "1e+5";
    assert ExponentHead(Cursor(t, 1, 1, 2, 1), "1") == ("1e+", Cursor(t, 3, 1, 4, 3));
    ExponentTakes(Cursor(t, 1, 1, 2, 1), "1", "1e+", Cursor(t, 3, 1, 4, 3), "1e+5", Cursor(t, 4, 1, 4, 3));
  }

  /** After "1e+5" the offset is one short: the first exponent digit. */
  lemma ExponentUncounted()
    ensures NextToken(New("1e+5")) ==
      Step(Ok(Numeric("1e+5", FloatingPoint)), State(Cursor("1e+5", 4, 1, 4, 3), map[]))
  {
    var t := "1e+5";
    var r := Scan(Ok(Numeric("1e+5", FloatingPoint)), Cursor(t, 4, 1, 4, 3));
    assert t[0] == '1' && t[1] == 'e';
    ExponentWithSign();
    LoopStops(Cursor(t, 4, 1, 4, 3), "1e+5", false, true);
    LoopExponent(Cursor(t, 1, 1, 2, 1), "1", false, "1e+5", Cursor(t, 4, 1, 4, 3), r);
    ParseFromDigit(Cursor(t, 1, 1, 2, 1), '1', r);
    SkipStops(Cursor(t, 0, 1, 1, 0));
    NumberStep(New(t), Cursor(t, 1, 1, 2, 1), '1', r);
  }

  /** A line feed taken by `consume_digit` after a lone '.' does not advance
      the line. */
  lemma NewlineUncounted()
    ensures NextToken(New(".\n")) ==
      Step(Err(NumericLiteralInvalidChar(".")), State(Cursor(".\n", 2, 1, 2, 1), map[]))
  {
    var t := ".\n";
    assert t[0] == '.' && t[1] == '\n';
    ParseDotFails(Cursor(t, 1, 1, 2, 1));
    SkipStops(Cursor(t, 0, 1, 1, 0));
    NumberStep(New(t), Cursor(t, 1, 1, 2, 1), '.',
      Scan(Err(NumericLiteralInvalidChar(".")), Cursor(t, 2, 1, 2, 1)));
  }
}
