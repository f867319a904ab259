/**
  The lexer of unitecore/src/lexer/lexer.rs as pure step functions over a
  snapshot of the lexer's state. Each function here is the specification
  of one method of the `Lexer` class (module Lexing): the class mutates its
  fields, these functions map an old snapshot to the new one.

  `Peekable<Chars>` is modelled by the input text and the index of the next
  character; `HashMap<char, i32>` by a Dafny map.
 */
module LexerSpec {
  import opened Tokens
  import opened CharClass

  /** The radix `parse_number` works in. */
  const Radix: nat := 10

  /** The character cursor with the public position counters
      `cur_line`, `cur_col` and `codepoint_offset`. */
  datatype Cursor = Cursor(text: string, next: nat, line: nat, col: nat, offset: nat)

  /** A snapshot of the whole lexer: cursor and `balancing_state`. */
  datatype State = State(cursor: Cursor, balance: map<char, i32>)

  /** The outcome of `parse_number`: its result and the cursor afterwards. */
  datatype Scan = Scan(result: Result<TokenType>, cursor: Cursor)

  /** The outcome of `next_token` / `transform_to_type`. */
  datatype Step = Step(result: Result<TokenType>, state: State)

  /** The cursor lies within its text, lines and columns are 1-based, and
      the offset never runs ahead of the characters taken. */
  predicate CursorWf(c: Cursor) {
    c.next <= |c.text| && c.line >= 1 && c.col >= 1 && c.offset <= c.next
  }

  /** No bracket count is negative. */
  predicate NonNegative(b: map<char, i32>) {
    forall k :: k in b ==> b[k] >= 0
  }

  predicate Wf(s: State) {
    CursorWf(s.cursor) && NonNegative(s.balance)
  }

  /** The count held for `k`, an absent key counting as 0. */
  function Count(b: map<char, i32>, k: char): i32 {
    if k in b then b[k] else 0
  }

  /** `Lexer::new`. */
  function New(text: string): (s: State)
    ensures Wf(s)
  {
    State(Cursor(text, 0, 1, 1, 0), map[])
  }

  // ---------------------------------------------------------------------
  // Bracket balance

  predicate IsOpener(c: char) { c == '(' || c == '[' || c == '{' }

  predicate IsCloser(c: char) { c == ')' || c == ']' || c == '}' }

  predicate IsBracket(c: char) { IsOpener(c) || IsCloser(c) }

  /** `map_balance`: the partner of a bracket. The source panics on any
      other character, hence the precondition. */
  function MapBalance(c: char): (m: char)
    requires IsBracket(c)
    ensures IsBracket(m) && m != c
    ensures IsOpener(c) <==> IsCloser(m)
  {
    match c
    case '}' => '{'
    case '{' => '}'
    case ']' => '['
    case '[' => ']'
    case ')' => '('
    case '(' => ')'
  }

  /** Incrementing a count must not overflow `i32` (a panic in the source). */
  predicate CanPush(b: map<char, i32>, c: char) {
    Count(b, c) < I32_MAX
  }

  /** `push_symbol`: the depth returned and the new map. */
  function Push(b: map<char, i32>, c: char): (r: (i32, map<char, i32>))
    requires CanPush(b, c)
    ensures r.0 == Count(b, c)
    ensures c in r.1 && r.1[c] == Count(b, c) + 1
    ensures forall k :: k != c ==> (k in r.1 <==> k in b) && Count(r.1, k) == Count(b, k)
    ensures NonNegative(b) ==> NonNegative(r.1)
  {
    if c in b then (b[c], b[c := b[c] + 1]) else (0, b[c := 1])
  }

  /** `pop_symbol`: the depth returned (or the error) and the new map. */
  function Pop(b: map<char, i32>, c: char): (r: (Result<i32>, map<char, i32>))
    requires IsBracket(c)
    ensures r.0.Ok? <==> Count(b, MapBalance(c)) >= 1
    ensures r.0.Ok? ==> r.0.value == Count(b, MapBalance(c)) - 1
                        && r.1 == b[MapBalance(c) := r.0.value]
    ensures r.0.Err? ==> r.0.error == MisbalancedSymbol(c, MapBalance(c)) && r.1 == b
    ensures NonNegative(b) ==> NonNegative(r.1)
  {
    var o := MapBalance(c);
    if o in b then
      if b[o] >= 1 then (Ok(b[o] - 1), b[o := b[o] - 1])
      else (Err(MisbalancedSymbol(c, o)), b)
    else (Err(MisbalancedSymbol(c, o)), b)
  }

  // ---------------------------------------------------------------------
  // Character cursor

  /** `Peekable::peek`. */
  function Peek(c: Cursor): Option<char> {
    if c.next < |c.text| then Some(c.text[c.next]) else None
  }

  /** `consume_char`: take the next character and update the counters. */
  function ConsumeChar(c: Cursor): (r: (Option<char>, Cursor))
    ensures r.0 == Peek(c) && r.1.text == c.text
    ensures r.0.None? ==> r.1 == c
    ensures r.0.Some? ==> r.1.next == c.next + 1 && r.1.offset == c.offset + 1
    ensures r.0.Some? ==> r.1.line == (if r.0.value == '\n' then c.line + 1 else c.line)
    ensures r.0.Some? ==> r.1.col == (if r.0.value == '\n' then 1 else c.col + 1)
    ensures CursorWf(c) ==> CursorWf(r.1)
  {
    if c.next < |c.text| then
      var ch := c.text[c.next];
      var col := c.col + 1;
      var (line, col) := if ch == '\n' then (c.line + 1, 1) else (c.line, col);
      (Some(ch), Cursor(c.text, c.next + 1, line, col, c.offset + 1))
    else
      (None, c)
  }

  /** `skip_whitespace`: consume characters while the lookahead is whitespace. */
  function SkipWhitespace(c: Cursor): (r: Cursor)
    decreases |c.text| - c.next
    ensures r.text == c.text && c.next <= r.next
    ensures c.next <= |c.text| ==> r.next <= |c.text|
    ensures |c.text| <= c.next ==> r == c
    ensures c.line <= r.line && c.offset + (r.next - c.next) == r.offset
    ensures forall i :: c.next <= i < r.next ==> IsWhitespace(c.text[i])
    ensures r.next < |r.text| ==> !IsWhitespace(r.text[r.next])
    ensures CursorWf(c) ==> CursorWf(r)
  {
    match Peek(c)
    case None => c
    case Some(ch) => if !IsWhitespace(ch) then c else SkipWhitespace(ConsumeChar(c).1)
  }

  // ---------------------------------------------------------------------
  // Numeric literals

  /** `consume_digit`: takes the next character straight from the iterator,
      so the position counters do not move, and takes it even when it is not
      a digit. */
  function ConsumeDigit(c: Cursor, raw: string, forRadix: nat): (r: (Result<char>, Cursor))
    requires forRadix <= 36
    ensures r.1.text == c.text && r.1.line == c.line && r.1.col == c.col && r.1.offset == c.offset
    ensures r.1.next == if c.next < |c.text| then c.next + 1 else c.next
    ensures r.0.Ok? <==> c.next < |c.text| && IsDigit(c.text[c.next], forRadix)
    ensures r.0.Ok? ==> r.0.value == c.text[c.next]
    ensures r.0.Err? ==> r.0.error == NumericLiteralInvalidChar(raw)
  {
    if c.next < |c.text| then
      var ch := c.text[c.next];
      if !IsDigit(ch, forRadix) then (Err(NumericLiteralInvalidChar(raw)), c.(next := c.next + 1))
      else (Ok(ch), c.(next := c.next + 1))
    else
      (Err(NumericLiteralInvalidChar(raw)), c)
  }

  function HintOf(seenDot: bool, seenExp: bool): NumericHint {
    if seenDot || seenExp then FloatingPoint else Integer
  }

  /** The start of the exponent arm of the `parse_number` loop, at the
      marker: take the marker and an optional sign with `consume_char`,
      appending them to the lexeme. */
  function ExponentHead(c: Cursor, num: string): (r: (string, Cursor))
    requires c.next < |c.text| && (c.text[c.next] == 'e' || c.text[c.next] == 'E')
    ensures r.1.text == c.text && c.next < r.1.next <= |c.text| && r.1.line == c.line
    ensures r.1.next == c.next +
      (if c.next + 1 < |c.text| && (c.text[c.next + 1] == '+' || c.text[c.next + 1] == '-') then 2 else 1)
    ensures r.0 == num + c.text[c.next..r.1.next]
    ensures r.1.offset == c.offset + (r.1.next - c.next) && r.1.col == c.col + (r.1.next - c.next)
    ensures CursorWf(c) ==> CursorWf(r.1)
  {
    var ch := c.text[c.next];
    var c1 := ConsumeChar(c).1;
    var num1 := num + [ch];
    if c1.next < |c1.text| && (c1.text[c1.next] == '+' || c1.text[c1.next] == '-') then
      var sign := c1.text[c1.next];
      assert c.text[c.next..c.next + 2] == [ch, sign];
      (num1 + [sign], ConsumeChar(c1).1)
    else
      assert c.text[c.next..c.next + 1] == [ch];
      (num1, c1)
  }

  /** The exponent arm of the `parse_number` loop: marker and optional sign,
      then one digit taken with `consume_digit`. */
  function ExponentArm(c: Cursor, num: string): (r: (Result<string>, Cursor))
    requires c.next < |c.text| && (c.text[c.next] == 'e' || c.text[c.next] == 'E')
    ensures r.1.text == c.text && c.next < r.1.next <= |c.text| && r.1.line == c.line
    ensures c.offset < r.1.offset
    ensures CursorWf(c) ==> CursorWf(r.1)
  {
    var (num2, c2) := ExponentHead(c, num);
    var (d, c3) := ConsumeDigit(c2, num2, 10);
    if d.Err? then (Err(d.error), c3) else (Ok(num2 + [d.value]), c3)
  }

  /** The `loop` of `parse_number`, from the lexeme `num` so far. */
  function NumberLoop(c: Cursor, num: string, seenDot: bool, seenExp: bool): (r: Scan)
    decreases |c.text| - c.next
    ensures r.cursor.text == c.text && c.next <= r.cursor.next && r.cursor.line == c.line
    ensures c.next <= |c.text| ==> r.cursor.next <= |c.text|
    ensures c.offset <= r.cursor.offset
    ensures CursorWf(c) ==> CursorWf(r.cursor)
    ensures r.result.Ok? ==> r.result.value.Numeric?
  {
    if c.next >= |c.text| then
      Scan(Ok(Numeric(num, HintOf(seenDot, seenExp))), c)
    else
      var ch := c.text[c.next];
      if ch == '.' && !seenDot && !seenExp then
        NumberLoop(ConsumeChar(c).1, num + [ch], true, seenExp)
      else if (ch == 'e' || ch == 'E') && !seenExp then
        var (e, c3) := ExponentArm(c, num);
        if e.Err? then Scan(Err(e.error), c3)
        else NumberLoop(c3, e.value, seenDot, true)
      else if IsDigit(ch, Radix) then
        NumberLoop(ConsumeChar(c).1, num + [ch], seenDot, seenExp)
      else if IsAsciiAlphabetic(ch) || IsDigit(ch, 10) then
        Scan(Err(NumericLiteralInvalidChar(num + [ch])), c)
      else
        Scan(Ok(Numeric(num, HintOf(seenDot, seenExp))), c)
  }

  /** `parse_number`, called after `start` was consumed. */
  function ParseNumber(c: Cursor, start: char): (r: Scan)
    ensures r.cursor.text == c.text && c.next <= r.cursor.next && r.cursor.line == c.line
    ensures c.next <= |c.text| ==> r.cursor.next <= |c.text|
    ensures c.offset <= r.cursor.offset
    ensures CursorWf(c) ==> CursorWf(r.cursor)
    ensures r.result.Ok? ==> r.result.value.Numeric?
  {
    if start == '.' then
      var (d, c1) := ConsumeDigit(c, [start], 10);
      if d.Err? then Scan(Err(d.error), c1)
      else NumberLoop(c1, [start, d.value], true, false)
    else
      NumberLoop(c, [start], false, false)
  }

  // ---------------------------------------------------------------------
  // Tokens

  /** `transform_to_type`: dispatch on the consumed character `ch`. */
  function TransformToType(s: State, ch: char): (r: Step)
    requires (ch == '(' || ch == '[') ==> CanPush(s.balance, ch)
    ensures r.state.cursor.text == s.cursor.text && s.cursor.next <= r.state.cursor.next
    ensures s.cursor.line <= r.state.cursor.line && s.cursor.offset <= r.state.cursor.offset
    ensures Wf(s) ==> Wf(r.state)
    ensures r.result != Ok(EOF)
  {
    if ch == '(' || ch == '[' then
      var (d, b) := Push(s.balance, ch);
      Step(Ok(Punctuation(ch, Open(d))), s.(balance := b))
    else if ch == ')' || ch == ']' then
      var (p, b) := Pop(s.balance, ch);
      match p
      case Ok(d) => Step(Ok(Punctuation(ch, Close(d))), s.(balance := b))
      case Err(e) => Step(Err(e), s.(balance := b))
    else if '0' <= ch <= '9' || ch == '.' then
      var n := ParseNumber(s.cursor, ch);
      Step(n.result, s.(cursor := n.cursor))
    else
      Step(Err(UnknownSymbol([ch])), s)
  }

  /** The first character `next_token` will dispatch on, if any. */
  function Lookahead(s: State): Option<char> {
    Peek(SkipWhitespace(s.cursor))
  }

  /** `next_token` cannot overflow a bracket count: the source would panic. */
  predicate NoOverflowAhead(s: State) {
    var la := Lookahead(s);
    la.Some? && (la.value == '(' || la.value == '[') ==> CanPush(s.balance, la.value)
  }

  /** `next_token`. */
  function NextToken(s: State): (r: Step)
    requires NoOverflowAhead(s)
    ensures r.state.cursor.text == s.cursor.text && s.cursor.next <= r.state.cursor.next
    ensures s.cursor.line <= r.state.cursor.line && s.cursor.offset <= r.state.cursor.offset
    ensures Wf(s) ==> Wf(r.state)
  {
    var c := SkipWhitespace(s.cursor);
    var (o, c') := ConsumeChar(c);
    match o
    case None => Step(Ok(EOF), s.(cursor := c'))
    case Some(ch) => TransformToType(State(c', s.balance), ch)
  }
}
