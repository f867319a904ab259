/**
  Properties of `next_token` and the bracket counts: when the stream is
  exhausted and that it stays so, that every other token consumes input,
  what each lookahead character produces, that a closing bracket undoes the
  opening one (also across any run of successive calls), and how the
  position counters relate to the input read.
 */
module LexerProperties {
  import opened Tokens
  import opened CharClass
  import opened LexerSpec
  import opened NumberShape
  import opened NumberProperties
  import opened Positions

  // -----------------------------------------------------------------------
  // Bracket balance

  /** `map_balance` pairs each bracket with its partner and back. */
  lemma MapBalanceInvolution(c: char)
    requires IsBracket(c)
    ensures MapBalance(MapBalance(c)) == c
  {
  }

  /** Pushing an opener and then popping its closer returns the same depth
      for both and restores every count; only a previously absent key is
      left behind, holding 0. */
  lemma DepthRoundTrip(b: map<char, i32>, o: char)
    requires NonNegative(b) && IsOpener(o) && CanPush(b, o)
    ensures Pop(Push(b, o).1, MapBalance(o)).0 == Ok(Push(b, o).0)
    ensures forall k :: Count(Pop(Push(b, o).1, MapBalance(o)).1, k) == Count(b, k)
    ensures Pop(Push(b, o).1, MapBalance(o)).1 == if o in b then b else b[o := 0]
  {
    var closer := MapBalance(o);
    MapBalanceInvolution(o);
    assert MapBalance(closer) == o;
    var b1 := Push(b, o).1;
    assert Count(b1, o) == Count(b, o) + 1;
    var b2 := Pop(b1, closer).1;
    assert b2 == b1[o := Count(b, o)];
    if o in b {
      assert b2 == b;
    }
  }

  // -----------------------------------------------------------------------
  // End of input and progress

  /** `next_token` yields EOF exactly when nothing but whitespace is left. */
  lemma NextTokenEof(s: State)
    requires s.cursor.next <= |s.cursor.text| && NoOverflowAhead(s)
    ensures NextToken(s).result == Ok(EOF) <==>
      forall i :: s.cursor.next <= i < |s.cursor.text| ==> IsWhitespace(s.cursor.text[i])
  {
    var c := SkipWhitespace(s.cursor);
    if c.next < |c.text| {
      assert !IsWhitespace(s.cursor.text[c.next]);
    }
  }

  /** After EOF the whole input has been taken, the counts are untouched, and
      asking again yields EOF and changes nothing. */
  lemma EofIsFinal(s: State)
    requires s.cursor.next <= |s.cursor.text| && NoOverflowAhead(s)
    requires NextToken(s).result == Ok(EOF)
    ensures NextToken(s).state.cursor.next == |s.cursor.text|
    ensures NextToken(s).state.balance == s.balance
    ensures NoOverflowAhead(NextToken(s).state) && NextToken(NextToken(s).state) == NextToken(s)
  {
    var c := SkipWhitespace(s.cursor);
    var r := NextToken(s);
    assert c.next == |c.text|;
    assert r.state == s.(cursor := c);
    assert SkipWhitespace(c) == c;
  }

  /** Every result other than EOF, including every error, consumes at least
      the character it was dispatched on. */
  lemma NextTokenProgress(s: State)
    requires NoOverflowAhead(s)
    requires NextToken(s).result != Ok(EOF)
    ensures NextToken(s).state.cursor.next >= SkipWhitespace(s.cursor).next + 1
    ensures NextToken(s).state.cursor.next > s.cursor.next
  {
  }

  // -----------------------------------------------------------------------
  // Dispatch

  /** What `next_token` produces for each lookahead character: brackets
      update the counts, digits and '.' start a numeric literal, anything
      else is an unknown symbol. A bracket or an unknown symbol leaves the
      cursor just past that one character, counted by `consume_char`. */
  lemma NextTokenDispatch(s: State)
    requires Wf(s) && NoOverflowAhead(s) && Lookahead(s).Some?
    ensures var ch := Lookahead(s).value; var r := NextToken(s); var b := s.balance;
      (ch == '(' || ch == '[') ==>
        && r.result == Ok(Punctuation(ch, Open(Count(b, ch))))
        && r.state.balance == b[ch := Count(b, ch) + 1]
        && r.state.cursor == ConsumeChar(SkipWhitespace(s.cursor)).1
    ensures var ch := Lookahead(s).value; var r := NextToken(s); var b := s.balance;
      (ch == ')' || ch == ']') ==>
        var o := MapBalance(ch);
        && r.state.cursor == ConsumeChar(SkipWhitespace(s.cursor)).1
        && (Count(b, o) >= 1 ==>
              r.result == Ok(Punctuation(ch, Close(Count(b, o) - 1)))
              && r.state.balance == b[o := Count(b, o) - 1])
        && (Count(b, o) < 1 ==> r.result == Err(MisbalancedSymbol(ch, o)) && r.state.balance == b)
    ensures var ch := Lookahead(s).value; var r := NextToken(s);
      var p := SkipWhitespace(s.cursor).next + 1;
      ('0' <= ch <= '9' || ch == '.') ==>
        && r.state.balance == s.balance
        && p <= r.state.cursor.next <= |s.cursor.text|
        && NumberOutcome(s.cursor.text, p, [ch], Scan(r.result, r.state.cursor))
    ensures var ch := Lookahead(s).value; var r := NextToken(s);
      !(ch == '(' || ch == '[' || ch == ')' || ch == ']' || '0' <= ch <= '9' || ch == '.') ==>
        && r.result == Err(UnknownSymbol([ch]))
        && r.state.balance == s.balance
        && r.state.cursor == ConsumeChar(SkipWhitespace(s.cursor)).1
  {
    var ch := Lookahead(s).value;
    var c1 := ConsumeChar(SkipWhitespace(s.cursor)).1;
    if '0' <= ch <= '9' || ch == '.' {
      ParseNumberOutcome(c1, ch);
    } else if ch == ')' || ch == ']' {
      var o := MapBalance(ch);
      if o in s.balance && s.balance[o] >= 1 {
        assert NextToken(s).state.balance == s.balance[o := Count(s.balance, o) - 1];
      }
    }
  }

  // -----------------------------------------------------------------------
  // Bracket depths over successive calls

  /** The results of `k` successive `next_token` calls from `s`, cut short
      where the next call would overflow a count (a panic in the source). */
  function Lex(s: State, k: nat): seq<Step>
    decreases k
  {
    if k == 0 || !NoOverflowAhead(s) then [] else [NextToken(s)] + Lex(NextToken(s).state, k - 1)
  }

  /** The state those calls leave behind. */
  function After(s: State, k: nat): State
    decreases k
  {
    if k == 0 || !NoOverflowAhead(s) then s else After(NextToken(s).state, k - 1)
  }

  /** How one result moves the count kept for opener `o`: +1 for `Open` on
      `o`, -1 for `Close` on its partner, 0 for anything else. */
  function Effect(r: Result<TokenType>, o: char): int
    requires IsOpener(o)
  {
    if r.Ok? && r.value.Punctuation? && r.value.kind.Open? && r.value.punct == o then 1
    else if r.Ok? && r.value.Punctuation? && r.value.kind.Close? && r.value.punct == MapBalance(o) then -1
    else 0
  }

  /** Openers on `o` less closers on its partner among the results of `steps`. */
  function Net(steps: seq<Step>, o: char): int
    requires IsOpener(o)
  {
    if steps == [] then 0 else Effect(steps[0].result, o) + Net(steps[1..], o)
  }

  lemma {:induction false} NetAppend(a: seq<Step>, b: seq<Step>, o: char)
    requires IsOpener(o)
    ensures Net(a + b, o) == Net(a, o) + Net(b, o)
    decreases |a|
  {
    if a != [] {
      assert (a + b)[1..] == a[1..] + b;
      NetAppend(a[1..], b, o);
    } else {
      assert a + b == b;
    }
  }

  /** One call moves the count of every opener by the effect of its result;
      an `Open` on `o` reports the count before the call and a `Close` on its
      partner the count after. */
  lemma CountStep(s: State, o: char)
    requires Wf(s) && NoOverflowAhead(s) && IsOpener(o)
    ensures var r := NextToken(s);
      Count(r.state.balance, o) == Count(s.balance, o) + Effect(r.result, o)
    ensures var r := NextToken(s);
      (r.result.Ok? && r.result.value.Punctuation? && r.result.value.punct == o
       && r.result.value.kind.Open?) ==> r.result.value.kind.openDepth == Count(s.balance, o)
    ensures var r := NextToken(s);
      (r.result.Ok? && r.result.value.Punctuation? && r.result.value.punct == MapBalance(o)
       && r.result.value.kind.Close?) ==> r.result.value.kind.closeDepth == Count(r.state.balance, o)
  {
    if Lookahead(s).Some? {
      var ch := Lookahead(s).value;
      var c1 := ConsumeChar(SkipWhitespace(s.cursor)).1;
      assert NextToken(s) == TransformToType(State(c1, s.balance), ch);
      if ch == ')' || ch == ']' {
        MapBalanceInvolution(ch);
        MapBalanceInvolution(o);
      }
    }
  }

  /** Across `k` calls the count of each opener moves by exactly the openers
      on it less the closers on its partner: a run balanced for `o` restores
      its count. */
  lemma {:induction false} RunCounts(s: State, k: nat, o: char)
    requires Wf(s) && IsOpener(o)
    ensures Wf(After(s, k))
    ensures Count(After(s, k).balance, o) == Count(s.balance, o) + Net(Lex(s, k), o)
    decreases k
  {
    if k > 0 && NoOverflowAhead(s) {
      var s1 := NextToken(s).state;
      assert After(s, k) == After(s1, k - 1);
      assert Lex(s, k) == [NextToken(s)] + Lex(s1, k - 1);
      assert Net(Lex(s, k), o) == Effect(NextToken(s).result, o) + Net(Lex(s1, k - 1), o);
      CountStep(s, o);
      RunCounts(s1, k - 1, o);
    }
  }

  /** The `j`-th call of a run is made from the state the first `j` calls
      leave, and those calls are the run's first `j` results. */
  lemma {:induction false} LexAt(s: State, k: nat, j: nat)
    requires j < |Lex(s, k)|
    ensures NoOverflowAhead(After(s, j)) && Lex(s, k)[j] == NextToken(After(s, j))
    ensures Lex(s, k)[..j] == Lex(s, j)
    decreases j
  {
    var s1 := NextToken(s).state;
    if j > 0 {
      LexAt(s1, k - 1, j - 1);
      assert Lex(s, k)[..j] == [NextToken(s)] + Lex(s1, k - 1)[..j - 1];
    }
  }

  /** An `Open(d)` on `o` as the `i`-th result of a run reports the count
      at the start plus the net openers on `o` before it. */
  lemma OpenDepthAt(s: State, k: nat, o: char, i: nat, d: i32)
    requires Wf(s) && IsOpener(o) && i < |Lex(s, k)|
    requires Lex(s, k)[i].result == Ok(Punctuation(o, Open(d)))
    ensures d == Count(s.balance, o) + Net(Lex(s, k)[..i], o)
  {
    LexAt(s, k, i);
    RunCounts(s, i, o);
    CountStep(After(s, i), o);
  }

  /** A `Close(d)` on the partner of `o` as the `j`-th result of a run
      reports the count at the start plus the net openers on `o` up to and
      including it. */
  lemma CloseDepthAt(s: State, k: nat, o: char, j: nat, d: i32)
    requires Wf(s) && IsOpener(o) && j < |Lex(s, k)|
    requires Lex(s, k)[j].result == Ok(Punctuation(MapBalance(o), Close(d)))
    ensures d == Count(s.balance, o) + Net(Lex(s, k)[..j + 1], o)
  {
    LexAt(s, k, j);
    RunCounts(s, j, o);
    CountStep(After(s, j), o);
    NetSnoc(Lex(s, k), o, j);
  }

  lemma NetSnoc(steps: seq<Step>, o: char, j: nat)
    requires IsOpener(o) && j < |steps|
    ensures Net(steps[..j + 1], o) == Net(steps[..j], o) + Effect(steps[j].result, o)
  {
    assert steps[..j + 1] == steps[..j] + [steps[j]];
    NetAppend(steps[..j], [steps[j]], o);
  }

  /** In any run of calls, an `Open(d1)` on `o` and a later `Close(d2)` on
      its partner, with as many openers on `o` as closers on its partner in
      between, report the same depth. */
  lemma PairDepths(s: State, k: nat, o: char, i: nat, j: nat, d1: i32, d2: i32)
    requires Wf(s) && IsOpener(o)
    requires i < j < |Lex(s, k)|
    requires Lex(s, k)[i].result == Ok(Punctuation(o, Open(d1)))
    requires Lex(s, k)[j].result == Ok(Punctuation(MapBalance(o), Close(d2)))
    requires Net(Lex(s, k)[i + 1..j], o) == 0
    ensures d1 == d2
  {
    OpenDepthAt(s, k, o, i, d1);
    CloseDepthAt(s, k, o, j, d2);
    NetAround(Lex(s, k), o, i, j);
  }

  /** The net count up to and including `j` splits around `i`. */
  lemma NetAround(steps: seq<Step>, o: char, i: nat, j: nat)
    requires IsOpener(o) && i < j < |steps|
    ensures Net(steps[..j + 1], o) ==
      Net(steps[..i], o) + Effect(steps[i].result, o) + Net(steps[i + 1..j], o) + Effect(steps[j].result, o)
  {
    assert steps[..j + 1] == (steps[..i] + [steps[i]]) + (steps[i + 1..j] + [steps[j]]);
    NetAppend(steps[..i] + [steps[i]], steps[i + 1..j] + [steps[j]], o);
    NetAppend(steps[..i], [steps[i]], o);
    NetAppend(steps[i + 1..j], [steps[j]], o);
    assert Net([steps[i]], o) == Effect(steps[i].result, o);
    assert Net([steps[j]], o) == Effect(steps[j].result, o);
  }

  // -----------------------------------------------------------------------
  // Position counters

  /** A successful literal takes no line feed. */
  lemma NoNewlineTaken(c: Cursor, start: char)
    requires c.next <= |c.text|
    requires '0' <= start <= '9' || start == '.'
    requires ParseNumber(c, start).result.Ok?
    ensures ParseNumber(c, start).cursor.next <= |c.text|
    ensures '\n' !in c.text[c.next..ParseNumber(c, start).cursor.next]
  {
    var r := ParseNumber(c, start);
    var raw := r.result.value.raw;
    ParseNumberOutcome(c, start);
    LiveChars(raw);
    var taken := c.text[c.next..r.cursor.next];
    assert raw == [start] + taken;
    forall i | 0 <= i < |taken| ensures taken[i] != '\n' {
      assert taken[i] == raw[i + 1];
    }
  }

  /** A successful literal taken from a synchronised cursor: the line is
      still right, the offset and the column fall behind by the characters
      `consume_digit` took. */
  lemma NumericPositions(c: Cursor, start: char)
    requires c.next <= |c.text| && InSync(c)
    requires '0' <= start <= '9' || start == '.'
    requires ParseNumber(c, start).result.Ok?
    ensures var r := ParseNumber(c, start).cursor; var raw := ParseNumber(c, start).result.value.raw;
      && r.next <= |r.text|
      && r.line == 1 + Newlines(r.text[..r.next])
      && r.offset + Bypassed(raw) == r.next
      && r.col + Bypassed(raw) == Column(r.text[..r.next])
  {
    var p := ParseNumber(c, start);
    ParseNumberCounters(c, start);
    NoNewlineTaken(c, start);
    LagBehind(c, p.cursor, p.cursor.next, Bypassed(p.result.value.raw), 0);
  }

  /** Counters that were in sync, then moved over the text up to `e`, which
      holds no line feed, by `k` less and `pending` more than its length,
      lag the text up to `e` by the same amounts. */
  lemma LagBehind(c: Cursor, r: Cursor, e: nat, k: nat, pending: nat)
    requires c.next <= e <= |c.text| && InSync(c)
    requires r.line == c.line
    requires r.offset + k == c.offset + (e - c.next) + pending
    requires r.col + k == c.col + (e - c.next) + pending
    requires '\n' !in c.text[c.next..e]
    ensures r.line == 1 + Newlines(c.text[..e])
    ensures r.offset + k == e + pending && r.col + k == Column(c.text[..e]) + pending
  {
    var text := c.text;
    ReadWithoutNewline(text[..c.next], text[c.next..e]);
    PrefixSplit(text, c.next, e);
  }

  /** The position facts of `transform_to_type` from a synchronised cursor. */
  ghost predicate PositionsAfter(r: Step)
    requires r.state.cursor.next <= |r.state.cursor.text|
  {
    var c := r.state.cursor;
    && ((!(r.result.Ok? && r.result.value.Numeric?)
         && !(r.result.Err? && r.result.error.NumericLiteralInvalidChar?)) ==> InSync(c))
    && (r.result.Ok? && r.result.value.Numeric? ==>
          var raw := r.result.value.raw;
          && c.line == 1 + Newlines(c.text[..c.next])
          && c.offset + Bypassed(raw) == c.next
          && c.col + Bypassed(raw) == Column(c.text[..c.next])
          && (Bypassed(raw) == 0 ==> InSync(c)))
  }

  lemma TransformPositions(s: State, ch: char)
    requires Wf(s) && InSync(s.cursor)
    requires (ch == '(' || ch == '[') ==> CanPush(s.balance, ch)
    ensures TransformToType(s, ch).state.cursor.next <= |s.cursor.text|
    ensures PositionsAfter(TransformToType(s, ch))
  {
    if '0' <= ch <= '9' || ch == '.' {
      ParseNumberOutcome(s.cursor, ch);
      if ParseNumber(s.cursor, ch).result.Ok? {
        NumericPositions(s.cursor, ch);
      }
    }
  }

  /** `next_token` from counters that agree with the input read: they still
      agree after a bracket or an unknown symbol, and after a numeric
      literal the line agrees while the offset and the column lag by the
      characters taken with `consume_digit`, so they agree exactly when the
      literal has neither a leading '.' nor an exponent. */
  lemma NextTokenPositions(s: State)
    requires Wf(s) && NoOverflowAhead(s) && InSync(s.cursor)
    ensures NextToken(s).state.cursor.next <= |s.cursor.text|
    ensures PositionsAfter(NextToken(s))
  {
    var c0 := SkipWhitespace(s.cursor);
    SkipWhitespaceInSync(s.cursor);
    if c0.next < |c0.text| {
      ConsumeCharInSync(c0);
      TransformPositions(State(ConsumeChar(c0).1, s.balance), c0.text[c0.next]);
    }
  }

  /** The counters after a numeric literal started at index `b` failed
      with `raw`: they agree with the text up to `e`, which is where the
      scan stopped, or one before it when a character taken in place of a
      missing digit was dropped; they lag that text by the characters
      `consume_digit` took or was to take, as `Bypassed` counts them, except
      that when `raw` ends awaiting a digit that never came, that digit's
      place is not counted. */
  ghost predicate FailedPositions(text: string, b: nat, r: Scan)
    requires r.cursor.next <= |text|
    requires r.result.Err? && r.result.error.NumericLiteralInvalidChar?
  {
    var c := r.cursor;
    var q := c.next;
    var raw := r.result.error.raw;
    var e := if b + |raw| < q then b + |raw| else q;
    && b < e <= q && (e == q || e + 1 == q)
    && (raw == text[b..e] || (e < |text| && raw == text[b..e] + [text[e]]))
    && c.line == 1 + Newlines(text[..e])
    && c.offset + Bypassed(text[b..e]) == e + (if raw == text[b..e] then 1 else 0)
    && c.col + Bypassed(text[b..e]) == Column(text[..e]) + (if raw == text[b..e] then 1 else 0)
  }

  /** `next_token` from counters that agree with the input read, when the
      numeric literal at index `b` fails. */
  lemma NextTokenFailurePositions(s: State)
    requires Wf(s) && NoOverflowAhead(s) && InSync(s.cursor)
    requires NextToken(s).result.Err? && NextToken(s).result.error.NumericLiteralInvalidChar?
    ensures NextToken(s).state.cursor.next <= |s.cursor.text|
    ensures FailedPositions(s.cursor.text, SkipWhitespace(s.cursor).next,
                            Scan(NextToken(s).result, NextToken(s).state.cursor))
  {
    var text := s.cursor.text;
    var c0 := SkipWhitespace(s.cursor);
    SkipWhitespaceInSync(s.cursor);
    ConsumeCharInSync(c0);
    var c1 := ConsumeChar(c0).1;
    var start := text[c0.next];
    assert '0' <= start <= '9' || start == '.';
    assert Scan(NextToken(s).result, NextToken(s).state.cursor) == ParseNumber(c1, start);
    ParseFailurePositions(c1, start, c0.next);
  }

  /** `parse_number` failed from a synchronised cursor `c1` just after the
      start character at index `b`. */
  lemma ParseFailurePositions(c1: Cursor, start: char, b: nat)
    requires c1.next == b + 1 <= |c1.text| && c1.text[b] == start && InSync(c1)
    requires '0' <= start <= '9' || start == '.'
    requires ParseNumber(c1, start).result.Err?
    ensures ParseNumber(c1, start).result.error.NumericLiteralInvalidChar?
    ensures ParseNumber(c1, start).cursor.next <= |c1.text|
    ensures FailedPositions(c1.text, b, ParseNumber(c1, start))
  {
    var r := ParseNumber(c1, start);
    ParseNumberFailureCounters(c1, start);
    ParseNumberOutcome(c1, start);
    ScanFailurePositions(c1, start, r, b);
  }

  /** The same for any failed scan that fits the failure forms. */
  lemma ScanFailurePositions(c1: Cursor, start: char, r: Scan, b: nat)
    requires c1.next == b + 1 <= |c1.text| && c1.text[b] == start && InSync(c1)
    requires c1.next <= r.cursor.next <= |c1.text| && r.cursor.line == c1.line
    requires r.result.Err? && r.result.error.NumericLiteralInvalidChar?
    requires FailureCounted(c1, start, r)
    requires NumberOutcome(c1.text, c1.next, [start], r)
    ensures FailedPositions(c1.text, b, r)
  {
    var e := FailedEnd(c1, start, r, b);
    FailedLive(c1.text, c1.next, r.cursor.next, e, start, r.result.error.raw);
    FailedLiteralCounted(c1, start, r, b, e);
  }

  /** A failed literal started at index `b`, from a synchronised cursor
      `c1` just after its start character, whose counted part ends at `e`
      and holds no line feed. */
  lemma FailedLiteralCounted(c1: Cursor, start: char, r: Scan, b: nat, e: nat)
    requires c1.next == b + 1 <= |c1.text| && c1.text[b] == start && InSync(c1)
    requires c1.next <= r.cursor.next <= |c1.text| && r.cursor.line == c1.line
    requires r.result.Err? && r.result.error.NumericLiteralInvalidChar?
    requires var text := c1.text; var q := r.cursor.next; var raw := r.result.error.raw;
      && e == (if b + |raw| < q then b + |raw| else q)
      && c1.next <= e <= q && (e == q || c1.next <= e == q - 1)
      && (raw == [start] + text[c1.next..e] || (e == q < |text| && raw == [start] + text[c1.next..e] + [text[e]]))
      && LagFrom(c1, r.cursor, start, e, if raw == [start] + text[c1.next..e] then 1 else 0)
      && '\n' !in text[c1.next..e]
    ensures FailedPositions(c1.text, b, r)
  {
    var text := c1.text;
    var raw := r.result.error.raw;
    var lexeme := [start] + text[c1.next..e];
    assert lexeme == text[b..e] by {
      assert text[b..e] == [text[b]] + text[c1.next..e];
    }
    var pending := if raw == lexeme then 1 else 0;
    var k := Bypassed(lexeme);
    assert r.cursor.offset + k == c1.offset + (e - c1.next) + pending;
    assert r.cursor.col + k == c1.col + (e - c1.next) + pending;
    LagBehind(c1, r.cursor, e, k, pending);
  }

  /** The end of the counted part, from the failure forms. */
  lemma FailedEnd(c1: Cursor, start: char, r: Scan, b: nat) returns (e: nat)
    requires c1.next == b + 1 <= |c1.text|
    requires c1.next <= r.cursor.next <= |c1.text|
    requires r.result.Err? && r.result.error.NumericLiteralInvalidChar?
    requires FailureCounted(c1, start, r)
    ensures var text := c1.text; var q := r.cursor.next; var raw := r.result.error.raw;
      && e == (if b + |raw| < q then b + |raw| else q)
      && c1.next <= e <= q && (e == q || c1.next <= e == q - 1)
      && (raw == [start] + text[c1.next..e] || (e == q < |text| && raw == [start] + text[c1.next..e] + [text[e]]))
      && LagFrom(c1, r.cursor, start, e, if raw == [start] + text[c1.next..e] then 1 else 0)
  {
    var text := c1.text;
    var q := r.cursor.next;
    var raw := r.result.error.raw;
    var p := c1.next;
    if p < q && raw == [start] + text[p..q - 1] && LagFrom(c1, r.cursor, start, q - 1, 1) {
      e := q - 1;
    } else {
      e := q;
      if raw != [start] + text[p..q] {
        assert raw == [start] + text[p..q] + [text[q]];
        assert |raw| == |[start] + text[p..q]| + 1;
      }
    }
  }

  /** The counted part of a failed literal is read by the automaton without
      rejection, so it holds no line feed. */
  lemma FailedLive(text: string, p: nat, q: nat, e: nat, start: char, raw: string)
    requires p <= e <= q <= |text| && (e == q || e == q - 1)
    requires MissingDigit(text, p, q, [start], raw) || LetterRejected(text, p, q, [start], raw)
    requires raw == [start] + text[p..e] || (e == q < |text| && raw == [start] + text[p..e] + [text[e]])
    ensures '\n' !in text[p..e]
  {
    var lexeme := [start] + text[p..e];
    if raw == lexeme {
      assert !LetterRejected(text, p, q, [start], raw);
      LiveChars(raw);
    } else {
      assert LetterRejected(text, p, q, [start], raw);
      assert lexeme == [start] + text[p..q];
      LiveChars(lexeme);
    }
    forall i | p <= i < e ensures text[i] != '\n' {
      assert text[i] == lexeme[i - p + 1];
    }
  }
}
