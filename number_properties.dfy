/**
  What `parse_number` does, stated against the reference automaton of
  module NumberShape: on success the lexeme is the start character followed
  by exactly the characters taken, it is a complete decimal lexeme that the
  next character cannot extend, and its hint says whether it holds a '.' or
  an exponent; on failure the error is one of the three
  `NumericLiteralInvalidChar` forms of the source. These outcomes admit one
  scan only, so they specify `parse_number` completely.
 */
module NumberProperties {
  import opened Tokens
  import opened CharClass
  import opened LexerSpec
  import opened NumberShape
  import opened Positions

  /** The automaton phase at the head of the `parse_number` loop. */
  function LoopPhase(seenDot: bool, seenExp: bool): Phase {
    if seenExp then ExpDigits else if seenDot then FracPart else IntPart
  }

  /** Phases in which the lexeme so far needs a digit next. */
  predicate AwaitsDigit(q: Phase) {
    q == LeadDot || q == ExpMark || q == ExpSign
  }

  /** The digit `consume_digit` demanded was missing: either the input ended
      (nothing more taken), or a character that cannot continue the lexeme
      (not a digit, nor a sign right after the marker) was taken and left
      out of `raw`. */
  ghost predicate MissingDigit(text: string, p: nat, q: nat, prefix: string, raw: string)
    requires p <= q <= |text|
  {
    AwaitsDigit(Run(raw))
    && ((q == |text| && raw == prefix + text[p..q])
        || (&& p < q && !IsDecimal(text[q - 1]) && raw == prefix + text[p..q - 1]
            && Run(raw + [text[q - 1]]) == Reject))
  }

  /** A letter that cannot continue the lexeme (so not a first exponent
      marker, which the loop takes) stopped the literal: it is appended to
      `raw` but not taken. */
  ghost predicate LetterRejected(text: string, p: nat, q: nat, prefix: string, raw: string)
    requires p <= q <= |text|
  {
    q < |text| && IsAsciiAlphabetic(text[q])
    && IsNumberLexeme(prefix + text[p..q])
    && raw == prefix + text[p..q] + [text[q]]
    && Run(raw) == Reject
  }

  /** The full outcome of scanning from index `p` with lexeme `prefix`
      already held: `r.cursor.next` is where the scan stopped. */
  ghost predicate NumberOutcome(text: string, p: nat, prefix: string, r: Scan)
    requires p <= r.cursor.next <= |text|
  {
    var q := r.cursor.next;
    match r.result
    case Ok(tok) =>
      && tok.Numeric?
      && tok.raw == prefix + text[p..q]
      && IsNumberLexeme(tok.raw)
      && (tok.hint == Integer <==> Run(tok.raw) == IntPart)
      && (q < |text| ==>
            Run(tok.raw + [text[q]]) == Reject && !IsAsciiAlphabetic(text[q]) && !IsDecimal(text[q]))
    case Err(e) =>
      && e.NumericLiteralInvalidChar?
      && (MissingDigit(text, p, q, prefix, e.raw) || LetterRejected(text, p, q, prefix, e.raw))
  }

  /** Taking the marker and sign moves the automaton to a phase awaiting a digit. */
  lemma ExponentHeadPhase(c: Cursor, num: string)
    requires c.next < |c.text| && IsExpMarker(c.text[c.next])
    requires Run(num) == IntPart || Run(num) == FracPart
    ensures Run(ExponentHead(c, num).0) ==
      if ExponentHead(c, num).1.next == c.next + 2 then ExpSign else ExpMark
  {
    var (num2, c2) := ExponentHead(c, num);
    var ch := c.text[c.next];
    RunAppend(num, ch);
    if c2.next == c.next + 2 {
      assert num2 == (num + [ch]) + [c.text[c.next + 1]];
      RunAppend(num + [ch], c.text[c.next + 1]);
    } else {
      assert num2 == num + [ch];
    }
  }

  /** The exponent arm: on success the lexeme has grown by exactly the
      characters taken and is in the exponent-digit phase; on failure the
      digit after the marker (and sign) was missing. */
  lemma ExponentArmOutcome(c: Cursor, num: string)
    requires c.next < |c.text| && IsExpMarker(c.text[c.next])
    requires Run(num) == IntPart || Run(num) == FracPart
    ensures var r := ExponentArm(c, num);
      r.0.Ok? ==> r.0.value == num + c.text[c.next..r.1.next] && Run(r.0.value) == ExpDigits
    ensures var r := ExponentArm(c, num);
      r.0.Err? ==> r.0.error.NumericLiteralInvalidChar?
                   && MissingDigit(c.text, c.next, r.1.next, num, r.0.error.raw)
  {
    var (num2, c2) := ExponentHead(c, num);
    ExponentHeadPhase(c, num);
    var (d, c3) := ConsumeDigit(c2, num2, 10);
    assert ExponentArm(c, num) == (if d.Err? then Err(d.error) else Ok(num2 + [d.value]), c3);
    assert Run(num2) == ExpMark ==> c2.next == c.next + 1;
    if d.Ok? {
      ExponentDigitTaken(c, num, num2, c2, d.value, c3);
    } else {
      ExponentDigitMissing(c, num, num2, c2, c3);
    }
  }

  /** The digit after the marker and sign was there: the lexeme grew by
      exactly the characters taken. */
  lemma ExponentDigitTaken(c: Cursor, num: string, num2: string, c2: Cursor, d: char, c3: Cursor)
    requires c.next < c2.next < |c.text| && c2.text == c.text && c3.text == c.text
    requires num2 == num + c.text[c.next..c2.next]
    requires Run(num2) == ExpMark || Run(num2) == ExpSign
    requires d == c.text[c2.next] && IsDigit(d, 10) && c3.next == c2.next + 1
    ensures num2 + [d] == num + c.text[c.next..c3.next] && Run(num2 + [d]) == ExpDigits
  {
    DecimalDigits(d);
    RunAppend(num2, d);
    SliceCons(c.text, c2.next, c3.next, num2);
    SliceSplit(c.text, c.next, c2.next, c3.next, num);
  }

  /** The digit after the marker and sign was missing. */
  lemma ExponentDigitMissing(c: Cursor, num: string, num2: string, c2: Cursor, c3: Cursor)
    requires c.next < c2.next <= |c.text| && c2.text == c.text
    requires num2 == num + c.text[c.next..c2.next]
    requires Run(num2) == ExpMark || Run(num2) == ExpSign
    requires Run(num2) == ExpMark ==>
      !(c2.next < |c.text| && (c.text[c2.next] == '+' || c.text[c2.next] == '-'))
    requires ConsumeDigit(c2, num2, 10).0.Err? && ConsumeDigit(c2, num2, 10).1 == c3
    ensures MissingDigit(c.text, c.next, c3.next, num, num2)
  {
    if c2.next < |c.text| {
      DecimalDigits(c.text[c2.next]);
      RunAppend(num2, c.text[c2.next]);
      assert c.text[c3.next - 1] == c.text[c2.next];
    }
  }

  /** An outcome stated from index `k`, with the characters from `p` to `k`
      already in the prefix, is the same outcome stated from `p`. */
  lemma OutcomeShift(text: string, p: nat, k: nat, prefix: string, r: Scan)
    requires p <= k <= r.cursor.next <= |text|
    requires NumberOutcome(text, k, prefix + text[p..k], r)
    ensures NumberOutcome(text, p, prefix, r)
  {
    var q := r.cursor.next;
    SliceSplit(text, p, k, q, prefix);
    if r.result.Err? && k < q {
      SliceSplit(text, p, k, q - 1, prefix);
    }
  }

  /** The loop ends successfully at the end of the input or at a character
      that no arm takes. */
  lemma LoopEndOutcome(c: Cursor, num: string, seenDot: bool, seenExp: bool)
    requires c.next <= |c.text|
    requires Run(num) == LoopPhase(seenDot, seenExp)
    requires c.next < |c.text| ==>
      var ch := c.text[c.next];
      !(ch == '.' && !seenDot && !seenExp) && !((ch == 'e' || ch == 'E') && !seenExp)
      && !IsDigit(ch, Radix) && !IsAsciiAlphabetic(ch)
    ensures NumberOutcome(c.text, c.next, num,
      Scan(Ok(Numeric(num, HintOf(seenDot, seenExp))), c))
  {
    assert num + c.text[c.next..c.next] == num;
    if c.next < |c.text| {
      DecimalDigits(c.text[c.next]);
      RunAppend(num, c.text[c.next]);
    }
  }

  /** The loop stops with an error at a letter other than a first exponent
      marker, which goes into `raw`. */
  lemma LoopLetterOutcome(c: Cursor, num: string, seenDot: bool, seenExp: bool)
    requires c.next < |c.text| && IsAsciiAlphabetic(c.text[c.next])
    requires IsExpMarker(c.text[c.next]) ==> seenExp
    requires Run(num) == LoopPhase(seenDot, seenExp)
    ensures NumberOutcome(c.text, c.next, num,
      Scan(Err(NumericLiteralInvalidChar(num + [c.text[c.next]])), c))
  {
    assert num + c.text[c.next..c.next] == num;
    RunAppend(num, c.text[c.next]);
  }

  /** Taking one character into the lexeme and going on from the next index. */
  lemma OutcomeShiftOne(text: string, p: nat, prefix: string, r: Scan)
    requires p < r.cursor.next <= |text|
    requires NumberOutcome(text, p + 1, prefix + [text[p]], r)
    ensures NumberOutcome(text, p, prefix, r)
  {
    assert text[p..p + 1] == [text[p]];
    OutcomeShift(text, p, p + 1, prefix, r);
  }

  /** The `parse_number` loop, from a lexeme in the phase its flags describe. */
  lemma {:induction false} NumberLoopOutcome(c: Cursor, num: string, seenDot: bool, seenExp: bool)
    requires c.next <= |c.text|
    requires Run(num) == LoopPhase(seenDot, seenExp)
    ensures NumberOutcome(c.text, c.next, num, NumberLoop(c, num, seenDot, seenExp))
    decreases |c.text| - c.next, 1
  {
    if c.next == |c.text| {
      LoopEndOutcome(c, num, seenDot, seenExp);
    } else {
      var ch := c.text[c.next];
      if ch == '.' && !seenDot && !seenExp {
        DotArmOutcome(c, num);
      } else if (ch == 'e' || ch == 'E') && !seenExp {
        ExponentLoopOutcome(c, num, seenDot);
      } else if IsDigit(ch, Radix) {
        DigitArmOutcome(c, num, seenDot, seenExp);
      } else if IsAsciiAlphabetic(ch) || IsDigit(ch, 10) {
        DecimalDigits(ch);
        LoopLetterOutcome(c, num, seenDot, seenExp);
      } else {
        LoopEndOutcome(c, num, seenDot, seenExp);
      }
    }
  }

  /** The loop at its first '.': taken, then the fraction. */
  lemma {:induction false} DotArmOutcome(c: Cursor, num: string)
    requires c.next < |c.text| && c.text[c.next] == '.'
    requires Run(num) == IntPart
    ensures NumberOutcome(c.text, c.next, num, NumberLoop(c, num, false, false))
    decreases |c.text| - c.next, 0
  {
    var c1 := ConsumeChar(c).1;
    var r := NumberLoop(c1, num + ['.'], true, false);
    assert NumberLoop(c, num, false, false) == r;
    assert c1.text == c.text && c1.next == c.next + 1;
    RunAppend(num, '.');
    assert Run(num + ['.']) == FracPart;
    NumberLoopOutcome(c1, num + ['.'], true, false);
    assert num + [c.text[c.next]] == num + ['.'];
    OutcomeShiftOne(c.text, c.next, num, r);
  }

  /** The loop at a digit: taken, the phase unchanged. */
  lemma {:induction false} DigitArmOutcome(c: Cursor, num: string, seenDot: bool, seenExp: bool)
    requires c.next < |c.text| && IsDigit(c.text[c.next], Radix)
    requires Run(num) == LoopPhase(seenDot, seenExp)
    ensures NumberOutcome(c.text, c.next, num, NumberLoop(c, num, seenDot, seenExp))
    decreases |c.text| - c.next, 0
  {
    var ch := c.text[c.next];
    var c1 := ConsumeChar(c).1;
    DecimalDigits(ch);
    assert ch != '.' && ch != 'e' && ch != 'E';
    var r := NumberLoop(c1, num + [ch], seenDot, seenExp);
    assert NumberLoop(c, num, seenDot, seenExp) == r;
    RunAppend(num, ch);
    NumberLoopOutcome(c1, num + [ch], seenDot, seenExp);
    OutcomeShiftOne(c.text, c.next, num, r);
  }

  /** The loop at its first exponent marker: the exponent arm, then the
      exponent digits. */
  lemma {:induction false} ExponentLoopOutcome(c: Cursor, num: string, seenDot: bool)
    requires c.next < |c.text| && IsExpMarker(c.text[c.next])
    requires Run(num) == LoopPhase(seenDot, false)
    ensures NumberOutcome(c.text, c.next, num, NumberLoop(c, num, seenDot, false))
    decreases |c.text| - c.next, 0
  {
    var r := NumberLoop(c, num, seenDot, false);
    var (e, c3) := ExponentArm(c, num);
    ExponentArmOutcome(c, num);
    if e.Ok? {
      NumberLoopOutcome(c3, e.value, seenDot, true);
      OutcomeShift(c.text, c.next, c3.next, num, r);
    }
  }

  /** `parse_number` after the start character was consumed: the complete
      outcome, success or one of the error forms. */
  lemma ParseNumberOutcome(c: Cursor, start: char)
    requires c.next <= |c.text|
    requires '0' <= start <= '9' || start == '.'
    ensures NumberOutcome(c.text, c.next, [start], ParseNumber(c, start))
  {
    var text := c.text;
    var r := ParseNumber(c, start);
    RunAppend([], start);
    assert [] + [start] == [start];
    if start == '.' {
      var (d, c1) := ConsumeDigit(c, [start], 10);
      if d.Ok? {
        DecimalDigits(d.value);
        RunAppend([start], d.value);
        assert [start] + [d.value] == [start, d.value];
        NumberLoopOutcome(c1, [start, d.value], true, false);
        OutcomeShiftOne(text, c.next, [start], r);
      } else {
        assert [start] + text[c.next..c.next] == [start];
        if c.next < |text| {
          DecimalDigits(text[c.next]);
        }
      }
    } else {
      NumberLoopOutcome(c, [start], false, false);
    }
  }

  /** Success of `parse_number`: the token holds the start character and
      exactly the characters taken; it is `FloatingPoint` exactly when it
      holds a '.', 'e' or 'E'; it has at most one '.' and one exponent
      marker; and no longer run of the input is a numeric lexeme. */
  lemma ParseNumberSuccess(c: Cursor, start: char)
    requires c.next <= |c.text|
    requires '0' <= start <= '9' || start == '.'
    requires ParseNumber(c, start).result.Ok?
    ensures var r := ParseNumber(c, start); var tok := r.result.value; var q := r.cursor.next;
      && tok.Numeric?
      && tok.raw == [start] + c.text[c.next..q]
      && IsNumberLexeme(tok.raw)
      && (tok.hint == FloatingPoint <==> exists i :: 0 <= i < |tok.raw| && IsMarker(tok.raw[i]))
      && Occurrences(tok.raw, '.') <= 1
      && Occurrences(tok.raw, 'e') + Occurrences(tok.raw, 'E') <= 1
      && (forall k :: q < k <= |c.text| ==> !IsNumberLexeme([start] + c.text[c.next..k]))
  {
    var r := ParseNumber(c, start);
    var q := r.cursor.next;
    var raw := r.result.value.raw;
    ParseNumberOutcome(c, start);
    LexemeShape(raw);
    IntegerIffNoMarker(raw);
    forall k | q < k <= |c.text| ensures !IsNumberLexeme([start] + c.text[c.next..k]) {
      SliceAround(c.text, c.next, q, k, [start]);
      RunAppendSeq(raw + [c.text[q]], c.text[q + 1..k]);
    }
  }

  lemma SliceAround(text: string, p: nat, q: nat, k: nat, prefix: string)
    requires p <= q < k <= |text|
    ensures prefix + text[p..k] == ((prefix + text[p..q]) + [text[q]]) + text[q + 1..k]
  {
    assert text[p..k] == text[p..q] + [text[q]] + text[q + 1..k];
  }

  // -----------------------------------------------------------------------
  // The outcome is determined

  /** `s` is where a scan from `p` holding `prefix` has to stop: the lexeme
      read up to `s` is live, and the next character, if any, kills it. */
  ghost predicate StopsAt(text: string, p: nat, prefix: string, s: nat)
    requires p <= s <= |text|
  {
    Run(prefix + text[p..s]) != Reject
    && (s < |text| ==> Run(prefix + text[p..s + 1]) == Reject)
  }

  lemma SliceSnoc(text: string, p: nat, q: nat, prefix: string)
    requires p <= q < |text|
    ensures prefix + text[p..q + 1] == (prefix + text[p..q]) + [text[q]]
  {
    assert text[p..q + 1] == text[p..q] + [text[q]];
  }

  /** `Reject` absorbs every extension, so there is at most one stop. */
  lemma StopUnique(text: string, p: nat, prefix: string, s1: nat, s2: nat)
    requires p <= s1 <= |text| && p <= s2 <= |text|
    requires StopsAt(text, p, prefix, s1) && StopsAt(text, p, prefix, s2)
    ensures s1 == s2
  {
    if s1 < s2 {
      SliceSplit(text, p, s1 + 1, s2, prefix);
      RunAppendSeq(prefix + text[p..s1 + 1], text[s1 + 1..s2]);
    } else if s2 < s1 {
      SliceSplit(text, p, s2 + 1, s1, prefix);
      RunAppendSeq(prefix + text[p..s2 + 1], text[s2 + 1..s1]);
    }
  }

  /** Every outcome stops where the lexeme dies, and is then fixed by the
      phase reached there and by the character that follows. */
  lemma OutcomeStop(text: string, p: nat, prefix: string, r: Scan) returns (s: nat)
    requires p <= r.cursor.next <= |text|
    requires NumberOutcome(text, p, prefix, r)
    ensures p <= s <= |text| && StopsAt(text, p, prefix, s)
    ensures r.result.Ok? ==>
      && r.cursor.next == s && IsNumberLexeme(prefix + text[p..s])
      && (s < |text| ==> !IsAsciiAlphabetic(text[s]))
    ensures r.result.Err? ==>
      || (&& AwaitsDigit(Run(prefix + text[p..s]))
          && r.result.error.raw == prefix + text[p..s]
          && r.cursor.next == (if s == |text| then s else s + 1))
      || (&& s < |text| && IsAsciiAlphabetic(text[s]) && IsNumberLexeme(prefix + text[p..s])
          && r.cursor.next == s && r.result.error.raw == prefix + text[p..s] + [text[s]])
  {
    var q := r.cursor.next;
    if r.result.Ok? {
      s := q;
      if q < |text| {
        SliceSnoc(text, p, q, prefix);
      }
    } else if LetterRejected(text, p, q, prefix, r.result.error.raw) {
      s := q;
      SliceSnoc(text, p, q, prefix);
    } else {
      s := MissingStop(text, p, q, prefix, r.result.error.raw);
    }
  }

  /** A missing digit stops the scan at the end of the input, or just before
      the character taken in its place. */
  lemma MissingStop(text: string, p: nat, q: nat, prefix: string, raw: string) returns (s: nat)
    requires p <= q <= |text|
    requires MissingDigit(text, p, q, prefix, raw)
    ensures p <= s <= |text| && StopsAt(text, p, prefix, s)
    ensures AwaitsDigit(Run(prefix + text[p..s])) && raw == prefix + text[p..s]
    ensures q == (if s == |text| then s else s + 1)
  {
    if |raw| == |prefix| + (q - p) {
      s := q;
    } else {
      s := q - 1;
      assert raw == prefix + text[p..s] && Run(raw + [text[s]]) == Reject;
      SliceSnoc(text, p, s, prefix);
      assert Run(prefix + text[p..s + 1]) == Reject;
    }
  }

  /** `NumberOutcome` admits one scan only: two outcomes from the same
      inputs have the same result and stop at the same index. */
  lemma OutcomeUnique(text: string, p: nat, prefix: string, r1: Scan, r2: Scan)
    requires p <= r1.cursor.next <= |text| && p <= r2.cursor.next <= |text|
    requires NumberOutcome(text, p, prefix, r1) && NumberOutcome(text, p, prefix, r2)
    ensures r1.result == r2.result && r1.cursor.next == r2.cursor.next
  {
    var s1 := OutcomeStop(text, p, prefix, r1);
    var s2 := OutcomeStop(text, p, prefix, r2);
    StopUnique(text, p, prefix, s1, s2);
  }

  /** So `NumberOutcome` is a complete specification of `parse_number`: a
      scan meeting it is the one `parse_number` returns. */
  lemma ParseNumberDetermined(c: Cursor, start: char, r: Scan)
    requires c.next <= r.cursor.next <= |c.text|
    requires '0' <= start <= '9' || start == '.'
    requires NumberOutcome(c.text, c.next, [start], r)
    ensures r.result == ParseNumber(c, start).result
    ensures r.cursor.next == ParseNumber(c, start).cursor.next
  {
    ParseNumberOutcome(c, start);
    OutcomeUnique(c.text, c.next, [start], r, ParseNumber(c, start));
  }

  /** On `"1e5"` the `e` after `1` starts the exponent: failing there with
      `raw` `"1e"` is no outcome of the scan. */
  lemma MarkerIsNoLetter()
    ensures !NumberOutcome("1e5", 1, "1", Scan(Err(NumericLiteralInvalidChar("1e")), Cursor("1e5", 1, 1, 2, 1)))
  {
    assert "1"[..0] == [] && "1e"[..1] == "1";
    assert Run("1e") == ExpMark;
  }

  // -----------------------------------------------------------------------
  // Position counters

  /** Number of exponent markers in `s`. */
  function ExpMarkers(s: string): nat {
    Occurrences(s, 'e') + Occurrences(s, 'E')
  }

  /** The characters of a successful literal that `consume_digit` took
      without counting: the digit after a leading '.', and the first digit
      of the exponent. */
  function Bypassed(raw: string): nat {
    (if |raw| > 0 && raw[0] == '.' then 1 else 0) + ExpMarkers(raw)
  }

  lemma ExpMarkersSplit(text: string, i: nat, k: nat, j: nat)
    requires i <= k <= j <= |text|
    ensures ExpMarkers(text[i..j]) == ExpMarkers(text[i..k]) + ExpMarkers(text[k..j])
  {
    assert text[i..j] == text[i..k] + text[k..j];
  }

  /** The exponent arm counts every character but the digit it takes with
      `consume_digit`. */
  lemma ExponentArmCounters(c: Cursor, num: string)
    requires c.next < |c.text| && IsExpMarker(c.text[c.next])
    requires ExponentArm(c, num).0.Ok?
    ensures var c3 := ExponentArm(c, num).1;
      && c3.offset + 1 == c.offset + (c3.next - c.next)
      && c3.col + 1 == c.col + (c3.next - c.next)
      && ExpMarkers(c.text[c.next..c3.next]) == 1
  {
    var text := c.text;
    var (num2, c2) := ExponentHead(c, num);
    var (d, c3) := ConsumeDigit(c2, num2, 10);
    assert ExponentArm(c, num).1 == c3 && c3.next == c2.next + 1;
    DecimalDigits(d.value);
    ExponentHeadMarkers(c, num);
    ExpMarkersSplit(text, c.next, c2.next, c3.next);
    assert text[c2.next..c3.next] == [d.value];
  }

  /** The marker and optional sign hold exactly one exponent marker. */
  lemma ExponentHeadMarkers(c: Cursor, num: string)
    requires c.next < |c.text| && IsExpMarker(c.text[c.next])
    ensures ExpMarkers(c.text[c.next..ExponentHead(c, num).1.next]) == 1
  {
    var text := c.text;
    var c2 := ExponentHead(c, num).1;
    if c2.next == c.next + 2 {
      assert text[c.next..c2.next] == [text[c.next], text[c.next + 1]];
    } else {
      assert text[c.next..c2.next] == [text[c.next]];
    }
  }

  /** From `c` to `r`, the offset and the column moved by the characters
      taken, less one per exponent marker among them. */
  ghost predicate CountedFrom(c: Cursor, r: Cursor)
    requires c.next <= r.next <= |c.text|
  {
    && r.offset + ExpMarkers(c.text[c.next..r.next]) == c.offset + (r.next - c.next)
    && r.col + ExpMarkers(c.text[c.next..r.next]) == c.col + (r.next - c.next)
  }

  /** A counted character that is neither a line feed nor a marker. */
  lemma CountedStep(c: Cursor, r: Cursor)
    requires c.next < r.next <= |c.text| && r.text == c.text
    requires c.text[c.next] != '\n' && !IsExpMarker(c.text[c.next])
    requires CountedFrom(ConsumeChar(c).1, r)
    ensures CountedFrom(c, r)
  {
    ExpMarkersSplit(c.text, c.next, c.next + 1, r.next);
    assert c.text[c.next..c.next + 1] == [c.text[c.next]];
  }

  /** The exponent arm followed by the rest of the loop. */
  lemma CountedExponent(c: Cursor, num: string, r: Cursor)
    requires c.next < |c.text| && IsExpMarker(c.text[c.next])
    requires ExponentArm(c, num).0.Ok?
    requires ExponentArm(c, num).1.next <= r.next <= |c.text|
    requires CountedFrom(ExponentArm(c, num).1, r)
    ensures CountedFrom(c, r)
  {
    ExponentArmCounters(c, num);
    ExpMarkersSplit(c.text, c.next, ExponentArm(c, num).1.next, r.next);
  }

  /** On success the loop counts every character it takes except the first
      digit of the exponent. */
  lemma {:induction false} NumberLoopCounters(c: Cursor, num: string, seenDot: bool, seenExp: bool)
    requires c.next <= |c.text|
    requires NumberLoop(c, num, seenDot, seenExp).result.Ok?
    ensures CountedFrom(c, NumberLoop(c, num, seenDot, seenExp).cursor)
    decreases |c.text| - c.next
  {
    var r := NumberLoop(c, num, seenDot, seenExp).cursor;
    if c.next == |c.text| {
      assert c.text[c.next..r.next] == [];
    } else {
      var ch := c.text[c.next];
      if ch == '.' && !seenDot && !seenExp {
        NumberLoopCounters(ConsumeChar(c).1, num + [ch], true, seenExp);
        CountedStep(c, r);
      } else if (ch == 'e' || ch == 'E') && !seenExp {
        var (e, c3) := ExponentArm(c, num);
        NumberLoopCounters(c3, e.value, seenDot, true);
        CountedExponent(c, num, r);
      } else if IsDigit(ch, Radix) {
        DecimalDigits(ch);
        NumberLoopCounters(ConsumeChar(c).1, num + [ch], seenDot, seenExp);
        CountedStep(c, r);
      } else {
        assert c.text[c.next..r.next] == [];
      }
    }
  }

  /** On success `parse_number` leaves the line alone and moves the offset
      and the column by the length of the lexeme taken, less the characters
      `consume_digit` took. */
  lemma ParseNumberCounters(c: Cursor, start: char)
    requires c.next <= |c.text|
    requires '0' <= start <= '9' || start == '.'
    requires ParseNumber(c, start).result.Ok?
    ensures var r := ParseNumber(c, start); var raw := r.result.value.raw;
      && r.cursor.line == c.line
      && r.cursor.offset + Bypassed(raw) == c.offset + (r.cursor.next - c.next)
      && r.cursor.col + Bypassed(raw) == c.col + (r.cursor.next - c.next)
  {
    var r := ParseNumber(c, start);
    ParseNumberSuccess(c, start);
    var raw := r.result.value.raw;
    var q := r.cursor.next;
    assert raw == [start] + c.text[c.next..q];
    assert ExpMarkers(raw) == ExpMarkers(c.text[c.next..q]);
    if start == '.' {
      var (d, c1) := ConsumeDigit(c, [start], 10);
      NumberLoopCounters(c1, [start, d.value], true, false);
      DecimalDigits(d.value);
      ExpMarkersSplit(c.text, c.next, c1.next, q);
      assert c.text[c.next..c1.next] == [d.value];
    } else {
      NumberLoopCounters(c, [start], false, false);
    }
  }

  // -----------------------------------------------------------------------
  // Position counters after a failure

  /** From `c`, the offset and the column moved by the characters up to
      index `e`, less one per exponent marker among them, plus `pending`. */
  ghost predicate LagTo(c: Cursor, r: Cursor, e: nat, pending: nat)
    requires c.next <= e <= |c.text|
  {
    && r.offset + ExpMarkers(c.text[c.next..e]) == c.offset + (e - c.next) + pending
    && r.col + ExpMarkers(c.text[c.next..e]) == c.col + (e - c.next) + pending
  }

  /** The counters after the loop failed from `c` with lexeme `num`, in its
      three failure forms: a letter was appended to `raw` but not taken, and
      everything taken was counted as on success; or the digit after an
      exponent marker (and sign) was missing, because the input ended or a
      character was taken and dropped. In the last two forms the marker has
      no digit of its own, so one more character was counted than a
      successful literal of the same text would count. */
  ghost predicate LoopFailureCounted(c: Cursor, num: string, r: Scan)
    requires c.next <= r.cursor.next <= |c.text|
    requires r.result.Err? && r.result.error.NumericLiteralInvalidChar?
  {
    var text := c.text;
    var q := r.cursor.next;
    var raw := r.result.error.raw;
    || (q < |text| && raw == num + text[c.next..q] + [text[q]] && LagTo(c, r.cursor, q, 0))
    || (raw == num + text[c.next..q] && LagTo(c, r.cursor, q, 1))
    || (c.next < q && raw == num + text[c.next..q - 1] && LagTo(c, r.cursor, q - 1, 1))
  }

  /** A failure reached from `c1`, after a stretch from `c` that lagged by
      one per exponent marker, is one from `c` with the stretch in `num`. */
  lemma LoopFailureShift(c: Cursor, c1: Cursor, num: string, r: Scan)
    requires c.next <= c1.next <= r.cursor.next <= |c.text| && c1.text == c.text
    requires r.result.Err? && r.result.error.NumericLiteralInvalidChar?
    requires LagTo(c, c1, c1.next, 0)
    requires LoopFailureCounted(c1, num + c.text[c.next..c1.next], r)
    ensures LoopFailureCounted(c, num, r)
  {
    var text := c.text;
    var q := r.cursor.next;
    var raw := r.result.error.raw;
    var num1 := num + text[c.next..c1.next];
    if |raw| < |num1| + (q - c1.next) {
      assert raw == num1 + text[c1.next..q - 1] + [];
      FormShift(c, c1, num, r.cursor, raw, q - 1, [], 1);
      assert raw == num + text[c.next..q - 1];
    } else if |raw| == |num1| + (q - c1.next) {
      assert raw == num1 + text[c1.next..q] + [];
      FormShift(c, c1, num, r.cursor, raw, q, [], 1);
      assert raw == num + text[c.next..q];
    } else {
      FormShift(c, c1, num, r.cursor, raw, q, [text[q]], 0);
    }
  }

  /** One failure form, moved from `c1` back to `c`. */
  lemma FormShift(c: Cursor, c1: Cursor, num: string, r: Cursor, raw: string, e: nat, tail: string, pending: nat)
    requires c.next <= c1.next <= e <= |c.text| && c1.text == c.text
    requires LagTo(c, c1, c1.next, 0)
    requires raw == num + c.text[c.next..c1.next] + c.text[c1.next..e] + tail && LagTo(c1, r, e, pending)
    ensures raw == num + c.text[c.next..e] + tail && LagTo(c, r, e, pending)
  {
    LagJoin(c, c1, r, e, pending);
    SliceSplit(c.text, c.next, c1.next, e, num);
  }

  /** Lags over two consecutive stretches add up. */
  lemma LagJoin(c: Cursor, c1: Cursor, r: Cursor, e: nat, pending: nat)
    requires c.next <= c1.next <= e <= |c.text| && c1.text == c.text
    requires LagTo(c, c1, c1.next, 0) && LagTo(c1, r, e, pending)
    ensures LagTo(c, r, e, pending)
  {
    ExpMarkersSplit(c.text, c.next, c1.next, e);
  }

  /** One character counted by `consume_char` that is neither a line feed
      nor a marker. */
  lemma LagStep(c: Cursor)
    requires c.next < |c.text| && c.text[c.next] != '\n' && !IsExpMarker(c.text[c.next])
    ensures LagTo(c, ConsumeChar(c).1, c.next + 1, 0)
    ensures c.text[c.next..ConsumeChar(c).1.next] == [c.text[c.next]]
  {
    assert c.text[c.next..c.next + 1] == [c.text[c.next]];
  }

  /** The exponent arm failed: the marker and sign were counted, the missing
      digit's place was not. */
  lemma ExponentArmFailure(c: Cursor, num: string)
    requires c.next < |c.text| && IsExpMarker(c.text[c.next])
    requires ExponentArm(c, num).0.Err?
    ensures var (e, c3) := ExponentArm(c, num);
      && e.error.NumericLiteralInvalidChar?
      && LoopFailureCounted(c, num, Scan(Err(e.error), c3))
  {
    var (num2, c2) := ExponentHead(c, num);
    ExponentHeadMarkers(c, num);
    assert LagTo(c, c2, c2.next, 1);
  }

  /** On failure the loop counts as `LoopFailureCounted` says. */
  lemma {:induction false} NumberLoopFailureCounters(c: Cursor, num: string, seenDot: bool, seenExp: bool)
    requires c.next <= |c.text|
    requires NumberLoop(c, num, seenDot, seenExp).result.Err?
    ensures var r := NumberLoop(c, num, seenDot, seenExp);
      && r.result.error.NumericLiteralInvalidChar?
      && LoopFailureCounted(c, num, r)
    decreases |c.text| - c.next
  {
    var r := NumberLoop(c, num, seenDot, seenExp);
    var ch := c.text[c.next];
    if ch == '.' && !seenDot && !seenExp {
      var c1 := ConsumeChar(c).1;
      NumberLoopFailureCounters(c1, num + [ch], true, seenExp);
      LagStep(c);
      LoopFailureShift(c, c1, num, r);
    } else if (ch == 'e' || ch == 'E') && !seenExp {
      var (e, c3) := ExponentArm(c, num);
      if e.Err? {
        ExponentArmFailure(c, num);
      } else {
        NumberLoopFailureCounters(c3, e.value, seenDot, true);
        ExponentArmCounters(c, num);
        ExponentArmRaw(c, num);
        LoopFailureShift(c, c3, num, r);
      }
    } else if IsDigit(ch, Radix) {
      DecimalDigits(ch);
      var c1 := ConsumeChar(c).1;
      NumberLoopFailureCounters(c1, num + [ch], seenDot, seenExp);
      LagStep(c);
      LoopFailureShift(c, c1, num, r);
    } else {
      assert c.text[c.next..r.cursor.next] == [];
    }
  }

  /** A successful exponent arm appends exactly the characters it took. */
  lemma ExponentArmRaw(c: Cursor, num: string)
    requires c.next < |c.text| && IsExpMarker(c.text[c.next])
    requires ExponentArm(c, num).0.Ok?
    ensures ExponentArm(c, num).0.value == num + c.text[c.next..ExponentArm(c, num).1.next]
  {
    var (num2, c2) := ExponentHead(c, num);
    var c3 := ExponentArm(c, num).1;
    SliceCons(c.text, c2.next, c3.next, num2);
    SliceSplit(c.text, c.next, c2.next, c3.next, num);
  }

  /** From `c`, the offset and the column moved by the characters up to
      index `e`, less those `consume_digit` took or had to take for the
      lexeme `[start] + text[c.next..e]`, plus `pending`. */
  ghost predicate LagFrom(c: Cursor, r: Cursor, start: char, e: nat, pending: nat)
    requires c.next <= e <= |c.text|
  {
    var counted := [start] + c.text[c.next..e];
    && r.offset + Bypassed(counted) == c.offset + (e - c.next) + pending
    && r.col + Bypassed(counted) == c.col + (e - c.next) + pending
  }

  /** The counters after `parse_number` failed, in the three forms of
      `FailureForm`: after a letter, everything up to it was counted as on
      success; when the digit after a leading '.' or an exponent marker was
      missing, the character dropped in its place (if any) was not counted,
      and neither was the digit's place itself. */
  ghost predicate FailureCounted(c: Cursor, start: char, r: Scan)
    requires c.next <= r.cursor.next <= |c.text|
    requires r.result.Err? && r.result.error.NumericLiteralInvalidChar?
  {
    var text := c.text;
    var q := r.cursor.next;
    var raw := r.result.error.raw;
    || (q < |text| && raw == [start] + text[c.next..q] + [text[q]] && LagFrom(c, r.cursor, start, q, 0))
    || (raw == [start] + text[c.next..q] && LagFrom(c, r.cursor, start, q, 1))
    || (c.next < q && raw == [start] + text[c.next..q - 1] && LagFrom(c, r.cursor, start, q - 1, 1))
  }

  lemma BypassedCons(start: char, t: string)
    requires '0' <= start <= '9' || start == '.'
    ensures Bypassed([start] + t) == (if start == '.' then 1 else 0) + ExpMarkers(t)
  {
    assert multiset([start] + t) == multiset{start} + multiset(t);
  }

  /** On failure `parse_number` leaves the line alone and moves the offset
      and the column as `FailureCounted` says. */
  lemma ParseNumberFailureCounters(c: Cursor, start: char)
    requires c.next <= |c.text|
    requires '0' <= start <= '9' || start == '.'
    requires ParseNumber(c, start).result.Err?
    ensures var r := ParseNumber(c, start);
      && r.cursor.line == c.line
      && r.result.error.NumericLiteralInvalidChar?
      && FailureCounted(c, start, r)
  {
    if start == '.' {
      if ConsumeDigit(c, [start], 10).0.Ok? {
        LeadDotLoopFailure(c);
      } else {
        LeadDotFailure(c);
      }
    } else {
      var r := ParseNumber(c, start);
      assert r == NumberLoop(c, [start], false, false);
      NumberLoopFailureCounters(c, [start], false, false);
      assert [start] + c.text[c.next..c.next] == [start];
      LoopToStart(c, c, start, r);
    }
  }

  /** No digit followed a leading '.': the input ended, or the character
      taken in its place was dropped; either way nothing was counted. */
  lemma LeadDotFailure(c: Cursor)
    requires c.next <= |c.text|
    requires ConsumeDigit(c, ".", 10).0.Err?
    ensures var r := ParseNumber(c, '.');
      && r.result.error.NumericLiteralInvalidChar?
      && FailureCounted(c, '.', r)
  {
    var text := c.text;
    var r := ParseNumber(c, '.');
    assert text[c.next..c.next] == [];
    assert [ '.' ] + text[c.next..c.next] == ".";
    BypassedCons('.', []);
    assert LagFrom(c, r.cursor, '.', c.next, 1);
  }

  /** The loop failed after the digit of a leading '.'. */
  lemma LeadDotLoopFailure(c: Cursor)
    requires c.next <= |c.text|
    requires ConsumeDigit(c, ".", 10).0.Ok?
    requires ParseNumber(c, '.').result.Err?
    ensures var r := ParseNumber(c, '.');
      && r.result.error.NumericLiteralInvalidChar?
      && FailureCounted(c, '.', r)
  {
    var text := c.text;
    var (d, c1) := ConsumeDigit(c, ".", 10);
    var r := ParseNumber(c, '.');
    assert r == NumberLoop(c1, ['.', d.value], true, false);
    NumberLoopFailureCounters(c1, ['.', d.value], true, false);
    DecimalDigits(d.value);
    assert ['.', d.value] == ['.'] + text[c.next..c1.next];
    LoopToStart(c, c1, '.', r);
  }

  /** The loop's failure from `c1`, seen from `c`: either `c1` is `c` and
      the start is a digit, or `c1` follows the digit after a leading '.'. */
  lemma LoopToStart(c: Cursor, c1: Cursor, start: char, r: Scan)
    requires '0' <= start <= '9' || start == '.'
    requires if start == '.' then c.next < |c.text| && IsDecimal(c.text[c.next]) && c1 == c.(next := c.next + 1)
             else c1 == c
    requires c1.next <= r.cursor.next <= |c.text|
    requires r.result.Err? && r.result.error.NumericLiteralInvalidChar?
    requires LoopFailureCounted(c1, [start] + c.text[c.next..c1.next], r)
    ensures FailureCounted(c, start, r)
  {
    var text := c.text;
    var q := r.cursor.next;
    var raw := r.result.error.raw;
    var num := [start] + text[c.next..c1.next];
    if |raw| < |num| + (q - c1.next) {
      DroppedForm(c1, num, r);
      FormStart(c, c1, start, r.cursor, raw, q - 1, [], 1);
      DroppedCounted(c, start, r);
    } else if |raw| == |num| + (q - c1.next) {
      EndedForm(c1, num, r);
      FormStart(c, c1, start, r.cursor, raw, q, [], 1);
      EndedCounted(c, start, r);
    } else {
      LetterForm(c1, num, r);
      FormStart(c, c1, start, r.cursor, raw, q, [text[q]], 0);
      LetterCounted(c, start, r);
    }
  }

  /** The failure form after a letter, told apart by length. */
  lemma LetterForm(c: Cursor, num: string, r: Scan)
    requires c.next <= r.cursor.next <= |c.text|
    requires r.result.Err? && r.result.error.NumericLiteralInvalidChar?
    requires LoopFailureCounted(c, num, r)
    requires |r.result.error.raw| > |num| + (r.cursor.next - c.next)
    ensures var q := r.cursor.next;
      && q < |c.text| && r.result.error.raw == num + c.text[c.next..q] + [c.text[q]]
      && LagTo(c, r.cursor, q, 0)
  {
  }

  /** The failure form with a dropped character, told apart by length. */
  lemma DroppedForm(c: Cursor, num: string, r: Scan)
    requires c.next <= r.cursor.next <= |c.text|
    requires r.result.Err? && r.result.error.NumericLiteralInvalidChar?
    requires LoopFailureCounted(c, num, r)
    requires |r.result.error.raw| < |num| + (r.cursor.next - c.next)
    ensures var q := r.cursor.next;
      && c.next < q && r.result.error.raw == num + c.text[c.next..q - 1] + []
      && LagTo(c, r.cursor, q - 1, 1)
  {
  }

  /** The failure form at the end of the input, told apart by length. */
  lemma EndedForm(c: Cursor, num: string, r: Scan)
    requires c.next <= r.cursor.next <= |c.text|
    requires r.result.Err? && r.result.error.NumericLiteralInvalidChar?
    requires LoopFailureCounted(c, num, r)
    requires |r.result.error.raw| == |num| + (r.cursor.next - c.next)
    ensures var q := r.cursor.next;
      && r.result.error.raw == num + c.text[c.next..q] + []
      && LagTo(c, r.cursor, q, 1)
  {
  }

  lemma LetterCounted(c: Cursor, start: char, r: Scan)
    requires c.next <= r.cursor.next < |c.text|
    requires r.result.Err? && r.result.error.NumericLiteralInvalidChar?
    requires var q := r.cursor.next;
      r.result.error.raw == [start] + c.text[c.next..q] + [c.text[q]] && LagFrom(c, r.cursor, start, q, 0)
    ensures FailureCounted(c, start, r)
  {
  }

  lemma DroppedCounted(c: Cursor, start: char, r: Scan)
    requires c.next < r.cursor.next <= |c.text|
    requires r.result.Err? && r.result.error.NumericLiteralInvalidChar?
    requires var q := r.cursor.next;
      r.result.error.raw == [start] + c.text[c.next..q - 1] + [] && LagFrom(c, r.cursor, start, q - 1, 1)
    ensures FailureCounted(c, start, r)
  {
  }

  lemma EndedCounted(c: Cursor, start: char, r: Scan)
    requires c.next <= r.cursor.next <= |c.text|
    requires r.result.Err? && r.result.error.NumericLiteralInvalidChar?
    requires var q := r.cursor.next;
      r.result.error.raw == [start] + c.text[c.next..q] + [] && LagFrom(c, r.cursor, start, q, 1)
    ensures FailureCounted(c, start, r)
  {
  }

  /** One failure form, moved from the loop's first cursor `c1` back to the
      cursor `c` after the start character. */
  lemma FormStart(c: Cursor, c1: Cursor, start: char, r: Cursor, raw: string, e: nat, tail: string, pending: nat)
    requires '0' <= start <= '9' || start == '.'
    requires if start == '.' then c.next < |c.text| && IsDecimal(c.text[c.next]) && c1 == c.(next := c.next + 1)
             else c1 == c
    requires c1.next <= e <= |c.text|
    requires raw == [start] + c.text[c.next..c1.next] + c.text[c1.next..e] + tail && LagTo(c1, r, e, pending)
    ensures raw == [start] + c.text[c.next..e] + tail && LagFrom(c, r, start, e, pending)
  {
    LagStart(c, c1, r, start, e, pending);
    SliceSplit(c.text, c.next, c1.next, e, [start]);
  }

  /** `LagTo` from the loop's first cursor gives `LagFrom` from the cursor
      after the start character. */
  lemma LagStart(c: Cursor, c1: Cursor, r: Cursor, start: char, e: nat, pending: nat)
    requires '0' <= start <= '9' || start == '.'
    requires if start == '.' then c.next < |c.text| && IsDecimal(c.text[c.next]) && c1 == c.(next := c.next + 1)
             else c1 == c
    requires c1.next <= e <= |c.text| && LagTo(c1, r, e, pending)
    ensures LagFrom(c, r, start, e, pending)
  {
    var text := c.text;
    BypassedCons(start, text[c.next..e]);
    ExpMarkersSplit(text, c.next, c1.next, e);
    if start == '.' {
      assert text[c.next..c1.next] == [text[c.next]];
    }
  }

  /** A lexeme that awaits a digit is a lone '.', or ends in an exponent
      marker, or in an exponent marker and a sign. */
  lemma AwaitingShape(s: string)
    requires AwaitsDigit(Run(s))
    ensures |s| >= 1
    ensures || s == "."
            || IsExpMarker(s[|s| - 1])
            || (|s| >= 2 && IsExpMarker(s[|s| - 2]) && (s[|s| - 1] == '+' || s[|s| - 1] == '-'))
  {
    if Run(s) == LeadDot {
      LeadDotOnly(s);
    } else if Run(s) == ExpMark {
      LastStep(s);
    } else {
      LastStep(s);
      var p := s[..|s| - 1];
      LastStep(p);
      assert s[|s| - 2] == p[|p| - 1];
    }
  }

  /** The phase of a non-empty lexeme is reached from that of its prefix by
      its last character. */
  lemma LastStep(s: string)
    requires Run(s) != Start
    ensures |s| >= 1 && Run(s) == Delta(Run(s[..|s| - 1]), s[|s| - 1])
  {
  }

  /** The three ways `parse_number` fails, for the literal started with
      `start` at index `p` and stopped at `q`: a digit was demanded after a
      leading '.' or after the exponent marker (and sign), and the input
      ended or a non-digit was taken and dropped; or a letter followed a
      complete literal and was appended to `raw` without being taken. */
  ghost predicate FailureForm(text: string, p: nat, start: char, raw: string, q: nat)
    requires p <= q <= |text| && |raw| >= 1
  {
    || (&& (raw == "."
            || IsExpMarker(raw[|raw| - 1])
            || (|raw| >= 2 && IsExpMarker(raw[|raw| - 2]) && (raw[|raw| - 1] == '+' || raw[|raw| - 1] == '-')))
        && ((q == |text| && raw == [start] + text[p..q])
            || (&& p < q && !IsDecimal(text[q - 1]) && raw == [start] + text[p..q - 1]
                && !(IsExpMarker(raw[|raw| - 1]) && (text[q - 1] == '+' || text[q - 1] == '-')))))
    || (&& q < |text| && IsAsciiAlphabetic(text[q])
        && raw == [start] + text[p..q] + [text[q]]
        && IsNumberLexeme(raw[..|raw| - 1]) && Run(raw) == Reject)
  }

  /** Failure of `parse_number` is always `NumericLiteralInvalidChar`, in one
      of the three forms. */
  lemma ParseNumberFailure(c: Cursor, start: char)
    requires c.next <= |c.text|
    requires '0' <= start <= '9' || start == '.'
    requires ParseNumber(c, start).result.Err?
    ensures var r := ParseNumber(c, start); var e := r.result.error;
      && e.NumericLiteralInvalidChar?
      && c.next <= r.cursor.next <= |c.text| && |e.raw| >= 1
      && FailureForm(c.text, c.next, start, e.raw, r.cursor.next)
  {
    var r := ParseNumber(c, start);
    ParseNumberOutcome(c, start);
    var raw := r.result.error.raw;
    if MissingDigit(c.text, c.next, r.cursor.next, [start], raw) {
      MissingDigitForm(c.text, c.next, r.cursor.next, start, raw);
    } else {
      LetterRejectedForm(c.text, c.next, r.cursor.next, start, raw);
    }
  }

  lemma MissingDigitForm(text: string, p: nat, q: nat, start: char, raw: string)
    requires p <= q <= |text|
    requires MissingDigit(text, p, q, [start], raw)
    ensures |raw| >= 1 && FailureForm(text, p, start, raw, q)
  {
    AwaitingShape(raw);
  }

  lemma LetterRejectedForm(text: string, p: nat, q: nat, start: char, raw: string)
    requires p <= q <= |text|
    requires LetterRejected(text, p, q, [start], raw)
    ensures |raw| >= 1 && FailureForm(text, p, start, raw, q)
  {
    assert raw[..|raw| - 1] == [start] + text[p..q];
  }
}
