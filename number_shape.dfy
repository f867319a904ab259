/**
  An independent reference definition of the decimal numeric lexemes the
  lexer accepts, as a deterministic automaton run over the lexeme:

      INT  := [0-9]+
      NUM  := ( [0-9]+ '.' [0-9]* | '.' [0-9]+ | [0-9]+ ) EXP?
      EXP  := [eE] [+-]? [0-9]+

  and the facts about such lexemes that the lexer relies on: how many dots
  and exponent markers they hold, and where.
 */
module NumberShape {

  datatype Phase =
    | Start      // nothing read
    | LeadDot    // a leading '.', a digit must follow
    | IntPart    // digits only
    | FracPart   // a '.' has been read, no exponent
    | ExpMark    // just read 'e' or 'E'
    | ExpSign    // just read the exponent's sign
    | ExpDigits  // at least one exponent digit
    | Reject     // no extension is a lexeme

  predicate IsDecimal(ch: char) { '0' <= ch <= '9' }

  predicate IsExpMarker(ch: char) { ch == 'e' || ch == 'E' }

  /** The characters whose presence makes a lexeme floating point. */
  predicate IsMarker(ch: char) { ch == '.' || IsExpMarker(ch) }

  function Delta(q: Phase, ch: char): Phase {
    match q
    case Start => if IsDecimal(ch) then IntPart else if ch == '.' then LeadDot else Reject
    case LeadDot => if IsDecimal(ch) then FracPart else Reject
    case IntPart =>
      if IsDecimal(ch) then IntPart
      else if ch == '.' then FracPart
      else if IsExpMarker(ch) then ExpMark
      else Reject
    case FracPart =>
      if IsDecimal(ch) then FracPart else if IsExpMarker(ch) then ExpMark else Reject
    case ExpMark =>
      if ch == '+' || ch == '-' then ExpSign else if IsDecimal(ch) then ExpDigits else Reject
    case ExpSign => if IsDecimal(ch) then ExpDigits else Reject
    case ExpDigits => if IsDecimal(ch) then ExpDigits else Reject
    case Reject => Reject
  }

  /** The phase reached after reading `s` from the start. */
  function Run(s: string): Phase {
    if s == [] then Start else Delta(Run(s[..|s| - 1]), s[|s| - 1])
  }

  predicate Accepting(q: Phase) { q == IntPart || q == FracPart || q == ExpDigits }

  /** `s` is a complete decimal numeric lexeme. */
  predicate IsNumberLexeme(s: string) { Accepting(Run(s)) }

  lemma RunAppend(s: string, ch: char)
    ensures Run(s + [ch]) == Delta(Run(s), ch)
  {
    assert (s + [ch])[..|s|] == s;
  }

  lemma {:induction false} RunAppendSeq(s: string, t: string)
    requires Run(s) == Reject
    ensures Run(s + t) == Reject
    decreases |t|
  {
    if t != [] {
      var u := t[..|t| - 1];
      assert s + t == (s + u) + [t[|t| - 1]];
      RunAppendSeq(s, u);
      RunAppend(s + u, t[|t| - 1]);
    } else {
      assert s + t == s;
    }
  }

  /** A lexeme without '.', 'e' or 'E' is exactly one in the integer phase
      (or the empty one): the basis of the Integer / FloatingPoint hint. */
  lemma {:induction false} IntegerIffNoMarker(s: string)
    requires Run(s) != Reject
    ensures (Run(s) == Start || Run(s) == IntPart) <==> (forall i :: 0 <= i < |s| ==> !IsMarker(s[i]))
    decreases |s|
  {
    if s != [] {
      var p := s[..|s| - 1];
      var ch := s[|s| - 1];
      assert s == p + [ch];
      RunAppend(p, ch);
      assert Run(p) != Reject;
      IntegerIffNoMarker(p);
      assert forall i :: 0 <= i < |p| ==> s[i] == p[i];
    }
  }

  /** Number of occurrences of `ch` in `s`. */
  function Occurrences(s: string, ch: char): nat {
    multiset(s)[ch]
  }

  /** What each live phase says about the dots and exponent markers read. */
  ghost predicate MarkersFit(s: string) {
    var dots := Occurrences(s, '.');
    var exps := Occurrences(s, 'e') + Occurrences(s, 'E');
    match Run(s)
    case Start => s == []
    case IntPart => dots == 0 && exps == 0
    case LeadDot => dots == 1 && exps == 0
    case FracPart => dots == 1 && exps == 0
    case ExpMark => dots <= 1 && exps == 1
    case ExpSign => dots <= 1 && exps == 1
    case ExpDigits => dots <= 1 && exps == 1
    case Reject => true
  }

  lemma {:induction false} MarkersFitAll(s: string)
    ensures MarkersFit(s)
    decreases |s|
  {
    if s != [] {
      var p := s[..|s| - 1];
      var ch := s[|s| - 1];
      assert s == p + [ch];
      assert multiset(s) == multiset(p) + multiset{ch};
      RunAppend(p, ch);
      MarkersFitAll(p);
    }
  }

  /** No '.' follows an exponent marker in a lexeme that is still live. */
  lemma {:induction false} NoDotAfterExponent(s: string, i: nat, j: nat)
    requires Run(s) != Reject
    requires i < j < |s| && IsExpMarker(s[i])
    ensures s[j] != '.'
    decreases |s|
  {
    var p := s[..|s| - 1];
    var ch := s[|s| - 1];
    assert s == p + [ch];
    RunAppend(p, ch);
    if j < |s| - 1 {
      assert p[i] == s[i] && p[j] == s[j];
      NoDotAfterExponent(p, i, j);
    } else {
      ExpPhaseAfterMarker(p, i);
    }
  }

  /** Once an exponent marker has been read, a live run stays in the
      exponent phases. */
  lemma {:induction false} ExpPhaseAfterMarker(s: string, i: nat)
    requires Run(s) != Reject
    requires i < |s| && IsExpMarker(s[i])
    ensures Run(s) == ExpMark || Run(s) == ExpSign || Run(s) == ExpDigits
    decreases |s|
  {
    var p := s[..|s| - 1];
    var ch := s[|s| - 1];
    assert s == p + [ch];
    RunAppend(p, ch);
    if i < |s| - 1 {
      assert p[i] == s[i];
      ExpPhaseAfterMarker(p, i);
    }
  }

  /** The shape facts together: a numeric lexeme holds at most one '.', at
      most one exponent marker, no '.' after the exponent marker, and ends in
      a digit or in the '.' of its fraction. */
  lemma LexemeShape(s: string)
    requires IsNumberLexeme(s)
    ensures Occurrences(s, '.') <= 1 && Occurrences(s, 'e') + Occurrences(s, 'E') <= 1
    ensures forall i, j :: 0 <= i < j < |s| && IsExpMarker(s[i]) ==> s[j] != '.'
    ensures s != [] && (IsDecimal(s[|s| - 1]) || (s[|s| - 1] == '.' && Run(s) == FracPart))
  {
    MarkersFitAll(s);
    forall i, j | 0 <= i < j < |s| && IsExpMarker(s[i]) ensures s[j] != '.' {
      NoDotAfterExponent(s, i, j);
    }
    var p := s[..|s| - 1];
    assert s == p + [s[|s| - 1]];
    RunAppend(p, s[|s| - 1]);
  }

  /** The characters a live run can hold. */
  predicate IsLexemeChar(ch: char) { IsDecimal(ch) || IsMarker(ch) || ch == '+' || ch == '-' }

  lemma {:induction false} LiveChars(s: string)
    requires Run(s) != Reject
    ensures forall i :: 0 <= i < |s| ==> IsLexemeChar(s[i])
    decreases |s|
  {
    if s != [] {
      var p := s[..|s| - 1];
      assert s == p + [s[|s| - 1]];
      RunAppend(p, s[|s| - 1]);
      LiveChars(p);
      assert forall i :: 0 <= i < |p| ==> s[i] == p[i];
    }
  }

  /** The only lexeme waiting for the digit after a leading '.' is ".". */
  lemma LeadDotOnly(s: string)
    requires Run(s) == LeadDot
    ensures s == "."
  {
    var p := s[..|s| - 1];
    assert s == p + [s[|s| - 1]];
    RunAppend(p, s[|s| - 1]);
    MarkersFitAll(p);
  }
}
