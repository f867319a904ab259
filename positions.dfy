/**
  A reference definition of the human-readable position after reading a
  piece of text, and the proof that `consume_char` and `skip_whitespace`
  keep the counters equal to it. `consume_digit` does not: the module
  LexerProperties states by how much the counters then lag, and the module
  Scenarios shows it on concrete inputs.
 */
module Positions {
  import opened CharClass
  import opened LexerSpec
  import NumberShape

  /** Number of line feeds in `s`. */
  function Newlines(s: string): nat {
    NumberShape.Occurrences(s, '\n')
  }

  /** The 1-based column after reading `s` from a line start: one more than
      the number of characters after the last line feed. */
  function Column(s: string): nat {
    if s == [] then 1
    else if s[|s| - 1] == '\n' then 1
    else Column(s[..|s| - 1]) + 1
  }

  /** The counters of `c` are those reached by reading `seen` from the start. */
  ghost predicate Tracks(c: Cursor, seen: string) {
    c.line == 1 + Newlines(seen) && c.col == Column(seen) && c.offset == |seen|
  }

  /** The counters agree with everything taken from the input so far. */
  ghost predicate InSync(c: Cursor)
    requires c.next <= |c.text|
  {
    Tracks(c, c.text[..c.next])
  }

  /** A new lexer is at the start of the input, with nothing counted. */
  lemma NewInSync(text: string)
    ensures New(text).cursor.text == text && New(text).cursor.next == 0
    ensures New(text).balance == map[]
    ensures Tracks(New(text).cursor, []) && InSync(New(text).cursor)
  {
  }

  /** `consume_char` counts the character it takes. */
  lemma ConsumeCharTracks(c: Cursor, seen: string)
    requires Tracks(c, seen) && c.next < |c.text|
    ensures Tracks(ConsumeChar(c).1, seen + [c.text[c.next]])
  {
    var s := seen + [c.text[c.next]];
    assert s[..|s| - 1] == seen;
    assert multiset(s) == multiset(seen) + multiset{c.text[c.next]};
  }

  /** Hence `consume_char` keeps the counters in sync with the input. */
  lemma ConsumeCharInSync(c: Cursor)
    requires c.next < |c.text| && InSync(c)
    ensures InSync(ConsumeChar(c).1)
  {
    ConsumeCharTracks(c, c.text[..c.next]);
    assert c.text[..c.next] + [c.text[c.next]] == c.text[..c.next + 1];
  }

  /** `skip_whitespace` counts every whitespace character it skips. */
  lemma {:induction false} SkipWhitespaceTracks(c: Cursor, seen: string)
    requires Tracks(c, seen) && c.next <= |c.text|
    ensures var r := SkipWhitespace(c); Tracks(r, seen + c.text[c.next..r.next])
    decreases |c.text| - c.next
  {
    var r := SkipWhitespace(c);
    if c.next < |c.text| && IsWhitespace(c.text[c.next]) {
      var c1 := ConsumeChar(c).1;
      var seen1 := seen + [c.text[c.next]];
      ConsumeCharTracks(c, seen);
      SkipWhitespaceTracks(c1, seen1);
      assert SkipWhitespace(c1) == r;
      SliceCons(c.text, c.next, r.next, seen);
    } else {
      assert r == c;
      assert seen + c.text[c.next..r.next] == seen;
    }
  }

  /** Splitting the characters read into a first one and the rest. */
  lemma SliceCons(text: string, i: nat, j: nat, prefix: string)
    requires i < j <= |text|
    ensures (prefix + [text[i]]) + text[i + 1..j] == prefix + text[i..j]
  {
    assert text[i..j] == [text[i]] + text[i + 1..j];
  }

  /** Splitting the characters read at index `k`. */
  lemma SliceSplit(text: string, i: nat, k: nat, j: nat, prefix: string)
    requires i <= k <= j <= |text|
    ensures (prefix + text[i..k]) + text[k..j] == prefix + text[i..j]
  {
    assert text[i..j] == text[i..k] + text[k..j];
  }

  lemma SkipWhitespaceInSync(c: Cursor)
    requires c.next <= |c.text| && InSync(c)
    ensures SkipWhitespace(c).next <= |c.text| && InSync(SkipWhitespace(c))
  {
    var r := SkipWhitespace(c);
    SkipWhitespaceTracks(c, c.text[..c.next]);
    PrefixSplit(c.text, c.next, r.next);
  }

  /** The text read up to `j` is that up to `i` followed by the rest. */
  lemma PrefixSplit(text: string, i: nat, j: nat)
    requires i <= j <= |text|
    ensures text[..i] + text[i..j] == text[..j]
  {
    assert text[..j] == text[..i] + text[i..j];
  }

  /** Reading text without a line feed after `a` keeps the line and moves the
      column by its length. */
  lemma {:induction false} ReadWithoutNewline(a: string, b: string)
    requires '\n' !in b
    ensures Newlines(a + b) == Newlines(a) && Column(a + b) == Column(a) + |b|
    decreases |b|
  {
    assert multiset(a + b) == multiset(a) + multiset(b);
    if b != [] {
      var u := b[..|b| - 1];
      assert b[|b| - 1] in b;
      assert forall ch :: ch in u ==> ch in b;
      ReadWithoutNewline(a, u);
      assert a + b == (a + u) + [b[|b| - 1]];
      assert (a + b)[..|a + b| - 1] == a + u;
    } else {
      assert a + b == a;
    }
  }
}
