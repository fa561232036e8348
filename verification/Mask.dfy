/** Blanking out a source text's comments and string literals: a hand-written lexer that keeps
    every position. */
module Masker {
  // --- what opens and closes a comment or a literal -------------------------------------

  predicate Pair(s: string, i: int, first: char, second: char) {
    0 <= i < |s| - 1 && s[i] == first && s[i + 1] == second
  }

  predicate OpensLine(s: string, i: int) { Pair(s, i, '/', '/') }

  predicate OpensBlock(s: string, i: int) { Pair(s, i, '/', '*') }

  predicate ClosesBlock(s: string, i: int) { Pair(s, i, '*', '/') }

  predicate Quotes(s: string, i: int) {
    0 <= i < |s| && s[i] == '"'
  }

  predicate Triple(s: string, i: int) {
    Quotes(s, i) && Quotes(s, i + 1) && Quotes(s, i + 2)
  }

  predicate Opener(s: string, i: int) {
    OpensLine(s, i) || OpensBlock(s, i) || Quotes(s, i)
  }

  /** A comment opens with two slashes or a slash and a star, a literal with a quote. */
  ghost predicate Opens(s: string, i: int) {
    0 <= i < |s| && (s[i] == '"' || (s[i] == '/' && i + 1 < |s| && s[i + 1] in {'/', '*'}))
  }

  lemma OpenerOpens(s: string, i: int)
    ensures Opener(s, i) <==> Opens(s, i)
  {
  }

  // --- where each kind ends --------------------------------------------------------------

  /** The character at `k` of a literal opened at `i` follows an odd run of backslashes. */
  ghost predicate Escaped(s: string, i: nat, k: nat)
    requires i < k <= |s|
  {
    k > i + 1 && s[k - 1] == '\\' && !Escaped(s, i, k - 1)
  }

  /** An unescaped quote or newline, which ends a literal opened at `i`. */
  ghost predicate Terminator(s: string, i: nat, k: int) {
    i < k < |s| && !Escaped(s, i, k) && (s[k] == '"' || s[k] == '\n')
  }

  ghost function FirstTerminator(s: string, i: nat, k: nat): (t: nat)
    requires i < k <= |s|
    ensures k <= t <= |s| && (forall l :: k <= l < t ==> !Terminator(s, i, l)) && (t < |s| ==> Terminator(s, i, t))
    decreases |s| - k
  {
    if k == |s| || Terminator(s, i, k) then k else FirstTerminator(s, i, k + 1)
  }

  /** Just past the first terminator if it is a quote, at it if it is a newline, else the end. */
  ghost function StringEnd(s: string, i: nat): nat
    requires i < |s|
  {
    var t := FirstTerminator(s, i, i + 1);
    if t < |s| && s[t] == '"' then t + 1 else t
  }

  /** Where a block comment whose body goes on at `i` ends: comments inside it end first. */
  ghost function NestedEnd(s: string, i: nat): (e: nat)
    requires i <= |s|
    ensures i <= e <= |s|
    decreases |s| - i
  {
    if i == |s| then i
    else if OpensBlock(s, i) then NestedEnd(s, NestedEnd(s, i + 2))
    else if ClosesBlock(s, i) then i + 2
    else NestedEnd(s, i + 1)
  }

  /** Where the innermost `depth` comments open at `i` have all ended. */
  ghost function Unwound(s: string, i: nat, depth: nat): (e: nat)
    requires i <= |s|
    ensures i <= e <= |s|
    decreases depth
  {
    if depth == 0 then i else Unwound(s, NestedEnd(s, i), depth - 1)
  }

  lemma {:induction false} UnwoundAtEnd(s: string, depth: nat)
    ensures Unwound(s, |s|, depth) == |s|
  {
    if depth > 0 {
      UnwoundAtEnd(s, depth - 1);
    }
  }

  /** Two characters that open or close a block comment. */
  ghost predicate Bracket(s: string, k: int) {
    0 <= k < |s| - 1 && ((s[k] == '/' && s[k + 1] == '*') || (s[k] == '*' && s[k + 1] == '/'))
  }

  /** How a block comment ends, by the first bracket in what is left of it: at a closing one, just past
      it; at an opening one, where it ends once that comment has; without any, at the end of the text. */
  lemma {:induction false} NestedEndByBracket(s: string, i: nat, k: nat)
    requires i <= k <= |s| && forall l :: i <= l < k ==> !Bracket(s, l)
    ensures k == |s| ==> NestedEnd(s, i) == |s|
    ensures k < |s| - 1 && s[k] == '*' && s[k + 1] == '/' ==> NestedEnd(s, i) == k + 2
    ensures k < |s| - 1 && s[k] == '/' && s[k + 1] == '*' ==> NestedEnd(s, i) == NestedEnd(s, NestedEnd(s, k + 2))
    decreases k - i
  {
    if i < k {
      assert !Bracket(s, i);
      NestedEndByBracket(s, i + 1, k);
    }
  }

  /** The depth counter ends a comment where its nesting does. */
  method EndOfBlockComment(s: string, start: nat) returns (i: nat)
    requires OpensBlock(s, start)
    ensures i == NestedEnd(s, start + 2)
  {
    var depth: nat := 1;
    i := start + 2;
    while i < |s| && depth > 0
      invariant i <= |s| && Unwound(s, i, depth) == NestedEnd(s, start + 2)
      decreases |s| - i
    {
      if OpensBlock(s, i) {
        assert Unwound(s, i, depth) == Unwound(s, NestedEnd(s, NestedEnd(s, i + 2)), depth - 1);
        assert Unwound(s, i + 2, depth + 1) == Unwound(s, NestedEnd(s, i + 2), depth);
        depth, i := depth + 1, i + 2;
      } else if ClosesBlock(s, i) {
        depth, i := depth - 1, i + 2;
      } else {
        i := i + 1;
      }
    }
    if i == |s| {
      UnwoundAtEnd(s, depth);
    }
  }

  method EndOfString(s: string, start: nat) returns (e: nat)
    requires Quotes(s, start)
    ensures e == StringEnd(s, start)
  {
    var i := start + 1;
    while i < |s|
      invariant start < i <= |s| + 1
      invariant i <= |s| ==> !Escaped(s, start, i)
      invariant forall k :: start < k < i ==> !Terminator(s, start, k)
    {
      if s[i] == '\\' {
        assert i + 1 <= |s| && Escaped(s, start, i + 1);
        i := i + 2;
      } else if s[i] == '"' {
        assert Terminator(s, start, i);
        return i + 1;
      } else if s[i] == '\n' {
        assert Terminator(s, start, i);
        return i;
      } else {
        i := i + 1;
      }
    }
    return |s|;
  }

  function FindNewline(s: string, i: nat): (e: nat)
    requires i <= |s|
    ensures i <= e <= |s| && (forall k :: i <= k < e ==> s[k] != '\n') && (e < |s| ==> s[e] == '\n')
    decreases |s| - i
  {
    if i == |s| || s[i] == '\n' then i else FindNewline(s, i + 1)
  }

  function FindTriple(s: string, i: nat): (e: nat)
    requires i <= |s|
    ensures i <= e <= |s| && (forall k :: i <= k < e ==> !Triple(s, k)) && (e < |s| ==> Triple(s, e))
    decreases |s| - i
  {
    if i == |s| || Triple(s, i) then i else FindTriple(s, i + 1)
  }

  // --- tokens ----------------------------------------------------------------------------

  /** Where the comment or literal opened at `i` ends. */
  ghost function SpanEnd(s: string, i: nat): (e: nat)
    requires Opener(s, i)
    ensures i < e <= |s|
  {
    if OpensLine(s, i) then FindNewline(s, i)
    else if OpensBlock(s, i) then NestedEnd(s, i + 2)
    else if Triple(s, i) then
      var t := FindTriple(s, i + 3);
      if t < |s| then t + 3 else t
    else StringEnd(s, i)
  }

  ghost predicate ThreeQuotes(s: string, i: int) {
    0 <= i < |s| - 2 && s[i] == '"' && s[i + 1] == '"' && s[i + 2] == '"'
  }

  /** A line comment runs up to the next newline; a literal of three quotes runs to just past the next
      three; either runs to the end of the text if there is none. */
  lemma SpanEndByText(s: string, i: nat)
    requires Opens(s, i) && Opener(s, i)
    ensures s[i] == '/' && s[i + 1] == '/' ==>
      var e := SpanEnd(s, i);
      (forall k :: i <= k < e ==> s[k] != '\n') && (e < |s| ==> s[e] == '\n')
    ensures ThreeQuotes(s, i) ==>
      var e := SpanEnd(s, i);
      || (e == |s| && forall k :: i + 3 <= k ==> !ThreeQuotes(s, k))
      || (e >= i + 6 && ThreeQuotes(s, e - 3) && forall k :: i + 3 <= k < e - 3 ==> !ThreeQuotes(s, k))
    ensures s[i] == '"' && !ThreeQuotes(s, i) ==> SpanEnd(s, i) == StringEnd(s, i)
    ensures s[i] == '/' && s[i + 1] == '*' ==> SpanEnd(s, i) == NestedEnd(s, i + 2)
  {
    forall k ensures Triple(s, k) <==> ThreeQuotes(s, k) {
    }
  }

  function Blank(c: char): char {
    if c == '\n' then '\n' else ' '
  }

  function Blanked(text: string): string {
    seq(|text|, k requires 0 <= k < |text| => Blank(text[k]))
  }

  /** The text from `i` on, which starts a token: comments and literals blanked, code kept. */
  ghost function MaskFrom(s: string, i: nat): string
    requires i <= |s|
    decreases |s| - i
  {
    if i == |s| then ""
    else if Opener(s, i) then Blanked(s[i..SpanEnd(s, i)]) + MaskFrom(s, SpanEnd(s, i))
    else [s[i]] + MaskFrom(s, i + 1)
  }

  method EndOfSpan(s: string, i: nat) returns (end: nat)
    requires Opener(s, i)
    ensures end == SpanEnd(s, i)
  {
    if OpensLine(s, i) {
      end := FindNewline(s, i);
    } else if OpensBlock(s, i) {
      end := EndOfBlockComment(s, i);
    } else if Triple(s, i) {
      end := FindTriple(s, i + 3);
      end := if end < |s| then end + 3 else end;
    } else {
      end := EndOfString(s, i);
    }
  }

  /** Blank the comments and string literals out of a text. */
  method Mask(s: string) returns (out: string)
    ensures out == MaskFrom(s, 0)
  {
    out := "";
    var i := 0;
    while i < |s|
      invariant i <= |s| && out + MaskFrom(s, i) == MaskFrom(s, 0)
    {
      MaskStep(s, i, out);
      if !Opener(s, i) {
        out, i := out + [s[i]], i + 1;
      } else {
        var end := EndOfSpan(s, i);
        out, i := out + Blanked(s[i..end]), end;
      }
    }
  }

  lemma MaskStep(s: string, i: nat, out: string)
    requires i < |s|
    ensures Opener(s, i) ==>
              out + MaskFrom(s, i) == out + Blanked(s[i..SpanEnd(s, i)]) + MaskFrom(s, SpanEnd(s, i))
    ensures !Opener(s, i) ==> out + MaskFrom(s, i) == out + [s[i]] + MaskFrom(s, i + 1)
  {
    var e := if Opener(s, i) then SpanEnd(s, i) else i + 1;
    var piece := if Opener(s, i) then Blanked(s[i..e]) else [s[i]];
    assert out + (piece + MaskFrom(s, e)) == (out + piece) + MaskFrom(s, e);
  }

  // --- what a mask keeps -------------------------------------------------------------------

  /** `out` is as long as the text from `i` on; each of its characters is the one that stood there,
      or a space where no newline stood. */
  ghost predicate Keeps(s: string, i: nat, out: string) {
    && i + |out| == |s|
    && forall k :: 0 <= k < |out| ==> out[k] == s[i + k] || (out[k] == ' ' && s[i + k] != '\n')
  }

  lemma KeepsAfter(s: string, i: nat, piece: string, rest: string)
    requires Keeps(s, i + |piece|, rest)
    requires forall k :: 0 <= k < |piece| ==> piece[k] == s[i + k] || piece[k] == Blank(s[i + k])
    ensures Keeps(s, i, piece + rest)
  {
    var out := piece + rest;
    forall k | 0 <= k < |out| ensures out[k] == s[i + k] || (out[k] == ' ' && s[i + k] != '\n') {
      if |piece| <= k {
        assert out[k] == rest[k - |piece|] && s[i + k] == s[i + |piece| + (k - |piece|)];
      }
    }
  }

  /** Length and newlines survive, and so does every character that is not turned into a space. */
  lemma {:induction false} MaskKeepsPositions(s: string, i: nat)
    requires i <= |s|
    ensures Keeps(s, i, MaskFrom(s, i))
    decreases |s| - i
  {
    if i < |s| {
      var e := if Opener(s, i) then SpanEnd(s, i) else i + 1;
      MaskKeepsPositions(s, e);
      KeepsAfter(s, i, if Opener(s, i) then Blanked(s[i..e]) else [s[i]], MaskFrom(s, e));
    }
  }

  /** At a token, the mask starts with the token - itself if it is code, all spaces and newlines if it is a
      comment or a literal - and goes on with the mask of what follows. */
  lemma MaskByToken(s: string, i: nat)
    requires i < |s|
    ensures !Opens(s, i) ==> MaskFrom(s, i) == [s[i]] + MaskFrom(s, i + 1)
    ensures Opens(s, i) <==> Opener(s, i)
    ensures Opener(s, i) ==>
      var e, out := SpanEnd(s, i), MaskFrom(s, i);
      && |out| == |s| - i && out[e - i..] == MaskFrom(s, e)
      && forall k :: i <= k < e ==> out[k - i] == if s[k] == '\n' then '\n' else ' '
  {
    OpenerOpens(s, i);
    MaskKeepsPositions(s, i);
    if Opener(s, i) {
      var e := SpanEnd(s, i);
      assert MaskFrom(s, i) == Blanked(s[i..e]) + MaskFrom(s, e);
    }
  }

  ghost predicate OnlyCode(s: string) {
    forall k :: !Opens(s, k)
  }

  lemma CodeAfter(head: string, rest: string)
    requires OnlyCode(rest) && forall k :: 0 <= k < |head| ==> !Opens(head + rest, k)
    ensures OnlyCode(head + rest)
  {
    forall k ensures !Opens(head + rest, k) {
      if |head| <= k {
        assert !Opens(rest, k - |head|);
      }
    }
  }

  /** Nothing opens a comment or a literal in what is left. */
  lemma {:induction false} MaskLeavesCode(s: string, i: nat)
    requires i <= |s|
    ensures OnlyCode(MaskFrom(s, i))
    decreases |s| - i
  {
    if i < |s| {
      var e := if Opener(s, i) then SpanEnd(s, i) else i + 1;
      MaskLeavesCode(s, e);
      MaskKeepsPositions(s, i);
      OpenerOpens(s, i);
      CodeAfter(if Opener(s, i) then Blanked(s[i..e]) else [s[i]], MaskFrom(s, e));
    }
  }

  lemma {:induction false} CodeIsItsMask(s: string, i: nat)
    requires OnlyCode(s) && i <= |s|
    ensures MaskFrom(s, i) == s[i..]
    decreases |s| - i
  {
    if i < |s| {
      OpenerOpens(s, i);
      assert !Opens(s, i);
      CodeIsItsMask(s, i + 1);
    }
  }

  /** A text is its own mask exactly when nothing in it opens a comment or a literal. */
  lemma MaskFixesCode(s: string)
    ensures MaskFrom(s, 0) == s <==> OnlyCode(s)
  {
    MaskLeavesCode(s, 0);
    if OnlyCode(s) {
      CodeIsItsMask(s, 0);
    }
  }

  lemma MaskIdempotent(s: string)
    ensures MaskFrom(MaskFrom(s, 0), 0) == MaskFrom(s, 0)
  {
    MaskLeavesCode(s, 0);
    MaskFixesCode(MaskFrom(s, 0));
  }
}
