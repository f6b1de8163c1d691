/** Parenthesis nesting, and where the group opened at a given index closes. */
module Parens {

  /** How a character changes the nesting depth: `(` opens, `)` closes. */
  function Delta(c: char): int {
    if c == '(' then 1 else if c == ')' then -1 else 0
  }

  /** Opening minus closing parentheses in `s`, counting escaped ones too. */
  function Depth(s: seq<char>): int {
    if s == [] then 0 else Depth(s[..|s| - 1]) + Delta(s[|s| - 1])
  }

  lemma DepthSnoc(s: seq<char>, c: char)
    ensures Depth(s + [c]) == Depth(s) + Delta(c)
  {
    assert (s + [c])[..|s + [c]| - 1] == s;
  }

  lemma {:induction false} DepthCons(c: char, s: seq<char>)
    ensures Depth([c] + s) == Delta(c) + Depth(s)
    decreases |s|
  {
    if s != [] {
      var t := s[..|s| - 1];
      assert [c] + s == ([c] + t) + [s[|s| - 1]];
      assert s == t + [s[|s| - 1]];
      DepthSnoc([c] + t, s[|s| - 1]);
      DepthSnoc(t, s[|s| - 1]);
      DepthCons(c, t);
    } else {
      assert [c] + s == [] + [c];
      DepthSnoc([], c);
    }
  }

  /**
   * The nesting depth just after the character at `j`, for a group whose
   * `(` is at `start`: one for that `(`, plus every parenthesis after it.
   */
  function DepthAfter(chars: seq<char>, start: nat, j: nat): int
    requires start < j < |chars|
  {
    1 + Depth(chars[start + 1..j + 1])
  }

  /** Scans from `i` with nesting `depth` for the index where it drops to 0. */
  function ClosingFrom(chars: seq<char>, i: nat, depth: int): int
    decreases |chars| - i
  {
    if i >= |chars| then -1
    else
      var d := depth + Delta(chars[i]);
      if d == 0 then i else ClosingFrom(chars, i + 1, d)
  }

  /**
   * The index of the `)` that closes the group opened at `start`, or -1. The
   * backslash test of the scan compares against the length of a
   * one-character string and never holds, so every parenthesis counts.
   */
  function ClosingParen(chars: seq<char>, start: nat): int {
    ClosingFrom(chars, start + 1, 1)
  }

  lemma {:induction false} ClosingFromCharacterized(chars: seq<char>, start: nat, i: nat, depth: int)
    requires start < i <= |chars|
    requires depth > 0 && depth == 1 + Depth(chars[start + 1..i])
    requires forall j :: start < j < i ==> DepthAfter(chars, start, j) > 0
    ensures var r := ClosingFrom(chars, i, depth);
      (r == -1 <==> forall j :: i <= j < |chars| ==> DepthAfter(chars, start, j) != 0) &&
      (r != -1 ==>
        i <= r < |chars| && DepthAfter(chars, start, r) == 0 &&
        forall j :: start < j < r ==> DepthAfter(chars, start, j) > 0)
    decreases |chars| - i
  {
    if i < |chars| {
      assert chars[start + 1..i + 1] == chars[start + 1..i] + [chars[i]];
      DepthSnoc(chars[start + 1..i], chars[i]);
      var d := depth + Delta(chars[i]);
      assert d == DepthAfter(chars, start, i);
      if d != 0 {
        ClosingFromCharacterized(chars, start, i + 1, d);
      }
    }
  }

  /**
   * The group opened at `start` has no closing index (-1) exactly when the
   * nesting depth never returns to 0; otherwise its closing index is the
   * first one after `start` where the depth is 0, and it holds a `)`.
   */
  lemma ClosingParenCharacterized(chars: seq<char>, start: nat)
    ensures var r := ClosingParen(chars, start);
      (r == -1 <==> forall j :: start < j < |chars| ==> DepthAfter(chars, start, j) != 0) &&
      (r != -1 ==>
        start < r < |chars| && chars[r] == ')' && DepthAfter(chars, start, r) == 0 &&
        forall j :: start < j < r ==> DepthAfter(chars, start, j) > 0)
  {
    var r := ClosingParen(chars, start);
    if start + 1 <= |chars| {
      ClosingFromCharacterized(chars, start, start + 1, 1);
      if r != -1 {
        var before := chars[start + 1..r];
        assert chars[start + 1..r + 1] == before + [chars[r]];
        DepthSnoc(before, chars[r]);
        if r > start + 1 {
          assert DepthAfter(chars, start, r - 1) > 0;
          assert chars[start + 1..r - 1 + 1] == before;
        }
      }
    }
  }
}
