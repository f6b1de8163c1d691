/**
 * The tokenizer as the loops it runs: `Tokenize` scans the pattern and
 * pushes and pops tokens, `HandleParen` recurses into each branch of a
 * group, `SplitByPipe` and `FindClosingParen` scan a group's text. Each is
 * proved equal to its counterpart in `TokenizerSpec`, `Pipes` or `Parens`.
 */
module Tokenizer {
  import opened Tokens
  import opened Atoms
  import opened Parens
  import opened Pipes
  import Spec = TokenizerSpec

  /**
   * Splits a group's text into its branches: one more than there are split
   * points, and joined back with `|` they give the text with each `\|`
   * replaced by `|`.
   */
  method SplitByPipe(pattern: seq<char>) returns (parts: seq<seq<char>>)
    ensures parts == Split(pattern)
    ensures |parts| == 1 + CountSplits(pattern, |pattern|)
    ensures Join(parts) == Unescape(pattern)
  {
    parts := [];
    var depth := 0;
    var current: seq<char> := [];
    var i := 0;
    assert pattern[0..] == pattern;
    GlueEmpty(SplitFrom(pattern, 0));
    while i < |pattern|
      invariant 0 <= i <= |pattern|
      invariant Glue(parts, current, SplitFrom(pattern[i..], depth)) == Split(pattern)
      decreases |pattern| - i
    {
      assert pattern[i..][1..] == pattern[i + 1..];
      if pattern[i] == '\\' && i + 1 < |pattern| && pattern[i + 1] == '|' {
        assert pattern[i..][2..] == pattern[i + 2..];
        GluePrepend(parts, current, '|', SplitFrom(pattern[i + 2..], depth));
        current := current + ['|'];
        i := i + 1;
      } else if pattern[i] == '|' && depth == 0 {
        GlueSeparated(parts, current, SplitFrom(pattern[i + 1..], depth));
        parts := parts + [current];
        current := [];
      } else if pattern[i] == '(' {
        GluePrepend(parts, current, '(', SplitFrom(pattern[i + 1..], depth + 1));
        current := current + [pattern[i]];
        depth := depth + 1;
      } else if pattern[i] == ')' {
        GluePrepend(parts, current, ')', SplitFrom(pattern[i + 1..], depth - 1));
        current := current + [pattern[i]];
        depth := depth - 1;
      } else {
        GluePrepend(parts, current, pattern[i], SplitFrom(pattern[i + 1..], depth));
        current := current + [pattern[i]];
      }
      i := i + 1;
    }
    assert pattern[i..] == [];
    GlueEnd(parts, current);
    parts := parts + [current];
    SplitCount(pattern);
    SplitJoin(pattern);
  }

  /** The parts found so far, the current part, and the parts of the rest. */
  function Glue(parts: seq<seq<char>>, current: seq<char>, rest: seq<seq<char>>): seq<seq<char>>
    requires |rest| >= 1
  {
    parts + [current + rest[0]] + rest[1..]
  }

  lemma GlueEmpty(rest: seq<seq<char>>)
    requires |rest| >= 1
    ensures Glue([], [], rest) == rest
  {
    assert [] + rest[0] == rest[0];
    assert [rest[0]] + rest[1..] == rest;
  }

  lemma GlueEnd(parts: seq<seq<char>>, current: seq<char>)
    ensures Glue(parts, current, [[]]) == parts + [current]
  {
    assert current + [] == current;
  }

  lemma GluePrepend(parts: seq<seq<char>>, current: seq<char>, c: char, rest: seq<seq<char>>)
    requires |rest| >= 1
    ensures Glue(parts, current, Prepend(c, rest)) == Glue(parts, current + [c], rest)
  {
    assert Prepend(c, rest)[1..] == rest[1..];
    assert current + ([c] + rest[0]) == (current + [c]) + rest[0];
  }

  lemma GlueSeparated(parts: seq<seq<char>>, current: seq<char>, rest: seq<seq<char>>)
    requires |rest| >= 1
    ensures Glue(parts, current, [[]] + rest) == Glue(parts + [current], [], rest)
  {
    assert ([[]] + rest)[1..] == rest;
    assert ([[]] + rest)[0] == [];
    assert current + [] == current;
    assert [] + rest[0] == rest[0];
    assert rest == [rest[0]] + rest[1..];
    assert parts + [current] + rest == (parts + [current]) + [rest[0]] + rest[1..];
  }

  /**
   * The index of the `)` closing the group opened at `start`, or -1: the
   * first index after `start` where the nesting depth returns to 0.
   */
  method FindClosingParen(chars: seq<char>, start: nat) returns (r: int)
    ensures r == ClosingParen(chars, start)
    ensures r == -1 <==> forall j :: start < j < |chars| ==> DepthAfter(chars, start, j) != 0
    ensures r != -1 ==>
      start < r < |chars| && chars[r] == ')' && DepthAfter(chars, start, r) == 0 &&
      forall j :: start < j < r ==> DepthAfter(chars, start, j) > 0
  {
    var depth := 1;
    var i := start + 1;
    while i < |chars| && depth > 0
      invariant start + 1 <= i
      invariant depth >= 0
      invariant depth > 0 ==> ClosingFrom(chars, i, depth) == ClosingParen(chars, start)
      invariant depth == 0 ==> i - 1 == ClosingParen(chars, start)
      decreases |chars| - i
    {
      var c := chars[i];
      if c == '(' { depth := depth + 1; }
      if c == ')' { depth := depth - 1; }
      i := i + 1;
    }
    r := if depth == 0 then i - 1 else -1;
    ClosingParenCharacterized(chars, start);
  }

  /** Tokenizes the group opened at `i`, each branch with `Tokenize`. */
  method HandleParen(chars: seq<char>, i: nat) returns (r: Result<(Token, nat)>)
    requires i < |chars|
    ensures r == Spec.ParenGroup(chars, i)
    decreases |chars|, 0
  {
    var close := FindClosingParen(chars, i);
    if close == -1 {
      return Err(UnclosedParen);
    }
    var content := chars[i + 1..close];
    var parts := SplitByPipe(content);
    SplitPartsNoLonger(content);
    ghost var all := Spec.TokenizeAll(parts, |chars|);
    assert parts[0..] == parts;
    assert all.Ok? ==> all.value == [] + all.value;
    var branches: seq<seq<Token>> := [];
    var k := 0;
    while k < |parts|
      invariant 0 <= k <= |parts|
      invariant Spec.TokenizeAll(parts[k..], |chars|).Err? ==> all.Err? && all.error == Spec.TokenizeAll(parts[k..], |chars|).error
      invariant Spec.TokenizeAll(parts[k..], |chars|).Ok? ==> all == Ok(branches + Spec.TokenizeAll(parts[k..], |chars|).value)
      decreases |parts| - k
    {
      assert parts[k..][1..] == parts[k + 1..];
      var b := Tokenize(parts[k]);
      if b.Err? {
        return Err(b.error);
      }
      ghost var tail := Spec.TokenizeAll(parts[k + 1..], |chars|);
      assert tail.Ok? ==> (branches + [b.value]) + tail.value == branches + ([b.value] + tail.value);
      branches := branches + [b.value];
      k := k + 1;
    }
    assert parts[k..] == [];
    assert branches + [] == branches;
    assert all == Ok(branches);
    return Ok((Alternation(branches), close + 1));
  }

  /** The tokens of `pattern`, or the first error met while scanning it. */
  method Tokenize(pattern: seq<char>) returns (r: Result<seq<Token>>)
    ensures r == Spec.Tokenize(pattern)
    decreases |pattern|, 1
  {
    var chars := pattern;
    var result: seq<Token> := [];
    var i := 0;
    while i < |chars|
      invariant 0 <= i <= |chars|
      invariant Spec.Scan(chars, i, result) == Spec.Tokenize(pattern)
      decreases |chars| - i
    {
      var c := chars[i];
      if c == '\\' {
        if i + 1 == |chars| {
          return Err(DanglingEscape);
        }
        result := result + [HandleSpecialChar(chars[i + 1])];
        i := i + 2;
      } else if c == '(' {
        var paren := HandleParen(chars, i);
        if paren.Err? {
          return Err(paren.error);
        }
        result := result + [paren.value.0];
        i := paren.value.1;
      } else if c == '[' {
        var bracket := HandleBracket(chars, i);
        if bracket.Err? {
          return Err(bracket.error);
        }
        result := result + [bracket.value.0];
        i := bracket.value.1;
      } else if c == '^' {
        if i == 0 {
          result := result + [Anchor(Start)];
        } else {
          result := result + [Literal(c)];
        }
        i := i + 1;
      } else if c == '$' {
        if i == |pattern| - 1 {
          result := result + [Anchor(End)];
        } else {
          result := result + [Literal(c)];
        }
        i := i + 1;
      } else if c == '.' {
        result := result + [Dot];
        i := i + 1;
      } else if IsQuantifierChar(c) {
        if |result| == 0 {
          return Err(QuantifierAtStart);
        }
        var previous := result[|result| - 1];
        result := result[..|result| - 1];
        result := result + [Quantifier(QuantifierOf(c), previous)];
        i := i + 1;
      } else {
        result := result + [Literal(c)];
        i := i + 1;
      }
    }
    return Ok(result);
  }
}
