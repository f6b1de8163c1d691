/** What the tokenizer promises, proved about the functions of `TokenizerSpec`. */
module TokenizerProperties {
  import opened Tokens
  import opened Atoms
  import opened Parens
  import opened Pipes
  import opened TokenizerSpec

  /**
   * One iteration emits at most one token net: a quantifier replaces the
   * last token, every other character adds one.
   */
  lemma StepNetOneToken(chars: seq<char>, i: nat, acc: seq<Token>)
    requires i < |chars|
    ensures var r := Step(chars, i, acc);
      r.Ok? ==> |acc| <= |r.value.0| <= |acc| + 1 && (IsQuantifierChar(chars[i]) <==> |r.value.0| == |acc|)
  {
  }

  lemma {:induction false} ScanNoLonger(chars: seq<char>, i: nat, acc: seq<Token>)
    requires i <= |chars|
    ensures Scan(chars, i, acc).Ok? ==> |Scan(chars, i, acc).value| <= |acc| + |chars| - i
    decreases |chars| - i
  {
    if i < |chars| {
      StepNetOneToken(chars, i, acc);
      match Step(chars, i, acc)
      case Err(_) =>
      case Ok((next, j)) => ScanNoLonger(chars, j, next);
    }
  }

  /** A pattern never has more tokens than characters. */
  lemma TokenizeNoLonger(pattern: seq<char>)
    ensures Tokenize(pattern).Ok? ==> |Tokenize(pattern).value| <= |pattern|
  {
    ScanNoLonger(pattern, 0, []);
  }

  /**
   * A quantifier character fails when nothing has been emitted yet;
   * otherwise it wraps the last token and the token count is unchanged.
   */
  lemma QuantifierWrapsPrevious(chars: seq<char>, i: nat, acc: seq<Token>)
    requires i < |chars| && IsQuantifierChar(chars[i])
    ensures Step(chars, i, acc).Err? <==> acc == []
    ensures acc == [] ==> Step(chars, i, acc).error == QuantifierAtStart
    ensures acc != [] ==>
      var (next, j) := Step(chars, i, acc).value;
      j == i + 1 && |next| == |acc| && next[..|acc| - 1] == acc[..|acc| - 1] &&
      next[|acc| - 1] == Quantifier(QuantifierOf(chars[i]), acc[|acc| - 1])
  {
  }

  /** A (sub-)pattern that starts with `?`, `+` or `*` is rejected. */
  lemma LeadingQuantifierRejected(pattern: seq<char>)
    requires |pattern| > 0 && IsQuantifierChar(pattern[0])
    ensures Tokenize(pattern) == Err(QuantifierAtStart)
  {
    assert Step(pattern, 0, []) == Err(QuantifierAtStart);
  }

  /** The characters the scanning loop treats as plain text or anchors. */
  predicate IsPlainChar(x: char) {
    x != '\\' && x != '(' && x != '[' && !IsQuantifierChar(x)
  }

  /**
   * The token of the character at `k` of a pattern without escapes, groups,
   * classes or quantifiers: `^` first and `$` last are anchors, `.` is the
   * dot, and everything else (a `^` or `$` elsewhere included) is a literal.
   */
  function PlainToken(chars: seq<char>, k: nat): Token
    requires k < |chars|
  {
    if chars[k] == '^' && k == 0 then Anchor(Start)
    else if chars[k] == '$' && k == |chars| - 1 then Anchor(End)
    else if chars[k] == '.' then Dot
    else Literal(chars[k])
  }

  lemma {:induction false} ScanPlain(chars: seq<char>, i: nat, acc: seq<Token>)
    requires i <= |chars|
    requires forall k :: 0 <= k < |chars| ==> IsPlainChar(chars[k])
    ensures var r := Scan(chars, i, acc);
      r.Ok? && |r.value| == |acc| + |chars| - i && r.value[..|acc|] == acc &&
      forall k :: i <= k < |chars| ==> r.value[|acc| + k - i] == PlainToken(chars, k)
    decreases |chars| - i
  {
    if i < |chars| {
      var next := acc + [PlainToken(chars, i)];
      var j: nat := i + 1;
      assert Step(chars, i, acc) == Ok((next, j));
      ScanPlain(chars, i + 1, next);
      var r := Scan(chars, i, acc);
      assert r == Scan(chars, i + 1, next);
      assert r.value[..|next|] == next;
      assert r.value[..|acc|] == r.value[..|next|][..|acc|];
      assert r.value[|acc|] == r.value[..|next|][|acc|];
    } else {
      assert acc[..|acc|] == acc;
    }
  }

  /**
   * A pattern without `\`, `(`, `[`, `?`, `+` or `*` has one token per
   * character, in order, each its `PlainToken`.
   */
  lemma PlainPatternTokens(pattern: seq<char>)
    requires forall k :: 0 <= k < |pattern| ==> IsPlainChar(pattern[k])
    ensures Tokenize(pattern).Ok? && |Tokenize(pattern).value| == |pattern|
    ensures forall k :: 0 <= k < |pattern| ==> Tokenize(pattern).value[k] == PlainToken(pattern, k)
  {
    ScanPlain(pattern, 0, []);
  }

  /**
   * A pattern free of `\ ( [ ^ $ . ? + *` tokenizes to one literal per
   * character, in order.
   */
  lemma LiteralPatternTokens(pattern: seq<char>)
    requires forall k :: 0 <= k < |pattern| ==>
      IsPlainChar(pattern[k]) && pattern[k] != '^' && pattern[k] != '$' && pattern[k] != '.'
    ensures Tokenize(pattern) == Ok(seq(|pattern|, k requires 0 <= k < |pattern| => Literal(pattern[k])))
  {
    PlainPatternTokens(pattern);
    var ts := Tokenize(pattern).value;
    assert forall k :: 0 <= k < |pattern| ==> ts[k] == Literal(pattern[k]) by {
      forall k | 0 <= k < |pattern| ensures ts[k] == Literal(pattern[k]) {
        assert ts[k] == PlainToken(pattern, k);
      }
    }
    assert ts == seq(|pattern|, k requires 0 <= k < |pattern| => Literal(pattern[k]));
  }

  /**
   * A backslash and the character after it become one escape token and
   * scanning resumes two characters later; a backslash that ends the
   * pattern is an error.
   */
  lemma EscapeConsumesTwo(chars: seq<char>, i: nat, acc: seq<Token>)
    requires i < |chars| && chars[i] == '\\'
    ensures i + 1 == |chars| <==> Step(chars, i, acc) == Err(DanglingEscape)
    ensures i + 1 < |chars| ==>
      var (next, j) := Step(chars, i, acc).value;
      j == i + 2 && next == acc + [HandleSpecialChar(chars[i + 1])] &&
      IsEscapeToken(next[|acc|]) && EscapeChar(next[|acc|]) == chars[i + 1]
  {
  }

  /**
   * A class `[` body `]` with no `]` in its body is one class token, negated
   * exactly when the body starts with `^`, whose characters are the rest of
   * the body.
   */
  lemma BracketPattern(body: seq<char>)
    requires forall k :: 0 <= k < |body| ==> body[k] != ']'
    ensures var negated := |body| > 0 && body[0] == '^';
      Tokenize(['['] + body + [']']) == Ok([Group(if negated then body[1..] else body, negated)])
  {
    var chars := ['['] + body + [']'];
    var close := |body| + 1;
    assert chars[close] == ']';
    var b := HandleBracket(chars, 0);
    assert b.Ok?;
    assert forall k :: 0 <= k < close ==> chars[k] != ']' by {
      forall k | 0 <= k < close ensures chars[k] != ']' {
        if k > 0 { assert chars[k] == body[k - 1]; }
      }
    }
    assert b.value.1 == close + 1;
    if |body| > 0 {
      assert chars[2..close] == body[1..];
    }
    assert chars[1..close] == body;
    var negated := |body| > 0 && body[0] == '^';
    assert chars[1] == '^' <==> negated;
    assert b.value.0 == Group(if negated then body[1..] else body, negated);
    var j: nat := close + 1;
    assert [] + [b.value.0] == [b.value.0];
    assert Step(chars, 0, []) == Ok(([b.value.0], j));
    assert Scan(chars, j, [b.value.0]) == Ok([b.value.0]);
  }

  lemma {:induction false} TokenizeAllCharacterized(parts: seq<seq<char>>, bound: nat)
    requires forall k :: 0 <= k < |parts| ==> |parts[k]| < bound
    ensures var r := TokenizeAll(parts, bound);
      (r.Ok? <==> forall k :: 0 <= k < |parts| ==> Tokenize(parts[k]).Ok?) &&
      (r.Ok? ==>
         |r.value| == |parts| &&
         forall k :: 0 <= k < |parts| ==> r.value[k] == Tokenize(parts[k]).value) &&
      (r.Err? ==>
         exists k :: 0 <= k < |parts| && Tokenize(parts[k]) == Err(r.error) &&
                     forall m :: 0 <= m < k ==> Tokenize(parts[m]).Ok?)
    decreases |parts|
  {
    if parts != [] {
      var tail := parts[1..];
      TokenizeAllCharacterized(tail, bound);
      assert forall k :: 1 <= k < |parts| ==> parts[k] == tail[k - 1];
      var r := TokenizeAll(parts, bound);
      if r.Err? && Tokenize(parts[0]).Ok? {
        var k :| 0 <= k < |tail| && Tokenize(tail[k]) == Err(r.error) &&
          forall m :: 0 <= m < k ==> Tokenize(tail[m]).Ok?;
        assert Tokenize(parts[k + 1]) == Err(r.error);
        assert forall m :: 0 <= m < k + 1 ==> Tokenize(parts[m]).Ok? by {
          forall m | 0 <= m < k + 1 ensures Tokenize(parts[m]).Ok? {
            if m > 0 { assert parts[m] == tail[m - 1]; }
          }
        }
      }
    }
  }

  /**
   * A group fails as unclosed exactly when its `(` has no closing index;
   * otherwise it is one alternation whose branches are, in order, the tokens
   * of each `|`-separated part of the text inside, and scanning resumes
   * after the `)`. When a part fails, the first failing part's error is the
   * group's.
   */
  lemma ParenGroupCharacterized(chars: seq<char>, i: nat)
    requires i < |chars|
    ensures ClosingParen(chars, i) == -1 ==> ParenGroup(chars, i) == Err(UnclosedParen)
    ensures ClosingParen(chars, i) != -1 ==>
      var close := ClosingParen(chars, i);
      i < close < |chars| &&
      var parts := Split(chars[i + 1..close]);
      var r := ParenGroup(chars, i);
      (r.Ok? <==> forall k :: 0 <= k < |parts| ==> Tokenize(parts[k]).Ok?) &&
      (r.Ok? ==>
         r.value.1 == close + 1 && r.value.0.Alternation? &&
         |r.value.0.branches| == |parts| &&
         forall k :: 0 <= k < |parts| ==> r.value.0.branches[k] == Tokenize(parts[k]).value) &&
      (r.Err? ==>
         exists k :: 0 <= k < |parts| && Tokenize(parts[k]) == Err(r.error) &&
                     forall m :: 0 <= m < k ==> Tokenize(parts[m]).Ok?)
  {
    var close := ClosingParen(chars, i);
    if close != -1 {
      ClosingParenCharacterized(chars, i);
      SplitPartsNoLonger(chars[i + 1..close]);
      TokenizeAllCharacterized(Split(chars[i + 1..close]), |chars|);
    }
  }

  /**
   * A branch that starts with a quantifier makes its group fail, unless an
   * earlier branch has already failed.
   */
  lemma QuantifierOpeningBranchRejected(chars: seq<char>, i: nat, k: nat)
    requires i < ClosingParen(chars, i) <= |chars|
    requires var parts := Split(chars[i + 1..ClosingParen(chars, i)]);
      k < |parts| && |parts[k]| > 0 && IsQuantifierChar(parts[k][0]) &&
      forall m :: 0 <= m < k ==> Tokenize(parts[m]).Ok?
    ensures ParenGroup(chars, i) == Err(QuantifierAtStart)
  {
    var parts := Split(chars[i + 1..ClosingParen(chars, i)]);
    ParenGroupCharacterized(chars, i);
    LeadingQuantifierRejected(parts[k]);
    var r := ParenGroup(chars, i);
    if r.Err? {
      var k' :| 0 <= k' < |parts| && Tokenize(parts[k']) == Err(r.error) &&
        forall m :: 0 <= m < k' ==> Tokenize(parts[m]).Ok?;
      assert k' == k;
    }
  }
}
