/** Worked patterns that show the tokenizer's error cases and its quirks. */
module TokenizerExamples {
  import opened Tokens
  import opened Atoms
  import opened Parens
  import opened Pipes
  import opened TokenizerSpec
  import opened TokenizerProperties

  /** `*a`: a quantifier with nothing before it. */
  lemma LeadingStarRejected()
    ensures Tokenize("*a") == Err(QuantifierAtStart)
  {
    LeadingQuantifierRejected("*a");
  }

  /** `a(b`: the group is never closed. */
  lemma UnclosedGroupRejected()
    ensures Tokenize("a(b") == Err(UnclosedParen)
  {
    var p := "a(b";
    assert ClosingParen(p, 1) == -1;
    assert [] + [Literal('a')] == [Literal('a')];
    assert Step(p, 0, []) == Ok(([Literal('a')], 1));
    assert Step(p, 1, [Literal('a')]) == Err(UnclosedParen);
  }

  /** `(a|*b)`: the second branch starts with a quantifier. */
  lemma StarOpeningBranchRejected()
    ensures Tokenize("(a|*b)") == Err(QuantifierAtStart)
  {
    var p := "(a|*b)";
    assert ClosingParen(p, 0) == 5;
    var content := p[1..5];
    assert content == "a|*b";
    assert content == "a" + ['|'] + "*b";
    SplitAtPipe("a", "*b");
    PlainPatternTokens("a");
    QuantifierOpeningBranchRejected(p, 0, 1);
    assert Step(p, 0, []) == Err(QuantifierAtStart);
  }

  /**
   * `(^a|b$)`: each branch is tokenized on its own, so `^` and `$` are
   * anchors at the ends of the branches.
   */
  lemma AnchorsInsideBranches()
    ensures Tokenize("(^a|b$)") ==
      Ok([Alternation([[Anchor(Start), Literal('a')], [Literal('b'), Anchor(End)]])])
  {
    var p := "(^a|b$)";
    assert ClosingParen(p, 0) == 6;
    var content := p[1..6];
    assert content == "^a|b$";
    assert content == "^a" + ['|'] + "b$";
    SplitAtPipe("^a", "b$");
    PlainPatternTokens("^a");
    var left := Tokenize("^a").value;
    assert left[0] == PlainToken("^a", 0) == Anchor(Start);
    assert left[1] == PlainToken("^a", 1) == Literal('a');
    assert left == [Anchor(Start), Literal('a')];
    PlainPatternTokens("b$");
    var right := Tokenize("b$").value;
    assert right[0] == PlainToken("b$", 0) == Literal('b');
    assert right[1] == PlainToken("b$", 1) == Anchor(End);
    assert right == [Literal('b'), Anchor(End)];
    var parts := ["^a", "b$"];
    TokenizeAllCharacterized(parts, |p|);
    var all := TokenizeAll(parts, |p|);
    assert Tokenize(parts[0]).Ok? && Tokenize(parts[1]).Ok?;
    assert all.Ok?;
    assert all.value[0] == left && all.value[1] == right;
    assert all.value == [left, right];
    var t := Alternation([[Anchor(Start), Literal('a')], [Literal('b'), Anchor(End)]]);
    assert [] + [t] == [t];
    assert Step(p, 0, []) == Ok(([t], 7));
  }

  /** `[\]]`: the class closes at the first `]`, escaped or not. */
  lemma BracketIgnoresEscape()
    ensures Tokenize("[\\]]") == Ok([Group(['\\'], false), Literal(']')])
  {
    var p := "[\\]]";
    var g := Group(['\\'], false);
    BracketClosesAtFirst();
    var j: nat := 4;
    assert p[3] == ']';
    assert Step(p, 3, [g]) == Ok(([g] + [Literal(']')], j));
    assert [g] + [Literal(']')] == [g, Literal(']')];
  }

  lemma BracketClosesAtFirst()
    ensures Step("[\\]]", 0, []) == Ok(([Group(['\\'], false)], 3))
  {
    var p := "[\\]]";
    var g := Group(['\\'], false);
    var b := HandleBracket(p, 0);
    assert p[2] == ']';
    assert b.value.1 == 3;
    assert p[1..2] == ['\\'];
    assert b.value.0 == g;
    assert [] + [g] == [g];
  }

  /**
   * `(\\|b)`: the second backslash pairs with the `|` although it is itself
   * escaped, so the group has the single branch `\|b`, a literal `|` and `b`.
   */
  lemma EscapedBackslashBeforePipe()
    ensures Tokenize("(\\\\|b)") == Ok([Alternation([[Literal('|'), Literal('b')]])])
  {
    var p := "(\\\\|b)";
    assert ClosingParen(p, 0) == 5;
    var content := p[1..5];
    assert content == "\\\\|b";
    EscapedBackslashSplit();
    EscapedPipeBranch();
    ParenGroupCharacterized(p, 0);
    var t := Alternation([[Literal('|'), Literal('b')]]);
    assert ParenGroup(p, 0).value.0.branches == [[Literal('|'), Literal('b')]];
    assert ParenGroup(p, 0) == Ok((t, 6));
    assert [] + [t] == [t];
    assert Step(p, 0, []) == Ok(([t], 6));
  }

  lemma EscapedBackslashSplit()
    ensures Split("\\\\|b") == ["\\|b"]
  {
    var q := "\\\\|b";
    assert q[1..] == "\\|b";
    assert q[1..][2..] == "b";
    assert "b"[1..] == [];
    var one: seq<seq<char>> := [[]];
    assert ['b'] + one[0] == "b";
    assert Prepend('b', one) == ["b"];
    assert ['|'] + "b" == "|b";
    assert Prepend('|', ["b"]) == ["|b"];
    assert ['\\'] + "|b" == "\\|b";
    assert Prepend('\\', ["|b"]) == ["\\|b"];
  }

  lemma EscapedPipeBranch()
    ensures Tokenize("\\|b") == Ok([Literal('|'), Literal('b')])
  {
    var q := "\\|b";
    assert HandleSpecialChar('|') == Literal('|');
    assert [] + [Literal('|')] == [Literal('|')];
    assert Step(q, 0, []) == Ok(([Literal('|')], 2));
    assert q[2] == 'b' && !IsQuantifierChar('b');
    assert [Literal('|')] + [Literal('b')] == [Literal('|'), Literal('b')];
    assert Step(q, 2, [Literal('|')]) == Ok(([Literal('|'), Literal('b')], 3));
  }

  /** `(\))`: an escaped `)` still closes the group. */
  lemma EscapedParenCloses()
    ensures ClosingParen("(\\))", 0) == 2
  {
  }
}
