/**
 * The tokenizer as functions. `Scan` is the scanning loop, one `Step` per
 * iteration; `ParenGroup` tokenizes a parenthesised group by tokenizing each
 * of its branches with `Tokenize` again (`TokenizeAll`), so the five functions
 * are mutually recursive. They terminate because every step moves past at
 * least one character and every branch is shorter than the pattern it came
 * from.
 */
module TokenizerSpec {
  import opened Tokens
  import opened Atoms
  import opened Parens
  import opened Pipes

  /** The tokens of `pattern`, or the first error met. */
  function Tokenize(pattern: seq<char>): Result<seq<Token>>
    decreases |pattern|, 4, 0
  {
    Scan(pattern, 0, [])
  }

  /** Continues scanning at index `i` with the tokens `acc` emitted so far. */
  function Scan(chars: seq<char>, i: nat, acc: seq<Token>): Result<seq<Token>>
    decreases |chars|, 3, |chars| - i
  {
    if i >= |chars| then Ok(acc)
    else
      match Step(chars, i, acc)
      case Err(e) => Err(e)
      case Ok((next, j)) => Scan(chars, j, next)
  }

  /**
   * One iteration of the scanning loop at index `i`: the new token list and
   * the index where scanning resumes, which lies after `i`.
   */
  function Step(chars: seq<char>, i: nat, acc: seq<Token>): (r: Result<(seq<Token>, nat)>)
    requires i < |chars|
    ensures r.Ok? ==> i < r.value.1 <= |chars|
    decreases |chars|, 2, 0
  {
    var c := chars[i];
    if c == '\\' then
      if i + 1 < |chars| then Ok((acc + [HandleSpecialChar(chars[i + 1])], i + 2))
      else Err(DanglingEscape)
    else if c == '(' then
      match ParenGroup(chars, i)
      case Err(e) => Err(e)
      case Ok((t, j)) => Ok((acc + [t], j))
    else if c == '[' then
      match HandleBracket(chars, i)
      case Err(e) => Err(e)
      case Ok((t, j)) => Ok((acc + [t], j))
    else if c == '^' then
      Ok((acc + [if i == 0 then Anchor(Start) else Literal('^')], i + 1))
    else if c == '$' then
      Ok((acc + [if i == |chars| - 1 then Anchor(End) else Literal('$')], i + 1))
    else if c == '.' then
      Ok((acc + [Dot], i + 1))
    else if IsQuantifierChar(c) then
      if acc == [] then Err(QuantifierAtStart)
      else Ok((acc[..|acc| - 1] + [Quantifier(QuantifierOf(c), acc[|acc| - 1])], i + 1))
    else
      Ok((acc + [Literal(c)], i + 1))
  }

  /**
   * The group opened at `i` (`handleParen`): an alternation with one branch
   * per `|`-separated part of the text up to the closing `)`, and the index
   * after that `)`.
   */
  function ParenGroup(chars: seq<char>, i: nat): (r: Result<(Token, nat)>)
    requires i < |chars|
    ensures r.Ok? ==> i < r.value.1 <= |chars|
    decreases |chars|, 1, 0
  {
    var close := ClosingParen(chars, i);
    if close == -1 then Err(UnclosedParen)
    else
      ClosingParenCharacterized(chars, i);
      var parts := Split(chars[i + 1..close]);
      SplitPartsNoLonger(chars[i + 1..close]);
      match TokenizeAll(parts, |chars|)
      case Err(e) => Err(e)
      case Ok(branches) => Ok((Alternation(branches), close + 1))
  }

  /** Tokenizes each part in order; the first part that fails decides the error. */
  function TokenizeAll(parts: seq<seq<char>>, bound: nat): Result<seq<seq<Token>>>
    requires forall k :: 0 <= k < |parts| ==> |parts[k]| < bound
    decreases bound, 0, |parts|
  {
    if parts == [] then Ok([])
    else
      match Tokenize(parts[0])
      case Err(e) => Err(e)
      case Ok(first) =>
        match TokenizeAll(parts[1..], bound)
        case Err(e) => Err(e)
        case Ok(rest) => Ok([first] + rest)
  }
}
