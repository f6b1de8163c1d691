/** The single-token steps of the tokenizer: escapes and bracket classes. */
module Atoms {
  import opened Tokens

  predicate IsDecimalDigit(x: char) {
    '0' <= x <= '9'
  }

  /**
   * A token that some escape `\x` produces: a digit or word class, a
   * backreference to groups 0 to 9, or a literal of any character that is not
   * one of `d`, `w` or a decimal digit.
   */
  predicate IsEscapeToken(t: Token) {
    match t
    case Digit => true
    case Word => true
    case Backreference(n) => n <= 9
    case Literal(x) => x != 'd' && x != 'w' && !IsDecimalDigit(x)
    case _ => false
  }

  /** The character that follows the backslash in the escape written for `t`. */
  function EscapeChar(t: Token): char
    requires IsEscapeToken(t)
  {
    match t
    case Digit => 'd'
    case Word => 'w'
    case Backreference(n) => ('0' as int + n) as char
    case Literal(x) => x
  }

  /**
   * The token for the escape `\x`: `\d` and `\w` are the digit and word
   * classes, `\0` to `\9` a backreference to that group, and any other
   * character stands for itself. The result is an escape token that is
   * written back as `x`, so no two escapes give the same token.
   */
  function HandleSpecialChar(x: char): (t: Token)
    ensures IsEscapeToken(t) && EscapeChar(t) == x
  {
    if x == 'd' then Digit
    else if x == 'w' then Word
    else if IsDecimalDigit(x) then Backreference(x as int - '0' as int)
    else Literal(x)
  }

  /** Every escape token is produced by the escape written for it. */
  lemma EscapeRoundTrip(t: Token)
    requires IsEscapeToken(t)
    ensures HandleSpecialChar(EscapeChar(t)) == t
  {
    match t
    case Digit =>
    case Word =>
    case Backreference(n) =>
      assert IsDecimalDigit(EscapeChar(t));
    case Literal(x) =>
  }

  /**
   * The first index at or after `from` that holds `x`, or -1 when there is
   * none (the array `indexOf` method).
   */
  function IndexOf(s: seq<char>, x: char, from: nat): (r: int)
    ensures r == -1 <==> forall k :: from <= k < |s| ==> s[k] != x
    ensures r != -1 ==> from <= r < |s| && s[r] == x && forall k :: from <= k < r ==> s[k] != x
    decreases |s| - from
  {
    if from >= |s| then -1
    else if s[from] == x then from
    else IndexOf(s, x, from + 1)
  }

  /**
   * The bracket class opened by the `[` at `i`: it closes at the first `]` at
   * or after `i` (a backslash does not escape it), is negated exactly when the
   * next character is `^`, holds the characters strictly between the `[` (or
   * the `^`) and the `]`, and scanning resumes after the `]`.
   */
  function HandleBracket(chars: seq<char>, i: nat): (r: Result<(Token, nat)>)
    requires i < |chars| && chars[i] == '['
    ensures r.Err? <==> forall k :: i <= k < |chars| ==> chars[k] != ']'
    ensures r.Err? ==> r.error == UnclosedBracket
    ensures r.Ok? ==>
      var close := r.value.1 - 1;
      var t := r.value.0;
      i < close < |chars| && chars[close] == ']' &&
      (forall k :: i <= k < close ==> chars[k] != ']') &&
      t.Group? &&
      (t.negated <==> chars[i + 1] == '^') &&
      t.chars == chars[(if t.negated then i + 2 else i + 1)..close]
  {
    var close := IndexOf(chars, ']', i);
    if close == -1 then Err(UnclosedBracket)
    else
      var negated := i + 1 < |chars| && chars[i + 1] == '^';
      var groupChars := if negated then chars[i + 2..close] else chars[i + 1..close];
      Ok((Group(groupChars, negated), close + 1))
  }
}
