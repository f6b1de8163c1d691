/** The token tree the tokenizer produces, and the three ways it can fail. */
module Tokens {

  /** The two anchors: `^` (start of the sub-pattern) and `$` (its end). */
  datatype AnchorKind = Start | End

  /** The three quantifier characters `?`, `+` and `*`. */
  datatype QuantifierKind = Optional | OneOrMore | ZeroOrMore

  /**
   * One parsed unit of a pattern. `Group` is a bracket character class whose
   * characters are kept in pattern order (duplicates included); `Alternation`
   * is a parenthesised group, one token sequence per `|`-separated branch,
   * and carries no group number.
   */
  datatype Token =
    | Literal(value: char)
    | Dot
    | Word
    | Digit
    | Group(chars: seq<char>, negated: bool)
    | Anchor(kind: AnchorKind)
    | Alternation(branches: seq<seq<Token>>)
    | Quantifier(quantifier: QuantifierKind, token: Token)
    | Backreference(group: nat)

  /**
   * Why tokenizing failed. The first three are the errors the tokenizer
   * throws; `DanglingEscape` is a `\` that ends the (sub-)pattern.
   */
  datatype TokenizeError =
    | QuantifierAtStart
    | UnclosedParen
    | UnclosedBracket
    | DanglingEscape

  datatype Result<T> = Ok(value: T) | Err(error: TokenizeError)

  predicate IsQuantifierChar(c: char) {
    c == '?' || c == '+' || c == '*'
  }

  function QuantifierOf(c: char): (k: QuantifierKind)
    requires IsQuantifierChar(c)
    ensures QuantifierSymbol(k) == c
  {
    if c == '?' then Optional else if c == '+' then OneOrMore else ZeroOrMore
  }

  /** The character a quantifier kind is written with. */
  function QuantifierSymbol(k: QuantifierKind): (c: char)
    ensures IsQuantifierChar(c)
  {
    match k
    case Optional => '?'
    case OneOrMore => '+'
    case ZeroOrMore => '*'
  }
}
