# Regex tokenizer model

This project models the tokenizer of a small backtracking regular-expression
engine written in TypeScript (`app/tokenizer.ts`). The tokenizer turns a
pattern string into a tree of tokens:

- literals, `.`, `\w`, `\d`;
- bracket classes, `^` and `$` anchors and backreferences `\0`–`\9`;
- parenthesised alternations, whose branches are token sequences;
- quantifiers `?`, `+`, `*`, each wrapping the token before it.

It fails on three malformed patterns:

- a quantifier with nothing before it;
- an unclosed `(`;
- an unclosed `[`.

The model is in Dafny, in two layers:

- `TokenizerSpec`, `Pipes`, `Parens` and `Atoms` define the tokenizer as
  functions. `TokenizerSpec.Scan` is the scanning loop, one `Step` per
  iteration. `ParenGroup` tokenizes each branch of a group again with
  `Tokenize`, so these functions are mutually recursive. They terminate
  because each step moves past at least one character and each branch is no
  longer than the group's text.
- `Tokenizer` holds the imperative form of the source: its `while` loops,
  pushing and popping tokens. `Tokenizer.Tokenize` calls `HandleParen`, which
  calls `Tokenize` for each branch. Each method is proved equal to its
  function.

The lemmas in `TokenizerProperties` and `TokenizerExamples` state what the
tokenizer promises. Exceptions become `Result` values with an error tag.

Modules and files:

- `tokens.dfy` (`Tokens`): the `Token` datatype, error tags, `Result`.
- `atoms.dfy` (`Atoms`): escapes (`handleSpecialChar`), `indexOf`, bracket classes (`handleBracket`).
- `parens.dfy` (`Parens`): nesting depth and the closing-parenthesis scan (`findClosingParen`).
- `pipes.dfy` (`Pipes`): splitting a group's text on top-level `|` (`splitByPipe`).
- `tokenizer_spec.dfy` (`TokenizerSpec`): the scanning loop and `handleParen` as functions.
- `tokenizer.dfy` (`Tokenizer`): the methods with loops.
- `tokenizer_properties.dfy` (`TokenizerProperties`), `tokenizer_examples.dfy` (`TokenizerExamples`): lemmas.

Quirks of the code that the model keeps as written:

- The backslash test in `findClosingParen` compares `i + 1` with the length
  of a one-character string. It never holds, so escaped parentheses count
  toward the depth. `(\))` closes at the escaped `)`
  (`TokenizerExamples.EscapedParenCloses`).
- A bracket class closes at the first `]` after the `[`, escaped or not
  (`TokenizerExamples.BracketIgnoresEscape`).
- An alternation carries no group number.
- `^` and `$` are anchors at the first and last index of the (sub-)pattern
  being tokenized. Each branch of a group is tokenized on its own, so
  `(^a|b$)` has anchors inside its branches
  (`TokenizerExamples.AnchorsInsideBranches`).
- `splitByPipe` pairs a backslash with the `|` after it scanning left to
  right, whatever comes before that backslash. It drops the backslash of
  each pair and keeps every other escape verbatim, so `\\|` becomes `\|`,
  and `(\\|b)` is one branch: a literal `|`, then `b`
  (`TokenizerExamples.EscapedBackslashBeforePipe`). It counts escaped
  parentheses toward its depth too.

Where the code departs from conventional regular-expression behaviour, the
model follows the code:

- An alternation is not a numbered capture group.
- The closing-paren scan does not skip escaped parentheses, and a class
  does not skip an escaped `]`.
- `^` and `$` are anchors relative to each sub-pattern being tokenized, not
  to the whole pattern text.
- A class keeps its characters as an array in pattern order, not as a set,
  so the model uses a `seq<char>`.

## Model

| member | source | states |
|---|---|---|
| `Tokens.QuantifierOf` | app/tokenizer.ts:88-95 | the quantifier kind of `?`, `+` or `*`, written back as the same character |
| `Tokens.QuantifierSymbol` | app/tokenizer.ts:9 | every quantifier kind is written with one of `?`, `+`, `*` |
| `Atoms.HandleSpecialChar` | app/tokenizer.ts:109-115 | `\x` gives an escape token (digit class, word class, backreference 0–9, or a literal other than `d`, `w` or a digit) that is written back as `x`, so distinct escapes give distinct tokens |
| `Atoms.EscapeRoundTrip` | app/tokenizer.ts:109-115 | every escape token is what `HandleSpecialChar` gives for the character written for it |
| `Atoms.IndexOf` | app/tokenizer.ts:133 | -1 exactly when `x` does not occur at or after `from`; otherwise the first such index |
| `Atoms.HandleBracket` | app/tokenizer.ts:132-149 | fails (unclosed bracket) exactly when no `]` occurs at or after the `[`; otherwise closes at the first `]`, is negated iff the next character is `^`, holds the characters strictly between the `[` (or `^`) and the `]`, and resumes after the `]` |
| `Parens.ClosingFromCharacterized` | app/tokenizer.ts:156-167 | the scan from index `i` at a positive depth finds the first index where the depth after it is 0, or -1 when there is none |
| `Parens.ClosingParenCharacterized` | app/tokenizer.ts:152-168 | -1 exactly when the depth (1 after the `(`, counting every parenthesis, escaped or not) never returns to 0; otherwise the first index after `start` where it does, and that index holds `)` |
| `Pipes.SplitFrom` | app/tokenizer.ts:12-35 | splitting from any depth yields at least one part |
| `Pipes.Split` | app/tokenizer.ts:12-35 | `splitByPipe` always returns at least one part |
| `Pipes.SplitJoin` | app/tokenizer.ts:16-33 | joining the parts with a pipe between neighbours gives the input with each backslash-pipe escape replaced by a plain pipe and every other character kept |
| `Pipes.SplitFromJoin` | app/tokenizer.ts:16-33 | the same join property when splitting starts at any depth |
| `Pipes.SplitCount` | app/tokenizer.ts:16-33 | there is one more part than there are pipe characters at depth 0 that do not follow a backslash |
| `Pipes.SplitFromCount` | app/tokenizer.ts:16-33 | the part count of every suffix the scan reaches, in terms of the split points still ahead |
| `Pipes.SplitWithoutPipe` | app/tokenizer.ts:29-33 | text without a pipe character is one part, unchanged |
| `Pipes.SplitAtPipe` | app/tokenizer.ts:20-22 | a pipe after text free of pipes, backslashes and parentheses separates exactly two parts |
| `Pipes.SplitFromAtPipe` | app/tokenizer.ts:16-33 | a pipe reached at depth 0 after text not ending in a backslash cuts the scan in two: the parts of the text before it, then the parts of the rest scanned from depth 0 |
| `Pipes.SplitAtSplitPoint` | app/tokenizer.ts:17-22 | at every split point (a pipe character outside all parentheses, not after a backslash) the parts are those of the text before it followed by those of the text after it |
| `Pipes.SplitPartsNoLonger` | app/tokenizer.ts:122-125 | no part is longer than the group's text, so tokenizing a branch recurses on a shorter pattern |
| `TokenizerSpec.Step` | app/tokenizer.ts:43-103 | one loop iteration either fails or resumes at an index after the current one and no greater than the length |
| `TokenizerSpec.ParenGroup` | app/tokenizer.ts:117-130 | a successful group resumes after its `(` and within the pattern |
| `Tokenizer.SplitByPipe` | app/tokenizer.ts:12-35 | the loop computes `Split`: one more part than split points, joining back to the input with backslash-pipe escapes undone |
| `Tokenizer.FindClosingParen` | app/tokenizer.ts:152-168 | the loop returns the first index after `start` where the depth returns to 0 (and it holds `)`), or -1 exactly when it never does |
| `Tokenizer.HandleParen` | app/tokenizer.ts:117-130 | the method, recursing into `Tokenize` for each branch in order, computes `ParenGroup` |
| `Tokenizer.Tokenize` | app/tokenizer.ts:38-107 | the scanning loop that pushes and pops tokens computes `TokenizerSpec.Tokenize` |
| `TokenizerProperties.StepNetOneToken` | app/tokenizer.ts:43-103 | one loop iteration adds at most one token net; it keeps the count exactly when the character is a quantifier |
| `TokenizerProperties.ScanNoLonger` | app/tokenizer.ts:43-104 | scanning from index `i` adds at most one token per remaining character |
| `TokenizerProperties.TokenizeNoLonger` | app/tokenizer.ts:38-107 | a successful tokenization has no more tokens than the pattern has characters |
| `TokenizerProperties.QuantifierWrapsPrevious` | app/tokenizer.ts:88-97 | `?`, `+`, `*` fail exactly when no token has been emitted; otherwise the last token is replaced by a quantifier wrapping it, the count is unchanged, and scanning moves one character on |
| `TokenizerProperties.LeadingQuantifierRejected` | app/tokenizer.ts:88-93 | a (sub-)pattern starting with a quantifier fails with the quantifier error |
| `TokenizerProperties.ScanPlain` | app/tokenizer.ts:63-101 | over plain characters, scanning from `i` appends exactly one `PlainToken` per character |
| `TokenizerProperties.PlainPatternTokens` | app/tokenizer.ts:63-101 | a pattern without `\ ( [ ? + *` has one token per character, in order: `^` at index 0 and `$` at the last index are anchors, `.` is the dot, everything else (including `^`, `$` elsewhere) a literal |
| `TokenizerProperties.LiteralPatternTokens` | app/tokenizer.ts:99-101 | a pattern free of `\ ( [ ^ $ . ? + *` tokenizes to one literal per character, in order |
| `TokenizerProperties.EscapeConsumesTwo` | app/tokenizer.ts:46-49 | a backslash and the next character become one escape token and scanning resumes two characters on; a backslash ending the pattern is an error |
| `TokenizerProperties.BracketPattern` | app/tokenizer.ts:132-149 | `[body]` with no `]` in the body is one class, negated iff the body starts with `^`, holding the rest of the body |
| `TokenizerProperties.TokenizeAllCharacterized` | app/tokenizer.ts:123-125 | mapping over the parts succeeds iff every part tokenizes; then the branches are those tokens in order; otherwise the error is that of the first failing part |
| `TokenizerProperties.ParenGroupCharacterized` | app/tokenizer.ts:117-130 | a group fails as unclosed when there is no closing index; otherwise it is one alternation whose branches are the tokens of each part of the enclosed text in order, resuming after the `)`, or the first failing part's error |
| `TokenizerProperties.QuantifierOpeningBranchRejected` | app/tokenizer.ts:117-125 | a branch starting with a quantifier makes its group fail with the quantifier error, unless an earlier branch failed first |
| `TokenizerExamples.LeadingStarRejected` | app/tokenizer.ts:91-92 | `*a` fails with the quantifier error |
| `TokenizerExamples.UnclosedGroupRejected` | app/tokenizer.ts:119-121 | `a(b` fails as an unclosed group |
| `TokenizerExamples.StarOpeningBranchRejected` | app/tokenizer.ts:123-125 | the pattern `(a` pipe `*b)` fails with the quantifier error |
| `TokenizerExamples.AnchorsInsideBranches` | app/tokenizer.ts:123-125 | the pattern `(^a` pipe `b$)` is one alternation whose branches start and end with anchors |
| `TokenizerExamples.BracketIgnoresEscape` | app/tokenizer.ts:133 | `[\]]` is the class holding a backslash, followed by a literal `]` |
| `TokenizerExamples.BracketClosesAtFirst` | app/tokenizer.ts:132-149 | in `[\]]` the class is read up to the first `]` and scanning resumes at index 3 |
| `TokenizerExamples.EscapedBackslashBeforePipe` | app/tokenizer.ts:17-19 | in the pattern made of `(`, two backslashes, a pipe, `b`, `)` the second backslash pairs with the pipe, so the group is one branch: a literal pipe, then `b` |
| `TokenizerExamples.EscapedBackslashSplit` | app/tokenizer.ts:17-19 | two backslashes, a pipe and `b` split into the single part backslash, pipe, `b` |
| `TokenizerExamples.EscapedPipeBranch` | app/tokenizer.ts:109-115 | a backslash, a pipe and `b` tokenize to a literal pipe and a literal `b` |
| `TokenizerExamples.EscapedParenCloses` | app/tokenizer.ts:158 | in `(\))` the group closes at index 2, the escaped `)` |

## Left out

- The matcher (backtracking search, captured groups, backreference resolution, quantifier enumeration). It is not part of the tokenizer source; `app/main.ts` only delegates to the host `RegExp` and `String.includes`.
- `app/main.ts`: command-line argument checks, reading standard input and the exit codes. These are I/O.
- `mock/code/utils.py` and `mock/code/main.js`: a sample application unrelated to the engine.
- A backslash that ends a (sub-)pattern becomes the error `DanglingEscape`. The source instead pushes a literal whose value is `undefined` and moves on. Such a backslash can also come from inside a group, e.g. `(a\)`.
- Patterns are sequences of code points. The `$` test uses the UTF-16 length of the pattern string while scanning code points, so the two disagree for characters outside the Basic Multilingual Plane. The model compares with the code-point count.
- The backslash branch of `findClosingParen` (`app/tokenizer.ts:158-161`) is not written out in `Tokenizer.FindClosingParen`. Its test `i + 1 < 1` is false for every index the scan visits, so the branch can never run.
- Error message strings: an error tag stands for each.
- Determinism (tokenizing the same pattern twice gives the same tokens) holds because the model is made of functions, so it needs no lemma.
- `Atoms.HandleBracket` requires a `[` at `i`, and `TokenizerSpec.ParenGroup` requires `i` inside the pattern. These are the only situations in which the source calls them.
- `Tokenizer` is a class with only static methods, so it is a module here.
