/** Splitting the text of a group into its `|`-separated branches. */
module Pipes {
  import opened Parens

  /** Puts `c` in front of the first part. */
  function Prepend(c: char, parts: seq<seq<char>>): seq<seq<char>>
    requires |parts| >= 1
  {
    [[c] + parts[0]] + parts[1..]
  }

  /**
   * The parts of `p` when scanning starts at nesting `depth`: `\|` adds a
   * plain `|` to the current part, a `|` at depth 0 ends the part, every `(`
   * and `)` (escaped or not) is kept and moves the depth, and every other
   * character, a backslash included, is kept as it is.
   */
  function SplitFrom(p: seq<char>, depth: int): (parts: seq<seq<char>>)
    ensures |parts| >= 1
    decreases |p|
  {
    if p == [] then [[]]
    else if p[0] == '\\' && |p| > 1 && p[1] == '|' then Prepend('|', SplitFrom(p[2..], depth))
    else if p[0] == '|' && depth == 0 then [[]] + SplitFrom(p[1..], depth)
    else if p[0] == '(' then Prepend('(', SplitFrom(p[1..], depth + 1))
    else if p[0] == ')' then Prepend(')', SplitFrom(p[1..], depth - 1))
    else Prepend(p[0], SplitFrom(p[1..], depth))
  }

  /** The branches of a group's text (`splitByPipe`); there is always one. */
  function Split(p: seq<char>): (parts: seq<seq<char>>)
    ensures |parts| >= 1
  {
    SplitFrom(p, 0)
  }

  /** The parts written one after another with a `|` between neighbours. */
  function Join(parts: seq<seq<char>>): seq<char> {
    if parts == [] then []
    else if |parts| == 1 then parts[0]
    else parts[0] + ['|'] + Join(parts[1..])
  }

  /**
   * `p` with the backslash of each `\|` pair dropped, pairing left to right
   * whatever precedes the backslash (so `\\|` becomes `\|`); every other
   * escape is kept.
   */
  function Unescape(p: seq<char>): seq<char>
    decreases |p|
  {
    if |p| >= 2 && p[0] == '\\' && p[1] == '|' then ['|'] + Unescape(p[2..])
    else if p == [] then []
    else [p[0]] + Unescape(p[1..])
  }

  /**
   * The `|` at `k` separates two branches: it is not preceded by a backslash
   * and lies outside every parenthesis opened before it.
   */
  predicate IsSplitPoint(p: seq<char>, k: nat)
    requires k < |p|
  {
    p[k] == '|' && (k == 0 || p[k - 1] != '\\') && Depth(p[..k]) == 0
  }

  /** The number of split points before index `n`. */
  function CountSplits(p: seq<char>, n: nat): nat
    requires n <= |p|
  {
    if n == 0 then 0 else CountSplits(p, n - 1) + (if IsSplitPoint(p, n - 1) then 1 else 0)
  }

  lemma JoinPrepend(c: char, parts: seq<seq<char>>)
    requires |parts| >= 1
    ensures Join(Prepend(c, parts)) == [c] + Join(parts)
  {
    if |parts| > 1 {
      assert Prepend(c, parts)[1..] == parts[1..];
    }
  }

  lemma JoinSeparated(parts: seq<seq<char>>)
    requires |parts| >= 1
    ensures Join([[]] + parts) == ['|'] + Join(parts)
  {
    assert ([[]] + parts)[1..] == parts;
  }

  lemma {:induction false} SplitFromJoin(p: seq<char>, depth: int)
    ensures Join(SplitFrom(p, depth)) == Unescape(p)
    decreases |p|
  {
    if p == [] {
    } else if p[0] == '\\' && |p| > 1 && p[1] == '|' {
      SplitFromJoin(p[2..], depth);
      JoinPrepend('|', SplitFrom(p[2..], depth));
    } else if p[0] == '|' && depth == 0 {
      SplitFromJoin(p[1..], depth);
      JoinSeparated(SplitFrom(p[1..], depth));
    } else if p[0] == '(' {
      SplitFromJoin(p[1..], depth + 1);
      JoinPrepend('(', SplitFrom(p[1..], depth + 1));
    } else if p[0] == ')' {
      SplitFromJoin(p[1..], depth - 1);
      JoinPrepend(')', SplitFrom(p[1..], depth - 1));
    } else {
      SplitFromJoin(p[1..], depth);
      JoinPrepend(p[0], SplitFrom(p[1..], depth));
    }
  }

  /**
   * Writing the branches back with `|` between them gives the group's text
   * with each `\|` turned into `|`.
   */
  lemma SplitJoin(p: seq<char>)
    ensures Join(Split(p)) == Unescape(p)
  {
    SplitFromJoin(p, 0);
  }

  lemma {:induction false} SplitFromCount(p: seq<char>, i: nat)
    requires i <= |p|
    requires i == |p| || !(0 < i && p[i - 1] == '\\' && p[i] == '|')
    ensures |SplitFrom(p[i..], Depth(p[..i]))| == 1 + CountSplits(p, |p|) - CountSplits(p, i)
    decreases |p| - i
  {
    if i < |p| {
      var q := p[i..];
      var d := Depth(p[..i]);
      assert p[..i + 1] == p[..i] + [p[i]];
      DepthSnoc(p[..i], p[i]);
      assert q[1..] == p[i + 1..];
      if p[i] == '\\' && i + 1 < |p| && p[i + 1] == '|' {
        assert q[2..] == p[i + 2..];
        assert p[..i + 2] == p[..i + 1] + [p[i + 1]];
        DepthSnoc(p[..i + 1], p[i + 1]);
        assert CountSplits(p, i + 2) == CountSplits(p, i);
        SplitFromCount(p, i + 2);
      } else {
        SplitFromCount(p, i + 1);
      }
    }
  }

  /** There is one branch more than there are split points. */
  lemma SplitCount(p: seq<char>)
    ensures |Split(p)| == 1 + CountSplits(p, |p|)
  {
    SplitFromCount(p, 0);
    assert p[0..] == p;
  }

  lemma PrependAppend(c: char, x: seq<seq<char>>, y: seq<seq<char>>)
    requires |x| >= 1
    ensures Prepend(c, x + y) == Prepend(c, x) + y
  {
    assert (x + y)[1..] == x[1..] + y;
  }

  /**
   * A `|` reached at nesting 0 after text not ending in a backslash cuts the
   * scan in two: the parts before it, then the parts of the rest from 0.
   */
  lemma {:induction false} SplitFromAtPipe(a: seq<char>, b: seq<char>, d: int)
    requires a == [] || a[|a| - 1] != '\\'
    requires d + Depth(a) == 0
    ensures SplitFrom(a + ['|'] + b, d) == SplitFrom(a, d) + SplitFrom(b, 0)
    decreases |a|
  {
    var p := a + ['|'] + b;
    if a == [] {
      assert p == ['|'] + b;
      assert p[1..] == b;
    } else {
      DepthCons(a[0], a[1..]);
      assert [a[0]] + a[1..] == a;
      if a[0] == '\\' && a[1] == '|' {
        DepthCons(a[1], a[2..]);
        assert [a[1]] + a[2..] == a[1..];
        assert p[2..] == a[2..] + ['|'] + b;
        SplitFromAtPipe(a[2..], b, d);
        PrependAppend('|', SplitFrom(a[2..], d), SplitFrom(b, 0));
      } else {
        assert p[1..] == a[1..] + ['|'] + b;
        var d' := if a[0] == '(' then d + 1 else if a[0] == ')' then d - 1 else d;
        SplitFromAtPipe(a[1..], b, d');
        if !(a[0] == '|' && d == 0) {
          PrependAppend(a[0], SplitFrom(a[1..], d'), SplitFrom(b, 0));
        }
      }
    }
  }

  /**
   * The text is cut exactly at its split points: the branches are those of
   * the text before the first split point, then those of the text after it.
   */
  lemma SplitAtSplitPoint(p: seq<char>, n: nat)
    requires n < |p| && IsSplitPoint(p, n)
    ensures Split(p) == Split(p[..n]) + Split(p[n + 1..])
  {
    assert p == p[..n] + ['|'] + p[n + 1..];
    SplitFromAtPipe(p[..n], p[n + 1..], 0);
  }

  /** Text without a `|` is a single branch, kept as it is. */
  lemma {:induction false} SplitWithoutPipe(p: seq<char>, depth: int)
    requires forall k :: 0 <= k < |p| ==> p[k] != '|'
    ensures SplitFrom(p, depth) == [p]
    decreases |p|
  {
    if p != [] {
      var d := if p[0] == '(' then depth + 1 else if p[0] == ')' then depth - 1 else depth;
      SplitWithoutPipe(p[1..], d);
      assert [p[0]] + p[1..] == p;
    }
  }

  /**
   * A `|` after text free of `|`, `\` and parentheses separates exactly two
   * branches.
   */
  lemma {:induction false} SplitAtPipe(a: seq<char>, b: seq<char>)
    requires forall k :: 0 <= k < |a| ==> a[k] != '|' && a[k] != '\\' && a[k] != '(' && a[k] != ')'
    requires forall k :: 0 <= k < |b| ==> b[k] != '|'
    ensures Split(a + ['|'] + b) == [a, b]
    decreases |a|
  {
    var p := a + ['|'] + b;
    if a == [] {
      assert p == ['|'] + b;
      assert p[1..] == b;
      SplitWithoutPipe(b, 0);
    } else {
      assert p[1..] == a[1..] + ['|'] + b;
      SplitAtPipe(a[1..], b);
      assert [a[0]] + a[1..] == a;
    }
  }

  lemma {:induction false} JoinContainsParts(parts: seq<seq<char>>)
    ensures forall k :: 0 <= k < |parts| ==> |parts[k]| <= |Join(parts)|
  {
    if |parts| > 1 {
      JoinContainsParts(parts[1..]);
      assert forall k :: 1 <= k < |parts| ==> parts[k] == parts[1..][k - 1];
    }
  }

  lemma {:induction false} UnescapeNoLonger(p: seq<char>)
    ensures |Unescape(p)| <= |p|
    decreases |p|
  {
    if |p| >= 2 && p[0] == '\\' && p[1] == '|' {
      UnescapeNoLonger(p[2..]);
    } else if p != [] {
      UnescapeNoLonger(p[1..]);
    }
  }

  /** No branch is longer than the group's text. */
  lemma SplitPartsNoLonger(p: seq<char>)
    ensures forall k :: 0 <= k < |Split(p)| ==> |Split(p)[k]| <= |p|
  {
    SplitJoin(p);
    JoinContainsParts(Split(p));
    UnescapeNoLonger(p);
  }
}
