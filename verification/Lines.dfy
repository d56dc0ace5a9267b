/** Cutting a text into lines that keep their line break
    (tools/admin-ui/diff.go, `splitKeepEOL`). */
module Lines {
  // One character stands for one byte; only '\n' is ever inspected.
  type Line = string

  /** '\n' occurs, if at all, in the last position. */
  predicate BreakOnlyAtEnd(l: Line) {
    forall k :: 0 <= k < |l| - 1 ==> l[k] != '\n'
  }

  predicate Terminated(l: Line) {
    l != "" && l[|l| - 1] == '\n'
  }

  /** The shape of a line split: non-empty pieces, each with its break at the end,
      and only the last piece may lack one. */
  predicate IsSplit(ls: seq<Line>) {
    && (forall i :: 0 <= i < |ls| ==> ls[i] != "" && BreakOnlyAtEnd(ls[i]))
    && (forall i :: 0 <= i < |ls| - 1 ==> Terminated(ls[i]))
  }

  function Join(ls: seq<Line>): string {
    if ls == [] then "" else ls[0] + Join(ls[1..])
  }

  lemma {:induction false} JoinAppend(ls: seq<Line>, l: Line)
    ensures Join(ls + [l]) == Join(ls) + l
  {
    if ls == [] {
      assert Join([l]) == l + Join([]);
    } else {
      JoinAppend(ls[1..], l);
      assert (ls + [l])[1..] == ls[1..] + [l];
    }
  }

  /** A text has at most one line split. */
  lemma {:induction false} SplitUnique(xs: seq<Line>, ys: seq<Line>)
    requires IsSplit(xs) && IsSplit(ys) && Join(xs) == Join(ys)
    ensures xs == ys
  {
    if xs != [] && ys != [] {
      HeadNotShorter(xs, ys);
      HeadNotShorter(ys, xs);
      assert xs[0] == Join(xs)[..|xs[0]|] == ys[0];
      assert Join(xs[1..]) == Join(xs)[|xs[0]|..] == Join(ys[1..]);
      SplitUnique(xs[1..], ys[1..]);
    }
  }

  lemma HeadNotShorter(xs: seq<Line>, ys: seq<Line>)
    requires IsSplit(xs) && IsSplit(ys) && Join(xs) == Join(ys)
    requires xs != [] && ys != []
    ensures |xs[0]| >= |ys[0]|
  {
    var k := |xs[0]| - 1;
    assert xs[0][k] == Join(xs)[k] && (k < |ys[0]| ==> ys[0][k] == Join(ys)[k]);
    if |xs| == 1 {
      assert Join(xs) == xs[0] + Join([]);
    }
  }

  /** The line split of a text, as a function. */
  function Split(s: string): (ls: seq<Line>)
    ensures IsSplit(ls) && Join(ls) == s
  {
    if s == "" then []
    else
      var k := LineEnd(s);
      assert s == s[..k] + s[k..];
      [s[..k]] + Split(s[k..])
  }

  function LineEnd(s: string): (k: nat)
    requires s != ""
    ensures 0 < k <= |s|
    ensures BreakOnlyAtEnd(s[..k])
    ensures k < |s| ==> Terminated(s[..k])
  {
    if s[0] == '\n' || |s| == 1 then 1
    else
      var k := 1 + LineEnd(s[1..]);
      assert s[..k] == [s[0]] + s[1..][..k - 1];
      k
  }

  method SplitKeepEOL(s: string) returns (out: seq<Line>)
    ensures IsSplit(out) && Join(out) == s
    ensures out == Split(s)
  {
    out := [];
    var start := 0;
    for i := 0 to |s|
      invariant start <= i
      invariant Join(out) == s[..start]
      invariant IsSplit(out) && (forall k :: 0 <= k < |out| ==> Terminated(out[k]))
      invariant forall k :: start <= k < i ==> s[k] != '\n'
    {
      if s[i] == '\n' {
        JoinAppend(out, s[start..i + 1]);
        assert s[..start] + s[start..i + 1] == s[..i + 1];
        out := out + [s[start..i + 1]];
        start := i + 1;
      }
    }
    if start < |s| {
      JoinAppend(out, s[start..]);
      assert s[..start] + s[start..] == s;
      out := out + [s[start..]];
    } else {
      assert s[..start] == s;
    }
    SplitUnique(out, Split(s));
  }
}
