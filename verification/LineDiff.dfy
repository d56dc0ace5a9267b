/** The edit script computed from a table of longest-common-subsequence lengths
    (tools/admin-ui/diff.go, `lcsDiff`). */
module LineDiff {
  import opened Lines
  import opened Sequences

  datatype Kind = Same | Removed | Added
  datatype DiffOp = DiffOp(kind: Kind, line: Line)

  // ----- what a script means -----

  /** The lines a script takes from the old text. */
  function OldSide(ops: seq<DiffOp>): seq<Line> {
    if ops == [] then []
    else if ops[0].kind == Added then OldSide(ops[1..])
    else [ops[0].line] + OldSide(ops[1..])
  }

  /** The lines a script leaves in the new text. */
  function NewSide(ops: seq<DiffOp>): seq<Line> {
    if ops == [] then []
    else if ops[0].kind == Removed then NewSide(ops[1..])
    else [ops[0].line] + NewSide(ops[1..])
  }

  function Kept(ops: seq<DiffOp>): seq<Line> {
    if ops == [] then []
    else if ops[0].kind == Same then [ops[0].line] + Kept(ops[1..])
    else Kept(ops[1..])
  }

  function Changes(ops: seq<DiffOp>): nat {
    if ops == [] then 0
    else (if ops[0].kind == Same then 0 else 1) + Changes(ops[1..])
  }

  // ----- common subsequences -----

  ghost function Lcs(a: seq<Line>, b: seq<Line>): nat
    decreases |a| + |b|
  {
    if a == [] || b == [] then 0
    else if a[0] == b[0] then Lcs(a[1..], b[1..]) + 1
    else if Lcs(a[1..], b) >= Lcs(a, b[1..]) then Lcs(a[1..], b)
    else Lcs(a, b[1..])
  }

  /** No common subsequence is longer than Lcs. */
  lemma {:induction false} LcsIsUpperBound(s: seq<Line>, a: seq<Line>, b: seq<Line>)
    requires Subsequence(s, a) && Subsequence(s, b)
    ensures |s| <= Lcs(a, b)
    decreases |a| + |b|
  {
    if s != [] {
      if a[0] == b[0] {
        SubsequenceTail(s, a);
        SubsequenceTail(s, b);
        LcsIsUpperBound(s[1..], a[1..], b[1..]);
      } else if s[0] != a[0] {
        LcsIsUpperBound(s, a[1..], b);
      } else {
        LcsIsUpperBound(s, a, b[1..]);
      }
    }
  }

  // ----- the script -----

  ghost function Script(a: seq<Line>, b: seq<Line>): seq<DiffOp>
    decreases |a| + |b|
  {
    if a == [] && b == [] then []
    else if a == [] then [DiffOp(Added, b[0])] + Script(a, b[1..])
    else if b == [] then [DiffOp(Removed, a[0])] + Script(a[1..], b)
    else if a[0] == b[0] then [DiffOp(Same, a[0])] + Script(a[1..], b[1..])
    else if Lcs(a[1..], b) >= Lcs(a, b[1..]) then [DiffOp(Removed, a[0])] + Script(a[1..], b)
    else [DiffOp(Added, b[0])] + Script(a, b[1..])
  }

  lemma {:induction false} ScriptSpells(a: seq<Line>, b: seq<Line>)
    ensures OldSide(Script(a, b)) == a
    ensures NewSide(Script(a, b)) == b
    ensures |Kept(Script(a, b))| == Lcs(a, b)
    decreases |a| + |b|
  {
    if a == [] && b == [] {
    } else if a == [] {
      ScriptSpells(a, b[1..]);
    } else if b == [] {
      ScriptSpells(a[1..], b);
    } else if a[0] == b[0] {
      ScriptSpells(a[1..], b[1..]);
    } else if Lcs(a[1..], b) >= Lcs(a, b[1..]) {
      ScriptSpells(a[1..], b);
    } else {
      ScriptSpells(a, b[1..]);
    }
  }

  lemma {:induction false} KeptIsCommon(ops: seq<DiffOp>)
    ensures Subsequence(Kept(ops), OldSide(ops))
    ensures Subsequence(Kept(ops), NewSide(ops))
  {
    if ops != [] {
      KeptIsCommon(ops[1..]);
      if ops[0].kind == Same {
        var line := [ops[0].line];
        assert (line + Kept(ops[1..]))[1..] == Kept(ops[1..]);
        assert (line + OldSide(ops[1..]))[1..] == OldSide(ops[1..]);
        assert (line + NewSide(ops[1..]))[1..] == NewSide(ops[1..]);
      } else if ops[0].kind == Removed {
        assert OldSide(ops)[1..] == OldSide(ops[1..]);
      } else {
        assert NewSide(ops)[1..] == NewSide(ops[1..]);
      }
    }
  }

  lemma {:induction false} ChangesCount(ops: seq<DiffOp>)
    ensures Changes(ops) + 2 * |Kept(ops)| == |OldSide(ops)| + |NewSide(ops)|
  {
    if ops != [] {
      ChangesCount(ops[1..]);
    }
  }

  /** The script keeps a longest common subsequence: its kept lines are common to both
      texts, and no common subsequence is longer. */
  lemma ScriptKeepsLongest(a: seq<Line>, b: seq<Line>, s: seq<Line>)
    requires Subsequence(s, a) && Subsequence(s, b)
    ensures Subsequence(Kept(Script(a, b)), a) && Subsequence(Kept(Script(a, b)), b)
    ensures |s| <= |Kept(Script(a, b))|
  {
    ScriptSpells(a, b);
    KeptIsCommon(Script(a, b));
    LcsIsUpperBound(s, a, b);
  }

  lemma LcsOfTail(a: seq<Line>, b: seq<Line>)
    requires b != []
    ensures Lcs(a, b[1..]) <= Lcs(a, b)
  {
    var ops := Script(a, b[1..]);
    ScriptSpells(a, b[1..]);
    KeptIsCommon(ops);
    LcsIsUpperBound(Kept(ops), a, b);
  }

  ghost predicate RemovalsFirst(ops: seq<DiffOp>) {
    forall k :: 0 <= k < |ops| - 1 ==> !(ops[k].kind == Added && ops[k + 1].kind == Removed)
  }

  lemma AddedThenNotRemoved(a: seq<Line>, b: seq<Line>)
    requires a != [] && b != [] && a[0] != b[0] && Lcs(a[1..], b) < Lcs(a, b[1..])
    ensures var rest := Script(a, b[1..]); rest != [] && rest[0].kind != Removed
  {
    LcsOfTail(a[1..], b);
  }

  lemma FirstThenRest(op: DiffOp, rest: seq<DiffOp>)
    requires RemovalsFirst(rest) && (op.kind == Added && rest != [] ==> rest[0].kind != Removed)
    ensures RemovalsFirst([op] + rest)
  {
    var ops := [op] + rest;
    assert forall k :: 1 <= k < |ops| ==> ops[k] == rest[k - 1];
  }

  /** In every stretch of changes the removed lines come before the added ones. */
  lemma {:induction false} ScriptRemovesFirst(a: seq<Line>, b: seq<Line>)
    ensures RemovalsFirst(Script(a, b))
    decreases |a| + |b|
  {
    if a == [] && b == [] {
    } else if a == [] {
      ScriptRemovesFirst(a, b[1..]);
      FirstThenRest(DiffOp(Added, b[0]), Script(a, b[1..]));
    } else if b == [] {
      ScriptRemovesFirst(a[1..], b);
      FirstThenRest(DiffOp(Removed, a[0]), Script(a[1..], b));
    } else if a[0] == b[0] {
      ScriptRemovesFirst(a[1..], b[1..]);
      FirstThenRest(DiffOp(Same, a[0]), Script(a[1..], b[1..]));
    } else if Lcs(a[1..], b) >= Lcs(a, b[1..]) {
      ScriptRemovesFirst(a[1..], b);
      FirstThenRest(DiffOp(Removed, a[0]), Script(a[1..], b));
    } else {
      ScriptRemovesFirst(a, b[1..]);
      AddedThenNotRemoved(a, b);
      FirstThenRest(DiffOp(Added, b[0]), Script(a, b[1..]));
    }
  }

  /** No script turning `a` into `b` has fewer removed and added lines. */
  lemma ScriptIsMinimal(a: seq<Line>, b: seq<Line>, other: seq<DiffOp>)
    requires OldSide(other) == a && NewSide(other) == b
    ensures Changes(Script(a, b)) <= Changes(other)
  {
    ScriptSpells(a, b);
    ChangesCount(Script(a, b));
    KeptIsCommon(other);
    LcsIsUpperBound(Kept(other), a, b);
    ChangesCount(other);
  }

  // ----- the algorithm -----

  /** The table entry for the suffixes a[i..] and b[j..]. */
  ghost function Entry(a: seq<Line>, b: seq<Line>, i: nat, j: nat): nat
    requires i <= |a| && j <= |b|
  {
    Lcs(a[i..], b[j..])
  }

  lemma EntryStep(a: seq<Line>, b: seq<Line>, i: nat, j: nat)
    requires i <= |a| && j <= |b|
    ensures i == |a| || j == |b| ==> Entry(a, b, i, j) == 0
    ensures i < |a| && j < |b| ==>
              Entry(a, b, i, j) ==
              if a[i] == b[j] then Entry(a, b, i + 1, j + 1) + 1
              else if Entry(a, b, i + 1, j) >= Entry(a, b, i, j + 1) then Entry(a, b, i + 1, j)
              else Entry(a, b, i, j + 1)
  {
    if i < |a| && j < |b| {
      assert a[i..][1..] == a[i + 1..] && b[j..][1..] == b[j + 1..];
    }
  }

  method LcsTable(a: seq<Line>, b: seq<Line>) returns (dp: array2<nat>)
    ensures dp.Length0 == |a| + 1 && dp.Length1 == |b| + 1
    ensures forall r, c :: 0 <= r <= |a| && 0 <= c <= |b| ==> dp[r, c] == Entry(a, b, r, c)
    ensures fresh(dp)
  {
    var n, m := |a|, |b|;
    dp := new nat[n + 1, m + 1]((_, _) => 0);
    forall c | 0 <= c <= m ensures Entry(a, b, n, c) == 0 { EntryStep(a, b, n, c); }
    var i := n - 1;
    while i >= 0
      invariant -1 <= i < n
      invariant forall r :: 0 <= r <= i ==> dp[r, m] == 0
      invariant forall r, c :: i < r <= n && 0 <= c <= m ==> dp[r, c] == Entry(a, b, r, c)
    {
      EntryStep(a, b, i, m);
      var j := m - 1;
      while j >= 0
        invariant -1 <= j < m
        invariant forall r :: 0 <= r <= i ==> dp[r, m] == 0
        invariant forall r, c :: i < r <= n && 0 <= c <= m ==> dp[r, c] == Entry(a, b, r, c)
        invariant forall c :: j < c <= m ==> dp[i, c] == Entry(a, b, i, c)
      {
        EntryStep(a, b, i, j);
        if a[i] == b[j] {
          dp[i, j] := dp[i + 1, j + 1] + 1;
        } else if dp[i + 1, j] >= dp[i, j + 1] {
          dp[i, j] := dp[i + 1, j];
        } else {
          dp[i, j] := dp[i, j + 1];
        }
        j := j - 1;
      }
      i := i - 1;
    }
  }

  /** With the cursors at `i` and `j`, the script is `ops` and then the script of the two suffixes. */
  ghost predicate Emitted(ops: seq<DiffOp>, a: seq<Line>, b: seq<Line>, i: nat, j: nat) {
    && i <= |a| && j <= |b|
    && ops + Script(a[i..], b[j..]) == Script(a, b)
  }

  lemma EmitSame(ops: seq<DiffOp>, a: seq<Line>, b: seq<Line>, i: nat, j: nat)
    requires Emitted(ops, a, b, i, j) && i < |a| && j < |b| && a[i] == b[j]
    ensures Emitted(ops + [DiffOp(Same, a[i])], a, b, i + 1, j + 1)
  {
    assert a[i..][1..] == a[i + 1..] && b[j..][1..] == b[j + 1..];
    assert Script(a[i..], b[j..]) == [DiffOp(Same, a[i])] + Script(a[i + 1..], b[j + 1..]);
  }

  lemma EmitRemoved(ops: seq<DiffOp>, a: seq<Line>, b: seq<Line>, i: nat, j: nat)
    requires Emitted(ops, a, b, i, j) && i < |a|
    requires j < |b| ==> a[i] != b[j] && Entry(a, b, i + 1, j) >= Entry(a, b, i, j + 1)
    ensures Emitted(ops + [DiffOp(Removed, a[i])], a, b, i + 1, j)
  {
    assert a[i..][1..] == a[i + 1..];
    assert j < |b| ==> b[j..][1..] == b[j + 1..];
    assert Script(a[i..], b[j..]) == [DiffOp(Removed, a[i])] + Script(a[i + 1..], b[j..]);
  }

  lemma EmitAdded(ops: seq<DiffOp>, a: seq<Line>, b: seq<Line>, i: nat, j: nat)
    requires Emitted(ops, a, b, i, j) && j < |b|
    requires i < |a| ==> a[i] != b[j] && Entry(a, b, i + 1, j) < Entry(a, b, i, j + 1)
    ensures Emitted(ops + [DiffOp(Added, b[j])], a, b, i, j + 1)
  {
    assert b[j..][1..] == b[j + 1..];
    assert i < |a| ==> a[i..][1..] == a[i + 1..];
    assert Script(a[i..], b[j..]) == [DiffOp(Added, b[j])] + Script(a[i..], b[j + 1..]);
  }

  method LcsDiff(a: seq<Line>, b: seq<Line>) returns (ops: seq<DiffOp>)
    ensures ops == Script(a, b)
  {
    var n, m := |a|, |b|;
    var dp := LcsTable(a, b);
    ops := [];
    var i, j := 0, 0;
    assert a[0..] == a && b[0..] == b;
    while i < n && j < m
      invariant Emitted(ops, a, b, i, j)
      modifies {}
    {
      if a[i] == b[j] {
        EmitSame(ops, a, b, i, j);
        ops := ops + [DiffOp(Same, a[i])];
        i := i + 1;
        j := j + 1;
      } else if dp[i + 1, j] >= dp[i, j + 1] {
        EmitRemoved(ops, a, b, i, j);
        ops := ops + [DiffOp(Removed, a[i])];
        i := i + 1;
      } else {
        EmitAdded(ops, a, b, i, j);
        ops := ops + [DiffOp(Added, b[j])];
        j := j + 1;
      }
    }
    while i < n
      invariant Emitted(ops, a, b, i, j) && (i < n ==> j == m)
    {
      EmitRemoved(ops, a, b, i, j);
      ops := ops + [DiffOp(Removed, a[i])];
      i := i + 1;
    }
    while j < m
      invariant Emitted(ops, a, b, i, j) && i == n
    {
      EmitAdded(ops, a, b, i, j);
      ops := ops + [DiffOp(Added, b[j])];
      j := j + 1;
    }
  }
}
