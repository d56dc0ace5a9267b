/** The diff text as it is built: the marking pass, the grouping pass and the hunk writer
    (tools/admin-ui/diff.go, `unifiedDiff` and `writeHunk`). */
module UnifiedDiff {
  import Lines
  import opened Options
  import opened LineDiff
  import opened Hunks
  import Text
  import opened HunkFormat

  function FileHeader(oldName: string, newName: string): string {
    "--- " + oldName + "\n+++ " + newName + "\n"
  }

  lemma CountStep(ops: seq<DiffOp>, lo: nat, k: nat)
    requires lo <= k < |ops|
    ensures |OldSide(ops[lo..k + 1])| == |OldSide(ops[lo..k])| + OldCount(ops[k].kind)
    ensures |NewSide(ops[lo..k + 1])| == |NewSide(ops[lo..k])| + NewCount(ops[k].kind)
  {
    assert ops[lo..k + 1] == ops[lo..k] + [ops[k]];
    SidesAppend(ops[lo..k], [ops[k]]);
  }

  lemma {:induction false} BodyTextAppend(ops: seq<DiffOp>, op: DiffOp)
    ensures BodyText(ops + [op]) == BodyText(ops) + OpText(op)
  {
    hide OpText;
    if ops == [] {
      assert BodyText([op]) == OpText(op) + BodyText([]);
    } else {
      BodyTextAppend(ops[1..], op);
      assert (ops + [op])[1..] == ops[1..] + [op];
      Text.Regroup(OpText(ops[0]), BodyText(ops[1..]), OpText(op));
    }
  }

  /** The number of old and new lines among ops[lo..hi]. */
  method CountLines(ops: seq<DiffOp>, lo: nat, hi: nat, o: nat, n: nat) returns (oldLines: nat, newLines: nat)
    requires lo <= hi <= |ops|
    ensures oldLines == o + |OldSide(ops[lo..hi])| && newLines == n + |NewSide(ops[lo..hi])|
  {
    oldLines, newLines := o, n;
    assert ops[lo..lo] == [];
    for k := lo to hi
      invariant oldLines == o + |OldSide(ops[lo..k])| && newLines == n + |NewSide(ops[lo..k])|
    {
      CountStep(ops, lo, k);
      match ops[k].kind {
        case Same =>
          oldLines := oldLines + 1;
          newLines := newLines + 1;
        case Removed =>
          oldLines := oldLines + 1;
        case Added =>
          newLines := newLines + 1;
      }
    }
  }

  method WriteOp(sb: Text.Builder, op: DiffOp)
    modifies sb
    ensures sb.text == old(sb.text) + OpText(op)
  {
    var line, trailing := op.line, "";
    if line == "" || line[|line| - 1] != '\n' {
      trailing := "\n" + NO_NEWLINE;
    }
    var prefix := ' ';
    match op.kind {
      case Same =>
      case Removed => prefix := '-';
      case Added => prefix := '+';
    }
    sb.Write([prefix]);
    sb.Write(line);
    sb.Write(trailing);
    Text.Regroup(old(sb.text), [prefix], line);
    Text.Regroup(old(sb.text), [prefix] + line, trailing);
    Text.Regroup([prefix], line, trailing);
  }

  lemma BodyTextStep(ops: seq<DiffOp>, lo: nat, k: nat)
    requires lo <= k < |ops|
    ensures BodyText(ops[lo..k + 1]) == BodyText(ops[lo..k]) + OpText(ops[k])
  {
    hide OpText;
    assert ops[lo..k + 1] == ops[lo..k] + [ops[k]];
    BodyTextAppend(ops[lo..k], ops[k]);
  }

  lemma NoBodyText(ops: seq<DiffOp>, lo: nat)
    requires lo <= |ops|
    ensures BodyText(ops[lo..lo]) == ""
  {
    assert ops[lo..lo] == [];
  }

  method WriteBody(sb: Text.Builder, ops: seq<DiffOp>, lo: nat, hi: nat)
    requires lo <= hi <= |ops|
    modifies sb
    ensures sb.text == old(sb.text) + BodyText(ops[lo..hi])
  {
    hide *;
    NoBodyText(ops, lo);
    for k := lo to hi
      invariant sb.text == old(sb.text) + BodyText(ops[lo..k])
    {
      WriteOp(sb, ops[k]);
      BodyTextStep(ops, lo, k);
      Text.Regroup(old(sb.text), BodyText(ops[lo..k]), OpText(ops[k]));
    }
  }

  method WriteHunk(sb: Text.Builder, ops: seq<DiffOp>, lo: nat, hi: nat)
    requires lo <= hi <= |ops|
    modifies sb
    ensures sb.text == old(sb.text) + HunkText(HunkAt(ops, Range(lo, hi)))
  {
    var aStart, bStart := CountLines(ops, 0, lo, 1, 1);
    var aLen, bLen := CountLines(ops, lo, hi, 0, 0);
    assert ops[0..lo] == ops[..lo];
    ghost var h := HunkAt(ops, Range(lo, hi));
    sb.Write("@@ -" + (PairText(aStart, aLen) + (" +" + (PairText(bStart, bLen) + " @@\n"))));
    WriteBody(sb, ops, lo, hi);
    Text.Regroup(old(sb.text), HeaderText(h), BodyText(h.body));
  }

  /** Some change among the first `i` operations is within CONTEXT of `k`. */
  predicate NearEarlier(ops: seq<DiffOp>, i: nat, k: int) {
    exists c :: 0 <= c < i && c < |ops| && ops[c].kind != Same && k - CONTEXT <= c <= k + CONTEXT
  }

  method MarkShown(ops: seq<DiffOp>) returns (keep: array<bool>)
    ensures fresh(keep) && keep[..] == Shown(ops)
  {
    var n := |ops|;
    keep := new bool[n](_ => false);
    for i := 0 to n
      invariant forall k :: 0 <= k < n ==> keep[k] == NearEarlier(ops, i, k)
    {
      if ops[i].kind != Same {
        var lo := if i - CONTEXT < 0 then 0 else i - CONTEXT;
        var hi := if i + CONTEXT + 1 > n then n else i + CONTEXT + 1;
        for k := lo to hi
          invariant forall j :: 0 <= j < n ==> keep[j] == (NearEarlier(ops, i, j) || lo <= j < k)
        {
          keep[k] := true;
        }
      }
      forall k | 0 <= k < n
        ensures NearEarlier(ops, i + 1, k)
                <==> NearEarlier(ops, i, k) || (ops[i].kind != Same && k - CONTEXT <= i <= k + CONTEXT)
      {
      }
    }
    forall k | 0 <= k < n ensures keep[k] == NearChange(ops, k) {
    }
  }

  lemma {:induction false} HunksTextAppend(ops: seq<DiffOp>, keep: seq<bool>, i: nat)
    requires |keep| == |ops| && i < |ops| && keep[i]
    requires Within(Runs(keep, i), |ops|) && Within(Runs(keep, RunEnd(keep, i)), |ops|)
    ensures HunksText(HunksAt(ops, Runs(keep, i)))
            == HunkText(HunkAt(ops, Range(i, RunEnd(keep, i)))) + HunksText(HunksAt(ops, Runs(keep, RunEnd(keep, i))))
  {
    hide HunkText, HunkAt;
    var j := RunEnd(keep, i);
    assert Runs(keep, i)[1..] == Runs(keep, j);
    assert HunksAt(ops, Runs(keep, i))[1..] == HunksAt(ops, Runs(keep, j));
  }

  lemma RunEndReached(keep: seq<bool>, i: nat, j: nat)
    requires i <= j <= |keep| && (forall k :: i <= k < j ==> keep[k]) && (j < |keep| ==> !keep[j])
    ensures RunEnd(keep, i) == j
  {
  }

  lemma RunsWithin(ops: seq<DiffOp>, keep: seq<bool>, i: nat)
    requires |keep| == |ops| && i <= |ops|
    ensures Within(Runs(keep, i), |ops|)
  {
    RunsSeparated(keep, i);
    SeparatedWithin(Runs(keep, i), i, |ops|);
  }

  /** What is still to be written when the grouping pass stands at position `i`. */
  ghost function HunksFrom(ops: seq<DiffOp>, keep: seq<bool>, i: nat): string
    requires |keep| == |ops| && i <= |ops|
  {
    RunsWithin(ops, keep, i);
    HunksText(HunksAt(ops, Runs(keep, i)))
  }

  lemma SkipHidden(ops: seq<DiffOp>, keep: seq<bool>, i: nat)
    requires |keep| == |ops| && i < |ops| && !keep[i]
    ensures HunksFrom(ops, keep, i) == HunksFrom(ops, keep, i + 1)
  {
  }

  lemma TakeRun(ops: seq<DiffOp>, keep: seq<bool>, i: nat, j: nat)
    requires |keep| == |ops| && i < j <= |ops|
    requires (forall k :: i <= k < j ==> keep[k]) && (j < |keep| ==> !keep[j])
    ensures HunksFrom(ops, keep, i) == HunkText(HunkAt(ops, Range(i, j))) + HunksFrom(ops, keep, j)
  {
    hide HunkText, HunkAt;
    RunEndReached(keep, i, j);
    RunsWithin(ops, keep, i);
    RunsWithin(ops, keep, j);
    HunksTextAppend(ops, keep, i);
  }

  method WriteHunks(sb: Text.Builder, ops: seq<DiffOp>, keep: array<bool>)
    requires keep.Length == |ops|
    modifies sb
    ensures sb.text == old(sb.text) + HunksFrom(ops, keep[..], 0)
  {
    hide HunksFrom, HunkText, HunkAt;
    var n := |ops|;
    var i := 0;
    while i < n
      invariant i <= n
      invariant sb.text + HunksFrom(ops, keep[..], i) == old(sb.text) + HunksFrom(ops, keep[..], 0)
    {
      if !keep[i] {
        SkipHidden(ops, keep[..], i);
        i := i + 1;
      } else {
        var j := i;
        while j < n && keep[j]
          invariant i <= j <= n && forall k :: i <= k < j ==> keep[k]
          modifies {}
        {
          j := j + 1;
        }
        TakeRun(ops, keep[..], i, j);
        Text.Regroup(sb.text, HunkText(HunkAt(ops, Range(i, j))), HunksFrom(ops, keep[..], j));
        WriteHunk(sb, ops, i, j);
        i := j;
      }
    }
    NothingLeft(ops, keep[..]);
  }

  lemma NothingLeft(ops: seq<DiffOp>, keep: seq<bool>)
    requires |keep| == |ops|
    ensures HunksFrom(ops, keep, |ops|) == ""
  {
  }

  lemma WholeText(a: string, b: string)
    ensures AllPrintable(DiffHunks(a, b))
    ensures var ops := Script(Lines.Split(a), Lines.Split(b));
            HunksFrom(ops, Shown(ops), 0) == HunksText(DiffHunks(a, b))
  {
    RunsWithin(Script(Lines.Split(a), Lines.Split(b)), Shown(Script(Lines.Split(a), Lines.Split(b))), 0);
  }

  /** The whole text: the two file names and then the hunks of the edit script. */
  method Unified(oldName: string, newName: string, a: string, b: string) returns (text: string)
    ensures AllPrintable(DiffHunks(a, b))
    ensures text == FileHeader(oldName, newName) + HunksText(DiffHunks(a, b))
  {
    hide *;
    WholeText(a, b);
    var aLines := Lines.SplitKeepEOL(a);
    var bLines := Lines.SplitKeepEOL(b);
    var ops := LcsDiff(aLines, bLines);
    var sb := new Text.Builder();
    sb.Write(FileHeader(oldName, newName));
    assert sb.text == FileHeader(oldName, newName);
    var keep := MarkShown(ops);
    WriteHunks(sb, ops, keep);
    text := sb.text;
  }

  // ----- reading the whole text -----

  /** A line that starts with a mark; returns the rest of the line and the unread text. */
  function ReadLabelled(s: string, mark: string): Option<(string, string)> {
    var t :- Expect(s, mark);
    var k := Text.IndexOf(t, '\n');
    if k == |t| then None else Some((t[..k], t[k + 1..]))
  }

  datatype Diff = Diff(oldName: string, newName: string, hunks: seq<Hunk>)

  function ReadDiff(s: string): Option<Diff> {
    var (oldName, s1) :- ReadLabelled(s, "--- ");
    var (newName, s2) :- ReadLabelled(s1, "+++ ");
    var hunks :- ReadHunks(s2);
    Some(Diff(oldName, newName, hunks))
  }

  lemma ReadLabelledText(mark: string, name: string, rest: string)
    requires '\n' !in name
    ensures ReadLabelled(mark + (name + ("\n" + rest)), mark) == Some((name, rest))
  {
    var t := name + ("\n" + rest);
    ExpectLiteral(mark, t);
    Text.IndexOfAfter(t, '\n', |name|);
    assert t[..|name|] == name && t[|name| + 1..] == rest;
  }

  lemma FileHeaderParts(oldName: string, newName: string, rest: string)
    ensures FileHeader(oldName, newName) + rest == "--- " + (oldName + ("\n" + ("+++ " + (newName + ("\n" + rest)))))
  {
    Text.Regroup("--- " + oldName, "\n", "+++ ");
    assert "\n" + "+++ " == "\n+++ ";
    Text.Regroup("--- ", oldName, "\n+++ ");
    Text.Regroup("--- " + oldName + "\n+++ " + newName, "\n", rest);
    Text.Regroup("--- " + oldName + "\n+++ ", newName, "\n" + rest);
    Text.Regroup("--- " + oldName, "\n+++ ", newName + ("\n" + rest));
    Text.Regroup("--- ", oldName, "\n+++ " + (newName + ("\n" + rest)));
    Text.Regroup("\n", "+++ ", newName + ("\n" + rest));
  }

  /** The whole text, read back, gives the two names and exactly the hunks of the script; and they patch
      either text into the other. */
  lemma UnifiedReadsBack(oldName: string, newName: string, a: string, b: string)
    requires '\n' !in oldName && '\n' !in newName
    ensures AllPrintable(DiffHunks(a, b))
    ensures var read := ReadDiff(FileHeader(oldName, newName) + HunksText(DiffHunks(a, b)));
            && read == Some(Diff(oldName, newName, DiffHunks(a, b)))
            && Apply(Lines.Split(a), read.value.hunks) == Some(Lines.Split(b))
            && Apply(Lines.Split(b), FlipHunks(read.value.hunks)) == Some(Lines.Split(a))
  {
    hide *;
    DiffTextPatches(a, b);
    DiffHunksWellFormed(a, b);
    var text := HunksText(DiffHunks(a, b));
    ReadHunksOfText(DiffHunks(a, b));
    FileHeaderParts(oldName, newName, text);
    ReadLabelledText("--- ", oldName, "+++ " + (newName + ("\n" + text)));
    ReadLabelledText("+++ ", newName, text);
    ReadDiffParts(FileHeader(oldName, newName) + text, oldName, "+++ " + (newName + ("\n" + text)), newName, text, DiffHunks(a, b));
  }

  lemma ReadDiffParts(s: string, oldName: string, s1: string, newName: string, s2: string, hunks: seq<Hunk>)
    requires ReadLabelled(s, "--- ") == Some((oldName, s1)) && ReadLabelled(s1, "+++ ") == Some((newName, s2))
    requires ReadHunks(s2) == Some(hunks)
    ensures ReadDiff(s) == Some(Diff(oldName, newName, hunks))
  {
    hide ReadLabelled, ReadHunks;
  }
}
