/** Grouping an edit script into hunks, and applying hunks as a patch
    (tools/admin-ui/diff.go, `unifiedDiff` and the header arithmetic of `writeHunk`). */
module Hunks {
  import Lines
  import opened LineDiff
  import opened Options

  const CONTEXT: nat := 3

  /** Starts count lines from 1; a hunk is everything its printed form says. */
  datatype Hunk = Hunk(oldStart: int, oldLen: nat, newStart: int, newLen: nat, body: seq<DiffOp>)

  /** A half-open range of positions in a script. */
  datatype Range = Range(lo: nat, hi: nat)

  // ----- sides of parts of a script -----

  lemma SidesAppend(x: seq<DiffOp>, y: seq<DiffOp>)
    ensures OldSide(x + y) == OldSide(x) + OldSide(y)
    ensures NewSide(x + y) == NewSide(x) + NewSide(y)
  {
    hide *;
    OldSideAppend(x, y);
    NewSideAppend(x, y);
  }

  lemma {:induction false} OldSideAppend(x: seq<DiffOp>, y: seq<DiffOp>)
    ensures OldSide(x + y) == OldSide(x) + OldSide(y)
  {
    if x == [] {
      assert x + y == y;
    } else {
      assert (x + y)[1..] == x[1..] + y;
      OldSideAppend(x[1..], y);
    }
  }

  lemma {:induction false} NewSideAppend(x: seq<DiffOp>, y: seq<DiffOp>)
    ensures NewSide(x + y) == NewSide(x) + NewSide(y)
  {
    if x == [] {
      assert x + y == y;
    } else {
      assert (x + y)[1..] == x[1..] + y;
      NewSideAppend(x[1..], y);
    }
  }

  lemma SidesAt(ops: seq<DiffOp>, k: nat)
    requires k <= |ops|
    ensures OldSide(ops) == OldSide(ops[..k]) + OldSide(ops[k..])
    ensures NewSide(ops) == NewSide(ops[..k]) + NewSide(ops[k..])
  {
    assert ops == ops[..k] + ops[k..];
    SidesAppend(ops[..k], ops[k..]);
  }

  lemma SidesCut(ops: seq<DiffOp>, lo: nat, hi: nat)
    requires lo <= hi <= |ops|
    ensures OldSide(ops[..hi]) == OldSide(ops[..lo]) + OldSide(ops[lo..hi])
    ensures NewSide(ops[..hi]) == NewSide(ops[..lo]) + NewSide(ops[lo..hi])
  {
    SidesAt(ops[..hi], lo);
    assert ops[..hi][..lo] == ops[..lo] && ops[..hi][lo..] == ops[lo..hi];
  }

  // ----- which positions are shown, and how they group -----

  /** A change lies within CONTEXT positions of `k`. */
  predicate NearChange(ops: seq<DiffOp>, k: int) {
    exists i :: 0 <= i < |ops| && ops[i].kind != Same && k - CONTEXT <= i <= k + CONTEXT
  }

  function Shown(ops: seq<DiffOp>): (keep: seq<bool>)
    ensures |keep| == |ops|
    ensures forall k :: 0 <= k < |ops| ==> keep[k] == NearChange(ops, k)
  {
    seq(|ops|, k => NearChange(ops, k))
  }

  function RunEnd(keep: seq<bool>, i: nat): (j: nat)
    requires i <= |keep|
    ensures i <= j <= |keep|
    ensures forall k :: i <= k < j ==> keep[k]
    ensures j < |keep| ==> !keep[j]
    decreases |keep| - i
  {
    if i < |keep| && keep[i] then RunEnd(keep, i + 1) else i
  }

  /** The maximal runs of shown positions from `i` on. */
  function Runs(keep: seq<bool>, i: nat): seq<Range>
    requires i <= |keep|
    decreases |keep| - i
  {
    if i == |keep| then []
    else if !keep[i] then Runs(keep, i + 1)
    else [Range(i, RunEnd(keep, i))] + Runs(keep, RunEnd(keep, i))
  }

  predicate Separated(rs: seq<Range>, from: nat, n: nat) {
    rs == [] || (from <= rs[0].lo < rs[0].hi <= n && Separated(rs[1..], rs[0].hi + 1, n))
  }

  predicate Covers(rs: seq<Range>, k: nat) {
    rs != [] && (rs[0].lo <= k < rs[0].hi || Covers(rs[1..], k))
  }

  /** The runs are non-empty, increasing and separated by at least one hidden position. */
  lemma {:induction false} RunsSeparated(keep: seq<bool>, i: nat)
    requires i <= |keep|
    ensures Separated(Runs(keep, i), i, |keep|)
    ensures i < |keep| && !keep[i] ==> Separated(Runs(keep, i), i + 1, |keep|)
    decreases |keep| - i
  {
    if i == |keep| {
    } else if !keep[i] {
      RunsSeparated(keep, i + 1);
      SeparatedFrom(Runs(keep, i + 1), i + 1, i, |keep|);
    } else {
      RunsSeparated(keep, RunEnd(keep, i));
      assert Runs(keep, i)[1..] == Runs(keep, RunEnd(keep, i));
    }
  }

  lemma SeparatedFrom(rs: seq<Range>, from: nat, earlier: nat, n: nat)
    requires earlier <= from && Separated(rs, from, n)
    ensures Separated(rs, earlier, n)
  {
  }

  /** The runs cover exactly the shown positions. */
  lemma {:induction false} RunsCover(keep: seq<bool>, i: nat, k: nat)
    requires i <= k < |keep|
    ensures Covers(Runs(keep, i), k) <==> keep[k]
    decreases |keep| - i
  {
    if !keep[i] {
      if k == i {
        RunsSeparated(keep, i);
        NotCovered(Runs(keep, i), i + 1, |keep|, k);
      } else {
        RunsCover(keep, i + 1, k);
      }
    } else {
      var j := RunEnd(keep, i);
      assert Runs(keep, i)[1..] == Runs(keep, j);
      if j <= k {
        RunsCover(keep, j, k);
      }
    }
  }

  lemma {:induction false} NotCovered(rs: seq<Range>, from: nat, n: nat, k: nat)
    requires Separated(rs, from, n) && k < from
    ensures !Covers(rs, k)
  {
    if rs != [] {
      NotCovered(rs[1..], rs[0].hi + 1, n, k);
    }
  }

  predicate Within(rs: seq<Range>, n: nat) {
    forall r :: 0 <= r < |rs| ==> rs[r].lo < rs[r].hi <= n
  }

  lemma {:induction false} SeparatedWithin(rs: seq<Range>, from: nat, n: nat)
    requires Separated(rs, from, n)
    ensures Within(rs, n)
  {
    if rs != [] {
      SeparatedWithin(rs[1..], rs[0].hi + 1, n);
      assert forall r :: 0 < r < |rs| ==> rs[r] == rs[1..][r - 1];
    }
  }

  function HunkAt(ops: seq<DiffOp>, r: Range): (h: Hunk)
    requires r.lo <= r.hi <= |ops|
    ensures h.oldStart >= 1 && h.newStart >= 1
  {
    Hunk(1 + |OldSide(ops[..r.lo])|, |OldSide(ops[r.lo..r.hi])|,
         1 + |NewSide(ops[..r.lo])|, |NewSide(ops[r.lo..r.hi])|,
         ops[r.lo..r.hi])
  }

  function HunksAt(ops: seq<DiffOp>, rs: seq<Range>): (hs: seq<Hunk>)
    requires Within(rs, |ops|)
    ensures |hs| == |rs|
    ensures forall k :: 0 <= k < |rs| ==> hs[k] == HunkAt(ops, rs[k])
  {
    seq(|rs|, k requires 0 <= k < |rs| => HunkAt(ops, rs[k]))
  }

  /** The hunks of a script. */
  function HunksOf(ops: seq<DiffOp>): seq<Hunk> {
    RunsSeparated(Shown(ops), 0);
    SeparatedWithin(Runs(Shown(ops), 0), 0, |ops|);
    HunksAt(ops, Runs(Shown(ops), 0))
  }

  // ----- applying a patch -----

  /** Patch `a` from line offset `pos`, with `made` lines of the result already produced.
      Every number of a hunk is checked against the text it is applied to. */
  function ApplyFrom(a: seq<Lines.Line>, pos: nat, made: nat, hs: seq<Hunk>): Option<seq<Lines.Line>>
    requires pos <= |a|
    decreases |hs|
  {
    if hs == [] then Some(a[pos..])
    else
      var h := hs[0];
      var at := h.oldStart - 1;
      if at < pos || at + h.oldLen > |a| then None
      else if a[at..at + h.oldLen] != OldSide(h.body) then None
      else if h.newStart - 1 != made + (at - pos) || h.newLen != |NewSide(h.body)| then None
      else
        var rest :- ApplyFrom(a, at + h.oldLen, h.newStart - 1 + h.newLen, hs[1..]);
        Some(a[pos..at] + NewSide(h.body) + rest)
  }

  function Apply(a: seq<Lines.Line>, hs: seq<Hunk>): Option<seq<Lines.Line>> {
    ApplyFrom(a, 0, 0, hs)
  }

  /** A line before the first hunk is copied. */
  lemma CopyLine(a: seq<Lines.Line>, pos: nat, made: nat, hs: seq<Hunk>)
    requires pos < |a| && ApplyFrom(a, pos + 1, made + 1, hs).Some?
    ensures ApplyFrom(a, pos, made, hs) == Some([a[pos]] + ApplyFrom(a, pos + 1, made + 1, hs).value)
  {
    if hs == [] {
      assert a[pos..] == [a[pos]] + a[pos + 1..];
    } else {
      var h, at := hs[0], hs[0].oldStart - 1;
      var rest := ApplyFrom(a, at + h.oldLen, h.newStart - 1 + h.newLen, hs[1..]).value;
      assert a[pos..at] == [a[pos]] + a[pos + 1..at];
      assert [a[pos]] + (a[pos + 1..at] + NewSide(h.body) + rest) == a[pos..at] + NewSide(h.body) + rest;
    }
  }

  ghost predicate CoversChanges(ops: seq<DiffOp>, keep: seq<bool>) {
    |keep| == |ops| && forall k :: 0 <= k < |ops| && !keep[k] ==> ops[k].kind == Same
  }

  /** What remains of the patch when the script has been followed up to position `i`. */
  ghost predicate Patches(ops: seq<DiffOp>, i: nat, hs: seq<Hunk>) {
    && i <= |ops|
    && |OldSide(ops[..i])| <= |OldSide(ops)|
    && ApplyFrom(OldSide(ops), |OldSide(ops[..i])|, |NewSide(ops[..i])|, hs) == Some(NewSide(ops[i..]))
  }

  lemma PatchesAtEnd(ops: seq<DiffOp>)
    ensures Patches(ops, |ops|, [])
  {
    assert ops[..|ops|] == ops && ops[|ops|..] == [];
    assert OldSide(ops)[|OldSide(ops)|..] == [];
  }

  lemma PatchesSame(ops: seq<DiffOp>, i: nat, hs: seq<Hunk>)
    requires i < |ops| && ops[i].kind == Same && Patches(ops, i + 1, hs)
    ensures Patches(ops, i, hs)
  {
    var a, line := OldSide(ops), [ops[i].line];
    SameLine(ops, i);
    CopyLine(a, |OldSide(ops[..i])|, |NewSide(ops[..i])|, hs);
  }

  lemma SameLine(ops: seq<DiffOp>, i: nat)
    requires i < |ops| && ops[i].kind == Same
    ensures |OldSide(ops[..i])| < |OldSide(ops)| && OldSide(ops)[|OldSide(ops[..i])|] == ops[i].line
    ensures |OldSide(ops[..i + 1])| == |OldSide(ops[..i])| + 1
    ensures |NewSide(ops[..i + 1])| == |NewSide(ops[..i])| + 1
    ensures NewSide(ops[i..]) == [ops[i].line] + NewSide(ops[i + 1..])
  {
    SidesAt(ops, i);
    assert ops[i..][1..] == ops[i + 1..];
    SidesCut(ops, i, i + 1);
    assert ops[i..i + 1] == [ops[i]] && ops[i..i + 1][1..] == [];
  }

  lemma HunkLines(ops: seq<DiffOp>, lo: nat, hi: nat)
    requires lo <= hi <= |ops|
    ensures |OldSide(ops[..hi])| == |OldSide(ops[..lo])| + |OldSide(ops[lo..hi])| <= |OldSide(ops)|
    ensures |NewSide(ops[..hi])| == |NewSide(ops[..lo])| + |NewSide(ops[lo..hi])|
    ensures OldSide(ops)[|OldSide(ops[..lo])|..|OldSide(ops[..hi])|] == OldSide(ops[lo..hi])
    ensures NewSide(ops[lo..]) == NewSide(ops[lo..hi]) + NewSide(ops[hi..])
  {
    SidesAt(ops, hi);
    SidesCut(ops, lo, hi);
    SidesAt(ops[lo..], hi - lo);
    assert ops[lo..][..hi - lo] == ops[lo..hi] && ops[lo..][hi - lo..] == ops[hi..];
  }

  /** A hunk that starts where the patch stands replaces its old lines by its new ones. */
  lemma ApplyHere(a: seq<Lines.Line>, pos: nat, made: nat, h: Hunk, rest: seq<Hunk>, tail: seq<Lines.Line>)
    requires h.oldStart - 1 == pos && h.newStart - 1 == made
    requires pos + h.oldLen <= |a| && a[pos..pos + h.oldLen] == OldSide(h.body)
    requires h.newLen == |NewSide(h.body)|
    requires ApplyFrom(a, pos + h.oldLen, made + h.newLen, rest) == Some(tail)
    ensures ApplyFrom(a, pos, made, [h] + rest) == Some(NewSide(h.body) + tail)
  {
    assert ([h] + rest)[1..] == rest;
    assert a[pos..pos] + NewSide(h.body) + tail == NewSide(h.body) + tail;
  }

  lemma PatchesHunk(ops: seq<DiffOp>, lo: nat, hi: nat, rest: seq<Hunk>)
    requires lo <= hi && Patches(ops, hi, rest)
    ensures Patches(ops, lo, [HunkAt(ops, Range(lo, hi))] + rest)
  {
    HunkLines(ops, lo, hi);
    ApplyHere(OldSide(ops), |OldSide(ops[..lo])|, |NewSide(ops[..lo])|,
              HunkAt(ops, Range(lo, hi)), rest, NewSide(ops[hi..]));
  }

  /** Patching from script position `i` yields the rest of the new side. */
  lemma {:induction false} PatchesRuns(ops: seq<DiffOp>, keep: seq<bool>, i: nat)
    requires CoversChanges(ops, keep) && i <= |ops|
    requires Within(Runs(keep, i), |ops|)
    ensures Patches(ops, i, HunksAt(ops, Runs(keep, i)))
    decreases |ops| - i
  {
    if i == |ops| {
      PatchesAtEnd(ops);
    } else if !keep[i] {
      PatchesRuns(ops, keep, i + 1);
      PatchesSame(ops, i, HunksAt(ops, Runs(keep, i + 1)));
    } else {
      var j := RunEnd(keep, i);
      var rest := Runs(keep, j);
      assert Runs(keep, i)[1..] == rest;
      PatchesRuns(ops, keep, j);
      PatchesHunk(ops, i, j, HunksAt(ops, rest));
      assert HunksAt(ops, Runs(keep, i)) == [HunkAt(ops, Range(i, j))] + HunksAt(ops, rest);
    }
  }

  lemma ShownCoversChanges(ops: seq<DiffOp>)
    ensures CoversChanges(ops, Shown(ops))
  {
  }

  /** Applying the hunks of any script to its old side gives its new side. */
  lemma HunksPatch(ops: seq<DiffOp>)
    ensures Apply(OldSide(ops), HunksOf(ops)) == Some(NewSide(ops))
  {
    ShownCoversChanges(ops);
    RunsSeparated(Shown(ops), 0);
    SeparatedWithin(Runs(Shown(ops), 0), 0, |ops|);
    PatchesRuns(ops, Shown(ops), 0);
    assert ops[..0] == [] && ops[0..] == ops;
  }

  // ----- the reverse patch -----

  function FlipOp(op: DiffOp): DiffOp {
    op.(kind := match op.kind case Same => Same case Removed => Added case Added => Removed)
  }

  function FlipOps(ops: seq<DiffOp>): (fs: seq<DiffOp>)
    ensures |fs| == |ops| && forall k :: 0 <= k < |ops| ==> fs[k] == FlipOp(ops[k])
  {
    seq(|ops|, k requires 0 <= k < |ops| => FlipOp(ops[k]))
  }

  function FlipHunk(h: Hunk): Hunk {
    Hunk(h.newStart, h.newLen, h.oldStart, h.oldLen, FlipOps(h.body))
  }

  function FlipHunks(hs: seq<Hunk>): (fs: seq<Hunk>)
    ensures |fs| == |hs| && forall k :: 0 <= k < |hs| ==> fs[k] == FlipHunk(hs[k])
  {
    seq(|hs|, k requires 0 <= k < |hs| => FlipHunk(hs[k]))
  }

  lemma {:induction false} FlipSwapsSides(ops: seq<DiffOp>)
    ensures OldSide(FlipOps(ops)) == NewSide(ops) && NewSide(FlipOps(ops)) == OldSide(ops)
  {
    if ops != [] {
      assert FlipOps(ops)[1..] == FlipOps(ops[1..]);
      FlipSwapsSides(ops[1..]);
    }
  }

  lemma FlipHunkAt(ops: seq<DiffOp>, r: Range)
    requires r.lo <= r.hi <= |ops|
    ensures HunkAt(FlipOps(ops), r) == FlipHunk(HunkAt(ops, r))
  {
    assert FlipOps(ops)[..r.lo] == FlipOps(ops[..r.lo]);
    assert FlipOps(ops)[r.lo..r.hi] == FlipOps(ops[r.lo..r.hi]);
    FlipSwapsSides(ops[..r.lo]);
    FlipSwapsSides(ops[r.lo..r.hi]);
  }

  lemma FlipKeepsShown(ops: seq<DiffOp>)
    ensures Shown(FlipOps(ops)) == Shown(ops)
  {
    var fs := FlipOps(ops);
    forall k | 0 <= k < |ops| ensures NearChange(fs, k) == NearChange(ops, k) {
      if i :| 0 <= i < |ops| && ops[i].kind != Same && k - CONTEXT <= i <= k + CONTEXT {
        assert fs[i].kind != Same;
      }
      if i :| 0 <= i < |ops| && fs[i].kind != Same && k - CONTEXT <= i <= k + CONTEXT {
        assert ops[i].kind != Same;
      }
    }
  }

  /** The hunks of the inverse script are the hunks read backwards. */
  lemma FlipHunksOf(ops: seq<DiffOp>)
    ensures HunksOf(FlipOps(ops)) == FlipHunks(HunksOf(ops))
  {
    FlipKeepsShown(ops);
    RunsSeparated(Shown(ops), 0);
    SeparatedWithin(Runs(Shown(ops), 0), 0, |ops|);
    var rs := Runs(Shown(ops), 0);
    forall k | 0 <= k < |rs| ensures HunkAt(FlipOps(ops), rs[k]) == FlipHunk(HunkAt(ops, rs[k])) {
      FlipHunkAt(ops, rs[k]);
    }
  }

  /** Applying the reversed hunks to the new side gives the old side back. */
  lemma HunksUnpatch(ops: seq<DiffOp>)
    ensures Apply(NewSide(ops), FlipHunks(HunksOf(ops))) == Some(OldSide(ops))
  {
    FlipHunksOf(ops);
    FlipSwapsSides(ops);
    HunksPatch(FlipOps(ops));
  }

  // ----- shape of the hunk list -----

  /** A position is inside a hunk exactly when a change is within three operations of it; every
      position outside all hunks is a line common to both texts. */
  lemma HunkMembership(ops: seq<DiffOp>, k: nat)
    requires k < |ops|
    ensures Covers(Runs(Shown(ops), 0), k)
            <==> exists i :: 0 <= i < |ops| && ops[i].kind != Same && k - 3 <= i <= k + 3
    ensures !Covers(Runs(Shown(ops), 0), k) ==> ops[k].kind == Same
  {
    RunsCover(Shown(ops), 0, k);
    ShownCoversChanges(ops);
  }

  /** Between two consecutive runs there is a hidden position right after the first. */
  lemma {:induction false} Gap(keep: seq<bool>, i: nat, r: nat)
    requires i <= |keep| && r + 1 < |Runs(keep, i)|
    ensures var x, y := Runs(keep, i)[r], Runs(keep, i)[r + 1];
            x.lo < x.hi < y.lo < y.hi <= |keep| && !keep[x.hi]
    decreases |keep| - i
  {
    if !keep[i] {
      Gap(keep, i + 1, r);
    } else {
      var j := RunEnd(keep, i);
      assert Runs(keep, i)[1..] == Runs(keep, j);
      RunsSeparated(keep, j);
      if r > 0 {
        Gap(keep, j, r - 1);
      }
    }
  }

  lemma CommonLineBetween(ops: seq<DiffOp>, p: nat, q: nat)
    requires p < q <= |ops| && ops[p].kind == Same
    ensures |OldSide(ops[..p])| < |OldSide(ops[..q])| && |NewSide(ops[..p])| < |NewSide(ops[..q])|
  {
    SameLine(ops, p);
    SidesCut(ops, p + 1, q);
  }

  lemma HunkEnds(ops: seq<DiffOp>, x: Range)
    requires x.lo <= x.hi <= |ops|
    ensures HunkAt(ops, x).oldStart + HunkAt(ops, x).oldLen == 1 + |OldSide(ops[..x.hi])|
    ensures HunkAt(ops, x).newStart + HunkAt(ops, x).newLen == 1 + |NewSide(ops[..x.hi])|
  {
    SidesCut(ops, x.lo, x.hi);
  }

  /** Consecutive hunks leave at least one common line between them, on both sides. */
  lemma HunksSeparated(ops: seq<DiffOp>, r: nat)
    requires r + 1 < |HunksOf(ops)|
    ensures var g, h := HunksOf(ops)[r], HunksOf(ops)[r + 1];
            g.oldStart + g.oldLen < h.oldStart && g.newStart + g.newLen < h.newStart
  {
    Gap(Shown(ops), 0, r);
    ShownCoversChanges(ops);
    var x, y := Runs(Shown(ops), 0)[r], Runs(Shown(ops), 0)[r + 1];
    HunkEnds(ops, x);
    CommonLineBetween(ops, x.hi, y.lo);
  }

  lemma {:induction false} AllSame(ops: seq<DiffOp>)
    requires forall k :: 0 <= k < |ops| ==> ops[k].kind == Same
    ensures OldSide(ops) == NewSide(ops) && Changes(ops) == 0
  {
    if ops != [] {
      AllSame(ops[1..]);
    }
  }

  lemma {:induction false} SomeChange(ops: seq<DiffOp>, i: nat)
    requires i < |ops| && ops[i].kind != Same
    ensures Changes(ops) > 0
  {
    if i > 0 {
      SomeChange(ops[1..], i - 1);
    }
  }

  /** There is no hunk exactly when the script changes nothing. */
  lemma NoHunkIffNoChange(ops: seq<DiffOp>)
    ensures HunksOf(ops) == [] <==> Changes(ops) == 0
    ensures HunksOf(ops) == [] ==> OldSide(ops) == NewSide(ops)
  {
    var rs := Runs(Shown(ops), 0);
    if rs == [] {
      forall k | 0 <= k < |ops| ensures ops[k].kind == Same {
        HunkMembership(ops, k);
      }
      AllSame(ops);
    } else {
      RunsSeparated(Shown(ops), 0);
      var p := rs[0].lo;
      HunkMembership(ops, p);
      var i :| 0 <= i < |ops| && ops[i].kind != Same && p - CONTEXT <= i <= p + CONTEXT;
      SomeChange(ops, i);
    }
  }

  /** A run of added lines only has nothing beside it. */
  lemma AddedRunIsAll(ops: seq<DiffOp>, r: nat)
    requires r < |Runs(Shown(ops), 0)|
    requires var x := Runs(Shown(ops), 0)[r];
             x.lo < x.hi <= |ops| && OldSide(ops[x.lo..x.hi]) == []
    ensures Runs(Shown(ops), 0)[r] == Range(0, |ops|)
  {
    var x := Runs(Shown(ops), 0)[r];
    var part := ops[x.lo..x.hi];
    NoOldLines(part);
    RunEdges(Shown(ops), 0, r);
    hide OldSide, Runs;
    assert part[0] == ops[x.lo] && part[x.hi - x.lo - 1] == ops[x.hi - 1];
    assert x.lo > 0 ==> NearChange(ops, x.lo - 1);
    assert x.hi < |ops| ==> NearChange(ops, x.hi);
  }

  /** A header with an empty old side starts at 1 (GNU diff prints 0 there), and that
      happens exactly when the whole old text is empty. */
  lemma EmptyOldSide(ops: seq<DiffOp>, r: nat)
    requires r < |HunksOf(ops)|
    ensures HunksOf(ops)[r].oldLen == 0 <==> OldSide(ops) == []
    ensures HunksOf(ops)[r].oldLen == 0 ==> HunksOf(ops)[r].oldStart == 1
  {
    RunsSeparated(Shown(ops), 0);
    SeparatedWithin(Runs(Shown(ops), 0), 0, |ops|);
    var x := Runs(Shown(ops), 0)[r];
    assert HunksOf(ops)[r] == HunkAt(ops, x);
    HunkLines(ops, x.lo, x.hi);
    if OldSide(ops[x.lo..x.hi]) == [] {
      AddedRunIsAll(ops, r);
      assert ops[x.lo..x.hi] == ops && ops[..0] == [];
    }
    hide Runs, Shown, HunksOf;
  }

  /** The same for the new side. */
  lemma EmptyNewSide(ops: seq<DiffOp>, r: nat)
    requires r < |HunksOf(ops)|
    ensures HunksOf(ops)[r].newLen == 0 <==> NewSide(ops) == []
    ensures HunksOf(ops)[r].newLen == 0 ==> HunksOf(ops)[r].newStart == 1
  {
    FlipHunksOf(ops);
    FlipSwapsSides(ops);
    hide HunksOf;
    EmptyOldSide(FlipOps(ops), r);
  }

  lemma {:induction false} NoOldLines(ops: seq<DiffOp>)
    requires OldSide(ops) == []
    ensures forall k :: 0 <= k < |ops| ==> ops[k].kind == Added
  {
    if ops != [] {
      NoOldLines(ops[1..]);
    }
  }

  /** The positions next to a run are hidden. */
  lemma {:induction false} RunEdges(keep: seq<bool>, i: nat, r: nat)
    requires i <= |keep| && r < |Runs(keep, i)|
    requires i > 0 && i < |keep| && keep[i] ==> !keep[i - 1]
    ensures var x := Runs(keep, i)[r];
            && i <= x.lo < x.hi <= |keep|
            && (x.lo > 0 ==> !keep[x.lo - 1])
            && (x.hi < |keep| ==> !keep[x.hi])
    decreases |keep| - i
  {
    if !keep[i] {
      RunEdges(keep, i + 1, r);
    } else {
      var j := RunEnd(keep, i);
      assert Runs(keep, i)[1..] == Runs(keep, j);
      if r > 0 {
        RunEdges(keep, j, r - 1);
      }
    }
  }
}
