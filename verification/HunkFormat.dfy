/** Printing hunks, and reading the printed text back
    (tools/admin-ui/diff.go, `unifiedDiff` and `writeHunk`). */
module HunkFormat {
  import opened Lines
  import opened LineDiff
  import opened Hunks
  import opened Options
  import opened Text

  const NO_NEWLINE := "\\ No newline at end of file\n"

  // ----- the printed form -----

  function Prefix(kind: Kind): char {
    match kind case Same => ' ' case Removed => '-' case Added => '+'
  }

  function Trailer(line: Line): string {
    if Terminated(line) then "" else "\n" + NO_NEWLINE
  }

  function OpText(op: DiffOp): string {
    [Prefix(op.kind)] + (op.line + Trailer(op.line))
  }

  function BodyText(ops: seq<DiffOp>): string {
    if ops == [] then "" else OpText(ops[0]) + BodyText(ops[1..])
  }

  function PairText(n: nat, m: nat): string {
    Decimal(n) + ("," + Decimal(m))
  }

  function HeaderText(h: Hunk): string
    requires h.oldStart >= 0 && h.newStart >= 0
  {
    "@@ -" + (PairText(h.oldStart, h.oldLen) + (" +" + (PairText(h.newStart, h.newLen) + " @@\n")))
  }

  predicate Printable(h: Hunk) {
    h.oldStart >= 0 && h.newStart >= 0
  }

  predicate AllPrintable(hs: seq<Hunk>) {
    forall k :: 0 <= k < |hs| ==> Printable(hs[k])
  }

  function HunkText(h: Hunk): string
    requires Printable(h)
  {
    HeaderText(h) + BodyText(h.body)
  }

  function HunksText(hs: seq<Hunk>): string
    requires AllPrintable(hs)
  {
    if hs == [] then "" else HunkText(hs[0]) + HunksText(hs[1..])
  }

  // ----- a reader that trusts only the counts of each header -----

  function Expect(s: string, literal: string): (r: Option<string>)
    ensures r.Some? ==> |r.value| == |s| - |literal|
  {
    if literal <= s then Some(s[|literal|..]) else None
  }

  function ReadNumber(s: string): (r: Option<(nat, string)>)
    ensures r.Some? ==> |r.value.1| <= |s|
  {
    if s == "" || !IsDigit(s[0]) then None else Some(ReadDecimal(s, 0))
  }

  /** "n,m": a start and a count. */
  function ReadPair(s: string): (r: Option<((nat, nat), string)>)
    ensures r.Some? ==> |r.value.1| <= |s|
  {
    var (n, s1) :- ReadNumber(s);
    var s2 :- Expect(s1, ",");
    var (m, s3) :- ReadNumber(s2);
    Some(((n, m), s3))
  }

  datatype Header = Header(before: (nat, nat), after: (nat, nat))

  function ReadHeader(s: string): (r: Option<(Header, string)>)
    ensures r.Some? ==> |r.value.1| < |s|
  {
    var s1 :- Expect(s, "@@ -");
    var (before, s2) :- ReadPair(s1);
    var s3 :- Expect(s2, " +");
    var (after, s4) :- ReadPair(s3);
    var s5 :- Expect(s4, " @@\n");
    Some((Header(before, after), s5))
  }

  /** One text line; its break is dropped when the no-newline marker follows. */
  function ReadLine(s: string): (r: Option<(Line, string)>)
    ensures r.Some? ==> |r.value.1| < |s|
  {
    var k := IndexOf(s, '\n');
    if k == |s| then None
    else
      match Expect(s[k + 1..], "\\ No newline at end of file\n")
      case Some(rest) => Some((s[..k], rest))
      case None => Some((s[..k + 1], s[k + 1..]))
  }

  function ReadKind(c: char): Option<Kind> {
    if c == ' ' then Some(Same) else if c == '-' then Some(Removed)
    else if c == '+' then Some(Added) else None
  }

  function OldCount(kind: Kind): nat { if kind == Added then 0 else 1 }
  function NewCount(kind: Kind): nat { if kind == Removed then 0 else 1 }

  /** One body line: its kind and its text. */
  function ReadOp(s: string): (r: Option<(DiffOp, string)>)
    ensures r.Some? ==> |r.value.1| < |s|
  {
    if s == "" then None
    else
      var kind :- ReadKind(s[0]);
      var (line, rest) :- ReadLine(s[1..]);
      Some((DiffOp(kind, line), rest))
  }

  /** Reads body lines until both counts are used up. */
  function ReadBody(s: string, oldLeft: nat, newLeft: nat): (r: Option<(seq<DiffOp>, string)>)
    ensures r.Some? ==> |r.value.1| <= |s|
    decreases |s|
  {
    if oldLeft == 0 && newLeft == 0 then Some(([], s))
    else
      var (op, rest) :- ReadOp(s);
      if OldCount(op.kind) > oldLeft || NewCount(op.kind) > newLeft then None
      else
        var (ops, tail) :- ReadBody(rest, oldLeft - OldCount(op.kind), newLeft - NewCount(op.kind));
        Some(([op] + ops, tail))
  }

  function ReadHunk(s: string): (r: Option<(Hunk, string)>)
    ensures r.Some? ==> |r.value.1| < |s|
  {
    var (h, s1) :- ReadHeader(s);
    var (body, s2) :- ReadBody(s1, h.before.1, h.after.1);
    Some((Hunk(h.before.0, h.before.1, h.after.0, h.after.1, body), s2))
  }

  function ReadHunks(s: string): Option<seq<Hunk>>
    decreases |s|
  {
    if s == "" then Some([])
    else
      var (h, s1) :- ReadHunk(s);
      var hs :- ReadHunks(s1);
      Some([h] + hs)
  }

  // ----- the reader undoes the printer -----

  lemma ExpectLiteral(literal: string, rest: string)
    ensures Expect(literal + rest, literal) == Some(rest)
  {
    assert (literal + rest)[|literal|..] == rest;
  }

  predicate StartsWithDigit(s: string) {
    s != "" && IsDigit(s[0])
  }

  lemma ReadNumberOfDecimal(n: nat, rest: string)
    requires !StartsWithDigit(rest)
    ensures ReadNumber(Decimal(n) + rest) == Some((n, rest))
  {
    ReadDecimalOfDecimal(n, rest);
  }

  lemma ReadPairOfText(n: nat, m: nat, rest: string)
    requires !StartsWithDigit(rest)
    ensures ReadPair(PairText(n, m) + rest) == Some(((n, m), rest))
  {
    var s2 := Decimal(m) + rest;
    Regroup(Decimal(n), "," + Decimal(m), rest);
    Regroup(",", Decimal(m), rest);
    ReadNumberOfDecimal(n, "," + s2);
    ExpectLiteral(",", s2);
    ReadNumberOfDecimal(m, rest);
  }

  lemma ReadHeaderOfText(h: Hunk, rest: string)
    requires Printable(h)
    ensures ReadHeader(HeaderText(h) + rest)
            == Some((Header((h.oldStart, h.oldLen), (h.newStart, h.newLen)), rest))
  {
    var before, after := PairText(h.oldStart, h.oldLen), PairText(h.newStart, h.newLen);
    Regroup(after, " @@\n", rest);
    Regroup(" +", after + " @@\n", rest);
    Regroup(before, " +" + (after + " @@\n"), rest);
    Regroup("@@ -", before + (" +" + (after + " @@\n")), rest);
    ExpectLiteral("@@ -", before + (" +" + (after + (" @@\n" + rest))));
    ReadPairOfText(h.oldStart, h.oldLen, " +" + (after + (" @@\n" + rest)));
    ExpectLiteral(" +", after + (" @@\n" + rest));
    ReadPairOfText(h.newStart, h.newLen, " @@\n" + rest);
    ExpectLiteral(" @@\n", rest);
  }

  /** Text that cannot be taken for the no-newline marker. */
  predicate NotMarker(s: string) {
    s == "" || s[0] != '\\'
  }

  lemma ReadTerminatedLine(line: Line, rest: string)
    requires BreakOnlyAtEnd(line) && Terminated(line) && NotMarker(rest)
    ensures ReadLine(line + rest) == Some((line, rest))
  {
    var s, k := line + rest, |line| - 1;
    assert s[k] == '\n' && forall i :: 0 <= i < k ==> s[i] == line[i];
    IndexOfAfter(s, '\n', k);
    assert s[k + 1..] == rest && s[..k + 1] == line;
    assert NO_NEWLINE[0] == '\\';
  }

  lemma ReadUnterminatedLine(line: Line, rest: string)
    requires BreakOnlyAtEnd(line) && !Terminated(line)
    ensures ReadLine(line + ("\n" + (NO_NEWLINE + rest))) == Some((line, rest))
  {
    var s, k := line + ("\n" + (NO_NEWLINE + rest)), |line|;
    assert s[k] == '\n' && forall i :: 0 <= i < k ==> s[i] == line[i];
    IndexOfAfter(s, '\n', k);
    assert s[k + 1..] == NO_NEWLINE + rest && s[..k] == line;
    ExpectLiteral(NO_NEWLINE, rest);
  }

  lemma ReadLineOfText(line: Line, rest: string)
    requires BreakOnlyAtEnd(line) && NotMarker(rest)
    ensures ReadLine(line + (Trailer(line) + rest)) == Some((line, rest))
  {
    if Terminated(line) {
      ReadTerminatedLine(line, rest);
      assert "" + rest == rest;
    } else {
      ReadUnterminatedLine(line, rest);
      Regroup("\n", NO_NEWLINE, rest);
    }
  }

  lemma ReadOpStep(c: char, kind: Kind, s: string, line: Line, rest: string)
    requires ReadKind(c) == Some(kind) && ReadLine(s) == Some((line, rest))
    ensures ReadOp([c] + s) == Some((DiffOp(kind, line), rest))
  {
    assert ([c] + s)[1..] == s;
  }

  lemma ReadOpOfText(op: DiffOp, rest: string)
    requires BreakOnlyAtEnd(op.line) && NotMarker(rest)
    ensures ReadOp(OpText(op) + rest) == Some((op, rest))
  {
    ReadLineOfText(op.line, rest);
    ReadOpStep(Prefix(op.kind), op.kind, op.line + (Trailer(op.line) + rest), op.line, rest);
    Regroup([Prefix(op.kind)], op.line + Trailer(op.line), rest);
    Regroup(op.line, Trailer(op.line), rest);
  }

  predicate PlainLines(ops: seq<DiffOp>) {
    forall k :: 0 <= k < |ops| ==> BreakOnlyAtEnd(ops[k].line)
  }

  lemma BodyNotMarker(ops: seq<DiffOp>, rest: string)
    requires NotMarker(rest)
    ensures NotMarker(BodyText(ops) + rest)
  {
  }

  lemma ReadBodyStep(s: string, o: nat, n: nat, op: DiffOp, tail: string, ops: seq<DiffOp>, rest: string)
    requires ReadOp(s) == Some((op, tail)) && ReadBody(tail, o, n) == Some((ops, rest))
    ensures ReadBody(s, OldCount(op.kind) + o, NewCount(op.kind) + n) == Some(([op] + ops, rest))
  {
    hide ReadOp;
    assert OldCount(op.kind) + NewCount(op.kind) > 0;
  }

  lemma UnfoldBody(ops: seq<DiffOp>, rest: string)
    requires ops != []
    ensures BodyText(ops) + rest == OpText(ops[0]) + (BodyText(ops[1..]) + rest)
    ensures |OldSide(ops)| == OldCount(ops[0].kind) + |OldSide(ops[1..])|
    ensures |NewSide(ops)| == NewCount(ops[0].kind) + |NewSide(ops[1..])|
  {
    Regroup(OpText(ops[0]), BodyText(ops[1..]), rest);
  }

  lemma FirstIsPlain(ops: seq<DiffOp>)
    requires ops != [] && PlainLines(ops)
    ensures BreakOnlyAtEnd(ops[0].line) && PlainLines(ops[1..])
  {
  }

  lemma ReadBodyMore(ops: seq<DiffOp>, rest: string)
    requires ops != [] && PlainLines(ops) && NotMarker(rest)
    requires ReadBody(BodyText(ops[1..]) + rest, |OldSide(ops[1..])|, |NewSide(ops[1..])|) == Some((ops[1..], rest))
    ensures ReadBody(BodyText(ops) + rest, |OldSide(ops)|, |NewSide(ops)|) == Some((ops, rest))
  {
    hide *;
    var tail := BodyText(ops[1..]) + rest;
    BodyNotMarker(ops[1..], rest);
    FirstIsPlain(ops);
    ReadOpOfText(ops[0], tail);
    UnfoldBody(ops, rest);
    ReadBodyStep(BodyText(ops) + rest, |OldSide(ops[1..])|, |NewSide(ops[1..])|, ops[0], tail, ops[1..], rest);
    assert ops == [ops[0]] + ops[1..];
  }

  lemma {:induction false} ReadBodyOfText(ops: seq<DiffOp>, rest: string)
    requires PlainLines(ops) && NotMarker(rest)
    ensures ReadBody(BodyText(ops) + rest, |OldSide(ops)|, |NewSide(ops)|) == Some((ops, rest))
  {
    if ops == [] {
      assert "" + rest == rest;
    } else {
      hide ReadOp, OpText;
      ReadBodyOfText(ops[1..], rest);
      ReadBodyMore(ops, rest);
    }
  }

  /** The header counts its body, and no line has an inner break. */
  predicate WellFormed(h: Hunk) {
    Printable(h) && PlainLines(h.body) && h.oldLen == |OldSide(h.body)| && h.newLen == |NewSide(h.body)|
  }

  lemma ReadHunkOfText(h: Hunk, rest: string)
    requires WellFormed(h) && NotMarker(rest)
    ensures ReadHunk(HunkText(h) + rest) == Some((h, rest))
  {
    Regroup(HeaderText(h), BodyText(h.body), rest);
    ReadHeaderOfText(h, BodyText(h.body) + rest);
    ReadBodyOfText(h.body, rest);
  }

  lemma HunksNotMarker(hs: seq<Hunk>)
    requires AllPrintable(hs)
    ensures NotMarker(HunksText(hs))
    ensures hs != [] ==> HunksText(hs) != ""
  {
    if hs != [] {
      assert HunksText(hs)[0] == HunkText(hs[0])[0] == HeaderText(hs[0])[0] == '@';
    }
  }

  lemma ReadHunksStep(s: string, h: Hunk, tail: string, hs: seq<Hunk>)
    requires s != "" && ReadHunk(s) == Some((h, tail)) && ReadHunks(tail) == Some(hs)
    ensures ReadHunks(s) == Some([h] + hs)
  {
  }

  lemma HunksTextUnfold(hs: seq<Hunk>)
    requires AllPrintable(hs) && hs != []
    ensures AllPrintable(hs[1..])
    ensures HunksText(hs) == HunkText(hs[0]) + HunksText(hs[1..])
  {
  }

  /** Reading the printed hunks gives exactly the hunks that were printed. */
  lemma {:induction false} ReadHunksOfText(hs: seq<Hunk>)
    requires AllPrintable(hs) && forall k :: 0 <= k < |hs| ==> WellFormed(hs[k])
    ensures ReadHunks(HunksText(hs)) == Some(hs)
  {
    if hs != [] {
      hide *;
      HunksTextUnfold(hs);
      ReadHunksOfText(hs[1..]);
      HunksNotMarker(hs);
      HunksNotMarker(hs[1..]);
      ReadHunkOfText(hs[0], HunksText(hs[1..]));
      ReadHunksStep(HunksText(hs), hs[0], HunksText(hs[1..]), hs[1..]);
      assert hs == [hs[0]] + hs[1..];
    }
  }

  // ----- the whole diff -----

  ghost function DiffHunks(a: string, b: string): seq<Hunk> {
    HunksOf(Script(Split(a), Split(b)))
  }

  lemma {:induction false} SidesHold(ops: seq<DiffOp>, k: nat)
    requires k < |ops|
    ensures ops[k].line in OldSide(ops) || ops[k].line in NewSide(ops)
  {
    if k > 0 {
      SidesHold(ops[1..], k - 1);
    }
  }

  lemma DiffHunksWellFormed(a: string, b: string)
    ensures forall k :: 0 <= k < |DiffHunks(a, b)| ==> WellFormed(DiffHunks(a, b)[k])
  {
    var ops := Script(Split(a), Split(b));
    ScriptSpells(Split(a), Split(b));
    forall k | 0 <= k < |ops| ensures BreakOnlyAtEnd(ops[k].line) {
      SidesHold(ops, k);
    }
    RunsSeparated(Shown(ops), 0);
    SeparatedWithin(Runs(Shown(ops), 0), 0, |ops|);
  }

  /** The text of a diff carries everything: read back by its counts and applied to the old
      text it gives the new text, and applied backwards to the new text it gives the old. */
  lemma DiffTextPatches(a: string, b: string)
    ensures AllPrintable(DiffHunks(a, b))
    ensures var read := ReadHunks(HunksText(DiffHunks(a, b)));
            && read.Some?
            && Apply(Split(a), read.value) == Some(Split(b))
            && Apply(Split(b), FlipHunks(read.value)) == Some(Split(a))
            && Join(Split(a)) == a && Join(Split(b)) == b
  {
    var ops := Script(Split(a), Split(b));
    DiffHunksWellFormed(a, b);
    ReadHunksOfText(DiffHunks(a, b));
    ScriptSpells(Split(a), Split(b));
    HunksPatch(ops);
    HunksUnpatch(ops);
  }

  /** No hunk is printed exactly when the texts are equal. */
  lemma EmptyDiffIffEqual(a: string, b: string)
    ensures DiffHunks(a, b) == [] <==> a == b
  {
    var ops := Script(Split(a), Split(b));
    ScriptSpells(Split(a), Split(b));
    NoHunkIffNoChange(ops);
    if a == b {
      SelfScript(Split(a));
    }
  }

  lemma {:induction false} SelfScript(a: seq<Line>)
    ensures Changes(Script(a, a)) == 0
  {
    if a != [] {
      SelfScript(a[1..]);
    }
  }
}
