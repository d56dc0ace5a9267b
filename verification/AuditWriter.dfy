/** The audit writer: a ring of recent records, live tails that drop rather than block, and the
    second ring that serves a range of the file
    (tesseract-proxy/internal/audit/audit.go; tesseract-proxy/internal/admin/admin.go, `auditRange`). */
module AuditWriter {
  import opened Options
  import opened Sequences
  import Text
  import Lines

  datatype Outcome = Forward | Reject | UpstreamErr

  /** Time 0 stands for the zero time. */
  datatype Record = Record(time: int, outcome: Outcome, serial: string, brokerID: string, verb: string, path: string,
                           status: int, latencyMs: int, idempotencyKey: string, bundleVersion: string, reason: string)

  const BLANK := Record(0, Forward, "", "", "", "", 0, 0, "", "", "")

  function Stamped(r: Record, now: int): Record {
    if r.time == 0 then r.(time := now) else r
  }

  /** Only a missing time is filled in, with the current one; nothing else changes. */
  lemma StampFillsTime(r: Record, now: int)
    ensures Stamped(r, now) == Record(if r.time == 0 then now else r.time, r.outcome, r.serial, r.brokerID, r.verb, r.path,
                                      r.status, r.latencyMs, r.idempotencyKey, r.bundleVersion, r.reason)
  {
  }

  /** What a subscriber's buffered channel and drop counter hold. */
  datatype Tail = Tail(cap: nat, buffer: seq<Record>, dropped: nat)

  /** A non-blocking send: buffered if there is room, counted as dropped if not. */
  function Offered(t: Tail, r: Record): Tail {
    if |t.buffer| < t.cap then t.(buffer := t.buffer + [r]) else t.(dropped := t.dropped + 1)
  }

  /** The records strictly after a time; the zero time filters nothing. */
  function NewerThan(s: seq<Record>, after: int): seq<Record> {
    if s == [] then []
    else
      var rest := NewerThan(s[..|s| - 1], after);
      if after != 0 && s[|s| - 1].time <= after then rest else rest + [s[|s| - 1]]
  }

  lemma NewerThanStart(s: seq<Record>, after: int)
    ensures NewerThan(s[..0], after) == []
  {
  }

  lemma NewerThanStep(s: seq<Record>, i: nat, after: int)
    requires i < |s|
    ensures NewerThan(s[..i + 1], after)
            == NewerThan(s[..i], after) + if after != 0 && s[i].time <= after then [] else [s[i]]
  {
    assert s[..i + 1][..i] == s[..i];
  }

  /** How writing a record to the file ends: a failing write can leave the first bytes of its line behind. */
  datatype EncodeFault = NoEncodeFault | EncodeFails(written: nat)

  /** What reaches the file. */
  function Landed(text: string, fault: EncodeFault): string {
    if fault.NoEncodeFault? || fault.written > |text| then text else text[..fault.written]
  }

  /** The whole line without a fault, else as many of its first bytes as were written. */
  lemma LandedIsPrefix(text: string, fault: EncodeFault)
    ensures Landed(text, fault) <= text
    ensures |Landed(text, fault)| == if fault.EncodeFails? && fault.written < |text| then fault.written else |text|
  {
  }

  class Subscription {
    const cap: nat
    var ch: seq<Record>
    var dropped: nat

    constructor (cap: nat)
      ensures View() == Tail(cap, [], 0)
    {
      this.cap := cap;
      ch, dropped := [], 0;
    }

    function View(): Tail
      reads this
    {
      Tail(cap, ch, dropped)
    }

    /** The select with a default branch in the fan-out. */
    method Offer(r: Record)
      modifies this
      ensures View() == Offered(old(View()), r)
    {
      if |ch| < cap {
        ch := ch + [r];
      } else {
        dropped := dropped + 1;
      }
    }

    /** Receiving from the channel; None when it is empty. */
    method Receive() returns (r: Option<Record>)
      modifies this
      ensures r.Some? <==> old(ch) != []
      ensures r.Some? ==> old(ch) == [r.value] + ch && dropped == old(dropped)
      ensures r.None? ==> View() == old(View())
    {
      if ch == [] {
        return None;
      }
      r := Some(ch[0]);
      ch := ch[1..];
    }

    method DroppedAndReset() returns (n: nat)
      modifies this
      ensures n == old(dropped) && View() == old(View()).(dropped := 0)
    {
      n := dropped;
      dropped := 0;
    }
  }

  /** The loop that copies the `m` newest entries out of a ring, oldest first. */
  method ReadRing<T>(ring: array<T>, head: nat, full: bool, m: nat) returns (out: seq<T>)
    requires head < ring.Length && m <= |RingWindow(ring[..], head, full)|
    ensures out == Last(RingWindow(ring[..], head, full), m)
  {
    hide *;
    ghost var w := RingWindow(ring[..], head, full);
    RingLength(ring[..], head, full);
    var start := Mod(head + ring.Length - m, ring.Length);
    out := [];
    for i := 0 to m
      invariant out == w[|w| - m..|w| - m + i]
    {
      RingCell(ring[..], head, full, m, i);
      SliceAppend(w, |w| - m, |w| - m + i);
      out := out + [ring[Mod(start + i, ring.Length)]];
    }
    LastSlice(w, m);
  }

  class Writer {
    const ringSize: nat
    var ring: array<Record>
    var head: nat
    var full: bool
    /** The JSON encoder: a record's line with its line break. */
    const line: Record -> string
    var isOpen: bool
    var file: string
    var subs: seq<Subscription>
    /** Every record logged successfully by this writer, and what the file held before. */
    ghost var history: seq<Record>
    ghost const existing: string
    /** A write has failed half-way. */
    ghost var torn: bool

    /** What the ring holds, oldest first. */
    function Window(): seq<Record>
      requires head <= ring.Length
      reads this, ring
    {
      RingWindow(ring[..], head, full)
    }

    ghost predicate Valid()
      reads this, ring
    {
      && ringSize == ring.Length >= 1
      && head < ringSize
      && (if full then |history| >= ringSize else |history| == head)
      && Window() == Last(history, ringSize)
      && (!torn ==> file == existing + Lines.Join(Map(line, history)))
      && (forall i, j :: 0 <= i < j < |subs| ==> subs[i] != subs[j])
    }

    constructor (size: int, line: Record -> string, existing: string)
      ensures Valid() && history == [] && subs == [] && isOpen && !torn && this.existing == existing && this.line == line
      ensures ringSize == if size <= 0 then 256 else size
      ensures fresh(ring)
    {
      ringSize := if size <= 0 then 256 else size;
      ring := new Record[if size <= 0 then 256 else size](_ => BLANK);
      head, full, isOpen := 0, false, true;
      this.line, file, subs, history, torn := line, existing, [], [], false;
      this.existing := existing;
    }

    /** The ring update of Log, with the line already in the file: the window gains the record and, once
        full, loses its oldest. */
    method Append(r: Record)
      requires Valid()
      modifies this`head, this`full, this`history, this`file, ring
      ensures Valid() && history == old(history) + [r] && file == old(file) + line(r)
    {
      RingPut(ring[..], head, full, r);
      LastAppend(history, ringSize, r);
      hide RingWindow, Map;
      ghost var cells := ring[..];
      file := file + line(r);
      ring[head] := r;
      assert ring[..] == cells[head := r];
      head := Mod(head + 1, ringSize);
      if head == 0 {
        full := true;
      }
      MapAppend(line, history, r);
      Lines.JoinAppend(Map(line, history), line(r));
      Text.Regroup(existing, Lines.Join(Map(line, history)), line(r));
      history := history + [r];
    }

    /** The fan-out of Log: every subscriber is offered the record, none blocks. */
    method FanOut(r: Record)
      requires Valid()
      modifies subs
      ensures Valid()
      ensures forall i :: 0 <= i < |subs| ==> subs[i].View() == Offered(old(subs[i].View()), r)
    {
      for i := 0 to |subs|
        invariant Valid()
        invariant forall j :: 0 <= j < i ==> subs[j].View() == Offered(old(subs[j].View()), r)
        invariant forall j :: i <= j < |subs| ==> subs[j].View() == old(subs[j].View())
      {
        subs[i].Offer(r);
      }
    }

    /** A failing write changes nothing but the file, which may end in a part of the record's line. */
    method Log(record: Record, now: int, fault: EncodeFault) returns (ok: bool)
      requires Valid()
      modifies this`head, this`full, this`history, this`file, this`torn, ring, subs
      ensures Valid()
      ensures ok == (old(isOpen) && fault.NoEncodeFault?)
      ensures file == old(file) + if old(isOpen) then Landed(line(Stamped(record, now)), fault) else ""
      ensures torn == (old(torn) || (old(isOpen) && fault.EncodeFails? && fault.written > 0))
      ensures ok ==> history == old(history) + [Stamped(record, now)]
      ensures ok ==> history == old(history) + [record.(time := if record.time == 0 then now else record.time)]
      ensures ok ==> forall i :: 0 <= i < |subs| ==> subs[i].View() == Offered(old(subs[i].View()), Stamped(record, now))
      ensures !ok ==> history == old(history) && Window() == old(Window())
      ensures !ok ==> forall i :: 0 <= i < |subs| ==> subs[i].View() == old(subs[i].View())
    {
      StampFillsTime(record, now);
      hide RingWindow, Last, Offered, Stamped, Map;
      var r := Stamped(record, now);
      if !isOpen {
        return false;
      }
      if fault.EncodeFails? {
        file := file + Landed(line(r), fault);
        torn := torn || fault.written > 0;
        return false;
      }
      Append(r);
      FanOut(r);
      return true;
    }

    /** Up to `n` most recent records, oldest first. */
    method Recent(n: int) returns (out: seq<Record>)
      requires Valid()
      ensures out == if n <= 0 then [] else Last(Last(history, ringSize), n)
    {
      var have := if full then ringSize else head;
      var m := if n > have then have else n;
      if m <= 0 {
        return [];
      }
      out := ReadRing(ring, head, full, m);
    }

    method Subscribe(bufSize: int, after: int) returns (sub: Subscription, backlog: seq<Record>)
      requires Valid()
      modifies this`subs
      ensures Valid() && fresh(sub) && subs == old(subs) + [sub]
      ensures sub.View() == Tail(if bufSize <= 0 then ringSize else bufSize, [], 0)
      ensures backlog == NewerThan(Last(history, ringSize), after)
    {
      sub := new Subscription(if bufSize <= 0 then ringSize else bufSize);
      backlog := Backlog(after);
      subs := subs + [sub];
    }

    /** The ring's records newer than `after`, oldest first. */
    method Backlog(after: int) returns (backlog: seq<Record>)
      requires Valid()
      ensures backlog == NewerThan(Last(history, ringSize), after)
    {
      ghost var window := Window();
      var have := if full then ringSize else head;
      assert have == |window| && head < ring.Length == ringSize;
      assert window == RingWindow(ring[..], head, full);
      hide *;
      backlog := [];
      NewerThanStart(window, after);
      if have > 0 {
        var start := Mod(head + ringSize - have, ringSize);
        for i := 0 to have
          invariant backlog == NewerThan(window[..i], after)
        {
          RingCell(ring[..], head, full, have, i);
          NewerThanStep(window, i, after);
          var rec := ring[Mod(start + i, ringSize)];
          if after != 0 && rec.time <= after {
            continue;
          }
          backlog := backlog + [rec];
        }
      }
      assert window[..have] == window;
    }

    /** Close of a subscription: it gets no further records. */
    method Unsubscribe(sub: Subscription)
      requires Valid()
      modifies this`subs
      ensures Valid() && sub !in subs
      ensures forall s :: s in subs <==> s in old(subs) && s != sub
    {
      for i := 0 to |subs|
        invariant subs == old(subs) && forall j :: 0 <= j < i ==> subs[j] != sub
      {
        if subs[i] == sub {
          subs := subs[..i] + subs[i + 1..];
          return;
        }
      }
    }

    /** Close of the writer: further logs fail. */
    method Close()
      requires Valid()
      modifies this`isOpen
      ensures Valid() && !isOpen
    {
      isOpen := false;
    }

    method Reopen(opens: bool)
      requires Valid()
      modifies this`isOpen
      ensures Valid() && isOpen == opens
    {
      isOpen := opens;
    }
  }

  // ----- the second ring -----

  /** After scanning `seen`, the ring holds its last lines. */
  ghost predicate Holding<T>(cells: seq<T>, head: nat, count: nat, seen: seq<T>) {
    && head < |cells|
    && count == (if |seen| < |cells| then |seen| else |cells|)
    && (|seen| < |cells| ==> head == |seen|)
    && RingWindow(cells, head, count == |cells|) == Last(seen, |cells|)
  }

  lemma HoldMore<T>(cells: seq<T>, head: nat, count: nat, seen: seq<T>, line: T)
    requires Holding(cells, head, count, seen)
    ensures Holding(cells[head := line], Mod(head + 1, |cells|), if count < |cells| then count + 1 else count, seen + [line])
  {
    RingPut(cells, head, count == |cells|, line);
    LastAppend(seen, |cells|, line);
    hide RingWindow;
  }

  lemma HoldNothing<T>(cells: seq<T>)
    requires cells != []
    ensures Holding(cells, 0, 0, [])
  {
  }

  lemma Held<T>(cells: seq<T>, head: nat, count: nat, seen: seq<T>)
    requires Holding(cells, head, count, seen)
    ensures head < |cells| && count <= |cells|
    ensures var w := RingWindow(cells, head, count == |cells|);
            w == Last(seen, |cells|) && |w| == count && Last(w, count) == w
  {
  }

  /** The last `n` lines of a file, kept in a ring while it is scanned. */
  method TailLines<T(0)>(lines: seq<T>, n: nat) returns (out: seq<T>)
    requires n >= 1
    ensures out == Last(lines, n)
  {
    hide *;
    var ring := new T[n];
    var head: nat, count: nat := 0, 0;
    HoldNothing(ring[..]);
    assert lines[..0] == [];
    for k := 0 to |lines|
      invariant Holding(ring[..], head, count, lines[..k])
    {
      ghost var cells := ring[..];
      Held(cells, head, count, lines[..k]);
      HoldMore(cells, head, count, lines[..k], lines[k]);
      assert lines[..k + 1] == lines[..k] + [lines[k]];
      ring[head] := lines[k];
      assert ring[..] == cells[head := lines[k]];
      head := Mod(head + 1, n);
      if count < n {
        count := count + 1;
      }
    }
    assert lines[..|lines|] == lines;
    Held(ring[..], head, count, lines);
    out := ReadRing(ring, head, count == n, count);
  }

  /** Whether a line belongs to the asked range; malformed lines never do. */
  predicate InRange(rec: Option<Record>, since: int, until: int) {
    rec.Some? && !(since != 0 && rec.value.time <= since) && !(until != 0 && rec.value.time > until)
  }

  function Matching<T>(lines: seq<T>, parse: T -> Option<Record>, since: int, until: int): seq<T> {
    if lines == [] then []
    else if InRange(parse(lines[0]), since, until) then [lines[0]] + Matching(lines[1..], parse, since, until)
    else Matching(lines[1..], parse, since, until)
  }

  function First<T>(s: seq<T>, n: nat): seq<T> {
    if n <= |s| then s[..n] else s
  }

  /** With the scan at line `k`, the result is what is out and then the first matches of the rest. */
  ghost predicate Ranging<T(!new)>(lines: seq<T>, parse: T -> Option<Record>, since: int, until: int, cap: nat, k: nat, out: seq<T>) {
    && k <= |lines| && |out| <= cap
    && out + First(Matching(lines[k..], parse, since, until), cap - |out|) == First(Matching(lines, parse, since, until), cap)
  }

  lemma RangeStep<T(!new)>(lines: seq<T>, parse: T -> Option<Record>, since: int, until: int, cap: nat, k: nat, out: seq<T>)
    requires Ranging(lines, parse, since, until, cap, k, out) && k < |lines| && |out| < cap
    ensures InRange(parse(lines[k]), since, until) ==> Ranging(lines, parse, since, until, cap, k + 1, out + [lines[k]])
    ensures !InRange(parse(lines[k]), since, until) ==> Ranging(lines, parse, since, until, cap, k + 1, out)
  {
    hide InRange;
    assert lines[k..][1..] == lines[k + 1..];
    if InRange(parse(lines[k]), since, until) {
      var rest := Matching(lines[k + 1..], parse, since, until);
      FirstCons(lines[k], rest, cap - |out|);
      Text.Regroup(out, [lines[k]], First(rest, cap - |out| - 1));
    }
  }

  lemma FirstCons<T>(x: T, rest: seq<T>, n: nat)
    requires n > 0
    ensures First([x] + rest, n) == [x] + First(rest, n - 1)
  {
  }

  lemma RangeEnds<T(!new)>(lines: seq<T>, parse: T -> Option<Record>, since: int, until: int, cap: nat, k: nat, out: seq<T>)
    requires Ranging(lines, parse, since, until, cap, k, out) && (k == |lines| || |out| == cap)
    ensures out == First(Matching(lines, parse, since, until), cap)
  {
  }

  lemma RangeStarts<T(!new)>(lines: seq<T>, parse: T -> Option<Record>, since: int, until: int, cap: nat)
    ensures Ranging(lines, parse, since, until, cap, 0, [])
  {
    assert lines[0..] == lines;
  }

  /** The lines in the range, oldest first, cut off at the cap. */
  method RangeLines<T(!new)>(lines: seq<T>, parse: T -> Option<Record>, since: int, until: int, cap: nat) returns (out: seq<T>)
    ensures out == First(Matching(lines, parse, since, until), cap)
  {
    hide First, Matching, Ranging;
    out := [];
    var emitted := 0;
    RangeStarts(lines, parse, since, until, cap);
    for k := 0 to |lines|
      invariant emitted == |out| <= cap && Ranging(lines, parse, since, until, cap, k, out)
    {
      if emitted >= cap {
        RangeEnds(lines, parse, since, until, cap, k, out);
        return;
      }
      RangeStep(lines, parse, since, until, cap, k, out);
      if !InRange(parse(lines[k]), since, until) {
        continue;
      }
      out := out + [lines[k]];
      emitted := emitted + 1;
    }
    RangeEnds(lines, parse, since, until, cap, |lines|, out);
  }

  /** The record parses and its time lies in the half-open interval from `since`, exclusive, to `until`,
      inclusive, where the zero time is no bound. */
  ghost predicate Wanted(rec: Option<Record>, since: int, until: int) {
    rec.Some? && (since == 0 || since < rec.value.time) && (until == 0 || rec.value.time <= until)
  }

  /** The range filter keeps exactly the lines in the range, all their copies, in file order. */
  lemma {:induction false} MatchingExact<T>(lines: seq<T>, parse: T -> Option<Record>, since: int, until: int)
    ensures Subsequence(Matching(lines, parse, since, until), lines)
    ensures forall l :: multiset(Matching(lines, parse, since, until))[l]
                        == if Wanted(parse(l), since, until) then multiset(lines)[l] else 0
  {
    forall l ensures InRange(parse(l), since, until) <==> Wanted(parse(l), since, until) {
    }
    hide InRange, Wanted;
    if lines != [] {
      MatchingExact(lines[1..], parse, since, until);
      assert lines == [lines[0]] + lines[1..];
      var kept := Matching(lines[1..], parse, since, until);
      assert ([lines[0]] + kept)[1..] == kept;
    }
  }

  const MAX_RANGE_LINES: nat := 10_000

  /** The asked number of lines, cut off at the cap. */
  function Capped(n: nat): nat {
    if n < MAX_RANGE_LINES then n else MAX_RANGE_LINES
  }

  /** What bufio.Scanner makes of a line: its break is cut off, "\n" or "\r\n". */
  function Stripped(l: string): string {
    var body := if Lines.Terminated(l) then l[..|l| - 1] else l;
    if body != "" && body[|body| - 1] == '\r' then body[..|body| - 1] else body
  }

  /** Either kind of break is cut off, and nothing else. */
  lemma StrippedIsBody(body: string)
    requires (body == "" || body[|body| - 1] != '\r') && '\n' !in body
    ensures Stripped(body) == body && Stripped(body + ['\n']) == body && Stripped(body + ['\r', '\n']) == body
  {
    var l, m := body + ['\n'], body + ['\r', '\n'];
    assert l[|l| - 1] == '\n' && l[..|l| - 1] == body;
    assert m[|m| - 1] == '\n' && m[..|m| - 1] == body + ['\r'];
    assert (body + ['\r'])[|body|] == '\r' && (body + ['\r'])[..|body|] == body;
  }

  function Scanned(text: string): seq<string> {
    Map(Stripped, Lines.Split(text))
  }

  /** What the handler writes for one scanned line. */
  function Emitted(l: string): string {
    l + "\n"
  }

  /** A JSON text on one line, which ends in neither a carriage return nor a line break of its own. */
  ghost predicate EncodesLines(line: Record -> string) {
    forall r :: Lines.Terminated(line(r)) && Lines.BreakOnlyAtEnd(line(r)) && Emitted(Stripped(line(r))) == line(r)
  }

  /** Scanning what the writer wrote gives back its lines. */
  lemma WrittenScans(line: Record -> string, records: seq<Record>)
    requires EncodesLines(line)
    ensures Map(Emitted, Scanned(Lines.Join(Map(line, records)))) == Map(line, records)
  {
    var ls := Map(line, records);
    Lines.SplitUnique(ls, Lines.Split(Lines.Join(ls)));
  }

  function Least(a: nat, b: nat): nat {
    if a <= b then a else b
  }

  /** On a log begun empty, never rotated and never torn, the last `n` lines that the handler reads from
      the file are the lines of Recent(n) exactly when both caps cut the history to the same length; in
      particular for every n within both. */
  lemma RingsAgree(w: Writer, n: nat)
    requires w.Valid() && w.existing == "" && !w.torn && EncodesLines(w.line)
    ensures var tail := Map(Emitted, Last(Scanned(w.file), Capped(n)));
            var recent := Map(w.line, Last(Last(w.history, w.ringSize), n));
            && (tail == recent <==> Least(Capped(n), |w.history|) == Least(Least(n, w.ringSize), |w.history|))
            && (n <= w.ringSize && n <= 10_000 ==> tail == recent)
            && |tail| <= 10_000
  {
    FileTail(w, Capped(n));
    LastTwice(w.history, w.ringSize, n);
    SuffixesEqual(w.line, w.history, Capped(n), Least(n, w.ringSize));
    hide Writer.Valid, Last, Map, Scanned, EncodesLines;
  }

  lemma FileTail(w: Writer, n: nat)
    requires w.Valid() && w.existing == "" && !w.torn && EncodesLines(w.line)
    ensures Map(Emitted, Last(Scanned(w.file), n)) == Map(w.line, Last(w.history, n))
  {
    WrittenScans(w.line, w.history);
    assert w.file == Lines.Join(Map(w.line, w.history));
    hide *;
    MapLast(Emitted, Scanned(w.file), n);
    MapLast(w.line, w.history, n);
  }

  lemma SuffixesEqual<T, U>(f: T -> U, s: seq<T>, a: nat, b: nat)
    ensures Map(f, Last(s, a)) == Map(f, Last(s, b)) <==> Least(a, |s|) == Least(b, |s|)
  {
    hide Map;
  }

  lemma LastTwice<T>(s: seq<T>, m: nat, n: nat)
    ensures Last(Last(s, m), n) == Last(s, Least(n, m))
  {
  }

  // ----- serving a live tail -----

  /** What the stream to a client carries. */
  datatype Frame = Data(rec: Record) | Dropped(count: nat)

  /** How many records the frames stand for. */
  function Weight(frames: seq<Frame>): nat {
    if frames == [] then 0
    else (match frames[0] case Data(_) => 1 case Dropped(n) => n) + Weight(frames[1..])
  }

  /** One turn of the tail loop: a pending drop count is announced before the next record. Every record
      that leaves the channel or the counter is told to the client, and none is told twice. */
  method TailTurn(sub: Subscription) returns (frames: seq<Frame>)
    modifies sub
    ensures Weight(frames) + |sub.ch| + sub.dropped == |old(sub.ch)| + old(sub.dropped)
    ensures sub.dropped == 0 && sub.ch == if old(sub.ch) == [] then [] else old(sub.ch)[1..]
    ensures frames == (if old(sub.dropped) > 0 then [Dropped(old(sub.dropped))] else [])
                      + (if old(sub.ch) != [] then [Data(old(sub.ch)[0])] else [])
  {
    frames := [];
    var n := sub.DroppedAndReset();
    if n > 0 {
      frames := [Dropped(n)];
    }
    var r := sub.Receive();
    if r.Some? {
      frames := frames + [Data(r.value)];
      assert Weight([Data(r.value)]) == 1 by { assert [Data(r.value)][1..] == []; }
      assert frames == if n > 0 then [Dropped(n)] + [Data(r.value)] else [Data(r.value)];
      assert n > 0 ==> frames[1..] == [Data(r.value)];
    }
  }
}
