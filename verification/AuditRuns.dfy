/** The audit writer and its subscribers over whole runs: nothing is lost unaccounted for, and a
    reconnecting client sees a contiguous stream
    (tesseract-proxy/internal/audit/audit.go; tesseract-proxy/internal/admin/admin.go, `auditTail`). */
module AuditRuns {
  import opened Options
  import opened Sequences
  import opened AuditWriter

  /** One open subscription with what its client has received so far: the backlog it was handed, the
      records it took from the channel, and the sum of the drop counts it read. `places` are the positions,
      counted from its Subscribe, of the records in its channel; `polled` tells whether it has read the drop
      counter since it last received. */
  datatype Client = Client(tail: Tail, start: nat, after: int, backlog: seq<Record>, consumed: seq<Record>, reported: nat,
                           places: seq<nat>, polled: bool)

  datatype State = State(ringSize: nat, isOpen: bool, history: seq<Record>, clients: map<nat, Client>)

  datatype Event =
    | Log(record: Record, now: int, fault: EncodeFault)
    | Subscribe(id: nat, bufSize: int, after: int)
    | Consume(id: nat)
    | ReadDrops(id: nat)
    | Unsubscribe(id: nat)
    | Close
    | Reopen(opens: bool)

  function Joining(h: seq<Record>, ringSize: nat, bufSize: int, after: int): Client {
    Client(Tail(if bufSize <= 0 then ringSize else bufSize, [], 0), |h|, after, NewerThan(Last(h, ringSize), after), [], 0, [], false)
  }

  /** Offered the record at position `place`. */
  function Offering(c: Client, r: Record, place: nat): Client {
    c.(tail := Offered(c.tail, r), places := if |c.tail.buffer| < c.tail.cap then c.places + [place] else c.places)
  }

  function Consuming(c: Client): Client {
    if c.tail.buffer == [] then c
    else c.(tail := c.tail.(buffer := c.tail.buffer[1..]), consumed := c.consumed + [c.tail.buffer[0]],
            places := if c.places == [] then [] else c.places[1..], polled := false)
  }

  function Reading(c: Client): Client {
    c.(tail := c.tail.(dropped := 0), reported := c.reported + c.tail.dropped, polled := true)
  }

  /** The steps are those of AuditWriter.Writer and AuditWriter.Subscription. */
  function Step(s: State, e: Event): State {
    match e
    case Log(record, now, fault) =>
      if !s.isOpen || fault.EncodeFails? then s
      else
        var r := Stamped(record, now);
        s.(history := s.history + [r], clients := map id | id in s.clients :: Offering(s.clients[id], r, |Since(s.history, s.clients[id])|))
    case Subscribe(id, bufSize, after) =>
      if id in s.clients then s
      else s.(clients := s.clients[id := Joining(s.history, s.ringSize, bufSize, after)])
    case Consume(id) =>
      if id !in s.clients then s else s.(clients := s.clients[id := Consuming(s.clients[id])])
    case ReadDrops(id) =>
      if id !in s.clients then s else s.(clients := s.clients[id := Reading(s.clients[id])])
    case Unsubscribe(id) => s.(clients := s.clients - {id})
    case Close => s.(isOpen := false)
    case Reopen(opens) => s.(isOpen := opens)
  }

  function Run(s: State, events: seq<Event>): State
    decreases |events|
  {
    if events == [] then s else Run(Step(s, events[0]), events[1..])
  }

  function Initial(ringSize: nat): State {
    State(ringSize, true, [], map[])
  }

  // ----- accounting -----

  /** The records logged since the client subscribed. */
  function Since(h: seq<Record>, c: Client): seq<Record> {
    if c.start <= |h| then h[c.start..] else []
  }

  /** What the client has taken or can still take from its channel. */
  function Delivered(c: Client): seq<Record> {
    c.consumed + c.tail.buffer
  }

  ghost predicate Accounted(h: seq<Record>, ringSize: nat, c: Client) {
    && c.start <= |h|
    && |c.tail.buffer| <= c.tail.cap
    && Subsequence(Delivered(c), Since(h, c))
    && |Delivered(c)| + c.reported + c.tail.dropped == |Since(h, c)|
    && c.backlog == NewerThan(Last(h[..c.start], ringSize), c.after)
  }

  ghost predicate AllAccounted(s: State) {
    forall id :: id in s.clients ==> Accounted(s.history, s.ringSize, s.clients[id])
  }

  /** A record is dropped for a client exactly when its channel is full. */
  lemma OfferAccounts(h: seq<Record>, ringSize: nat, c: Client, r: Record, place: nat)
    requires Accounted(h, ringSize, c)
    ensures Accounted(h + [r], ringSize, Offering(c, r, place))
    ensures Offering(c, r, place).tail.dropped > c.tail.dropped <==> |c.tail.buffer| == c.tail.cap
  {
    SubsequenceAppend(Delivered(c), Since(h, c), r);
    assert (h + [r])[c.start..] == h[c.start..] + [r] && (h + [r])[..c.start] == h[..c.start];
    assert c.consumed + (c.tail.buffer + [r]) == Delivered(c) + [r];
  }

  lemma JoinAccounts(h: seq<Record>, ringSize: nat, bufSize: int, after: int)
    ensures Accounted(h, ringSize, Joining(h, ringSize, bufSize, after))
  {
    assert h[|h|..] == [] && h[..|h|] == h;
  }

  lemma ConsumeAccounts(h: seq<Record>, ringSize: nat, c: Client)
    requires Accounted(h, ringSize, c)
    ensures Accounted(h, ringSize, Consuming(c)) && Delivered(Consuming(c)) == Delivered(c)
  {
    hide Subsequence, NewerThan, Last;
    assert Delivered(Consuming(c)) == Delivered(c);
  }

  lemma ReadAccounts(h: seq<Record>, ringSize: nat, c: Client)
    requires Accounted(h, ringSize, c)
    ensures Accounted(h, ringSize, Reading(c))
  {
    hide Subsequence, NewerThan, Last;
  }

  lemma StepAccounts(s: State, e: Event)
    requires AllAccounted(s)
    ensures AllAccounted(Step(s, e))
  {
    hide Accounted, Joining, Offering, Consuming, Reading;
    var t := Step(s, e);
    forall id | id in t.clients ensures Accounted(t.history, t.ringSize, t.clients[id]) {
      match e
      case Log(record, now, fault) => OfferAccounts(s.history, s.ringSize, s.clients[id], Stamped(record, now), |Since(s.history, s.clients[id])|);
      case Subscribe(i, bufSize, after) => JoinAccounts(s.history, s.ringSize, bufSize, after);
      case Consume(i) => ConsumeAccounts(s.history, s.ringSize, s.clients[id]);
      case ReadDrops(i) => ReadAccounts(s.history, s.ringSize, s.clients[id]);
      case Unsubscribe(i) =>
      case Close =>
      case Reopen(o) =>
    }
  }

  /** In every run, for every open subscription: the records delivered are a subsequence of the history
      since Subscribe, and delivered plus all reported and pending drops make up its length exactly. */
  lemma {:induction false} RunAccounts(s: State, events: seq<Event>)
    requires AllAccounted(s)
    ensures AllAccounted(Run(s, events))
    decreases |events|
  {
    hide Step, AllAccounted;
    if events != [] {
      StepAccounts(s, events[0]);
      RunAccounts(Step(s, events[0]), events[1..]);
    }
  }

  /** While no drop has occurred, nothing is missing, reordered or repeated. */
  lemma UndroppedIsComplete(h: seq<Record>, ringSize: nat, c: Client)
    requires Accounted(h, ringSize, c) && c.reported == 0 && c.tail.dropped == 0
    ensures Delivered(c) == Since(h, c)
  {
    SubsequenceLength(Delivered(c), Since(h, c));
  }

  // ----- reconnecting -----

  ghost predicate StrictlyTimed(s: seq<Record>) {
    forall i, j :: 0 <= i < j < |s| ==> s[i].time < s[j].time
  }

  lemma {:induction false} NewerThanSuffix(s: seq<Record>, after: int, k: nat)
    requires after != 0 && k <= |s|
    requires forall i :: 0 <= i < k ==> s[i].time <= after
    requires forall i :: k <= i < |s| ==> s[i].time > after
    ensures NewerThan(s, after) == s[k..]
  {
    if s != [] {
      var n := |s| - 1;
      if k <= n {
        NewerThanSuffix(s[..n], after, k);
        assert s[k..] == s[..n][k..] + [s[n]];
      } else {
        NewerThanSuffix(s[..n], after, n);
      }
    }
  }

  lemma {:induction false} NewerThanZero(s: seq<Record>)
    ensures NewerThan(s, 0) == s
  {
    if s != [] {
      NewerThanZero(s[..|s| - 1]);
      assert s == s[..|s| - 1] + [s[|s| - 1]];
    }
  }

  lemma NewerThanLast(s: seq<Record>, after: int)
    requires s != []
    ensures var t, x := s[..|s| - 1], s[|s| - 1];
            s == t + [x]
            && NewerThan(s, after) == NewerThan(t, after) + (if after != 0 && x.time <= after then [] else [x])
  {
    var t, x := s[..|s| - 1], s[|s| - 1];
    if after != 0 && x.time <= after {
      assert NewerThan(t, after) + [] == NewerThan(t, after);
    }
  }

  lemma {:induction false} NewerThanInOrder(s: seq<Record>, after: int)
    ensures Subsequence(NewerThan(s, after), s)
  {
    if s != [] {
      var t, x := s[..|s| - 1], s[|s| - 1];
      NewerThanInOrder(t, after);
      NewerThanLast(s, after);
      hide *;
      SubsequenceAppend(NewerThan(t, after), t, x);
      assert NewerThan(t, after) + [] == NewerThan(t, after);
    }
  }

  lemma {:induction false} NewerThanCopies(s: seq<Record>, after: int, r: Record)
    ensures multiset(NewerThan(s, after))[r] == if after != 0 && r.time <= after then 0 else multiset(s)[r]
  {
    if s != [] {
      NewerThanCopies(s[..|s| - 1], after, r);
      NewerThanLast(s, after);
      hide NewerThan;
    }
  }

  /** The time filter keeps exactly the newer records, all their copies, in order. */
  lemma NewerThanExact(s: seq<Record>, after: int)
    ensures Subsequence(NewerThan(s, after), s)
    ensures forall r :: multiset(NewerThan(s, after))[r] == if after != 0 && r.time <= after then 0 else multiset(s)[r]
  {
    hide *;
    NewerThanInOrder(s, after);
    forall r ensures multiset(NewerThan(s, after))[r] == if after != 0 && r.time <= after then 0 else multiset(s)[r] {
      NewerThanCopies(s, after, r);
    }
  }

  lemma {:induction false} NewerThanConcat(s: seq<Record>, t: seq<Record>, after: int)
    ensures NewerThan(s + t, after) == NewerThan(s, after) + NewerThan(t, after)
  {
    if t == [] {
      assert s + t == s;
    } else {
      var n := |t| - 1;
      NewerThanConcat(s, t[..n], after);
      assert (s + t)[..|s + t| - 1] == s + t[..n];
    }
  }

  lemma {:induction false} AllNewer(s: seq<Record>, after: int)
    requires after != 0
    ensures forall i :: 0 <= i < |NewerThan(s, after)| ==> NewerThan(s, after)[i].time > after
    ensures NewerThan(s, after) == [] ==> forall i :: 0 <= i < |s| ==> s[i].time <= after
  {
    if s != [] {
      AllNewer(s[..|s| - 1], after);
    }
  }

  /** Exactly the records from position k on are newer. */
  ghost predicate NewerFrom(s: seq<Record>, after: int, k: nat) {
    forall i :: 0 <= i < |s| ==> (s[i].time > after <==> k <= i)
  }

  lemma CutNeedsTimes(s: seq<Record>, after: int, k: nat)
    requires after != 0 && k <= |s| && NewerThan(s, after) == s[k..]
    ensures NewerFrom(s, after, k)
  {
    hide NewerThan;
    var head, tail := s[..k], s[k..];
    AllNewer(s, after);
    NewerThanSuffix(tail, after, 0);
    assert tail[0..] == tail && head + tail == s;
    NewerThanConcat(head, tail, after);
    assert |NewerThan(head, after)| == 0;
    AllNewer(head, after);
    hide *;
    forall i | 0 <= i < |s| ensures s[i].time > after <==> k <= i {
      if i < k {
        assert s[i] == head[i];
      } else {
        assert s[i] == tail[i - k];
      }
    }
    assert NewerFrom(s, after, k) by { TimesSplit(s, after, k); }
  }

  lemma TimesSplit(s: seq<Record>, after: int, k: nat)
    requires forall i :: 0 <= i < |s| ==> (s[i].time > after <==> k <= i)
    ensures NewerFrom(s, after, k)
  {
  }

  /** Exactly when the time filter cuts off the first k records and keeps the others. */
  lemma NewerThanCuts(s: seq<Record>, after: int, k: nat)
    requires after != 0 && k <= |s|
    ensures NewerThan(s, after) == s[k..] <==> NewerFrom(s, after, k)
  {
    hide NewerThan;
    if NewerFrom(s, after, k) {
      NewerThanSuffix(s, after, k);
    }
    if NewerThan(s, after) == s[k..] {
      CutNeedsTimes(s, after, k);
    }
  }

  /** The position of the oldest retained record. */
  function Retained(h: seq<Record>, ringSize: nat): (lost: nat)
    ensures lost <= |h| && Last(h, ringSize) == h[lost..]
  {
    if |h| <= ringSize then 0 else |h| - ringSize
  }

  /** Of the retained records, exactly those after record p have a later time than it. */
  ghost predicate TimedAround(h: seq<Record>, ringSize: nat, p: nat)
    requires p < |h|
  {
    forall i :: Retained(h, ringSize) <= i < |h| ==> (h[i].time > h[p].time <==> i > p)
  }

  lemma StrictlyTimedAround(h: seq<Record>, ringSize: nat, p: nat)
    requires StrictlyTimed(h) && p < |h|
    ensures TimedAround(h, ringSize, p)
  {
  }

  /** The backlog for the time of record p starts right after p, or where the ring starts if that is later,
      exactly when the retained records are timed around p. */
  lemma BacklogStartsAfter(h: seq<Record>, ringSize: nat, p: nat)
    requires p < |h| && h[p].time != 0
    ensures var from := if |h| <= p + 1 + ringSize then p + 1 else |h| - ringSize;
            from <= |h| && (NewerThan(Last(h, ringSize), h[p].time) == h[from..] <==> TimedAround(h, ringSize, p))
  {
    var lost := Retained(h, ringSize);
    var from := if |h| <= p + 1 + ringSize then p + 1 else |h| - ringSize;
    hide NewerThan, Last, NewerFrom, TimedAround;
    NewerThanCuts(h[lost..], h[p].time, from - lost);
    assert h[lost..][from - lost..] == h[from..];
    TimesShift(h, ringSize, p, from);
  }

  lemma TimesShift(h: seq<Record>, ringSize: nat, p: nat, from: nat)
    requires p < |h| && from == if p + 1 < Retained(h, ringSize) then Retained(h, ringSize) else p + 1
    ensures var lost := Retained(h, ringSize);
            TimedAround(h, ringSize, p) <==> NewerFrom(h[lost..], h[p].time, from - lost)
  {
    hide Last;
    var lost := Retained(h, ringSize);
    var w := h[lost..];
    if NewerFrom(w, h[p].time, from - lost) {
      forall i | lost <= i < |h| ensures h[i].time > h[p].time <==> i > p {
        assert w[i - lost] == h[i];
      }
    }
  }

  /** What a client that reconnects with the time of the last record it saw, record p, receives as long as
      nothing is dropped afterwards. It is the history after p without gap or repeat, minus exactly the
      oldest records in excess of the ring, if and only if of the retained records exactly those after p
      have a later time: the time is taken before the lock, so that can fail. */
  lemma ReconnectExactly(h: seq<Record>, ringSize: nat, c: Client, p: nat)
    requires Accounted(h, ringSize, c) && c.reported == 0 && c.tail.dropped == 0
    requires p < c.start && c.after == h[p].time && c.after != 0
    ensures var missed := c.start - (p + 1);
            var excess := if missed <= ringSize then 0 else missed - ringSize;
            c.backlog + Delivered(c) == h[p + 1 + excess..] <==> TimedAround(h[..c.start], ringSize, p)
  {
    hide *;
    var missed := c.start - (p + 1);
    var from := p + 1 + (if missed <= ringSize then 0 else missed - ringSize);
    Received(h, ringSize, c);
    BacklogStartsAfter(h[..c.start], ringSize, p);
    Rejoin(h, c.start, from, c.backlog);
  }

  lemma Received(h: seq<Record>, ringSize: nat, c: Client)
    requires Accounted(h, ringSize, c) && c.reported == 0 && c.tail.dropped == 0
    ensures c.start <= |h| && c.backlog == NewerThan(Last(h[..c.start], ringSize), c.after) && Delivered(c) == h[c.start..]
  {
    hide NewerThan, Last, Subsequence;
    UndroppedIsComplete(h, ringSize, c);
  }

  /** A suffix that begins in the first part is the rest of that part and the second part. */
  lemma Rejoin<T>(h: seq<T>, at: nat, from: nat, begin: seq<T>)
    requires from <= at <= |h|
    ensures begin + h[at..] == h[from..] <==> begin == h[..at][from..]
  {
    var whole := h[..at][from..];
    assert whole + h[at..] == h[from..];
    if begin + h[at..] == h[from..] {
      assert |begin| == |whole|;
      assert begin == (begin + h[at..])[..|begin|] && whole == (whole + h[at..])[..|whole|];
    }
  }

  /** In particular when times strictly increase: with at most ringSize records in between, the client sees
      exactly the history after p; with more, exactly the oldest excess is missing. */
  lemma ReconnectIsContiguous(h: seq<Record>, ringSize: nat, c: Client, p: nat)
    requires Accounted(h, ringSize, c) && c.reported == 0 && c.tail.dropped == 0
    requires p < c.start && StrictlyTimed(h[..c.start])
    requires c.after == h[p].time && c.after != 0
    ensures var missed := c.start - (p + 1);
            var excess := if missed <= ringSize then 0 else missed - ringSize;
            c.backlog + Delivered(c) == h[p + 1 + excess..]
  {
    StrictlyTimedAround(h[..c.start], ringSize, p);
    hide *;
    ReconnectExactly(h, ringSize, c, p);
  }

  /** A client that subscribes with the zero time gets the whole ring first; nothing, only when nothing has
      been logged yet. */
  lemma ZeroTimeGetsRing(h: seq<Record>, ringSize: nat, c: Client)
    requires Accounted(h, ringSize, c) && c.after == 0
    ensures c.backlog == Last(h[..c.start], ringSize)
    ensures c.backlog == [] <==> c.start == 0 || ringSize == 0
  {
    NewerThanZero(Last(h[..c.start], ringSize));
  }

  /** All of this holds in every state any run reaches from a fresh writer. */
  lemma ReachableAccounted(ringSize: nat, events: seq<Event>)
    ensures AllAccounted(Run(Initial(ringSize), events))
    ensures Run(Initial(ringSize), events).ringSize == ringSize
  {
    RunAccounts(Initial(ringSize), events);
    RingSizeFixed(Initial(ringSize), events);
  }

  lemma {:induction false} RingSizeFixed(s: State, events: seq<Event>)
    ensures Run(s, events).ringSize == s.ringSize
    decreases |events|
  {
    if events != [] {
      RingSizeFixed(Step(s, events[0]), events[1..]);
    }
  }

  // ----- what the client is told -----

  /** What the tail loop sends to the client on this step. */
  function Sent(s: State, e: Event, id: nat): seq<Frame> {
    if id !in s.clients then []
    else
      var t := s.clients[id].tail;
      match e
      case ReadDrops(i) => if i == id && t.dropped > 0 then [Dropped(t.dropped)] else []
      case Consume(i) => if i == id && t.buffer != [] then [Data(t.buffer[0])] else []
      case _ => []
  }

  /** What it sends over a run. */
  function Stream(s: State, events: seq<Event>, id: nat): seq<Frame>
    decreases |events|
  {
    if events == [] then [] else Sent(s, events[0], id) + Stream(Step(s, events[0]), events[1..], id)
  }

  /** The records of the data frames, in order. */
  function Records(frames: seq<Frame>): seq<Record> {
    if frames == [] then []
    else (match frames[0] case Data(r) => [r] case Dropped(_) => []) + Records(frames[1..])
  }

  lemma {:induction false} WeightAppend(xs: seq<Frame>, ys: seq<Frame>)
    ensures Weight(xs + ys) == Weight(xs) + Weight(ys)
  {
    if xs == [] {
      assert xs + ys == ys;
    } else {
      WeightAppend(xs[1..], ys);
      assert (xs + ys)[1..] == xs[1..] + ys;
    }
  }

  lemma {:induction false} RecordsAppend(xs: seq<Frame>, ys: seq<Frame>)
    ensures Records(xs + ys) == Records(xs) + Records(ys)
  {
    if xs == [] {
      assert xs + ys == ys;
    } else {
      RecordsAppend(xs[1..], ys);
      assert (xs + ys)[0] == xs[0] && (xs + ys)[1..] == xs[1..] + ys;
    }
  }

  predicate Stays(events: seq<Event>, id: nat) {
    Unsubscribe(id) !in events
  }

  lemma StepTells(s: State, e: Event, id: nat)
    requires id in s.clients && e != Unsubscribe(id)
    ensures var t := Step(s, e);
            && id in t.clients && t.clients[id].start == s.clients[id].start
            && t.clients[id].consumed == s.clients[id].consumed + Records(Sent(s, e, id))
            && |t.clients[id].consumed| + t.clients[id].reported
               == |s.clients[id].consumed| + s.clients[id].reported + Weight(Sent(s, e, id))
  {
    hide Offered, NewerThan, Last, Stamped;
    var frames := Sent(s, e, id);
    assert |frames| == 1 ==> frames[1..] == [];
  }

  /** Over any run, the data frames are what the client has consumed and the frames weigh what it has
      consumed or been told is missing. */
  lemma {:induction false} RunTells(s: State, events: seq<Event>, id: nat)
    requires id in s.clients && Stays(events, id)
    ensures var t := Run(s, events);
            && id in t.clients && t.clients[id].start == s.clients[id].start
            && t.clients[id].consumed == s.clients[id].consumed + Records(Stream(s, events, id))
            && |t.clients[id].consumed| + t.clients[id].reported
               == |s.clients[id].consumed| + s.clients[id].reported + Weight(Stream(s, events, id))
    decreases |events|
  {
    hide Step, Sent, Records, Weight;
    if events == [] {
      assert Records([]) == [] && Weight([]) == 0 by { NoFrames(); }
    } else {
      var s1 := Step(s, events[0]);
      StepTells(s, events[0], id);
      RunTells(s1, events[1..], id);
      WeightAppend(Sent(s, events[0], id), Stream(s1, events[1..], id));
      RecordsAppend(Sent(s, events[0], id), Stream(s1, events[1..], id));
    }
  }

  lemma NoFrames()
    ensures Records([]) == [] && Weight([]) == 0
  {
  }

  /** A client that subscribes in any reachable state and stays, whatever else happens: its data frames and
      then its channel are records logged since, in order and none twice; and every record logged since is
      counted exactly once, by a data frame, by a drop frame, in its channel or in its drop counter. */
  lemma TailTellsAll(ringSize: nat, before: seq<Event>, id: nat, bufSize: int, after: int, events: seq<Event>)
    requires id !in Run(Initial(ringSize), before).clients && Stays(events, id)
    ensures var s := Run(Initial(ringSize), before);
            var s1 := Step(s, Subscribe(id, bufSize, after));
            var t := Run(s1, events);
            var frames := Stream(s1, events, id);
            && id in t.clients && |s.history| <= |t.history|
            && Subsequence(Records(frames) + t.clients[id].tail.buffer, t.history[|s.history|..])
            && Weight(frames) + |t.clients[id].tail.buffer| + t.clients[id].tail.dropped == |t.history| - |s.history|
  {
    var s := Run(Initial(ringSize), before);
    ReachableAccounted(ringSize, before);
    StepAccounts(s, Subscribe(id, bufSize, after));
    Joined(s, id, bufSize, after);
    hide *;
    StreamAccounts(Step(s, Subscribe(id, bufSize, after)), events, id);
  }

  lemma Joined(s: State, id: nat, bufSize: int, after: int)
    requires id !in s.clients
    ensures var t := Step(s, Subscribe(id, bufSize, after));
            id in t.clients && t.clients[id].consumed == [] && t.clients[id].reported == 0
            && t.clients[id].start == |s.history|
  {
    hide NewerThan, Last;
  }

  /** The same for a client that has received nothing yet. */
  lemma StreamAccounts(s: State, events: seq<Event>, id: nat)
    requires AllAccounted(s) && id in s.clients && Stays(events, id)
    requires s.clients[id].consumed == [] && s.clients[id].reported == 0
    ensures var t := Run(s, events);
            var frames := Stream(s, events, id);
            var start := s.clients[id].start;
            && id in t.clients && start <= |t.history|
            && Subsequence(Records(frames) + t.clients[id].tail.buffer, t.history[start..])
            && Weight(frames) + |t.clients[id].tail.buffer| + t.clients[id].tail.dropped == |t.history| - start
  {
    RunTells(s, events, id);
    RunAccounts(s, events);
    var t := Run(s, events);
    hide Step, Run, Stream, Records, Weight, Subsequence, NewerThan, Last;
    assert Accounted(t.history, t.ringSize, t.clients[id]);
    assert [] + Records(Stream(s, events, id)) == Records(Stream(s, events, id));
  }

  // ----- no gap is announced late -----

  /** What holds of the positions in a client's channel. */
  ghost predicate Placed(h: seq<Record>, c: Client) {
    var told := |c.consumed| + c.reported;
    && c.start <= |h|
    && |c.places| == |c.tail.buffer| <= c.tail.cap
    && |Since(h, c)| == told + |c.tail.buffer| + c.tail.dropped
    && (forall i :: 0 <= i < |c.places| ==>
          c.places[i] < |Since(h, c)| && Since(h, c)[c.places[i]] == c.tail.buffer[i]
          && c.places[i] <= told + i + c.tail.dropped)
    && (c.polled && c.tail.buffer != [] ==> c.places[0] <= told)
    && (c.polled && c.tail.buffer == [] && c.tail.cap > 0 ==> c.tail.dropped == 0)
  }

  ghost predicate AllPlaced(s: State) {
    forall id :: id in s.clients ==> Placed(s.history, s.clients[id])
  }

  lemma OfferPlaces(h: seq<Record>, c: Client, r: Record)
    requires Placed(h, c)
    ensures Placed(h + [r], Offering(c, r, |Since(h, c)|))
  {
    assert (h + [r])[c.start..] == h[c.start..] + [r];
  }

  lemma ConsumePlaces(h: seq<Record>, c: Client)
    requires Placed(h, c)
    ensures Placed(h, Consuming(c))
  {
  }

  lemma ReadPlaces(h: seq<Record>, c: Client)
    requires Placed(h, c)
    ensures Placed(h, Reading(c))
  {
  }

  lemma StepPlaces(s: State, e: Event)
    requires AllPlaced(s)
    ensures AllPlaced(Step(s, e))
  {
    hide Placed, Offering, Consuming, Reading;
    var t := Step(s, e);
    forall id | id in t.clients ensures Placed(t.history, t.clients[id]) {
      match e
      case Log(record, now, fault) => OfferPlaces(s.history, s.clients[id], Stamped(record, now));
      case Subscribe(i, bufSize, after) => JoinPlaces(s.history, s.ringSize, bufSize, after);
      case Consume(i) => ConsumePlaces(s.history, s.clients[id]);
      case ReadDrops(i) => ReadPlaces(s.history, s.clients[id]);
      case Unsubscribe(i) =>
      case Close =>
      case Reopen(o) =>
    }
  }

  lemma JoinPlaces(h: seq<Record>, ringSize: nat, bufSize: int, after: int)
    ensures Placed(h, Joining(h, ringSize, bufSize, after))
  {
  }

  lemma {:induction false} RunPlaces(s: State, events: seq<Event>)
    requires AllPlaced(s)
    ensures AllPlaced(Run(s, events))
    decreases |events|
  {
    hide Step, AllPlaced;
    if events != [] {
      StepPlaces(s, events[0]);
      RunPlaces(Step(s, events[0]), events[1..]);
    }
  }

  /** A client that reads the drop counter before each receive, as the tail loop does, never finds a gap
      without notice: when it is about to receive a record, as many records have been sent or reported to it
      as were logged between its Subscribe and that record. */
  lemma GapsAnnouncedInTime(ringSize: nat, events: seq<Event>, id: nat)
    requires id in Run(Initial(ringSize), events).clients
    requires var c := Run(Initial(ringSize), events).clients[id]; c.polled && c.tail.buffer != []
    ensures var s := Run(Initial(ringSize), events);
            var c := s.clients[id];
            && c.places != [] && c.start + c.places[0] < |s.history|
            && s.history[c.start + c.places[0]] == c.tail.buffer[0]
            && |c.consumed| + c.reported >= c.places[0]
  {
    RunPlaces(Initial(ringSize), events);
    hide Run;
    var s := Run(Initial(ringSize), events);
    assert Placed(s.history, s.clients[id]);
  }

  // ----- the writer takes these steps -----

  /** What an operation returns to its caller. */
  datatype Reply = Logged(ok: bool) | Handed(backlog: seq<Record>) | Taken(rec: Option<Record>) | Counted(count: nat) | Done

  /** What the state machine says the caller sees. */
  function Answer(s: State, e: Event): Reply {
    match e
    case Log(record, now, fault) => Logged(s.isOpen && fault.NoEncodeFault?)
    case Subscribe(id, bufSize, after) =>
      if id in s.clients then Done else Handed(NewerThan(Last(s.history, s.ringSize), after))
    case Consume(id) =>
      if id !in s.clients then Done
      else Taken(if s.clients[id].tail.buffer == [] then None else Some(s.clients[id].tail.buffer[0]))
    case ReadDrops(id) => if id !in s.clients then Done else Counted(s.clients[id].tail.dropped)
    case Unsubscribe(id) => Done
    case Close => Done
    case Reopen(opens) => Done
  }

  /** Each client holds its own one of the writer's subscriptions, in the state the machine says. */
  ghost predicate Hold(subs: seq<Subscription>, held: map<nat, Subscription>, s: State)
    reads held.Values
  {
    && held.Keys == s.clients.Keys
    && (forall id :: id in held ==> held[id] in subs && held[id].View() == s.clients[id].tail)
    && (forall i, j :: i in held && j in held && i != j ==> held[i] != held[j])
    && (forall x :: x in subs ==> x in held.Values)
  }

  /** The writer and the subscription objects its clients hold are in state `s`. */
  ghost predicate Refines(w: Writer, held: map<nat, Subscription>, s: State)
    reads w, w.ring, held.Values
  {
    && w.Valid()
    && w.ringSize == s.ringSize && w.isOpen == s.isOpen && w.history == s.history
    && Hold(w.subs, held, s)
  }

  method PerformLog(w: Writer, held: map<nat, Subscription>, ghost s: State, record: Record, now: int, fault: EncodeFault)
      returns (ok: bool)
    requires Refines(w, held, s)
    modifies w, w.ring, held.Values
    ensures w.ring == old(w.ring)
    ensures Refines(w, held, Step(s, Log(record, now, fault)))
    ensures Logged(ok) == Answer(s, Log(record, now, fault))
  {
    hide Writer.Valid, Stamped, Offered, NewerThan, Last;
    ok := w.Log(record, now, fault);
    assert forall id :: id in held ==> exists i :: 0 <= i < |w.subs| && w.subs[i] == held[id];
  }

  lemma HoldOneMore(subs: seq<Subscription>, held: map<nat, Subscription>, s: State, sub: Subscription, e: Event)
    requires Hold(subs, held, s) && sub !in held.Values
    requires e.Subscribe? && e.id !in held
    requires sub.View() == Tail(if e.bufSize <= 0 then s.ringSize else e.bufSize, [], 0)
    ensures Hold(subs + [sub], held[e.id := sub], Step(s, e))
  {
    hide NewerThan, Last;
    var held' := held[e.id := sub];
    assert forall i :: i in held ==> held'[i] == held[i];
    assert held'[e.id] == sub;
  }

  method PerformSubscribe(w: Writer, held: map<nat, Subscription>, ghost s: State, id: nat, bufSize: int, after: int)
      returns (held': map<nat, Subscription>, reply: Reply)
    requires Refines(w, held, s)
    modifies w, w.ring, held.Values
    ensures w.ring == old(w.ring) && forall x :: x in held'.Values ==> x in held.Values || fresh(x)
    ensures Refines(w, held', Step(s, Subscribe(id, bufSize, after)))
    ensures reply == Answer(s, Subscribe(id, bufSize, after))
  {
    hide Hold, NewerThan, Last, Joining, Writer.Valid;
    assert held.Keys == s.clients.Keys by { HoldKeys(w.subs, held, s); }
    if id in held {
      return held, Done;
    }
    ghost var subs := w.subs;
    var sub, backlog := w.Subscribe(bufSize, after);
    assert Hold(subs, held, s);
    HoldOneMore(subs, held, s, sub, Subscribe(id, bufSize, after));
    held', reply := held[id := sub], Handed(backlog);
  }

  lemma HoldKeys(subs: seq<Subscription>, held: map<nat, Subscription>, s: State)
    requires Hold(subs, held, s)
    ensures held.Keys == s.clients.Keys
  {
  }

  method PerformConsume(w: Writer, held: map<nat, Subscription>, ghost s: State, id: nat) returns (reply: Reply)
    requires Refines(w, held, s)
    modifies w, w.ring, held.Values
    ensures w.ring == old(w.ring)
    ensures Refines(w, held, Step(s, Consume(id)))
    ensures reply == Answer(s, Consume(id))
  {
    hide Stamped, Offered, NewerThan, Last;
    if id !in held {
      return Done;
    }
    var r := held[id].Receive();
    reply := Taken(r);
  }

  method PerformReadDrops(w: Writer, held: map<nat, Subscription>, ghost s: State, id: nat) returns (reply: Reply)
    requires Refines(w, held, s)
    modifies w, w.ring, held.Values
    ensures w.ring == old(w.ring)
    ensures Refines(w, held, Step(s, ReadDrops(id)))
    ensures reply == Answer(s, ReadDrops(id))
  {
    hide Stamped, Offered, NewerThan, Last;
    if id !in held {
      return Done;
    }
    var n := held[id].DroppedAndReset();
    reply := Counted(n);
  }

  lemma HoldOneLess(subs: seq<Subscription>, subs': seq<Subscription>, held: map<nat, Subscription>, s: State, id: nat)
    requires Hold(subs, held, s)
    requires forall x :: x in subs' <==> x in subs && (id in held ==> x != held[id])
    ensures Hold(subs', held - {id}, Step(s, Unsubscribe(id)))
  {
    var held' := held - {id};
    forall x | x in subs' ensures x in held'.Values {
      var i :| i in held && held[i] == x;
      assert i in held' && held'[i] == x;
    }
  }

  method PerformUnsubscribe(w: Writer, held: map<nat, Subscription>, ghost s: State, id: nat)
      returns (held': map<nat, Subscription>)
    requires Refines(w, held, s)
    modifies w, w.ring, held.Values
    ensures w.ring == old(w.ring) && held'.Values <= held.Values
    ensures Refines(w, held', Step(s, Unsubscribe(id)))
  {
    hide Hold, Writer.Valid;
    ghost var subs := w.subs;
    if id in held {
      w.Unsubscribe(held[id]);
    }
    assert Hold(subs, held, s);
    HoldOneLess(subs, w.subs, held, s, id);
    held' := held - {id};
  }

  /** Every operation of the writer and its subscriptions is the corresponding step, and its caller sees
      what the step says. */
  method Perform(w: Writer, held: map<nat, Subscription>, ghost s: State, e: Event)
      returns (held': map<nat, Subscription>, reply: Reply)
    requires Refines(w, held, s)
    modifies w, w.ring, held.Values
    ensures w.ring == old(w.ring) && forall x :: x in held'.Values ==> x in held.Values || fresh(x)
    ensures Refines(w, held', Step(s, e))
    ensures reply == Answer(s, e)
  {
    hide Writer.Valid, Stamped, Offered, NewerThan, Last;
    held', reply := held, Done;
    match e
    case Log(record, now, fault) =>
      var ok := PerformLog(w, held, s, record, now, fault);
      reply := Logged(ok);
    case Subscribe(id, bufSize, after) =>
      held', reply := PerformSubscribe(w, held, s, id, bufSize, after);
    case Consume(id) =>
      reply := PerformConsume(w, held, s, id);
    case ReadDrops(id) =>
      reply := PerformReadDrops(w, held, s, id);
    case Unsubscribe(id) =>
      held' := PerformUnsubscribe(w, held, s, id);
    case Close =>
      w.Close();
    case Reopen(opens) =>
      w.Reopen(opens);
  }

  lemma RunFrom(s: State, events: seq<Event>, i: nat)
    requires i < |events|
    ensures Run(s, events[i..]) == Run(Step(s, events[i]), events[i + 1..])
  {
    assert events[i..][0] == events[i] && events[i..][1..] == events[i + 1..];
  }

  lemma RunEnd(s: State, events: seq<Event>)
    ensures Run(s, events[|events|..]) == s
  {
  }

  lemma Opened(w: Writer, size: nat)
    requires w.Valid() && w.history == [] && w.subs == [] && w.isOpen && w.ringSize == size
    ensures Refines(w, map[], Initial(size))
  {
    hide Writer.Valid;
  }

  /** A writer opened and then used in any way is in the state that the run of the same events reaches. */
  method PerformAll(size: int, line: Record -> string, existing: string, events: seq<Event>)
      returns (w: Writer, held: map<nat, Subscription>)
    ensures Refines(w, held, Run(Initial(if size <= 0 then 256 else size), events))
  {
    hide *;
    w := new Writer(size, line, existing);
    held := map[];
    assert events[0..] == events;
    ghost var s := Initial(if size <= 0 then 256 else size);
    assert Refines(w, held, s) by { Opened(w, if size <= 0 then 256 else size); }
    for i := 0 to |events|
      invariant fresh(w) && fresh(w.ring) && fresh(held.Values)
      invariant Refines(w, held, s)
      invariant Run(s, events[i..]) == Run(Initial(if size <= 0 then 256 else size), events)
    {
      RunFrom(s, events, i);
      var reply;
      held, reply := Perform(w, held, s, events[i]);
      s := Step(s, events[i]);
    }
    RunEnd(s, events);
  }
}
