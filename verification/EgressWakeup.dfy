/** The wake-up protocol between any number of callers of `UpdateHosts` and the one refresh worker,
    step by step, and the rules it leaves in force
    (tesseract-proxy/internal/egress/egress.go, `UpdateHosts`, `Run`, `Tick`). */
module EgressWakeup {
  import opened Options
  import Ordering
  import opened Ruleset

  /** Waiting in the select; woken but before the snapshot; refreshing with the snapshot. */
  datatype Worker = Waiting | Woken | Refreshing

  /** What a ruleset text says: its hosts and the addresses it lets through. */
  datatype Rules = Rules(hosts: seq<string>, accepts: set<string>)

  /** How a refresh ended: with no host nothing was done, with a host that does not resolve it failed,
      else it handed its rules to the applier. */
  datatype Ending = Skipped | Failed | Handed(rules: Rules)

  /** `written` counts the writes of the host list, `read` is the count at the last snapshot. `sending`
      are the callers between their write and their send; `queued` is what the channel holds. `ended` is how
      the last refresh ended; `attempts` are all rules handed to the applier, `loaded` the last it applied. */
  datatype State = State(notation: Notation, hosts: seq<string>, written: nat, sending: set<nat>, queued: nat,
                         worker: Worker, snapshot: seq<string>, read: nat,
                         ended: Option<Ending>, attempts: seq<Rules>, loaded: Option<Rules>)

  datatype Action =
    | Write(caller: nat, names: seq<string>)
    | Send(caller: nat)
    | TakePoke
    | TimerFires
    | TakeSnapshot
    | FinishRefresh(resolver: Resolver, applies: bool)

  const CAPACITY: nat := 1

  predicate Enabled(s: State, a: Action) {
    match a
    case Write(c, names) => c !in s.sending
    case Send(c) => c in s.sending
    case TakePoke => s.worker == Waiting && s.queued > 0
    case TimerFires => s.worker == Waiting
    case TakeSnapshot => s.worker == Woken
    case FinishRefresh(_, _) => s.worker == Refreshing
  }

  function RulesFor(n: Notation, r: Resolver, hosts: seq<string>): Rules {
    Rules(hosts, AllTexts(n, r, hosts))
  }

  function EndingFor(n: Notation, r: Resolver, hosts: seq<string>): Ending {
    if hosts == [] then Skipped
    else if Renders(r, hosts) then Handed(RulesFor(n, r, hosts))
    else Failed
  }

  function Finished(s: State, r: Resolver, applies: bool): State {
    var e := EndingFor(s.notation, r, s.snapshot);
    var t := s.(worker := Waiting, ended := Some(e));
    if !e.Handed? then t
    else t.(attempts := s.attempts + [e.rules], loaded := if applies then Some(e.rules) else s.loaded)
  }

  function Step(s: State, a: Action): State
    requires Enabled(s, a)
  {
    match a
    case Write(c, names) => s.(hosts := Ordering.SortedSet(names), written := s.written + 1, sending := s.sending + {c})
    case Send(c) => s.(sending := s.sending - {c}, queued := if s.queued < CAPACITY then s.queued + 1 else s.queued)
    case TakePoke => s.(queued := s.queued - 1, worker := Woken)
    case TimerFires => s.(worker := Woken)
    case TakeSnapshot => s.(worker := Refreshing, snapshot := s.hosts, read := s.written)
    case FinishRefresh(r, applies) => Finished(s, r, applies)
  }

  function Initial(n: Notation): State {
    State(n, [], 0, {}, 0, Waiting, [], 0, None, [], None)
  }

  /** A run: every action enabled where it is taken. */
  ghost predicate IsRun(s: State, actions: seq<Action>, t: State)
    decreases |actions|
  {
    if actions == [] then s == t
    else Enabled(s, actions[0]) && IsRun(Step(s, actions[0]), actions[1..], t)
  }

  /** Between refreshes, `ended` is about the last snapshot. */
  ghost predicate EndedOn(s: State, hosts: seq<string>) {
    match s.ended
    case None => hosts == [] && s.attempts == []
    case Some(Skipped) => hosts == []
    case Some(Failed) => hosts != []
    case Some(Handed(rules)) =>
      hosts != [] && rules.hosts == hosts && s.attempts != [] && s.attempts[|s.attempts| - 1] == rules
  }

  /** If the newest host list has not been read, somebody is on the way to have it read. */
  ghost predicate NoLostUpdate(s: State) {
    && s.queued <= CAPACITY
    && s.read <= s.written
    && (s.read == s.written ==> s.snapshot == s.hosts)
    && (s.read < s.written ==> s.queued > 0 || s.sending != {} || s.worker == Woken)
    && (s.worker != Refreshing ==> EndedOn(s, s.snapshot))
    && (s.loaded.Some? ==> s.loaded.value in s.attempts)
  }

  lemma StepKeeps(s: State, a: Action)
    requires NoLostUpdate(s) && Enabled(s, a)
    ensures NoLostUpdate(Step(s, a))
  {
    hide Ordering.SortedSet, Renders, RulesFor;
    match a
    case Write(c, names) => assert c in Step(s, a).sending;
    case Send(c) =>
    case TakePoke =>
    case TimerFires =>
    case TakeSnapshot =>
    case FinishRefresh(r, applies) => assert RulesFor(s.notation, r, s.snapshot).hosts == s.snapshot by { RulesHosts(s, r); }
  }

  lemma RulesHosts(s: State, r: Resolver)
    ensures RulesFor(s.notation, r, s.snapshot).hosts == s.snapshot
  {
  }

  /** Holds in every state of every interleaving. */
  lemma {:induction false} RunKeeps(s: State, actions: seq<Action>, t: State)
    requires NoLostUpdate(s) && IsRun(s, actions, t)
    ensures NoLostUpdate(t)
    decreases |actions|
  {
    hide Ordering.SortedSet, NoLostUpdate, Step;
    if actions != [] {
      StepKeeps(s, actions[0]);
      RunKeeps(Step(s, actions[0]), actions[1..], t);
    }
  }

  /** Nobody has anything left to do. */
  predicate Quiescent(s: State) {
    s.queued == 0 && s.sending == {} && s.worker == Waiting
  }

  /** In every reachable quiescent state the last refresh used the current host list: with a host, it
      failed to resolve one or the last rules handed to the applier are for this list; and in every
      reachable state at most one poke is queued. */
  lemma ReachableIsCurrent(n: Notation, actions: seq<Action>, s: State)
    requires IsRun(Initial(n), actions, s)
    ensures s.queued <= 1
    ensures Quiescent(s) ==> s.snapshot == s.hosts && s.read == s.written && EndedOn(s, s.hosts)
  {
    RunKeeps(Initial(n), actions, s);
  }

  /** What the worker still does once no caller is active, timers aside, while the resolver and the applier
      answer alike. */
  function Settle(s: State, r: Resolver, applies: bool): (actions: seq<Action>)
    requires s.queued <= CAPACITY
    decreases s.queued, match s.worker case Woken => 2 case Refreshing => 1 case Waiting => 0
  {
    match s.worker
    case Woken => [TakeSnapshot] + Settle(Step(s, TakeSnapshot), r, applies)
    case Refreshing => [FinishRefresh(r, applies)] + Settle(Finished(s, r, applies), r, applies)
    case Waiting => if s.queued == 0 then [] else [TakePoke] + Settle(Step(s, TakePoke), r, applies)
  }

  /** The settled state has the rules of the current hosts, or those from before if there is no host or one
      does not resolve. */
  ghost predicate RulesSettled(s: State, t: State, r: Resolver, applies: bool) {
    var e := EndingFor(s.notation, r, s.hosts);
    && t.ended == Some(e)
    && (e.Handed? ==> t.attempts != [] && t.attempts[|t.attempts| - 1] == e.rules && (applies ==> t.loaded == Some(e.rules)))
    && (!applies ==> t.loaded == s.loaded)
  }

  /** From every reachable state in which no caller is active, the worker alone reaches quiescence, in at
      most five steps, and then the rules follow the current host list. An empty list leaves the older
      rules in force, unless a refresh of an older list is still under way. */
  lemma {:induction false} SettlesOnCurrent(s: State, r: Resolver, applies: bool) returns (t: State)
    requires NoLostUpdate(s) && s.sending == {}
    ensures IsRun(s, Settle(s, r, applies), t) && Quiescent(t)
    ensures t.hosts == s.hosts && t.snapshot == s.hosts && t.notation == s.notation
    ensures |Settle(s, r, applies)| <= 3 * s.queued + match s.worker case Woken => 2 case Refreshing => 1 case Waiting => 0
    ensures s.queued > 0 || s.worker == Woken || (s.worker == Refreshing && s.snapshot == s.hosts) ==>
              RulesSettled(s, t, r, applies)
    ensures s.hosts == [] && (s.worker == Refreshing ==> s.snapshot == []) ==>
              t.attempts == s.attempts && t.loaded == s.loaded
    decreases s.queued, match s.worker case Woken => 2 case Refreshing => 1 case Waiting => 0
  {
    hide EndingFor;
    EndingOfNone(s.notation, r);
    var rest := Settle(s, r, applies);
    if rest == [] {
      t := s;
    } else {
      StepKeeps(s, rest[0]);
      t := SettlesOnCurrent(Step(s, rest[0]), r, applies);
      assert rest[1..] == Settle(Step(s, rest[0]), r, applies);
    }
  }

  lemma EndingOfNone(n: Notation, r: Resolver)
    ensures EndingFor(n, r, []) == Skipped
  {
  }

  // ----- the generator takes these steps -----

  /** The texts display the rules. */
  ghost predicate Shows(n: Notation, texts: seq<string>, rules: seq<Rules>) {
    && |texts| == |rules|
    && forall k :: 0 <= k < |texts| ==> Displays(n, rules[k].hosts, rules[k].accepts, texts[k])
  }

  /** The generator, and the snapshot in the hands of its worker, are in state `s`. */
  ghost predicate Refines(g: Generator, snapshot: seq<string>, s: State)
    reads g
  {
    && g.hosts == s.hosts && g.queued == s.queued <= CAPACITY
    && (s.worker == Refreshing ==> snapshot == s.snapshot)
    && Shows(s.notation, g.attempts, s.attempts)
    && (g.loaded.Some? <==> s.loaded.Some?)
    && (g.loaded.Some? ==> Displays(s.notation, s.loaded.value.hosts, s.loaded.value.accepts, g.loaded.value))
  }

  lemma ShowsMore(n: Notation, texts: seq<string>, rules: seq<Rules>, texts': seq<string>, rule: Rules)
    requires Shows(n, texts, rules)
    requires |texts'| == |texts| + 1 && texts'[..|texts|] == texts
    requires Displays(n, rule.hosts, rule.accepts, texts'[|texts|])
    ensures Shows(n, texts', rules + [rule])
  {
    hide Displays;
    forall k | 0 <= k < |texts| ensures texts'[k] == texts[k] {
      assert texts'[..|texts|][k] == texts[k];
    }
  }

  lemma RendersSome(r: Resolver, hosts: seq<string>)
    ensures Renders(r, hosts) ==> hosts != []
  {
  }

  /** The refresh of the generator is the last step of a refresh of the machine. */
  method PerformRefresh(g: Generator, snapshot: seq<string>, ghost s: State, r: Resolver, applies: bool, n: Notation)
    requires Refines(g, snapshot, s) && s.worker == Refreshing && s.notation == n
    modifies g
    ensures Refines(g, snapshot, Finished(s, r, applies))
  {
    RendersSome(r, snapshot);
    hide Displays, Renders, AllTexts;
    ghost var texts := g.attempts;
    var ok := g.Refresh(n, r, snapshot, applies);
    if Renders(r, snapshot) {
      ShowsMore(n, texts, s.attempts, g.attempts, RulesFor(n, r, snapshot));
    }
  }

  /** Each locked or channel operation of the generator is one step of the machine. */
  method Perform(n: Notation, g: Generator, snapshot: seq<string>, ghost s: State, a: Action) returns (snapshot': seq<string>)
    requires Refines(g, snapshot, s) && Enabled(s, a) && s.notation == n
    modifies g
    ensures Refines(g, snapshot', Step(s, a))
  {
    hide Shows, Displays, Finished, Ordering.SortedSet, Ordering.StrictlySorted, Ordering.Elements;
    snapshot' := snapshot;
    match a
    case Write(c, names) => g.SetHosts(names);
    case Send(c) => g.Poke();
    case TakePoke => g.TakePoke();
    case TimerFires =>
    case TakeSnapshot => snapshot' := g.hosts;
    case FinishRefresh(r, applies) => PerformRefresh(g, snapshot, s, r, applies, n);
  }

  /** A new generator, used by its callers and its worker in any interleaving, is in the state the run of
      the same steps reaches. */
  method PerformAll(n: Notation, actions: seq<Action>, ghost t: State) returns (g: Generator, snapshot: seq<string>)
    requires IsRun(Initial(n), actions, t)
    ensures fresh(g) && Refines(g, snapshot, t)
  {
    g := new Generator();
    snapshot := [];
    ghost var s := Initial(n);
    assert actions[0..] == actions;
    for k := 0 to |actions|
      invariant fresh(g) && Refines(g, snapshot, s) && s.notation == n
      invariant IsRun(s, actions[k..], t)
    {
      hide Refines, Shows, Displays, Step, Enabled;
      assert actions[k..][0] == actions[k] && actions[k..][1..] == actions[k + 1..];
      NotationFixed(s, actions[k]);
      snapshot := Perform(n, g, snapshot, s, actions[k]);
      s := Step(s, actions[k]);
    }
  }

  lemma NotationFixed(s: State, a: Action)
    requires Enabled(s, a)
    ensures Step(s, a).notation == s.notation
  {
  }

  /** So whenever the generator has come to rest with a host, and its last refresh handed on a text, that
      text names exactly the current hosts, accepts the addresses they resolved to, and lets out nothing but
      new connections to port 443 of these, established connections and the loopback device. */
  lemma RestingText(n: Notation, actions: seq<Action>, s: State, g: Generator, snapshot: seq<string>)
    requires IsRun(Initial(n), actions, s) && Quiescent(s) && Refines(g, snapshot, s) && s.notation == n
    requires Faithful(n) && OneLiners(s.hosts)
    requires s.ended.Some? && s.ended.value.Handed?
    ensures g.attempts != []
    ensures var text := g.attempts[|g.attempts| - 1];
            NamedHosts(text) == g.hosts && Accepted(text) == s.ended.value.rules.accepts
    ensures var text := g.attempts[|g.attempts| - 1];
            forall p: Packet :: (p.v6 <==> !IsDotted(n, p.dest)) ==>
              (Lets(text, p) <==>
               p.established || p.loopback || (p.isTCP && p.port == 443 && p.dest in s.ended.value.rules.accepts))
  {
    hide Displays, Accepted, NamedHosts, Faithful, OneLiners, IsRun, Lets, IsDotted;
    ReachableIsCurrent(n, actions, s);
    var rules := s.ended.value.rules;
    forall p: Packet | p.v6 <==> !IsDotted(n, p.dest)
      ensures Lets(g.attempts[|g.attempts| - 1], p) <==>
              p.established || p.loopback || (p.isTCP && p.port == 443 && p.dest in rules.accepts)
    {
      DisplayedLets(n, rules.hosts, rules.accepts, g.attempts[|g.attempts| - 1], p);
    }
    DisplayedAccepts(n, rules.hosts, rules.accepts, g.attempts[|g.attempts| - 1]);
  }
}
