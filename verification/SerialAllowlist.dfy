/** Classifying client certificates by serial number while the two lists are being replaced
    (tesseract-proxy/internal/mtls/mtls.go, `Allowlist`). */
module SerialAllowlist {
  import opened Options

  datatype Role = RoleNone | RoleOrder | RoleAdmin

  function Rank(r: Role): nat {
    match r case RoleNone => 0 case RoleOrder => 1 case RoleAdmin => 2
  }

  predicate Allows(r: Role, min: Role) {
    Rank(r) >= Rank(min) && r != RoleNone
  }

  /** Which roles pass which demands: an administrator every one, the order role all but the administrator's,
      and nobody without a role, whatever is demanded. */
  lemma AllowsExactly(r: Role, min: Role)
    ensures Allows(r, min) <==> r == RoleAdmin || (r == RoleOrder && min != RoleAdmin)
  {
  }

  /** Serials are kept in their decimal form. */
  type SerialSet = set<string>

  datatype Config = Config(order: SerialSet, admin: SerialSet)

  /** The role two lists give a serial; admin takes precedence. */
  function Classified(admin: SerialSet, order: SerialSet, serial: string): Role {
    if serial in admin then RoleAdmin else if serial in order then RoleOrder else RoleNone
  }

  /** Exactly one role: administrator if in that list, else order if in the other, else none. */
  lemma ClassifiedExactly(admin: SerialSet, order: SerialSet, serial: string)
    ensures Classified(admin, order, serial) == RoleAdmin <==> serial in admin
    ensures Classified(admin, order, serial) == RoleOrder <==> serial in order && serial !in admin
    ensures Classified(admin, order, serial) == RoleNone <==> serial !in order && serial !in admin
  {
  }

  function RoleIn(c: Config, serial: string): Role {
    Classified(c.admin, c.order, serial)
  }

  /** big.Int.SetString with base 0, and Text(10). */
  datatype Numerals = Numerals(parse: string -> Option<int>, decimal: int -> string)

  predicate Positive(n: Numerals, s: string) {
    n.parse(s).Some? && n.parse(s).value > 0
  }

  function SerialsOf(n: Numerals, input: seq<string>): SerialSet {
    set s | s in input && Positive(n, s) :: n.decimal(n.parse(s).value)
  }

  /** A decimal serial is in the set exactly when some input parses to a positive number of that form. */
  lemma SerialsExactly(n: Numerals, input: seq<string>, serial: string)
    ensures serial in SerialsOf(n, input) <==>
            exists s, v :: s in input && n.parse(s) == Some(v) && v > 0 && n.decimal(v) == serial
  {
    if s, v :| s in input && n.parse(s) == Some(v) && v > 0 && n.decimal(v) == serial {
      assert Positive(n, s);
    }
    if serial in SerialsOf(n, input) {
      var s :| s in input && Positive(n, s) && n.decimal(n.parse(s).value) == serial;
      assert n.parse(s) == Some(n.parse(s).value);
    }
  }

  method ParseSerials(n: Numerals, input: seq<string>) returns (out: Option<SerialSet>)
    ensures out.Some? <==> forall s :: s in input ==> Positive(n, s)
    ensures out.Some? ==> out.value == SerialsOf(n, input)
  {
    var serials: SerialSet := {};
    for i := 0 to |input|
      invariant forall j :: 0 <= j < i ==> Positive(n, input[j])
      invariant serials == SerialsOf(n, input[..i])
    {
      var s := input[i];
      assert s in input && input[..i + 1] == input[..i] + [s];
      if n.parse(s).None? {
        return None;
      }
      if n.parse(s).value <= 0 {
        return None;
      }
      serials := serials + {n.decimal(n.parse(s).value)};
    }
    assert input[..|input|] == input;
    return Some(serials);
  }

  class Allowlist {
    var order: SerialSet
    var admin: SerialSet

    constructor (c: Config)
      ensures Current() == c
    {
      order, admin := c.order, c.admin;
    }

    function Current(): Config
      reads this
    {
      Config(order, admin)
    }

    /** The two atomic loads of Classify and the two atomic stores of Replace. */
    method InAdmin(serial: string) returns (found: bool)
      ensures found == (serial in admin)
    {
      return serial in admin;
    }

    method InOrder(serial: string) returns (found: bool)
      ensures found == (serial in order)
    {
      return serial in order;
    }

    method StoreOrder(serials: SerialSet)
      modifies this`order
      ensures order == serials
    {
      order := serials;
    }

    method StoreAdmin(serials: SerialSet)
      modifies this`admin
      ensures admin == serials
    {
      admin := serials;
    }

    /** None stands for a missing serial. */
    method Classify(serial: Option<string>) returns (role: Role)
      ensures role == if serial.None? then RoleNone else RoleIn(Current(), serial.value)
    {
      if serial.None? {
        return RoleNone;
      }
      var found := InAdmin(serial.value);
      if found {
        return RoleAdmin;
      }
      found := InOrder(serial.value);
      if found {
        return RoleOrder;
      }
      return RoleNone;
    }

    /** Both lists are parsed before either is stored: a bad serial changes nothing. */
    method Replace(n: Numerals, orderSerials: seq<string>, adminSerials: seq<string>) returns (ok: bool)
      modifies this
      ensures ok <==> (forall s :: s in orderSerials ==> Positive(n, s)) && (forall s :: s in adminSerials ==> Positive(n, s))
      ensures Current() == if ok then Config(SerialsOf(n, orderSerials), SerialsOf(n, adminSerials)) else old(Current())
    {
      var o := ParseSerials(n, orderSerials);
      if o.None? {
        return false;
      }
      var a := ParseSerials(n, adminSerials);
      if a.None? {
        return false;
      }
      StoreOrder(o.value);
      StoreAdmin(a.value);
      return true;
    }
  }

  method NewAllowlist(n: Numerals, orderSerials: seq<string>, adminSerials: seq<string>) returns (a: Allowlist?)
    ensures a == null <==> ((exists s :: s in orderSerials && !Positive(n, s))
                            || (exists s :: s in adminSerials && !Positive(n, s))
                            || (SerialsOf(n, orderSerials) == {} && SerialsOf(n, adminSerials) == {}))
    ensures a != null ==> fresh(a) && a.Current() == Config(SerialsOf(n, orderSerials), SerialsOf(n, adminSerials))
  {
    var order := ParseSerials(n, orderSerials);
    if order.None? {
      return null;
    }
    var admin := ParseSerials(n, adminSerials);
    if admin.None? {
      return null;
    }
    if order.value == {} && admin.value == {} {
      return null;
    }
    a := new Allowlist(Config(order.value, admin.value));
  }

  // ----- one Classify among serialised Replaces, pointer by pointer -----

  /** The classifying call: not begun; begun in the configuration numbered `first`; missed in the admin
      list of configuration `seen`; finished while `last` was the newest one installed or being installed. */
  datatype Call =
    | NotBegun
    | Begun(first: nat)
    | MissedAdmin(first: nat, seen: nat)
    | Finished(first: nat, last: nat, role: Role)

  /** `configs` are all configurations ever installed, the last possibly still being installed: then
      `storing` holds, its order list is in place and its admin list is not. */
  datatype State = State(configs: seq<Config>, storing: bool, order: SerialSet, admin: SerialSet, call: Call)

  datatype Action = StoreOrder(c: Config) | StoreAdmin | Begin | LoadAdmin | LoadOrder

  predicate Enabled(s: State, a: Action) {
    match a
    case StoreOrder(c) => !s.storing
    case StoreAdmin => s.storing
    case Begin => s.call.NotBegun?
    case LoadAdmin => s.call.Begun?
    case LoadOrder => s.call.MissedAdmin?
  }

  /** The configuration in force: the last one whose admin list is in place. */
  function InForce(s: State): nat
    requires Consistent(s)
  {
    if s.storing then |s.configs| - 2 else |s.configs| - 1
  }

  predicate Consistent(s: State) {
    && |s.configs| >= (if s.storing then 2 else 1)
    && s.order == s.configs[|s.configs| - 1].order
    && s.admin == s.configs[|s.configs| - (if s.storing then 2 else 1)].admin
  }

  function Step(s: State, a: Action, serial: string): State
    requires Consistent(s) && Enabled(s, a)
  {
    match a
    case StoreOrder(c) => s.(configs := s.configs + [c], storing := true, order := c.order)
    case StoreAdmin => s.(storing := false, admin := s.configs[|s.configs| - 1].admin)
    case Begin => s.(call := Begun(InForce(s)))
    case LoadAdmin =>
      s.(call := if serial in s.admin then Finished(s.call.first, |s.configs| - 1, RoleAdmin)
                 else MissedAdmin(s.call.first, InForce(s)))
    case LoadOrder =>
      s.(call := Finished(s.call.first, |s.configs| - 1, if serial in s.order then RoleOrder else RoleNone))
  }

  ghost predicate IsRun(s: State, actions: seq<Action>, serial: string, t: State)
    decreases |actions|
  {
    if actions == [] then s == t
    else Consistent(s) && Enabled(s, actions[0]) && IsRun(Step(s, actions[0], serial), actions[1..], serial, t)
  }

  function Initial(c: Config): State {
    State([c], false, c.order, c.admin, NotBegun)
  }

  /** The role of the admin list of one configuration and the order list of one no older, both in force or
      being installed during the call. */
  ghost predicate Blend(configs: seq<Config>, first: nat, last: nat, serial: string, role: Role)
    requires last < |configs|
  {
    exists i, j :: first <= i <= j <= last && role == Classified(configs[i].admin, configs[j].order, serial)
  }

  ghost predicate Explained(s: State, serial: string) {
    && Consistent(s)
    && match s.call
       case NotBegun => true
       case Begun(first) => first <= InForce(s)
       case MissedAdmin(first, seen) => first <= seen <= InForce(s) && serial !in s.configs[seen].admin
       case Finished(first, last, role) => first <= last < |s.configs| && Blend(s.configs, first, last, serial, role)
  }

  lemma StepExplained(s: State, a: Action, serial: string)
    requires Explained(s, serial) && Enabled(s, a)
    ensures Explained(Step(s, a, serial), serial)
  {
    var t := Step(s, a, serial);
    match a
    case LoadAdmin =>
      if t.call.Finished? {
        var i := InForce(s);
        assert t.call.role == Classified(t.configs[i].admin, t.configs[i].order, serial);
      }
    case LoadOrder =>
      var i, j := s.call.seen, |s.configs| - 1;
      assert t.call.role == Classified(t.configs[i].admin, t.configs[j].order, serial);
    case StoreOrder(c) =>
      if s.call.Finished? {
        var i, j :| s.call.first <= i <= j <= s.call.last
                    && s.call.role == Classified(s.configs[i].admin, s.configs[j].order, serial);
        assert t.configs[i] == s.configs[i] && t.configs[j] == s.configs[j];
      }
    case StoreAdmin =>
    case Begin =>
  }

  lemma {:induction false} RunExplained(s: State, actions: seq<Action>, serial: string, t: State)
    requires Explained(s, serial) && IsRun(s, actions, serial, t)
    ensures Explained(t, serial)
    decreases |actions|
  {
    hide Step, Explained;
    if actions != [] {
      StepExplained(s, actions[0], serial);
      RunExplained(Step(s, actions[0], serial), actions[1..], serial, t);
    }
  }

  /** In every interleaving, a call returns at most the highest role that some configuration in force or
      being installed during it gives the serial, and so opens no endpoint that role would not. */
  lemma RoleNeverAbove(c: Config, actions: seq<Action>, serial: string, s: State)
    requires IsRun(Initial(c), actions, serial, s) && s.call.Finished?
    ensures s.call.last < |s.configs|
    ensures exists k :: s.call.first <= k <= s.call.last
                        && Rank(s.call.role) <= Rank(RoleIn(s.configs[k], serial))
                        && forall min :: Allows(s.call.role, min) ==> Allows(RoleIn(s.configs[k], serial), min)
  {
    var i, j := FinishedBlends(c, actions, serial, s);
    if serial in s.configs[i].admin {
      assert RoleIn(s.configs[i], serial) == RoleAdmin;
    } else {
      assert Rank(s.call.role) <= Rank(RoleIn(s.configs[j], serial));
    }
  }

  /** With no Replace overlapping the call, it returns exactly the configured role. */
  lemma RoleExactAlone(c: Config, actions: seq<Action>, serial: string, s: State)
    requires IsRun(Initial(c), actions, serial, s) && s.call.Finished?
    requires s.call.first == s.call.last
    ensures s.call.last < |s.configs| && s.call.role == RoleIn(s.configs[s.call.first], serial)
  {
    RunExplained(Initial(c), actions, serial, s);
  }

  // ----- when a call can be refused although every configuration allows the serial -----

  predicate OrderOnly(c: Config, serial: string) {
    serial in c.order && serial !in c.admin
  }

  predicate AdminOnly(c: Config, serial: string) {
    serial in c.admin && serial !in c.order
  }

  predicate Listed(c: Config, serial: string) {
    serial in c.order || serial in c.admin
  }

  /** Configurations i to j all list the serial, the first in its order list alone and the last in its
      admin list alone. */
  predicate PromotedBetween(cs: seq<Config>, i: nat, j: nat, serial: string) {
    && i < j < |cs|
    && OrderOnly(cs[i], serial) && AdminOnly(cs[j], serial)
    && forall k :: i <= k <= j ==> Listed(cs[k], serial)
  }

  /** No Replace is under way. */
  function Settled(cs: seq<Config>, call: Call): State
    requires cs != []
  {
    State(cs, false, cs[|cs| - 1].order, cs[|cs| - 1].admin, call)
  }

  lemma {:induction false} RunAppend(s: State, xs: seq<Action>, t: State, ys: seq<Action>, u: State, serial: string)
    requires IsRun(s, xs, serial, t) && IsRun(t, ys, serial, u)
    ensures IsRun(s, xs + ys, serial, u)
    decreases |xs|
  {
    hide Consistent, Enabled, Step;
    if xs == [] {
      assert xs + ys == ys;
    } else {
      RunAppend(Step(s, xs[0], serial), xs[1..], t, ys, u, serial);
      assert (xs + ys)[0] == xs[0] && (xs + ys)[1..] == xs[1..] + ys;
    }
  }

  lemma SingleStep(s: State, a: Action, serial: string)
    requires Consistent(s) && Enabled(s, a)
    ensures IsRun(s, [a], serial, Step(s, a, serial))
  {
    assert [a][1..] == [];
  }

  lemma RunStep(s: State, xs: seq<Action>, t: State, a: Action, serial: string)
    requires IsRun(s, xs, serial, t) && Consistent(t) && Enabled(t, a)
    ensures IsRun(s, xs + [a], serial, Step(t, a, serial))
  {
    hide IsRun;
    SingleStep(t, a, serial);
    RunAppend(s, xs, t, [a], Step(t, a, serial), serial);
  }

  /** Replaces that install the configurations up to number n, one after the other. */
  lemma {:induction false} InstallUpTo(cs: seq<Config>, m: nat, n: nat, call: Call, serial: string)
      returns (actions: seq<Action>)
    requires 0 < m <= n <= |cs|
    ensures IsRun(Settled(cs[..m], call), actions, serial, Settled(cs[..n], call))
    decreases n
  {
    if m == n {
      actions := [];
    } else {
      hide IsRun;
      var before := InstallUpTo(cs, m, n - 1, call, serial);
      var s := Settled(cs[..n - 1], call);
      assert cs[..n] == cs[..n - 1] + [cs[n - 1]];
      var s1 := Step(s, StoreOrder(cs[n - 1]), serial);
      RunStep(Settled(cs[..m], call), before, s, StoreOrder(cs[n - 1]), serial);
      RunStep(Settled(cs[..m], call), before + [StoreOrder(cs[n - 1])], s1, StoreAdmin, serial);
      actions := before + [StoreOrder(cs[n - 1])] + [StoreAdmin];
      assert Step(s1, StoreAdmin, serial) == Settled(cs[..n], call);
    }
  }

  /** A call that begins and misses in the admin list of configuration i, and then looks in the order list
      of configuration j. */
  lemma CallAcross(cs: seq<Config>, i: nat, j: nat, serial: string) returns (actions: seq<Action>, s: State)
    requires i <= j < |cs| && serial !in cs[i].admin
    ensures IsRun(Initial(cs[0]), actions, serial, s) && s.configs == cs
    ensures s.call == Finished(i, j, if serial in cs[j].order then RoleOrder else RoleNone)
  {
    hide IsRun;
    var role := if serial in cs[j].order then RoleOrder else RoleNone;
    var start := Initial(cs[0]);
    assert start == Settled(cs[..1], NotBegun);
    actions := InstallUpTo(cs, 1, i + 1, NotBegun, serial);
    var s1 := Settled(cs[..i + 1], NotBegun);
    RunStep(start, actions, s1, Begin, serial);
    actions := actions + [Begin];
    var s2 := Settled(cs[..i + 1], Begun(i));
    RunStep(start, actions, s2, LoadAdmin, serial);
    actions := actions + [LoadAdmin];
    var more := InstallUpTo(cs, i + 1, j + 1, MissedAdmin(i, i), serial);
    var s3 := Settled(cs[..j + 1], MissedAdmin(i, i));
    RunAppend(start, actions, Settled(cs[..i + 1], MissedAdmin(i, i)), more, s3, serial);
    actions := actions + more;
    RunStep(start, actions, s3, LoadOrder, serial);
    actions := actions + [LoadOrder];
    more := InstallUpTo(cs, j + 1, |cs|, Finished(i, j, role), serial);
    s := Settled(cs[..|cs|], Finished(i, j, role));
    assert cs[..|cs|] == cs;
    RunAppend(start, actions, Settled(cs[..j + 1], Finished(i, j, role)), more, s, serial);
    actions := actions + more;
  }

  /** Across a promotion a call can be refused, although every configuration from i to j lists the serial. */
  lemma PromotionCanRefuse(cs: seq<Config>, i: nat, j: nat, serial: string) returns (actions: seq<Action>, s: State)
    requires PromotedBetween(cs, i, j, serial)
    ensures IsRun(Initial(cs[0]), actions, serial, s)
    ensures s.configs == cs && s.call == Finished(i, j, RoleNone)
    ensures forall k :: i <= k <= j ==> RoleIn(cs[k], serial) != RoleNone
  {
    hide IsRun;
    actions, s := CallAcross(cs, i, j, serial);
  }

  /** Between configurations i and j the serial goes from neither list to both, and none of them has it in
      the order list alone. */
  predicate RaisedBetween(cs: seq<Config>, i: nat, j: nat, serial: string) {
    && i < j < |cs|
    && !Listed(cs[i], serial) && serial in cs[j].order && serial in cs[j].admin
    && forall k :: i <= k <= j ==> !OrderOnly(cs[k], serial)
  }

  /** Across that a call can return the order role, although no configuration from i to j gives it. */
  lemma RaiseCanMislead(cs: seq<Config>, i: nat, j: nat, serial: string) returns (actions: seq<Action>, s: State)
    requires RaisedBetween(cs, i, j, serial)
    ensures IsRun(Initial(cs[0]), actions, serial, s)
    ensures s.configs == cs && s.call == Finished(i, j, RoleOrder)
    ensures forall k :: i <= k <= j ==> RoleIn(cs[k], serial) != RoleOrder
  {
    hide IsRun;
    actions, s := CallAcross(cs, i, j, serial);
  }

  /** Some configuration in force or being installed during the call gives exactly the role it returned. */
  predicate Given(cs: seq<Config>, call: Call, serial: string)
    requires call.Finished? && call.last < |cs|
  {
    exists k :: call.first <= k <= call.last && call.role == RoleIn(cs[k], serial)
  }

  /** To the call, every Replace looks atomic, whatever the interleaving with the Replaces that installed `cs`. */
  ghost predicate Atomic(cs: seq<Config>, serial: string)
    requires cs != []
  {
    forall actions, s ::
      IsRun(Initial(cs[0]), actions, serial, s) && s.configs == cs && s.call.Finished? ==>
        s.call.last < |cs| && Given(cs, s.call, serial)
  }

  /** A role that no configuration from `first` to `last` gives comes from a promotion or a raise. */
  lemma NotGivenMeans(cs: seq<Config>, first: nat, i: nat, j: nat, last: nat, serial: string)
    requires first <= i <= j <= last < |cs|
    requires forall k :: first <= k <= last ==> Classified(cs[i].admin, cs[j].order, serial) != RoleIn(cs[k], serial)
    ensures PromotedBetween(cs, i, j, serial) || RaisedBetween(cs, i, j, serial)
  {
    var role := Classified(cs[i].admin, cs[j].order, serial);
    assert role != RoleIn(cs[i], serial) && role != RoleIn(cs[j], serial);
    if role == RoleOrder {
      forall k | i <= k <= j ensures !OrderOnly(cs[k], serial) {
        assert role != RoleIn(cs[k], serial);
      }
    } else {
      forall k | i <= k <= j ensures Listed(cs[k], serial) {
        assert role != RoleIn(cs[k], serial);
      }
    }
  }

  /** Exactly when the Replaces look atomic to every call: no stretch of configurations promotes the serial
      from order-only to admin-only while all list it, or raises it from neither list to both without ever
      having it in the order list alone. */
  lemma AtomicUnlessPromotedOrRaised(cs: seq<Config>, serial: string)
    requires cs != []
    ensures Atomic(cs, serial) <==>
              !exists i: nat, j: nat :: PromotedBetween(cs, i, j, serial) || RaisedBetween(cs, i, j, serial)
  {
    hide IsRun, Explained;
    if i: nat, j: nat :| PromotedBetween(cs, i, j, serial) || RaisedBetween(cs, i, j, serial) {
      var actions, s;
      if PromotedBetween(cs, i, j, serial) {
        actions, s := PromotionCanRefuse(cs, i, j, serial);
      } else {
        actions, s := RaiseCanMislead(cs, i, j, serial);
      }
      assert !Given(cs, s.call, serial);
    } else {
      forall actions, s | IsRun(Initial(cs[0]), actions, serial, s) && s.configs == cs && s.call.Finished?
        ensures s.call.last < |cs| && Given(cs, s.call, serial)
      {
        var i, j := FinishedBlends(cs[0], actions, serial, s);
        if !Given(cs, s.call, serial) {
          NotGivenMeans(cs, s.call.first, i, j, s.call.last, serial);
        }
      }
    }
  }

  /** Which two lists a finished call has looked in. */
  lemma FinishedBlends(c: Config, actions: seq<Action>, serial: string, s: State) returns (i: nat, j: nat)
    requires IsRun(Initial(c), actions, serial, s) && s.call.Finished?
    ensures s.call.first <= i <= j <= s.call.last < |s.configs|
    ensures s.call.role == Classified(s.configs[i].admin, s.configs[j].order, serial)
  {
    RunExplained(Initial(c), actions, serial, s);
    i, j :| s.call.first <= i <= j <= s.call.last
            && s.call.role == Classified(s.configs[i].admin, s.configs[j].order, serial);
  }

  /** The role is at least the one that some configuration in force or being installed during the call gives. */
  predicate NotBelow(cs: seq<Config>, call: Call, serial: string)
    requires call.Finished? && call.last < |cs|
  {
    exists k :: call.first <= k <= call.last && Rank(call.role) >= Rank(RoleIn(cs[k], serial))
  }

  /** Whatever the interleaving of the call with the Replaces that installed `cs`, the role is not below
      all the configurations it overlaps. */
  ghost predicate NeverBelow(cs: seq<Config>, serial: string)
    requires cs != []
  {
    forall actions, s ::
      IsRun(Initial(cs[0]), actions, serial, s) && s.configs == cs && s.call.Finished? ==>
        s.call.last < |cs| && NotBelow(cs, s.call, serial)
  }

  /** A role below all configurations from i to j can only be a refusal after a promotion. */
  lemma BelowMeansPromoted(cs: seq<Config>, first: nat, i: nat, j: nat, last: nat, serial: string)
    requires first <= i <= j <= last < |cs|
    requires forall k :: first <= k <= last ==>
               Rank(Classified(cs[i].admin, cs[j].order, serial)) < Rank(RoleIn(cs[k], serial))
    ensures PromotedBetween(cs, i, j, serial)
  {
    assert Rank(RoleIn(cs[i], serial)) > 0 && Rank(RoleIn(cs[j], serial)) > 0;
  }

  /** That is so exactly when no stretch of configurations that all list the serial begins with it in the
      order list alone and ends with it in the admin list alone. */
  lemma NeverBelowUnlessPromoted(cs: seq<Config>, serial: string)
    requires cs != []
    ensures NeverBelow(cs, serial) <==> !exists i: nat, j: nat :: PromotedBetween(cs, i, j, serial)
  {
    if i: nat, j: nat :| PromotedBetween(cs, i, j, serial) {
      var actions, s := PromotionCanRefuse(cs, i, j, serial);
      hide IsRun;
      assert !NotBelow(cs, s.call, serial);
    } else {
      forall actions, s | IsRun(Initial(cs[0]), actions, serial, s) && s.configs == cs && s.call.Finished?
        ensures s.call.last < |cs| && NotBelow(cs, s.call, serial)
      {
        var i, j := FinishedBlends(cs[0], actions, serial, s);
        if !NotBelow(cs, s.call, serial) {
          BelowMeansPromoted(cs, s.call.first, i, j, s.call.last, serial);
        }
      }
    }
  }

  // ----- the allowlist takes these steps -----

  ghost predicate Refines(a: Allowlist, s: State)
    reads a
  {
    Consistent(s) && a.order == s.order && a.admin == s.admin
  }

  /** What the classifying call returns when this step finishes it. */
  function Returned(s: State, a: Action, serial: string): Option<Role>
    requires Consistent(s) && Enabled(s, a)
  {
    var t := Step(s, a, serial);
    if t.call.Finished? && !s.call.Finished? then Some(t.call.role) else None
  }

  /** Every load and store of the allowlist is one step of the machine, and a finished call returns what the
      machine says. `installing` is the configuration that Replace has parsed. */
  method Perform(list: Allowlist, ghost s: State, a: Action, serial: string, installing: Config) returns (role: Option<Role>)
    requires Refines(list, s) && Enabled(s, a)
    requires a.StoreOrder? ==> a.c == installing
    requires a.StoreAdmin? ==> s.configs[|s.configs| - 1] == installing
    modifies list
    ensures Refines(list, Step(s, a, serial)) && role == Returned(s, a, serial)
  {
    role := None;
    match a
    case StoreOrder(_) => list.StoreOrder(installing.order);
    case StoreAdmin => list.StoreAdmin(installing.admin);
    case Begin =>
    case LoadAdmin =>
      var found := list.InAdmin(serial);
      if found {
        role := Some(RoleAdmin);
      }
    case LoadOrder =>
      var found := list.InOrder(serial);
      role := Some(if found then RoleOrder else RoleNone);
  }

  /** An allowlist whose loads and stores are interleaved in any way is in the state the run reaches. */
  method PerformAll(c: Config, actions: seq<Action>, serial: string, ghost t: State) returns (list: Allowlist)
    requires IsRun(Initial(c), actions, serial, t)
    ensures fresh(list) && list.order == t.order && list.admin == t.admin
  {
    list := new Allowlist(c);
    var installing := c;
    ghost var s := Initial(c);
    assert actions[0..] == actions;
    for k := 0 to |actions|
      invariant fresh(list) && Refines(list, s) && IsRun(s, actions[k..], serial, t)
      invariant s.storing ==> s.configs[|s.configs| - 1] == installing
    {
      hide Refines;
      assert actions[k..][0] == actions[k] && actions[k..][1..] == actions[k + 1..];
      if actions[k].StoreOrder? {
        installing := actions[k].c;
      }
      var role := Perform(list, s, actions[k], serial, installing);
      s := Step(s, actions[k], serial);
    }
  }
}
