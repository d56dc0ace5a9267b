/** What holds over whole runs of polls: the short cuts are sound, versions only grow, and the
    outbound rules follow the live bundle
    (tesseract-proxy/internal/bundleupd/updater.go, `Tick`; tesseract-proxy/cmd/proxy/main.go, `OnSwap`). */
module BundleRuns {
  import opened Options
  import opened Files
  import opened Profile
  import opened Router
  import opened BundleLoad
  import opened BundleUpdater
  import opened Ordering
  import BundleSafety

  // ----- runs -----

  /** One poll: what the server was serving, what the fetch returned, which steps failed. */
  datatype Poll = Poll(served: Bytes, fetch: Fetch, faults: Faults)

  datatype State = State(disk: Disk, mem: Memory)

  function Step(w: World, s: State, p: Poll): State {
    var r := TickRun(w, s.disk, s.mem, p.fetch, p.faults);
    State(After(s.disk, r.states), r.mem)
  }

  function Succeeds(w: World, s: State, p: Poll): bool {
    TickRun(w, s.disk, s.mem, p.fetch, p.faults).ok
  }

  function Run(w: World, s: State, polls: seq<Poll>): State
    decreases |polls|
  {
    if polls == [] then s else Run(w, Step(w, s, polls[0]), polls[1..])
  }

  // ----- the environment -----

  /** SHA-256, taken to be free of collisions and never all zero. */
  ghost predicate GoodHash(w: World) {
    && (forall x, y :: w.hash(x) == w.hash(y) ==> x == y)
    && (forall x :: w.hash(x) != 0)
  }

  /** The server answers a poll made with `etag` for what it serves: 304 only when that tag names it
      (section 13.1.2 of RFC 9110), and a tag only for the content it names. */
  predicate Honest(named: string -> Bytes, etag: string, p: Poll) {
    match p.fetch
    case FetchFailed => true
    case NotModified => etag != "" && named(etag) == p.served
    case Fetched(bundle, sig, tag) => bundle == p.served && (tag != "" ==> named(tag) == p.served)
  }

  ghost predicate HonestRun(w: World, named: string -> Bytes, s: State, polls: seq<Poll>)
    decreases |polls|
  {
    polls == [] || (Honest(named, s.mem.lastETag, polls[0]) && HonestRun(w, named, Step(w, s, polls[0]), polls[1..]))
  }

  // ----- the short cuts -----

  /** The published table is the one built from these bytes. */
  predicate LiveIs(w: World, m: Memory, bytes: Bytes) {
    && m.live.Some?
    && w.decode(bytes).Some?
    && ValidBundle(w.lib, w.decode(bytes).value)
    && TableOf(w.decode(bytes).value) == m.live
  }

  ghost predicate Remembers(w: World, named: string -> Bytes, m: Memory) {
    && (m.lastHash != 0 ==> exists bytes :: w.hash(bytes) == m.lastHash && LiveIs(w, m, bytes))
    && (m.lastETag != "" ==> LiveIs(w, m, named(m.lastETag)))
  }

  lemma LoadedIsLive(w: World, bundle: Bytes, sig: Bytes, previous: string, etag: string)
    requires Load(w, bundle, sig, previous).Some?
    ensures LiveIs(w, Published(w, Load(w, bundle, sig, previous).value, bundle, etag), bundle)
  {
  }

  /** An installing poll that succeeds has loaded exactly the fetched bytes. */
  lemma InstallLoads(w: World, d: Disk, m: Memory, bundle: Bytes, sig: Bytes, etag: string, f: Faults)
    requires Install(w, d, m, bundle, sig, etag, f).ok
    ensures Load(w, bundle, sig, LiveVersion(m)).Some?
    ensures Install(w, d, m, bundle, sig, etag, f).mem
            == Published(w, Load(w, bundle, sig, LiveVersion(m)).value, bundle, etag)
  {
    BundleSafety.StageBothOnlyStages(d, bundle, sig, f);
    hide StageBoth, PromoteBoth, Load, Published, UnstageBoth;
  }

  /** After every poll that reports success, however it was short-cut, the published table is the one
      built from what the server was serving; and the two memories stay truthful after every poll. */
  lemma TickIsUpToDate(w: World, named: string -> Bytes, s: State, p: Poll)
    requires GoodHash(w) && Remembers(w, named, s.mem) && Honest(named, s.mem.lastETag, p)
    ensures Remembers(w, named, Step(w, s, p).mem)
    ensures Succeeds(w, s, p) ==> LiveIs(w, Step(w, s, p).mem, p.served)
  {
    if !Succeeds(w, s, p) {
      BundleSafety.FailedTickForgets(w, s.disk, s.mem, p.fetch, p.faults);
      hide TickRun, LiveIs;
    } else if p.fetch.Fetched? {
      var bundle := p.fetch.bundle;
      hide Install, LiveIs;
      if w.hash(bundle) != s.mem.lastHash {
        InstallLoads(w, s.disk, s.mem, bundle, p.fetch.sig, p.fetch.etag, p.faults);
        LoadedIsLive(w, bundle, p.fetch.sig, LiveVersion(s.mem), p.fetch.etag);
        hide Load;
      } else {
        var bytes :| w.hash(bytes) == s.mem.lastHash && LiveIs(w, s.mem, bytes);
        assert bytes == bundle;
        SameLive(w, s.mem, Step(w, s, p).mem);
      }
    }
  }

  lemma SameLive(w: World, m: Memory, m': Memory)
    requires m.live == m'.live
    ensures forall bytes :: LiveIs(w, m, bytes) == LiveIs(w, m', bytes)
  {
  }

  /** Over any run of polls of an honest server, from a process that remembers nothing yet: wherever a
      poll succeeds, the router is not behind what the server served then. */
  lemma {:induction false} RunsStayUpToDate(w: World, named: string -> Bytes, s: State, polls: seq<Poll>, k: nat)
    requires GoodHash(w) && Remembers(w, named, s.mem) && HonestRun(w, named, s, polls)
    requires k < |polls| && Succeeds(w, Run(w, s, polls[..k]), polls[k])
    ensures LiveIs(w, Run(w, s, polls[..k + 1]).mem, polls[k].served)
    decreases |polls|
  {
    hide Remembers, LiveIs, Honest, Step, Succeeds;
    var s1 := Step(w, s, polls[0]);
    TickIsUpToDate(w, named, s, polls[0]);
    if k == 0 {
      assert polls[..0] == [] && polls[..1] == [polls[0]] && polls[..1][1..] == [];
    } else {
      assert polls[..k][1..] == polls[1..][..k - 1] && polls[..k + 1][1..] == polls[1..][..k];
      RunsStayUpToDate(w, named, s1, polls[1..], k - 1);
    }
  }

  /** A freshly started process remembers nothing, so the run theorems apply to it. */
  lemma BootRemembersNothing(w: World, named: string -> Bytes, live: Option<Table>, hosts: seq<string>)
    ensures Remembers(w, named, Memory(live, "", 0, hosts))
  {
  }

  /** The bundle that is live is no longer acceptable: its version is not greater than its own. */
  lemma LiveIsRefused(w: World, m: Memory, bundle: Bytes, sig: Bytes)
    requires w.lib.blank("") && LiveIs(w, m, bundle)
    ensures Load(w, bundle, sig, LiveVersion(m)).None?
  {
    LoadsExactly(w, bundle, sig, LiveVersion(m));
    LessTotal(LiveVersion(m), LiveVersion(m));
    hide Load, Compiles, RoutesOf;
  }

  /** Fetching the booted bundle again right after a start is refused, not skipped: its version is not
      greater than its own. Memory is unchanged. */
  lemma BootedBundleIsRefused(w: World, d: Disk, hosts: seq<string>, bundle: Bytes, sig: Bytes, sig2: Bytes, etag: string, f: Faults)
    requires GoodHash(w) && w.lib.blank("")
    requires Load(w, bundle, sig, "").Some?
    ensures var m := Memory(Some(Load(w, bundle, sig, "").value.table), "", 0, hosts);
            !TickRun(w, d, m, Fetched(bundle, sig2, etag), f).ok
            && TickRun(w, d, m, Fetched(bundle, sig2, etag), f).mem == m
  {
    var m := Memory(Some(Load(w, bundle, sig, "").value.table), "", 0, hosts);
    LoadedIsLive(w, bundle, sig, "", etag);
    SameLive(w, Published(w, Load(w, bundle, sig, "").value, bundle, etag), m);
    LiveIsRefused(w, m, bundle, sig2);
    hide Load;
    if TickRun(w, d, m, Fetched(bundle, sig2, etag), f).ok {
      InstallLoads(w, d, m, bundle, sig2, etag, f);
    }
    BundleSafety.FailedTickForgets(w, d, m, Fetched(bundle, sig2, etag), f);
  }

  /** An installed bundle is remembered: a later poll that fetches the same bytes, with whatever signature and
      tag and whatever would fail, succeeds without touching a file, and only the tag changes. */
  lemma InstalledIsSeen(w: World, d: Disk, m: Memory, bundle: Bytes, sig: Bytes, etag: string, f: Faults,
                        d': Disk, sig': Bytes, etag': string, f': Faults)
    requires bundle != [] && sig' != [] && Install(w, d, m, bundle, sig, etag, f).ok
    ensures var m1 := Install(w, d, m, bundle, sig, etag, f).mem;
            && m1.lastETag == etag
            && TickRun(w, d', m1, Fetched(bundle, sig', etag'), f')
               == Result([], Memory(m1.live, etag', m1.lastHash, m1.hosts), true)
  {
    InstallLoads(w, d, m, bundle, sig, etag, f);
    hide Install, Load;
  }

  /** While the memories are truthful, a bundle that passes every gate is one the updater has not seen: so
      after any failing poll, the next fault-free poll that fetches such a bundle leaves a matching pair. */
  lemma AcceptableIsUnseen(w: World, named: string -> Bytes, m: Memory, bundle: Bytes, sig: Bytes)
    requires GoodHash(w) && w.lib.blank("") && Remembers(w, named, m)
    requires Load(w, bundle, sig, LiveVersion(m)).Some?
    ensures w.hash(bundle) != m.lastHash
  {
    if w.hash(bundle) == m.lastHash {
      LiveIsRefused(w, m, bundle, sig);
      assert false;
    }
  }

  // ----- versions -----

  /** A poll either leaves the table as it was or publishes one of a strictly greater version that
      passed every gate. */
  lemma TickPublishesGreater(w: World, s: State, p: Poll)
    ensures var m, m' := s.mem, Step(w, s, p).mem;
            || m'.live == m.live
            || (p.fetch.Fetched? && Load(w, p.fetch.bundle, p.fetch.sig, LiveVersion(m)).Some?
                && m'.live == Some(Load(w, p.fetch.bundle, p.fetch.sig, LiveVersion(m)).value.table)
                && (LiveVersion(m) == "" || Less(LiveVersion(m), LiveVersion(m'))))
  {
    if p.fetch.Fetched? {
      var bundle, sig, etag := p.fetch.bundle, p.fetch.sig, p.fetch.etag;
      if bundle != [] && sig != [] && w.hash(bundle) != s.mem.lastHash {
        if Install(w, s.disk, s.mem, bundle, sig, etag, p.faults).ok {
          InstallLoads(w, s.disk, s.mem, bundle, sig, etag, p.faults);
          LoadsExactly(w, bundle, sig, LiveVersion(s.mem));
          LoadedVersion(w, bundle, sig, LiveVersion(s.mem));
        } else {
          BundleSafety.FailedTickForgets(w, s.disk, s.mem, p.fetch, p.faults);
        }
      }
      hide Install, Load, MonotonicGate;
    }
  }

  lemma LoadedVersion(w: World, bundle: Bytes, sig: Bytes, previous: string)
    requires Load(w, bundle, sig, previous).Some?
    ensures Load(w, bundle, sig, previous).value.table.bundleVersion == w.decode(bundle).value.bundleVersion
    ensures previous == "" || Less(previous, Load(w, bundle, sig, previous).value.table.bundleVersion)
    ensures w.lib.blank("") ==> Load(w, bundle, sig, previous).value.table.bundleVersion != ""
  {
    LoadsExactly(w, bundle, sig, previous);
  }

  /** The versions published by a run, in order. */
  function PublishedVersions(w: World, s: State, polls: seq<Poll>): seq<string>
    decreases |polls|
  {
    if polls == [] then []
    else
      var s1 := Step(w, s, polls[0]);
      (if s1.mem.live != s.mem.live then [LiveVersion(s1.mem)] else []) + PublishedVersions(w, s1, polls[1..])
  }

  /** Across any run of polls the published versions strictly increase, starting above the version that
      was live before. */
  lemma {:induction false} VersionsIncrease(w: World, s: State, polls: seq<Poll>)
    requires w.lib.blank("")
    ensures StrictlySorted(PublishedVersions(w, s, polls))
    ensures forall k :: 0 <= k < |PublishedVersions(w, s, polls)| ==>
              LiveVersion(s.mem) == "" || Less(LiveVersion(s.mem), PublishedVersions(w, s, polls)[k])
    decreases |polls|
  {
    hide Step, Less, StrictlySorted, LiveVersion;
    if polls == [] {
      NothingSorted();
    } else {
      var s1 := Step(w, s, polls[0]);
      var rest := PublishedVersions(w, s1, polls[1..]);
      VersionsIncrease(w, s1, polls[1..]);
      if s1.mem.live != s.mem.live {
        NewVersionIsGreater(w, s, polls[0]);
        var v, v1 := LiveVersion(s.mem), LiveVersion(s1.mem);
        forall k | 0 <= k < |rest| ensures Less(v1, rest[k]) && (v == "" || Less(v, rest[k])) {
          if v != "" {
            LessTransitive(v, v1, rest[k]);
          }
        }
        SortedCons(v1, rest);
      } else {
        assert PublishedVersions(w, s, polls) == [] + rest == rest;
        SameVersion(s1.mem, s.mem);
      }
    }
  }

  lemma NothingSorted()
    ensures StrictlySorted([])
  {
  }

  lemma SameVersion(m: Memory, m': Memory)
    requires m.live == m'.live
    ensures LiveVersion(m) == LiveVersion(m')
  {
  }

  lemma NewVersionIsGreater(w: World, s: State, p: Poll)
    requires w.lib.blank("") && Step(w, s, p).mem.live != s.mem.live
    ensures var v, v1 := LiveVersion(s.mem), LiveVersion(Step(w, s, p).mem);
            v1 != "" && (v == "" || Less(v, v1))
  {
    TickPublishesGreater(w, s, p);
    LoadedVersion(w, p.fetch.bundle, p.fetch.sig, LiveVersion(s.mem));
    hide Step, Load, Less;
  }

  lemma SortedCons(x: string, s: seq<string>)
    requires StrictlySorted(s) && forall k :: 0 <= k < |s| ==> Less(x, s[k])
    ensures StrictlySorted([x] + s)
  {
  }

  // ----- the outbound hosts -----

  /** The hosts of the enabled brokers of a table. */
  function TableHosts(t: Table): set<string> {
    set id | id in t.byBroker && t.byBroker[id].profile.enabled :: t.byBroker[id].profile.host
  }

  /** The generator's host list is the sorted, duplicate-free list of the live table's enabled hosts. */
  ghost predicate HostsFollow(m: Memory) {
    m.live.Some? ==> StrictlySorted(m.hosts) && Elements(m.hosts) == TableHosts(m.live.value)
  }

  lemma TableHostsOfBundle(lib: Library, b: Bundle, t: Table)
    requires ValidBundle(lib, b) && TableOf(b) == Some(t)
    ensures TableHosts(t) == Elements(EnabledHosts(b.brokers))
  {
    hide ValidBroker, Compiles, RoutesOf;
    forall h ensures h in TableHosts(t) <==> h in Elements(EnabledHosts(b.brokers)) {
      EnabledHostsExact(b.brokers, h);
      if h in TableHosts(t) {
        var id :| id in t.byBroker && t.byBroker[id].profile.enabled && t.byBroker[id].profile.host == h;
        ByBrokerHolds(b.brokers, id);
      }
      if i :| 0 <= i < |b.brokers| && b.brokers[i].enabled && b.brokers[i].host == h {
        ByBrokerHolds(b.brokers, b.brokers[i].id);
        assert b.brokers[i].id in t.byBroker;
      }
    }
  }

  /** After every poll the outbound host list is exactly the live bundle's. */
  lemma TickKeepsHosts(w: World, s: State, p: Poll)
    requires HostsFollow(s.mem)
    ensures HostsFollow(Step(w, s, p).mem)
  {
    if !Succeeds(w, s, p) {
      BundleSafety.FailedTickForgets(w, s.disk, s.mem, p.fetch, p.faults);
      hide TickRun, HostsFollow;
    } else if p.fetch.Fetched? && w.hash(p.fetch.bundle) != s.mem.lastHash {
      var bundle, sig, etag := p.fetch.bundle, p.fetch.sig, p.fetch.etag;
      InstallLoads(w, s.disk, s.mem, bundle, sig, etag, p.faults);
      LoadsExactly(w, bundle, sig, LiveVersion(s.mem));
      var l := Load(w, bundle, sig, LiveVersion(s.mem)).value;
      LoadedParts(w, bundle, sig, LiveVersion(s.mem));
      hide Install, Load, ValidBundle, TableOf, TableHosts;
      TableHostsOfBundle(w.lib, l.bundle, l.table);
      SortedSetCanonical(EnabledHosts(l.bundle.brokers));
    }
  }

  lemma LoadedParts(w: World, bundle: Bytes, sig: Bytes, previous: string)
    requires Load(w, bundle, sig, previous).Some?
    ensures var l := Load(w, bundle, sig, previous).value;
            w.decode(bundle) == Some(l.bundle) && ValidBundle(w.lib, l.bundle) && TableOf(l.bundle) == Some(l.table)
  {
    hide ValidBundle, TableOf;
  }

  /** A started process has published the table of the bundle under current. */
  lemma BootIsLive(w: World, d: Disk)
    requires LoadCurrent(w, d).Some?
    ensures LiveIs(w, Booted(LoadCurrent(w, d).value), d[BundleSafety.CUR_BUNDLE])
  {
    LoadedParts(w, d[BundleSafety.CUR_BUNDLE], d[BundleSafety.CUR_SIG], "");
    hide Load, ValidBundle, TableOf;
  }

  /** No poll ever takes the table away. */
  lemma {:induction false} RunsKeepLive(w: World, s: State, polls: seq<Poll>)
    requires s.mem.live.Some?
    ensures Run(w, s, polls).mem.live.Some?
    decreases |polls|
  {
    hide Step;
    if polls != [] {
      TickPublishesGreater(w, s, polls[0]);
      RunsKeepLive(w, Step(w, s, polls[0]), polls[1..]);
    }
  }

  /** The start hands the generator the hosts of the bundle it has loaded. */
  lemma BootHosts(w: World, d: Disk)
    requires LoadCurrent(w, d).Some?
    ensures HostsFollow(Booted(LoadCurrent(w, d).value))
  {
    var l := LoadCurrent(w, d).value;
    LoadedParts(w, d[BundleSafety.CUR_BUNDLE], d[BundleSafety.CUR_SIG], "");
    hide Load, ValidBundle, TableOf, TableHosts;
    TableHostsOfBundle(w.lib, l.bundle, l.table);
    SortedSetCanonical(EnabledHosts(l.bundle.brokers));
  }

  lemma {:induction false} RunsKeepHosts(w: World, s: State, polls: seq<Poll>)
    requires HostsFollow(s.mem)
    ensures HostsFollow(Run(w, s, polls).mem)
    decreases |polls|
  {
    hide HostsFollow, Step;
    if polls != [] {
      TickKeepsHosts(w, s, polls[0]);
      RunsKeepHosts(w, Step(w, s, polls[0]), polls[1..]);
    }
  }

  /** From any start, after any run of polls with any failures, a table is live and the outbound hosts are
      its enabled hosts, sorted and without duplicates. */
  lemma HostsAlwaysFollow(w: World, d: Disk, polls: seq<Poll>)
    requires LoadCurrent(w, d).Some?
    ensures var m := Run(w, State(d, Booted(LoadCurrent(w, d).value)), polls).mem;
            m.live.Some? && StrictlySorted(m.hosts) && Elements(m.hosts) == TableHosts(m.live.value)
  {
    hide LoadCurrent, Run, TableHosts, StrictlySorted, Elements, SortedSet, EnabledHosts;
    BootHosts(w, d);
    var s := State(d, Booted(LoadCurrent(w, d).value));
    RunsKeepHosts(w, s, polls);
    RunsKeepLive(w, s, polls);
  }
}
